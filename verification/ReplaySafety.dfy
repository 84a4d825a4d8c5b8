/** Replaying a log onto pages is idempotent, and can be stopped and restarted anywhere (recovery.rs:16-98). */
module ReplaySafety {
  import opened Prelude
  import opened LogFormat
  import opened Pages
  import opened Recovery

  /** Readable pages carry their own id and the file has all slots below `next`, as every state of the page manager that
      was reached without page corruption does (`Pages.AllocatorInv` implies it). */
  ghost predicate Readable(lib: Lib, ps: PageState) {
    && PAGE_SIZE * ps.next <= |ps.bytes|
    && (forall id :: id in ps.free ==> id < ps.next)
    && (forall id :: 0 <= id < ps.next && PageAt(lib, ps.bytes, id).Some? ==>
          PageAt(lib, ps.bytes, id).value.header.pageId == id)
  }

  ghost predicate CanReplay(lib: Lib, ps: PageState) {
    Readable(lib, ps) && (Target(lib, ps).Some? || CanAllocate(ps))
  }

  lemma AllocatorInvCanReplay(lib: Lib, ps: PageState)
    requires AllocatorInv(lib, ps) && ps.next < 0x1_0000_0000_0000_0000
    ensures CanReplay(lib, ps)
  {
    hide PageAt, HasType;
  }

  /** Applying `r` again changes nothing: the target page already has its LSN, or `r` never fits a page. */
  ghost predicate Absorbed(lib: Lib, ps: PageState, r: LogRecord) {
    Target(lib, ps).Some? && (TargetPage(lib, ps).header.lsn >= r.lsn || !FitsPage(lib, r))
  }

  lemma FirstDataIs(lib: Lib, ps: PageState, id: nat)
    requires id < ps.next && HasType(lib, ps.bytes, id, Data)
    requires forall j :: 0 <= j < id ==> !HasType(lib, ps.bytes, j, Data)
    ensures Target(lib, ps) == Some(id)
  {
    hide HasType;
  }

  /** What one record does to the page store: the target page stays the target and its LSN never decreases. */
  lemma ApplyEffect(lib: Lib, ps: PageState, r: LogRecord)
    requires CanReplay(lib, ps)
    ensures var after := ApplyToPages(lib, ps, r);
      && CanReplay(lib, after)
      && Absorbed(lib, after, r)
      && (Target(lib, ps).Some? ==>
            && Target(lib, after) == Target(lib, ps)
            && TargetPage(lib, after).header.lsn >= TargetPage(lib, ps).header.lsn
            && after.free == ps.free && after.next == ps.next)
  {
    hide PageAt, Written, FirstData, Entry;
    var after := ApplyToPages(lib, ps, r);
    if Target(lib, ps).None? {
      var id := NextId(ps);
      assert ps.free != [] ==> id in ps.free;
      assert forall i :: i in after.free ==> i in ps.free;
      WriteSlots(lib, ps.bytes, NewPage(id, Data, r.lsn), id);
      TypesAfterWrite(lib, ps.bytes, NewPage(id, Data, r.lsn));
      forall j | 0 <= j < id ensures !HasType(lib, after.bytes, j, Data) {
        assert !HasType(lib, ps.bytes, j, Data);
      }
      FirstDataIs(lib, after, id);
    } else if TargetPage(lib, ps).header.lsn < r.lsn && FitsPage(lib, r) {
      var id := Target(lib, ps).value;
      var p := WithEntry(TargetPage(lib, ps), Entry(lib, r.key, r.value), r.lsn);
      WriteSlots(lib, ps.bytes, p, id);
      TypesAfterWrite(lib, ps.bytes, p);
      forall j | 0 <= j < id ensures !HasType(lib, after.bytes, j, Data) {
        assert !HasType(lib, ps.bytes, j, Data);
      }
      FirstDataIs(lib, after, id);
    }
  }

  lemma AbsorbedIsNoop(lib: Lib, ps: PageState, r: LogRecord)
    requires Absorbed(lib, ps, r)
    ensures ApplyToPages(lib, ps, r) == ps
  {
    hide PageAt, Written, FirstData, Entry;
  }

  ghost predicate AllAbsorbed(lib: Lib, ps: PageState, rs: seq<LogRecord>) {
    forall i :: 0 <= i < |rs| && !rs[i].op.Checkpoint? ==> Absorbed(lib, ps, rs[i])
  }

  /** After a replay every record of the log is absorbed. */
  lemma {:induction false} ReplayAbsorbs(lib: Lib, ps: PageState, rs: seq<LogRecord>)
    requires CanReplay(lib, ps)
    ensures CanReplay(lib, ReplayPages(lib, ps, rs)) && AllAbsorbed(lib, ReplayPages(lib, ps, rs), rs)
  {
    hide CanReplay, ApplyToPages, Target, FitsPage;
    if rs != [] {
      var front, r := rs[..|rs| - 1], rs[|rs| - 1];
      var before := ReplayPages(lib, ps, front);
      ReplayAbsorbs(lib, ps, front);
      if !r.op.Checkpoint? {
        ApplyEffect(lib, before, r);
      }
    }
  }

  lemma {:induction false} AbsorbedReplayIsNoop(lib: Lib, ps: PageState, rs: seq<LogRecord>)
    requires AllAbsorbed(lib, ps, rs)
    ensures ReplayPages(lib, ps, rs) == ps
  {
    hide Absorbed, ApplyToPages;
    if rs != [] {
      AbsorbedReplayIsNoop(lib, ps, rs[..|rs| - 1]);
      if !rs[|rs| - 1].op.Checkpoint? {
        AbsorbedIsNoop(lib, ps, rs[|rs| - 1]);
      }
    }
  }

  /** Replaying any log twice, whatever its LSNs and record sizes, leaves the page store as after one replay. */
  lemma ReplayTwice(lib: Lib, ps: PageState, rs: seq<LogRecord>)
    requires CanReplay(lib, ps)
    ensures ReplayPages(lib, ReplayPages(lib, ps, rs), rs) == ReplayPages(lib, ps, rs)
  {
    ReplayAbsorbs(lib, ps, rs);
    AbsorbedReplayIsNoop(lib, ReplayPages(lib, ps, rs), rs);
  }

  lemma {:induction false} ReplayPagesAppend(lib: Lib, ps: PageState, a: seq<LogRecord>, b: seq<LogRecord>)
    ensures ReplayPages(lib, ps, a + b) == ReplayPages(lib, ReplayPages(lib, ps, a), b)
  {
    hide ApplyToPages;
    if b == [] {
      assert a + b == a;
    } else {
      var front, r := b[..|b| - 1], b[|b| - 1];
      assert a + b == (a + front) + [r];
      ReplayPagesAppend(lib, ps, a, front);
      ReplayOne(lib, ps, a + front, r);
    }
  }

  /** A replay stopped after any record, then run again from the start, ends where an uninterrupted one does. */
  lemma ReplayRestarted(lib: Lib, ps: PageState, rs: seq<LogRecord>, stop: nat)
    requires CanReplay(lib, ps) && stop <= |rs|
    ensures ReplayPages(lib, ReplayPages(lib, ps, rs[..stop]), rs) == ReplayPages(lib, ps, rs)
  {
    hide ReplayPages, CanReplay, AllAbsorbed;
    var half := ReplayPages(lib, ps, rs[..stop]);
    ReplayAbsorbs(lib, ps, rs[..stop]);
    AbsorbedReplayIsNoop(lib, half, rs[..stop]);
    assert rs == rs[..stop] + rs[stop..];
    ReplayPagesAppend(lib, half, rs[..stop], rs[stop..]);
    ReplayPagesAppend(lib, ps, rs[..stop], rs[stop..]);
  }

  /** The page store after replays that stop at each of `stops` in turn. */
  ghost function Interrupted(lib: Lib, ps: PageState, rs: seq<LogRecord>, stops: seq<nat>): PageState
    requires forall i :: 0 <= i < |stops| ==> stops[i] <= |rs|
  {
    if stops == [] then ps
    else ReplayPages(lib, Interrupted(lib, ps, rs, stops[..|stops| - 1]), rs[..stops[|stops| - 1]])
  }

  /** Any number of interrupted replays followed by a complete one ends where a single complete replay does. */
  lemma {:induction false} ReplayInterrupted(lib: Lib, ps: PageState, rs: seq<LogRecord>, stops: seq<nat>)
    requires CanReplay(lib, ps)
    requires forall i :: 0 <= i < |stops| ==> stops[i] <= |rs|
    ensures CanReplay(lib, Interrupted(lib, ps, rs, stops))
    ensures ReplayPages(lib, Interrupted(lib, ps, rs, stops), rs) == ReplayPages(lib, ps, rs)
  {
    hide CanReplay, AllAbsorbed, ReplayPages;
    if stops != [] {
      var front, stop := stops[..|stops| - 1], stops[|stops| - 1];
      ReplayInterrupted(lib, ps, rs, front);
      ReplayAbsorbs(lib, Interrupted(lib, ps, rs, front), rs[..stop]);
      ReplayRestarted(lib, Interrupted(lib, ps, rs, front), rs, stop);
    }
  }

  /** With a Data page present, replay depends on the file alone, not on the free list. */
  lemma {:induction false} ReplayIgnoresFreeList(lib: Lib, a: PageState, b: PageState, rs: seq<LogRecord>)
    requires CanReplay(lib, a) && Target(lib, a).Some?
    requires a.bytes == b.bytes && a.next == b.next
    ensures var ra, rb := ReplayPages(lib, a, rs), ReplayPages(lib, b, rs);
      && CanReplay(lib, ra) && Target(lib, ra).Some?
      && ra.bytes == rb.bytes && ra.next == rb.next == a.next && ra.free == a.free && rb.free == b.free
  {
    hide CanReplay, FirstData, PageAt, FitsPage, Entry, Written;
    if rs != [] {
      var front, r := rs[..|rs| - 1], rs[|rs| - 1];
      ReplayIgnoresFreeList(lib, a, b, front);
      if !r.op.Checkpoint? {
        ApplyEffect(lib, ReplayPages(lib, a, front), r);
      }
    }
  }

  /** Replay is one of the page store's well-behaved clients. */
  lemma {:induction false} ReplayKeepsInv(lib: Lib, ps: PageState, rs: seq<LogRecord>)
    requires AllocatorInv(lib, ps) && (Target(lib, ps).Some? || ps.next < 0x1_0000_0000_0000_0000)
    requires ps.next <= 0x1_0000_0000_0000_0000
    ensures var after := ReplayPages(lib, ps, rs);
      && AllocatorInv(lib, after) && (Undamaged(lib, ps) ==> Undamaged(lib, after))
      && after.next <= 0x1_0000_0000_0000_0000
      && (Target(lib, after).Some? || after == ps)
  {
    hide AllocatorInv, Undamaged, FirstData, PageAt, FitsPage, Entry, Written, CanAllocate;
    if rs != [] {
      var front, r := rs[..|rs| - 1], rs[|rs| - 1];
      ReplayKeepsInv(lib, ps, front);
      if !r.op.Checkpoint? {
        ApplyKeepsInv(lib, ReplayPages(lib, ps, front), r);
      }
    }
  }

  lemma ApplyKeepsInv(lib: Lib, ps: PageState, r: LogRecord)
    requires AllocatorInv(lib, ps) && (Target(lib, ps).Some? || ps.next < 0x1_0000_0000_0000_0000)
    requires ps.next <= 0x1_0000_0000_0000_0000
    ensures var after := ApplyToPages(lib, ps, r);
      && AllocatorInv(lib, after) && (Undamaged(lib, ps) ==> Undamaged(lib, after))
      && after.next <= 0x1_0000_0000_0000_0000 && Target(lib, after).Some?
  {
    hide Undamaged, FirstData, PageAt, Entry, Written;
    if Target(lib, ps).None? {
      AllocateKeepsInv(lib, ps, Data, r.lsn);
    } else if TargetPage(lib, ps).header.lsn < r.lsn && FitsPage(lib, r) {
      WriteKeepsInv(lib, ps, WithEntry(TargetPage(lib, ps), Entry(lib, r.key, r.value), r.lsn));
    }
    TargetStays(lib, ps, r);
  }

  /** The process dies after replaying `stop` records, at least one of which touched pages; the page file is reopened,
      which rebuilds the free list in file order, and the whole log replayed: the file is the same as after an
      uninterrupted replay, and the free list holds the same ids. */
  lemma ReplayAfterReopen(lib: Lib, ps: PageState, rs: seq<LogRecord>, stop: nat)
    requires AllocatorInv(lib, ps) && ps.next < 0x1_0000_0000_0000_0000 && stop <= |rs|
    requires exists i :: 0 <= i < stop && !rs[i].op.Checkpoint?
    ensures var half, whole := ReplayPages(lib, ps, rs[..stop]), ReplayPages(lib, ps, rs);
      var again := ReplayPages(lib, OpenedPages(lib, half.bytes), rs);
      && again.bytes == whole.bytes && again.next == whole.next
      && multiset(again.free) == multiset(whole.free)
  {
    hide AllocatorInv, PageAt, FirstData, ReplayPages, FitsPage, Readable;
    var half := ReplayPages(lib, ps, rs[..stop]);
    var reopened := OpenedPages(lib, half.bytes);
    AllocatorInvCanReplay(lib, ps);
    ReplayAbsorbs(lib, ps, rs[..stop]);
    ReplayKeepsInv(lib, ps, rs[..stop]);
    var i :| 0 <= i < stop && !rs[i].op.Checkpoint?;
    assert Absorbed(lib, half, rs[..stop][i]);
    ReopenKeepsInv(lib, half);
    ReplayIgnoresFreeList(lib, half, reopened, rs);
    ReplayRestarted(lib, ps, rs, stop);
  }
}
