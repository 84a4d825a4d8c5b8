/** Log replay into memory and onto pages (services/node-agent/src/storage/recovery.rs). */
module Recovery {
  import opened Prelude
  import opened Bytes
  import opened LogFormat
  import opened Wal
  import opened Pages

  datatype RecordValue = RecordValue(key: Key, value: seq<byte>, lsn: u64)

  type Memtable = map<Key, RecordValue>

  // ---- Memory ----

  function ApplyToMemory(mem: Memtable, r: LogRecord): Memtable {
    match r.op
    case Insert => mem[r.key := RecordValue(r.key, r.value, r.lsn)]
    case Update => mem[r.key := RecordValue(r.key, r.value, r.lsn)]
    case Delete => mem - {r.key}
    case Checkpoint => mem
  }

  /** The map a log stands for: its records applied in order to an empty map. */
  function Replay(rs: seq<LogRecord>): Memtable {
    if rs == [] then map[] else ApplyToMemory(Replay(rs[..|rs| - 1]), rs[|rs| - 1])
  }

  lemma ReplaySnoc(rs: seq<LogRecord>, r: LogRecord)
    ensures Replay(rs + [r]) == ApplyToMemory(Replay(rs), r)
  {
    assert (rs + [r])[..|rs|] == rs;
  }

  /** The records replay looks at: those not below the starting LSN. */
  function FromLsn(rs: seq<LogRecord>, start: nat): seq<LogRecord> {
    if rs == [] then []
    else FromLsn(rs[..|rs| - 1], start) + if rs[|rs| - 1].lsn < start then [] else [rs[|rs| - 1]]
  }

  lemma {:induction false} FromLsnZero(rs: seq<LogRecord>)
    ensures FromLsn(rs, 0) == rs
  {
    if rs != [] {
      FromLsnZero(rs[..|rs| - 1]);
      assert rs == rs[..|rs| - 1] + [rs[|rs| - 1]];
    }
  }

  /** A replay from LSN `start` looks at exactly the records that are not below it. */
  lemma {:induction false} FromLsnAre(rs: seq<LogRecord>, start: nat)
    ensures forall r :: r in FromLsn(rs, start) <==> r in rs && r.lsn >= start
  {
    if rs != [] {
      FromLsnAre(rs[..|rs| - 1], start);
      assert rs == rs[..|rs| - 1] + [rs[|rs| - 1]];
    }
  }

  // ---- Pages ----

  function Entry(lib: Lib, key: Key, value: seq<byte>): seq<byte> {
    key + [58] + lib.utf8Lossy(value)
  }

  /** An entry reads: the key, a colon, the value as text. */
  lemma EntryReads(lib: Lib, key: Key, value: seq<byte>)
    ensures var e, n := Entry(lib, key, value), |key|;
      && |e| == n + 1 + |lib.utf8Lossy(value)|
      && e[..n] == key && e[n] == ':' as int && e[n + 1..] == lib.utf8Lossy(value)
  {
  }

  /** Writing an entry changes the page's front, its LSN and its count, and nothing else of it. */
  lemma WithEntryEffect(p: Page, entry: seq<byte>, lsn: u64)
    requires |entry| <= PAYLOAD_SIZE
    ensures var q := WithEntry(p, entry, lsn);
      && q.data[..|entry|] == entry && q.data[|entry|..] == p.data[|entry|..]
      && q.header.lsn == lsn && q.header.pageId == p.header.pageId && q.header.pageType == p.header.pageType
      && q.header.numRecords == if p.header.numRecords == 65535 then 0 else p.header.numRecords + 1
  {
  }

  predicate FitsPage(lib: Lib, r: LogRecord) {
    |Entry(lib, r.key, r.value)| <= PAYLOAD_SIZE
  }

  /** The page with `entry` written at offset 0 and one more record counted (the `u16` count wraps). */
  function WithEntry(p: Page, entry: seq<byte>, lsn: u64): Page
    requires |entry| <= PAYLOAD_SIZE
  {
    Page(p.header.(lsn := lsn, numRecords := (p.header.numRecords + 1) % 0x1_0000), entry + p.data[|entry|..])
  }

  /** The first readable Data page at or after `from`. */
  function FirstData(lib: Lib, bytes: seq<byte>, from: nat, n: nat): (id: Option<nat>)
    ensures id.Some? ==> from <= id.value < n && HasType(lib, bytes, id.value, Data)
    ensures forall j :: from <= j < n && (id.Some? ==> j < id.value) ==> !HasType(lib, bytes, j, Data)
    decreases n - from
  {
    if from >= n then None
    else if HasType(lib, bytes, from, Data) then Some(from)
    else FirstData(lib, bytes, from + 1, n)
  }

  /** The only page replay ever rewrites. */
  function Target(lib: Lib, ps: PageState): Option<nat> {
    FirstData(lib, ps.bytes, 0, ps.next)
  }

  function TargetPage(lib: Lib, ps: PageState): Page
    requires Target(lib, ps).Some?
  {
    PageAt(lib, ps.bytes, Target(lib, ps).value).value
  }

  function ApplyToPages(lib: Lib, ps: PageState, r: LogRecord): PageState {
    if Target(lib, ps).None? then Allocated(lib, ps, Data, r.lsn)
    else
      var p := TargetPage(lib, ps);
      if p.header.lsn < r.lsn && FitsPage(lib, r)
      then Stored(lib, ps, WithEntry(p, Entry(lib, r.key, r.value), r.lsn))
      else ps
  }

  function ReplayPages(lib: Lib, ps: PageState, rs: seq<LogRecord>): PageState {
    if rs == [] then ps
    else
      var before, r := ReplayPages(lib, ps, rs[..|rs| - 1]), rs[|rs| - 1];
      if r.op.Checkpoint? then before else ApplyToPages(lib, before, r)
  }

  /** Page ids are 64-bit and one more can be handed out. Holds of every page file opened below that size. */
  predicate CanAllocate(ps: PageState) {
    ps.next < 0x1_0000_0000_0000_0000 && forall id :: id in ps.free ==> id < ps.next
  }

  method ApplyRecordToPages(pages: PageManager, rec: LogRecord)
    requires Target(pages.lib, pages.State()).Some? || CanAllocate(pages.State())
    modifies pages
    ensures pages.State() == ApplyToPages(pages.lib, old(pages.State()), rec)
  {
    hide PageAt, Written;
    ghost var before := pages.State();
    var total := pages.nextPageId;
    var target: Option<nat> := None;
    var pid := 0;
    while pid < total && target.None?
      invariant pid <= total && pages.State() == before
      invariant target.None? ==> Target(pages.lib, before) == FirstData(pages.lib, pages.bytes, pid, total)
      invariant target.Some? ==>
        Target(pages.lib, before) == target && TargetPage(pages.lib, before).header.lsn < rec.lsn
    {
      var page := pages.ReadPage(pid);
      if page.Some? && page.value.header.pageType == Data {
        if page.value.header.lsn >= rec.lsn { return; }
        target := Some(pid);
      }
      pid := pid + 1;
    }
    var pageId;
    if target.Some? {
      pageId := target.value;
    } else {
      var page := pages.AllocatePage(Data, rec.lsn);
      pageId := page.header.pageId;
      assert before.free != [] ==> NextId(before) in before.free;
      ReadAfterWrite(pages.lib, before.bytes, NewPage(pageId, Data, rec.lsn), pageId);
    }
    var read := pages.ReadPage(pageId);
    assert read.Some?;
    if read.value.header.lsn >= rec.lsn { return; }
    var page, entry := read.value, Entry(pages.lib, rec.key, rec.value);
    if |entry| <= PAYLOAD_SIZE {
      var _ := pages.WritePage(WithEntry(page, entry, rec.lsn));
    }
  }

  /** Once a Data page exists, replay never allocates again. */
  lemma TargetStays(lib: Lib, ps: PageState, r: LogRecord)
    requires Target(lib, ps).Some? || CanAllocate(ps)
    ensures Target(lib, ApplyToPages(lib, ps, r)).Some?
  {
    hide PageAt, Written;
    var after := ApplyToPages(lib, ps, r);
    if Target(lib, ps).None? {
      assert ps.free != [] ==> NextId(ps) in ps.free;
      ReadAfterWrite(lib, ps.bytes, NewPage(NextId(ps), Data, r.lsn), NextId(ps));
      assert HasType(lib, after.bytes, NextId(ps), Data);
    } else {
      var p := TargetPage(lib, ps);
      if after != ps {
        ReadAfterWrite(lib, ps.bytes, WithEntry(p, Entry(lib, r.key, r.value), r.lsn), Target(lib, ps).value);
        assert HasType(lib, after.bytes, Target(lib, ps).value, Data);
      }
    }
  }

  /** One record of the replay loop. */
  lemma ReplayOne(lib: Lib, ps: PageState, done: seq<LogRecord>, r: LogRecord)
    ensures Replay(done + [r]) == ApplyToMemory(Replay(done), r)
    ensures ReplayPages(lib, ps, done + [r]) ==
      var before := ReplayPages(lib, ps, done); if r.op.Checkpoint? then before else ApplyToPages(lib, before, r)
  {
    hide ApplyToPages;
    assert (done + [r])[..|done|] == done;
  }

  /** Replays the log into memory and onto pages; `None` when the log does not read cleanly. */
  method Recover(wal: WalManager, pages: PageManager, startLsn: nat) returns (mem: Option<Memtable>)
    requires wal.Valid() && CanAllocate(pages.State())
    modifies wal`pos, pages
    ensures wal.Valid()
    ensures var s := Scan(wal.lib, wal.bytes); var rs := FromLsn(s.records, startLsn);
      if s.corrupt then mem.None? && pages.State() == old(pages.State())
      else && mem == Some(Replay(rs))
           && pages.State() == ReplayPages(pages.lib, old(pages.State()), rs)
           && wal.State() == AfterReadAll(old(wal.State()))
  {
    hide Scan, ApplyToPages, Target, CanAllocate, Replay, ReplayPages;
    ghost var before := pages.State();
    var records := wal.ReadAll();
    if records.None? { return None; }
    var state: Memtable := map[];
    ghost var done: seq<LogRecord> := [];
    assert state == Replay([]) && before == ReplayPages(pages.lib, before, []) by { ReplayNothing(pages.lib, before); }
    for i := 0 to |records.value|
      invariant wal.Valid() && wal.State() == AfterReadAll(old(wal.State()))
      invariant done == FromLsn(records.value[..i], startLsn)
      invariant state == Replay(done)
      invariant pages.State() == ReplayPages(pages.lib, before, done)
      invariant pages.State() == before || Target(pages.lib, pages.State()).Some?
    {
      var rec := records.value[i];
      assert records.value[..i + 1][..i] == records.value[..i];
      if rec.lsn >= startLsn {
        ReplayOne(pages.lib, before, done, rec);
        done := done + [rec];
        match rec.op {
          case Insert => state := state[rec.key := RecordValue(rec.key, rec.value, rec.lsn)];
          case Update => state := state[rec.key := RecordValue(rec.key, rec.value, rec.lsn)];
          case Delete => state := state - {rec.key};
          case Checkpoint =>
        }
        if !rec.op.Checkpoint? {
          TargetStays(pages.lib, pages.State(), rec);
          ApplyRecordToPages(pages, rec);
        }
      }
    }
    assert records.value[..|records.value|] == records.value;
    mem := Some(state);
  }

  lemma ReplayNothing(lib: Lib, ps: PageState)
    ensures Replay([]) == map[] && ReplayPages(lib, ps, []) == ps
  {
  }
}
