/** Index locations after a reopen, and over whole runs. */
module ReopenedLocations {
  import opened Prelude
  import opened Bytes
  import opened LogFormat
  import opened Wal
  import opened Pages
  import opened Recovery
  import opened ReplaySafety
  import opened Compaction
  import opened Engine
  import opened Durability
  import opened Locations

  // ---- Reopening ----

  /** LSNs grow along the log. */
  ghost predicate Ascending(rs: seq<LogRecord>) {
    forall i, j :: 0 <= i < j < |rs| ==> rs[i].lsn < rs[j].lsn
  }

  /** The first record that replay applies to pages. */
  function FirstApplied(rs: seq<LogRecord>): Option<LogRecord> {
    if rs == [] then None
    else
      var first := FirstApplied(rs[..|rs| - 1]);
      if first.Some? then first else if rs[|rs| - 1].op.Checkpoint? then None else Some(rs[|rs| - 1])
  }

  /** The page replay rewrites, as it is before the first rewrite: the first Data page, or one allocated for the first
      record. */
  function ReplayBase(lib: Lib, ps: PageState, rs: seq<LogRecord>): Option<Page> {
    if Target(lib, ps).Some? then Some(TargetPage(lib, ps))
    else if FirstApplied(rs).Some? then Some(NewPage(NextId(ps), Data, FirstApplied(rs).value.lsn).Sealed(lib))
    else None
  }

  /** The records replay writes over a page that starts with LSN `above`. */
  function Rewrites(lib: Lib, rs: seq<LogRecord>, above: nat): (w: seq<LogRecord>)
    ensures forall r :: r in w ==> r in rs && FitsPage(lib, r) && r.lsn > above
  {
    if rs == [] then []
    else
      var r := rs[|rs| - 1];
      Rewrites(lib, rs[..|rs| - 1], above) + if !r.op.Checkpoint? && FitsPage(lib, r) && r.lsn > above then [r] else []
  }

  lemma {:induction false} NoRewrites(lib: Lib, rs: seq<LogRecord>, above: nat)
    requires forall r :: r in rs ==> r.lsn <= above
    ensures Rewrites(lib, rs, above) == []
  {
    if rs != [] {
      assert rs[|rs| - 1] in rs && forall r :: r in rs[..|rs| - 1] ==> r in rs;
      NoRewrites(lib, rs[..|rs| - 1], above);
    }
  }

  /** What is on the page after these records were written over it: the last one's LSN and entry, and all of them
      counted. */
  ghost predicate Rewritten(lib: Lib, base: Page, w: seq<LogRecord>, p: Page) {
    && p.header.pageId == base.header.pageId && p.header.pageType == base.header.pageType
    && p.header.numRecords == (base.header.numRecords + |w|) % 0x1_0000
    && if w == [] then p == base
       else
         var r := w[|w| - 1]; var entry := Entry(lib, r.key, r.value);
         p.header.lsn == r.lsn && entry <= p.data
  }

  /** Replay leaves every page but one as it was, and that one as `Rewritten` says. */
  ghost predicate ReplayedAs(lib: Lib, ps: PageState, rs: seq<LogRecord>, after: PageState) {
    var base := ReplayBase(lib, ps, rs);
    && (base.None? ==> after == ps)
    && (base.Some? ==>
          var id := base.value.header.pageId;
          && Target(lib, after) == Some(id)
          && Rewritten(lib, base.value, Rewrites(lib, rs, base.value.header.lsn), TargetPage(lib, after))
          && forall j: nat {:trigger PageAt(lib, after.bytes, j)} ::
               j != id ==> PageAt(lib, after.bytes, j) == PageAt(lib, ps.bytes, j))
  }

  lemma {:induction false} ReplayedPage(lib: Lib, ps: PageState, rs: seq<LogRecord>)
    requires CanReplay(lib, ps) && Ascending(rs)
    ensures CanReplay(lib, ReplayPages(lib, ps, rs)) && ReplayedAs(lib, ps, rs, ReplayPages(lib, ps, rs))
  {
    hide CanReplay, ReplayedAs, ApplyToPages;
    if rs == [] {
      NothingReplayed(lib, ps);
    } else {
      var front, r := rs[..|rs| - 1], rs[|rs| - 1];
      ReplayedPage(lib, ps, front);
      if r.op.Checkpoint? {
        CheckpointReplayed(lib, ps, rs, ReplayPages(lib, ps, front));
      } else {
        ApplyEffect(lib, ReplayPages(lib, ps, front), r);
        ReplayedOne(lib, ps, rs, ReplayPages(lib, ps, front));
      }
    }
  }

  lemma NothingReplayed(lib: Lib, ps: PageState)
    requires CanReplay(lib, ps)
    ensures ReplayedAs(lib, ps, [], ps)
  {
    hide PageAt, FirstData;
  }

  lemma CheckpointReplayed(lib: Lib, ps: PageState, rs: seq<LogRecord>, before: PageState)
    requires rs != [] && rs[|rs| - 1].op.Checkpoint? && ReplayedAs(lib, ps, rs[..|rs| - 1], before)
    ensures ReplayedAs(lib, ps, rs, before)
  {
    hide PageAt, FirstData, Rewritten, FitsPage;
    var base := ReplayBase(lib, ps, rs);
    assert base == ReplayBase(lib, ps, rs[..|rs| - 1]);
    if base.Some? {
      var w := Rewrites(lib, rs[..|rs| - 1], base.value.header.lsn);
      assert w + [] == w;
    }
  }

  lemma ReplayedOne(lib: Lib, ps: PageState, rs: seq<LogRecord>, before: PageState)
    requires rs != [] && !rs[|rs| - 1].op.Checkpoint? && Ascending(rs)
    requires CanReplay(lib, ps) && CanReplay(lib, before) && ReplayedAs(lib, ps, rs[..|rs| - 1], before)
    ensures ReplayedAs(lib, ps, rs, ApplyToPages(lib, before, rs[|rs| - 1]))
  {
    hide CanReplay, ApplyToPages, ReplayedAs;
    var front, r := rs[..|rs| - 1], rs[|rs| - 1];
    if ReplayBase(lib, ps, front).None? {
      FirstReplayed(lib, ps, rs, before);
    } else {
      NextReplayed(lib, ps, rs, before);
    }
  }

  /** The first record applied, on a store without a Data page: the page allocated for it has its LSN already. */
  lemma FirstReplayed(lib: Lib, ps: PageState, rs: seq<LogRecord>, before: PageState)
    requires rs != [] && !rs[|rs| - 1].op.Checkpoint? && Ascending(rs)
    requires CanReplay(lib, ps) && ReplayedAs(lib, ps, rs[..|rs| - 1], before)
      && ReplayBase(lib, ps, rs[..|rs| - 1]).None?
    ensures ReplayedAs(lib, ps, rs, ApplyToPages(lib, before, rs[|rs| - 1]))
  {
    hide PageAt, Target, TargetPage, ApplyToPages, CanReplay, Rewrites;
    NoRewrites(lib, rs, rs[|rs| - 1].lsn);
    TargetAllocated(lib, ps, rs[|rs| - 1]);
  }

  lemma TargetAllocated(lib: Lib, ps: PageState, r: LogRecord)
    requires CanReplay(lib, ps) && Target(lib, ps).None?
    ensures var after, p := ApplyToPages(lib, ps, r), NewPage(NextId(ps), Data, r.lsn);
      && Target(lib, after) == Some(NextId(ps)) && TargetPage(lib, after) == p.Sealed(lib)
      && forall j: nat {:trigger PageAt(lib, after.bytes, j)} ::
           j != NextId(ps) ==> PageAt(lib, after.bytes, j) == PageAt(lib, ps.bytes, j)
  {
    hide PageAt, Written, FirstData;
    var id, after := NextId(ps), ApplyToPages(lib, ps, r);
    assert ps.free != [] ==> id in ps.free;
    TypesAfterWrite(lib, ps.bytes, NewPage(id, Data, r.lsn));
    forall j | 0 <= j < id ensures !HasType(lib, after.bytes, j, Data) {
      assert !HasType(lib, ps.bytes, j, Data);
    }
    FirstDataIs(lib, after, id);
  }

  lemma LastRewrite(lib: Lib, rs: seq<LogRecord>, above: nat) returns (i: nat)
    requires Rewrites(lib, rs, above) != []
    ensures var w := Rewrites(lib, rs, above);
      i < |rs| && rs[i] == w[|w| - 1] && rs[i].lsn > above && FitsPage(lib, rs[i])
  {
    hide FitsPage;
    var w := Rewrites(lib, rs, above);
    assert w[|w| - 1] in w;
    i :| 0 <= i < |rs| && rs[i] == w[|w| - 1];
  }

  /** The page's LSN is the base's or that of an earlier record, so it is below the next record's if the base's is. */
  lemma LsnGuard(lib: Lib, rs: seq<LogRecord>, base: Page, p: Page)
    requires rs != [] && Ascending(rs)
    requires Rewritten(lib, base, Rewrites(lib, rs[..|rs| - 1], base.header.lsn), p)
    ensures p.header.lsn < rs[|rs| - 1].lsn <==> base.header.lsn < rs[|rs| - 1].lsn
  {
    hide Entry, FitsPage, Rewrites;
    var front := rs[..|rs| - 1];
    if Rewrites(lib, front, base.header.lsn) != [] {
      var i := LastRewrite(lib, front, base.header.lsn);
      assert p.header.lsn == rs[i].lsn < rs[|rs| - 1].lsn;
    }
  }

  lemma RewrittenNext(lib: Lib, base: Page, w: seq<LogRecord>, p: Page, r: LogRecord)
    requires Rewritten(lib, base, w, p) && FitsPage(lib, r)
    ensures Rewritten(lib, base, w + [r], WithEntry(p, Entry(lib, r.key, r.value), r.lsn).Sealed(lib))
  {
    hide Entry, Page.ComputeChecksum;
  }

  lemma NextReplayed(lib: Lib, ps: PageState, rs: seq<LogRecord>, before: PageState)
    requires rs != [] && !rs[|rs| - 1].op.Checkpoint? && Ascending(rs)
    requires CanReplay(lib, before) && ReplayedAs(lib, ps, rs[..|rs| - 1], before)
      && ReplayBase(lib, ps, rs[..|rs| - 1]).Some?
    ensures ReplayedAs(lib, ps, rs, ApplyToPages(lib, before, rs[|rs| - 1]))
  {
    hide PageAt, Written, Target, TargetPage, FitsPage, Rewritten, CanReplay, FirstApplied;
    var front, r := rs[..|rs| - 1], rs[|rs| - 1];
    var base, p := ReplayBase(lib, ps, front).value, TargetPage(lib, before);
    SameBase(lib, ps, rs);
    LsnGuard(lib, rs, base, p);
    ApplyEffect(lib, before, r);
    var w := Rewrites(lib, front, base.header.lsn);
    if p.header.lsn < r.lsn && FitsPage(lib, r) {
      RewrittenNext(lib, base, w, p, r);
      TargetWritten(lib, before, r);
    } else {
      assert w + [] == w;
    }
  }

  lemma SameBase(lib: Lib, ps: PageState, rs: seq<LogRecord>)
    requires rs != [] && ReplayBase(lib, ps, rs[..|rs| - 1]).Some?
    ensures ReplayBase(lib, ps, rs) == ReplayBase(lib, ps, rs[..|rs| - 1])
  {
  }

  lemma TargetWritten(lib: Lib, ps: PageState, r: LogRecord)
    requires CanReplay(lib, ps) && Target(lib, ps).Some? && TargetPage(lib, ps).header.lsn < r.lsn && FitsPage(lib, r)
    ensures var after, p := ApplyToPages(lib, ps, r), WithEntry(TargetPage(lib, ps), Entry(lib, r.key, r.value), r.lsn);
      && Target(lib, after) == Target(lib, ps) && TargetPage(lib, after) == p.Sealed(lib)
      && forall j: nat {:trigger PageAt(lib, after.bytes, j)} ::
           j != Target(lib, ps).value ==> PageAt(lib, after.bytes, j) == PageAt(lib, ps.bytes, j)
  {
    hide PageAt, Written, FirstData, Entry;
    ApplyEffect(lib, ps, r);
    TypesAfterWrite(lib, ps.bytes, WithEntry(TargetPage(lib, ps), Entry(lib, r.key, r.value), r.lsn));
  }

  /** After the writes `w`, page `base` holds `v`: it is the last record written, and the only one the page counts;
      without a write, if the page held it before. */
  predicate KeptByWrites(lib: Lib, base: Page, w: seq<LogRecord>, v: RecordValue) {
    if w == [] then PageHolds(lib, base, v)
    else w[|w| - 1].lsn == v.lsn && (base.header.numRecords + |w|) % 0x1_0000 == 1
  }

  /** Opening sends every key to page 0: a location holds if that is the page replay rewrites, and it keeps the record.
      */
  predicate KeptByOpen(lib: Lib, ps: PageState, rs: seq<LogRecord>, v: RecordValue) {
    var base := ReplayBase(lib, ps, rs);
    && base.Some? && base.value.header.pageId == 0
    && KeptByWrites(lib, base.value, Rewrites(lib, rs, base.value.header.lsn), v)
  }

  lemma ReplayedHolds(lib: Lib, ps: PageState, rs: seq<LogRecord>, v: RecordValue)
    requires AllocatorInv(lib, ps) && ps.next < 0x1_0000_0000_0000_0000 && Sequential(rs)
    requires 1 <= v.lsn <= |rs| && rs[v.lsn - 1].key == v.key && rs[v.lsn - 1].value == v.value
    ensures HoldsRecord(lib, ReplayPages(lib, ps, rs).bytes, 0, v) <==> KeptByOpen(lib, ps, rs, v)
  {
    hide PageAt, Target, TargetPage, ReplayPages, AllocatorInv, CanReplay, Rewritten, PageHolds, Rewrites, ReplayBase,
         HoldsRecord, KeptByWrites, Sequential;
    var after, base := ReplayPages(lib, ps, rs), ReplayBase(lib, ps, rs);
    ReplayedTarget(lib, ps, rs);
    if base.Some? && base.value.header.pageId == 0 {
      BaseIsData(lib, ps, rs);
      TargetHolds(lib, after, v);
      RewrittenHolds(lib, base.value, rs, TargetPage(lib, after), v);
    } else {
      ReplayKeepsInv(lib, ps, rs);
      NothingAtZero(lib, after, v);
    }
  }

  lemma ReplayedTarget(lib: Lib, ps: PageState, rs: seq<LogRecord>)
    requires AllocatorInv(lib, ps) && ps.next < 0x1_0000_0000_0000_0000 && Sequential(rs)
    ensures var after, base := ReplayPages(lib, ps, rs), ReplayBase(lib, ps, rs);
      && (base.None? ==> Target(lib, after).None?)
      && (base.Some? ==>
            && Target(lib, after) == Some(base.value.header.pageId)
            && Rewritten(lib, base.value, Rewrites(lib, rs, base.value.header.lsn), TargetPage(lib, after)))
  {
    hide PageAt, Target, TargetPage, ReplayPages, AllocatorInv, CanReplay, Rewritten, Rewrites, ReplayBase;
    AllocatorInvCanReplay(lib, ps);
    ReplayedPage(lib, ps, rs);
    if ReplayBase(lib, ps, rs).None? { BaseNeedsTarget(lib, ps, rs); }
  }

  lemma TargetHolds(lib: Lib, ps: PageState, v: RecordValue)
    requires Target(lib, ps).Some?
    ensures HoldsRecord(lib, ps.bytes, Target(lib, ps).value, v) <==> PageHolds(lib, TargetPage(lib, ps), v)
  {
    hide PageAt, PageHolds;
  }

  lemma BaseNeedsTarget(lib: Lib, ps: PageState, rs: seq<LogRecord>)
    requires ReplayBase(lib, ps, rs).None?
    ensures Target(lib, ps).None?
  {
  }

  /** Exactly when a live key's location holds after an open. */
  lemma LocationAfterOpen(lib: Lib, walBytes: seq<byte>, pageBytes: seq<byte>, k: Key)
    requires OwnIds(lib, pageBytes) && |pageBytes| < 0x1_0000_0000_0000_0000
    requires Sequential(Scan(lib, walBytes).records) && k in Replay(Scan(lib, walBytes).records)
    ensures var e, rs := OpenedEngine(lib, walBytes, pageBytes), Scan(lib, walBytes).records;
      && k in e.mem && k in e.hash
      && (LocationHolds(lib, e, k) <==> KeptByOpen(lib, OpenedPages(lib, pageBytes), rs, e.mem[k]))
  {
    hide Scan, Replay, Opened, OpenedPages, ReplayPages, AllocatorInv, KeptByOpen, HoldsRecord;
    var rs := Scan(lib, walBytes).records;
    OpenedScans(lib, walBytes);
    OpenedInv(lib, pageBytes);
    OpenedNext(lib, pageBytes);
    ReplaySound(rs, k);
    ReplayedHolds(lib, OpenedPages(lib, pageBytes), rs, Replay(rs)[k]);
  }

  /** Whatever is in the page file: after an open at most one live key's location holds. */
  lemma OpenLeavesOneLocation(lib: Lib, walBytes: seq<byte>, pageBytes: seq<byte>, a: Key, b: Key)
    requires var rs := Scan(lib, walBytes).records; Sequential(rs) && a in Replay(rs) && b in Replay(rs) && a != b
    ensures var e := OpenedEngine(lib, walBytes, pageBytes);
      && a in e.mem && a in e.hash && b in e.mem && b in e.hash
      && !(LocationHolds(lib, e, a) && LocationHolds(lib, e, b))
  {
    hide Scan, Replay, Opened, OpenedPages, ReplayPages, PageAt, Entry;
    OpenedScans(lib, walBytes);
    ReplaySound(Scan(lib, walBytes).records, a);
    ReplaySound(Scan(lib, walBytes).records, b);
  }

  /** All locations are right after an open exactly when every live key's is. */
  lemma LocationsAfterOpen(lib: Lib, walBytes: seq<byte>, pageBytes: seq<byte>)
    requires OwnIds(lib, pageBytes) && |pageBytes| < 0x1_0000_0000_0000_0000
    requires Sequential(Scan(lib, walBytes).records)
    ensures var e, rs := OpenedEngine(lib, walBytes, pageBytes), Scan(lib, walBytes).records;
      LocationsHold(lib, e) <==>
        forall k :: k in Replay(rs) ==> KeptByOpen(lib, OpenedPages(lib, pageBytes), rs, Replay(rs)[k])
  {
    hide Scan, Replay, OpenedEngine, OpenedPages, AllocatorInv, KeptByOpen, LocationHolds;
    var ps, rs := OpenedPages(lib, pageBytes), Scan(lib, walBytes).records;
    var e := OpenedEngine(lib, walBytes, pageBytes);
    OpenedMemory(lib, walBytes, pageBytes);
    OpenedInOrder(lib, walBytes, pageBytes);
    forall k ensures LocationRight(lib, e, k) <==> (k in Replay(rs) ==> KeptByOpen(lib, ps, rs, Replay(rs)[k])) {
      if k in Replay(rs) { LocationAfterOpen(lib, walBytes, pageBytes, k); }
    }
  }

  lemma OpenedMemory(lib: Lib, walBytes: seq<byte>, pageBytes: seq<byte>)
    ensures OpenedEngine(lib, walBytes, pageBytes).mem == Replay(Scan(lib, walBytes).records)
  {
    hide Scan, Replay, Opened, ReplayPages;
    OpenedScans(lib, walBytes);
  }

  /** In a new database nothing is live. */
  lemma NewDatabaseLocationsHold(lib: Lib)
    ensures LocationsHold(lib, OpenedEngine(lib, [], []))
  {
    hide Scan, AllocatorInv;
    ScanStop(lib, []);
    EmptyReplay();
    OpenedInv(lib, []);
    OpenedScans(lib, []);
  }

  /** The page store is in order after any open. */
  lemma OpenedInOrder(lib: Lib, walBytes: seq<byte>, pageBytes: seq<byte>)
    requires OwnIds(lib, pageBytes) && |pageBytes| < 0x1_0000_0000_0000_0000
    ensures AllocatorInv(lib, OpenedEngine(lib, walBytes, pageBytes).pages)
  {
    hide Scan, Replay, Opened, OpenedPages, ReplayPages, AllocatorInv;
    OpenedInv(lib, pageBytes);
    OpenedNext(lib, pageBytes);
    ReplayKeepsInv(lib, OpenedPages(lib, pageBytes), Scan(lib, Opened(lib, walBytes).bytes).records);
  }

  lemma OpenedNext(lib: Lib, pageBytes: seq<byte>)
    ensures OpenedPages(lib, pageBytes).next == |pageBytes| / PAGE_SIZE
  {
  }

  /** Unless replay's target is page 0, page 0 is not a Data page. */
  lemma NothingAtZero(lib: Lib, ps: PageState, v: RecordValue)
    requires AllocatorInv(lib, ps) && Target(lib, ps) != Some(0)
    ensures !HoldsRecord(lib, ps.bytes, 0, v)
  {
    hide PageAt, AllocatorInv, HoldsRecord;
    InvLength(lib, ps);
    SlotOfPage(lib, ps.bytes, 0);
    if HoldsRecord(lib, ps.bytes, 0, v) { DataToHold(lib, ps.bytes, 0, v); }
  }

  lemma RewrittenHolds(lib: Lib, base: Page, rs: seq<LogRecord>, p: Page, v: RecordValue)
    requires Sequential(rs) && base.header.pageType == Data
    requires 1 <= v.lsn <= |rs| && rs[v.lsn - 1].key == v.key && rs[v.lsn - 1].value == v.value
    requires Rewritten(lib, base, Rewrites(lib, rs, base.header.lsn), p)
    ensures PageHolds(lib, p, v) <==> KeptByWrites(lib, base, Rewrites(lib, rs, base.header.lsn), v)
  {
    hide Entry, Rewrites, PageHolds, FitsPage, Rewritten, Sequential;
    var w := Rewrites(lib, rs, base.header.lsn);
    LastWritten(lib, base, w, p);
    if w != [] {
      var i := LastRewrite(lib, rs, base.header.lsn);
      SameLsn(rs, i, v);
      WrittenHolds(lib, p, rs[i], v);
    }
  }

  lemma SameLsn(rs: seq<LogRecord>, i: nat, v: RecordValue)
    requires Sequential(rs) && i < |rs|
    requires 1 <= v.lsn <= |rs| && rs[v.lsn - 1].key == v.key && rs[v.lsn - 1].value == v.value
    ensures rs[i].lsn == v.lsn ==> rs[i].key == v.key && rs[i].value == v.value
  {
  }

  lemma LastWritten(lib: Lib, base: Page, w: seq<LogRecord>, p: Page)
    requires Rewritten(lib, base, w, p)
    ensures p.header.pageType == base.header.pageType
    ensures p.header.numRecords == (base.header.numRecords + |w|) % 0x1_0000
    ensures w == [] ==> p == base
    ensures w != [] ==> var r := w[|w| - 1]; p.header.lsn == r.lsn && Entry(lib, r.key, r.value) <= p.data
  {
    hide Entry;
  }

  lemma WrittenHolds(lib: Lib, p: Page, r: LogRecord, v: RecordValue)
    requires p.header.pageType == Data && p.header.lsn == r.lsn
      && Entry(lib, r.key, r.value) <= p.data && FitsPage(lib, r)
    requires r.lsn == v.lsn ==> r.key == v.key && r.value == v.value
    ensures PageHolds(lib, p, v) <==> r.lsn == v.lsn && p.header.numRecords == 1
  {
    hide Entry;
  }

  lemma BaseIsData(lib: Lib, ps: PageState, rs: seq<LogRecord>)
    requires ReplayBase(lib, ps, rs).Some?
    ensures ReplayBase(lib, ps, rs).value.header.pageType == Data
  {
    hide PageAt, FirstApplied;
  }

  // ---- Runs ----

  /** The event keeps `k`'s location right. Of puts, deletes, crashes and the clearing by a restore nothing is asked but
      that page ids stay 64-bit; a compaction and an open must keep it as said above. */
  ghost predicate KeepsLocation(lib: Lib, n: Node, ev: Event, k: Key)
    requires Enabled(n, ev)
  {
    match ev
    case Put(_, _) => n.engine.pages.next < 0x1_0000_0000_0000_0000
    case CompactPages(values) =>
      var e := n.engine;
      && e.pages.next < 0x1_0000_0000_0000_0000
      && (k in e.mem ==> k in e.hash && KeptByCompaction(lib, e.pages, values, e.hash[k].pageId, e.mem[k]))
    case Reopen =>
      var rs := Scan(lib, n.walBytes).records;
      && OwnIds(lib, n.pageBytes) && |n.pageBytes| < 0x1_0000_0000_0000_0000 && Sequential(rs)
      && (k in Replay(rs) ==> KeptByOpen(lib, OpenedPages(lib, n.pageBytes), rs, Replay(rs)[k]))
    case _ => true
  }

  ghost predicate AllKeepLocation(lib: Lib, n: Node, events: seq<Event>, k: Key)
    requires CanRun(lib, n, events)
    decreases |events|
  {
    events == [] ||
    (KeepsLocation(lib, n, events[0], k) && AllKeepLocation(lib, Step(lib, n, events[0]), events[1..], k))
  }

  ghost predicate NodeRight(lib: Lib, n: Node, k: Key) {
    n.Up? ==> AllocatorInv(lib, n.engine.pages) && LocationRight(lib, n.engine, k)
  }

  lemma StepKeepsLocation(lib: Lib, n: Node, ev: Event, k: Key)
    requires Enabled(n, ev) && KeepsLocation(lib, n, ev, k)
    requires if ev.Put? && ev.key == k then n.Up? && AllocatorInv(lib, n.engine.pages) else NodeRight(lib, n, k)
    ensures NodeRight(lib, Step(lib, n, ev), k)
  {
    hide AllocatorInv, HoldsRecord, KeptByCompaction, KeptByOpen, Scan, OpenedPages, AfterPut, AfterCompact;
    match ev
    case Put(key, v) => PutKeepsLocation(lib, n.engine, key, v, k);
    case CompactPages(values) => CompactionKeepsLocation(lib, n.engine, values, k);
    case Reopen => OpenKeepsLocation(lib, n, k);
    case Remove(_) => RemoveKeepsLocation(lib, n.engine, ev.key, k);
    case _ =>
  }

  lemma RemoveKeepsLocation(lib: Lib, e: EngineState, key: Key, k: Key)
    requires (key in e.mem ==> HasLsn(e)) && LocationRight(lib, e, k)
    ensures LocationRight(lib, AfterDelete(lib, e, key), k) && AfterDelete(lib, e, key).pages == e.pages
  {
    hide HoldsRecord, Appended;
  }

  lemma OpenKeepsLocation(lib: Lib, n: Node, k: Key)
    requires n.Down? && KeepsLocation(lib, n, Reopen, k)
    ensures NodeRight(lib, Step(lib, n, Reopen), k)
  {
    hide Scan, Replay, Opened, OpenedPages, ReplayPages, AllocatorInv, KeptByOpen, HoldsRecord;
    var rs := Scan(lib, n.walBytes).records;
    OpenedInOrder(lib, n.walBytes, n.pageBytes);
    OpenedScans(lib, n.walBytes);
    if k in Replay(rs) { LocationAfterOpen(lib, n.walBytes, n.pageBytes, k); }
  }

  lemma {:induction false} LocationsHoldOverRuns(lib: Lib, n: Node, events: seq<Event>, k: Key)
    requires NodeRight(lib, n, k) && CanRun(lib, n, events) && AllKeepLocation(lib, n, events, k)
    ensures NodeRight(lib, Run(lib, n, events), k)
    decreases |events|
  {
    hide NodeRight, KeepsLocation, Step, Enabled;
    if events != [] {
      StepRight(lib, n, events[0], k);
      LocationsHoldOverRuns(lib, Step(lib, n, events[0]), events[1..], k);
    }
  }

  lemma StepRight(lib: Lib, n: Node, ev: Event, k: Key)
    requires Enabled(n, ev) && KeepsLocation(lib, n, ev, k) && NodeRight(lib, n, k)
    ensures NodeRight(lib, Step(lib, n, ev), k)
  {
    hide KeepsLocation, Step, AllocatorInv, LocationRight;
    StepKeepsLocation(lib, n, ev, k);
  }

  /** From any running state whose page store is in order, as after every open: since its last put, a key's location is
      right through every run whose compactions and reopens keep it, whatever the other keys' locations are. */
  lemma LocationSinceLastPut(lib: Lib, e: EngineState, k: Key, v: seq<byte>, events: seq<Event>)
    requires AllocatorInv(lib, e.pages) && e.pages.next < 0x1_0000_0000_0000_0000 && Enabled(Up(e), Put(k, v))
    requires var n := Step(lib, Up(e), Put(k, v)); CanRun(lib, n, events) && AllKeepLocation(lib, n, events, k)
    ensures NodeRight(lib, Run(lib, Step(lib, Up(e), Put(k, v)), events), k)
  {
    hide Step, Run, CanRun, AllKeepLocation, NodeRight, AllocatorInv;
    StepKeepsLocation(lib, Up(e), Put(k, v), k);
    LocationsHoldOverRuns(lib, Step(lib, Up(e), Put(k, v)), events, k);
  }
}
