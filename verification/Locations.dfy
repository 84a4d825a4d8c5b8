/** Whether a key's index location leads to its record: after its put always, through other puts, deletes and restores
    always, and after a compaction exactly when the condition below holds. Reopening is in ReopenedLocations. */
module Locations {
  import opened Prelude
  import opened Bytes
  import opened LogFormat
  import opened Wal
  import opened Pages
  import opened Recovery
  import opened Compaction
  import opened Engine
  import opened Durability
  import opened Sessions

  /** The page holds the record: its LSN and, when the entry fits, the entry at offset 0 as the page's only record. */
  predicate PageHolds(lib: Lib, p: Page, v: RecordValue) {
    var entry := Entry(lib, v.key, v.value);
    && p.header.pageType == Data && p.header.lsn == v.lsn
    && if |entry| <= PAYLOAD_SIZE then p.data[..|entry|] == entry && p.header.numRecords == 1
       else p.header.numRecords == 0
  }

  /** A page that holds a record that fits starts with its key, a colon, and its value as text. */
  lemma HeldReads(lib: Lib, p: Page, v: RecordValue)
    requires PageHolds(lib, p, v) && |v.key| + 1 + |lib.utf8Lossy(v.value)| <= 4064
    ensures var n, text := |v.key|, lib.utf8Lossy(v.value);
      && p.data[..n] == v.key && p.data[n] == ':' as int && p.data[n + 1..n + 1 + |text|] == text
      && p.header.pageType == Data && p.header.lsn == v.lsn && p.header.numRecords == 1
  {
    hide Entry;
    EntryReads(lib, v.key, v.value);
    var e, n := Entry(lib, v.key, v.value), |v.key|;
    assert p.data[..|e|] == e;
    assert p.data[..n] == e[..n] && p.data[n] == e[n];
    assert p.data[n + 1..|e|] == e[n + 1..];
  }

  predicate HoldsRecord(lib: Lib, bytes: seq<byte>, id: nat, v: RecordValue) {
    var p := PageAt(lib, bytes, id);
    p.Some? && PageHolds(lib, p.value, v)
  }

  /** Live key `k`'s index location is a page that holds its record. */
  predicate LocationHolds(lib: Lib, e: EngineState, k: Key)
    requires k in e.mem && k in e.hash
  {
    HoldsRecord(lib, e.pages.bytes, e.hash[k].pageId, e.mem[k])
  }

  /** If the key is live, its location is right. */
  predicate LocationRight(lib: Lib, e: EngineState, k: Key) {
    k in e.mem ==> k in e.hash && LocationHolds(lib, e, k)
  }

  /** Every live key's location is right, and the page store is in order. */
  ghost predicate LocationsHold(lib: Lib, e: EngineState) {
    AllocatorInv(lib, e.pages) && forall k :: LocationRight(lib, e, k)
  }

  /** A put writes a page of its own and no page in use. */
  lemma PutPlacesRecord(lib: Lib, ps: PageState, key: Key, value: seq<byte>, lsn: u64)
    requires AllocatorInv(lib, ps) && ps.next < 0x1_0000_0000_0000_0000
    ensures var after := PutPages(lib, ps, key, value, lsn);
      && AllocatorInv(lib, after)
      && HoldsRecord(lib, after.bytes, NextId(ps), RecordValue(key, value, lsn))
      && forall j: nat {:trigger PageAt(lib, after.bytes, j)} ::
           j != NextId(ps) ==> PageAt(lib, after.bytes, j) == PageAt(lib, ps.bytes, j)
  {
    hide PageAt, Written, Entry;
    var id := NextId(ps);
    var blank, handed, entry := NewPage(id, Data, lsn), Allocated(lib, ps, Data, lsn), Entry(lib, key, value);
    AllocateKeepsInv(lib, ps, Data, lsn);
    TypesAfterWrite(lib, ps.bytes, blank);
    if |entry| <= PAYLOAD_SIZE {
      var filled := WithEntry(blank.Sealed(lib), entry, lsn);
      WriteKeepsInv(lib, handed, filled);
      TypesAfterWrite(lib, handed.bytes, filled);
      assert filled.data[..|entry|] == entry;
    }
  }

  /** A page that holds a record is not the one the next put takes, and stays as it is. */
  lemma PutElsewhere(lib: Lib, ps: PageState, key: Key, value: seq<byte>, lsn: u64, id: nat, v: RecordValue)
    requires AllocatorInv(lib, ps) && ps.next < 0x1_0000_0000_0000_0000
    requires HoldsRecord(lib, ps.bytes, id, v)
    ensures HoldsRecord(lib, PutPages(lib, ps, key, value, lsn).bytes, id, v)
  {
    hide PageAt, PutPages, Entry, AllocatorInv;
    PutPlacesRecord(lib, ps, key, value, lsn);
    AllocateKeepsInv(lib, ps, Data, lsn);
    SlotOfPage(lib, ps.bytes, NextId(ps));
  }

  lemma SlotOfPage(lib: Lib, bytes: seq<byte>, id: nat)
    ensures PageAt(lib, bytes, id).Some? ==> HasSlot(bytes, id)
  {
  }

  /** From any state of the page store, reopened ones included: a put makes its own key's location right, and keeps any
      other that is. */
  lemma PutKeepsLocation(lib: Lib, e: EngineState, key: Key, value: seq<byte>, k: Key)
    requires AllocatorInv(lib, e.pages) && HasLsn(e) && e.pages.next < 0x1_0000_0000_0000_0000
    requires k == key || LocationRight(lib, e, k)
    ensures var after := AfterPut(lib, e, key, value); AllocatorInv(lib, after.pages) && LocationRight(lib, after, k)
  {
    hide PageAt, PutPages, Entry, Appended, AllocatorInv, HoldsRecord;
    PutPlacesRecord(lib, e.pages, key, value, e.wal.nextLsn);
    if k != key && k in e.mem {
      PutElsewhere(lib, e.pages, key, value, e.wal.nextLsn, e.hash[k].pageId, e.mem[k]);
    }
  }

  // ---- Compaction ----

  /** `values` lists the live records, each once, in any order. */
  ghost predicate Lists(values: seq<RecordValue>, mem: Memtable) {
    && (forall i, j :: 0 <= i < j < |values| ==> values[i] != values[j])
    && (forall v :: v in values ==> v.key in mem && mem[v.key] == v)
    && (forall k :: k in mem ==> mem[k] in values)
  }

  /** Every live record has an LSN of its own, and none has 0. */
  ghost predicate LsnsDistinct(mem: Memtable) {
    && (forall k :: k in mem ==> mem[k].lsn > 0)
    && (forall j, k :: j in mem && k in mem && mem[j].lsn == mem[k].lsn ==> j == k)
  }

  /** Each live value is that of the log record with its LSN. */
  lemma {:induction false} ReplaySound(rs: seq<LogRecord>, k: Key)
    requires Sequential(rs) && k in Replay(rs)
    ensures var v := Replay(rs)[k];
      && v.key == k && 1 <= v.lsn <= |rs|
      && var r := rs[v.lsn - 1]; r.key == k && r.value == v.value && (r.op.Insert? || r.op.Update?)
  {
    var front, last := rs[..|rs| - 1], rs[|rs| - 1];
    if k in Replay(front) && !(last.key == k && !last.op.Checkpoint?) {
      ReplaySound(front, k);
    }
  }

  /** Live records have LSNs of their own, all handed out already. */
  ghost predicate LsnsFresh(e: EngineState) {
    e.wal.nextLsn > 0 && LsnsDistinct(e.mem) && forall k :: k in e.mem ==> e.mem[k].lsn < e.wal.nextLsn
  }

  lemma OpenedLsnsFresh(lib: Lib, walBytes: seq<byte>, pageBytes: seq<byte>)
    requires Sequential(Scan(lib, walBytes).records)
    ensures LsnsFresh(OpenedEngine(lib, walBytes, pageBytes))
  {
    hide Scan, Replay, ReplayPages, MaxLsn;
    var log := Scan(lib, walBytes).records;
    OpenedScans(lib, walBytes);
    SequentialMax(log);
    forall k | k in Replay(log) ensures 1 <= Replay(log)[k].lsn <= |log| && log[Replay(log)[k].lsn - 1].key == k {
      ReplaySound(log, k);
    }
  }

  lemma PutKeepsLsnsFresh(lib: Lib, e: EngineState, k: Key, v: seq<byte>)
    requires LsnsFresh(e) && HasLsn(e)
    ensures LsnsFresh(AfterPut(lib, e, k, v))
  {
    hide PutPages, Serialize, Overwrite;
  }

  lemma DeleteKeepsLsnsFresh(lib: Lib, e: EngineState, k: Key)
    requires LsnsFresh(e) && (k in e.mem ==> HasLsn(e))
    ensures LsnsFresh(AfterDelete(lib, e, k))
  {
    hide Serialize, Overwrite;
  }

  lemma ClearKeepsLsnsFresh(lib: Lib, e: EngineState)
    requires LsnsFresh(e)
    ensures LsnsFresh(AfterClear(e))
  {
  }

  lemma CompactKeepsLsnsFresh(lib: Lib, e: EngineState, values: seq<RecordValue>)
    requires LsnsFresh(e)
    ensures LsnsFresh(AfterCompact(lib, e, values))
  {
    hide Compacted;
  }

  lemma StepKeepsLsnsFresh(lib: Lib, n: Node, ev: Event)
    requires Enabled(n, ev) && (n.Up? ==> LsnsFresh(n.engine))
    requires n.Down? ==> Sequential(Scan(lib, n.walBytes).records)
    ensures var after := Step(lib, n, ev); after.Up? ==> LsnsFresh(after.engine)
  {
    hide LsnsFresh, Scan, AfterPut, AfterDelete, OpenedEngine, Sequential, TornLog;
    match ev
    case Reopen => OpenedLsnsFresh(lib, n.walBytes, n.pageBytes);
    case Put(k, v) => PutKeepsLsnsFresh(lib, n.engine, k, v);
    case Remove(k) => DeleteKeepsLsnsFresh(lib, n.engine, k);
    case Clear => ClearKeepsLsnsFresh(lib, n.engine);
    case CompactPages(values) => CompactKeepsLsnsFresh(lib, n.engine, values);
    case _ =>
  }

  /** In every run from an empty disk, lost sessions included, live records have LSNs of their own. */
  lemma {:induction false} LsnsFreshOverRuns(lib: Lib, n: Node, l: Ledger, events: seq<Event>)
    requires RunInv(lib, n, l) && (n.Up? ==> LsnsFresh(n.engine))
    requires CanRun(lib, n, events) && GuardedRun(lib, n, events)
    ensures var after := Run(lib, n, events); after.Up? ==> LsnsFresh(after.engine)
    decreases |events|
  {
    hide RunInv, Step, Account, Guarded, LsnsFresh, Sequential;
    if events != [] {
      if n.Down? { DownIsSequential(lib, n, l); }
      StepKeepsRunInv(lib, n, l, events[0]);
      StepKeepsLsnsFresh(lib, n, events[0]);
      LsnsFreshOverRuns(lib, Step(lib, n, events[0]), Account(l, events[0]), events[1..]);
    }
  }

  lemma DownIsSequential(lib: Lib, n: Node, l: Ledger)
    requires RunInv(lib, n, l) && n.Down?
    ensures Sequential(Scan(lib, n.walBytes).records)
  {
    hide Scan, Replay;
  }

  /** No readable Data page has a higher id. */
  ghost predicate HighestData(lib: Lib, ps: PageState, id: nat) {
    forall j: nat :: id < j < ps.next ==> !HasType(lib, ps.bytes, j, Data)
  }

  /** Compaction leaves `v` at page `id`: that is the page it fills, `v` is the last record it writes there, and the
      count of records written there, which is a `u16`, ends at one. */
  predicate KeptByCompaction(lib: Lib, ps: PageState, values: seq<RecordValue>, id: nat, v: RecordValue) {
    id == CompactionPage(lib, ps) && LastFitting(lib, values) == Some(v) && CountFitting(lib, values) % 0x1_0000 == 1
  }

  /** The page filled is the Data page of the highest id, if there is a Data page. */
  lemma CompactionPageIsHighest(lib: Lib, ps: PageState, id: nat)
    requires id < ps.next && HasType(lib, ps.bytes, id, Data)
    ensures id == CompactionPage(lib, ps) <==> HighestData(lib, ps, id)
  {
    hide HasType;
    IdsOfTypeAre(lib, ps.bytes, ps.next, Data);
    var ids := DataPages(lib, ps);
    assert id in ids && ids[|ids| - 1] in ids;
    forall j | id < j < ps.next && HasType(lib, ps.bytes, j, Data) ensures id < ids[|ids| - 1] {
      assert j in ids;
    }
  }

  lemma FilledPageHolds(lib: Lib, page: Page, values: seq<RecordValue>, v: RecordValue)
    requires page.header.pageType == Data && page.header.numRecords == 0 && page.header.lsn == 0 < v.lsn
    requires forall u :: u in values && u.lsn == v.lsn ==> u == v
    ensures PageHolds(lib, FilledPage(lib, page, values), v) <==>
      LastFitting(lib, values) == Some(v) && CountFitting(lib, values) % 0x1_0000 == 1
  {
    hide Entry, FilledPage, CountFitting, LastFitting;
    FilledPageIs(lib, page, values);
  }

  /** A live key's location holds after a compaction exactly when the compaction leaves its record there, whether or not
      the location held before, and whatever the other keys' are. */
  lemma LocationAfterCompaction(lib: Lib, e: EngineState, values: seq<RecordValue>, k: Key)
    requires AllocatorInv(lib, e.pages) && e.pages.next < 0x1_0000_0000_0000_0000
    requires LsnsDistinct(e.mem) && Lists(values, e.mem) && k in e.mem && k in e.hash
    ensures LocationHolds(lib, AfterCompact(lib, e, values), k) <==>
      KeptByCompaction(lib, e.pages, values, e.hash[k].pageId, e.mem[k])
  {
    hide PageAt, PageHolds, AllocatorInv, Undamaged, Compacted, FilledPage, LastFitting, CountFitting, DataPages;
    var after, id, v := AfterCompact(lib, e, values).pages, e.hash[k].pageId, e.mem[k];
    CompactionEffect(lib, e.pages, values);
    if id == CompactionPage(lib, e.pages) {
      FilledPageHolds(lib, NewPage(id, Data, 0).Sealed(lib), values, v);
    } else if HoldsRecord(lib, after.bytes, id, v) {
      DataToHold(lib, after.bytes, id, v);
      SlotBelowNext(lib, after, id);
    }
  }

  /** A location that a compaction keeps is right after it. */
  lemma CompactionKeepsLocation(lib: Lib, e: EngineState, values: seq<RecordValue>, k: Key)
    requires AllocatorInv(lib, e.pages) && e.pages.next < 0x1_0000_0000_0000_0000
    requires k in e.mem ==> k in e.hash && KeptByCompaction(lib, e.pages, values, e.hash[k].pageId, e.mem[k])
    ensures var after := AfterCompact(lib, e, values); AllocatorInv(lib, after.pages) && LocationRight(lib, after, k)
  {
    hide PageAt, PageHolds, AllocatorInv, Undamaged, Compacted, FilledPage, LastFitting, CountFitting, DataPages;
    CompactionEffect(lib, e.pages, values);
    if k in e.mem {
      FilledHolds(lib, NewPage(e.hash[k].pageId, Data, 0).Sealed(lib), values, e.mem[k]);
    }
  }

  lemma FilledHolds(lib: Lib, page: Page, values: seq<RecordValue>, v: RecordValue)
    requires page.header.pageType == Data && page.header.numRecords == 0
    requires LastFitting(lib, values) == Some(v) && CountFitting(lib, values) % 0x1_0000 == 1
    ensures PageHolds(lib, FilledPage(lib, page, values), v)
  {
    hide Entry, FilledPage, CountFitting;
    FilledPageIs(lib, page, values);
  }

  lemma DataToHold(lib: Lib, bytes: seq<byte>, id: nat, v: RecordValue)
    requires HoldsRecord(lib, bytes, id, v)
    ensures HasType(lib, bytes, id, Data)
  {
    hide PageAt;
  }

  lemma SlotBelowNext(lib: Lib, ps: PageState, id: nat)
    requires AllocatorInv(lib, ps) && HasType(lib, ps.bytes, id, Data)
    ensures id < ps.next
  {
    hide PageAt;
    SlotOfPage(lib, ps.bytes, id);
  }

  /** All locations are right after a compaction exactly when it leaves every live key's record where its location is.
      */
  lemma LocationsAfterCompaction(lib: Lib, e: EngineState, values: seq<RecordValue>)
    requires AllocatorInv(lib, e.pages) && e.pages.next < 0x1_0000_0000_0000_0000
    requires LsnsDistinct(e.mem) && Lists(values, e.mem) && e.mem.Keys <= e.hash.Keys
    ensures LocationsHold(lib, AfterCompact(lib, e, values)) <==>
      forall k :: k in e.mem ==> KeptByCompaction(lib, e.pages, values, e.hash[k].pageId, e.mem[k])
  {
    hide LocationHolds, KeptByCompaction, AllocatorInv, Undamaged, Compacted, DataPages;
    var after := AfterCompact(lib, e, values);
    CompactionEffect(lib, e.pages, values);
    forall k | k in e.mem
      ensures LocationRight(lib, after, k) <==> KeptByCompaction(lib, e.pages, values, e.hash[k].pageId, e.mem[k])
    {
      LocationAfterCompaction(lib, e, values, k);
    }
    assert forall k :: k !in e.mem ==> LocationRight(lib, after, k);
  }

  ghost predicate OnlyFitting(lib: Lib, values: seq<RecordValue>, v: RecordValue) {
    v in values && forall u :: u in values ==> (ValueFits(lib, u) <==> u == v)
  }

  lemma {:induction false} CountOne(lib: Lib, values: seq<RecordValue>, v: RecordValue)
    requires forall i, j :: 0 <= i < j < |values| ==> values[i] != values[j]
    ensures CountFitting(lib, values) <= |values|
    ensures CountFitting(lib, values) == 0 <==> forall u :: u in values ==> !ValueFits(lib, u)
    ensures CountFitting(lib, values) == 1 && LastFitting(lib, values) == Some(v) <==> OnlyFitting(lib, values, v)
  {
    hide ValueFits;
    if values != [] {
      var front, last := values[..|values| - 1], values[|values| - 1];
      CountOne(lib, front, v);
      assert last !in front;
      assert forall u :: u in values <==> u in front || u == last;
    }
  }

  /** With fewer than 65536 live records: its page is the one compaction fills, and it alone fits a page. */
  lemma KeptByCompactionAlone(lib: Lib, ps: PageState, values: seq<RecordValue>, id: nat, v: RecordValue)
    requires |values| < 0x1_0000 && forall i, j :: 0 <= i < j < |values| ==> values[i] != values[j]
    ensures KeptByCompaction(lib, ps, values, id, v) <==> id == CompactionPage(lib, ps) && OnlyFitting(lib, values, v)
  {
    hide CompactionPage, CountFitting, LastFitting, OnlyFitting;
    CountOne(lib, values, v);
  }

  /** Whatever values it is given: of two live keys on different pages, at most one location still holds. */
  lemma CompactionLeavesOneLocation(lib: Lib, e: EngineState, values: seq<RecordValue>, a: Key, b: Key)
    requires AllocatorInv(lib, e.pages) && e.pages.next < 0x1_0000_0000_0000_0000
    requires a in e.mem && b in e.mem && a in e.hash && b in e.hash && e.hash[a].pageId != e.hash[b].pageId
    ensures var after := AfterCompact(lib, e, values); !(LocationHolds(lib, after, a) && LocationHolds(lib, after, b))
  {
    hide PageAt, PageHolds, AllocatorInv, Undamaged, Compacted, FilledPage, DataPages;
    var after := AfterCompact(lib, e, values);
    CompactionEffect(lib, e.pages, values);
    forall k | k in {a, b} && LocationHolds(lib, after, k) ensures e.hash[k].pageId == CompactionPage(lib, e.pages) {
      DataToHold(lib, after.pages.bytes, e.hash[k].pageId, e.mem[k]);
      SlotBelowNext(lib, after.pages, e.hash[k].pageId);
    }
  }
}
