/** More results over engine runs: restore, and the indexes. */
module EngineRuns {
  import opened Bytes
  import opened LogFormat
  import opened Wal
  import opened Recovery
  import opened Indexes
  import opened Engine
  import opened Durability
  import opened Sessions

  // ---- Restore ----

  /** The map a list of snapshot entries stands for. */
  function ItemMap(items: seq<(Key, seq<byte>)>): Values {
    if items == [] then map[] else map[items[0].0 := items[0].1] + ItemMap(items[1..])
  }

  predicate ItemsFit(items: seq<(Key, seq<byte>)>) {
    forall i :: 0 <= i < |items| ==> |items[i].0| < 0x1_0000_0000 && |items[i].1| < 0x1_0000_0000
  }

  lemma OverrideFirst(m: Values, items: seq<(Key, seq<byte>)>)
    requires items != []
    ensures m[items[0].0 := items[0].1] + ItemMap(items[1..]) == m + ItemMap(items)
  {
    OverrideOne(m, items[0].0, items[0].1, ItemMap(items[1..]));
  }

  lemma OverrideOne(m: Values, k: Key, v: seq<byte>, rest: Values)
    ensures m[k := v] + rest == m + (map[k := v] + rest)
  {
    var a, b := m[k := v] + rest, m + (map[k := v] + rest);
    assert a.Keys == b.Keys;
    forall x | x in a.Keys ensures a[x] == b[x] {
    }
  }

  lemma NoItems()
    ensures ItemMap([]) == map[]
  {
  }

  /** Overriding `a` by `b` gives `b` itself exactly when `b` has every key of `a`. */
  lemma OverriddenEqual(a: Values, b: Values)
    ensures a + b == b <==> a.Keys <= b.Keys
  {
    assert (a + b).Keys == a.Keys + b.Keys;
    if a.Keys <= b.Keys {
      assert a + b == b;
    }
  }

  /** What a restore's puts do to memory, whatever is on disk. */
  lemma {:induction false} PutsInMemory(lib: Lib, e: EngineState, items: seq<(Key, seq<byte>)>)
    requires e.wal.nextLsn + |items| <= 0x1_0000_0000_0000_0000
    ensures ValuesOf(AfterPuts(lib, e, items).mem) == ValuesOf(e.mem) + ItemMap(items)
    decreases |items|
  {
    hide AfterPut, ItemMap, ValuesOf;
    NoItems();
    if items != [] {
      var k, v := items[0].0, items[0].1;
      PutAdvances(lib, e, k, v);
      PutInMemory(lib, e, k, v);
      PutsInMemory(lib, AfterPut(lib, e, k, v), items[1..]);
      OverrideFirst(ValuesOf(e.mem), items);
    } else {
      assert ValuesOf(e.mem) + map[] == ValuesOf(e.mem);
    }
  }

  lemma PutInMemory(lib: Lib, e: EngineState, k: Key, v: seq<byte>)
    requires HasLsn(e)
    ensures ValuesOf(AfterPut(lib, e, k, v).mem) == ValuesOf(e.mem)[k := v]
  {
    hide PutPages, Appended;
    ValuesOfUpdated(e.mem, k, RecordValue(k, v, e.wal.nextLsn));
  }

  /** The ledger after a restore's puts: on a clean tail they last; otherwise the first of them dooms the log. */
  function PutsAccount(l: Ledger, items: seq<(Key, seq<byte>)>): Ledger {
    if items == [] then l
    else if l.tail.Clean? then Ledger(l.live + ItemMap(items), l.durable + ItemMap(items), Clean)
    else Ledger(l.live + ItemMap(items), l.durable, Doomed)
  }

  /** The first of several puts puts no operation code where one belongs behind a stale tail, if there is one. */
  predicate PutsGuarded(e: EngineState, l: Ledger, items: seq<(Key, seq<byte>)>) {
    items != [] && l.tail.Stale? ==> 1 <= l.tail.length <= 7 && Misplaced(e.wal.nextLsn, l.tail.length)
  }

  lemma {:induction false} PutsKeepLedger(lib: Lib, e: EngineState, l: Ledger, items: seq<(Key, seq<byte>)>)
    requires RunInv(lib, Up(e), l) && ItemsFit(items) && e.wal.nextLsn + |items| <= 0x1_0000_0000_0000_0000
    requires PutsGuarded(e, l, items)
    ensures RunInv(lib, Up(AfterPuts(lib, e, items)), PutsAccount(l, items))
    decreases |items|
  {
    hide RunInv, AfterPut, ItemMap, Misplaced;
    if items != [] {
      var k, v, rest := items[0].0, items[0].1, items[1..];
      PutAdvances(lib, e, k, v);
      PutKeepsLedger(lib, e, l, k, v);
      PutsKeepLedger(lib, AfterPut(lib, e, k, v), Account(l, Put(k, v)), rest);
      FirstAccount(l, items);
    }
  }

  lemma FirstAccount(l: Ledger, items: seq<(Key, seq<byte>)>)
    requires items != []
    ensures PutsAccount(Account(l, Put(items[0].0, items[0].1)), items[1..]) == PutsAccount(l, items)
  {
    hide ItemMap;
    var k, v := items[0].0, items[0].1;
    OverrideFirst(l.live, items);
    OverrideFirst(l.durable, items);
    if items[1..] == [] {
      NoItems();
      assert l.live[k := v] + map[] == l.live[k := v] && l.durable[k := v] + map[] == l.durable[k := v];
    }
  }

  lemma PutKeepsLedger(lib: Lib, e: EngineState, l: Ledger, k: Key, v: seq<byte>)
    requires RunInv(lib, Up(e), l) && HasLsn(e) && |k| < 0x1_0000_0000 && |v| < 0x1_0000_0000
    requires PutsGuarded(e, l, [(k, v)])
    ensures RunInv(lib, Up(AfterPut(lib, e, k, v)), Account(l, Put(k, v)))
  {
    hide AfterPut, Misplaced, Account, Inv, DoomedInv;
    KnownTail(lib, Up(e), l);
    StepKeepsRunInv(lib, Up(e), l, Put(k, v));
  }

  /** Restore, exactly, in every state of every run, for any snapshot in any iteration order. Memory holds the snapshot.
      A later reopen gives what was durable, overridden by the snapshot if and only if the log had no stale tail, or
      that makes no difference. On a clean log, reads before and after the reopen agree if and only if every durable key
      is in the snapshot. */
  lemma RestoreExactly(lib: Lib, e: EngineState, l: Ledger, items: seq<(Key, seq<byte>)>, pages: seq<byte>)
    requires RunInv(lib, Up(e), l) && ItemsFit(items) && e.wal.nextLsn + |items| <= 0x1_0000_0000_0000_0000
    ensures Reads(Up(AfterRestore(lib, e, items))) == ItemMap(items)
    ensures PutsGuarded(e, l, items) ==>
      var snapshot, later := ItemMap(items), Reads(Reopened(lib, AfterRestore(lib, e, items), pages));
      && later == (if l.tail.Clean? then l.durable + snapshot else l.durable)
      && (later == l.durable + snapshot <==> l.tail.Clean? || l.durable + snapshot == l.durable)
      && (later == snapshot <==> if l.tail.Clean? then l.durable.Keys <= snapshot.Keys else l.durable == snapshot)
  {
    hide RunInv, AfterPuts, ItemMap, Reopened, ValuesOf, PutsGuarded;
    var restored, snapshot := AfterRestore(lib, e, items), ItemMap(items);
    PutsInMemory(lib, AfterClear(e), items);
    EmptyValues();
    assert map[] + snapshot == snapshot;
    if PutsGuarded(e, l, items) {
      RestoreLedger(lib, e, l, items);
      LedgerReopened(lib, restored, PutsAccount(l.(live := map[]), items), pages);
      OverriddenEqual(l.durable, snapshot);
      NoItems();
      assert l.durable + map[] == l.durable;
    }
  }

  lemma RestoreLedger(lib: Lib, e: EngineState, l: Ledger, items: seq<(Key, seq<byte>)>)
    requires RunInv(lib, Up(e), l) && ItemsFit(items) && e.wal.nextLsn + |items| <= 0x1_0000_0000_0000_0000
    requires PutsGuarded(e, l, items)
    ensures RunInv(lib, Up(AfterRestore(lib, e, items)), PutsAccount(l.(live := map[]), items))
  {
    hide RunInv, AfterPuts, ItemMap, Misplaced;
    QuietStep(lib, Up(e), l, Clear);
    PutsKeepLedger(lib, AfterClear(e), l.(live := map[]), items);
  }

  // ---- Indexes ----

  ghost predicate IndexesAgree(e: EngineState) {
    && e.hash == e.btree
    && e.hash.Keys == e.mem.Keys
    && forall k :: k in e.mem ==> e.hash[k].lsn == e.mem[k].lsn && e.hash[k].offset == 0
  }

  lemma StepKeepsIndexes(lib: Lib, n: Node, ev: Event)
    requires Enabled(n, ev) && (n.Up? ==> IndexesAgree(n.engine))
    ensures Step(lib, n, ev).Up? ==> IndexesAgree(Step(lib, n, ev).engine)
  {
    hide PutPages, Appended, Scan, Replay, ReplayPages, Serialize, Overwrite;
  }

  /** Both indexes hold the memtable's keys, at its LSNs and at the same places, in every run at all: any bytes on disk
      to begin with, any crash, restore, compaction or reopen. */
  lemma {:induction false} IndexesAlwaysAgree(lib: Lib, n: Node, events: seq<Event>)
    requires CanRun(lib, n, events) && (n.Up? ==> IndexesAgree(n.engine))
    ensures Run(lib, n, events).Up? ==> IndexesAgree(Run(lib, n, events).engine)
    decreases |events|
  {
    hide Step, Enabled, IndexesAgree;
    if events != [] {
      StepKeepsIndexes(lib, n, events[0]);
      IndexesAlwaysAgree(lib, Step(lib, n, events[0]), events[1..]);
    }
  }

  /** A range scan returns exactly the live keys of the range, in increasing order, each with the LSN of its value. */
  lemma RangeScanIsLiveKeys(e: EngineState, low: Key, high: Key, entries: seq<IndexEntry>)
    requires IndexesAgree(e) && IsRange(e.btree, low, high, entries)
    ensures StrictlyIncreasing(entries)
    ensures forall k: Key :: (exists i :: 0 <= i < |entries| && entries[i].key == k) <==>
      k in e.mem && LessOrEqual(low, k) && LessOrEqual(k, high)
    ensures forall i :: 0 <= i < |entries| ==>
      entries[i].key in e.mem && entries[i].location.lsn == e.mem[entries[i].key].lsn
  {
    forall k: Key ensures (exists i :: 0 <= i < |entries| && entries[i].key == k) <==>
      k in e.mem && LessOrEqual(low, k) && LessOrEqual(k, high)
    {
      if k in e.mem && LessOrEqual(low, k) && LessOrEqual(k, high) {
        assert IndexEntry(k, e.btree[k]) in entries;
      }
      assert forall i :: 0 <= i < |entries| ==> entries[i] in entries;
    }
    assert forall i :: 0 <= i < |entries| ==> entries[i] in entries;
  }
}
