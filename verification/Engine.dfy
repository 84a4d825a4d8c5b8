/** The storage engine (services/node-agent/src/storage/engine.rs): log, pages, two indexes and the memtable together.
    */
module Engine {
  import opened Prelude
  import opened Bytes
  import opened LogFormat
  import opened Wal
  import opened Pages
  import opened Recovery
  import opened Compaction
  import opened Indexes

  type Index = map<Key, RecordLocation>

  datatype EngineState = EngineState(wal: WalState, pages: PageState, mem: Memtable, hash: Index, btree: Index)

  /** The index recovery builds: every key at page 0, offset 0. */
  function RebuiltIndex(mem: Memtable): Index {
    map k | k in mem :: RecordLocation(0, 0, mem[k].lsn)
  }

  /** Opening a database from its two files. */
  function OpenedEngine(lib: Lib, walBytes: seq<byte>, pageBytes: seq<byte>): EngineState {
    var wal := AfterReadAll(Opened(lib, walBytes));
    var rs := Scan(lib, wal.bytes).records;
    var mem := Replay(rs);
    EngineState(wal, ReplayPages(lib, OpenedPages(lib, pageBytes), rs), mem, RebuiltIndex(mem), RebuiltIndex(mem))
  }

  predicate HasLsn(e: EngineState) {
    e.wal.nextLsn < 0x1_0000_0000_0000_0000
  }

  function PutOp(e: EngineState, key: Key): OpType {
    if key in e.mem then Update else Insert
  }

  /** A page of its own for the record, filled if the entry fits. */
  function PutPages(lib: Lib, ps: PageState, key: Key, value: seq<byte>, lsn: u64): PageState {
    var handed, entry := Allocated(lib, ps, Data, lsn), Entry(lib, key, value);
    if |entry| <= PAYLOAD_SIZE
    then Stored(lib, handed, WithEntry(NewPage(NextId(ps), Data, lsn).Sealed(lib), entry, lsn))
    else handed
  }

  function AfterPut(lib: Lib, e: EngineState, key: Key, value: seq<byte>): EngineState
    requires HasLsn(e)
  {
    var lsn: u64 := e.wal.nextLsn;
    var at := RecordLocation(NextId(e.pages), 0, lsn);
    EngineState(Appended(lib, e.wal, PutOp(e, key), key, value), PutPages(lib, e.pages, key, value, lsn),
                e.mem[key := RecordValue(key, value, lsn)], e.hash[key := at], e.btree[key := at])
  }

  /** Deleting an absent key does nothing, not even a log record. */
  function AfterDelete(lib: Lib, e: EngineState, key: Key): EngineState
    requires key in e.mem ==> HasLsn(e)
  {
    if key !in e.mem then e
    else EngineState(Appended(lib, e.wal, Delete, key, []), e.pages, e.mem - {key}, e.hash - {key}, e.btree - {key})
  }

  /** The volatile half of `restore`: nothing is logged. */
  function AfterClear(e: EngineState): EngineState {
    e.(mem := map[], hash := map[], btree := map[])
  }

  function AfterPuts(lib: Lib, e: EngineState, items: seq<(Key, seq<byte>)>): EngineState
    requires e.wal.nextLsn + |items| <= 0x1_0000_0000_0000_0000
    decreases |items|
  {
    if items == [] then e
    else AfterPuts(lib, AfterPut(lib, e, items[0].0, items[0].1), items[1..])
  }

  function AfterRestore(lib: Lib, e: EngineState, items: seq<(Key, seq<byte>)>): EngineState
    requires e.wal.nextLsn + |items| <= 0x1_0000_0000_0000_0000
  {
    AfterPuts(lib, AfterClear(e), items)
  }

  function AfterCompact(lib: Lib, e: EngineState, values: seq<RecordValue>): EngineState {
    e.(pages := Compacted(lib, e.pages, values))
  }

  /** "vec:" */
  const VECTOR_PREFIX: seq<byte> := [0x76, 0x65, 0x63, 0x3A]

  lemma VectorKeyValid(id: Key)
    ensures ValidUtf8(VECTOR_PREFIX + id)
  {
    hide ValidUtf8;
    var c := [0x3A] + id;
    var ec := [0x63] + c;
    var vec := [0x65] + ec;
    AsciiFirst(0x3A, id);
    AsciiFirst(0x63, c);
    AsciiFirst(0x65, ec);
    AsciiFirst(0x76, vec);
    assert VECTOR_PREFIX + id == [0x76] + vec;
  }

  lemma AsciiFirst(b: byte, s: seq<byte>)
    requires b < 0x80 && ValidUtf8(s)
    ensures ValidUtf8([b] + s)
  {
    assert ([b] + s)[1..] == s;
  }

  function VectorKey(id: Key): Key {
    VectorKeyValid(id);
    VECTOR_PREFIX + id
  }

  /** Vector keys start with "vec:", which keeps them apart from plain keys and from each other. */
  lemma VectorKeysApart(a: Key, b: Key, plain: Key)
    ensures VectorKey(a) == VectorKey(b) <==> a == b
    ensures (exists id: Key :: plain == VectorKey(id)) ==>
      |plain| >= 4 && plain[0] == 'v' as int && plain[1] == 'e' as int
      && plain[2] == 'c' as int && plain[3] == ':' as int
    ensures VectorKey(a)[4..] == a
  {
    assert VectorKey(a)[4..] == a && VectorKey(b)[4..] == b;
  }

  class StorageEngine {
    const lib: Lib
    var wal: WalManager
    var pageMgr: PageManager
    var hashIdx: HashIndex
    var btreeIdx: BTreeIndex
    var activeRecords: Memtable

    ghost function State(): EngineState
      reads this, wal, pageMgr, hashIdx, btreeIdx
    {
      EngineState(wal.State(), pageMgr.State(), activeRecords, hashIdx.index, btreeIdx.tree)
    }

    ghost predicate Valid()
      reads this, wal, pageMgr, hashIdx, btreeIdx
    {
      wal.lib == lib && pageMgr.lib == lib && wal.Valid()
    }

    /** Opening never fails: a log that does not read to its end is truncated first. */
    constructor Open(lib: Lib, walBytes: seq<byte>, pageBytes: seq<byte>)
      requires |pageBytes| < 0x1_0000_0000_0000_0000
      ensures Valid() && this.lib == lib
      ensures fresh(wal) && fresh(pageMgr) && fresh(hashIdx) && fresh(btreeIdx)
      ensures State() == OpenedEngine(lib, walBytes, pageBytes)
    {
      hide Scan, Opened, ReplayPages, Replay, IdsOfType, PageAt, HasType;
      this.lib := lib;
      var pages := new PageManager.Open(lib, pageBytes);
      var log := new WalManager.Open(lib, walBytes);
      OpenedScans(lib, walBytes);
      OpenedCanAllocate(lib, pageBytes);
      var recovered := Recover(log, pages, 0);
      FromLsnZero(Scan(lib, log.bytes).records);
      var mem := recovered.value;
      var hash, btree := RebuildIndexes(mem);
      this.wal, this.pageMgr, this.hashIdx, this.btreeIdx, this.activeRecords := log, pages, hash, btree, mem;
    }

    static method RebuildIndexes(mem: Memtable) returns (hash: HashIndex, btree: BTreeIndex)
      ensures fresh(hash) && fresh(btree)
      ensures hash.index == RebuiltIndex(mem) && btree.tree == RebuiltIndex(mem)
    {
      hash := new HashIndex();
      btree := new BTreeIndex();
      var rest := mem.Keys;
      while rest != {}
        invariant rest <= mem.Keys && fresh(hash) && fresh(btree)
        invariant hash.index == btree.tree && hash.index.Keys == mem.Keys - rest
        invariant forall k :: k in hash.index ==> hash.index[k] == RecordLocation(0, 0, mem[k].lsn)
        decreases rest
      {
        var k :| k in rest;
        rest := rest - {k};
        hash.Insert(k, 0, 0, mem[k].lsn);
        btree.Insert(k, 0, 0, mem[k].lsn);
      }
    }

    method Put(key: Key, value: seq<byte>) returns (lsn: u64)
      requires Valid() && HasLsn(State())
      modifies this, wal, pageMgr, hashIdx, btreeIdx
      ensures Valid() && wal == old(wal) && pageMgr == old(pageMgr)
              && hashIdx == old(hashIdx) && btreeIdx == old(btreeIdx)
      ensures State() == AfterPut(lib, old(State()), key, value) && lsn == old(wal.nextLsn)
    {
      hide Entry, Written, Serialize;
      var op := if key in activeRecords then Update else Insert;
      lsn := wal.Append(op, key, value);
      var page := pageMgr.AllocatePage(Data, lsn);
      var entry := Entry(lib, key, value);
      if |entry| <= PAYLOAD_SIZE {
        page := pageMgr.WritePage(WithEntry(page, entry, lsn));
      }
      hashIdx.Insert(key, page.header.pageId, 0, lsn);
      btreeIdx.Insert(key, page.header.pageId, 0, lsn);
      activeRecords := activeRecords[key := RecordValue(key, value, lsn)];
    }

    /** The vector's bytes are logged under a prefixed key; the vector graph itself is not modelled. */
    method InsertVector(id: Key, bytes: seq<byte>) returns (lsn: u64)
      requires Valid() && HasLsn(State())
      modifies this, wal, pageMgr, hashIdx, btreeIdx
      ensures Valid() && State() == AfterPut(lib, old(State()), VectorKey(id), bytes) && lsn == old(wal.nextLsn)
    {
      lsn := Put(VectorKey(id), bytes);
    }

    method Get(key: Key) returns (value: Option<seq<byte>>)
      requires Valid()
      ensures value == if key in State().mem then Some(State().mem[key].value) else None
    {
      value := if key in activeRecords then Some(activeRecords[key].value) else None;
    }

    method Delete(key: Key) returns (found: bool)
      requires Valid() && (key in activeRecords ==> HasLsn(State()))
      modifies this, wal, hashIdx, btreeIdx
      ensures Valid() && wal == old(wal) && pageMgr == old(pageMgr)
              && hashIdx == old(hashIdx) && btreeIdx == old(btreeIdx)
      ensures State() == AfterDelete(lib, old(State()), key) && found == (key in old(activeRecords))
    {
      hide Overwrite, Serialize;
      if key !in activeRecords { return false; }
      var _ := wal.Append(OpType.Delete, key, []);
      var _ := hashIdx.Remove(key);
      var _ := btreeIdx.Remove(key);
      activeRecords := activeRecords - {key};
      return true;
    }

    method RangeScan(low: Key, high: Key) returns (entries: seq<IndexEntry>)
      requires Valid() && LessOrEqual(low, high)
      ensures IsRange(State().btree, low, high, entries)
    {
      entries := btreeIdx.RangeScan(low, high);
    }

    /** `items` is the snapshot in the order its map iterates; `None` is a snapshot that does not load, and changes
        nothing. */
    method Restore(snapshot: Option<seq<(Key, seq<byte>)>>) returns (ok: bool)
      requires Valid() && (snapshot.Some? ==> wal.nextLsn + |snapshot.value| <= 0x1_0000_0000_0000_0000)
      modifies this, wal, pageMgr, hashIdx, btreeIdx
      ensures Valid() && ok == snapshot.Some?
      ensures State() == if snapshot.None? then old(State()) else AfterRestore(lib, old(State()), snapshot.value)
    {
      hide AfterPut;
      if snapshot.None? { return false; }
      var items := snapshot.value;
      activeRecords := map[];
      hashIdx.Clear();
      btreeIdx := new BTreeIndex();
      ghost var cleared := State();
      for i := 0 to |items|
        invariant Valid() && wal == old(wal) && pageMgr == old(pageMgr) && hashIdx == old(hashIdx) && fresh(btreeIdx)
        invariant wal.nextLsn + |items| - i <= 0x1_0000_0000_0000_0000
        invariant AfterPuts(lib, cleared, items) == AfterPuts(lib, State(), items[i..])
      {
        assert items[i..][1..] == items[i + 1..];
        PutAdvances(lib, State(), items[i].0, items[i].1);
        var _ := Put(items[i].0, items[i].1);
      }
      return true;
    }

    method CompactPages(values: seq<RecordValue>) returns (stats: CompactionStats)
      requires Valid()
      modifies pageMgr
      ensures Valid() && State() == AfterCompact(lib, old(State()), values)
      ensures stats.pagesReclaimed == Reclaimed(old(State()).pages, State().pages)
    {
      stats := Compact(pageMgr, values);
    }
  }

  lemma PutAdvances(lib: Lib, e: EngineState, key: Key, value: seq<byte>)
    requires HasLsn(e)
    ensures AfterPut(lib, e, key, value).wal.nextLsn == e.wal.nextLsn + 1
  {
  }

  lemma OpenedCanAllocate(lib: Lib, pageBytes: seq<byte>)
    requires |pageBytes| < 0x1_0000_0000_0000_0000
    ensures CanAllocate(OpenedPages(lib, pageBytes))
  {
    hide HasType;
    IdsOfTypeAre(lib, pageBytes, |pageBytes| / PAGE_SIZE, Free);
  }
}
