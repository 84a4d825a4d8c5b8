/**
 Whole runs of the storage engine through crashes and reopens.

 The disk is what was synced; a crash during an append keeps any prefix of the record being written, and may leave the
 page file in any state whatever, since nothing recovered into memory comes from it.
 */
module Durability {
  import opened Bytes
  import opened LogFormat
  import opened Wal
  import opened Recovery
  import opened Engine

  datatype Node = Down(walBytes: seq<byte>, pageBytes: seq<byte>) | Up(engine: EngineState) {
    function LogBytes(): seq<byte> {
      if Down? then walBytes else engine.wal.bytes
    }
  }

  /** `Clear` is the point inside `restore` where memory is empty and no snapshot entry has been put yet. */
  datatype Event =
    | Reopen
    | Put(key: Key, value: seq<byte>)
    | Remove(key: Key)
    | Clear
    | CompactPages(values: seq<RecordValue>)
    | Crash(pageBytes: seq<byte>)
    | CrashInPut(key: Key, value: seq<byte>, cut: nat, pageBytes: seq<byte>)
    | CrashInRemove(key: Key, cut: nat, pageBytes: seq<byte>)

  predicate Enabled(n: Node, ev: Event) {
    match ev
    case Reopen => n.Down?
    case Put(k, v) => n.Up? && HasLsn(n.engine) && |k| < 0x1_0000_0000 && |v| < 0x1_0000_0000
    case Remove(k) => n.Up? && (k in n.engine.mem ==> HasLsn(n.engine)) && |k| < 0x1_0000_0000
    case Clear => n.Up?
    case CompactPages(_) => n.Up?
    case Crash(_) => n.Up?
    case CrashInPut(k, v, cut, _) =>
      n.Up? && HasLsn(n.engine) && |k| < 0x1_0000_0000 && |v| < 0x1_0000_0000 && cut <= 21 + |k| + |v|
    case CrashInRemove(k, cut, _) =>
      n.Up? && HasLsn(n.engine) && |k| < 0x1_0000_0000 && k in n.engine.mem && cut <= 21 + |k|
  }

  function PutRecord(lib: Lib, e: EngineState, key: Key, value: seq<byte>): LogRecord
    requires HasLsn(e)
  {
    NewRecord(lib, e.wal.nextLsn, PutOp(e, key), key, value)
  }

  function RemoveRecord(lib: Lib, e: EngineState, key: Key): LogRecord
    requires HasLsn(e)
  {
    NewRecord(lib, e.wal.nextLsn, Delete, key, [])
  }

  /** The log file after a crash that let `cut` bytes of record `r` through. */
  function TornLog(w: WalState, r: LogRecord, cut: nat): seq<byte>
    requires cut <= |Serialize(r)|
  {
    Overwrite(w.bytes, w.pos, Serialize(r)[..cut])
  }

  function Step(lib: Lib, n: Node, ev: Event): Node
    requires Enabled(n, ev)
  {
    match ev
    case Reopen => Up(OpenedEngine(lib, n.walBytes, n.pageBytes))
    case Put(k, v) => Up(AfterPut(lib, n.engine, k, v))
    case Remove(k) => Up(AfterDelete(lib, n.engine, k))
    case Clear => Up(AfterClear(n.engine))
    case CompactPages(values) => Up(AfterCompact(lib, n.engine, values))
    case Crash(pages) => Down(n.engine.wal.bytes, pages)
    case CrashInPut(k, v, cut, pages) =>
      var r := PutRecord(lib, n.engine, k, v);
      SerializedLength(r);
      Down(TornLog(n.engine.wal, r, cut), pages)
    case CrashInRemove(k, cut, pages) =>
      var r := RemoveRecord(lib, n.engine, k);
      SerializedLength(r);
      Down(TornLog(n.engine.wal, r, cut), pages)
  }

  predicate CanRun(lib: Lib, n: Node, events: seq<Event>)
    decreases |events|
  {
    events == [] || (Enabled(n, events[0]) && CanRun(lib, Step(lib, n, events[0]), events[1..]))
  }

  function Run(lib: Lib, n: Node, events: seq<Event>): Node
    requires CanRun(lib, n, events)
    decreases |events|
  {
    if events == [] then n else Run(lib, Step(lib, n, events[0]), events[1..])
  }

  /** The event writes bytes to the log. */
  predicate Appends(n: Node, ev: Event) {
    match ev
    case Put(_, _) => true
    case Remove(k) => n.Up? && k in n.engine.mem
    case CrashInPut(_, _, cut, _) => cut > 0
    case CrashInRemove(_, cut, _) => cut > 0
    case _ => false
  }

  /** No event of the run appends behind a stale tail. */
  predicate CleanRun(lib: Lib, n: Node, events: seq<Event>)
    requires CanRun(lib, n, events)
    decreases |events|
  {
    events == [] ||
    ((Appends(n, events[0]) ==> !StaleTail(lib, n.LogBytes())) && CleanRun(lib, Step(lib, n, events[0]), events[1..]))
  }

  /** A crash that leaves 1 to 7 bytes of a record. */
  predicate Tears(ev: Event) {
    (ev.CrashInPut? || ev.CrashInRemove?) && 1 <= ev.cut <= 7
  }

  // ---- What the engine promises, without bytes, LSNs or files ----

  type Values = map<Key, seq<byte>>

  /** What reads return now, and what the next reopen will return. */
  datatype Contents = Contents(live: Values, durable: Values)

  /** An acknowledged operation takes effect on both maps. An operation in flight at a crash takes effect exactly when
      its whole record reached the disk. */
  function Promise(c: Contents, ev: Event): Contents {
    match ev
    case Reopen => Contents(c.durable, c.durable)
    case Put(k, v) => Contents(c.live[k := v], c.durable[k := v])
    case Remove(k) => if k in c.live then Contents(c.live - {k}, c.durable - {k}) else c
    case Clear => Contents(map[], c.durable)
    case CompactPages(_) => c
    case Crash(_) => Contents(map[], c.durable)
    case CrashInPut(k, v, cut, _) => Contents(map[], if cut == 21 + |k| + |v| then c.durable[k := v] else c.durable)
    case CrashInRemove(k, cut, _) => Contents(map[], if cut == 21 + |k| then c.durable - {k} else c.durable)
  }

  function Promised(c: Contents, events: seq<Event>): Contents
    decreases |events|
  {
    if events == [] then c else Promised(Promise(c, events[0]), events[1..])
  }

  function ValuesOf(mem: Memtable): Values {
    map k | k in mem :: mem[k].value
  }

  /** Everything a client can read; nothing while the process is down. */
  function Reads(n: Node): Values {
    if n.Up? then ValuesOf(n.engine.mem) else map[]
  }

  // ---- The invariant ----

  function LogOf(lib: Lib, n: Node): seq<LogRecord> {
    Scan(lib, n.LogBytes()).records
  }

  ghost predicate SubMemtable(mem: Memtable, whole: Memtable) {
    forall k :: k in mem ==> k in whole && mem[k] == whole[k]
  }

  /** A running engine's log reads without an error, with the cursor at its end; memory agrees with the records. */
  ghost predicate Consistent(e: EngineState, s: Scanned) {
    && e.wal == WalState(e.wal.bytes, |e.wal.bytes|, |s.records| + 1) && !s.corrupt
    && SubMemtable(e.mem, Replay(s.records))
  }

  /** Disk, memory and promise are in step, with or without a stale tail. */
  ghost predicate Inv(lib: Lib, n: Node, c: Contents) {
    var s := Scan(lib, n.LogBytes());
    && Sequential(s.records)
    && ValuesOf(Replay(s.records)) == c.durable
    && (n.Up? ==> Consistent(n.engine, s) && ValuesOf(n.engine.mem) == c.live)
  }

  /** Without a stale tail, a running engine's log is exactly its records. */
  lemma CleanIsWhole(lib: Lib, w: WalState)
    requires var s := Scan(lib, w.bytes); w == WalState(w.bytes, |w.bytes|, |s.records| + 1) && !s.corrupt
    requires !StaleTail(lib, w.bytes)
    ensures WholeLog(w, Scan(lib, w.bytes).records) && AllWellFormed(lib, Scan(lib, w.bytes).records)
  {
    hide Scan, Encode;
    ScanSound(lib, w.bytes);
    assert w.bytes[..|w.bytes|] == w.bytes;
  }

  /** A torn append at the end of a whole log: the records before it are all still read, and it is not, unless it is
      whole. */
  lemma AppendTorn(lib: Lib, w: WalState, log: seq<LogRecord>, r: LogRecord, cut: nat)
    requires AllWellFormed(lib, log) && r.WellFormed(lib) && cut <= |Serialize(r)|
    requires w.bytes == Encode(log) && w.pos == |w.bytes|
    ensures var torn := TornLog(w, r, cut); var s := Scan(lib, torn);
      if cut == |Serialize(r)| then s.records == log + [r] && s.validBytes == |torn|
      else s.records == log && |torn| - s.validBytes == cut
  {
    hide Scan, Encode, Serialize, Deserialize, LogRecord.WellFormed;
    if cut == |Serialize(r)| {
      assert Serialize(r)[..cut] == Serialize(r);
      AppendWhole(lib, w, log, r);
    } else {
      var part := Serialize(r)[..cut];
      assert TornLog(w, r, cut) == Encode(log) + part;
      assert r.LengthsFit() by { RecordLengthsFit(lib, r); }
      CutRecordIsRejected(lib, r, cut);
      ScanStop(lib, part);
      ScanEncoded(lib, log, part);
      assert log + [] == log;
    }
  }

  lemma RecordLengthsFit(lib: Lib, r: LogRecord)
    requires r.WellFormed(lib)
    ensures r.LengthsFit()
  {
  }

  lemma ValuesOfUpdated(mem: Memtable, k: Key, v: RecordValue)
    ensures ValuesOf(mem[k := v]) == ValuesOf(mem)[k := v.value]
  {
  }

  lemma ValuesOfRemoved(mem: Memtable, k: Key)
    ensures ValuesOf(mem - {k}) == ValuesOf(mem) - {k}
  {
  }

  /** The memory's half of a put: memory and log fold move together. */
  lemma MemoryAfterPut(mem: Memtable, whole: Memtable, r: LogRecord)
    requires SubMemtable(mem, whole) && (r.op.Insert? || r.op.Update?)
    ensures var m := mem[r.key := RecordValue(r.key, r.value, r.lsn)];
      SubMemtable(m, ApplyToMemory(whole, r)) && ValuesOf(m) == ValuesOf(mem)[r.key := r.value]
    ensures ValuesOf(ApplyToMemory(whole, r)) == ValuesOf(whole)[r.key := r.value]
  {
    hide ValuesOf;
    ValuesOfUpdated(mem, r.key, RecordValue(r.key, r.value, r.lsn));
    ValuesOfUpdated(whole, r.key, RecordValue(r.key, r.value, r.lsn));
  }

  lemma MemoryAfterRemove(mem: Memtable, whole: Memtable, r: LogRecord)
    requires SubMemtable(mem, whole) && r.op.Delete?
    ensures SubMemtable(mem - {r.key}, ApplyToMemory(whole, r)) && ValuesOf(mem - {r.key}) == ValuesOf(mem) - {r.key}
    ensures ValuesOf(ApplyToMemory(whole, r)) == ValuesOf(whole) - {r.key}
  {
    hide ValuesOf;
    ValuesOfRemoved(mem, r.key);
    ValuesOfRemoved(whole, r.key);
  }

  lemma PutKeepsInv(lib: Lib, e: EngineState, c: Contents, k: Key, v: seq<byte>)
    requires Inv(lib, Up(e), c) && Enabled(Up(e), Put(k, v)) && !StaleTail(lib, e.wal.bytes)
    ensures Inv(lib, Up(AfterPut(lib, e, k, v)), Promise(c, Put(k, v)))
    ensures !StaleTail(lib, AfterPut(lib, e, k, v).wal.bytes)
    ensures LogOf(lib, Up(AfterPut(lib, e, k, v))) == LogOf(lib, Up(e)) + [PutRecord(lib, e, k, v)]
  {
    hide Scan, Encode, PutPages, Replay, Appended, SubMemtable, ValuesOf, Sequential, ApplyToMemory;
    var log, r := LogOf(lib, Up(e)), PutRecord(lib, e, k, v);
    CleanIsWhole(lib, e.wal);
    AppendKeepsLog(lib, e.wal, log, PutOp(e, k), k, v);
    ReplaySnoc(log, r);
    MemoryAfterPut(e.mem, Replay(log), r);
  }

  lemma RemoveKeepsInv(lib: Lib, e: EngineState, c: Contents, k: Key)
    requires Inv(lib, Up(e), c) && Enabled(Up(e), Remove(k)) && k in e.mem && !StaleTail(lib, e.wal.bytes)
    ensures Inv(lib, Up(AfterDelete(lib, e, k)), Promise(c, Remove(k)))
    ensures !StaleTail(lib, AfterDelete(lib, e, k).wal.bytes)
  {
    hide Scan, Encode, Replay, Appended, SubMemtable, Sequential, ApplyToMemory;
    var log, r := LogOf(lib, Up(e)), RemoveRecord(lib, e, k);
    CleanIsWhole(lib, e.wal);
    AppendKeepsLog(lib, e.wal, log, Delete, k, []);
    ReplaySnoc(log, r);
    MemoryAfterRemove(e.mem, Replay(log), r);
  }

  /** What a put logs: an insert if the key was not live and an update if it was, under the next LSN. */
  lemma LoggedPut(lib: Lib, e: EngineState, c: Contents, k: Key, v: seq<byte>)
    requires Inv(lib, Up(e), c) && Enabled(Up(e), Put(k, v)) && !StaleTail(lib, e.wal.bytes)
    ensures var log, after := LogOf(lib, Up(e)), LogOf(lib, Up(AfterPut(lib, e, k, v)));
      && |after| == |log| + 1 && after[..|log|] == log
      && after[|log|].op == (if k in c.live then Update else Insert)
      && after[|log|].key == k && after[|log|].value == v && after[|log|].lsn == |log| + 1
  {
    hide Scan, Replay, AfterPut, SubMemtable, NewRecord, Sequential;
    PutKeepsInv(lib, e, c, k, v);
    assert k in ValuesOf(e.mem) <==> k in e.mem;
  }

  /** A torn append to a log without a stale tail: the new record is read exactly when it is whole, and what is left of
      it is stale exactly when it is 1 to 7 bytes. */
  lemma TornLogScan(lib: Lib, w: WalState, r: LogRecord, cut: nat)
    requires var s := Scan(lib, w.bytes); w == WalState(w.bytes, |w.bytes|, |s.records| + 1) && !s.corrupt
    requires !StaleTail(lib, w.bytes) && r.WellFormed(lib) && cut <= |Serialize(r)|
    ensures Scan(lib, TornLog(w, r, cut)).records ==
      Scan(lib, w.bytes).records + if cut == |Serialize(r)| then [r] else []
    ensures StaleTail(lib, TornLog(w, r, cut)) <==> 1 <= cut <= 7
  {
    hide Scan, Encode, Serialize, LogRecord.WellFormed, TornLog;
    CleanIsWhole(lib, w);
    SerializedLength(r);
    AppendTorn(lib, w, Scan(lib, w.bytes).records, r, cut);
  }

  lemma TornPutKeepsInv(lib: Lib, e: EngineState, c: Contents, ev: Event)
    requires Inv(lib, Up(e), c) && Enabled(Up(e), ev) && ev.CrashInPut? && !StaleTail(lib, e.wal.bytes)
    ensures Inv(lib, Step(lib, Up(e), ev), Promise(c, ev))
    ensures StaleTail(lib, Step(lib, Up(e), ev).LogBytes()) <==> Tears(ev)
  {
    hide Scan, Encode, Serialize, LogRecord.WellFormed, Replay, TornLog,
         SubMemtable, ValuesOf, ApplyToMemory, StaleTail;
    var log, r := LogOf(lib, Up(e)), PutRecord(lib, e, ev.key, ev.value);
    NewRecordFits(lib, e.wal.nextLsn, PutOp(e, ev.key), ev.key, ev.value);
    SerializedLength(r);
    TornLogScan(lib, e.wal, r, ev.cut);
    ReplaySnoc(log, r);
    MemoryAfterPut(e.mem, Replay(log), r);
    assert log + [] == log;
  }

  lemma TornRemoveKeepsInv(lib: Lib, e: EngineState, c: Contents, ev: Event)
    requires Inv(lib, Up(e), c) && Enabled(Up(e), ev) && ev.CrashInRemove? && !StaleTail(lib, e.wal.bytes)
    ensures Inv(lib, Step(lib, Up(e), ev), Promise(c, ev))
    ensures StaleTail(lib, Step(lib, Up(e), ev).LogBytes()) <==> Tears(ev)
  {
    hide Scan, Encode, Serialize, LogRecord.WellFormed, Replay, TornLog,
         SubMemtable, ValuesOf, ApplyToMemory, StaleTail;
    var log, r := LogOf(lib, Up(e)), RemoveRecord(lib, e, ev.key);
    NewRecordFits(lib, e.wal.nextLsn, Delete, ev.key, []);
    SerializedLength(r);
    TornLogScan(lib, e.wal, r, ev.cut);
    ReplaySnoc(log, r);
    MemoryAfterRemove(e.mem, Replay(log), r);
    assert log + [] == log;
  }

  /** A crash before the first byte of a record leaves the log as it was. */
  lemma NothingWritten(w: WalState, r: LogRecord)
    requires w.pos == |w.bytes|
    ensures TornLog(w, r, 0) == w.bytes
  {
    hide Serialize;
  }

  lemma NodeReopenKeepsInv(lib: Lib, n: Node, c: Contents)
    requires Inv(lib, n, c) && n.Down?
    ensures var after := Step(lib, n, Reopen);
      && Inv(lib, after, Promise(c, Reopen)) && after.engine.mem == Replay(LogOf(lib, after))
      && LogOf(lib, after) == LogOf(lib, n) && (StaleTail(lib, after.LogBytes()) <==> StaleTail(lib, n.LogBytes()))
  {
    hide Scan, Encode, Replay, ReplayPages, MaxLsn;
    ScanSound(lib, n.walBytes);
    OpenedScans(lib, n.walBytes);
    SequentialMax(Scan(lib, n.walBytes).records);
  }

  /** Unless it appends behind a stale tail, every event keeps the invariant; and a stale tail is there afterwards
      exactly when it was before or the event tore a record within its first 8 bytes. */
  lemma StepKeepsInv(lib: Lib, n: Node, c: Contents, ev: Event)
    requires Inv(lib, n, c) && Enabled(n, ev)
    requires Appends(n, ev) ==> !StaleTail(lib, n.LogBytes())
    ensures Inv(lib, Step(lib, n, ev), Promise(c, ev))
    ensures StaleTail(lib, Step(lib, n, ev).LogBytes()) <==> StaleTail(lib, n.LogBytes()) || Tears(ev)
  {
    hide Scan, Encode, Replay, AfterPut, AfterDelete, OpenedEngine, Consistent, TornLog, StaleTail;
    if Appends(n, ev) {
      AppendKeepsInv(lib, n, c, ev);
    } else if ev.Reopen? {
      NodeReopenKeepsInv(lib, n, c);
    } else {
      QuietKeepsInv(lib, n, c, ev);
    }
  }

  lemma AppendKeepsInv(lib: Lib, n: Node, c: Contents, ev: Event)
    requires Inv(lib, n, c) && Enabled(n, ev) && Appends(n, ev) && !StaleTail(lib, n.LogBytes())
    ensures Inv(lib, Step(lib, n, ev), Promise(c, ev))
    ensures StaleTail(lib, Step(lib, n, ev).LogBytes()) <==> Tears(ev)
  {
    hide Scan, Encode, Replay, AfterPut, AfterDelete, Consistent, TornLog, StaleTail;
    match ev
    case Put(k, v) => PutKeepsInv(lib, n.engine, c, k, v);
    case Remove(k) => RemoveKeepsInv(lib, n.engine, c, k);
    case CrashInPut(_, _, _, _) => TornPutKeepsInv(lib, n.engine, c, ev);
    case CrashInRemove(_, _, _) => TornRemoveKeepsInv(lib, n.engine, c, ev);
  }

  /** Events that leave the log file alone. */
  lemma QuietEffect(lib: Lib, n: Node, ev: Event)
    requires Enabled(n, ev) && !Appends(n, ev) && !ev.Reopen? && (n.Up? ==> n.engine.wal.pos == |n.engine.wal.bytes|)
    ensures var after := Step(lib, n, ev);
      && after.LogBytes() == n.LogBytes() && n.Up? && !Tears(ev)
      && after.Up? == (ev.Remove? || ev.Clear? || ev.CompactPages?)
      && (after.Up? ==>
            after.engine.wal == n.engine.wal && after.engine.mem == if ev.Clear? then map[] else n.engine.mem)
  {
    hide TornLog, Compaction.Compacted, PutRecord, RemoveRecord;
    match ev
    case CrashInPut(k, v, _, _) => NothingWritten(n.engine.wal, PutRecord(lib, n.engine, k, v));
    case CrashInRemove(k, _, _) => NothingWritten(n.engine.wal, RemoveRecord(lib, n.engine, k));
    case _ =>
  }

  lemma QuietKeepsInv(lib: Lib, n: Node, c: Contents, ev: Event)
    requires Inv(lib, n, c) && Enabled(n, ev) && !Appends(n, ev) && !ev.Reopen?
    ensures Inv(lib, Step(lib, n, ev), Promise(c, ev)) && Step(lib, n, ev).LogBytes() == n.LogBytes() && !Tears(ev)
  {
    hide Scan, Replay, Step;
    QuietEffect(lib, n, ev);
  }

  // ---- Main results ----

  lemma {:induction false} RunKeepsInv(lib: Lib, n: Node, c: Contents, events: seq<Event>)
    requires Inv(lib, n, c) && CanRun(lib, n, events) && CleanRun(lib, n, events)
    ensures Inv(lib, Run(lib, n, events), Promised(c, events))
    decreases |events|
  {
    hide Inv, Step, Promise, Appends;
    if events != [] {
      StepKeepsInv(lib, n, c, events[0]);
      RunKeepsInv(lib, Step(lib, n, events[0]), Promise(c, events[0]), events[1..]);
    }
  }

  /** Runs in which no crash leaves 1 to 7 bytes of a record are clean. */
  lemma {:induction false} UntornIsClean(lib: Lib, n: Node, c: Contents, events: seq<Event>)
    requires Inv(lib, n, c) && !StaleTail(lib, n.LogBytes()) && CanRun(lib, n, events)
    requires !SomeTears(events)
    ensures CleanRun(lib, n, events)
    decreases |events|
  {
    hide Inv, Step, Promise, Appends, StaleTail, Tears;
    if events != [] {
      FirstTears(events);
      StepKeepsInv(lib, n, c, events[0]);
      UntornIsClean(lib, Step(lib, n, events[0]), Promise(c, events[0]), events[1..]);
    }
  }

  ghost predicate SomeTears(events: seq<Event>) {
    exists i :: 0 <= i < |events| && Tears(events[i])
  }

  /** In a clean run nothing removes a stale tail: it is there exactly when some crash left 1 to 7 bytes of a record. */
  lemma {:induction false} StaleTailExactly(lib: Lib, n: Node, c: Contents, events: seq<Event>)
    requires Inv(lib, n, c) && CanRun(lib, n, events) && CleanRun(lib, n, events)
    ensures StaleTail(lib, Run(lib, n, events).LogBytes()) <==> StaleTail(lib, n.LogBytes()) || SomeTears(events)
    decreases |events|
  {
    hide Inv, Step, Promise, Appends, StaleTail, Tears;
    if events != [] {
      StepKeepsInv(lib, n, c, events[0]);
      StaleTailExactly(lib, Step(lib, n, events[0]), Promise(c, events[0]), events[1..]);
      FirstTears(events);
    }
  }

  lemma FirstTears(events: seq<Event>)
    requires events != []
    ensures SomeTears(events) <==> Tears(events[0]) || SomeTears(events[1..])
  {
    hide Tears;
    var rest := events[1..];
    if SomeTears(rest) {
      var i :| 0 <= i < |rest| && Tears(rest[i]);
      assert Tears(events[i + 1]);
    }
    if SomeTears(events) {
      var i :| 0 <= i < |events| && Tears(events[i]);
      assert i > 0 ==> rest[i - 1] == events[i];
    }
  }

  const NOTHING := Contents(map[], map[])

  lemma EmptyDisk(lib: Lib, pages: seq<byte>)
    ensures Inv(lib, Down([], pages), NOTHING) && !StaleTail(lib, [])
  {
    hide Scan, Replay;
    ScanStop(lib, []);
    EmptyReplay();
  }

  /** Durability over every run from an empty disk in which nothing is appended behind a stale tail: reads and reopens
      return exactly the promised maps, the log's LSNs are 1..n, and memory never disagrees with the log in value or
      LSN. */
  lemma Durable(lib: Lib, pages: seq<byte>, events: seq<Event>)
    requires CanRun(lib, Down([], pages), events) && CleanRun(lib, Down([], pages), events)
    ensures var n, c := Run(lib, Down([], pages), events), Promised(NOTHING, events);
      && Sequential(LogOf(lib, n))
      && ValuesOf(Replay(LogOf(lib, n))) == c.durable
      && (n.Up? ==> ValuesOf(n.engine.mem) == c.live && SubMemtable(n.engine.mem, Replay(LogOf(lib, n))))
      && (n.Down? ==> Reads(Step(lib, n, Reopen)) == c.durable)
  {
    hide Scan, Step, Replay, Encode, CleanRun;
    EmptyDisk(lib, pages);
    RunKeepsInv(lib, Down([], pages), NOTHING, events);
    var n, c := Run(lib, Down([], pages), events), Promised(NOTHING, events);
    if n.Down? {
      NodeReopenKeepsInv(lib, n, c);
      ReopenIsUp(lib, n);
    }
  }

  lemma EmptyReplay()
    ensures Replay([]) == map[]
  {
  }

  lemma ReopenIsUp(lib: Lib, n: Node)
    requires n.Down?
    ensures Step(lib, n, Reopen).Up?
  {
  }

  /** The engine after the process dies and its files are opened again. */
  function Reopened(lib: Lib, e: EngineState, pages: seq<byte>): Node {
    Step(lib, Step(lib, Up(e), Crash(pages)), Reopen)
  }

  lemma ReopenedReads(lib: Lib, e: EngineState, c: Contents, pages: seq<byte>)
    requires Inv(lib, Up(e), c)
    ensures Reads(Reopened(lib, e, pages)) == c.durable
  {
    hide Scan, Encode, OpenedEngine, Consistent, Replay;
    QuietKeepsInv(lib, Up(e), c, Crash(pages));
    NodeReopenKeepsInv(lib, Down(e.wal.bytes, pages), Contents(map[], c.durable));
  }

  ghost predicate SubMap(a: Values, b: Values) {
    forall k :: k in a ==> k in b && a[k] == b[k]
  }

  /** At every point of such a run, restores included, all that reads return survives a crash: it is read again, with
      the same values, after the next reopen. */
  lemma LiveIsDurable(lib: Lib, pages: seq<byte>, events: seq<Event>, crashPages: seq<byte>)
    requires CanRun(lib, Down([], pages), events) && CleanRun(lib, Down([], pages), events)
    requires Run(lib, Down([], pages), events).Up?
    ensures var n := Run(lib, Down([], pages), events); SubMap(Reads(n), Reads(Reopened(lib, n.engine, crashPages)))
  {
    hide Scan, Replay, Run, CanRun, CleanRun, Promised, Reopened;
    EmptyDisk(lib, pages);
    RunKeepsInv(lib, Down([], pages), NOTHING, events);
    var n := Run(lib, Down([], pages), events);
    ReopenedReads(lib, n.engine, Promised(NOTHING, events), crashPages);
  }

  // ---- The memtable is the fold of the log ----

  /** A running engine's memory is the left fold of its log, and the log reads without an error. */
  ghost predicate FoldInv(lib: Lib, n: Node) {
    n.Up? ==>
      var s := Scan(lib, n.engine.wal.bytes);
      !s.corrupt && n.engine.wal.pos == |n.engine.wal.bytes| && n.engine.mem == Replay(s.records)
  }

  /** An append at the end of a log without a stale tail, whatever its LSNs. */
  lemma AppendExtendsLog(lib: Lib, w: WalState, op: OpType, k: Key, v: seq<byte>)
    requires w.nextLsn < 0x1_0000_0000_0000_0000 && |k| < 0x1_0000_0000 && |v| < 0x1_0000_0000
    requires w.pos == |w.bytes| && !Scan(lib, w.bytes).corrupt && !StaleTail(lib, w.bytes)
    ensures var after := Appended(lib, w, op, k, v);
      && after.pos == |after.bytes| && !Scan(lib, after.bytes).corrupt
      && Scan(lib, after.bytes).records == Scan(lib, w.bytes).records + [NewRecord(lib, w.nextLsn, op, k, v)]
  {
    hide Scan, Encode, Serialize, LogRecord.WellFormed, Overwrite, NewRecord;
    var log, r := Scan(lib, w.bytes).records, NewRecord(lib, w.nextLsn, op, k, v);
    ScanSound(lib, w.bytes);
    assert w.bytes[..|w.bytes|] == w.bytes;
    NewRecordFits(lib, w.nextLsn, op, k, v);
    SerializedLength(r);
    AppendWhole(lib, w, log, r);
    EncodeSnoc(log, r);
  }

  lemma StepKeepsFold(lib: Lib, n: Node, ev: Event)
    requires FoldInv(lib, n) && Enabled(n, ev) && !ev.Clear?
    requires Appends(n, ev) ==> !StaleTail(lib, n.LogBytes())
    ensures FoldInv(lib, Step(lib, n, ev))
  {
    hide Scan, Encode, Replay, Appended, PutPages, ReplayPages, Opened, StaleTail, TornLog;
    match ev
    case Reopen => OpenedScans(lib, n.walBytes);
    case Put(k, v) =>
      AppendExtendsLog(lib, n.engine.wal, PutOp(n.engine, k), k, v);
      ReplaySnoc(LogOf(lib, n), PutRecord(lib, n.engine, k, v));
    case Remove(k) =>
      if k in n.engine.mem {
        AppendExtendsLog(lib, n.engine.wal, Delete, k, []);
        ReplaySnoc(LogOf(lib, n), RemoveRecord(lib, n.engine, k));
      }
    case _ =>
  }

  /** From any two files at all: after every open and every put, delete and compaction, the memtable is exactly the left
      fold of the log, in value and in LSN, in every run without a restore in which nothing is appended behind a stale
      tail. */
  lemma {:induction false} MemtableRefinesLog(lib: Lib, n: Node, events: seq<Event>)
    requires FoldInv(lib, n) && CanRun(lib, n, events) && CleanRun(lib, n, events)
    requires forall i :: 0 <= i < |events| ==> !events[i].Clear?
    ensures FoldInv(lib, Run(lib, n, events))
    decreases |events|
  {
    hide FoldInv, Step, Appends, StaleTail;
    if events != [] {
      StepKeepsFold(lib, n, events[0]);
      MemtableRefinesLog(lib, Step(lib, n, events[0]), events[1..]);
    }
  }
}
