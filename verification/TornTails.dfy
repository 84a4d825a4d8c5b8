/** What a torn tail of 1 to 7 bytes costs, exactly (services/node-agent/src/storage/wal.rs:81-102, 164-218). */
module TornTails {
  import opened Bytes
  import opened LogFormat
  import opened Wal
  import opened Recovery
  import opened Engine
  import opened Durability

  /** The bytes after the last whole record. */
  function TailLength(lib: Lib, bytes: seq<byte>): nat {
    |bytes| - Scan(lib, bytes).validBytes
  }

  /** The event's record cannot be read behind the log's stale tail, if it has one. */
  predicate LostIfStale(lib: Lib, e: EngineState, ev: Event)
    requires ev.Put? || ev.Remove?
  {
    StaleTail(lib, e.wal.bytes) ==>
      Unreadable(e.wal.nextLsn, TailLength(lib, e.wal.bytes), ev.key, if ev.Put? then ev.value else [])
  }

  /** From every state reached by a clean run: an acknowledged put or delete is there after a crash and a reopen if and
      only if it was not appended behind a stale tail, or changed nothing. */
  lemma SurvivesExactly(lib: Lib, e: EngineState, c: Contents, ev: Event, pages: seq<byte>)
    requires Inv(lib, Up(e), c) && Enabled(Up(e), ev) && Appends(Up(e), ev) && (ev.Put? || ev.Remove?)
    requires LostIfStale(lib, e, ev)
    ensures var after, stale := Step(lib, Up(e), ev), StaleTail(lib, e.wal.bytes);
      && after.Up?
      && Reads(Reopened(lib, after.engine, pages)) == (if stale then c.durable else Promise(c, ev).durable)
      && (Reads(Reopened(lib, after.engine, pages)) == Promise(c, ev).durable <==>
            !stale || Promise(c, ev).durable == c.durable)
  {
    hide Scan, Replay, Opened, Appended, PutPages, Unreadable, ValuesOf, ReplayPages;
    var after := Step(lib, Up(e), ev);
    if StaleTail(lib, e.wal.bytes) {
      var op := if ev.Put? then PutOp(e, ev.key) else Delete;
      AppendBehindStaleTailIsLost(lib, e.wal, op, ev.key, if ev.Put? then ev.value else []);
      OpenedScans(lib, after.engine.wal.bytes);
    } else {
      StepKeepsInv(lib, Up(e), c, ev);
      ReopenedReads(lib, after.engine, Promise(c, ev), pages);
    }
  }

  /** Durability, exactly. After any clean run from an empty disk, one more acknowledged put or delete that changes what
      the disk holds survives a crash and a reopen, with everything before it, if and only if no crash of the run left 1
      to 7 bytes of a record. Without it, all that was promised before is still there. */
  lemma DurableExactly(lib: Lib, pages: seq<byte>, events: seq<Event>, ev: Event, crashPages: seq<byte>)
    requires CanRun(lib, Down([], pages), events) && CleanRun(lib, Down([], pages), events)
    requires var n := Run(lib, Down([], pages), events);
      && n.Up? && Enabled(n, ev) && Appends(n, ev) && (ev.Put? || ev.Remove?) && LostIfStale(lib, n.engine, ev)
    requires var c := Promised(NOTHING, events); Promise(c, ev).durable != c.durable
    ensures var n, c := Run(lib, Down([], pages), events), Promised(NOTHING, events);
      var after := Step(lib, n, ev);
      && after.Up?
      && (Reads(Reopened(lib, after.engine, crashPages)) == Promise(c, ev).durable <==> !SomeTears(events))
      && (SomeTears(events) ==> Reads(Reopened(lib, after.engine, crashPages)) == c.durable)
  {
    hide Inv, Step, Promise, CanRun, Run, CleanRun, Promised, StaleTail, LostIfStale, Appends;
    EmptyDisk(lib, pages);
    RunKeepsInv(lib, Down([], pages), NOTHING, events);
    StaleTailExactly(lib, Down([], pages), NOTHING, events);
    SurvivesExactly(lib, Run(lib, Down([], pages), events).engine, Promised(NOTHING, events), ev, crashPages);
  }

  // ---- A torn put, then a whole one ----

  /** A put dies after `cut` bytes, the engine reopens, another put is acknowledged, and the engine dies and reopens
      again. */
  function TornThenPut(k1: Key, v1: seq<byte>, cut: nat, k2: Key, v2: seq<byte>, pages: seq<byte>): seq<Event> {
    [CrashInPut(k1, v1, cut, pages), Reopen, Put(k2, v2), Crash(pages), Reopen]
  }

  lemma OneStep(lib: Lib, n: Node, c: Contents, events: seq<Event>, i: nat)
    requires i < |events| && Enabled(n, events[i]) && CanRun(lib, Step(lib, n, events[i]), events[i + 1..])
    ensures CanRun(lib, n, events[i..])
    ensures Run(lib, n, events[i..]) == Run(lib, Step(lib, n, events[i]), events[i + 1..])
    ensures Promised(c, events[i..]) == Promised(Promise(c, events[i]), events[i + 1..])
  {
    hide Step, Enabled, Promise;
    assert events[i..][1..] == events[i + 1..];
  }

  /** The engine opened after the torn put: same records, or one more if the record was whole; the tail is what was
      left. */
  lemma TornPutReopened(lib: Lib, e: EngineState, c: Contents, ev: Event)
    requires Inv(lib, Up(e), c) && Enabled(Up(e), ev) && ev.CrashInPut? && !StaleTail(lib, e.wal.bytes)
    ensures var torn, n := Step(lib, Up(e), ev), Step(lib, Step(lib, Up(e), ev), Reopen);
      && torn.Down? && n.Up?
      && Inv(lib, torn, Promise(c, ev)) && Inv(lib, n, Promise(Promise(c, ev), Reopen))
      && n.engine.wal.nextLsn <= e.wal.nextLsn + 1
      && (StaleTail(lib, n.engine.wal.bytes) <==> 1 <= ev.cut <= 7)
      && (1 <= ev.cut <= 7 ==> TailLength(lib, n.engine.wal.bytes) == ev.cut && n.engine.wal.nextLsn == e.wal.nextLsn)
  {
    hide Scan, Encode, Replay, ReplayPages, Serialize, LogRecord.WellFormed, TornLog, MaxLsn;
    var s, r := Scan(lib, e.wal.bytes), PutRecord(lib, e, ev.key, ev.value);
    var torn := Step(lib, Up(e), ev);
    StepKeepsInv(lib, Up(e), c, ev);
    NodeReopenKeepsInv(lib, torn, Promise(c, ev));
    CleanIsWhole(lib, e.wal);
    NewRecordFits(lib, e.wal.nextLsn, PutOp(e, ev.key), ev.key, ev.value);
    SerializedLength(r);
    AppendTorn(lib, e.wal, s.records, r, ev.cut);
    ScanSound(lib, torn.walBytes);
  }

  /** The second put is read again at the end, and all that was promised with it, if and only if the first left no tail
      of 1 to 7 bytes. */
  lemma TornThenPutExactly(
    lib: Lib, e: EngineState, c: Contents, k1: Key, v1: seq<byte>, cut: nat, k2: Key, v2: seq<byte>, pages: seq<byte>)
    requires Inv(lib, Up(e), c) && !StaleTail(lib, e.wal.bytes) && e.wal.nextLsn + 1 < 0x1_0000_0000_0000_0000
    requires |k1| < 0x1_0000_0000 && |v1| < 0x1_0000_0000 && |k2| < 0x1_0000_0000 && |v2| < 0x1_0000_0000
    requires cut <= 21 + |k1| + |v1| && (1 <= cut <= 7 ==> Unreadable(e.wal.nextLsn, cut, k2, v2))
    ensures var events := TornThenPut(k1, v1, cut, k2, v2, pages);
      var before, promised := Promise(c, events[0]).durable, Promised(c, events).durable;
      && promised == before[k2 := v2]
      && CanRun(lib, Up(e), events) && Run(lib, Up(e), events).Up?
      && var seen := Reads(Run(lib, Up(e), events));
         && seen == (if 1 <= cut <= 7 then before else promised)
         && ((k2, v2) !in before.Items ==>
               && (seen == promised <==> !(1 <= cut <= 7))
               && ((k2, v2) in seen.Items <==> !(1 <= cut <= 7)))
  {
    hide Inv, Step, Unreadable, StaleTail, CanRun, Run, Promised;
    var events := TornThenPut(k1, v1, cut, k2, v2, pages);
    var n1, c1 := Step(lib, Up(e), events[0]), Promise(c, events[0]);
    TornPutReopened(lib, e, c, events[0]);
    var n2, c2 := Step(lib, n1, Reopen), Promise(c1, Reopen);
    SurvivesExactly(lib, n2.engine, c2, events[2], pages);
    var n3, c3 := Step(lib, n2, events[2]), Promise(c2, events[2]);
    CrashThenReopen(lib, n3, c3, events);
    OneStep(lib, n2, c2, events, 2);
    OneStep(lib, n1, c1, events, 1);
    OneStep(lib, Up(e), c, events, 0);
    assert events[0..] == events;
  }

  lemma CrashThenReopen(lib: Lib, n: Node, c: Contents, events: seq<Event>)
    requires n.Up? && |events| == 5 && events[3].Crash? && events[4].Reopen?
    ensures CanRun(lib, n, events[3..]) && Run(lib, n, events[3..]) == Reopened(lib, n.engine, events[3].pageBytes)
    ensures Run(lib, n, events[3..]).Up?
    ensures Promised(c, events[3..]) == Contents(c.durable, c.durable)
  {
    hide OpenedEngine;
    var n4, c4 := Step(lib, n, events[3]), Promise(c, events[3]);
    var n5, c5 := Step(lib, n4, events[4]), Promise(c4, events[4]);
    assert events[5..] == [];
    assert CanRun(lib, n5, events[5..]) && Run(lib, n5, events[5..]) == n5 && Promised(c5, events[5..]) == c5;
    OneStep(lib, n4, c4, events, 4);
    OneStep(lib, n, c, events, 3);
  }

  /** The smallest such run: on a new database, a torn tail of 2 to 7 bytes loses the first acknowledged put, and a tail
      of one byte loses it if its record is small. */
  lemma FirstPutLost(lib: Lib, k1: Key, v1: seq<byte>, cut: nat, k2: Key, v2: seq<byte>, pages: seq<byte>)
    requires |k1| < 0x1_0000_0000 && |v1| < 0x1_0000_0000 && |k2| < 0x1_0000_0000 && |v2| < 0x1_0000_0000
    requires 1 <= cut <= 7 && (cut == 1 ==> SmallRecord(k2, v2))
    ensures var start, events := Down([], pages), [Reopen] + TornThenPut(k1, v1, cut, k2, v2, pages);
      && CanRun(lib, start, events)
      && Run(lib, start, events).Up? && Reads(Run(lib, start, events)) == map[]
      && (k2, v2) in Promised(NOTHING, events).live.Items
  {
    hide Inv, StaleTail, BigEndian, CanRun, Run, Promised;
    var start, tail := Down([], pages), TornThenPut(k1, v1, cut, k2, v2, pages);
    EmptyDisk(lib, pages);
    FirstOpen(lib, pages);
    var e := Step(lib, start, Reopen).engine;
    if cut > 1 { SmallLsnBytes(1, 8 - cut); }
    TornThenPutExactly(lib, e, NOTHING, k1, v1, cut, k2, v2, pages);
    PromisedLive(NOTHING, tail);
    assert ([Reopen] + tail)[1..] == tail && ([Reopen] + tail)[0..] == [Reopen] + tail;
    OneStep(lib, start, NOTHING, [Reopen] + tail, 0);
  }

  lemma FirstOpen(lib: Lib, pages: seq<byte>)
    ensures var n := Step(lib, Down([], pages), Reopen);
      n.Up? && Inv(lib, n, NOTHING) && !StaleTail(lib, n.engine.wal.bytes) && n.engine.wal.nextLsn == 1
  {
    hide Scan, Replay, ReplayPages, Encode;
    EmptyDisk(lib, pages);
    NodeReopenKeepsInv(lib, Down([], pages), NOTHING);
    ScanStop(lib, []);
  }

  /** A promise that ends with a reopen is the same for reads as for the disk. */
  lemma {:induction false} PromisedLive(c: Contents, events: seq<Event>)
    requires events != [] && events[|events| - 1].Reopen?
    ensures Promised(c, events).live == Promised(c, events).durable
    decreases |events|
  {
    if |events| > 1 {
      PromisedLive(Promise(c, events[0]), events[1..]);
    }
  }
}
