/**
 Every run at all, appends behind a stale tail included: what is lost then, and for how long.

 An append behind a stale tail dooms the log: it and everything after it is truncated at the next open. So the session
 opened on a stale tail counts for nothing once it appends, and the log is clean afterwards.
 */
module Sessions {
  import opened Bytes
  import opened LogFormat
  import opened Wal
  import opened Recovery
  import opened Engine
  import opened Durability
  import opened TornTails

  /** The bytes after the last whole record: none, 1 to 7 that an open keeps, or more, which the next open truncates. */
  datatype Tail = Clean | Stale(length: nat) | Doomed

  /** What reads return now, what is on disk for good, and the tail that decides about the next append. */
  datatype Ledger = Ledger(live: Values, durable: Values, tail: Tail)

  /** A crash after `cut` bytes of a record of `size` bytes, whose effect on disk is `whole`. */
  function TornAccount(l: Ledger, cut: nat, size: nat, whole: Values): Ledger {
    match l.tail
    case Clean =>
      if cut == size then Ledger(map[], whole, Clean)
      else Ledger(map[], l.durable, if cut == 0 then Clean else if cut <= 7 then Stale(cut) else Doomed)
    case Stale(t) => Ledger(map[], l.durable, if t + cut <= 7 then Stale(t + cut) else Doomed)
    case Doomed => Ledger(map[], l.durable, Doomed)
  }

  /** What each event means for clients: only on a clean tail does an acknowledged operation last. */
  function Account(l: Ledger, ev: Event): Ledger {
    match ev
    case Reopen => Ledger(l.durable, l.durable, if l.tail.Doomed? then Clean else l.tail)
    case Put(k, v) =>
      if l.tail.Clean? then Ledger(l.live[k := v], l.durable[k := v], Clean)
      else Ledger(l.live[k := v], l.durable, Doomed)
    case Remove(k) =>
      if k !in l.live then l
      else if l.tail.Clean? then Ledger(l.live - {k}, l.durable - {k}, Clean)
      else Ledger(l.live - {k}, l.durable, Doomed)
    case Clear => l.(live := map[])
    case CompactPages(_) => l
    case Crash(_) => l.(live := map[])
    case CrashInPut(k, v, cut, _) => TornAccount(l, cut, 21 + |k| + |v|, l.durable[k := v])
    case CrashInRemove(k, cut, _) => TornAccount(l, cut, 21 + |k|, l.durable - {k})
  }

  function Accounts(l: Ledger, events: seq<Event>): Ledger
    decreases |events|
  {
    if events == [] then l else Accounts(Account(l, events[0]), events[1..])
  }

  /** The bytes of its record that an appending event writes. */
  function WrittenBytes(ev: Event): nat {
    match ev
    case Put(k, v) => 21 + |k| + |v|
    case Remove(k) => 21 + |k|
    case CrashInPut(_, _, cut, _) => cut
    case CrashInRemove(_, cut, _) => cut
    case _ => 0
  }

  /** The byte of the next LSN that will stand where an operation code belongs, behind a tail of `tail` bytes, is not
      one. */
  predicate Misplaced(lsn: nat, tail: nat)
    requires 1 <= tail <= 7
  {
    OpFromCode(BigEndian(lsn, 8)[8 - tail]).None?
  }

  /** An append that leaves at least 13 bytes behind a stale tail puts no operation code where one belongs. Nothing is
      asked of any other event. */
  predicate Guarded(lib: Lib, n: Node, ev: Event) {
    n.Up? && StaleTail(lib, n.LogBytes()) && Appends(n, ev)
    && TailLength(lib, n.LogBytes()) + WrittenBytes(ev) >= 13 ==>
      Misplaced(n.engine.wal.nextLsn, TailLength(lib, n.LogBytes()))
  }

  predicate GuardedRun(lib: Lib, n: Node, events: seq<Event>)
    requires CanRun(lib, n, events)
    decreases |events|
  {
    events == [] || (Guarded(lib, n, events[0]) && GuardedRun(lib, Step(lib, n, events[0]), events[1..]))
  }

  // ---- The bytes behind a tail ----

  /** Bytes that make no record with the tail before them leave the records as they were. */
  lemma ScanBehind(lib: Lib, bytes: seq<byte>, more: seq<byte>)
    requires !Deserialize(lib, bytes[Scan(lib, bytes).validBytes..] + more).Ok?
    ensures var s := Scan(lib, bytes);
      Scan(lib, bytes + more) ==
        Scanned(s.records, s.validBytes, Deserialize(lib, bytes[s.validBytes..] + more).Corrupt?)
  {
    hide Scan, Deserialize, Encode, LogRecord.WellFormed;
    var s := Scan(lib, bytes);
    var rest := bytes[s.validBytes..] + more;
    ScanSound(lib, bytes);
    assert bytes + more == Encode(s.records) + rest;
    ScanStop(lib, rest);
    ScanEncoded(lib, s.records, rest);
    assert s.records + [] == s.records;
  }

  /** Whatever is appended, the next open truncates at the last whole record. */
  predicate IsDoomed(lib: Lib, bytes: seq<byte>) {
    var v := Scan(lib, bytes).validBytes;
    |bytes| > v + 8 && OpFromCode(bytes[v + 8]).None?
  }

  lemma DoomedGrows(lib: Lib, bytes: seq<byte>, more: seq<byte>)
    requires IsDoomed(lib, bytes)
    ensures var s := Scan(lib, bytes); Scan(lib, bytes + more) == Scanned(s.records, s.validBytes, true)
    ensures IsDoomed(lib, bytes + more)
  {
    hide Scan, Deserialize;
    BadCode(lib, bytes[Scan(lib, bytes).validBytes..] + more);
    ScanBehind(lib, bytes, more);
  }

  /** Behind a stale tail: up to 7 bytes in all lengthen it, and from 8 bytes on the log is doomed; for good, once the
      byte in the place of the operation code is there and is not one. */
  lemma BehindStaleTail(lib: Lib, bytes: seq<byte>, r: LogRecord, cut: nat)
    requires StaleTail(lib, bytes) && cut <= |Serialize(r)|
    requires var tail := TailLength(lib, bytes); tail + cut >= 13 ==> Misplaced(r.lsn, tail)
    ensures var s, tail, after := Scan(lib, bytes), TailLength(lib, bytes), bytes + Serialize(r)[..cut];
      && Scan(lib, after) == Scanned(s.records, s.validBytes, tail + cut >= 8)
      && (tail + cut >= 13 ==> IsDoomed(lib, after))
  {
    hide Scan, Serialize, BigEndian, Deserialize;
    var s, tail, part := Scan(lib, bytes), TailLength(lib, bytes), Serialize(r)[..cut];
    var stale := bytes[s.validBytes..];
    SerializedLength(r);
    if tail + cut >= 13 {
      CodeByteBehind(stale, r);
      assert (stale + part)[8] == (stale + Serialize(r))[8];
      BadCode(lib, stale + part);
    } else {
      ShortRest(lib, stale + part);
    }
    ScanBehind(lib, bytes, part);
    assert (bytes + part)[s.validBytes..] == stale + part;
  }

  lemma ShortRest(lib: Lib, s: seq<byte>)
    requires |s| < 13
    ensures Deserialize(lib, s) == if |s| < 8 then Eof else Corrupt
  {
  }

  // ---- The invariant of every run ----

  predicate TailIs(lib: Lib, bytes: seq<byte>, tail: Tail) {
    match tail
    case Clean => TailLength(lib, bytes) == 0
    case Stale(k) => 1 <= k <= 7 && TailLength(lib, bytes) == k
    case Doomed => TailLength(lib, bytes) >= 8
  }

  /** A running engine that appended behind a stale tail: nothing it appends will be read again. */
  ghost predicate DoomedInv(lib: Lib, e: EngineState, l: Ledger) {
    var s := Scan(lib, e.wal.bytes);
    && Sequential(s.records) && ValuesOf(Replay(s.records)) == l.durable
    && IsDoomed(lib, e.wal.bytes) && e.wal.pos == |e.wal.bytes|
    && ValuesOf(e.mem) == l.live
  }

  ghost predicate RunInv(lib: Lib, n: Node, l: Ledger) {
    if n.Up? && l.tail.Doomed? then DoomedInv(lib, n.engine, l)
    else Inv(lib, n, Contents(l.live, l.durable)) && TailIs(lib, n.LogBytes(), l.tail)
  }

  // ---- Steps ----

  /** A whole or torn append goes to the end of the log file. */
  lemma AppendedAfter(w: WalState, r: LogRecord, cut: nat)
    requires w.pos == |w.bytes| && cut <= |Serialize(r)|
    ensures TornLog(w, r, cut) == w.bytes + Serialize(r)[..cut]
  {
    hide Serialize, Overwrite;
    OverwriteTail(w.bytes, w.pos, Serialize(r)[..cut]);
    assert w.bytes[..|w.bytes|] == w.bytes;
  }

  /** The record that an appending event writes. */
  function RecordOf(lib: Lib, e: EngineState, ev: Event): LogRecord
    requires HasLsn(e) && (ev.Put? || ev.Remove? || ev.CrashInPut? || ev.CrashInRemove?)
  {
    if ev.Put? || ev.CrashInPut? then PutRecord(lib, e, ev.key, ev.value) else RemoveRecord(lib, e, ev.key)
  }

  /** What an append does to the node, in one form for puts and removals, whole and torn. */
  lemma AppendEffect(lib: Lib, n: Node, ev: Event)
    requires Enabled(n, ev) && Appends(n, ev) && n.engine.wal.pos == |n.engine.wal.bytes|
    ensures var after, r := Step(lib, n, ev), RecordOf(lib, n.engine, ev);
      && r.lsn == n.engine.wal.nextLsn && WrittenBytes(ev) <= |Serialize(r)|
      && after.LogBytes() == n.engine.wal.bytes + Serialize(r)[..WrittenBytes(ev)]
      && after.Up? == (ev.Put? || ev.Remove?)
      && (after.Up? ==>
            && after.engine.wal.pos == |after.engine.wal.bytes|
            && WrittenBytes(ev) == |Serialize(r)|
            && ValuesOf(after.engine.mem) ==
                 if ev.Put? then ValuesOf(n.engine.mem)[ev.key := ev.value] else ValuesOf(n.engine.mem) - {ev.key})
  {
    hide Serialize, NewRecord, ValuesOf, PutPages, Overwrite;
    var e, r := n.engine, RecordOf(lib, n.engine, ev);
    SerializedLength(r);
    AppendedAfter(e.wal, r, WrittenBytes(ev));
    if ev.Put? {
      ValuesOfUpdated(e.mem, ev.key, RecordValue(ev.key, ev.value, e.wal.nextLsn));
    } else if ev.Remove? {
      ValuesOfRemoved(e.mem, ev.key);
    }
    if ev.Put? || ev.Remove? {
      assert Serialize(r)[..|Serialize(r)|] == Serialize(r);
    }
  }

  lemma KnownMemory(lib: Lib, e: EngineState, l: Ledger, k: Key)
    requires RunInv(lib, Up(e), l)
    ensures k in e.mem <==> k in l.live
    ensures e.wal.pos == |e.wal.bytes| && ValuesOf(e.mem) == l.live
    ensures StaleTail(lib, e.wal.bytes) <==> l.tail.Stale?
  {
    hide Scan, Replay, SubMemtable;
    assert k in e.mem <==> k in ValuesOf(e.mem);
  }

  /** An append to a doomed log. */
  lemma DoomedAppend(lib: Lib, n: Node, l: Ledger, ev: Event)
    requires RunInv(lib, n, l) && n.Up? && l.tail.Doomed? && Enabled(n, ev) && Appends(n, ev)
    ensures RunInv(lib, Step(lib, n, ev), Account(l, ev))
  {
    hide Scan, Replay, ValuesOf, Step, Serialize, RecordOf, IsDoomed, Sequential;
    if ev.Put? || ev.Remove? { KnownMemory(lib, n.engine, l, ev.key); }
    AppendEffect(lib, n, ev);
    var r := RecordOf(lib, n.engine, ev);
    DoomedGrows(lib, n.engine.wal.bytes, Serialize(r)[..WrittenBytes(ev)]);
    DoomedLength(lib, Step(lib, n, ev).LogBytes());
  }

  lemma DoomedLength(lib: Lib, bytes: seq<byte>)
    requires IsDoomed(lib, bytes)
    ensures TailLength(lib, bytes) >= 8
  {
    hide Scan;
  }

  /** An append behind a stale tail. */
  lemma StaleAppend(lib: Lib, n: Node, l: Ledger, ev: Event)
    requires RunInv(lib, n, l) && n.Up? && l.tail.Stale? && Enabled(n, ev) && Appends(n, ev) && Guarded(lib, n, ev)
    ensures RunInv(lib, Step(lib, n, ev), Account(l, ev))
  {
    hide Scan, Replay, ValuesOf, Step, Serialize, RecordOf, IsDoomed, Misplaced, SubMemtable, Sequential;
    if ev.Put? || ev.Remove? { KnownMemory(lib, n.engine, l, ev.key); }
    AppendEffect(lib, n, ev);
    var r := RecordOf(lib, n.engine, ev);
    SerializedLength(r);
    BehindStaleTail(lib, n.engine.wal.bytes, r, WrittenBytes(ev));
  }

  function TailAfter(cut: nat, size: nat): Tail {
    if cut == 0 || cut == size then Clean else if cut <= 7 then Stale(cut) else Doomed
  }

  /** The tail that a whole or torn append leaves on a clean log. */
  lemma CleanAppendTail(lib: Lib, n: Node, c: Contents, ev: Event)
    requires Inv(lib, n, c) && n.Up? && TailLength(lib, n.LogBytes()) == 0 && Enabled(n, ev) && Appends(n, ev)
    ensures var size := |Serialize(RecordOf(lib, n.engine, ev))|;
      && size == 21 + |ev.key| + (if ev.Put? || ev.CrashInPut? then |ev.value| else 0)
      && TailIs(lib, Step(lib, n, ev).LogBytes(), TailAfter(WrittenBytes(ev), size))
  {
    hide Scan, Encode, Replay, ValuesOf, Step, Serialize, SubMemtable, NewRecord, LogRecord.WellFormed, Sequential;
    var w, r := n.engine.wal, RecordOf(lib, n.engine, ev);
    AppendEffect(lib, n, ev);
    SerializedLength(r);
    NewRecordFits(lib, r.lsn, r.op, r.key, r.value);
    CleanIsWhole(lib, w);
    AppendedAfter(w, r, WrittenBytes(ev));
    AppendTorn(lib, w, Scan(lib, w.bytes).records, r, WrittenBytes(ev));
  }

  /** On a clean tail the ledger is the promise. */
  lemma AccountClean(l: Ledger, ev: Event)
    requires l.tail.Clean?
    ensures var c := Promise(Contents(l.live, l.durable), ev);
      Account(l, ev).live == c.live && Account(l, ev).durable == c.durable
  {
  }

  /** An append to a clean log. */
  lemma CleanAppend(lib: Lib, n: Node, l: Ledger, ev: Event)
    requires RunInv(lib, n, l) && n.Up? && l.tail.Clean? && Enabled(n, ev) && Appends(n, ev)
    ensures RunInv(lib, Step(lib, n, ev), Account(l, ev))
  {
    hide Inv, Step, Promise, Serialize, RecordOf, Scan;
    var c := Contents(l.live, l.durable);
    AppendKeepsInv(lib, n, c, ev);
    CleanAppendTail(lib, n, c, ev);
    AccountClean(l, ev);
    KnownMemory(lib, n.engine, l, ev.key);
    AppendEffect(lib, n, ev);
    assert Account(l, ev).tail == TailAfter(WrittenBytes(ev), |Serialize(RecordOf(lib, n.engine, ev))|);
  }

  /** Events that leave the log file alone. */
  lemma QuietStep(lib: Lib, n: Node, l: Ledger, ev: Event)
    requires RunInv(lib, n, l) && Enabled(n, ev) && !Appends(n, ev) && !ev.Reopen?
    ensures RunInv(lib, Step(lib, n, ev), Account(l, ev))
  {
    hide Step, Inv, DoomedInv, Account;
    if ev.Remove? { KnownMemory(lib, n.engine, l, ev.key); }
    QuietAccount(n, l, ev);
    if l.tail.Doomed? {
      DoomedQuiet(lib, n, l, ev);
    } else {
      QuietKeepsInv(lib, n, Contents(l.live, l.durable), ev);
    }
  }

  lemma QuietAccount(n: Node, l: Ledger, ev: Event)
    requires Enabled(n, ev) && !Appends(n, ev) && !ev.Reopen? && (ev.Remove? ==> ev.key !in l.live)
    requires l.tail.Stale? ==> l.tail.length <= 7
    ensures var c := Promise(Contents(l.live, l.durable), ev); Account(l, ev) == Ledger(c.live, c.durable, l.tail)
    ensures Account(l, ev).durable == l.durable
    ensures Account(l, ev).live == if ev.Remove? || ev.CompactPages? then l.live else map[]
  {
  }

  lemma DoomedQuiet(lib: Lib, n: Node, l: Ledger, ev: Event)
    requires RunInv(lib, n, l) && n.Up? && l.tail.Doomed? && Enabled(n, ev) && !Appends(n, ev) && !ev.Reopen?
    requires Account(l, ev).durable == l.durable && Account(l, ev).tail.Doomed?
    requires Account(l, ev).live == if ev.Remove? || ev.CompactPages? then l.live else map[]
    ensures RunInv(lib, Step(lib, n, ev), Account(l, ev))
  {
    hide Step, Scan, Replay, Sequential, IsDoomed, ValuesOf, Account;
    QuietEffect(lib, n, ev);
    EmptyValues();
    DoomedLength(lib, n.LogBytes());
  }

  lemma EmptyValues()
    ensures ValuesOf(map[]) == map[]
  {
  }

  lemma ReopenStep(lib: Lib, n: Node, l: Ledger)
    requires RunInv(lib, n, l) && n.Down?
    ensures RunInv(lib, Step(lib, n, Reopen), Account(l, Reopen))
  {
    hide Scan, Encode, Replay, ReplayPages, MaxLsn, ValuesOf, Sequential;
    NodeReopenKeepsInv(lib, n, Contents(l.live, l.durable));
    OpenedScans(lib, n.walBytes);
    ScanSound(lib, n.walBytes);
  }

  lemma StepKeepsRunInv(lib: Lib, n: Node, l: Ledger, ev: Event)
    requires RunInv(lib, n, l) && Enabled(n, ev) && Guarded(lib, n, ev)
    ensures RunInv(lib, Step(lib, n, ev), Account(l, ev))
  {
    hide RunInv, Step, Account, Guarded;
    if ev.Reopen? {
      ReopenStep(lib, n, l);
    } else if !Appends(n, ev) {
      QuietStep(lib, n, l, ev);
    } else if l.tail.Clean? {
      CleanAppend(lib, n, l, ev);
    } else if l.tail.Stale? {
      StaleAppend(lib, n, l, ev);
    } else {
      DoomedAppend(lib, n, l, ev);
    }
  }

  // ---- Results ----

  lemma {:induction false} RunKeepsRunInv(lib: Lib, n: Node, l: Ledger, events: seq<Event>)
    requires RunInv(lib, n, l) && CanRun(lib, n, events) && GuardedRun(lib, n, events)
    ensures RunInv(lib, Run(lib, n, events), Accounts(l, events))
    decreases |events|
  {
    hide RunInv, Step, Account, Guarded;
    if events != [] {
      StepKeepsRunInv(lib, n, l, events[0]);
      RunKeepsRunInv(lib, Step(lib, n, events[0]), Account(l, events[0]), events[1..]);
    }
  }

  const EMPTY := Ledger(map[], map[], Clean)

  lemma EmptyLedger(lib: Lib, pages: seq<byte>)
    ensures RunInv(lib, Down([], pages), EMPTY)
  {
    hide Scan, Inv;
    EmptyDisk(lib, pages);
    ScanStop(lib, []);
  }

  lemma KnownTail(lib: Lib, n: Node, l: Ledger)
    requires RunInv(lib, n, l)
    ensures StaleTail(lib, n.LogBytes()) <==> l.tail.Stale?
  {
    hide Scan, Replay, ValuesOf, SubMemtable, Sequential;
  }

  lemma LedgerReads(lib: Lib, n: Node, l: Ledger)
    requires RunInv(lib, n, l)
    ensures n.Up? ==> Reads(n) == l.live
    ensures n.Down? ==> Reads(Step(lib, n, Reopen)) == l.durable
  {
    hide Scan, Replay, Sequential, IsDoomed, OpenedEngine, ValuesOf, SubMemtable;
    if n.Down? {
      ReopenStep(lib, n, l);
      ReopenIsUp(lib, n);
    }
  }

  /** Over every run from an empty disk, with any crashes, tears, appends behind tails, restores and reopens: reads and
      reopens return exactly what the ledger says, and a stale tail is there exactly when it says so. */
  lemma LedgerExactly(lib: Lib, pages: seq<byte>, events: seq<Event>)
    requires CanRun(lib, Down([], pages), events) && GuardedRun(lib, Down([], pages), events)
    ensures var n, l := Run(lib, Down([], pages), events), Accounts(EMPTY, events);
      && (n.Up? ==> Reads(n) == l.live)
      && (n.Down? ==> Reads(Step(lib, n, Reopen)) == l.durable)
      && (StaleTail(lib, n.LogBytes()) <==> l.tail.Stale?)
  {
    hide Run, CanRun, GuardedRun, Accounts, RunInv, Step, StaleTail;
    EmptyLedger(lib, pages);
    RunKeepsRunInv(lib, Down([], pages), EMPTY, events);
    var n, l := Run(lib, Down([], pages), events), Accounts(EMPTY, events);
    LedgerReads(lib, n, l);
    KnownTail(lib, n, l);
  }

  lemma LedgerReopened(lib: Lib, e: EngineState, l: Ledger, pages: seq<byte>)
    requires RunInv(lib, Up(e), l)
    ensures Reads(Reopened(lib, e, pages)) == l.durable
  {
    hide RunInv, Step, Reads;
    assert Enabled(Up(e), Crash(pages)) && !Appends(Up(e), Crash(pages));
    QuietStep(lib, Up(e), l, Crash(pages));
    CrashIsDown(lib, e, pages);
    LedgerReads(lib, Step(lib, Up(e), Crash(pages)), Account(l, Crash(pages)));
  }

  lemma CrashIsDown(lib: Lib, e: EngineState, pages: seq<byte>)
    ensures Step(lib, Up(e), Crash(pages)).Down?
  {
  }

  /** After any run from an empty disk: one more acknowledged put or delete survives a crash and a reopen, with all that
      was durable before, if and only if the ledger's tail is clean or the operation changes nothing. */
  lemma SurvivesInEveryRun(lib: Lib, disk: seq<byte>, events: seq<Event>, ev: Event, pages: seq<byte>)
    requires CanRun(lib, Down([], disk), events) && GuardedRun(lib, Down([], disk), events)
    requires var n := Run(lib, Down([], disk), events);
      n.Up? && Enabled(n, ev) && Appends(n, ev) && (ev.Put? || ev.Remove?) && Guarded(lib, n, ev)
    ensures var n, l := Run(lib, Down([], disk), events), Accounts(EMPTY, events);
      var kept := Promise(Contents(l.live, l.durable), ev).durable;
      && Step(lib, n, ev).Up?
      && var seen := Reads(Reopened(lib, Step(lib, n, ev).engine, pages));
         && seen == (if l.tail.Clean? then kept else l.durable)
         && (seen == kept <==> l.tail.Clean? || kept == l.durable)
  {
    hide Run, CanRun, GuardedRun, Guarded, Accounts, RunInv, Step, Reopened, Appends, Enabled;
    EmptyLedger(lib, disk);
    RunKeepsRunInv(lib, Down([], disk), EMPTY, events);
    var n, l := Run(lib, Down([], disk), events), Accounts(EMPTY, events);
    StepKeepsRunInv(lib, n, l, ev);
    PutIsUp(lib, n.engine, ev);
    if ev.Remove? { RemovedWasLive(lib, n, l, ev); }
    LedgerReopened(lib, Step(lib, n, ev).engine, Account(l, ev), pages);
  }

  lemma RemovedWasLive(lib: Lib, n: Node, l: Ledger, ev: Event)
    requires RunInv(lib, n, l) && n.Up? && Appends(n, ev) && ev.Remove?
    ensures ev.key in l.live
  {
    hide RunInv;
    KnownMemory(lib, n.engine, l, ev.key);
  }

  // ---- One session ----

  /** What happens between an open and the next crash. */
  predicate InSession(events: seq<Event>) {
    forall i :: 0 <= i < |events| ==> events[i].Put? || events[i].Remove? || events[i].Clear? || events[i].CompactPages?
  }

  predicate IsCrash(ev: Event) {
    ev.Crash? || ev.CrashInPut? || ev.CrashInRemove?
  }

  /** The state of a running engine as the ledger has it, from the invariant without appends behind tails. */
  lemma InvLedger(lib: Lib, e: EngineState, c: Contents)
    requires Inv(lib, Up(e), c)
    ensures var t := TailLength(lib, e.wal.bytes);
      t <= 7 && RunInv(lib, Up(e), Ledger(c.live, c.durable, if t == 0 then Clean else Stale(t)))
  {
    hide Scan, Replay, ValuesOf, SubMemtable, Sequential, Encode;
    ScanSound(lib, e.wal.bytes);
  }

  /** Once doomed, a session stays doomed, whatever it does. */
  lemma {:induction false} DoomedSession(lib: Lib, n: Node, l: Ledger, events: seq<Event>)
    requires RunInv(lib, n, l) && n.Up? && l.tail.Doomed? && CanRun(lib, n, events) && InSession(events)
    ensures Run(lib, n, events).Up? && RunInv(lib, Run(lib, n, events), Accounts(l, events))
    ensures Accounts(l, events).tail.Doomed? && Accounts(l, events).durable == l.durable
    decreases |events|
  {
    hide RunInv, StaleTail;
    if events != [] {
      KnownTail(lib, n, l);
      StepKeepsRunInv(lib, n, l, events[0]);
      DoomedSession(lib, Step(lib, n, events[0]), Account(l, events[0]), events[1..]);
    }
  }

  /** A session that appends behind a stale tail is lost whole: after it ends with any crash, the next open is back at
      what was on disk before it, and the log is clean again. */
  lemma SessionLost(lib: Lib, e: EngineState, c: Contents, ev: Event, events: seq<Event>, crash: Event)
    requires Inv(lib, Up(e), c) && StaleTail(lib, e.wal.bytes) && Enabled(Up(e), ev)
    requires Appends(Up(e), ev) && (ev.Put? || ev.Remove?) && Misplaced(e.wal.nextLsn, TailLength(lib, e.wal.bytes))
    requires CanRun(lib, Step(lib, Up(e), ev), events) && InSession(events)
    requires Enabled(Run(lib, Step(lib, Up(e), ev), events), crash) && IsCrash(crash)
    ensures var down := Step(lib, Run(lib, Step(lib, Up(e), ev), events), crash);
      && down.Down?
      && var n := Step(lib, down, Reopen);
         && n.Up? && Reads(n) == c.durable
         && Inv(lib, n, Contents(c.durable, c.durable)) && !StaleTail(lib, n.LogBytes())
  {
    hide RunInv, Inv, Run, CanRun, Accounts, Misplaced, Step, StaleTail;
    InvLedger(lib, e, c);
    var l := Ledger(c.live, c.durable, Stale(TailLength(lib, e.wal.bytes)));
    StaleLength(lib, e.wal.bytes);
    StepKeepsRunInv(lib, Up(e), l, ev);
    PutIsUp(lib, e, ev);
    if ev.Remove? { KnownMemory(lib, e, l, ev.key); }
    var n1, l1 := Step(lib, Up(e), ev), Account(l, ev);
    DoomedSession(lib, n1, l1, events);
    var n2, l2 := Run(lib, n1, events), Accounts(l1, events);
    KnownTail(lib, n2, l2);
    StepKeepsRunInv(lib, n2, l2, crash);
    CrashedAndOpened(lib, n2, l2, crash);
  }

  lemma StaleLength(lib: Lib, bytes: seq<byte>)
    ensures StaleTail(lib, bytes) <==> 1 <= TailLength(lib, bytes) <= 7
  {
    hide Scan;
  }

  lemma PutIsUp(lib: Lib, e: EngineState, ev: Event)
    requires Enabled(Up(e), ev) && (ev.Put? || ev.Remove?)
    ensures Step(lib, Up(e), ev).Up?
  {
  }

  lemma CrashedAndOpened(lib: Lib, n: Node, l: Ledger, crash: Event)
    requires Enabled(n, crash) && IsCrash(crash) && l.tail.Doomed?
      && RunInv(lib, Step(lib, n, crash), Account(l, crash))
    ensures var down := Step(lib, n, crash);
      && down.Down?
      && var after := Step(lib, down, Reopen);
         && after.Up? && Reads(after) == l.durable
         && Inv(lib, after, Contents(l.durable, l.durable)) && !StaleTail(lib, after.LogBytes())
  {
    hide Scan, Replay, ValuesOf, SubMemtable, Sequential, OpenedEngine, TornLog, IsDoomed;
    var down := Step(lib, n, crash);
    ReopenStep(lib, down, Account(l, crash));
    ReopenIsUp(lib, down);
  }
}
