/** Leader-to-follower log replication (services/node-agent/src/storage/replication.rs). */
module Replication {
  import opened Prelude
  import opened Bytes
  import opened LogFormat
  import opened Wal
  import opened Recovery

  type Id = string
  type Acks = map<Id, u64>
  type Streams = map<Id, seq<LogRecord>>

  datatype Role = Leader | Follower

  datatype Summary = Summary(acked: nat, total: nat, degraded: bool)

  /** The followers that acknowledged at least `lsn`. */
  function Acked(acks: Acks, lsn: nat): set<Id> {
    set f | f in acks && acks[f] >= lsn
  }

  /** The count at the last poll made: polling stops at the first poll that finds exactly `total` acknowledgements. */
  function PollCount(polls: seq<Acks>, lsn: nat, total: nat): nat {
    if polls == [] then 0
    else if |polls| == 1 || |Acked(polls[0], lsn)| == total then |Acked(polls[0], lsn)|
    else PollCount(polls[1..], lsn, total)
  }

  /** A call that ends non-degraded, with followers to wait for, made a poll that found that many acknowledgements. */
  lemma {:induction false} NonDegradedPoll(polls: seq<Acks>, lsn: nat, total: nat)
    requires 0 < total <= PollCount(polls, lsn, total)
    ensures exists i :: 0 <= i < |polls| && |Acked(polls[i], lsn)| >= total
  {
    if |polls| > 1 && |Acked(polls[0], lsn)| != total {
      NonDegradedPoll(polls[1..], lsn, total);
      var i :| 0 <= i < |polls[1..]| && |Acked(polls[1..][i], lsn)| >= total;
      assert polls[i + 1] == polls[1..][i];
    } else {
      assert |Acked(polls[0], lsn)| >= total;
    }
  }

  ghost predicate SomePollFinds(polls: seq<Acks>, lsn: nat, total: nat) {
    exists i :: 0 <= i < |polls| && |Acked(polls[i], lsn)| == total
  }

  /** The count, exactly: `total` if some poll finds exactly that many, else what the last poll finds, else 0. */
  lemma {:induction false} PollCountExactly(polls: seq<Acks>, lsn: nat, total: nat)
    ensures PollCount(polls, lsn, total) ==
      if SomePollFinds(polls, lsn, total) then total
      else if polls == [] then 0 else |Acked(polls[|polls| - 1], lsn)|
  {
    if |polls| > 1 && |Acked(polls[0], lsn)| != total {
      var rest := polls[1..];
      PollCountExactly(rest, lsn, total);
      if SomePollFinds(rest, lsn, total) {
        var i :| 0 <= i < |rest| && |Acked(rest[i], lsn)| == total;
        assert polls[i + 1] == rest[i];
      }
      if SomePollFinds(polls, lsn, total) {
        var i :| 0 <= i < |polls| && |Acked(polls[i], lsn)| == total;
        assert rest[i - 1] == polls[i];
      }
    } else if polls != [] && |Acked(polls[0], lsn)| == total {
      assert SomePollFinds(polls, lsn, total);
    }
  }

  /** Enough acknowledgements came in time: some poll found exactly `total`, or the last one found more. */
  ghost predicate HeardInTime(polls: seq<Acks>, lsn: nat, total: nat) {
    SomePollFinds(polls, lsn, total) || (polls != [] && |Acked(polls[|polls| - 1], lsn)| > total)
  }

  function StreamOf(streams: Streams, f: Id): seq<LogRecord> {
    if f in streams then streams[f] else []
  }

  function Pushed(streams: Streams, members: set<Id>, r: LogRecord): Streams {
    map f | f in streams.Keys + members :: if f in members then StreamOf(streams, f) + [r] else streams[f]
  }

  /** The per-follower channels, shared with the code that drains them. */
  class Channels {
    var streams: Streams

    constructor ()
      ensures streams == map[]
    {
      streams := map[];
    }
  }

  class ReplicationEngine {
    const role: Role
    var followers: Acks

    constructor (role: Role)
      ensures this.role == role && followers == map[]
    {
      this.role := role;
      followers := map[];
    }

    /** Registering a follower again forgets what it acknowledged. */
    method RegisterFollower(id: Id)
      modifies this
      ensures followers == old(followers)[id := 0]
    {
      followers := followers[id := 0];
    }

    method RemoveFollower(id: Id)
      modifies this
      ensures followers == old(followers) - {id}
    {
      followers := followers - {id};
    }

    method ProcessFollowerAck(id: Id, lsn: u64)
      modifies this
      ensures followers == Raised(old(followers), id, lsn)
    {
      if id in followers && lsn > followers[id] {
        followers := followers[id := lsn];
      }
    }

    /** `polls` are the acknowledgement maps found at each poll before the deadline; other threads change them
        meanwhile. */
    method ReplicateRecord(record: LogRecord, channels: Channels, polls: seq<Acks>) returns (summary: Option<Summary>)
      modifies channels
      ensures role != Leader ==> summary.None? && channels.streams == old(channels.streams)
      ensures role == Leader ==>
        var total := |followers|;
        var acked := if total == 0 then 0 else PollCount(polls, record.lsn, total);
        && summary == Some(Summary(acked, total, acked < total))
        && channels.streams ==
             if total == 0 then old(channels.streams) else Pushed(old(channels.streams), followers.Keys, record)
      ensures role == Leader ==>
        (summary.value.degraded <==> |followers| > 0 && !HeardInTime(polls, record.lsn, |followers|))
      ensures role == Leader ==> forall f ::
        StreamOf(channels.streams, f) == StreamOf(old(channels.streams), f) + (if f in followers then [record] else [])
    {
      if role != Leader { return None; }
      PollCountExactly(polls, record.lsn, |followers|);
      forall f ensures StreamOf(Pushed(channels.streams, followers.Keys, record), f) ==
        StreamOf(channels.streams, f) + (if f in followers then [record] else [])
      {
        PushedTo(channels.streams, followers.Keys, record, f);
      }
      if |followers| == 0 {
        assert followers.Keys == {};
        return Some(Summary(0, 0, false));
      }
      PushAll(channels, followers.Keys, record);
      var acked := AwaitAcks(polls, record.lsn, |followers|);
      return Some(Summary(acked, |followers|, acked < |followers|));
    }

    static method PushAll(channels: Channels, members: set<Id>, record: LogRecord)
      modifies channels
      ensures channels.streams == Pushed(old(channels.streams), members, record)
    {
      var rest := members;
      while rest != {}
        invariant rest <= members
        invariant channels.streams == Pushed(old(channels.streams), members - rest, record)
        decreases rest
      {
        var f :| f in rest;
        PushedOne(old(channels.streams), members - rest, f, record);
        assert members - (rest - {f}) == members - rest + {f};
        rest := rest - {f};
        channels.streams := channels.streams[f := StreamOf(channels.streams, f) + [record]];
      }
      assert members - rest == members;
    }

    static method AwaitAcks(polls: seq<Acks>, lsn: u64, total: nat) returns (acked: nat)
      ensures acked == PollCount(polls, lsn, total)
    {
      acked := 0;
      var i, waiting := 0, true;
      assert polls[0..] == polls;
      while i < |polls| && waiting
        invariant i <= |polls|
        invariant waiting && i < |polls| ==> PollCount(polls, lsn, total) == PollCount(polls[i..], lsn, total)
        invariant i == |polls| || !waiting ==> acked == PollCount(polls, lsn, total)
      {
        acked := |Acked(polls[i], lsn)|;
        assert polls[i..][1..] == polls[i + 1..];
        if acked == total { waiting := false; }
        i := i + 1;
      }
    }
  }

  lemma PushedOne(streams: Streams, members: set<Id>, f: Id, r: LogRecord)
    requires f !in members
    ensures var before := Pushed(streams, members, r);
      Pushed(streams, members + {f}, r) == before[f := StreamOf(before, f) + [r]]
  {
  }

  function Raised(acks: Acks, id: Id, lsn: u64): Acks {
    if id in acks && lsn > acks[id] then acks[id := lsn] else acks
  }

  /** Follower side: the record's contents are appended under the follower's own next LSN. */
  method ApplyReplicatedRecord(wal: WalManager, record: LogRecord) returns (lsn: u64)
    requires wal.Valid() && wal.nextLsn < 0x1_0000_0000_0000_0000
    modifies wal
    ensures wal.Valid() && lsn == old(wal.nextLsn)
    ensures wal.State() == Appended(wal.lib, old(wal.State()), record.op, record.key, record.value)
  {
    lsn := wal.Append(record.op, record.key, record.value);
  }

  // ---- The protocol ----

  /**
   One leader, its followers, and every thread that acts on them, as atomic steps.

   `since` and `safe` are history: the leader's length when a still-registered follower first joined, and the LSNs whose
   `replicate_record` call returned non-degraded with at least one follower and unchanged membership.
   */
  datatype System = System(
    leader: seq<LogRecord>,
    acks: Acks,
    streams: Streams,
    logs: Streams,
    calls: map<nat, set<Id>>,
    since: map<Id, nat>,
    safe: set<nat>)

  const INITIAL := System([], map[], map[], map[], map[], map[], {})

  datatype Event =
    | Register(id: Id)
    | Remove(id: Id)
    | Append(op: OpType, key: Key, value: seq<byte>)
    | Apply(id: Id)
    | Ack(id: Id, lsn: u64)
    | Return(call: nat)

  /** A follower applies its stream in order and acknowledges no LSN beyond the records it applied. The leader appends
      and starts `replicate_record` in one step, so streams get records in log order. */
  predicate Enabled(s: System, ev: Event) {
    match ev
    case Register(_) => true
    case Remove(_) => true
    case Append(_, _, _) => |s.leader| + 1 < 0x1_0000_0000_0000_0000
    case Apply(f) =>
      |StreamOf(s.logs, f)| < |StreamOf(s.streams, f)| && |StreamOf(s.logs, f)| + 1 < 0x1_0000_0000_0000_0000
    case Ack(f, lsn) =>
      var n := |StreamOf(s.logs, f)|;
      lsn == 0 || (0 < n <= |StreamOf(s.streams, f)| && lsn <= StreamOf(s.streams, f)[n - 1].lsn)
    case Return(lsn) => lsn in s.calls
  }

  /** The summary's `degraded_mode` when the waiting loop's last poll reads the acknowledgements of state `s`. */
  predicate Degraded(s: System, lsn: nat)
    requires lsn in s.calls
  {
    s.calls[lsn] != {} && |Acked(s.acks, lsn)| < |s.calls[lsn]|
  }

  function Step(lib: Lib, s: System, ev: Event): System
    requires Enabled(s, ev)
  {
    match ev
    case Register(f) =>
      s.(acks := s.acks[f := 0],
         since := if f in s.acks then s.since
                  else if StreamOf(s.streams, f) == [] then s.since[f := |s.leader|]
                  else s.since - {f})
    case Remove(f) => s.(acks := s.acks - {f}, since := s.since - {f})
    case Append(op, key, value) =>
      var log := LogAppend(lib, s.leader, op, key, value);
      s.(leader := log,
         streams := Pushed(s.streams, s.acks.Keys, log[|s.leader|]),
         calls := s.calls[|log| := s.acks.Keys])
    case Apply(f) =>
      var log := StreamOf(s.logs, f);
      var r := StreamOf(s.streams, f)[|log|];
      s.(logs := s.logs[f := LogAppend(lib, log, r.op, r.key, r.value)])
    case Ack(f, lsn) => s.(acks := Raised(s.acks, f, lsn))
    case Return(lsn) =>
      if !Degraded(s, lsn) && s.calls[lsn] != {} && s.acks.Keys == s.calls[lsn]
      then s.(safe := s.safe + {lsn})
      else s
  }

  predicate CanRun(lib: Lib, s: System, events: seq<Event>)
    decreases |events|
  {
    events == [] || (Enabled(s, events[0]) && CanRun(lib, Step(lib, s, events[0]), events[1..]))
  }

  function Run(lib: Lib, s: System, events: seq<Event>): System
    requires CanRun(lib, s, events)
    decreases |events|
  {
    if events == [] then s else Run(lib, Step(lib, s, events[0]), events[1..])
  }

  /** A record's contents under another LSN. */
  function Renumbered(lib: Lib, r: LogRecord, lsn: u64): LogRecord {
    NewRecord(lib, lsn, r.op, r.key, r.value)
  }

  predicate SameContents(a: LogRecord, b: LogRecord) {
    a.op == b.op && a.key == b.key && a.value == b.value
  }

  /** `log` holds the contents of the records of `source` from position `from` on, numbered from 1. */
  ghost predicate Copies(lib: Lib, log: seq<LogRecord>, source: seq<LogRecord>, from: nat) {
    && from + |log| <= |source|
    && |log| < 0x1_0000_0000_0000_0000
    && forall i :: 0 <= i < |log| ==> log[i] == Renumbered(lib, source[from + i], i + 1)
  }

  /** Followers from before the leader's first record, registered ever since. */
  predicate Founder(s: System, f: Id) {
    f in s.since && s.since[f] == 0
  }

  ghost predicate LsnsIncrease(rs: seq<LogRecord>, bound: nat) {
    && (forall i :: 0 <= i < |rs| ==> rs[i].lsn <= bound)
    && (forall i, j :: 0 <= i < j < |rs| ==> rs[i].lsn < rs[j].lsn)
  }

  ghost predicate FollowerInv(lib: Lib, s: System, f: Id) {
    var stream, log := StreamOf(s.streams, f), StreamOf(s.logs, f);
    && Copies(lib, log, stream, 0)
    && LsnsIncrease(stream, |s.leader|)
    && (f in s.acks && s.acks[f] > 0 ==> log != [] && s.acks[f] <= stream[|log| - 1].lsn)
    && (f in s.since ==> f in s.acks && s.since[f] <= |s.leader| && stream == s.leader[s.since[f]..])
  }

  /** Every call pushed its record to each of its members. */
  ghost predicate CallsPushed(s: System) {
    forall lsn, f :: lsn in s.calls && f in s.calls[lsn] ==> WasPushed(s, lsn, f)
  }

  ghost predicate WasPushed(s: System, lsn: nat, f: Id) {
    1 <= lsn <= |s.leader| && s.leader[lsn - 1] in StreamOf(s.streams, f)
  }

  ghost predicate SystemInv(lib: Lib, s: System) {
    && CallsPushed(s)
    && Copies(lib, s.leader, s.leader, 0)
    && (forall f :: FollowerInv(lib, s, f))
    && (forall lsn :: lsn in s.calls ==> 1 <= lsn <= |s.leader|)
    && (forall lsn, f :: lsn in s.calls && Founder(s, f) ==> f in s.calls[lsn])
    && (forall lsn :: lsn in s.safe ==> 1 <= lsn <= |s.leader|)
    && (forall lsn, f :: lsn in s.safe && Founder(s, f) ==> lsn <= |StreamOf(s.logs, f)|)
  }

  lemma AckedAll(acks: Acks, lsn: nat, f: Id)
    requires |Acked(acks, lsn)| >= |acks.Keys| && f in acks
    ensures acks[f] >= lsn
  {
    if acks[f] < lsn {
      var rest := acks.Keys - {f};
      assert Acked(acks, lsn) <= rest;
      SubsetSize(Acked(acks, lsn), rest);
      assert false;
    }
  }

  lemma {:induction false} SubsetSize<T>(a: set<T>, b: set<T>)
    requires a <= b
    ensures |a| <= |b|
  {
    if a != {} {
      var x :| x in a;
      SubsetSize(a - {x}, b - {x});
    }
  }

  lemma CopiesNext(lib: Lib, log: seq<LogRecord>, source: seq<LogRecord>)
    requires Copies(lib, log, source, 0) && |log| < |source| && |log| + 1 < 0x1_0000_0000_0000_0000
    ensures Copies(lib, log + [Renumbered(lib, source[|log|], |log| + 1)], source, 0)
  {
    hide NewRecord;
  }

  lemma CopiesLonger(lib: Lib, log: seq<LogRecord>, source: seq<LogRecord>, more: seq<LogRecord>)
    requires Copies(lib, log, source, 0)
    ensures Copies(lib, log, source + more, 0)
  {
    hide NewRecord;
  }

  lemma LsnsIncreaseNext(rs: seq<LogRecord>, bound: nat, r: LogRecord)
    requires LsnsIncrease(rs, bound) && r.lsn == bound + 1
    ensures LsnsIncrease(rs + [r], bound + 1) && LsnsIncrease(rs, bound + 1)
  {
  }

  lemma LaterLsn(rs: seq<LogRecord>, bound: nat, n: nat)
    requires LsnsIncrease(rs, bound) && 0 < n < |rs|
    ensures rs[n - 1].lsn <= rs[n].lsn
  {
  }

  lemma PushedTo(streams: Streams, ids: set<Id>, r: LogRecord, f: Id)
    ensures StreamOf(Pushed(streams, ids, r), f) ==
      if f in ids then StreamOf(streams, f) + [r] else StreamOf(streams, f)
  {
  }

  lemma FollowerAppend(lib: Lib, s: System, ev: Event, f: Id)
    requires FollowerInv(lib, s, f) && Enabled(s, ev) && ev.Append?
    ensures FollowerInv(lib, Step(lib, s, ev), f)
  {
    hide NewRecord, Copies, LsnsIncrease, Pushed, StreamOf;
    var after, stream, log := Step(lib, s, ev), StreamOf(s.streams, f), StreamOf(s.logs, f);
    var r := after.leader[|s.leader|];
    PushedTo(s.streams, s.acks.Keys, r, f);
    CopiesLonger(lib, log, stream, [r]);
    CopiesLength(lib, log, stream);
    LsnsIncreaseNext(stream, |s.leader|, r);
    if f in s.since {
      TailNext(s.leader, r, s.since[f]);
    }
  }

  lemma TailNext(log: seq<LogRecord>, r: LogRecord, k: nat)
    requires k <= |log|
    ensures (log + [r])[k..] == log[k..] + [r]
  {
  }

  lemma CopiesLength(lib: Lib, log: seq<LogRecord>, source: seq<LogRecord>)
    requires Copies(lib, log, source, 0)
    ensures |log| <= |source|
  {
  }

  lemma FollowerApply(lib: Lib, s: System, ev: Event, f: Id)
    requires FollowerInv(lib, s, f) && Enabled(s, ev) && ev.Apply?
    ensures FollowerInv(lib, Step(lib, s, ev), f)
  {
    hide NewRecord, Copies, LsnsIncrease;
    var after, stream, log := Step(lib, s, ev), StreamOf(s.streams, f), StreamOf(s.logs, f);
    if f == ev.id {
      CopiesNext(lib, log, stream);
      assert StreamOf(after.logs, f) == log + [Renumbered(lib, stream[|log|], |log| + 1)];
      if log != [] {
        LaterLsn(stream, |s.leader|, |log|);
      }
    } else {
      assert StreamOf(after.logs, f) == log;
    }
  }

  lemma FollowerStep(lib: Lib, s: System, ev: Event, f: Id)
    requires FollowerInv(lib, s, f) && Enabled(s, ev)
    ensures FollowerInv(lib, Step(lib, s, ev), f)
  {
    hide FollowerInv, Step, Enabled;
    if ev.Append? {
      FollowerAppend(lib, s, ev, f);
    } else if ev.Apply? {
      FollowerApply(lib, s, ev, f);
    } else {
      FollowerElse(lib, s, ev, f);
    }
  }

  /** The other events change what is acknowledged and who is registered since when, and nothing else of a follower's.
      */
  lemma ElseEffect(lib: Lib, s: System, ev: Event, f: Id)
    requires Enabled(s, ev) && !ev.Append? && !ev.Apply? && (f in s.since ==> f in s.acks)
    ensures var after, stream, n := Step(lib, s, ev), StreamOf(s.streams, f), |StreamOf(s.logs, f)|;
      && after.leader == s.leader && after.streams == s.streams && after.logs == s.logs
      && (f in after.acks && after.acks[f] > 0 ==>
            (f in s.acks && after.acks[f] == s.acks[f]) || (0 < n <= |stream| && after.acks[f] <= stream[n - 1].lsn))
      && (f in after.since ==>
            f in after.acks &&
            if f in s.since then after.since[f] == s.since[f] else stream == [] && after.since[f] == |s.leader|)
  {
    hide StreamOf, NewRecord, Pushed, Acked, Raised;
    match ev
    case Register(_) =>
    case Remove(_) =>
    case Ack(id, lsn) => RaisedIs(s.acks, id, lsn, f);
    case Return(_) =>
  }

  lemma RaisedIs(acks: Acks, id: Id, lsn: u64, f: Id)
    ensures var after := Raised(acks, id, lsn);
      && (f in after <==> f in acks)
      && (f in acks ==> after[f] == if f == id && lsn > acks[f] then lsn else acks[f])
  {
  }

  lemma FollowerElse(lib: Lib, s: System, ev: Event, f: Id)
    requires FollowerInv(lib, s, f) && Enabled(s, ev) && !ev.Append? && !ev.Apply?
    ensures FollowerInv(lib, Step(lib, s, ev), f)
  {
    hide Copies, LsnsIncrease, StreamOf, Step, Enabled;
    ElseEffect(lib, s, ev, f);
  }

  lemma StepKeepsInv(lib: Lib, s: System, ev: Event)
    requires SystemInv(lib, s) && Enabled(s, ev)
    ensures SystemInv(lib, Step(lib, s, ev))
  {
    hide Step, Enabled, FollowerInv, Copies, CallsPushed;
    var after := Step(lib, s, ev);
    forall f ensures FollowerInv(lib, after, f) {
      assert FollowerInv(lib, s, f);
      FollowerStep(lib, s, ev, f);
    }
    PushedStep(lib, s, ev);
    LeaderStep(lib, s, ev);
    CallsStep(lib, s, ev);
    SafeStep(lib, s, ev);
  }

  lemma LeaderStep(lib: Lib, s: System, ev: Event)
    requires SystemInv(lib, s) && Enabled(s, ev)
    ensures Copies(lib, Step(lib, s, ev).leader, Step(lib, s, ev).leader, 0)
  {
    hide NewRecord;
  }

  lemma PushedStep(lib: Lib, s: System, ev: Event)
    requires CallsPushed(s) && Enabled(s, ev)
    ensures CallsPushed(Step(lib, s, ev))
  {
    hide Step, WasPushed, Enabled;
    var after := Step(lib, s, ev);
    CallsEffect(lib, s, ev);
    forall lsn, f | lsn in after.calls && f in after.calls[lsn] ensures WasPushed(after, lsn, f) {
      if lsn in s.calls && f in s.calls[lsn] { assert WasPushed(s, lsn, f); }
    }
  }

  /** Records once pushed stay pushed, and the record of a new call is. */
  lemma CallsEffect(lib: Lib, s: System, ev: Event)
    requires Enabled(s, ev)
    ensures var after := Step(lib, s, ev);
      && (forall lsn, f :: WasPushed(s, lsn, f) ==> WasPushed(after, lsn, f))
      && (forall lsn, f :: lsn in after.calls && f in after.calls[lsn] ==>
            (lsn in s.calls && f in s.calls[lsn]) || WasPushed(after, lsn, f))
  {
    hide NewRecord, Pushed, StreamOf, Acked;
    match ev
    case Append(_, _, _) => AppendPushes(lib, s, ev);
    case Register(_) =>
    case Remove(_) =>
    case Apply(_) =>
    case Ack(_, _) =>
    case Return(_) =>
  }

  lemma AppendPushes(lib: Lib, s: System, ev: Event)
    requires Enabled(s, ev) && ev.Append?
    ensures var after := Step(lib, s, ev);
      && (forall lsn, f :: WasPushed(s, lsn, f) ==> WasPushed(after, lsn, f))
      && after.calls == s.calls[|s.leader| + 1 := s.acks.Keys]
      && forall f :: f in s.acks ==> WasPushed(after, |s.leader| + 1, f)
  {
    hide NewRecord, Pushed, StreamOf;
    var after := Step(lib, s, ev);
    var r := after.leader[|s.leader|];
    forall f ensures StreamOf(after.streams, f) == StreamOf(s.streams, f) + if f in s.acks then [r] else [] {
      PushedTo(s.streams, s.acks.Keys, r, f);
    }
    forall f | f in s.acks ensures WasPushed(after, |s.leader| + 1, f) {
      assert r in StreamOf(s.streams, f) + [r];
    }
  }

  lemma CallsStep(lib: Lib, s: System, ev: Event)
    requires SystemInv(lib, s) && Enabled(s, ev)
    ensures var after := Step(lib, s, ev);
      && (forall lsn :: lsn in after.calls ==> 1 <= lsn <= |after.leader|)
      && (forall lsn, f :: lsn in after.calls && Founder(after, f) ==> f in after.calls[lsn])
  {
    hide NewRecord, CallsPushed, Copies, LsnsIncrease, Pushed;
    var after := Step(lib, s, ev);
    forall lsn, f | lsn in after.calls && Founder(after, f) ensures f in after.calls[lsn] {
      assert FollowerInv(lib, s, f);
      if Founder(s, f) {
        assert lsn in s.calls ==> f in s.calls[lsn];
      }
    }
  }

  /** A founder that acknowledged an LSN holds that record. */
  lemma FounderHolds(lib: Lib, s: System, f: Id, lsn: nat)
    requires FollowerInv(lib, s, f) && Founder(s, f) && Copies(lib, s.leader, s.leader, 0)
    requires 1 <= lsn <= s.acks[f]
    ensures lsn <= |StreamOf(s.logs, f)|
  {
    hide NewRecord, LsnsIncrease;
    var log := StreamOf(s.logs, f);
    assert s.leader[0..] == s.leader;
    assert s.leader[|log| - 1] == Renumbered(lib, s.leader[|log| - 1], |log|);
  }

  lemma SafeStep(lib: Lib, s: System, ev: Event)
    requires SystemInv(lib, s) && Enabled(s, ev)
    ensures var after := Step(lib, s, ev);
      && (forall lsn :: lsn in after.safe ==> 1 <= lsn <= |after.leader|)
      && (forall lsn, f :: lsn in after.safe && Founder(after, f) ==> lsn <= |StreamOf(after.logs, f)|)
  {
    hide NewRecord, LsnsIncrease, Copies, CallsPushed;
    var after := Step(lib, s, ev);
    forall lsn, f | lsn in after.safe && Founder(after, f) ensures lsn <= |StreamOf(after.logs, f)| {
      assert FollowerInv(lib, s, f);
      if lsn in s.safe {
        assert Founder(s, f);
      } else {
        AckedAll(s.acks, lsn, f);
        FounderHolds(lib, s, f, lsn);
      }
    }
  }

  lemma {:induction false} RunKeepsInv(lib: Lib, s: System, events: seq<Event>)
    requires SystemInv(lib, s) && CanRun(lib, s, events)
    ensures SystemInv(lib, Run(lib, s, events))
    decreases |events|
  {
    hide SystemInv, Step, Enabled;
    if events != [] {
      StepKeepsInv(lib, s, events[0]);
      RunKeepsInv(lib, Step(lib, s, events[0]), events[1..]);
    }
  }

  lemma InitialInv(lib: Lib)
    ensures SystemInv(lib, INITIAL)
  {
  }

  // ---- Results ----

  /** The leader's records whose `replicate_record` call had `f` as a member, in order. */
  function SentTo(leader: seq<LogRecord>, calls: map<nat, set<Id>>, f: Id): seq<LogRecord> {
    if leader == [] then []
    else
      var n := |leader|;
      SentTo(leader[..n - 1], calls, f) + if n in calls && f in calls[n] then [leader[n - 1]] else []
  }

  lemma {:induction false} SentToFrame(leader: seq<LogRecord>, calls: map<nat, set<Id>>, more: map<nat, set<Id>>, f: Id)
    requires forall n :: 1 <= n <= |leader| ==> (n in calls <==> n in more) && (n in calls ==> calls[n] == more[n])
    ensures SentTo(leader, calls, f) == SentTo(leader, more, f)
  {
    if leader != [] {
      SentToFrame(leader[..|leader| - 1], calls, more, f);
    }
  }

  lemma SentStep(lib: Lib, s: System, ev: Event, f: Id)
    requires Enabled(s, ev) && StreamOf(s.streams, f) == SentTo(s.leader, s.calls, f)
    ensures var after := Step(lib, s, ev); StreamOf(after.streams, f) == SentTo(after.leader, after.calls, f)
  {
    hide NewRecord, StreamOf, Pushed, Acked, SentTo;
    match ev
    case Append(op, key, value) =>
      var after := Step(lib, s, ev);
      var r := after.leader[|s.leader|];
      PushedTo(s.streams, s.acks.Keys, r, f);
      SentToFrame(s.leader, s.calls, after.calls, f);
      SentToNext(s.leader, after.calls, r, f);
    case Register(_) =>
    case Remove(_) =>
    case Apply(_) =>
    case Ack(_, _) =>
    case Return(_) =>
  }

  lemma SentToNext(leader: seq<LogRecord>, calls: map<nat, set<Id>>, r: LogRecord, f: Id)
    ensures var n := |leader| + 1;
      SentTo(leader + [r], calls, f) == SentTo(leader, calls, f) + if n in calls && f in calls[n] then [r] else []
  {
    assert (leader + [r])[..|leader|] == leader;
  }

  lemma {:induction false} SentOverRuns(lib: Lib, s: System, events: seq<Event>, f: Id)
    requires CanRun(lib, s, events) && StreamOf(s.streams, f) == SentTo(s.leader, s.calls, f)
    ensures var after := Run(lib, s, events); StreamOf(after.streams, f) == SentTo(after.leader, after.calls, f)
    decreases |events|
  {
    hide Step, Enabled, SentTo, StreamOf;
    if events != [] {
      SentStep(lib, s, events[0], f);
      SentOverRuns(lib, Step(lib, s, events[0]), events[1..], f);
    }
  }

  /** In every run and for every follower, however often it was registered and removed: its log holds the contents of
      the leader's records appended while it was registered, as far as it applied them, in order, numbered from 1. */
  lemma EveryFollowerLog(lib: Lib, events: seq<Event>, f: Id)
    requires CanRun(lib, INITIAL, events)
    ensures var s := Run(lib, INITIAL, events); Copies(lib, StreamOf(s.logs, f), SentTo(s.leader, s.calls, f), 0)
  {
    hide Run, CanRun, Copies, SentTo;
    InitialInv(lib);
    RunKeepsInv(lib, INITIAL, events);
    NothingSent(f);
    SentOverRuns(lib, INITIAL, events, f);
    assert FollowerInv(lib, Run(lib, INITIAL, events), f);
  }

  lemma NothingSent(f: Id)
    ensures StreamOf(INITIAL.streams, f) == SentTo(INITIAL.leader, INITIAL.calls, f)
  {
  }

  /** In every run, a follower registered when the leader held `since` records and not removed holds the contents of the
      leader's records from there on, in order, under its own numbering from 1. */
  lemma FollowerLogExactly(lib: Lib, events: seq<Event>, f: Id)
    requires CanRun(lib, INITIAL, events) && f in Run(lib, INITIAL, events).since
    ensures var s := Run(lib, INITIAL, events); Copies(lib, StreamOf(s.logs, f), s.leader, s.since[f])
  {
    hide Run, CanRun, SystemInv;
    InitialInv(lib);
    RunKeepsInv(lib, INITIAL, events);
    CopiesFromJoining(lib, Run(lib, INITIAL, events), f);
  }

  /** A founder's log is a prefix of the leader's, LSNs and checksums included, so both replay to the same map. */
  lemma FounderConverges(lib: Lib, events: seq<Event>, f: Id)
    requires CanRun(lib, INITIAL, events) && Founder(Run(lib, INITIAL, events), f)
    ensures var s := Run(lib, INITIAL, events); var log := StreamOf(s.logs, f);
      && log <= s.leader
      && log == s.leader[..|log|] && Replay(log) == Replay(s.leader[..|log|])
      && (forall lsn :: lsn in s.safe ==> lsn <= |log|)
  {
    hide Run, CanRun;
    InitialInv(lib);
    RunKeepsInv(lib, INITIAL, events);
    var s := Run(lib, INITIAL, events);
    FounderIsPrefix(lib, s, f);
  }

  lemma FounderIsPrefix(lib: Lib, s: System, f: Id)
    requires SystemInv(lib, s) && Founder(s, f)
    ensures StreamOf(s.logs, f) <= s.leader
  {
    hide NewRecord;
    assert FollowerInv(lib, s, f);
    assert s.leader[0..] == s.leader;
    var log := StreamOf(s.logs, f);
    assert forall i :: 0 <= i < |log| ==> s.leader[i] == Renumbered(lib, s.leader[i], i + 1);
  }

  /** A follower's log equals the leader's prefix of the same length exactly when the contents it was sent are those of
      the leader's first records; always for a founder, and not for one that joined late unless those repeat. */
  lemma ConvergesExactly(lib: Lib, s: System, f: Id)
    requires SystemInv(lib, s) && f in s.since
    ensures var log, k := StreamOf(s.logs, f), s.since[f];
      && k + |log| <= |s.leader|
      && (log <= s.leader <==> forall i :: 0 <= i < |log| ==> SameContents(s.leader[k + i], s.leader[i]))
  {
    hide Copies, SameContents, SystemInv;
    var log, k := StreamOf(s.logs, f), s.since[f];
    CopiesFromJoining(lib, s, f);
    CopiesFit(lib, log, s.leader, k);
    PrefixIs(log, s.leader);
    if log <= s.leader {
      forall i | 0 <= i < |log| ensures SameContents(s.leader[k + i], s.leader[i]) {
        SameAt(lib, log, s.leader, k, i);
      }
    }
    if forall i :: 0 <= i < |log| ==> SameContents(s.leader[k + i], s.leader[i]) {
      forall i | 0 <= i < |log| ensures log[i] == s.leader[i] {
        SameAt(lib, log, s.leader, k, i);
      }
    }
  }

  lemma SameAt(lib: Lib, log: seq<LogRecord>, leader: seq<LogRecord>, k: nat, i: nat)
    requires Copies(lib, log, leader, k) && Copies(lib, leader, leader, 0) && i < |log|
    ensures k + i < |leader| && (log[i] == leader[i] <==> SameContents(leader[k + i], leader[i]))
  {
    hide Copies, Renumbered, SameContents;
    CopyAt(lib, log, leader, k, i);
    CopyAt(lib, leader, leader, 0, i);
    RenumberedSame(lib, leader[k + i], leader[i], i + 1);
  }

  lemma CopiesFromJoining(lib: Lib, s: System, f: Id)
    requires SystemInv(lib, s) && f in s.since
    ensures Copies(lib, StreamOf(s.logs, f), s.leader, s.since[f]) && Copies(lib, s.leader, s.leader, 0)
  {
    hide NewRecord, LsnsIncrease, CallsPushed;
    assert FollowerInv(lib, s, f);
  }

  lemma PrefixIs(a: seq<LogRecord>, b: seq<LogRecord>)
    requires |a| <= |b|
    ensures a <= b <==> forall i :: 0 <= i < |a| ==> a[i] == b[i]
  {
  }

  lemma CopiesFit(lib: Lib, log: seq<LogRecord>, source: seq<LogRecord>, from: nat)
    requires Copies(lib, log, source, from)
    ensures from + |log| <= |source|
  {
  }

  lemma CopyAt(lib: Lib, log: seq<LogRecord>, source: seq<LogRecord>, from: nat, i: nat)
    requires Copies(lib, log, source, from) && i < |log|
    ensures i + 1 < 0x1_0000_0000_0000_0000 && from + i < |source| && log[i] == Renumbered(lib, source[from + i], i + 1)
  {
  }

  lemma RenumberedSame(lib: Lib, a: LogRecord, b: LogRecord, lsn: u64)
    ensures Renumbered(lib, a, lsn) == Renumbered(lib, b, lsn) <==> SameContents(a, b)
  {
    hide LogRecord.ComputeChecksum;
  }

  /** While a follower is neither registered again nor removed, the LSN it acknowledged never decreases. */
  lemma {:induction false} AcksNeverDecrease(lib: Lib, s: System, events: seq<Event>, f: Id)
    requires CanRun(lib, s, events) && f in s.acks && Register(f) !in events && Remove(f) !in events
    ensures var after := Run(lib, s, events); f in after.acks && after.acks[f] >= s.acks[f]
    decreases |events|
  {
    hide Step, Enabled;
    if events != [] {
      assert events[0] in events && forall ev :: ev in events[1..] ==> ev in events;
      AckStep(lib, s, events[0], f);
      AcksNeverDecrease(lib, Step(lib, s, events[0]), events[1..], f);
    }
  }

  lemma AckStep(lib: Lib, s: System, ev: Event, f: Id)
    requires Enabled(s, ev) && f in s.acks && ev != Register(f) && ev != Remove(f)
    ensures f in Step(lib, s, ev).acks && Step(lib, s, ev).acks[f] >= s.acks[f]
  {
    hide NewRecord, Pushed, StreamOf;
  }
}
