/** What a non-degraded `replicate_record` says about its members
    (services/node-agent/src/storage/replication.rs:84-96). */
module Membership {
  import opened Bytes
  import opened LogFormat
  import opened Wal
  import opened Replication

  // ---- What a non-degraded return says ----

  /** Any acknowledgements by `current` followers that reach the number of members include those of all members. */
  ghost predicate CountSuffices(members: set<Id>, current: set<Id>, lsn: u64) {
    forall acks: Acks :: acks.Keys == current && |Acked(acks, lsn)| >= |members| ==> members <= Acked(acks, lsn)
  }

  lemma CountSufficesExactly(members: set<Id>, current: set<Id>, lsn: u64)
    requires lsn >= 1
    ensures CountSuffices(members, current, lsn) <==> members == {} || current == members || |current| < |members|
  {
    if members == {} || current == members || |current| < |members| {
      forall acks: Acks | acks.Keys == current && |Acked(acks, lsn)| >= |members| ensures members <= Acked(acks, lsn) {
        SubsetSize(Acked(acks, lsn), current);
        if current == members {
          forall f | f in members ensures f in Acked(acks, lsn) { AckedAll(acks, lsn, f); }
        }
      }
    } else {
      var some := Misleading(members, current);
      var acks: Acks := map f | f in current :: if f in some then lsn else 0;
      assert Acked(acks, lsn) == some && acks.Keys == current;
    }
  }

  /** As many current followers as there were members, one of the members not among them. */
  lemma Misleading(members: set<Id>, current: set<Id>) returns (some: set<Id>)
    requires members != {} && current != members && |current| >= |members|
    ensures some <= current && |some| >= |members| && !(members <= some)
  {
    some := current;
    if members <= current {
      var m :| m in members;
      if current - members == {} {
        forall x | x in current ensures x in members { assert x !in current - members; }
        assert false;
      }
      var x :| x in current - members;
      some := current - {m};
      SubsetSize(members - {m} + {x}, some);
    }
  }

  ghost predicate Reaches(lib: Lib, s: System, t: System) {
    exists events :: CanRun(lib, s, events) && Run(lib, s, events) == t
  }

  lemma {:induction false} RunThen(lib: Lib, s: System, events: seq<Event>, ev: Event)
    requires CanRun(lib, s, events) && Enabled(Run(lib, s, events), ev)
    ensures CanRun(lib, s, events + [ev]) && Run(lib, s, events + [ev]) == Step(lib, Run(lib, s, events), ev)
    decreases |events|
  {
    hide Step, Enabled;
    if events == [] {
      assert ([] + [ev])[1..] == [];
      assert CanRun(lib, Step(lib, s, ev), []);
    } else {
      RunThen(lib, Step(lib, s, events[0]), events[1..], ev);
      assert (events + [ev])[1..] == events[1..] + [ev];
    }
  }

  lemma ReachesNext(lib: Lib, s: System, t: System, ev: Event)
    requires Reaches(lib, s, t) && Enabled(t, ev)
    ensures Reaches(lib, s, Step(lib, t, ev))
  {
    hide Step, Enabled, Run, CanRun;
    var events :| CanRun(lib, s, events) && Run(lib, s, events) == t;
    RunThen(lib, s, events, ev);
  }

  predicate AllZero(acks: Acks) {
    forall f :: f in acks ==> acks[f] == 0
  }

  /** Only the registered followers and the history of joining differ. */
  predicate SameButMembers(s: System, t: System) {
    t.leader == s.leader && t.streams == s.streams && t.logs == s.logs && t.calls == s.calls
  }

  lemma MembershipStep(lib: Lib, s: System, f: Id)
    requires AllZero(s.acks)
    ensures var t := Step(lib, s, Register(f));
      SameButMembers(s, t) && AllZero(t.acks) && t.acks.Keys == s.acks.Keys + {f}
    ensures var t := Step(lib, s, Remove(f));
      SameButMembers(s, t) && AllZero(t.acks) && t.acks.Keys == s.acks.Keys - {f}
  {
  }

  lemma OneOut<T>(a: set<T>, b: set<T>, x: T)
    requires x in b
    ensures a + {x} + (b - {x}) == a + b && a - {x} - (b - {x}) == a - b
  {
  }

  lemma {:induction false} RegisterAll(lib: Lib, start: System, s: System, ids: set<Id>) returns (t: System)
    requires Reaches(lib, start, s) && AllZero(s.acks)
    ensures Reaches(lib, start, t) && AllZero(t.acks) && SameButMembers(s, t) && t.acks.Keys == s.acks.Keys + ids
    decreases |ids|
  {
    hide Reaches, Step, AllZero, SameButMembers;
    if ids == {} {
      Unchanged(s);
      return s;
    }
    var f :| f in ids;
    MembershipStep(lib, s, f);
    ReachesNext(lib, start, s, Register(f));
    var next := Step(lib, s, Register(f));
    t := RegisterAll(lib, start, next, ids - {f});
    OneOut(s.acks.Keys, ids, f);
    SameThrough(s, next, t);
  }

  lemma {:induction false} RemoveAll(lib: Lib, start: System, s: System, ids: set<Id>) returns (t: System)
    requires Reaches(lib, start, s) && AllZero(s.acks)
    ensures Reaches(lib, start, t) && AllZero(t.acks) && SameButMembers(s, t) && t.acks.Keys == s.acks.Keys - ids
    decreases |ids|
  {
    hide Reaches, Step, AllZero, SameButMembers;
    if ids == {} {
      Unchanged(s);
      return s;
    }
    var f :| f in ids;
    MembershipStep(lib, s, f);
    ReachesNext(lib, start, s, Remove(f));
    var next := Step(lib, s, Remove(f));
    t := RemoveAll(lib, start, next, ids - {f});
    OneOut(s.acks.Keys, ids, f);
    SameThrough(s, next, t);
  }

  lemma Unchanged(s: System)
    ensures SameButMembers(s, s) && s.acks.Keys + {} == s.acks.Keys == s.acks.Keys - {}
  {
  }

  lemma SameThrough(s: System, next: System, t: System)
    requires SameButMembers(s, next) && SameButMembers(next, t)
    ensures SameButMembers(s, t)
  {
  }

  /** The follower was sent something, applied nothing, and acknowledged nothing. */
  predicate Waiting(s: System, f: Id) {
    && f in s.acks && s.acks[f] == 0
    && StreamOf(s.logs, f) == [] && StreamOf(s.streams, f) != [] && StreamOf(s.streams, f)[0].lsn >= 1
  }

  lemma AcknowledgeOne(lib: Lib, start: System, s: System, f: Id) returns (t: System)
    requires Reaches(lib, start, s) && Waiting(s, f)
    ensures Reaches(lib, start, t) && t.calls == s.calls && t.streams == s.streams && t.acks == s.acks[f := 1]
    ensures forall g :: g != f ==> StreamOf(t.logs, g) == StreamOf(s.logs, g)
  {
    hide Reaches, NewRecord;
    ReachesNext(lib, start, s, Apply(f));
    t := Step(lib, s, Apply(f));
    ReachesNext(lib, start, t, Ack(f, 1));
    t := Step(lib, t, Ack(f, 1));
  }

  /** Each of `ids` applies one record and acknowledges LSN 1. */
  lemma {:induction false} AcknowledgeAll(lib: Lib, start: System, s: System, ids: set<Id>) returns (t: System)
    requires Reaches(lib, start, s) && forall f :: f in ids ==> Waiting(s, f)
    ensures Reaches(lib, start, t) && t.calls == s.calls && t.acks.Keys == s.acks.Keys
    ensures forall f :: f in s.acks ==> t.acks[f] == if f in ids then 1 else s.acks[f]
    ensures forall f :: f !in ids ==> StreamOf(t.logs, f) == StreamOf(s.logs, f)
    decreases |ids|
  {
    hide Reaches, StreamOf;
    t := s;
    if ids != {} {
      var f :| f in ids;
      var next := AcknowledgeOne(lib, start, s, f);
      assert forall g :: g in ids - {f} ==> Waiting(s, g) && Waiting(next, g);
      t := AcknowledgeAll(lib, start, next, ids - {f});
    }
  }

  /** The follower's log has the contents of the leader's record `lsn`. */
  ghost predicate Holds(s: System, f: Id, lsn: nat)
    requires 1 <= lsn <= |s.leader|
  {
    exists i :: 0 <= i < |StreamOf(s.logs, f)| && SameContents(StreamOf(s.logs, f)[i], s.leader[lsn - 1])
  }

  /** A member that acknowledged a call's LSN holds its record, whenever it joined. */
  lemma MemberHolds(lib: Lib, s: System, f: Id, lsn: nat)
    requires SystemInv(lib, s) && lsn in s.calls && f in s.calls[lsn] && f in Acked(s.acks, lsn)
    ensures 1 <= lsn <= |s.leader| && Holds(s, f, lsn)
  {
    hide NewRecord, LsnsIncrease, Copies, Renumbered, SameContents;
    var stream, log, r := StreamOf(s.streams, f), StreamOf(s.logs, f), s.leader[lsn - 1];
    assert FollowerInv(lib, s, f) && WasPushed(s, lsn, f);
    CopyAt(lib, s.leader, s.leader, 0, lsn - 1);
    CopiesFit(lib, log, stream, 0);
    var i :| 0 <= i < |stream| && stream[i] == r;
    RenumberedIs(lib, r, lsn);
    SentEarlier(stream, |s.leader|, i, |log|);
    CopyAt(lib, log, stream, 0, i);
    RenumberedIs(lib, stream[i], i + 1);
  }

  lemma RenumberedIs(lib: Lib, r: LogRecord, lsn: u64)
    ensures Renumbered(lib, r, lsn).lsn == lsn && SameContents(Renumbered(lib, r, lsn), r)
  {
  }

  lemma SentEarlier(stream: seq<LogRecord>, bound: nat, i: nat, n: nat)
    requires LsnsIncrease(stream, bound) && i < |stream| && 0 < n <= |stream| && stream[i].lsn <= stream[n - 1].lsn
    ensures i < n
  {
  }

  /** In every run, whenever a call with these members may return non-degraded while these followers are registered,
      every member holds the call's record. */
  ghost predicate ReturnTells(lib: Lib, members: set<Id>, current: set<Id>) {
    forall s, lsn :: Reaches(lib, INITIAL, s) && lsn in s.calls && s.calls[lsn] == members && s.acks.Keys == current &&
                     !Degraded(s, lsn) ==>
      1 <= lsn <= |s.leader| && forall f :: f in members ==> Holds(s, f, lsn)
  }

  /** A non-degraded return says that every member of the call holds the record if and only if there was no member, or
      the registered followers are those members again, or are too few to return non-degraded at all. */
  lemma ReturnTellsExactly(lib: Lib, members: set<Id>, current: set<Id>)
    ensures ReturnTells(lib, members, current) <==> members == {} || current == members || |current| < |members|
  {
    hide Holds, SystemInv, CountSuffices;
    if members == {} || current == members || |current| < |members| {
      forall s, lsn | Reaches(lib, INITIAL, s) && lsn in s.calls && s.calls[lsn] == members && s.acks.Keys == current &&
                      !Degraded(s, lsn)
        ensures 1 <= lsn <= |s.leader| && forall f :: f in members ==> Holds(s, f, lsn)
      {
        ReachedInv(lib, s);
        MembersHold(lib, s, lsn);
      }
    } else {
      var s := Mislead(lib, members, current);
      ReachedInv(lib, s);
      NobodyHolds(lib, s, members);
    }
  }

  lemma ReachedInv(lib: Lib, s: System)
    requires Reaches(lib, INITIAL, s)
    ensures SystemInv(lib, s)
  {
    hide SystemInv, Run, CanRun;
    var events :| CanRun(lib, INITIAL, events) && Run(lib, INITIAL, events) == s;
    InitialInv(lib);
    RunKeepsInv(lib, INITIAL, events);
  }

  lemma MembersHold(lib: Lib, s: System, lsn: nat)
    requires SystemInv(lib, s) && lsn in s.calls && !Degraded(s, lsn)
    requires var members := s.calls[lsn]; members == {} || s.acks.Keys == members || |s.acks.Keys| < |members|
    ensures 1 <= lsn <= |s.leader| && forall f :: f in s.calls[lsn] ==> Holds(s, f, lsn)
  {
    hide Holds, FollowerInv, CallsPushed, NewRecord;
    var members := s.calls[lsn];
    CountSufficesExactly(members, s.acks.Keys, lsn);
    forall f | f in members ensures Holds(s, f, lsn) {
      MemberHolds(lib, s, f, lsn);
    }
  }

  /** The next append, seen by every follower alike. */
  lemma AppendReaches(lib: Lib, s: System, op: OpType) returns (t: System)
    requires Reaches(lib, INITIAL, s) && |s.leader| < 2
    ensures Reaches(lib, INITIAL, t) && t.acks == s.acks && t.logs == s.logs && |t.leader| == |s.leader| + 1
    ensures t.calls == s.calls[|s.leader| + 1 := s.acks.Keys]
    ensures var r := NewRecord(lib, |s.leader| + 1, op, [], []);
      forall f :: StreamOf(t.streams, f) == StreamOf(s.streams, f) + (if f in s.acks then [r] else [])
  {
    hide Reaches, NewRecord, Pushed, StreamOf;
    ReachesNext(lib, INITIAL, s, Append(op, [], []));
    t := Step(lib, s, Append(op, [], []));
    var r := NewRecord(lib, |s.leader| + 1, op, [], []);
    forall f ensures StreamOf(t.streams, f) == StreamOf(s.streams, f) + if f in s.acks then [r] else [] {
      PushedTo(s.streams, s.acks.Keys, r, f);
      assert StreamOf(s.streams, f) + [] == StreamOf(s.streams, f);
    }
  }

  /** A run that ends with LSN 1 acknowledged by as many current followers as its call had members, and not by all of
      them. */
  lemma Mislead(lib: Lib, members: set<Id>, current: set<Id>) returns (s: System)
    requires members != {} && current != members && |current| >= |members|
    ensures Reaches(lib, INITIAL, s) && 1 in s.calls && s.calls[1] == members
      && s.acks.Keys == current && !Degraded(s, 1)
    ensures exists m :: m in members && StreamOf(s.logs, m) == []
  {
    hide Reaches, NewRecord, Step, StreamOf, Acked, SameButMembers;
    StartReached(lib);
    var some := Misleading(members, current);
    var s2 := CallMade(lib, members);
    var s5 := MembersChanged(lib, s2, members, current);
    s := AcknowledgeAll(lib, INITIAL, s5, some);
    assert Acked(s.acks, 1) == some by { OneAckedBy(s.acks, some); }
    var m :| m in members && m !in some;
    assert StreamOf(s.logs, m) == [];
  }

  lemma OneAckedBy(acks: Acks, ids: set<Id>)
    requires ids <= acks.Keys && forall f :: f in acks ==> acks[f] == if f in ids then 1 else 0
    ensures Acked(acks, 1) == ids
  {
  }

  /** One call made, whose members have not applied anything. */
  lemma CallMade(lib: Lib, members: set<Id>) returns (s: System)
    ensures Reaches(lib, INITIAL, s) && AllZero(s.acks) && s.acks.Keys == members && s.calls == map[1 := members]
    ensures |s.leader| == 1 && forall f :: StreamOf(s.logs, f) == []
    ensures forall f :: f in members ==> StreamOf(s.streams, f) == [NewRecord(lib, 1, Insert, [], [])]
    ensures forall f :: f !in members ==> StreamOf(s.streams, f) == []
  {
    hide Reaches, NewRecord, Step;
    StartReached(lib);
    var registered := RegisterAll(lib, INITIAL, INITIAL, members);
    s := AppendReaches(lib, registered, Insert);
  }

  /** The registered followers become `current`, and the next record is sent to them. */
  lemma MembersChanged(lib: Lib, s: System, members: set<Id>, current: set<Id>) returns (t: System)
    requires Reaches(lib, INITIAL, s) && AllZero(s.acks) && s.acks.Keys == members && |s.leader| == 1
    requires forall f :: StreamOf(s.logs, f) == []
    requires forall f :: f in members ==> StreamOf(s.streams, f) == [NewRecord(lib, 1, Insert, [], [])]
    requires forall f :: f !in members ==> StreamOf(s.streams, f) == []
    ensures Reaches(lib, INITIAL, t) && AllZero(t.acks) && t.acks.Keys == current && t.calls == s.calls[2 := current]
    ensures t.logs == s.logs && forall f :: f in current ==> Waiting(t, f)
  {
    hide Reaches, NewRecord, Step;
    var removed := RemoveAll(lib, INITIAL, s, members - current);
    var joined := RegisterAll(lib, INITIAL, removed, current - members);
    assert joined.acks.Keys == current;
    t := AppendReaches(lib, joined, Update);
  }

  lemma StartReached(lib: Lib)
    ensures Reaches(lib, INITIAL, INITIAL)
  {
    assert CanRun(lib, INITIAL, []) && Run(lib, INITIAL, []) == INITIAL;
  }

  lemma NobodyHolds(lib: Lib, s: System, members: set<Id>)
    requires Reaches(lib, INITIAL, s) && 1 in s.calls && s.calls[1] == members && !Degraded(s, 1)
    requires exists m :: m in members && StreamOf(s.logs, m) == []
    ensures !ReturnTells(lib, members, s.acks.Keys)
  {
    hide Reaches;
  }

  /** `safe` gets exactly the calls whose non-degraded return tells that every member, at least one, holds the record.
      */
  lemma SafeExactly(lib: Lib, s: System, lsn: nat)
    requires lsn in s.calls
    ensures lsn in Step(lib, s, Return(lsn)).safe <==>
      lsn in s.safe || (s.calls[lsn] != {} && !Degraded(s, lsn) && ReturnTells(lib, s.calls[lsn], s.acks.Keys))
  {
    hide ReturnTells;
    ReturnTellsExactly(lib, s.calls[lsn], s.acks.Keys);
    SubsetSize(Acked(s.acks, lsn), s.acks.Keys);
  }

  /** One founder; a second follower joins before the first call's last poll, and acknowledges a later record. */
  function MembershipChange(b: Id, c: Id, key: Key, value: seq<byte>): seq<Event> {
    [Register(b), Append(Insert, key, value), Register(c), Append(Update, key, value), Apply(c), Ack(c, 2)]
  }

  /** The smallest such run: the call counts the joiner's acknowledgement and returns non-degraded, although its only
      member, still registered, does not hold the record. The joiner's own log, numbered from 1, is no prefix of the
      leader's. */
  lemma JoinerHidesMissingRecord(lib: Lib, b: Id, c: Id, key: Key, value: seq<byte>)
    requires b != c
    ensures var events := MembershipChange(b, c, key, value);
      && CanRun(lib, INITIAL, events)
      && var s := Run(lib, INITIAL, events);
         && 1 in s.calls && s.calls[1] == {b} && !Degraded(s, 1) && Founder(s, b) && StreamOf(s.logs, b) == []
         && c in s.since && s.since[c] == 1 && StreamOf(s.logs, c) != [] && !(StreamOf(s.logs, c) <= s.leader)
  {
    hide NewRecord, Step, Enabled, Run, CanRun, Degraded, Founder, StreamOf;
    var r1, r2 := NewRecord(lib, 1, Insert, key, value), NewRecord(lib, 2, Update, key, value);
    var copy := NewRecord(lib, 1, Update, key, value);
    var e := MembershipChange(b, c, key, value);
    var s1 := System([], map[b := 0], map[], map[], map[], map[b := 0], {});
    var s2 := s1.(leader := [r1], streams := map[b := [r1]], calls := map[1 := {b}]);
    var s3 := s2.(acks := map[b := 0, c := 0], since := map[b := 0, c := 1]);
    var s4 := s3.(leader := [r1, r2], streams := map[b := [r1, r2], c := [r2]], calls := map[1 := {b}, 2 := {b, c}]);
    var s5 := s4.(logs := map[c := [copy]]);
    var s6 := s5.(acks := map[b := 0, c := 2]);
    FirstSteps(lib, b, c, key, value, s1, s2, s3);
    JoinerAppend(lib, b, c, key, value, s3, s4);
    JoinerAcks(lib, b, c, key, value, s4, s5, s6);
    ChainSix(lib, e, s1, s2, s3, s4, s5, s6);
    JoinerEnd(b, c, r1, r2, copy, s6);
  }

  lemma JoinerEnd(b: Id, c: Id, r1: LogRecord, r2: LogRecord, copy: LogRecord, s: System)
    requires b != c && copy.op != r1.op && s.leader == [r1, r2]
    requires s.acks == map[b := 0, c := 2] && s.logs == map[c := [copy]]
    requires s.calls == map[1 := {b}, 2 := {b, c}] && s.since == map[b := 0, c := 1]
    ensures 1 in s.calls && s.calls[1] == {b} && !Degraded(s, 1) && Founder(s, b) && StreamOf(s.logs, b) == []
    ensures c in s.since && s.since[c] == 1 && StreamOf(s.logs, c) != [] && !(StreamOf(s.logs, c) <= s.leader)
  {
    hide Acked;
    OneAcked(b, c);
    OtherFirst(copy, r1, r2);
  }

  lemma OtherFirst(copy: LogRecord, r1: LogRecord, r2: LogRecord)
    requires copy.op != r1.op
    ensures !([copy] <= [r1, r2])
  {
    assert [r1, r2][..1] == [r1];
    assert [copy][0] != [r1][0];
  }

  lemma OneAcked(b: Id, c: Id)
    requires b != c
    ensures Acked(map[b := 0, c := 2], 1) == {c}
  {
  }

  lemma FirstSteps(lib: Lib, b: Id, c: Id, key: Key, value: seq<byte>, s1: System, s2: System, s3: System)
    requires b != c
    requires var r1 := NewRecord(lib, 1, Insert, key, value);
      && s1 == System([], map[b := 0], map[], map[], map[], map[b := 0], {})
      && s2 == s1.(leader := [r1], streams := map[b := [r1]], calls := map[1 := {b}])
      && s3 == s2.(acks := map[b := 0, c := 0], since := map[b := 0, c := 1])
    ensures Enabled(INITIAL, Register(b)) && Step(lib, INITIAL, Register(b)) == s1
    ensures Enabled(s1, Append(Insert, key, value)) && Step(lib, s1, Append(Insert, key, value)) == s2
    ensures Enabled(s2, Register(c)) && Step(lib, s2, Register(c)) == s3
  {
    hide NewRecord;
    var r1 := NewRecord(lib, 1, Insert, key, value);
    assert [] + [r1] == [r1];
    assert s1.acks.Keys == {b};
    assert Pushed(map[], {b}, r1) == map[b := [r1]];
  }

  lemma JoinerAppend(lib: Lib, b: Id, c: Id, key: Key, value: seq<byte>, s: System, after: System)
    requires b != c
    requires var r1, r2 := NewRecord(lib, 1, Insert, key, value), NewRecord(lib, 2, Update, key, value);
      && s.leader == [r1] && s.acks == map[b := 0, c := 0] && s.streams == map[b := [r1]] && s.calls == map[1 := {b}]
      && after == s.(leader := [r1, r2], streams := map[b := [r1, r2], c := [r2]], calls := map[1 := {b}, 2 := {b, c}])
    ensures Enabled(s, Append(Update, key, value)) && Step(lib, s, Append(Update, key, value)) == after
  {
    hide NewRecord, Pushed;
    var r1, r2 := NewRecord(lib, 1, Insert, key, value), NewRecord(lib, 2, Update, key, value);
    PushedPair(b, c, r1, r2);
    assert s.acks.Keys == {b, c};
    var log := LogAppend(lib, s.leader, Update, key, value);
    assert log == [r1, r2] && log[|s.leader|] == r2;
    assert s.calls[2 := {b, c}] == map[1 := {b}, 2 := {b, c}];
  }

  lemma PushedPair(b: Id, c: Id, r1: LogRecord, r2: LogRecord)
    requires b != c
    ensures Pushed(map[b := [r1]], {b, c}, r2) == map[b := [r1, r2], c := [r2]]
  {
    var streams: Streams := map[b := [r1]];
    assert StreamOf(streams, b) + [r2] == [r1, r2];
    assert StreamOf(streams, c) + [r2] == [r2];
  }

  lemma JoinerAcks(lib: Lib, b: Id, c: Id, key: Key, value: seq<byte>, s: System, applied: System, acked: System)
    requires b != c && s.logs == map[] && s.acks == map[b := 0, c := 0]
    requires c in s.streams && s.streams[c] == [NewRecord(lib, 2, Update, key, value)]
    requires applied == s.(logs := map[c := [NewRecord(lib, 1, Update, key, value)]])
    requires acked == applied.(acks := map[b := 0, c := 2])
    ensures Enabled(s, Apply(c)) && Step(lib, s, Apply(c)) == applied
    ensures Enabled(applied, Ack(c, 2)) && Step(lib, applied, Ack(c, 2)) == acked
  {
    hide NewRecord;
    var copy := NewRecord(lib, 1, Update, key, value);
    assert [] + [copy] == [copy];
  }

  lemma ChainSix(lib: Lib, e: seq<Event>, s1: System, s2: System, s3: System, s4: System, s5: System, s6: System)
    requires |e| == 6
    requires Enabled(INITIAL, e[0]) && s1 == Step(lib, INITIAL, e[0])
    requires Enabled(s1, e[1]) && s2 == Step(lib, s1, e[1])
    requires Enabled(s2, e[2]) && s3 == Step(lib, s2, e[2])
    requires Enabled(s3, e[3]) && s4 == Step(lib, s3, e[3])
    requires Enabled(s4, e[4]) && s5 == Step(lib, s4, e[4])
    requires Enabled(s5, e[5]) && s6 == Step(lib, s5, e[5])
    ensures CanRun(lib, INITIAL, e) && Run(lib, INITIAL, e) == s6
  {
    hide Step, Enabled;
    assert CanRun(lib, s6, e[6..]) && Run(lib, s6, e[6..]) == s6;
    OneStep(lib, s5, e, 5);
    OneStep(lib, s4, e, 4);
    OneStep(lib, s3, e, 3);
    OneStep(lib, s2, e, 2);
    OneStep(lib, s1, e, 1);
    OneStep(lib, INITIAL, e, 0);
    assert e[0..] == e;
  }

  lemma OneStep(lib: Lib, s: System, e: seq<Event>, i: nat)
    requires i < |e| && Enabled(s, e[i]) && CanRun(lib, Step(lib, s, e[i]), e[i + 1..])
    ensures CanRun(lib, s, e[i..]) && Run(lib, s, e[i..]) == Run(lib, Step(lib, s, e[i]), e[i + 1..])
  {
    hide Step, Enabled;
    assert e[i..][1..] == e[i + 1..];
  }
}
