/**
 Provisioning flows (services/control-plane/orchestrator.go), the reconciler and deletes, interleaved over the metadata
 tables.

 Everything a flow hears from outside is in its `Answers`: what the scheduler, the node list, the node agents and the
 metadata service reply at each attempt. Results hold for all answers.
 */
module Provisioning {
  import opened Prelude
  import opened Metadata

  datatype NodeInfo = NodeInfo(id: string, hostname: string, status: string)

  datatype CreateReply = RpcError | Refused | Success(endpoint: string)

  /** One attempt's answers; `None` is an RPC error. The two `Written` flags say whether those metadata updates commit.
      */
  datatype Answers = Answers(
    scheduled: Option<string>,
    nodes: Option<seq<NodeInfo>>,
    placementWritten: bool,
    dialed: bool,
    created: CreateReply,
    activeWritten: bool)

  datatype Action =
    | WriteStatus(status: Status, node: string, endpoint: string, attempts: int, commits: bool)
    | CallCreate(target: string, succeeds: bool, listed: seq<NodeInfo>)

  const MAX_ATTEMPTS := 3

  predicate Usable(n: NodeInfo) {
    n.status != "dead" && n.status != "draining"
  }

  function HostnameOf(nodes: seq<NodeInfo>, id: string): string {
    if nodes == [] then "" else if nodes[0].id == id then nodes[0].hostname else HostnameOf(nodes[1..], id)
  }

  /** The first usable listed node that has not failed a create in this flow. */
  function Alternate(nodes: seq<NodeInfo>, failed: set<string>): (n: Option<NodeInfo>)
    ensures n.Some? ==> n.value in nodes && Usable(n.value) && n.value.id !in failed
    ensures n.None? ==> forall m :: m in nodes ==> m.id in failed || !Usable(m)
  {
    if nodes == [] then None
    else if nodes[0].id !in failed && Usable(nodes[0]) then Some(nodes[0])
    else Alternate(nodes[1..], failed)
  }

  /** The node an attempt goes to; `None` when the attempt ends before placement. */
  function Choice(a: Answers, failed: set<string>): (c: Option<string>)
    ensures c.Some? ==> a.scheduled.Some? && a.nodes.Some?
  {
    if a.scheduled.None? || a.scheduled.value == "" || a.nodes.None? then None
    else
      var alternate := if a.scheduled.value in failed then Alternate(a.nodes.value, failed) else None;
      var id := if alternate.Some? then alternate.value.id else a.scheduled.value;
      var host := if alternate.Some? then alternate.value.hostname else HostnameOf(a.nodes.value, id);
      if host == "" then None else Some(id)
  }

  /** What a flow does, in order, from attempt `n` on, when nodes `failed` have failed a create. */
  function FlowActions(n: nat, failed: set<string>, answers: seq<Answers>, lastCommits: bool): seq<Action>
    decreases |answers|
  {
    if answers == [] then [WriteStatus(Failed, "", "", n - 1, lastCommits)]
    else
      var a, rest := answers[0], answers[1..];
      var choice := Choice(a, failed);
      if choice.None? then FlowActions(n + 1, failed, rest, lastCommits)
      else
        var node := choice.value;
        var placement := WriteStatus(Provisioning, node, "", n, a.placementWritten);
        if !a.dialed then [placement] + FlowActions(n + 1, failed, rest, lastCommits)
        else
          var call := CallCreate(node, a.created.Success?, a.nodes.value);
          if a.created.Success? then
            [placement, call, WriteStatus(Active, node, a.created.endpoint, n, a.activeWritten)]
          else [placement, call] + FlowActions(n + 1, failed + {node}, rest, lastCommits)
  }

  function WholeFlow(answers: seq<Answers>, lastCommits: bool): seq<Action> {
    FlowActions(1, {}, answers, lastCommits)
  }

  /** One attempt's actions before the next attempt's. */
  lemma FlowNext(n: nat, failed: set<string>, answers: seq<Answers>, lastCommits: bool)
    requires answers != []
    ensures var a, choice, t := answers[0], Choice(answers[0], failed), FlowActions(n, failed, answers, lastCommits);
      if choice.None? then t == FlowActions(n + 1, failed, answers[1..], lastCommits)
      else
        var placement := WriteStatus(Provisioning, choice.value, "", n, a.placementWritten);
        var call := CallCreate(choice.value, a.created.Success?, a.nodes.value);
        if !a.dialed then t == [placement] + FlowActions(n + 1, failed, answers[1..], lastCommits)
        else if a.created.Success? then
          t == [placement, call, WriteStatus(Active, choice.value, a.created.endpoint, n, a.activeWritten)]
        else t == [placement, call] + FlowActions(n + 1, failed + {choice.value}, answers[1..], lastCommits)
  {
    hide Choice;
  }

  lemma Appended(trace: seq<Action>, more: seq<Action>, rest: seq<Action>)
    ensures trace + (more + rest) == trace + more + rest
  {
  }

  /** The retry loop; `trace` is what it did. */
  method ProvisionDatabase(answers: seq<Answers>, lastCommits: bool) returns (trace: seq<Action>)
    requires |answers| == MAX_ATTEMPTS
    ensures trace == WholeFlow(answers, lastCommits)
  {
    hide Choice, Goes, NamedFirst, FlowActions;
    trace := [];
    var attempts := 0;
    var attemptedNodes: set<string> := {};
    assert answers[0..] == answers;
    while attempts < MAX_ATTEMPTS
      invariant 0 <= attempts <= MAX_ATTEMPTS
      invariant WholeFlow(answers, lastCommits) ==
        trace + FlowActions(attempts + 1, attemptedNodes, answers[attempts..], lastCommits)
    {
      var a := answers[attempts];
      ghost var before := trace;
      ghost var todo := answers[attempts + 1..];
      FlowNext(attempts + 1, attemptedNodes, answers[attempts..], lastCommits);
      assert answers[attempts..][1..] == todo;
      attempts := attempts + 1;
      var choice := ChooseNode(a, attemptedNodes);
      if choice.None? { continue; }
      var nodeId := choice.value;
      trace := trace + [WriteStatus(Provisioning, nodeId, "", attempts, a.placementWritten)];
      if !a.dialed {
        Appended(before, trace[|before|..], FlowActions(attempts + 1, attemptedNodes, todo, lastCommits));
        continue;
      }
      trace := trace + [CallCreate(nodeId, a.created.Success?, a.nodes.value)];
      if !a.created.Success? {
        attemptedNodes := attemptedNodes + {nodeId};
        Appended(before, trace[|before|..], FlowActions(attempts + 1, attemptedNodes, todo, lastCommits));
        continue;
      }
      trace := trace + [WriteStatus(Active, nodeId, a.created.endpoint, attempts, a.activeWritten)];
      assert trace == before + trace[|before|..];
      return;
    }
    NoAnswersLeft(attempts + 1, attemptedNodes, lastCommits);
    assert answers[attempts..] == [];
    trace := trace + [WriteStatus(Failed, "", "", attempts, lastCommits)];
  }

  lemma NoAnswersLeft(n: nat, failed: set<string>, lastCommits: bool)
    ensures FlowActions(n, failed, [], lastCommits) == [WriteStatus(Failed, "", "", n - 1, lastCommits)]
  {
  }

  /** The first listed node with this id has a hostname. */
  ghost predicate NamedFirst(nodes: seq<NodeInfo>, id: string) {
    exists i :: 0 <= i < |nodes| && nodes[i].id == id && nodes[i].hostname != "" &&
                forall j :: 0 <= j < i ==> nodes[j].id != id
  }

  /** `nodes[i]` is the first listed node that has not failed a create and is neither dead nor draining. */
  ghost predicate FirstUntried(nodes: seq<NodeInfo>, failed: set<string>, i: int) {
    && 0 <= i < |nodes| && nodes[i].id !in failed && nodes[i].status != "dead" && nodes[i].status != "draining"
    && forall j :: 0 <= j < i ==> nodes[j].id in failed || nodes[j].status == "dead" || nodes[j].status == "draining"
  }

  /** An attempt goes to node `id`: the scheduler's, unless that one failed already and another is untried; either must
      have a hostname. */
  ghost predicate Goes(a: Answers, failed: set<string>, id: string) {
    && a.scheduled.Some? && a.scheduled.value != "" && a.nodes.Some?
    && var nodes, first := a.nodes.value, a.scheduled.value;
       if first in failed && exists i :: FirstUntried(nodes, failed, i)
       then exists i :: FirstUntried(nodes, failed, i) && id == nodes[i].id && nodes[i].hostname != ""
       else id == first && NamedFirst(nodes, first)
  }

  lemma {:induction false} HostnameExactly(nodes: seq<NodeInfo>, id: string)
    ensures HostnameOf(nodes, id) != "" <==> NamedFirst(nodes, id)
  {
    if nodes != [] {
      HostnameExactly(nodes[1..], id);
      if nodes[0].id != id {
        if NamedFirst(nodes, id) {
          var i :| 0 <= i < |nodes| && nodes[i].id == id && nodes[i].hostname != "" &&
                   forall j :: 0 <= j < i ==> nodes[j].id != id;
          assert nodes[1..][i - 1] == nodes[i];
          assert forall j :: 0 <= j < i - 1 ==> nodes[1..][j] == nodes[j + 1];
        }
        if NamedFirst(nodes[1..], id) {
          var i :| 0 <= i < |nodes[1..]| && nodes[1..][i].id == id && nodes[1..][i].hostname != "" &&
                   forall j :: 0 <= j < i ==> nodes[1..][j].id != id;
          assert nodes[i + 1] == nodes[1..][i];
          assert forall j :: 0 < j < i + 1 ==> nodes[j] == nodes[1..][j - 1];
        }
      } else {
        assert NamedFirst(nodes, id) ==> nodes[0].hostname != "";
      }
    }
  }

  lemma {:induction false} AlternateExactly(nodes: seq<NodeInfo>, failed: set<string>)
    ensures Alternate(nodes, failed).None? ==> forall i :: !FirstUntried(nodes, failed, i)
    ensures Alternate(nodes, failed).Some? ==>
      exists i :: FirstUntried(nodes, failed, i) && Alternate(nodes, failed).value == nodes[i]
    ensures forall i, j :: FirstUntried(nodes, failed, i) && FirstUntried(nodes, failed, j) ==> i == j
  {
    if nodes != [] {
      AlternateExactly(nodes[1..], failed);
      if nodes[0].id !in failed && Usable(nodes[0]) {
        assert FirstUntried(nodes, failed, 0);
      } else {
        forall i | FirstUntried(nodes, failed, i) ensures i > 0 && FirstUntried(nodes[1..], failed, i - 1) {
          assert forall j :: 0 <= j < i - 1 ==> nodes[1..][j] == nodes[j + 1];
        }
        forall i | FirstUntried(nodes[1..], failed, i) ensures FirstUntried(nodes, failed, i + 1) {
          assert forall j :: 0 < j < i + 1 ==> nodes[j] == nodes[1..][j - 1];
        }
        if Alternate(nodes, failed).Some? {
          var i :| FirstUntried(nodes[1..], failed, i) && Alternate(nodes, failed).value == nodes[1..][i];
          assert FirstUntried(nodes, failed, i + 1) && nodes[i + 1] == nodes[1..][i];
        }
      }
    }
  }

  /** The node an attempt goes to, in terms of the answers alone. */
  lemma ChoiceExactly(a: Answers, failed: set<string>)
    ensures Choice(a, failed).Some? ==> Goes(a, failed, Choice(a, failed).value)
    ensures Choice(a, failed).None? ==> forall id :: !Goes(a, failed, id)
  {
    hide NamedFirst, HostnameOf, Alternate;
    if a.scheduled.Some? && a.nodes.Some? {
      var nodes := a.nodes.value;
      HostnameExactly(nodes, a.scheduled.value);
      AlternateExactly(nodes, failed);
      if a.scheduled.value in failed && Alternate(nodes, failed).Some? {
        var i :| FirstUntried(nodes, failed, i) && Alternate(nodes, failed).value == nodes[i];
        forall id
          ensures Goes(a, failed, id) <==> a.scheduled.value != "" && id == nodes[i].id && nodes[i].hostname != ""
        {
          assert forall j :: FirstUntried(nodes, failed, j) ==> j == i;
        }
      }
    }
  }

  /** Steps 1 and 2 of an attempt: the scheduler's node, replaced by another when it already failed in this flow. */
  method ChooseNode(a: Answers, attemptedNodes: set<string>) returns (choice: Option<string>)
    ensures choice == Choice(a, attemptedNodes)
    ensures a.scheduled.Some? && a.nodes.Some? && a.scheduled.value != "" && a.scheduled.value !in attemptedNodes ==>
      choice == if NamedFirst(a.nodes.value, a.scheduled.value) then a.scheduled else None
    ensures choice.Some? ==> Goes(a, attemptedNodes, choice.value)
    ensures choice.None? ==> forall id :: !Goes(a, attemptedNodes, id)
  {
    hide Goes, NamedFirst, HostnameOf, Alternate;
    ChoiceExactly(a, attemptedNodes);
    if a.scheduled.Some? && a.nodes.Some? { HostnameExactly(a.nodes.value, a.scheduled.value); }
    if a.scheduled.None? || a.scheduled.value == "" || a.nodes.None? { return None; }
    var nodeId := a.scheduled.value;
    var host := FindHostname(a.nodes.value, nodeId);
    if nodeId in attemptedNodes {
      var alternate := FindAlternate(a.nodes.value, attemptedNodes);
      if alternate.Some? {
        nodeId, host := alternate.value.id, alternate.value.hostname;
      }
    }
    if host == "" { return None; }
    return Some(nodeId);
  }

  method FindHostname(nodes: seq<NodeInfo>, id: string) returns (host: string)
    ensures host == HostnameOf(nodes, id)
  {
    assert nodes[0..] == nodes;
    for i := 0 to |nodes|
      invariant HostnameOf(nodes, id) == HostnameOf(nodes[i..], id)
    {
      if nodes[i].id == id { return nodes[i].hostname; }
      assert nodes[i..][1..] == nodes[i + 1..];
    }
    return "";
  }

  method FindAlternate(nodes: seq<NodeInfo>, failed: set<string>) returns (n: Option<NodeInfo>)
    ensures n == Alternate(nodes, failed)
  {
    assert nodes[0..] == nodes;
    for i := 0 to |nodes|
      invariant Alternate(nodes, failed) == Alternate(nodes[i..], failed)
    {
      if nodes[i].id !in failed && Usable(nodes[i]) { return Some(nodes[i]); }
      assert nodes[i..][1..] == nodes[i + 1..];
    }
    return None;
  }

  // ---- One flow ----

  function CreateCalls(trace: seq<Action>): nat {
    if trace == [] then 0 else (if trace[0].CallCreate? then 1 else 0) + CreateCalls(trace[1..])
  }

  /** The nodes that failed a create in the first `i` actions. */
  ghost predicate FailedBefore(trace: seq<Action>, i: nat, node: string) {
    exists j :: 0 <= j < i && j < |trace| && trace[j].CallCreate? && trace[j].target == node && !trace[j].succeeds
  }

  /** A node that failed a create is called again only if every other listed node failed too or is dead or draining. */
  ghost predicate NoNeedlessRetry(trace: seq<Action>, failed: set<string>) {
    forall i :: 0 <= i < |trace| && trace[i].CallCreate? &&
                (trace[i].target in failed || FailedBefore(trace, i, trace[i].target)) ==>
      forall n :: n in trace[i].listed ==> n.id in failed || FailedBefore(trace, i, n.id) || !Usable(n)
  }

  predicate WritesActive(a: Action) {
    a.WriteStatus? && a.status == Active
  }

  /** Every write of `active` comes right after a successful create on the same node. */
  ghost predicate ActiveAfterCreate(trace: seq<Action>) {
    forall i :: 0 <= i < |trace| && WritesActive(trace[i]) ==>
      i > 0 && trace[i - 1].CallCreate? && trace[i - 1].succeeds && trace[i - 1].target == trace[i].node
  }

  lemma {:induction false} FlowCalls(n: nat, failed: set<string>, answers: seq<Answers>, lastCommits: bool)
    ensures CreateCalls(FlowActions(n, failed, answers, lastCommits)) <= |answers|
    decreases |answers|
  {
    hide Choice;
    if answers != [] {
      var a, rest := answers[0], answers[1..];
      var choice := Choice(a, failed);
      if choice.None? {
        FlowCalls(n + 1, failed, rest, lastCommits);
      } else {
        var placement := WriteStatus(Provisioning, choice.value, "", n, a.placementWritten);
        if !a.dialed {
          var t := FlowActions(n + 1, failed, rest, lastCommits);
          FlowCalls(n + 1, failed, rest, lastCommits);
          assert ([placement] + t)[1..] == t;
        } else {
          var call := CallCreate(choice.value, a.created.Success?, a.nodes.value);
          if a.created.Success? {
            var last := WriteStatus(Active, choice.value, a.created.endpoint, n, a.activeWritten);
            assert [placement, call, last][1..] == [call, last] && [call, last][1..] == [last];
            assert CreateCalls([last]) == 0 + CreateCalls([last][1..]);
          } else {
            var t := FlowActions(n + 1, failed + {choice.value}, rest, lastCommits);
            FlowCalls(n + 1, failed + {choice.value}, rest, lastCommits);
            assert ([placement, call] + t)[1..] == [call] + t && ([call] + t)[1..] == t;
          }
        }
      }
    }
  }

  lemma ChoiceAvoidsFailed(a: Answers, failed: set<string>)
    requires Choice(a, failed).Some? && Choice(a, failed).value in failed
    ensures forall n :: n in a.nodes.value ==> n.id in failed || !Usable(n)
  {
  }

  lemma {:induction false} FlowShape(n: nat, failed: set<string>, answers: seq<Answers>, lastCommits: bool)
    ensures var t := FlowActions(n, failed, answers, lastCommits); NoNeedlessRetry(t, failed) && ActiveAfterCreate(t)
    decreases |answers|
  {
    hide Choice, Alternate, Usable;
    if answers != [] {
      var a, rest := answers[0], answers[1..];
      var choice := Choice(a, failed);
      if choice.None? {
        FlowShape(n + 1, failed, rest, lastCommits);
      } else {
        var node := choice.value;
        var placement := WriteStatus(Provisioning, node, "", n, a.placementWritten);
        if node in failed { ChoiceAvoidsFailed(a, failed); }
        if !a.dialed {
          FlowShape(n + 1, failed, rest, lastCommits);
          PrependPlacement(placement, FlowActions(n + 1, failed, rest, lastCommits), failed);
        } else if !a.created.Success? {
          var call := CallCreate(node, false, a.nodes.value);
          var t := FlowActions(n + 1, failed + {node}, rest, lastCommits);
          FlowShape(n + 1, failed + {node}, rest, lastCommits);
          PrependFailure(call, t, failed);
          PrependPlacement(placement, [call] + t, failed);
          assert [placement] + ([call] + t) == [placement, call] + t;
        }
      }
    }
  }

  lemma FailedAfterPrepend(head: Action, t: seq<Action>, i: nat, node: string)
    requires i <= |t|
    ensures FailedBefore([head] + t, i + 1, node) <==>
      FailedBefore(t, i, node) || (head.CallCreate? && head.target == node && !head.succeeds)
  {
    var s := [head] + t;
    if FailedBefore(t, i, node) {
      var j :| 0 <= j < i && j < |t| && t[j].CallCreate? && t[j].target == node && !t[j].succeeds;
      assert s[j + 1] == t[j];
    }
    if head.CallCreate? && head.target == node && !head.succeeds {
      assert s[0] == head;
    }
    if FailedBefore(s, i + 1, node) {
      var j :| 0 <= j < i + 1 && j < |s| && s[j].CallCreate? && s[j].target == node && !s[j].succeeds;
      assert j > 0 ==> t[j - 1] == s[j];
    }
  }

  lemma PrependPlacement(head: Action, t: seq<Action>, failed: set<string>)
    requires head.WriteStatus? && head.status == Provisioning && NoNeedlessRetry(t, failed) && ActiveAfterCreate(t)
    ensures NoNeedlessRetry([head] + t, failed) && ActiveAfterCreate([head] + t)
  {
    hide Usable, FailedBefore;
    var s := [head] + t;
    forall i | 0 <= i < |s| && s[i].CallCreate? && (s[i].target in failed || FailedBefore(s, i, s[i].target))
      ensures forall n :: n in s[i].listed ==> n.id in failed || FailedBefore(s, i, n.id) || !Usable(n)
    {
      assert s[i] == t[i - 1];
      FailedAfterPrepend(head, t, i - 1, s[i].target);
      forall n | n in s[i].listed ensures n.id in failed || FailedBefore(s, i, n.id) || !Usable(n) {
        FailedAfterPrepend(head, t, i - 1, n.id);
      }
    }
    assert forall i :: 0 < i < |s| ==> s[i] == t[i - 1];
  }

  lemma PrependFailure(head: Action, t: seq<Action>, failed: set<string>)
    requires head.CallCreate? && !head.succeeds
    requires head.target in failed ==> forall n :: n in head.listed ==> n.id in failed || !Usable(n)
    requires NoNeedlessRetry(t, failed + {head.target}) && ActiveAfterCreate(t)
    ensures NoNeedlessRetry([head] + t, failed) && ActiveAfterCreate([head] + t)
  {
    hide Usable, FailedBefore;
    var s := [head] + t;
    forall i | 0 <= i < |s| && s[i].CallCreate? && (s[i].target in failed || FailedBefore(s, i, s[i].target))
      ensures forall n :: n in s[i].listed ==> n.id in failed || FailedBefore(s, i, n.id) || !Usable(n)
    {
      if i == 0 {
        NothingFailedYet(s, s[0].target);
      } else {
        assert s[i] == t[i - 1];
        FailedAfterPrepend(head, t, i - 1, s[i].target);
        forall n | n in s[i].listed ensures n.id in failed || FailedBefore(s, i, n.id) || !Usable(n) {
          FailedAfterPrepend(head, t, i - 1, n.id);
        }
      }
    }
    assert forall i :: 0 < i < |s| ==> s[i] == t[i - 1];
  }

  lemma NothingFailedYet(trace: seq<Action>, node: string)
    ensures !FailedBefore(trace, 0, node)
  {
  }

  /** Each flow makes at most three create calls, and never calls a node that already failed one while its fetched list
      has an untried node that is neither dead nor draining. */
  lemma FlowIsBounded(answers: seq<Answers>, lastCommits: bool)
    requires |answers| == MAX_ATTEMPTS
    ensures var t := WholeFlow(answers, lastCommits);
      CreateCalls(t) <= 3 && NoNeedlessRetry(t, {}) && ActiveAfterCreate(t)
  {
    FlowCalls(1, {}, answers, lastCommits);
    FlowShape(1, {}, answers, lastCommits);
  }

  // ---- What a flow writes, and how it ends ----

  /** The create call at `i` comes right after this attempt's placement write on the same node, and its outcome is that
      attempt's. A success is followed by the write of `active` with the endpoint returned, and nothing else. */
  ghost predicate CallInOrder(t: seq<Action>, i: nat, n: nat, answers: seq<Answers>)
    requires i < |t| && t[i].CallCreate?
  {
    i > 0 && t[i - 1].WriteStatus? &&
    var m := t[i - 1].attempts;
    n <= m < n + |answers| &&
    var a := answers[m - n];
    && t[i - 1] == WriteStatus(Provisioning, t[i].target, "", m, a.placementWritten)
    && t[i].succeeds == a.created.Success?
    && (t[i].succeeds ==>
          i + 2 == |t| && t[i + 1] == WriteStatus(Active, t[i].target, a.created.endpoint, m, a.activeWritten))
  }

  ghost predicate SomeSuccess(t: seq<Action>) {
    exists i :: 0 <= i < |t| && t[i].CallCreate? && t[i].succeeds
  }

  /** All but the last write say `provisioning`, with no endpoint; without a success the last one says `failed`, with
      the number of the last attempt. */
  ghost predicate InOrder(t: seq<Action>, n: nat, answers: seq<Answers>, lastCommits: bool) {
    && t != []
    && (forall i :: 0 <= i < |t| && t[i].CallCreate? ==> CallInOrder(t, i, n, answers))
    && (forall i :: 0 <= i < |t| - 1 && t[i].WriteStatus? ==>
          t[i].status == Provisioning && t[i].endpoint == "" && n <= t[i].attempts < n + |answers|)
    && (!SomeSuccess(t) ==> t[|t| - 1] == WriteStatus(Failed, "", "", n + |answers| - 1, lastCommits))
  }

  lemma InOrderLater(t: seq<Action>, n: nat, answers: seq<Answers>, lastCommits: bool)
    requires answers != [] && InOrder(t, n + 1, answers[1..], lastCommits)
    ensures InOrder(t, n, answers, lastCommits)
  {
    hide SomeSuccess;
    forall i | 0 <= i < |t| && t[i].CallCreate? ensures CallInOrder(t, i, n, answers) {
      assert CallInOrder(t, i, n + 1, answers[1..]);
      var m := t[i - 1].attempts;
      assert answers[1..][m - (n + 1)] == answers[m - n];
    }
  }

  lemma InOrderAfter(first: seq<Action>, t: seq<Action>, n: nat, answers: seq<Answers>, lastCommits: bool)
    requires answers != [] && InOrder(t, n, answers, lastCommits) && 1 <= |first| <= 2
    requires first[0].WriteStatus?
    requires first[0] == WriteStatus(Provisioning, first[0].node, "", n, answers[0].placementWritten)
    requires |first| == 2 ==> first[1].CallCreate? && first[1].target == first[0].node && !first[1].succeeds
    requires |first| == 2 ==> !answers[0].created.Success?
    ensures InOrder(first + t, n, answers, lastCommits)
  {
    var s := first + t;
    forall i | 0 <= i < |s| && s[i].CallCreate? ensures CallInOrder(s, i, n, answers) {
      if i >= |first| { assert s[i] == t[i - |first|] && CallInOrder(t, i - |first|, n, answers); }
    }
    if SomeSuccess(t) {
      var i :| 0 <= i < |t| && t[i].CallCreate? && t[i].succeeds;
      assert s[i + |first|] == t[i];
    }
    forall i | 0 <= i < |s| - 1 && s[i].WriteStatus?
      ensures s[i].status == Provisioning && s[i].endpoint == "" && n <= s[i].attempts < n + |answers|
    {
      if i >= |first| { assert s[i] == t[i - |first|]; }
    }
  }

  lemma {:induction false} FlowInOrder(n: nat, failed: set<string>, answers: seq<Answers>, lastCommits: bool)
    ensures InOrder(FlowActions(n, failed, answers, lastCommits), n, answers, lastCommits)
    decreases |answers|
  {
    hide Choice, FlowActions, InOrder;
    if answers == [] {
      NoAnswersLeft(n, failed, lastCommits);
      FailedInOrder(n, lastCommits);
    } else {
      var a, rest, choice := answers[0], answers[1..], Choice(answers[0], failed);
      FlowNext(n, failed, answers, lastCommits);
      if choice.None? {
        FlowInOrder(n + 1, failed, rest, lastCommits);
        InOrderLater(FlowActions(n + 1, failed, rest, lastCommits), n, answers, lastCommits);
      } else {
        var placement := WriteStatus(Provisioning, choice.value, "", n, a.placementWritten);
        var call := CallCreate(choice.value, a.created.Success?, a.nodes.value);
        if a.dialed && a.created.Success? {
          SuccessInOrder(placement, call, n, answers, lastCommits);
        } else {
          var after := if a.dialed then failed + {choice.value} else failed;
          FlowInOrder(n + 1, after, rest, lastCommits);
          InOrderLater(FlowActions(n + 1, after, rest, lastCommits), n, answers, lastCommits);
          InOrderAfter(if a.dialed then [placement, call] else [placement],
                       FlowActions(n + 1, after, rest, lastCommits), n, answers, lastCommits);
        }
      }
    }
  }

  lemma FailedInOrder(n: nat, lastCommits: bool)
    ensures InOrder([WriteStatus(Failed, "", "", n - 1, lastCommits)], n, [], lastCommits)
  {
  }

  lemma SuccessInOrder(placement: Action, call: Action, n: nat, answers: seq<Answers>, lastCommits: bool)
    requires answers != [] && answers[0].created.Success? && call.CallCreate? && call.succeeds
    requires placement == WriteStatus(Provisioning, call.target, "", n, answers[0].placementWritten)
    ensures
      var active := WriteStatus(Active, call.target, answers[0].created.endpoint, n, answers[0].activeWritten);
      InOrder([placement, call, active], n, answers, lastCommits)
  {
    var active := WriteStatus(Active, call.target, answers[0].created.endpoint, n, answers[0].activeWritten);
    var t := [placement, call, active];
    assert t[1].CallCreate? && t[1].succeeds;
  }

  /** The attempt has all it needs, whichever nodes failed before: the scheduler's node is listed, every listed node has
      a hostname, and the connection is made. */
  predicate Ready(a: Answers) {
    && a.scheduled.Some? && a.scheduled.value != "" && a.nodes.Some? && a.dialed
    && (exists i :: 0 <= i < |a.nodes.value| && a.nodes.value[i].id == a.scheduled.value)
    && forall i :: 0 <= i < |a.nodes.value| ==> a.nodes.value[i].hostname != ""
  }

  function ReadyCount(answers: seq<Answers>): nat {
    if answers == [] then 0 else (if Ready(answers[0]) then 1 else 0) + ReadyCount(answers[1..])
  }

  lemma {:induction false} ListedHasHostname(nodes: seq<NodeInfo>, id: string)
    requires exists i :: 0 <= i < |nodes| && nodes[i].id == id
    requires forall i :: 0 <= i < |nodes| ==> nodes[i].hostname != ""
    ensures HostnameOf(nodes, id) != ""
  {
    if nodes[0].id != id {
      var i :| 0 <= i < |nodes| && nodes[i].id == id;
      assert nodes[1..][i - 1].id == id;
      ListedHasHostname(nodes[1..], id);
    }
  }

  lemma ReadyGoes(a: Answers, failed: set<string>)
    requires Ready(a)
    ensures Choice(a, failed).Some?
  {
    hide HostnameOf, Alternate;
    ListedHasHostname(a.nodes.value, a.scheduled.value);
  }

  /** A flow does not give up early: unless a create succeeds, every attempt that has all it needs makes its call. */
  lemma {:induction false} FlowTriesAll(n: nat, failed: set<string>, answers: seq<Answers>, lastCommits: bool)
    ensures var t := FlowActions(n, failed, answers, lastCommits);
      SomeSuccess(t) || CreateCalls(t) >= ReadyCount(answers)
    decreases |answers|
  {
    hide Choice, FlowActions, Ready, SomeSuccess;
    if answers != [] {
      var a, rest, choice := answers[0], answers[1..], Choice(answers[0], failed);
      FlowNext(n, failed, answers, lastCommits);
      if Ready(a) { ReadyGoes(a, failed); }
      if choice.None? {
        FlowTriesAll(n + 1, failed, rest, lastCommits);
      } else {
        var placement := WriteStatus(Provisioning, choice.value, "", n, a.placementWritten);
        var call := CallCreate(choice.value, a.created.Success?, a.nodes.value);
        if a.dialed && a.created.Success? {
          SuccessIsSome(FlowActions(n, failed, answers, lastCommits), 1);
        } else {
          if Ready(a) { ReadyDials(a); }
          var after := if a.dialed then failed + {choice.value} else failed;
          FlowTriesAll(n + 1, after, rest, lastCommits);
          CallsAfter(if a.dialed then [placement, call] else [placement], FlowActions(n + 1, after, rest, lastCommits));
        }
      }
    }
  }

  lemma ReadyDials(a: Answers)
    ensures Ready(a) ==> a.dialed
  {
  }

  lemma SuccessIsSome(t: seq<Action>, i: nat)
    requires i < |t| && t[i].CallCreate? && t[i].succeeds
    ensures SomeSuccess(t)
  {
  }

  lemma CallsAfter(first: seq<Action>, t: seq<Action>)
    requires 1 <= |first| <= 2 && first[0].WriteStatus? && (|first| == 2 ==> first[1].CallCreate?)
    ensures CreateCalls(first + t) == |first| - 1 + CreateCalls(t)
    ensures SomeSuccess(t) ==> SomeSuccess(first + t)
  {
    assert (first + t)[1..] == first[1..] + t;
    if |first| == 2 { assert (first[1..] + t)[1..] == t; } else { assert first[1..] + t == t; }
    if SomeSuccess(t) {
      var i :| 0 <= i < |t| && t[i].CallCreate? && t[i].succeeds;
      assert (first + t)[i + |first|] == t[i];
    }
  }

  /** A whole flow, by what it writes: each create right after its placement, `active` with the endpoint returned right
      after a success and at the very end, `failed` after attempt 3 otherwise; and no attempt that has all it needs is
      skipped. */
  lemma FlowOutcome(answers: seq<Answers>, lastCommits: bool)
    requires |answers| == MAX_ATTEMPTS
    ensures var t := WholeFlow(answers, lastCommits);
      InOrder(t, 1, answers, lastCommits) && (SomeSuccess(t) || CreateCalls(t) >= ReadyCount(answers))
  {
    FlowInOrder(1, {}, answers, lastCommits);
    FlowTriesAll(1, {}, answers, lastCommits);
  }

  // ---- All flows together ----

  /** A running flow: the database it serves and the actions it still has to do. */
  datatype Flow = Flow(database: Id, todo: seq<Action>)

  /** `issued`, `gone` and `succeeded` are history: ids ever created, ids deleted, and (database, node) pairs on which a
      CreateDatabase call succeeded. */
  datatype System = System(
    tables: Tables,
    flows: seq<Flow>,
    issued: set<Id>,
    gone: set<Id>,
    succeeded: set<(Id, string)>)

  const INITIAL := System(Tables(map[], []), [], {}, {}, {})

  /** `heard` is false when the write commits but its reply is lost, so that the caller starts no flow. */
  datatype Event =
    | Create(id: Id, answers: seq<Answers>, lastCommits: bool, heard: bool)
    | FlowStep(flow: nat)
    | Touch(id: Id, attempts: int, answers: seq<Answers>, lastCommits: bool, heard: bool)
    | MarkDeleting(id: Id)
    | DeleteRecord(id: Id)

  /** Node ids are primary keys, never empty. */
  predicate NodesNamed(answers: seq<Answers>) {
    forall i, n :: 0 <= i < |answers| && answers[i].nodes.Some? && n in answers[i].nodes.value ==> n.id != ""
  }

  predicate Enabled(s: System, ev: Event) {
    match ev
    case Create(id, answers, _, _) => id !in s.issued && |answers| == MAX_ATTEMPTS && NodesNamed(answers)
    case FlowStep(i) => i < |s.flows| && s.flows[i].todo != []
    case Touch(_, _, answers, _, _) => |answers| == MAX_ATTEMPTS && NodesNamed(answers)
    case MarkDeleting(_) => true
    case DeleteRecord(_) => true
  }

  /** The reconciler works from a listing that may be out of date, so it may touch any id; touching a missing row fails,
      and then no flow starts. */
  function Step(s: System, ev: Event): System
    requires Enabled(s, ev)
  {
    match ev
    case Create(id, answers, lastCommits, heard) =>
      s.(tables := Inserted(s.tables, id, Row(Provisioning, "", "", 1)),
         flows := s.flows + if heard then [Flow(id, WholeFlow(answers, lastCommits))] else [],
         issued := s.issued + {id})
    case FlowStep(i) =>
      var f := s.flows[i];
      var moved := s.(flows := s.flows[i := Flow(f.database, f.todo[1..])]);
      (match f.todo[0]
       case WriteStatus(status, node, endpoint, attempts, commits) =>
         if commits then moved.(tables := Updated(s.tables, f.database, status, node, endpoint, attempts)) else moved
       case CallCreate(node, succeeds, _) =>
         if succeeds then moved.(succeeded := s.succeeded + {(f.database, node)}) else moved)
    case Touch(id, attempts, answers, lastCommits, heard) =>
      if id !in s.tables.databases then s
      else s.(tables := Updated(s.tables, id, Provisioning, "", "", attempts),
              flows := s.flows + if heard then [Flow(id, WholeFlow(answers, lastCommits))] else [])
    case MarkDeleting(id) => s.(tables := Updated(s.tables, id, Deleting, "", "", 0))
    case DeleteRecord(id) =>
      s.(tables := Deleted(s.tables, id), gone := if id in s.tables.databases then s.gone + {id} else s.gone)
  }

  predicate CanRun(s: System, events: seq<Event>)
    decreases |events|
  {
    events == [] || (Enabled(s, events[0]) && CanRun(Step(s, events[0]), events[1..]))
  }

  function Run(s: System, events: seq<Event>): System
    requires CanRun(s, events)
    decreases |events|
  {
    if events == [] then s else Run(Step(s, events[0]), events[1..])
  }

  /** What is left of a flow: a pending write of `active` has its create just before it, or just done. */
  ghost predicate FlowInv(f: Flow, succeeded: set<(Id, string)>) {
    && (forall i :: 0 <= i < |f.todo| && WritesActive(f.todo[i]) ==> f.todo[i].node != "")
    && (f.todo != [] && WritesActive(f.todo[0]) ==> (f.database, f.todo[0].node) in succeeded)
    && (forall i :: 0 < i < |f.todo| && WritesActive(f.todo[i]) ==>
          f.todo[i - 1].CallCreate? && f.todo[i - 1].succeeds && f.todo[i - 1].target == f.todo[i].node)
  }

  ghost predicate SystemInv(s: System) {
    && Consistent(s.tables)
    && s.tables.databases.Keys <= s.issued
    && s.gone <= s.issued && s.gone !! s.tables.databases.Keys
    && (forall id :: id in s.tables.databases && s.tables.databases[id].status == Active ==>
          (id, s.tables.databases[id].node) in s.succeeded)
    && (forall i :: 0 <= i < |s.flows| ==> FlowInv(s.flows[i], s.succeeded))
  }

  lemma ChoiceNamed(answers: seq<Answers>, failed: set<string>)
    requires answers != [] && NodesNamed(answers) && Choice(answers[0], failed).Some?
    ensures Choice(answers[0], failed).value != ""
  {
  }

  lemma {:induction false} FlowNodesNamed(n: nat, failed: set<string>, answers: seq<Answers>, lastCommits: bool)
    requires NodesNamed(answers)
    ensures forall a :: a in FlowActions(n, failed, answers, lastCommits) && WritesActive(a) ==> a.node != ""
    decreases |answers|
  {
    hide Choice;
    if answers != [] {
      var rest := answers[1..];
      assert NodesNamed(rest) by { RestNamed(answers); }
      FlowNodesNamed(n + 1, failed, rest, lastCommits);
      var choice := Choice(answers[0], failed);
      if choice.Some? {
        ChoiceNamed(answers, failed);
        FlowNodesNamed(n + 1, failed + {choice.value}, rest, lastCommits);
      }
    }
  }

  lemma RestNamed(answers: seq<Answers>)
    requires answers != [] && NodesNamed(answers)
    ensures NodesNamed(answers[1..])
  {
    assert forall i :: 0 <= i < |answers[1..]| ==> answers[1..][i] == answers[i + 1];
  }

  lemma NewFlowInv(id: Id, answers: seq<Answers>, lastCommits: bool, succeeded: set<(Id, string)>)
    requires |answers| == MAX_ATTEMPTS && NodesNamed(answers)
    ensures FlowInv(Flow(id, WholeFlow(answers, lastCommits)), succeeded)
  {
    FlowShape(1, {}, answers, lastCommits);
    FlowNodesNamed(1, {}, answers, lastCommits);
    var t := WholeFlow(answers, lastCommits);
    assert forall i :: 0 <= i < |t| ==> t[i] in t;
  }

  lemma FlowAdvances(f: Flow, succeeded: set<(Id, string)>)
    requires FlowInv(f, succeeded) && f.todo != []
    ensures var call := f.todo[0];
      var after := if call.CallCreate? && call.succeeds then succeeded + {(f.database, call.target)} else succeeded;
      FlowInv(Flow(f.database, f.todo[1..]), after)
  {
    var rest := f.todo[1..];
    assert forall i :: 0 <= i < |rest| ==> rest[i] == f.todo[i + 1];
  }

  lemma MoreSucceeded(f: Flow, succeeded: set<(Id, string)>, more: set<(Id, string)>)
    requires FlowInv(f, succeeded) && succeeded <= more
    ensures FlowInv(f, more)
  {
  }

  lemma FlowStepKeepsInv(s: System, i: nat)
    requires SystemInv(s) && Enabled(s, FlowStep(i))
    ensures SystemInv(Step(s, FlowStep(i)))
  {
    hide FlowInv, Consistent, Updated;
    var f, after := s.flows[i], Step(s, FlowStep(i));
    assert FlowInv(f, s.succeeded);
    FlowAdvances(f, s.succeeded);
    forall j | 0 <= j < |after.flows| ensures FlowInv(after.flows[j], after.succeeded) {
      if j != i {
        MoreSucceeded(s.flows[j], s.succeeded, after.succeeded);
      }
    }
    match f.todo[0]
    case WriteStatus(status, node, endpoint, attempts, commits) =>
      UpdateKeeps(s.tables, f.database, status, node, endpoint, attempts);
      UpdateRows(s.tables, f.database, status, node, endpoint, attempts);
      if status == Active { FirstIsActive(f, s.succeeded); }
    case CallCreate(_, _, _) =>
  }

  lemma FirstIsActive(f: Flow, succeeded: set<(Id, string)>)
    requires FlowInv(f, succeeded) && f.todo != [] && WritesActive(f.todo[0])
    ensures f.todo[0].node != "" && (f.database, f.todo[0].node) in succeeded
  {
  }

  /** What an update does to each row. */
  lemma UpdateRows(t: Tables, id: Id, status: Status, node: string, endpoint: string, attempts: int)
    ensures var after := Updated(t, id, status, node, endpoint, attempts);
      && after.databases.Keys == t.databases.Keys
      && (forall other :: other in t.databases && other != id ==> after.databases[other] == t.databases[other])
      && (id in t.databases ==>
            after.databases[id].status == status && (node != "" ==> after.databases[id].node == node))
  {
  }

  lemma StepKeepsInv(s: System, ev: Event)
    requires SystemInv(s) && Enabled(s, ev)
    ensures SystemInv(Step(s, ev))
  {
    hide FlowInv, Consistent, Updated, WholeFlow, NodesNamed;
    match ev
    case Create(id, answers, lastCommits, _) =>
      InsertKeeps(s.tables, id, Row(Provisioning, "", "", 1));
      NewFlowInv(id, answers, lastCommits, s.succeeded);
    case FlowStep(i) => FlowStepKeepsInv(s, i);
    case Touch(id, attempts, answers, lastCommits, _) =>
      UpdateKeeps(s.tables, id, Provisioning, "", "", attempts);
      UpdateRows(s.tables, id, Provisioning, "", "", attempts);
      NewFlowInv(id, answers, lastCommits, s.succeeded);
    case MarkDeleting(id) =>
      UpdateKeeps(s.tables, id, Deleting, "", "", 0);
      UpdateRows(s.tables, id, Deleting, "", "", 0);
    case DeleteRecord(id) =>
      DeleteKeeps(s.tables, id);
  }

  lemma {:induction false} RunKeepsInv(s: System, events: seq<Event>)
    requires SystemInv(s) && CanRun(s, events)
    ensures SystemInv(Run(s, events))
    decreases |events|
  {
    hide SystemInv, Step, Enabled;
    if events != [] {
      StepKeepsInv(s, events[0]);
      RunKeepsInv(Step(s, events[0]), events[1..]);
    }
  }

  lemma InitialInv()
    ensures SystemInv(INITIAL)
  {
  }

  /** In every interleaving of creations, flows, reconciler touches and deletes: a row with a node has exactly one
      replica, a leader on it, a row without one has none, and no replica lacks its row; a deleted id has no row, ever
      again; and an active database is on a node where CreateDatabase for it succeeded before. */
  lemma ProvisioningSafety(events: seq<Event>)
    requires CanRun(INITIAL, events)
    ensures var s := Run(INITIAL, events);
      && Consistent(s.tables)
      && s.gone !! s.tables.databases.Keys
      && (forall id :: id in s.tables.databases && s.tables.databases[id].status == Active ==>
            (id, s.tables.databases[id].node) in s.succeeded)
  {
    hide Run, CanRun;
    InitialInv();
    RunKeepsInv(INITIAL, events);
  }

  /** Once deleted, an id stays deleted through every continuation of the run. */
  lemma {:induction false} DeletedStaysDeleted(s: System, events: seq<Event>, id: Id)
    requires SystemInv(s) && CanRun(s, events) && id in s.gone
    ensures id in Run(s, events).gone
    ensures id !in Run(s, events).tables.databases
    ensures ReplicasOf(Run(s, events).tables.replicas, id) == []
    decreases |events|
  {
    hide Updated, FlowInv, WholeFlow, NodesNamed;
    if events == [] {
      NoReplicas(s.tables.replicas, id);
    } else {
      StepKeepsInv(s, events[0]);
      GoneStays(s, events[0], id);
      DeletedStaysDeleted(Step(s, events[0]), events[1..], id);
    }
  }

  /** The event is on database `id`: its creation, a step of one of its flows, its touch, or its deletion. */
  predicate Concerns(s: System, ev: Event, id: Id) {
    match ev
    case Create(other, _, _, _) => other == id
    case FlowStep(i) => i < |s.flows| && s.flows[i].database == id
    case Touch(other, _, _, _, _) => other == id
    case MarkDeleting(other) => other == id
    case DeleteRecord(other) => other == id
  }

  predicate NoneConcerns(s: System, events: seq<Event>, id: Id)
    requires CanRun(s, events)
    decreases |events|
  {
    events == [] || (!Concerns(s, events[0], id) && NoneConcerns(Step(s, events[0]), events[1..], id))
  }

  lemma StepLeavesAlone(s: System, ev: Event, id: Id)
    requires SystemInv(s) && Enabled(s, ev) && !Concerns(s, ev, id)
    ensures SameDatabase(s.tables, Step(s, ev).tables, id)
  {
    hide Consistent, SameDatabase, FlowInv, Inserted, Updated, Deleted, WholeFlow, NodesNamed;
    SameItself(s.tables, id);
    match ev
    case Create(other, _, _, _) => InsertEffect(s.tables, other, Row(Provisioning, "", "", 1));
    case FlowStep(i) =>
      if s.flows[i].todo[0].WriteStatus? {
        var w := s.flows[i].todo[0];
        UpdateEffect(s.tables, s.flows[i].database, w.status, w.node, w.endpoint, w.attempts);
      }
    case Touch(other, attempts, _, _, _) => UpdateEffect(s.tables, other, Provisioning, "", "", attempts);
    case MarkDeleting(other) => UpdateEffect(s.tables, other, Deleting, "", "", 0);
    case DeleteRecord(other) => DeleteEffect(s.tables, other);
  }

  lemma SameItself(t: Tables, id: Id)
    ensures SameDatabase(t, t, id)
  {
  }

  lemma SameThrough(t: Tables, next: Tables, after: Tables, id: Id)
    requires SameDatabase(t, next, id) && SameDatabase(next, after, id)
    ensures SameDatabase(t, after, id)
  {
    hide ReplicasOf;
  }

  /** Only events on a database change its row or its replicas: in every run, what happens to others leaves it alone. */
  lemma {:induction false} OthersLeaveAlone(s: System, events: seq<Event>, id: Id)
    requires SystemInv(s) && CanRun(s, events) && NoneConcerns(s, events, id)
    ensures SameDatabase(s.tables, Run(s, events).tables, id)
    decreases |events|
  {
    hide SystemInv, Step, Enabled, Concerns, SameDatabase;
    if events == [] {
      SameItself(s.tables, id);
    } else {
      var next := Step(s, events[0]);
      StepLeavesAlone(s, events[0], id);
      StepKeepsInv(s, events[0]);
      OthersLeaveAlone(next, events[1..], id);
      SameThrough(s.tables, next.tables, Run(next, events[1..]).tables, id);
    }
  }

  lemma GoneStays(s: System, ev: Event, id: Id)
    requires Enabled(s, ev) && id in s.gone
    ensures id in Step(s, ev).gone
  {
  }

  // ---- The reconciler's sweep ----

  /** A listed database; `age` is the time since its last update, `None` when the timestamp does not parse. */
  datatype Listed = Listed(id: Id, status: Status, node: string, attempts: int, age: Option<int>)

  predicate Stuck(l: Listed, timeout: int) {
    l.status == Provisioning && l.age.Some? && (l.node == "" || l.age.value > timeout)
  }

  /** How one touch ends: not written, written but the reply lost, or written and known to be. */
  datatype Touching = NotWritten | ReplyLost | Written

  predicate Touches(t: Tables, l: Listed, timeout: int, how: Touching) {
    Stuck(l, timeout) && l.id != "" && l.id in t.databases && how != NotWritten
  }

  /** The tables after a sweep over `listed`; `how[i]` is the fate of the i-th touch. */
  function Swept(t: Tables, listed: seq<Listed>, timeout: int, how: seq<Touching>): Tables
    requires |listed| == |how|
  {
    if listed == [] then t
    else
      var n := |listed| - 1;
      var before, l := Swept(t, listed[..n], timeout, how[..n]), listed[n];
      if Touches(before, l, timeout, how[n]) then Updated(before, l.id, Provisioning, "", "", l.attempts) else before
  }

  /** The databases whose touch was written, and those among them for which a flow is started. */
  function Touched(t: Tables, listed: seq<Listed>, timeout: int, how: seq<Touching>, heardOnly: bool): seq<Id>
    requires |listed| == |how|
  {
    if listed == [] then []
    else
      var n := |listed| - 1;
      Touched(t, listed[..n], timeout, how[..n], heardOnly) +
      if Touches(Swept(t, listed[..n], timeout, how[..n]), listed[n], timeout, how[n])
        && (heardOnly ==> how[n] == Written)
      then [listed[n].id] else []
  }

  /** Touches every stuck database, and starts a flow for each touch it hears went through. */
  method Reconcile(server: Server, listed: seq<Listed>, timeout: int, how: seq<Touching>) returns (started: seq<Id>)
    requires |listed| == |how|
    modifies server
    ensures server.State() == Swept(old(server.State()), listed, timeout, how)
    ensures started == Touched(old(server.State()), listed, timeout, how, true)
  {
    hide Updated;
    started := [];
    for i := 0 to |listed|
      invariant server.State() == Swept(old(server.State()), listed[..i], timeout, how[..i])
      invariant started == Touched(old(server.State()), listed[..i], timeout, how[..i], true)
    {
      assert listed[..i + 1][..i] == listed[..i] && how[..i + 1][..i] == how[..i];
      var l := listed[i];
      if l.status == Provisioning && l.age.Some? && (l.node == "" || l.age.value > timeout) {
        var reply := server.UpdateDatabaseStatus(l.id, Some(Provisioning), "", "", l.attempts, how[i] != NotWritten);
        if reply == Done && how[i] == Written {
          started := started + [l.id];
        }
      }
    }
    assert listed[..|listed|] == listed && how[..|how|] == how;
  }

  /** A sweep touches only databases that exist and were listed as stuck, and starts flows only for those it touches; it
      puts exactly the touched ones in `provisioning`, and moves no database to another node. */
  lemma {:induction false} SweepEffect(t: Tables, listed: seq<Listed>, timeout: int, how: seq<Touching>)
    requires |listed| == |how| && Consistent(t)
    ensures var after, touched := Swept(t, listed, timeout, how), Touched(t, listed, timeout, how, false);
      && Consistent(after) && after.replicas == t.replicas && after.databases.Keys == t.databases.Keys
      && (forall id :: id in Touched(t, listed, timeout, how, true) ==> id in touched)
      && (forall id :: id in touched ==>
            id in t.databases && exists i :: 0 <= i < |listed| && listed[i].id == id && Stuck(listed[i], timeout))
      && (forall id :: id in t.databases ==>
            && after.databases[id].node == t.databases[id].node
            && if id in touched then after.databases[id].status == Provisioning
               else after.databases[id] == t.databases[id])
  {
    hide Consistent, Stuck;
    if listed != [] {
      var n := |listed| - 1;
      SweepEffect(t, listed[..n], timeout, how[..n]);
      UpdateKeeps(Swept(t, listed[..n], timeout, how[..n]), listed[n].id, Provisioning, "", "", listed[n].attempts);
      var before := Touched(t, listed[..n], timeout, how[..n], false);
      forall id | id in before
        ensures exists i :: 0 <= i < |listed| && listed[i].id == id && Stuck(listed[i], timeout) {
        var i :| 0 <= i < n && listed[..n][i].id == id && Stuck(listed[..n][i], timeout);
        assert listed[i] == listed[..n][i];
      }
    }
  }

  /** The other direction: every listed database that is provisioning, and has no node or was last updated too long ago,
      is touched if it exists and the write goes through; and it is dispatched if the reply is heard. */
  lemma {:induction false} SweepIsComplete(
    t: Tables, listed: seq<Listed>, timeout: int, how: seq<Touching>, i: nat)
    requires |listed| == |how| && i < |listed| && Consistent(t)
    requires listed[i].status == Provisioning && listed[i].age.Some?
    requires listed[i].node == "" || listed[i].age.value > timeout
    requires listed[i].id != "" && listed[i].id in t.databases && how[i] != NotWritten
    ensures listed[i].id in Touched(t, listed, timeout, how, false)
    ensures how[i] == Written ==> listed[i].id in Touched(t, listed, timeout, how, true)
  {
    hide Swept, Consistent, Touched;
    var n := |listed| - 1;
    var before := Swept(t, listed[..n], timeout, how[..n]);
    TouchedNext(t, listed, timeout, how, false);
    TouchedNext(t, listed, timeout, how, true);
    if i < n {
      SweepIsComplete(t, listed[..n], timeout, how[..n], i);
    } else {
      SweepKeys(t, listed[..n], timeout, how[..n]);
    }
  }

  lemma TouchedNext(t: Tables, listed: seq<Listed>, timeout: int, how: seq<Touching>, heardOnly: bool)
    requires |listed| == |how| && listed != []
    ensures var n := |listed| - 1;
      Touched(t, listed, timeout, how, heardOnly) == Touched(t, listed[..n], timeout, how[..n], heardOnly) +
        if Touches(Swept(t, listed[..n], timeout, how[..n]), listed[n], timeout, how[n])
           && (heardOnly ==> how[n] == Written) then [listed[n].id] else []
  {
    hide Touches, Swept;
  }

  lemma SweepKeys(t: Tables, listed: seq<Listed>, timeout: int, how: seq<Touching>)
    requires |listed| == |how| && Consistent(t)
    ensures Swept(t, listed, timeout, how).databases.Keys == t.databases.Keys
  {
    hide Consistent, Swept, Touched, Stuck;
    SweepEffect(t, listed, timeout, how);
  }

  /** What a touch writes: the node stays, the endpoint is cleared, and the attempts are those listed. */
  lemma {:induction false} SweepWrites(t: Tables, listed: seq<Listed>, timeout: int, how: seq<Touching>, id: Id)
    requires |listed| == |how| && Consistent(t) && id in Touched(t, listed, timeout, how, false)
    ensures var after := Swept(t, listed, timeout, how);
      && id in t.databases && id in after.databases
      && exists i :: 0 <= i < |listed| && listed[i].id == id &&
                     after.databases[id] == Row(Provisioning, t.databases[id].node, "", listed[i].attempts)
  {
    hide Consistent, Swept, Touched, Stuck;
    var n := |listed| - 1;
    if listed == [] {
      NoneTouched(t, timeout);
    } else {
      var before := Swept(t, listed[..n], timeout, how[..n]);
      TouchedNext(t, listed, timeout, how, false);
      SweptNext(t, listed, timeout, how);
      SweepEffect(t, listed[..n], timeout, how[..n]);
      if Touches(before, listed[n], timeout, how[n]) && listed[n].id == id {
        assert listed[n].id == id;
      } else {
        SweepWrites(t, listed[..n], timeout, how[..n], id);
        var i :| 0 <= i < n && listed[..n][i].id == id &&
                 before.databases[id] == Row(Provisioning, t.databases[id].node, "", listed[..n][i].attempts);
        assert listed[i] == listed[..n][i];
      }
    }
  }

  lemma NoneTouched(t: Tables, timeout: int)
    ensures Touched(t, [], timeout, [], false) == []
  {
  }

  lemma SweptNext(t: Tables, listed: seq<Listed>, timeout: int, how: seq<Touching>)
    requires |listed| == |how| && listed != []
    ensures var n := |listed| - 1; var before, l := Swept(t, listed[..n], timeout, how[..n]), listed[n];
      Swept(t, listed, timeout, how) ==
        if Touches(before, l, timeout, how[n]) then Updated(before, l.id, Provisioning, "", "", l.attempts) else before
  {
    hide Touches, Updated;
  }

  /** And only those: what is touched was listed as provisioning, with a timestamp, and without a node or too old. */
  lemma SweepIsSound(t: Tables, listed: seq<Listed>, timeout: int, how: seq<Touching>, id: Id)
    requires |listed| == |how| && Consistent(t) && id in Touched(t, listed, timeout, how, false)
    ensures id in t.databases
    ensures exists i :: 0 <= i < |listed| && listed[i].id == id && listed[i].status == Provisioning &&
                        listed[i].age.Some? && (listed[i].node == "" || listed[i].age.value > timeout)
  {
    hide Consistent, Swept, Touched;
    SweepEffect(t, listed, timeout, how);
    var i :| 0 <= i < |listed| && listed[i].id == id && Stuck(listed[i], timeout);
  }
}
