/**
 Region-aware placement: services/scheduler/placement/scheduler.go, region_scheduler.go and
 services/metadata-service/region/region.go. Scores are over the reals.
 */
module Placement {
  import opened Prelude

  datatype Region = India | UsEast | UsWest | Europe | Japan {
    function Name(): string {
      match this
      case India => "india"
      case UsEast => "us-east"
      case UsWest => "us-west"
      case Europe => "europe"
      case Japan => "japan"
    }
  }

  const SUPPORTED_REGIONS: seq<Region> := [India, UsEast, UsWest, Europe, Japan]

  /** The inter-region latency matrix, in milliseconds. */
  function Latency(a: Region, b: Region): nat {
    match a
    case India => (match b case India => 0 case UsEast => 180 case UsWest => 220 case Europe => 110 case Japan => 130)
    case UsEast => (match b case India => 180 case UsEast => 0 case UsWest => 60 case Europe => 90 case Japan => 160)
    case UsWest => (match b case India => 220 case UsEast => 60 case UsWest => 0 case Europe => 140 case Japan => 110)
    case Europe => (match b case India => 110 case UsEast => 90 case UsWest => 140 case Europe => 0 case Japan => 210)
    case Japan => (match b case India => 130 case UsEast => 160 case UsWest => 110 case Europe => 210 case Japan => 0)
  }

  datatype NodeInfo = NodeInfo(
    id: string, hostname: string, clusterId: string, region: string, status: string,
    cpu: real, memory: real, disk: real)

  // ---- Regions ----

  predicate Contains(s: string, part: string) {
    part <= s || (s != "" && Contains(s[1..], part))
  }

  /** The first supported region, from index `i` on, whose name satisfies `test`. */
  function FirstRegion(test: string -> bool, i: nat): (r: Option<Region>)
    decreases |SUPPORTED_REGIONS| - i
  {
    if i >= |SUPPORTED_REGIONS| then None
    else if test(SUPPORTED_REGIONS[i].Name()) then Some(SUPPORTED_REGIONS[i])
    else FirstRegion(test, i + 1)
  }

  /** The declared region if it is a known one; otherwise one named in the hostname or the cluster id; otherwise India.
      */
  function InferNodeRegion(n: NodeInfo): Region {
    var declared := if n.region == "" then None else FirstRegion(name => ToLower(n.region) == ToLower(name), 0);
    if declared.Some? then declared.value
    else
      var host, cluster := ToLower(n.hostname), ToLower(n.clusterId);
      var named := FirstRegion(name => Contains(host, name) || Contains(cluster, name), 0);
      if named.Some? then named.value else India
  }

  /** The region latencies are measured from: the preferred one if it is known, India otherwise. */
  function BaseRegion(preferred: string): Region {
    var base := FirstRegion(name => ToLower(preferred) == name, 0);
    if base.Some? then base.value else India
  }

  ghost predicate NearestFirst(base: Region, order: seq<Region>) {
    forall i, j :: 0 <= i < j < |order| ==> Latency(base, order[i]) < Latency(base, order[j])
  }

  /** All five regions, nearest to `base` first. */
  ghost predicate IsFallbackOrder(base: Region, order: seq<Region>) {
    (forall r: Region :: r in order) && NearestFirst(base, order)
  }

  /** The base region comes first, at latency 0. */
  lemma BaseIsFirst(base: Region, order: seq<Region>)
    requires IsFallbackOrder(base, order)
    ensures order != [] && forall i :: 0 <= i < |order| ==> (order[i] == base <==> i == 0)
  {
    assert base in order;
    var k :| 0 <= k < |order| && order[k] == base;
    assert Latency(base, order[0]) <= Latency(base, order[k]);
  }

  /** Distances from one region are all different, so the order does not depend on how the map of latencies iterates. */
  lemma LatenciesDiffer(base: Region, a: Region, b: Region)
    ensures Latency(base, a) == Latency(base, b) <==> a == b
    ensures Latency(base, a) == Latency(a, base)
  {
  }

  /** The five orders, by name. */
  function OrderFrom(base: Region): seq<Region> {
    match base
    case India => [India, Europe, Japan, UsEast, UsWest]
    case UsEast => [UsEast, UsWest, Europe, Japan, India]
    case UsWest => [UsWest, UsEast, Japan, Europe, India]
    case Europe => [Europe, UsEast, India, UsWest, Japan]
    case Japan => [Japan, UsWest, India, UsEast, Europe]
  }

  lemma OrderFromIsFallback(base: Region)
    ensures IsFallbackOrder(base, OrderFrom(base))
  {
    var order := OrderFrom(base);
    forall r: Region ensures r in order {
      assert |order| == 5 && (r == order[0] || r == order[1] || r == order[2] || r == order[3] || r == order[4]);
    }
  }

  lemma FirstIsNearest(base: Region, s: seq<Region>, r: Region)
    requires NearestFirst(base, s) && s != [] && r in s
    ensures r != s[0] ==> Latency(base, s[0]) < Latency(base, r)
    ensures NearestFirst(base, s[1..]) && s[0] !in s[1..]
  {
    hide Latency;
  }

  /** Only one order has all regions, nearest first. */
  lemma {:induction false} SameOrder(base: Region, s: seq<Region>, t: seq<Region>)
    requires NearestFirst(base, s) && NearestFirst(base, t) && forall r: Region :: r in s <==> r in t
    ensures s == t
  {
    hide Latency, NearestFirst;
    assert (s != [] ==> s[0] in s) && (t != [] ==> t[0] in t);
    if s != [] && t != [] {
      FirstIsNearest(base, s, t[0]);
      FirstIsNearest(base, t, s[0]);
      forall r: Region ensures r in s[1..] <==> r in t[1..] {
        assert r in s <==> r == s[0] || r in s[1..];
        assert r in t <==> r == t[0] || r in t[1..];
      }
      SameOrder(base, s[1..], t[1..]);
    }
  }

  lemma FallbackOrderIs(base: Region, order: seq<Region>)
    requires IsFallbackOrder(base, order)
    ensures order == OrderFrom(base)
  {
    OrderFromIsFallback(base);
    SameOrder(base, order, OrderFrom(base));
  }

  /** The region latencies are measured from, by name. */
  lemma BaseRegionIs(preferred: string)
    ensures var name := ToLower(preferred);
      BaseRegion(preferred) ==
        if name == "us-east" then UsEast else if name == "us-west" then UsWest
        else if name == "europe" then Europe else if name == "japan" then Japan else India
  {
    var test := name => ToLower(preferred) == name;
    FirstOfFive(test);
    NamesDiffer();
  }

  lemma NamesDiffer()
    ensures "us-east"[0] == 'u' && "us-west"[3] == 'w' && "us-east"[3] == 'e'
    ensures "india" != "us-east" && "india" != "us-west" && "india" != "europe" && "india" != "japan"
    ensures "us-east" != "us-west" && "us-east" != "europe" && "us-east" != "japan"
    ensures "us-west" != "europe" && "us-west" != "japan" && "europe" != "japan"
  {
    assert |"india"| == 5 && |"us-east"| == 7 && |"us-west"| == 7 && |"europe"| == 6 && |"japan"| == 5;
    assert "india"[0] == 'i' && "japan"[0] == 'j';
    assert "us-east"[3] == 'e' && "us-west"[3] == 'w';
  }

  /** The first region that passes a test of its name, spelled out. */
  lemma FirstOfFive(test: string -> bool)
    ensures FirstRegion(test, 0) ==
      if test("india") then Some(India) else if test("us-east") then Some(UsEast)
      else if test("us-west") then Some(UsWest) else if test("europe") then Some(Europe)
      else if test("japan") then Some(Japan) else None
  {
    assert FirstRegion(test, 5) == None;
    assert FirstRegion(test, 4) == if test("japan") then Some(Japan) else FirstRegion(test, 5);
    assert FirstRegion(test, 3) == if test("europe") then Some(Europe) else FirstRegion(test, 4);
    assert FirstRegion(test, 2) == if test("us-west") then Some(UsWest) else FirstRegion(test, 3);
    assert FirstRegion(test, 1) == if test("us-east") then Some(UsEast) else FirstRegion(test, 2);
  }

  predicate OccursAt(s: string, part: string, i: int) {
    0 <= i <= |s| - |part| && s[i..i + |part|] == part
  }

  lemma {:induction false} ContainsExactly(s: string, part: string)
    ensures Contains(s, part) <==> exists i :: OccursAt(s, part, i)
  {
    if part <= s {
      assert OccursAt(s, part, 0);
    } else if s == [] {
      assert !OccursAt(s, part, 0);
    } else {
      ContainsExactly(s[1..], part);
      forall i ensures OccursAt(s, part, i) <==> OccursAt(s[1..], part, i - 1) {
        if 1 <= i <= |s| - |part| {
          assert s[1..][i - 1..i - 1 + |part|] == s[i..i + |part|];
        }
      }
      if i :| OccursAt(s[1..], part, i) {
        assert OccursAt(s, part, i + 1);
      }
    }
  }

  /** The name appears in the node's hostname or cluster id. */
  predicate Mentions(n: NodeInfo, name: string) {
    Contains(ToLower(n.hostname), name) || Contains(ToLower(n.clusterId), name)
  }

  /** A node's region, by name: the declared one if it is known; otherwise the first one mentioned; otherwise India. */
  lemma InferredIs(n: NodeInfo)
    ensures var name := ToLower(n.region);
      InferNodeRegion(n) ==
        if name == "india" then India else if name == "us-east" then UsEast else if name == "us-west" then UsWest
        else if name == "europe" then Europe else if name == "japan" then Japan
        else if Mentions(n, "india") then India else if Mentions(n, "us-east") then UsEast
        else if Mentions(n, "us-west") then UsWest else if Mentions(n, "europe") then Europe
        else if Mentions(n, "japan") then Japan else India
  {
    hide Contains, FirstRegion;
    FirstOfFive(name => ToLower(n.region) == ToLower(name));
    FirstOfFive(name => Contains(ToLower(n.hostname), name) || Contains(ToLower(n.clusterId), name));
    LowerNames();
  }

  lemma LowerNames()
    ensures ToLower("india") == "india" && ToLower("us-east") == "us-east" && ToLower("us-west") == "us-west"
    ensures ToLower("europe") == "europe" && ToLower("japan") == "japan"
    ensures ToLower("") == ""
  {
  }

  method GetFallbackRegions(preferred: string) returns (order: seq<Region>)
    ensures IsFallbackOrder(BaseRegion(preferred), order) && order == OrderFrom(BaseRegion(preferred))
  {
    hide BaseRegion, Latency;
    var base := BaseRegion(preferred);
    order := [];
    for i := 0 to |SUPPORTED_REGIONS|
      invariant NearestFirst(base, order)
      invariant forall r :: r in order <==> r in SUPPORTED_REGIONS[..i]
    {
      NotBefore(i);
      order := InsertRegion(base, order, SUPPORTED_REGIONS[i]);
      assert SUPPORTED_REGIONS[..i + 1] == SUPPORTED_REGIONS[..i] + [SUPPORTED_REGIONS[i]];
    }
    assert SUPPORTED_REGIONS[..|SUPPORTED_REGIONS|] == SUPPORTED_REGIONS;
    forall r: Region ensures r in order { AllSupported(r); }
    FallbackOrderIs(base, order);
  }

  lemma NotBefore(i: nat)
    requires i < |SUPPORTED_REGIONS|
    ensures SUPPORTED_REGIONS[i] !in SUPPORTED_REGIONS[..i]
  {
  }

  lemma AllSupported(r: Region)
    ensures r in SUPPORTED_REGIONS
  {
    var at := match r case India => 0 case UsEast => 1 case UsWest => 2 case Europe => 3 case Japan => 4;
    assert SUPPORTED_REGIONS[at] == r;
  }

  method InsertRegion(base: Region, order: seq<Region>, r: Region) returns (longer: seq<Region>)
    requires NearestFirst(base, order) && r !in order
    ensures NearestFirst(base, longer) && forall x :: x in longer <==> x in order || x == r
  {
    hide Latency, NearestFirst;
    var k := |order|;
    while k > 0 && Latency(base, r) < Latency(base, order[k - 1])
      invariant 0 <= k <= |order|
      invariant k < |order| ==> Latency(base, r) < Latency(base, order[k])
    {
      k := k - 1;
    }
    if k > 0 {
      assert order[k - 1] in order;
      LatenciesDiffer(base, r, order[k - 1]);
    }
    longer := order[..k] + [r] + order[k..];
    InsertedInPlace(base, order, r, k);
    assert order == order[..k] + order[k..];
  }

  lemma InsertedInPlace(base: Region, order: seq<Region>, r: Region, k: nat)
    requires NearestFirst(base, order) && k <= |order|
    requires k > 0 ==> Latency(base, order[k - 1]) < Latency(base, r)
    requires k < |order| ==> Latency(base, r) < Latency(base, order[k])
    ensures NearestFirst(base, order[..k] + [r] + order[k..])
  {
    hide Latency;
    var longer := order[..k] + [r] + order[k..];
    forall i, j | 0 <= i < j < |longer| ensures Latency(base, longer[i]) < Latency(base, longer[j]) {
      if j < k {
        assert longer[i] == order[i] && longer[j] == order[j];
      } else if j == k {
        assert longer[i] == order[i] && longer[j] == r;
      } else if i == k {
        assert longer[i] == r && longer[j] == order[j - 1];
      } else if i < k {
        assert longer[i] == order[i] && longer[j] == order[j - 1];
      } else {
        assert longer[i] == order[i - 1] && longer[j] == order[j - 1];
      }
    }
  }

  // ---- Scheduling within one list of nodes ----

  function Score(n: NodeInfo): real {
    (100.0 - n.cpu) * 0.4 + (100.0 - n.memory) * 0.3 + (100.0 - n.disk) * 0.3
  }

  predicate Available(n: NodeInfo) {
    n.status != "dead" && n.status != "draining"
  }

  predicate Overloaded(n: NodeInfo) {
    n.status == "overloaded"
  }

  ghost predicate AnyAvailable(nodes: seq<NodeInfo>) {
    exists n :: n in nodes && Available(n)
  }

  /** Available nodes that are not overloaded; the overloaded ones only if there are no others. */
  ghost predicate Preferred(nodes: seq<NodeInfo>, n: NodeInfo) {
    n in nodes && Available(n) && (Overloaded(n) ==> forall m :: m in nodes && Available(m) ==> Overloaded(m))
  }

  /** The first of the preferred nodes with the highest score. */
  ghost predicate IsChoice(nodes: seq<NodeInfo>, i: nat) {
    && i < |nodes| && Preferred(nodes, nodes[i])
    && forall j :: 0 <= j < |nodes| && Preferred(nodes, nodes[j]) ==>
         Score(nodes[j]) <= Score(nodes[i]) && (j < i ==> Score(nodes[j]) < Score(nodes[i]))
  }

  datatype NodeScore = NodeScore(nodeId: string, score: real, status: string)

  function ScoreOf(n: NodeInfo): NodeScore {
    NodeScore(n.id, Score(n), n.status)
  }

  /** The available nodes of one kind, in order. */
  function Candidates(nodes: seq<NodeInfo>, overloaded: bool): seq<NodeInfo> {
    if nodes == [] then []
    else
      var front, last := nodes[..|nodes| - 1], nodes[|nodes| - 1];
      Candidates(front, overloaded) + if Available(last) && Overloaded(last) == overloaded then [last] else []
  }

  /** The first highest-scored of a list. */
  method PickBest(nodes: seq<NodeInfo>) returns (best: nat)
    requires nodes != []
    ensures best < |nodes|
    ensures forall j :: 0 <= j < |nodes| ==>
              Score(nodes[j]) <= Score(nodes[best]) && (j < best ==> Score(nodes[j]) < Score(nodes[best]))
  {
    hide Score;
    best := 0;
    for i := 1 to |nodes|
      invariant best < i
      invariant forall j :: 0 <= j < i ==>
                  Score(nodes[j]) <= Score(nodes[best]) && (j < best ==> Score(nodes[j]) < Score(nodes[best]))
    {
      if Score(nodes[i]) > Score(nodes[best]) { best := i; }
    }
  }

  /** Where the candidates sit in the node list. */
  lemma {:induction false} CandidatesSit(nodes: seq<NodeInfo>, overloaded: bool) returns (at: seq<nat>)
    ensures var cs := Candidates(nodes, overloaded);
      && |at| == |cs|
      && (forall k :: 0 <= k < |at| ==> at[k] < |nodes| && nodes[at[k]] == cs[k])
      && (forall k, l :: 0 <= k < l < |at| ==> at[k] < at[l])
      && (forall i :: 0 <= i < |nodes| && Available(nodes[i]) && Overloaded(nodes[i]) == overloaded ==> i in at)
      && (forall k :: 0 <= k < |cs| ==> Available(cs[k]) && Overloaded(cs[k]) == overloaded)
  {
    hide Available, Overloaded;
    at := [];
    if nodes != [] {
      var front, last := nodes[..|nodes| - 1], nodes[|nodes| - 1];
      var before := CandidatesSit(front, overloaded);
      at := before;
      if Available(last) && Overloaded(last) == overloaded {
        at := before + [|nodes| - 1];
        assert forall i :: i in at <==> i in before || i == |nodes| - 1;
      }
    }
  }

  /** Without candidates of the other kind, being preferred is being a candidate. */
  lemma PreferredAre(nodes: seq<NodeInfo>, overloaded: bool)
    requires overloaded ==> Candidates(nodes, false) == []
    requires Candidates(nodes, overloaded) != []
    ensures forall n :: n in nodes ==> (Preferred(nodes, n) <==> Available(n) && Overloaded(n) == overloaded)
  {
    hide Available, Overloaded, Candidates;
    var at := CandidatesSit(nodes, overloaded);
    var others := CandidatesSit(nodes, false);
    assert nodes[at[0]] in nodes;
    forall m | m in nodes && Available(m) && overloaded ensures Overloaded(m) {
      var j :| 0 <= j < |nodes| && nodes[j] == m;
      assert !Overloaded(nodes[j]) ==> j in others;
    }
  }

  /** A best candidate of the preferred kind is the choice for the whole list. */
  lemma BestIsChoice(nodes: seq<NodeInfo>, overloaded: bool, best: nat) returns (i: nat)
    requires var cs := Candidates(nodes, overloaded);
      && best < |cs|
      && forall j :: 0 <= j < |cs| ==> Score(cs[j]) <= Score(cs[best]) && (j < best ==> Score(cs[j]) < Score(cs[best]))
    requires overloaded ==> Candidates(nodes, false) == []
    ensures IsChoice(nodes, i) && nodes[i] == Candidates(nodes, overloaded)[best]
  {
    hide Score, Available, Overloaded, Candidates, Preferred;
    var cs := Candidates(nodes, overloaded);
    var at := CandidatesSit(nodes, overloaded);
    PreferredAre(nodes, overloaded);
    i := at[best];
    assert nodes[i] in nodes;
    forall j | 0 <= j < |nodes| && Preferred(nodes, nodes[j])
      ensures Score(nodes[j]) <= Score(nodes[i]) && (j < i ==> Score(nodes[j]) < Score(nodes[i]))
    {
      assert nodes[j] in nodes;
      assert j in at;
      var k :| 0 <= k < |at| && at[k] == j;
      assert nodes[j] == cs[k];
      if j < i { assert k < best; }
    }
  }

  /** `i` is a choice in terms of statuses and resources: neither dead nor draining, overloaded only if every other such
      node is, and of that kind the first with the least weighted use of CPU, memory and disk. */
  ghost predicate LeastLoaded(nodes: seq<NodeInfo>, i: nat) {
    && i < |nodes| && nodes[i].status != "dead" && nodes[i].status != "draining"
    && forall j :: 0 <= j < |nodes| && nodes[j].status != "dead" && nodes[j].status != "draining" ==>
         var a, b := nodes[i], nodes[j];
         && (a.status == "overloaded" ==> b.status == "overloaded")
         && (a.status == "overloaded" || b.status != "overloaded" ==>
               && 4.0 * a.cpu + 3.0 * a.memory + 3.0 * a.disk <= 4.0 * b.cpu + 3.0 * b.memory + 3.0 * b.disk
               && (j < i ==>
                     4.0 * a.cpu + 3.0 * a.memory + 3.0 * a.disk < 4.0 * b.cpu + 3.0 * b.memory + 3.0 * b.disk))
  }

  lemma ChoiceIsLeastLoaded(nodes: seq<NodeInfo>, i: nat)
    requires IsChoice(nodes, i)
    ensures LeastLoaded(nodes, i)
  {
    assert forall j :: 0 <= j < |nodes| ==> nodes[j] in nodes;
    assert Preferred(nodes, nodes[i]);
    forall j | 0 <= j < |nodes| && nodes[j].status != "dead" && nodes[j].status != "draining" &&
               (nodes[i].status == "overloaded" || nodes[j].status != "overloaded")
      ensures Preferred(nodes, nodes[j])
    {
    }
  }

  lemma ScoreIs(n: NodeInfo)
    ensures ScoreOf(n) == NodeScore(n.id, 100.0 - (4.0 * n.cpu + 3.0 * n.memory + 3.0 * n.disk) / 10.0, n.status)
  {
  }

  /** Fails exactly when every node is dead or draining; otherwise returns the first best preferred node. */
  method ScheduleNode(nodes: seq<NodeInfo>) returns (result: Option<NodeScore>)
    ensures result.Some? <==> AnyAvailable(nodes)
    ensures result.Some? <==> exists n :: n in nodes && n.status != "dead" && n.status != "draining"
    ensures result.Some? ==>
      exists i: nat :: IsChoice(nodes, i) && LeastLoaded(nodes, i) && result.value == ScoreOf(nodes[i])
  {
    AvailableByStatus(nodes);
    hide Score, Available, Overloaded, Preferred, IsChoice, LeastLoaded;
    var nonOverloaded, overloaded: seq<NodeInfo> := [], [];
    for i := 0 to |nodes|
      invariant nonOverloaded == Candidates(nodes[..i], false) && overloaded == Candidates(nodes[..i], true)
    {
      assert nodes[..i + 1][..i] == nodes[..i];
      if !Available(nodes[i]) { continue; }
      if Overloaded(nodes[i]) {
        overloaded := overloaded + [nodes[i]];
      } else {
        nonOverloaded := nonOverloaded + [nodes[i]];
      }
    }
    assert nodes[..|nodes|] == nodes;
    if |nonOverloaded| > 0 {
      var best := PickBest(nonOverloaded);
      ghost var i := BestIsChoice(nodes, false, best);
      ChoiceAvailable(nodes, i);
      return Some(ScoreOf(nonOverloaded[best]));
    }
    if |overloaded| > 0 {
      var best := PickBest(overloaded);
      ghost var i := BestIsChoice(nodes, true, best);
      ChoiceAvailable(nodes, i);
      return Some(ScoreOf(overloaded[best]));
    }
    NoneAvailable(nodes);
    return None;
  }

  lemma AvailableByStatus(nodes: seq<NodeInfo>)
    ensures AnyAvailable(nodes) <==> exists n :: n in nodes && n.status != "dead" && n.status != "draining"
  {
  }

  lemma ChoiceAvailable(nodes: seq<NodeInfo>, i: nat)
    requires IsChoice(nodes, i)
    ensures AnyAvailable(nodes) && LeastLoaded(nodes, i)
  {
    assert nodes[i] in nodes;
    ChoiceIsLeastLoaded(nodes, i);
  }

  lemma NoneAvailable(nodes: seq<NodeInfo>)
    requires Candidates(nodes, false) == [] && Candidates(nodes, true) == []
    ensures !AnyAvailable(nodes)
  {
    hide Available, Overloaded, Candidates;
    var at0 := CandidatesSit(nodes, false);
    var at1 := CandidatesSit(nodes, true);
    forall n | n in nodes ensures !Available(n) {
      var i :| 0 <= i < |nodes| && nodes[i] == n;
      assert i !in at0 && i !in at1;
    }
  }

  // ---- Scheduling by region ----

  function InRegion(nodes: seq<NodeInfo>, r: Region): seq<NodeInfo> {
    if nodes == [] then []
    else
      var front, last := nodes[..|nodes| - 1], nodes[|nodes| - 1];
      InRegion(front, r) + if InferNodeRegion(last) == r then [last] else []
  }

  lemma {:induction false} InRegionAre(nodes: seq<NodeInfo>, r: Region)
    ensures forall n :: n in InRegion(nodes, r) <==> n in nodes && InferNodeRegion(n) == r
  {
    hide InferNodeRegion;
    if nodes != [] {
      InRegionAre(nodes[..|nodes| - 1], r);
      assert nodes == nodes[..|nodes| - 1] + [nodes[|nodes| - 1]];
    }
  }

  datatype RegionResult = RegionResult(node: NodeScore, served: Region, fallbackUsed: bool)

  /** Succeeds exactly when some node at all is available. The served region has no nearer region with an available
      node, the node is the choice among its region's nodes, and a fallback is reported exactly when another region is
      served. */
  method ScheduleNodeWithRegionFallback(nodes: seq<NodeInfo>, preferredRegion: string)
    returns (result: Option<RegionResult>)
    ensures var base := BaseRegion(if preferredRegion == "" then India.Name() else preferredRegion);
      && (result.Some? <==> AnyAvailable(nodes))
      && (result.Some? ==>
            && (exists i: nat ::
                  var local := InRegion(nodes, result.value.served);
                  IsChoice(local, i) && LeastLoaded(local, i) && result.value.node == ScoreOf(local[i]))
            && (forall n :: n in nodes && Available(n) ==>
                  Latency(base, result.value.served) <= Latency(base, InferNodeRegion(n)))
            && (result.value.fallbackUsed <==> result.value.served != base))
  {
    hide InferNodeRegion, BaseRegion, Latency, IsChoice, LeastLoaded, Available, Score;
    var preferred := if preferredRegion == "" then India.Name() else preferredRegion;
    ghost var base := BaseRegion(preferred);
    var byRegion := GroupByRegion(nodes);
    var order := GetFallbackRegions(preferred);
    BaseIsFirst(base, order);
    for i := 0 to |order|
      invariant forall j :: 0 <= j < i ==> !AnyAvailable(InRegion(nodes, order[j]))
    {
      var regNodes := byRegion[order[i]];
      var score := ScheduleNode(regNodes);
      if score.Some? {
        NearestServed(nodes, base, order, i);
        return Some(RegionResult(score.value, order[i], i > 0));
      }
    }
    NowhereAvailable(nodes, base, order);
    return None;
  }

  method GroupByRegion(nodes: seq<NodeInfo>) returns (byRegion: map<Region, seq<NodeInfo>>)
    ensures forall r: Region :: r in byRegion && byRegion[r] == InRegion(nodes, r)
  {
    hide InferNodeRegion;
    byRegion := map[India := [], UsEast := [], UsWest := [], Europe := [], Japan := []];
    forall r: Region ensures r in byRegion && byRegion[r] == [] {
      match r case India => case UsEast => case UsWest => case Europe => case Japan =>
    }
    assert nodes[..0] == [];
    for i := 0 to |nodes|
      invariant forall r: Region :: r in byRegion && byRegion[r] == InRegion(nodes[..i], r)
    {
      assert nodes[..i + 1][..i] == nodes[..i];
      var reg := InferNodeRegion(nodes[i]);
      byRegion := byRegion[reg := byRegion[reg] + [nodes[i]]];
    }
    assert nodes[..|nodes|] == nodes;
  }

  lemma NearestServed(nodes: seq<NodeInfo>, base: Region, order: seq<Region>, i: nat)
    requires IsFallbackOrder(base, order) && i < |order| && AnyAvailable(InRegion(nodes, order[i]))
    requires forall j :: 0 <= j < i ==> !AnyAvailable(InRegion(nodes, order[j]))
    ensures AnyAvailable(nodes)
    ensures forall n :: n in nodes && Available(n) ==> Latency(base, order[i]) <= Latency(base, InferNodeRegion(n))
  {
    hide InferNodeRegion, Latency, Available, InRegion;
    InRegionAre(nodes, order[i]);
    forall n | n in nodes && Available(n) ensures Latency(base, order[i]) <= Latency(base, InferNodeRegion(n)) {
      assert InferNodeRegion(n) in order;
      var k :| 0 <= k < |order| && order[k] == InferNodeRegion(n);
      InRegionAre(nodes, order[k]);
      assert n in InRegion(nodes, order[k]);
    }
  }

  lemma NowhereAvailable(nodes: seq<NodeInfo>, base: Region, order: seq<Region>)
    requires IsFallbackOrder(base, order)
    requires forall j :: 0 <= j < |order| ==> !AnyAvailable(InRegion(nodes, order[j]))
    ensures !AnyAvailable(nodes)
  {
    hide InferNodeRegion, Latency, Available, InRegion;
    forall n | n in nodes ensures !Available(n) {
      assert InferNodeRegion(n) in order;
      var k :| 0 <= k < |order| && order[k] == InferNodeRegion(n);
      InRegionAre(nodes, order[k]);
      assert n in InRegion(nodes, order[k]);
    }
  }
}
