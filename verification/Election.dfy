/** Leader election (services/control-plane/election/election.go), and its composition with replication. */
module Election {
  import opened Prelude
  import opened Bytes
  import opened LogFormat
  import Replication

  datatype RegionStatus = Healthy | Degraded | Down

  datatype Candidate = Candidate(region: string, nodeId: string, appliedLsn: u64)

  datatype ElectionResult = ElectionResult(region: string, nodeId: string, appliedLsn: u64)

  function ResultOf(c: Candidate): ElectionResult {
    ElectionResult(ToLower(c.region), c.nodeId, c.appliedLsn)
  }

  function Priority(region: string): nat {
    match ToLower(region)
    case "india" => 1
    case "us-east" => 2
    case "us-west" => 3
    case "europe" => 4
    case "japan" => 5
    case _ => 99
  }

  /** A region without a health entry counts as down. */
  predicate Eligible(c: Candidate, health: map<string, RegionStatus>) {
    var name := ToLower(c.region);
    name in health && health[name] != Down
  }

  /** The sort's comparison: higher LSN first, then lower priority number. */
  predicate Before(a: Candidate, b: Candidate) {
    if a.appliedLsn != b.appliedLsn then a.appliedLsn > b.appliedLsn else Priority(a.region) < Priority(b.region)
  }

  predicate Ties(a: Candidate, b: Candidate) {
    a.appliedLsn == b.appliedLsn && Priority(a.region) == Priority(b.region)
  }

  ghost predicate Sorted(s: seq<Candidate>) {
    forall i, j :: 0 <= i < j < |s| ==> !Before(s[j], s[i])
  }

  function EligibleOf(candidates: seq<Candidate>, health: map<string, RegionStatus>): seq<Candidate> {
    if candidates == [] then []
    else
      var front, last := candidates[..|candidates| - 1], candidates[|candidates| - 1];
      EligibleOf(front, health) + if Eligible(last, health) then [last] else []
  }

  lemma {:induction false} EligibleOfAre(candidates: seq<Candidate>, health: map<string, RegionStatus>)
    ensures forall c :: c in EligibleOf(candidates, health) <==> c in candidates && Eligible(c, health)
  {
    hide Eligible;
    if candidates != [] {
      EligibleOfAre(candidates[..|candidates| - 1], health);
      assert candidates == candidates[..|candidates| - 1] + [candidates[|candidates| - 1]];
    }
  }

  /** Stands for `sort.Slice`, which puts equal candidates in any order; the results below hold for every sorted order.
      */
  method SortCandidates(s: seq<Candidate>) returns (t: seq<Candidate>)
    ensures multiset(t) == multiset(s) && Sorted(t)
  {
    hide Before;
    t := [];
    for i := 0 to |s|
      invariant multiset(t) == multiset(s[..i]) && Sorted(t)
    {
      t := InsertCandidate(t, s[i]);
      assert s[..i + 1] == s[..i] + [s[i]];
    }
    assert s[..|s|] == s;
  }

  method InsertCandidate(s: seq<Candidate>, c: Candidate) returns (t: seq<Candidate>)
    requires Sorted(s)
    ensures multiset(t) == multiset(s) + multiset{c} && Sorted(t)
  {
    hide Before, Sorted;
    var k := |s|;
    while k > 0 && Before(c, s[k - 1])
      invariant 0 <= k <= |s|
      invariant k < |s| ==> Before(c, s[k])
    {
      k := k - 1;
    }
    t := s[..k] + [c] + s[k..];
    InsertedSorted(s, c, k);
    assert s == s[..k] + s[k..];
  }

  lemma InsertedSorted(s: seq<Candidate>, c: Candidate, k: nat)
    requires Sorted(s) && k <= |s|
    requires k > 0 ==> !Before(c, s[k - 1])
    requires k < |s| ==> Before(c, s[k])
    ensures Sorted(s[..k] + [c] + s[k..])
  {
    hide Before;
    var t := s[..k] + [c] + s[k..];
    forall i, j | 0 <= i < j < |t| ensures !Before(t[j], t[i]) {
      if j < k {
        assert t[i] == s[i] && t[j] == s[j];
      } else if j == k {
        assert t[i] == s[i] && t[j] == c;
        if i < k - 1 { NotBeforeTransitive(c, s[k - 1], s[i]); }
      } else if i == k {
        assert t[i] == c && t[j] == s[j - 1];
        BeforeAsymmetric(c, s[k]);
        if j - 1 > k { NotBeforeTransitive(s[j - 1], s[k], c); }
      } else {
        assert t[j] == s[j - 1] && t[i] == if i < k then s[i] else s[i - 1];
      }
    }
  }

  lemma NotBeforeTransitive(a: Candidate, b: Candidate, c: Candidate)
    requires !Before(a, b) && !Before(b, c)
    ensures !Before(a, c)
  {
    hide Priority;
  }

  lemma BeforeAsymmetric(a: Candidate, b: Candidate)
    requires Before(a, b)
    ensures !Before(b, a)
  {
    hide Priority;
  }

  method ElectNewLeaderRegion(candidates: seq<Candidate>, health: map<string, RegionStatus>)
    returns (result: Option<ElectionResult>)
    ensures result.None? <==> forall c :: c in candidates ==> !Eligible(c, health)
    ensures result.None? <==> forall c :: c in candidates ==> !HealthyOrDegraded(c, health)
    ensures result.Some? ==>
      exists best :: IsBest(candidates, health, best) && WinsByName(candidates, health, best) &&
                     result.value == ElectionResult(ToLower(best.region), best.nodeId, best.appliedLsn)
  {
    hide Eligible, HealthyOrDegraded, WinsByName, Before, ToLower;
    forall c ensures Eligible(c, health) <==> HealthyOrDegraded(c, health) { EligibleByStatus(c, health); }
    var eligible := [];
    for i := 0 to |candidates|
      invariant eligible == EligibleOf(candidates[..i], health)
    {
      assert candidates[..i + 1][..i] == candidates[..i];
      if Eligible(candidates[i], health) {
        eligible := eligible + [candidates[i]];
      }
    }
    assert candidates[..|candidates|] == candidates;
    EligibleOfAre(candidates, health);
    if |eligible| == 0 { return None; }
    assert eligible[0] in eligible;
    var sorted := SortCandidates(eligible);
    FirstIsBest(candidates, health, sorted);
    BestByName(candidates, health, sorted[0]);
    return Some(ResultOf(sorted[0]));
  }

  /** The candidate's region is listed as healthy or degraded. */
  predicate HealthyOrDegraded(c: Candidate, health: map<string, RegionStatus>) {
    var name := ToLower(c.region);
    name in health && (health[name] == Healthy || health[name] == Degraded)
  }

  lemma EligibleByStatus(c: Candidate, health: map<string, RegionStatus>)
    ensures Eligible(c, health) <==> HealthyOrDegraded(c, health)
  {
  }

  /** The tie-breaking order, by name; regions with other names come after all of these. */
  const TIE_ORDER := ["india", "us-east", "us-west", "europe", "japan"]

  /** `a` has a name in the order and `b` has none of those up to it. */
  ghost predicate EarlierName(a: string, b: string) {
    exists i :: 0 <= i < 5 && TIE_ORDER[i] == a && forall j :: 0 <= j <= i ==> TIE_ORDER[j] != b
  }

  lemma PriorityByName(a: string, b: string)
    ensures Priority(a) < Priority(b) <==> EarlierName(ToLower(a), ToLower(b))
  {
    var x, y := ToLower(a), ToLower(b);
    assert TIE_ORDER[0] == "india" && TIE_ORDER[1] == "us-east" && TIE_ORDER[2] == "us-west";
    assert TIE_ORDER[3] == "europe" && TIE_ORDER[4] == "japan";
    TieNamesDiffer();
    PriorityIs(a);
    PriorityIs(b);
  }

  lemma TieNamesDiffer()
    ensures forall i, j :: 0 <= i < j < 5 ==> TIE_ORDER[i] != TIE_ORDER[j]
  {
    assert |"india"| == 5 && |"us-east"| == 7 && |"us-west"| == 7 && |"europe"| == 6 && |"japan"| == 5;
    assert "india"[0] == 'i' && "japan"[0] == 'j' && "us-east"[3] == 'e' && "us-west"[3] == 'w';
  }

  lemma PriorityIs(region: string)
    ensures forall i :: 0 <= i < 5 && TIE_ORDER[i] == ToLower(region) ==> Priority(region) == i + 1
    ensures (forall i :: 0 <= i < 5 ==> TIE_ORDER[i] != ToLower(region)) ==> Priority(region) == 99
  {
    hide ToLower;
    TieNamesDiffer();
    assert TIE_ORDER[0] == "india" && TIE_ORDER[1] == "us-east" && TIE_ORDER[2] == "us-west";
    assert TIE_ORDER[3] == "europe" && TIE_ORDER[4] == "japan";
  }

  /** The highest LSN of all candidates in healthy or degraded regions; among those with it, no region named earlier. */
  ghost predicate WinsByName(candidates: seq<Candidate>, health: map<string, RegionStatus>, best: Candidate) {
    && best in candidates && HealthyOrDegraded(best, health)
    && forall c :: c in candidates && HealthyOrDegraded(c, health) ==>
         c.appliedLsn < best.appliedLsn ||
         (c.appliedLsn == best.appliedLsn && !EarlierName(ToLower(c.region), ToLower(best.region)))
  }

  lemma BestByName(candidates: seq<Candidate>, health: map<string, RegionStatus>, best: Candidate)
    requires IsBest(candidates, health, best)
    ensures WinsByName(candidates, health, best)
  {
    hide Priority, Eligible, HealthyOrDegraded, EarlierName, ToLower;
    forall c ensures Eligible(c, health) <==> HealthyOrDegraded(c, health) { EligibleByStatus(c, health); }
    forall c | c in candidates && HealthyOrDegraded(c, health)
      ensures c.appliedLsn < best.appliedLsn ||
              (c.appliedLsn == best.appliedLsn && !EarlierName(ToLower(c.region), ToLower(best.region)))
    {
      PriorityByName(c.region, best.region);
    }
  }

  /** An eligible candidate that no eligible candidate comes before. */
  ghost predicate IsBest(candidates: seq<Candidate>, health: map<string, RegionStatus>, best: Candidate) {
    && best in candidates && Eligible(best, health)
    && forall c :: c in candidates && Eligible(c, health) ==> !Before(c, best)
  }

  /** Whatever order the sort leaves ties in, its first element is a best candidate. */
  lemma FirstIsBest(candidates: seq<Candidate>, health: map<string, RegionStatus>, sorted: seq<Candidate>)
    requires multiset(sorted) == multiset(EligibleOf(candidates, health)) && Sorted(sorted) && sorted != []
    ensures IsBest(candidates, health, sorted[0])
  {
    hide Eligible, Priority;
    EligibleOfAre(candidates, health);
    var eligible := EligibleOf(candidates, health);
    assert forall c :: c in eligible <==> c in multiset(eligible);
    assert forall c :: c in sorted <==> c in multiset(sorted);
    assert sorted[0] in sorted;
    forall c | c in candidates && Eligible(c, health) ensures !Before(c, sorted[0]) {
      assert c in sorted;
    }
  }

  /** Any two outcomes agree on LSN and region priority. So the outcome is one candidate, however ties are sorted,
      exactly when no other eligible candidate has that LSN and priority. */
  lemma OutcomeUnique(candidates: seq<Candidate>, health: map<string, RegionStatus>, best: Candidate)
    requires IsBest(candidates, health, best)
    ensures (forall other :: IsBest(candidates, health, other) ==> other == best) <==>
      (forall c :: c in candidates && Eligible(c, health) && Ties(c, best) ==> c == best)
    ensures forall other :: IsBest(candidates, health, other) ==> Ties(other, best)
  {
    hide Eligible, Priority;
    forall other | IsBest(candidates, health, other) ensures Ties(other, best) {
      assert !Before(best, other) && !Before(other, best);
    }
    forall c | c in candidates && Eligible(c, health) && Ties(c, best) ensures IsBest(candidates, health, c) {
    }
  }

  // ---- Replication and election together ----

  /** The candidate is a follower of the leader's log from its first record, and reports the last LSN of its log. */
  ghost predicate ReportsTruly(s: Replication.System, c: Candidate) {
    Replication.Founder(s, c.nodeId) && c.appliedLsn == |Replication.StreamOf(s.logs, c.nodeId)|
  }

  /** In every run of the replication protocol: the elected follower's log extends the log of every eligible candidate,
      is a prefix of the old leader's, and holds every record whose `replicate_record` returned non-degraded with at
      least one follower and unchanged membership. */
  lemma ElectedLeaderLosesNothing(
    lib: Lib, events: seq<Replication.Event>, candidates: seq<Candidate>,
    health: map<string, RegionStatus>, best: Candidate)
    requires Replication.CanRun(lib, Replication.INITIAL, events)
    requires var s := Replication.Run(lib, Replication.INITIAL, events);
      forall c :: c in candidates ==> ReportsTruly(s, c)
    requires IsBest(candidates, health, best)
    ensures var s := Replication.Run(lib, Replication.INITIAL, events);
      var log := Replication.StreamOf(s.logs, best.nodeId);
      && log <= s.leader
      && (forall c :: c in candidates && Eligible(c, health) ==> Replication.StreamOf(s.logs, c.nodeId) <= log)
      && (forall lsn :: lsn in s.safe ==> 1 <= lsn <= |log| && log[lsn - 1] == s.leader[lsn - 1])
  {
    hide Eligible, Priority, Replication.Run, Replication.CanRun;
    var s := Replication.Run(lib, Replication.INITIAL, events);
    assert ReportsTruly(s, best);
    Replication.InitialInv(lib);
    Replication.RunKeepsInv(lib, Replication.INITIAL, events);
    Replication.FounderConverges(lib, events, best.nodeId);
    forall c | c in candidates && Eligible(c, health)
      ensures Replication.StreamOf(s.logs, c.nodeId) <= Replication.StreamOf(s.logs, best.nodeId)
    {
      assert ReportsTruly(s, c) && !Before(c, best);
      Replication.FounderConverges(lib, events, c.nodeId);
    }
  }
}
