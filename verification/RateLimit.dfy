/** The per-client rate limiter (services/auth-service/auth/ratelimit.go). Times and windows are in nanoseconds. */
module RateLimit {
  datatype Rule = Rule(maxRequests: int, window: int)

  datatype Bucket = Bucket(tokens: int, maxTokens: int, lastRefill: int, refillRate: int)

  const READ_ONLY := "read-only"

  /** An unknown role gets the read-only rule; a missing read-only rule reads as the zero rule. */
  function RuleFor(rules: map<string, Rule>, role: string): Rule {
    if role in rules then rules[role] else if READ_ONLY in rules then rules[READ_ONLY] else Rule(0, 0)
  }

  function NewBucket(rule: Rule, now: int): Bucket {
    Bucket(rule.maxRequests - 1, rule.maxRequests, now, rule.window)
  }

  function Refilled(b: Bucket, now: int): Bucket {
    if now - b.lastRefill >= b.refillRate then b.(tokens := b.maxTokens, lastRefill := now) else b
  }

  predicate Admits(b: Bucket, now: int) {
    Refilled(b, now).tokens > 0
  }

  function AfterRequest(b: Bucket, now: int): Bucket {
    var r := Refilled(b, now);
    if r.tokens > 0 then r.(tokens := r.tokens - 1) else r
  }

  class RateLimiter {
    const rules: map<string, Rule>
    var buckets: map<string, Bucket>

    constructor (rules: map<string, Rule>)
      ensures this.rules == rules && buckets == map[]
    {
      this.rules := rules;
      buckets := map[];
    }

    /** A client's first request is always admitted, and fixes its rule. */
    method Allow(key: string, role: string, now: int) returns (ok: bool)
      modifies this
      ensures buckets == Served(rules, old(buckets), Request(key, role, now))
      ensures ok == Granted(old(buckets), Request(key, role, now))
    {
      var rule := if role in rules then rules[role] else if READ_ONLY in rules then rules[READ_ONLY] else Rule(0, 0);
      if key !in buckets {
        buckets := buckets[key := Bucket(rule.maxRequests - 1, rule.maxRequests, now, rule.window)];
        return true;
      }
      var b := buckets[key];
      if now - b.lastRefill >= b.refillRate {
        b := b.(tokens := b.maxTokens, lastRefill := now);
      }
      ok := b.tokens > 0;
      if ok {
        b := b.(tokens := b.tokens - 1);
      }
      buckets := buckets[key := b];
    }
  }

  // ---- Runs ----

  datatype Request = Request(key: string, role: string, now: int)

  function Served(rules: map<string, Rule>, buckets: map<string, Bucket>, r: Request): map<string, Bucket> {
    if r.key in buckets then buckets[r.key := AfterRequest(buckets[r.key], r.now)]
    else buckets[r.key := NewBucket(RuleFor(rules, r.role), r.now)]
  }

  predicate Granted(buckets: map<string, Bucket>, r: Request) {
    r.key in buckets ==> Admits(buckets[r.key], r.now)
  }

  function BucketsAfter(rules: map<string, Rule>, rs: seq<Request>): map<string, Bucket> {
    if rs == [] then map[] else Served(rules, BucketsAfter(rules, rs[..|rs| - 1]), rs[|rs| - 1])
  }

  /** How many of client `key`'s requests with a time in [from, to) are admitted. */
  function Admissions(rules: map<string, Rule>, rs: seq<Request>, key: string, from: int, to: int): nat {
    if rs == [] then 0
    else
      var front, r := rs[..|rs| - 1], rs[|rs| - 1];
      Admissions(rules, front, key, from, to) +
      if r.key == key && from <= r.now < to && Granted(BucketsAfter(rules, front), r) then 1 else 0
  }

  ghost predicate ClockForward(rs: seq<Request>) {
    forall i, j :: 0 <= i < j < |rs| ==> rs[i].now <= rs[j].now
  }

  /** The client's first request, which decides its rule. */
  function FirstOf(rs: seq<Request>, key: string): (f: int)
    ensures -1 <= f < |rs|
    ensures f == -1 ==> forall r :: r in rs ==> r.key != key
    ensures f >= 0 ==> rs[f].key == key && forall i :: 0 <= i < f ==> rs[i].key != key
  {
    if rs == [] then -1
    else
      var i := FirstOf(rs[..|rs| - 1], key);
      if i >= 0 then i else if rs[|rs| - 1].key == key then |rs| - 1 else -1
  }

  /** The state of client `key` after a run: `refills` is a count of refills that explains it. */
  ghost predicate ClientInv(rules: map<string, Rule>, rs: seq<Request>, key: string, refills: nat) {
    var f, buckets := FirstOf(rs, key), BucketsAfter(rules, rs);
    && (f == -1 <==> key !in buckets)
    && (f >= 0 ==>
          var rule, b := RuleFor(rules, rs[f].role), buckets[key];
          && b.maxTokens == rule.maxRequests && b.refillRate == rule.window
          && 0 <= b.tokens <= b.maxTokens
          && b.lastRefill >= rs[f].now + refills * rule.window
          && b.lastRefill <= rs[|rs| - 1].now)
  }

  ghost predicate SaneRule(rules: map<string, Rule>, rs: seq<Request>, key: string) {
    var f := FirstOf(rs, key);
    f >= 0 ==> var rule := RuleFor(rules, rs[f].role); rule.maxRequests >= 1 && rule.window > 0
  }

  lemma OneMoreWindow(k: nat, w: int, a: int)
    ensures a + k * w + w == a + (k + 1) * w
  {
  }

  /** Refills are at least a window apart, and each hands out at most `maxRequests` tokens. */
  lemma {:induction false} AdmittedSoFar(rules: map<string, Rule>, rs: seq<Request>, key: string, from: int, to: int)
    returns (refills: nat)
    requires ClockForward(rs) && SaneRule(rules, rs, key)
    ensures ClientInv(rules, rs, key, refills)
    ensures FirstOf(rs, key) == -1 ==> Admissions(rules, rs, key, from, to) == 0
    ensures FirstOf(rs, key) >= 0 ==>
      var rule := RuleFor(rules, rs[FirstOf(rs, key)].role);
      Admissions(rules, rs, key, from, to) + BucketsAfter(rules, rs)[key].tokens <= rule.maxRequests * (refills + 1)
  {
    refills := 0;
    if rs != [] {
      var front, r := rs[..|rs| - 1], rs[|rs| - 1];
      var before := AdmittedSoFar(rules, front, key, from, to);
      refills := before;
      if FirstOf(front, key) >= 0 {
        var f := FirstOf(front, key);
        var rule := RuleFor(rules, rs[f].role);
        if r.key == key && r.now - BucketsAfter(rules, front)[key].lastRefill >= rule.window {
          refills := before + 1;
          OneMoreWindow(before, rule.window, rs[f].now);
          assert rule.maxRequests * (before + 2) == rule.maxRequests * (before + 1) + rule.maxRequests;
        }
      } else {
        refills := 0;
      }
    }
  }

  /** Within T of the client's first request at most maxRequests * (1 + T / window) are admitted. */
  lemma {:induction false} AdmissionBound(rules: map<string, Rule>, rs: seq<Request>, key: string, t: nat)
    requires ClockForward(rs) && SaneRule(rules, rs, key) && FirstOf(rs, key) >= 0
    ensures var first := rs[FirstOf(rs, key)]; var rule := RuleFor(rules, first.role);
      Admissions(rules, rs, key, first.now, first.now + t + 1) <= rule.maxRequests * (1 + t / rule.window)
    decreases |rs|
  {
    var first := rs[FirstOf(rs, key)];
    var rule := RuleFor(rules, first.role);
    var front, last := rs[..|rs| - 1], rs[|rs| - 1];
    if last.now <= first.now + t {
      var refills := AdmittedSoFar(rules, rs, key, first.now, first.now + t + 1);
      WholeWindows(refills, rule.window, t);
      Scaled(rule.maxRequests, refills + 1, 1 + t / rule.window);
    } else {
      assert FirstOf(front, key) >= 0;
      AdmissionBound(rules, front, key, t);
    }
  }

  /** Both bounds by the rules as configured: the first request's role is held to its own rule, and a role without one
      to the read-only rule. */
  lemma BoundsByRole(rules: map<string, Rule>, rs: seq<Request>, key: string, t: nat, a: int, rule: Rule)
    requires ClockForward(rs) && FirstOf(rs, key) >= 0 && rule.maxRequests >= 1 && rule.window > 0
    requires var role := rs[FirstOf(rs, key)].role;
      (role in rules && rules[role] == rule) ||
      (role !in rules && "read-only" in rules && rules["read-only"] == rule)
    ensures var first := rs[FirstOf(rs, key)].now;
      Admissions(rules, rs, key, first, first + t + 1) <= rule.maxRequests * (1 + t / rule.window)
    ensures Admissions(rules, rs, key, a, a + rule.window) <= 2 * rule.maxRequests - 1
  {
    AdmissionBound(rules, rs, key, t);
    WindowBound(rules, rs, key, a);
  }

  lemma WholeWindows(k: nat, w: int, t: nat)
    requires w > 0 && k * w <= t
    ensures k <= t / w
  {
    assert t < w * (t / w + 1);
    if k > t / w {
      Scaled(w, t / w + 1, k);
    }
  }

  lemma Scaled(m: int, a: int, b: int)
    requires m >= 0 && a <= b
    ensures m * a <= m * b
  {
  }

  /** What is spent and what is left while looking at the window of one length that starts at `a`. */
  lemma {:induction false} WindowSoFar(rules: map<string, Rule>, rs: seq<Request>, key: string, a: int, w: int)
    requires ClockForward(rs) && SaneRule(rules, rs, key)
    requires var f := FirstOf(rs, key); f >= 0 ==> w == RuleFor(rules, rs[f].role).window
    ensures exists k: nat :: ClientInv(rules, rs, key, k)
    ensures FirstOf(rs, key) == -1 || (rs != [] && rs[|rs| - 1].now < a) ==> Admissions(rules, rs, key, a, a + w) == 0
    ensures FirstOf(rs, key) >= 0 ==>
      var max, b, c := RuleFor(rules, rs[FirstOf(rs, key)].role).maxRequests, BucketsAfter(rules, rs)[key],
                       Admissions(rules, rs, key, a, a + w);
      && c <= 2 * max - 1
      && (b.lastRefill < a ==> c + b.tokens <= max - 1)
      && (a <= b.lastRefill < a + w ==> c + b.tokens <= 2 * max - 1)
  {
    var refills := AdmittedSoFar(rules, rs, key, a, a + w);
    if rs != [] {
      var front := rs[..|rs| - 1];
      WindowSoFar(rules, front, key, a, w);
    }
  }

  /** Any half-open interval of one window's length admits at most 2 * maxRequests - 1 requests. */
  lemma WindowBound(rules: map<string, Rule>, rs: seq<Request>, key: string, a: int)
    requires ClockForward(rs) && SaneRule(rules, rs, key) && FirstOf(rs, key) >= 0
    ensures var rule := RuleFor(rules, rs[FirstOf(rs, key)].role);
      Admissions(rules, rs, key, a, a + rule.window) <= 2 * rule.maxRequests - 1
  {
    WindowSoFar(rules, rs, key, a, RuleFor(rules, rs[FirstOf(rs, key)].role).window);
  }

  function Repeat(r: Request, n: nat): (rs: seq<Request>)
    ensures |rs| == n
  {
    if n == 0 then [] else Repeat(r, n - 1) + [r]
  }

  lemma RunSnoc(rules: map<string, Rule>, rs: seq<Request>, r: Request, key: string, from: int, to: int)
    ensures BucketsAfter(rules, rs + [r]) == Served(rules, BucketsAfter(rules, rs), r)
    ensures Admissions(rules, rs + [r], key, from, to) == Admissions(rules, rs, key, from, to) +
              if r.key == key && from <= r.now < to && Granted(BucketsAfter(rules, rs), r) then 1 else 0
  {
    assert (rs + [r])[..|rs|] == rs;
  }

  lemma OneGrant(rules: map<string, Rule>, buckets: map<string, Bucket>, r: Request)
    requires r.key in buckets && buckets[r.key].tokens > 0
      && r.now - buckets[r.key].lastRefill < buckets[r.key].refillRate
    ensures Granted(buckets, r)
    ensures Served(rules, buckets, r) == buckets[r.key := buckets[r.key].(tokens := buckets[r.key].tokens - 1)]
  {
  }

  /** `n` simultaneous requests that find enough tokens and no refill due are all admitted. */
  lemma {:induction false} Burst(rules: map<string, Rule>, rs: seq<Request>, r: Request, n: nat, from: int, to: int)
    requires r.key in BucketsAfter(rules, rs)
    requires var b := BucketsAfter(rules, rs)[r.key]; b.tokens >= n && r.now - b.lastRefill < b.refillRate
    ensures var after, b := rs + Repeat(r, n), BucketsAfter(rules, rs)[r.key];
      && BucketsAfter(rules, after) == BucketsAfter(rules, rs)[r.key := b.(tokens := b.tokens - n)]
      && Admissions(rules, after, r.key, from, to) ==
           Admissions(rules, rs, r.key, from, to) + if from <= r.now < to then n else 0
  {
    hide BucketsAfter, Admissions, Served, Granted;
    if n == 0 {
      assert rs + Repeat(r, 0) == rs;
    } else {
      var most := rs + Repeat(r, n - 1);
      Burst(rules, rs, r, n - 1, from, to);
      assert rs + Repeat(r, n) == most + [r];
      RunSnoc(rules, most, r, r.key, from, to);
      OneGrant(rules, BucketsAfter(rules, most), r);
    }
  }

  /** One request at time 0, the rest of the bucket just before the window ends, and a full bucket when it does. */
  function BoundaryBurst(key: string, role: string, rule: Rule): seq<Request>
    requires rule.maxRequests >= 1
  {
    [Request(key, role, 0)] + Repeat(Request(key, role, rule.window - 1), rule.maxRequests - 1) +
    [Request(key, role, rule.window)] + Repeat(Request(key, role, rule.window), rule.maxRequests - 1)
  }

  /** The bound is reached: around a refill, 2 * maxRequests - 1 requests are admitted within one window's length. */
  lemma WindowBoundIsTight(rules: map<string, Rule>, key: string, role: string)
    requires var rule := RuleFor(rules, role); rule.maxRequests >= 1 && rule.window >= 2
    ensures var rule := RuleFor(rules, role);
      Admissions(rules, BoundaryBurst(key, role, rule), key, 1, 1 + rule.window) == 2 * rule.maxRequests - 1
  {
    hide BucketsAfter, Admissions;
    var rule := RuleFor(rules, role);
    var m, w := rule.maxRequests, rule.window;
    var first, late, next := Request(key, role, 0), Request(key, role, w - 1), Request(key, role, w);
    NothingYet(rules, key, 1, 1 + w);
    RunSnoc(rules, [], first, key, 1, 1 + w);
    assert [] + [first] == [first];
    Burst(rules, [first], late, m - 1, 1, 1 + w);
    var full := [first] + Repeat(late, m - 1);
    RunSnoc(rules, full, next, key, 1, 1 + w);
    Burst(rules, full + [next], next, m - 1, 1, 1 + w);
  }

  lemma NothingYet(rules: map<string, Rule>, key: string, from: int, to: int)
    ensures BucketsAfter(rules, []) == map[] && Admissions(rules, [], key, from, to) == 0
  {
  }

  /** The first bound needs maxRequests >= 1: a client's first request is admitted whatever the rule says. */
  lemma FirstAlwaysAdmitted(rules: map<string, Rule>, r: Request)
    ensures Admissions(rules, [r], r.key, r.now, r.now + 1) == 1
    ensures Admissions(rules, [r], r.key, r.now, r.now + 1) <= RuleFor(rules, r.role).maxRequests <==>
            RuleFor(rules, r.role).maxRequests >= 1
  {
    assert [r][..0] == [];
  }
}
