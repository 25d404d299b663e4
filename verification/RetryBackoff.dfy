/**
  Retry delays of one queue: capped exponential backoff with jitter buckets.
  Delays are u64 milliseconds; the saturating operations are written out, and the jitter
  ratio is an exact real.
  */
module RetryBackoff {
  import opened Wrappers
  import opened Sequences

  const U64_MAX: nat := 0xFFFF_FFFF_FFFF_FFFF

  function Min(a: nat, b: nat): nat { if a <= b then a else b }

  function Max(a: nat, b: nat): nat { if a <= b then b else a }

  function Clamp(x: nat, low: nat, high: nat): nat
    requires low <= high
  {
    Max(low, Min(x, high))
  }

  function SaturatingSub(a: nat, b: nat): nat { if b <= a then a - b else 0 }

  function SaturatingAdd(a: nat, b: nat): nat { Min(a + b, U64_MAX) }

  function SaturatingMul(a: nat, b: nat): nat { Min(a * b, U64_MAX) }

  function Pow2(n: nat): nat { if n == 0 then 1 else 2 * Pow2(n - 1) }

  /** Shifting one left fails when the amount is not below the width of the integer. */
  function CheckedShiftOne(amount: nat): Option<nat> {
    if amount < 64 then Some(Pow2(amount)) else None
  }

  /** Rounds half away from zero, for non-negative arguments. */
  function Round(x: real): nat
    requires x >= 0.0
  {
    (x + 0.5).Floor
  }

  datatype Policy = Policy(base: nat, cap: nat, ratio: real, attempts: nat)

  /** The bounds that queue validation enforces before any delay is computed. */
  predicate ValidPolicy(p: Policy) {
    100 <= p.base <= 300_000 && p.base <= p.cap <= 900_000 && 0.0 <= p.ratio <= 0.5 && p.attempts <= 100
  }

  function Nominal(p: Policy, retry: nat): nat {
    var exponent := Min(SaturatingSub(retry, 1), 31);
    var multiplier := match CheckedShiftOne(exponent) case Some(m) => m case None => U64_MAX;
    Min(SaturatingMul(p.base, multiplier), p.cap)
  }

  function Spread(p: Policy, nominal: nat): nat
    requires p.ratio >= 0.0
  {
    Round(nominal as real * p.ratio)
  }

  // ---------------------------------------------------------------- the nominal delay

  lemma {:induction false} Pow2Monotone(m: nat, n: nat)
    requires m <= n
    ensures 1 <= Pow2(m) <= Pow2(n)
    decreases n
  {
    if m < n { Pow2Monotone(m, n - 1); } else if n > 0 { Pow2Monotone(m - 1, n - 1); }
  }

  lemma Pow2At14()
    ensures Pow2(14) == 16384
  {
  }

  lemma Pow2At31()
    ensures Pow2(31) == 0x8000_0000
  {
    Pow2At14();
    assert Pow2(19) == 0x8_0000;
    assert Pow2(25) == 0x200_0000;
  }

  lemma MulMonotone(a: nat, b: nat, x: nat, y: nat)
    requires a <= b && x <= y
    ensures a * x <= b * y
  {
  }

  /** The saturating product never saturates. */
  lemma ProductFits(base: nat, e: nat)
    requires base <= 300_000 && e <= 31
    ensures base <= base * Pow2(e) < U64_MAX
  {
    Pow2At31();
    Pow2Monotone(e, 31);
    MulMonotone(base, 300_000, Pow2(e), 0x8000_0000);
    MulMonotone(base, base, 1, Pow2(e));
  }

  /**
    The shifted, saturating and exponent-capped computation is exactly the capped power, for
    every attempt.
    */
  lemma NominalIsCappedPower(p: Policy, retry: nat)
    requires ValidPolicy(p) && retry >= 1
    ensures Nominal(p, retry) == Min(p.base * Pow2(retry - 1), p.cap)
    ensures p.base <= Nominal(p, retry) <= p.cap
  {
    var e := Min(retry - 1, 31);
    ProductFits(p.base, e);
    assert Nominal(p, retry) == Min(p.base * Pow2(e), p.cap);
    if retry - 1 > 31 {
      Pow2At31();
      Pow2Monotone(31, retry - 1);
      MulMonotone(100, p.base, Pow2(31), Pow2(31));
      MulMonotone(p.base, p.base, Pow2(31), Pow2(retry - 1));
    }
  }

  lemma NominalMonotone(p: Policy, k: nat, l: nat)
    requires ValidPolicy(p) && 1 <= k <= l
    ensures Nominal(p, k) <= Nominal(p, l)
  {
    NominalIsCappedPower(p, k);
    NominalIsCappedPower(p, l);
    Pow2Monotone(k - 1, l - 1);
    MulMonotone(p.base, p.base, Pow2(k - 1), Pow2(l - 1));
  }

  /** From the fifteenth attempt on, the cap has always been reached. */
  lemma CapReached(p: Policy, retry: nat)
    requires ValidPolicy(p) && retry >= 15
    ensures Nominal(p, retry) == p.cap
  {
    NominalIsCappedPower(p, retry);
    Pow2At14();
    Pow2Monotone(14, retry - 1);
    MulMonotone(100, p.base, 16384, Pow2(retry - 1));
  }

  // ---------------------------------------------------------------- jitter candidates

  /** The three jittered delays around `nominal`, clamped to the policy and without repetition. */
  function Candidates(p: Policy, nominal: nat): seq<nat>
    requires ValidPolicy(p) && p.base <= nominal <= p.cap
  {
    var low := Max(p.base, SaturatingSub(nominal, Spread(p, nominal)));
    var high := Min(p.cap, nominal + Spread(p, nominal));
    (if low < nominal then [low] else []) + [nominal] + (if nominal < high then [high] else [])
  }

  ghost predicate Increasing(s: seq<nat>) {
    forall i, j :: 0 <= i < j < |s| ==> s[i] < s[j]
  }

  /** Between one and three strictly increasing delays within the policy, the nominal one among them. */
  lemma CandidatesWithinPolicy(p: Policy, nominal: nat)
    requires ValidPolicy(p) && p.base <= nominal <= p.cap
    ensures var c := Candidates(p, nominal);
            && 1 <= |c| <= 3 && Increasing(c) && nominal in c
            && (forall d :: d in c ==> p.base <= d <= p.cap)
            && (nominal == p.base || nominal == p.cap ==> |c| <= 2)
            && (p.ratio == 0.0 ==> c == [nominal])
  {
  }

  lemma ProductGap(m: real, n: real, r: real)
    requires 0.0 <= m <= n && 0.0 <= r <= 0.5
    ensures 0.0 <= m * r <= n * r && n * r - m * r <= (n - m) * 0.5
  {
  }

  lemma RoundGap(x: real, y: real, d: nat)
    requires 0.0 <= x && 0.0 <= y - x <= d as real * 0.5
    ensures 0 <= Round(y) - Round(x) <= d
  {
  }

  /** Rounding a ratio of at most one half never grows faster than the delay itself. */
  lemma SpreadGrowsSlowly(p: Policy, m: nat, n: nat)
    requires 0.0 <= p.ratio <= 0.5 && m <= n
    ensures 0 <= Spread(p, n) - Spread(p, m) <= n - m
  {
    ProductGap(m as real, n as real, p.ratio);
    assert (n - m) as real == n as real - m as real;
    var x, y := m as real * p.ratio, n as real * p.ratio;
    RoundGap(x, y, n - m);
    assert Spread(p, m) == Round(x) && Spread(p, n) == Round(y);
  }

  /** The least and the greatest candidate never decrease as the nominal delay grows. */
  lemma CandidatesMonotone(p: Policy, m: nat, n: nat)
    requires ValidPolicy(p) && p.base <= m <= n <= p.cap
    ensures var c, d := Candidates(p, m), Candidates(p, n);
            c[0] <= d[0] && c[|c| - 1] <= d[|d| - 1]
  {
    SpreadGrowsSlowly(p, m, n);
  }

  function CandidatesAt(p: Policy, retry: nat): seq<nat>
    requires ValidPolicy(p) && retry >= 1
  {
    NominalIsCappedPower(p, retry);
    Candidates(p, Nominal(p, retry))
  }

  /** The least and the greatest delay of an attempt never decrease from one attempt to a later one. */
  lemma DelaysNeverShrink(p: Policy, k: nat, l: nat)
    requires ValidPolicy(p) && 1 <= k <= l
    ensures var c, d := CandidatesAt(p, k), CandidatesAt(p, l);
            |c| > 0 && |d| > 0 && c[0] <= d[0] && c[|c| - 1] <= d[|d| - 1]
  {
    NominalIsCappedPower(p, k);
    NominalIsCappedPower(p, l);
    NominalMonotone(p, k, l);
    CandidatesMonotone(p, Nominal(p, k), Nominal(p, l));
  }

  // ---------------------------------------------------------------- the loops

  /** Clamps and collects the candidates of one attempt, skipping repetitions. */
  method CollectCandidates(p: Policy, nominal: nat) returns (candidates: seq<nat>)
    requires ValidPolicy(p) && p.base <= nominal <= p.cap
    ensures candidates == Candidates(p, nominal)
  {
    SpreadFits(p, nominal);
    var spread := Spread(p, nominal);
    var offered := [SaturatingSub(nominal, spread), nominal, SaturatingAdd(nominal, spread)];
    ghost var low := Clamp(offered[0], p.base, p.cap);
    ghost var high := Clamp(offered[2], p.base, p.cap);
    ghost var two := (if low < nominal then [low] else []) + [nominal];
    assert low <= nominal <= high && Candidates(p, nominal) == two + if nominal < high then [high] else [];
    candidates := [];
    var i := 0;
    while i < 3
      invariant 0 <= i <= 3
      invariant candidates == [[], [low], two, Candidates(p, nominal)][i]
    {
      var candidate := Clamp(offered[i], p.base, p.cap);
      if candidate !in candidates {
        candidates := candidates + [candidate];
      }
      i := i + 1;
    }
  }

  lemma SpreadFits(p: Policy, nominal: nat)
    requires ValidPolicy(p) && nominal <= p.cap
    ensures Spread(p, nominal) <= nominal
  {
  }

  method RetryBucketDelaysByAttempt(p: Policy) returns (delays: seq<seq<nat>>)
    requires ValidPolicy(p)
    ensures delays == ByAttempt(p)
  {
    delays := [];
    for retry := 1 to p.attempts + 1
      invariant |delays| == retry - 1
      invariant forall k :: 0 <= k < |delays| ==> delays[k] == CandidatesAt(p, k + 1)
    {
      NominalIsCappedPower(p, retry);
      var candidates := CollectCandidates(p, Nominal(p, retry));
      delays := delays + [candidates];
    }
  }

  function ByAttempt(p: Policy): seq<seq<nat>>
    requires ValidPolicy(p)
  {
    seq(p.attempts, k requires 0 <= k < p.attempts => CandidatesAt(p, k + 1))
  }

  // ---------------------------------------------------------------- the ordered set of delays

  function Insert(s: seq<nat>, x: nat): (r: seq<nat>)
    requires Increasing(s)
    ensures Increasing(r) && forall y :: y in r <==> y in s || y == x
  {
    if s == [] then [x]
    else if x < s[0] then [x] + s
    else if x == s[0] then s
    else
      var rest := Insert(s[1..], x);
      InsertedBehind(s, rest, x);
      [s[0]] + rest
  }

  lemma InsertedBehind(s: seq<nat>, rest: seq<nat>, x: nat)
    requires Increasing(s) && s != [] && s[0] < x && Increasing(rest)
    requires forall y :: y in rest <==> y in s[1..] || y == x
    ensures Increasing([s[0]] + rest) && forall y :: y in [s[0]] + rest <==> y in s || y == x
  {
    assert s == [s[0]] + s[1..];
    var r := [s[0]] + rest;
    forall j | 0 < j < |r| ensures s[0] < r[j] {
      assert r[j] in rest;
      if r[j] != x {
        var k :| 0 <= k < |s[1..]| && s[1..][k] == r[j];
        assert s[k + 1] == r[j];
      }
    }
  }

  function InsertAll(s: seq<nat>, xs: seq<nat>): (r: seq<nat>)
    requires Increasing(s)
    ensures Increasing(r) && forall y :: y in r <==> y in s || y in xs
    decreases |xs|
  {
    if xs == [] then s else
      assert xs == [xs[0]] + xs[1..];
      InsertAll(Insert(s, xs[0]), xs[1..])
  }

  ghost predicate Eligible(routes: seq<seq<nat>>, d: nat) {
    exists k :: 0 <= k < |routes| && d in routes[k]
  }

  /** Every delay of every attempt once, in increasing order. */
  function RetryBucketDelays(routes: seq<seq<nat>>): (r: seq<nat>)
    ensures Increasing(r) && forall d: nat :: d in r <==> Eligible(routes, d)
  {
    if routes == [] then [] else
      var last := |routes| - 1;
      assert forall d: nat :: Eligible(routes, d) <==> Eligible(routes[..last], d) || d in routes[last] by {
        forall d: nat ensures Eligible(routes, d) <==> Eligible(routes[..last], d) || d in routes[last] {
          if Eligible(routes[..last], d) {
            var k :| 0 <= k < last && d in routes[..last][k];
            assert d in routes[k];
          }
          if Eligible(routes, d) && d !in routes[last] {
            var k :| 0 <= k < |routes| && d in routes[k];
            assert d in routes[..last][k];
          }
        }
      }
      InsertAll(RetryBucketDelays(routes[..last]), routes[last])
  }

  // ---------------------------------------------------------------- how many buckets arise

  /** The union of `f(1)` to `f(n)`. */
  ghost function UnionUpTo(f: nat -> set<nat>, n: nat): set<nat> {
    if n == 0 then {} else UnionUpTo(f, n - 1) + f(n)
  }

  ghost function AttemptDelays(p: Policy): nat -> set<nat>
    requires ValidPolicy(p)
  {
    (k: nat) => if k == 0 then {} else Elements(CandidatesAt(p, k))
  }

  /** Every delay that one of the first `n` attempts may use. */
  ghost function DelaysUpTo(p: Policy, n: nat): set<nat>
    requires ValidPolicy(p)
  {
    UnionUpTo(AttemptDelays(p), n)
  }

  lemma UnionBound(a: set<nat>, b: set<nat>)
    ensures |a + b| <= |a| + |b|
  {
  }

  /** A union whose first part has at most `first` elements and whose others have at most `other`. */
  lemma {:induction false} UnionCount(f: nat -> set<nat>, n: nat, first: nat, other: nat)
    requires n >= 1 && |f(1)| <= first && forall k: nat :: 2 <= k <= n ==> |f(k)| <= other
    ensures |UnionUpTo(f, n)| <= first + other * (n - 1)
  {
    if n == 1 {
      assert UnionUpTo(f, 1) == UnionUpTo(f, 0) + f(1) == f(1);
    } else {
      UnionCount(f, n - 1, first, other);
      UnionBound(UnionUpTo(f, n - 1), f(n));
      assert other * (n - 1) == other * (n - 2) + other;
    }
  }

  lemma {:induction false} UnionSettles(f: nat -> set<nat>, m: nat, n: nat)
    requires 1 <= m <= n && forall k: nat :: m <= k <= n ==> f(k) == f(m)
    ensures UnionUpTo(f, n) == UnionUpTo(f, m)
  {
    if n > m {
      UnionSettles(f, m, n - 1);
      assert f(n) == f(m);
    }
  }

  lemma {:induction false} InUnion(f: nat -> set<nat>, n: nat, d: nat)
    ensures d in UnionUpTo(f, n) <==> exists k: nat :: 1 <= k <= n && d in f(k)
  {
    if n > 0 { InUnion(f, n - 1, d); }
  }

  lemma LaterAttemptsAddNothing(p: Policy, n: nat)
    requires ValidPolicy(p) && n >= 15
    ensures DelaysUpTo(p, n) == DelaysUpTo(p, 15)
  {
    var f := AttemptDelays(p);
    forall k: nat | 15 <= k <= n ensures f(k) == f(15) {
      CapReached(p, k);
      CapReached(p, 15);
    }
    UnionSettles(f, 15, n);
  }

  /** How many delays one attempt contributes: two at the base or the cap, three between. */
  lemma AttemptCount(p: Policy, n: nat)
    requires ValidPolicy(p) && n >= 1
    ensures |AttemptDelays(p)(n)| <= if n == 1 || n >= 15 then 2 else 3
    ensures p.ratio == 0.0 ==> |AttemptDelays(p)(n)| <= 1
  {
    NominalIsCappedPower(p, n);
    if n >= 15 { CapReached(p, n); }
    CandidatesWithinPolicy(p, Nominal(p, n));
    ElementsCardinality(CandidatesAt(p, n));
  }

  /** At most 43 delays arise with jitter and at most 15 without, whatever the policy. */
  lemma DelayBound(p: Policy, n: nat)
    requires ValidPolicy(p)
    ensures |DelaysUpTo(p, n)| <= 43
    ensures p.ratio == 0.0 ==> |DelaysUpTo(p, n)| <= 15
  {
    var f := AttemptDelays(p);
    forall k: nat | k >= 1 ensures |f(k)| <= (if k == 1 || k >= 15 then 2 else 3) && (p.ratio == 0.0 ==> |f(k)| <= 1) {
      AttemptCount(p, k);
    }
    if n >= 15 { LaterAttemptsAddNothing(p, n); }
    FewDelays(f, if n >= 15 then 15 else n, p.ratio == 0.0);
  }

  lemma FewDelays(f: nat -> set<nat>, n: nat, single: bool)
    requires n <= 15 && forall k: nat :: k >= 1 ==> |f(k)| <= (if k == 1 || k >= 15 then 2 else 3)
    requires single ==> forall k: nat :: k >= 1 ==> |f(k)| <= 1
    ensures |UnionUpTo(f, n)| <= 43 && (single ==> |UnionUpTo(f, n)| <= 15)
  {
    if n >= 1 {
      if single { UnionCount(f, n, 1, 1); }
      if n <= 14 {
        UnionCount(f, n, 2, 3);
      } else {
        UnionCount(f, n - 1, 2, 3);
        UnionBound(UnionUpTo(f, n - 1), f(n));
      }
    }
  }

  lemma EligibleIsDelay(p: Policy, d: nat)
    requires ValidPolicy(p)
    ensures Eligible(ByAttempt(p), d) <==> d in DelaysUpTo(p, p.attempts)
  {
    var f, routes := AttemptDelays(p), ByAttempt(p);
    InUnion(f, p.attempts, d);
    if Eligible(routes, d) {
      var k :| 0 <= k < |routes| && d in routes[k];
      assert d in f(k + 1);
    }
    if k: nat :| 1 <= k <= p.attempts && d in f(k) {
      assert d in routes[k - 1];
    }
  }

  /** The buckets of a policy are exactly the delays of its attempts. */
  lemma BucketsAreDelays(p: Policy)
    requires ValidPolicy(p)
    ensures |RetryBucketDelays(ByAttempt(p))| == |DelaysUpTo(p, p.attempts)|
  {
    var buckets := RetryBucketDelays(ByAttempt(p));
    forall d: nat ensures d in buckets <==> d in DelaysUpTo(p, p.attempts) {
      EligibleIsDelay(p, d);
    }
    assert Elements(buckets) == DelaysUpTo(p, p.attempts);
    DistinctCardinality(buckets);
  }

  // ---------------------------------------------------------------- the bounds are exact

  const WIDEST := Policy(100, 900_000, 0.05, 100)

  /** The delays that attempt `k` of the widest policy contributes. */
  ghost function Rung(k: nat): set<nat>
    requires 1 <= k <= 15
  {
    var u := 5 * Pow2(k - 1);
    if k == 15 then {855_000, 900_000} else if k == 1 then {100, 105} else {19 * u, 20 * u, 21 * u}
  }

  ghost function Ladder(k: nat): set<nat>
    requires k <= 15
  {
    if k == 0 then {} else Ladder(k - 1) + Rung(k)
  }

  lemma Pow2At13()
    ensures Pow2(13) == 8192
  {
  }

  lemma RungBelowCap(k: nat)
    requires 1 <= k <= 14
    ensures AttemptDelays(WIDEST)(k) == Rung(k)
  {
    NominalIsCappedPower(WIDEST, k);
    Pow2At13();
    Pow2Monotone(k - 1, 13);
    if k > 1 { Pow2Monotone(1, k - 1); }
    var u := 5 * Pow2(k - 1);
    assert Nominal(WIDEST, k) == 20 * u;
    WidestCandidates(u, k == 1);
  }

  lemma WidestCandidates(u: nat, first: bool)
    requires 5 <= u <= 40_960 && (first <==> u == 5)
    ensures Elements(Candidates(WIDEST, 20 * u)) == if first then {100, 105} else {19 * u, 20 * u, 21 * u}
  {
    assert Spread(WIDEST, 20 * u) == u by {
      assert (20 * u) as real * 0.05 == u as real;
    }
    if first {
      assert Candidates(WIDEST, 20 * u) == [100, 105];
    } else {
      assert u >= 6;
      assert 19 * u >= 100;
      assert Candidates(WIDEST, 20 * u) == [19 * u, 20 * u, 21 * u];
    }
  }

  lemma RungAtCap()
    ensures AttemptDelays(WIDEST)(15) == Rung(15)
  {
    NominalIsCappedPower(WIDEST, 15);
    CapReached(WIDEST, 15);
    assert Spread(WIDEST, 900_000) == 45_000 by { assert 900_000 as real * 0.05 == 45_000.0; }
    assert CandidatesAt(WIDEST, 15) == [855_000, 900_000];
  }

  lemma {:induction false} UnionIsLadder(f: nat -> set<nat>, k: nat)
    requires k <= 15 && forall j: nat :: 1 <= j <= k ==> f(j) == Rung(j)
    ensures UnionUpTo(f, k) == Ladder(k)
  {
    if k > 0 { UnionIsLadder(f, k - 1); }
  }

  lemma DelaysAreLadder(k: nat)
    requires k <= 15
    ensures DelaysUpTo(WIDEST, k) == Ladder(k)
  {
    forall j: nat | 1 <= j <= k ensures AttemptDelays(WIDEST)(j) == Rung(j) {
      if j == 15 { RungAtCap(); } else { RungBelowCap(j); }
    }
    UnionIsLadder(AttemptDelays(WIDEST), k);
  }

  lemma {:induction false} LadderCount(k: nat)
    requires 1 <= k <= 14
    ensures |Ladder(k)| == 3 * k - 1
    ensures forall d :: d in Ladder(k) ==> d <= 105 * Pow2(k - 1)
  {
    if k == 1 {
      assert Ladder(k) == Ladder(k - 1) + Rung(k) == {100, 105};
      assert Pow2(k - 1) == 1;
    } else {
      LadderCount(k - 1);
      RungAbove(k, Pow2(k - 2));
      HigherRung(Ladder(k - 1), Pow2(k - 2));
    }
  }

  lemma RungAbove(k: nat, w: nat)
    requires 2 <= k <= 14 && w == Pow2(k - 2)
    ensures w >= 1 && Pow2(k - 1) == 2 * w && Rung(k) == {190 * w, 200 * w, 210 * w}
  {
    Pow2Monotone(0, k - 2);
  }

  lemma HigherRung(below: set<nat>, w: nat)
    requires w >= 1 && forall d :: d in below ==> d <= 105 * w
    ensures |below + {190 * w, 200 * w, 210 * w}| == |below| + 3
    ensures forall d :: d in below + {190 * w, 200 * w, 210 * w} ==> d <= 210 * w
  {
  }

  lemma RungBelowTop(k: nat)
    requires k == 14
    ensures Rung(k) == {778_240, 819_200, 860_160}
    ensures Pow2(k - 2) == 4096
  {
  }

  lemma LadderTop(below: set<nat>, rung: set<nat>, top: set<nat>)
    requires |below + rung| == 41 && forall d :: d in below ==> d <= 430_080
    requires rung == {778_240, 819_200, 860_160} && top == {855_000, 900_000}
    ensures |below + rung + top| == 43
  {
  }

  lemma WidestCount(p: Policy, k: nat)
    requires p == WIDEST && k == 15
    ensures ValidPolicy(p) && |DelaysUpTo(p, p.attempts)| == 43
  {
    LaterAttemptsAddNothing(p, p.attempts);
    DelaysAreLadder(k);
    LadderCount(k - 2);
    LadderCount(k - 1);
    RungBelowTop(k - 1);
    LadderTop(Ladder(k - 2), Rung(k - 1), Rung(k));
  }

  /** A valid policy reaches all 43 delays, so the limit of 32 buckets does reject policies. */
  lemma WidestReachesBound()
    ensures exists p :: ValidPolicy(p) && |RetryBucketDelays(ByAttempt(p))| == 43
  {
    var p := WIDEST;
    WidestCount(p, 15);
    BucketsAreDelays(p);
  }
}
