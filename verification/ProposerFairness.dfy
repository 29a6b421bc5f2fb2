/** Many selection steps in a row, as inside `IncrementProposerPriority(times)`:
    conservation, the exact selection count of every validator, and a
    logarithmic bound on how far any priority can climb. */
module ProposerFairness {
  import opened Int64
  import opened Products
  import opened Sums
  import opened Validators
  import opened ProposerPriority

  /** `ps` are the successive priorities, `picks` the elected indices; the
      first k steps are exact. */
  ghost predicate ExactRun(ps: seq<seq<int>>, w: seq<int>, picks: seq<int>, k: nat) {
    && |ps| == |picks| + 1 && k <= |picks|
    && forall j :: 0 <= j < k ==> ExactStep(ps[j], w, picks[j], ps[j + 1])
  }

  ghost predicate Weights(w: seq<int>) {
    |w| > 0 && (forall i :: 0 <= i < |w| ==> 1 <= w[i])
  }

  lemma WeightsTotal(w: seq<int>)
    requires Weights(w)
    ensures 0 < Sum(w) && forall i :: 0 <= i < |w| ==> w[i] <= Sum(w)
  {
    SumAtLeast(w, 1);
    forall i | 0 <= i < |w| ensures w[i] <= Sum(w) { SumNonNegative(w, i); }
  }

  /** Every step of a run keeps the sum of the priorities and the lower bound. */
  lemma {:induction false} RunConserves(ps: seq<seq<int>>, w: seq<int>, picks: seq<int>, lo: int, k: nat)
    requires ExactRun(ps, w, picks, k) && Weights(w)
    requires |ps[0]| == |w| && 0 <= Sum(ps[0]) && lo <= -Sum(w)
    requires forall i :: 0 <= i < |w| ==> lo <= ps[0][i]
    ensures |ps[k]| == |w| && Sum(ps[k]) == Sum(ps[0])
    ensures forall i :: 0 <= i < |w| ==> lo <= ps[k][i]
  {
    WeightsTotal(w);
    if k > 0 {
      ExactStepAt(ps, w, picks, k, k - 1);
      RunConserves(ps, w, picks, lo, k - 1);
      ExactStepConserves(ps[k - 1], w, picks[k - 1], ps[k], lo);
    }
  }

  /** How often `i` was elected. */
  function Elections(picks: seq<int>, i: int): nat {
    if |picks| == 0 then 0
    else Elections(picks[..|picks| - 1], i) + (if picks[|picks| - 1] == i then 1 else 0)
  }

  /** Elections are paid for exactly: T per election, earned w per step. */
  lemma {:induction false} SelectionCount(ps: seq<seq<int>>, w: seq<int>, picks: seq<int>, i: nat, k: nat)
    requires ExactRun(ps, w, picks, k) && i < |w| && |ps[0]| == |w|
    ensures |ps[k]| == |w|
    ensures Elections(picks[..k], i) * Sum(w) == k * w[i] + ps[0][i] - ps[k][i]
  {
    if k == 0 {
      assert picks[..0] == [];
    } else {
      ExactStepAt(ps, w, picks, k, k - 1);
      SelectionCount(ps, w, picks, i, k - 1);
      assert picks[..k][..k - 1] == picks[..k - 1];
      PayOnce(Elections(picks[..k - 1], i), Sum(w), k, w[i]);
    }
  }

  lemma PayOnce(c: int, total: int, k: int, w: int)
    ensures (c + 1) * total == c * total + total && k * w == (k - 1) * w + w
  {}

  // ---- The climb of the largest priority ----

  /** `limits[k]` bounds the summed priorities of any k validators. Each limit
      leaves room for what the next larger one lets through in a step. */
  ghost predicate Limits(limits: seq<int>, total: int) {
    forall k :: 1 <= k < |limits| - 1 ==> LeavesRoom(k, limits[k], limits[k + 1], total)
  }

  predicate LeavesRoom(k: nat, limit: int, next: int, total: int) {
    Times(k, next + total) < Times(k + 1, limit + 1)
  }

  /** k * x, by repeated addition. */
  function Times(k: nat, x: int): int {
    if k == 0 then 0 else Times(k - 1, x) + x
  }

  lemma {:induction false} TimesIsProduct(k: nat, x: int)
    ensures Times(k, x) == k * x
  {
    if k > 0 { TimesIsProduct(k - 1, x); PayOnce(0, 0, k, x); }
  }

  ghost predicate GroupsBounded(p: seq<int>, limits: seq<int>) {
    && |limits| == |p| + 1
    && forall g: seq<bool> {:trigger MaskSum(g, p)} :: |g| == |p| && 1 <= Count(g) <= |p| ==> MaskSum(g, p) <= limits[Count(g)]
  }

  lemma CountRange(g: seq<bool>)
    ensures 0 <= Count(g) <= |g|
  {
    var full := seq(|g|, _ => true);
    MaskSumSubset(g, full, Ones(|g|));
    SumAtMost(Ones(|g|), 1);
  }

  lemma {:induction false} MaskSumAtMost(g: seq<bool>, p: seq<int>, hi: int)
    requires |g| == |p|
    requires forall i :: 0 <= i < |p| && g[i] ==> p[i] <= hi
    ensures MaskSum(g, p) <= Count(g) * hi
  {
    var a, b := Masked(g, p), Masked(g, Ones(|g|));
    if |p| > 0 {
      var n := |p| - 1;
      MaskSumAtMost(g[..n], p[..n], hi);
      assert a[..n] == Masked(g[..n], p[..n]);
      assert b[..n] == Masked(g[..n], Ones(n));
      assert Count(g) == Count(g[..n]) + (if g[n] then 1 else 0);
      var c := Count(g[..n]);
      assert (c + 1) * hi == c * hi + hi;
    }
  }

  /** If a group and the elected validator together respected the next limit
      after the payment, the group alone respects its own. */
  lemma GroupArithmetic(k: nat, x: int, top: int, total: int, limit: int, next: int)
    requires k >= 1 && LeavesRoom(k, limit, next, total)
    requires x <= k * top
    requires x + top - total <= next
    ensures x <= limit
  {
    TimesIsProduct(k, next + total);
    TimesIsProduct(k + 1, limit + 1);
    assert k * (x + top - total) <= k * next;
    assert k * (x + top - total) == k * x + k * top - k * total;
    assert k * (next + total) == k * next + k * total;
    assert (k + 1) * x == k * x + x;
    CancelLess(k + 1, x, limit + 1);
  }

  /** A group that contains the elected validator does not gain. */
  lemma StepKeepsGroupOfElected(p: seq<int>, w: seq<int>, m: int, q: seq<int>, g: seq<bool>)
    requires ExactStep(p, w, m, q) && Weights(w) && |g| == |p| && g[m]
    ensures MaskSum(g, q) <= MaskSum(g, p)
  {
    var a, b, c := Masked(g, p), Masked(g, w), Masked(g, q);
    var ab := seq(|p|, i requires 0 <= i < |p| => a[i] + b[i]);
    SumPlus(a, b, ab);
    SumUpdate(ab, m, ab[m] - Sum(w));
    assert c == ab[m := ab[m] - Sum(w)];
    MaskSumSubset(g, seq(|g|, _ => true), w);
  }

  lemma StepKeepsOtherGroup(p: seq<int>, w: seq<int>, m: int, q: seq<int>, g: seq<bool>, limit: int, next: int)
    requires ExactStep(p, w, m, q) && Weights(w)
    requires |g| == |q| && Count(g) >= 1 && !g[m]
    requires LeavesRoom(Count(g), limit, next, Sum(w))
    requires MaskSum(g[m := true], p) <= next
    ensures MaskSum(g, q) <= limit
  {
    var k, top, total := Count(g), p[m] + w[m], Sum(w);
    assert MaskSum(g, q) + top - total <= next by {
      MaskSumSet(g, q, m);
      StepKeepsGroupOfElected(p, w, m, q, g[m := true]);
    }
    assert MaskSum(g, q) <= k * top by { MaskSumAtMost(g, q, top); }
    GroupArithmetic(k, MaskSum(g, q), top, total, limit, next);
  }

  lemma GroupAfterStep(p: seq<int>, w: seq<int>, m: int, q: seq<int>, limits: seq<int>, g: seq<bool>)
    requires ExactStep(p, w, m, q) && Weights(w) && Limits(limits, Sum(w))
    requires GroupsBounded(p, limits)
    requires |g| == |q| && 1 <= Count(g) <= |q| && !g[m]
    ensures MaskSum(g, q) <= limits[Count(g)]
  {
    var h := g[m := true];
    assert Count(h) == Count(g) + 1 <= |p| by {
      MaskSumSet(g, Ones(|g|), m);
      CountRange(h);
    }
    var limit, next := limits[Count(g)], limits[Count(g) + 1];
    assert MaskSum(h, p) <= next;
    StepKeepsOtherGroup(p, w, m, q, g, limit, next);
  }

  lemma StepKeepsLimits(p: seq<int>, w: seq<int>, m: int, q: seq<int>, limits: seq<int>)
    requires ExactStep(p, w, m, q) && Weights(w) && Limits(limits, Sum(w))
    requires GroupsBounded(p, limits)
    ensures GroupsBounded(q, limits)
  {
    forall g: seq<bool> | |g| == |q| && 1 <= Count(g) <= |q|
      ensures MaskSum(g, q) <= limits[Count(g)]
    {
      if g[m] {
        StepKeepsGroupOfElected(p, w, m, q, g);
      } else {
        GroupAfterStep(p, w, m, q, limits, g);
      }
    }
  }

  /** The group limits hold after any number of steps. */
  lemma {:induction false} RunKeepsLimits(ps: seq<seq<int>>, w: seq<int>, picks: seq<int>, limits: seq<int>, k: nat)
    requires ExactRun(ps, w, picks, k) && Weights(w) && |ps[0]| == |w|
    requires Limits(limits, Sum(w)) && GroupsBounded(ps[0], limits)
    ensures |ps[k]| == |w| && GroupsBounded(ps[k], limits)
  {
    if k > 0 {
      ExactStepAt(ps, w, picks, k, k - 1);
      RunKeepsLimits(ps, w, picks, limits, k - 1);
      StepKeepsLimits(ps[k - 1], w, picks[k - 1], ps[k], limits);
    }
  }

  lemma SingletonSum(s: seq<int>, i: nat)
    requires i < |s|
    ensures MaskSum(seq(|s|, _ => false)[i := true], s) == s[i]
  {
    var none := seq(|s|, _ => false);
    MaskSumSet(none, s, i);
    SumAtMost(Masked(none, s), 0);
    SumAtLeast(Masked(none, s), 0);
  }

  lemma SingletonBound(p: seq<int>, limits: seq<int>, i: nat)
    requires GroupsBounded(p, limits) && i < |p|
    ensures p[i] <= limits[1]
  {
    var g := seq(|p|, _ => false)[i := true];
    SingletonSum(p, i);
    SingletonSum(Ones(|p|), i);
    assert Count(g) == 1;
  }

  // ---- Concrete limits: k * (2T + T * (H(n) - H(k))), rounded down ----

  function Harmonic(n: nat): real {
    if n == 0 then 0.0 else Harmonic(n - 1) + 1.0 / (n as real)
  }

  lemma {:induction false} HarmonicMonotone(a: nat, b: nat)
    requires a <= b
    ensures Harmonic(a) <= Harmonic(b)
  {
    if a < b { HarmonicMonotone(a, b - 1); }
  }

  /** Reciprocals are convex: moving two numbers together lowers their sum. */
  lemma ReciprocalsConvex(x: real, z: real)
    requires 0.0 < x <= z
    ensures 1.0 / (x + 1.0) + 1.0 / z <= 1.0 / x + 1.0 / (z + 1.0)
  {
    Telescopes(x);
    Telescopes(z);
    ProductOrder(x, z);
    ReciprocalOrder(x * (x + 1.0), z * (z + 1.0));
  }

  lemma ProductOrder(x: real, z: real)
    requires 0.0 < x <= z
    ensures 0.0 < x * (x + 1.0) <= z * (z + 1.0)
  {
    assert x * (x + 1.0) <= z * (x + 1.0) <= z * (z + 1.0);
  }

  lemma Telescopes(x: real)
    requires x > 0.0
    ensures 1.0 / x - 1.0 / (x + 1.0) == 1.0 / (x * (x + 1.0))
  {
    var d := 1.0 / x - 1.0 / (x + 1.0);
    assert d * (x * (x + 1.0)) == (1.0 / x * x) * (x + 1.0) - (1.0 / (x + 1.0) * (x + 1.0)) * x == 1.0;
  }

  lemma ReciprocalOrder(p: real, q: real)
    requires 0.0 < p <= q
    ensures 1.0 / q <= 1.0 / p
  {
    assert 1.0 / p * q >= 1.0 / p * p == 1.0;
  }

  /** So a block of reciprocals is at most its length times the mean of its
      ends. */
  lemma {:induction false} HarmonicBlock(a: nat, b: nat)
    requires a < b
    ensures Harmonic(b) - Harmonic(a) <= ((b - a) as real) * (1.0 / ((a + 1) as real) + 1.0 / (b as real)) / 2.0
    decreases b - a
  {
    if b > a + 1 {
      assert Harmonic(b) == Harmonic(b - 1) + 1.0 / (b as real);
      assert Harmonic(a + 1) == Harmonic(a) + 1.0 / ((a + 1) as real);
      if b > a + 2 {
        HarmonicBlock(a + 1, b - 1);
        ReciprocalsConvex((a + 1) as real, (b - 1) as real);
        BlockGrows((b - a) as real, 1.0 / ((a + 2) as real) + 1.0 / ((b - 1) as real), 1.0 / ((a + 1) as real) + 1.0 / (b as real));
      }
    }
  }

  lemma BlockGrows(n: real, inner: real, outer: real)
    requires n >= 2.0 && inner <= outer
    ensures (n - 2.0) * inner / 2.0 + outer <= n * outer / 2.0
  {
    assert (n - 2.0) * inner <= (n - 2.0) * outer;
  }

  lemma HarmonicOfEight()
    ensures Harmonic(8) < 2.72
  {
    assert Harmonic(3) == 1.0 + 1.0 / 2.0 + 1.0 / 3.0;
    assert Harmonic(6) == Harmonic(3) + 1.0 / 4.0 + 1.0 / 5.0 + 1.0 / 6.0;
    assert Harmonic(8) == Harmonic(6) + 1.0 / 7.0 + 1.0 / 8.0;
  }

  lemma HarmonicOfForty()
    ensures Harmonic(40) < 4.335
  {
    HarmonicOfEight();
    HarmonicBlock(8, 12);
    HarmonicBlock(12, 18);
    HarmonicBlock(18, 27);
    HarmonicBlock(27, 40);
  }

  lemma HarmonicOfTwoHundred()
    ensures Harmonic(200) < 6.0
  {
    HarmonicOfForty();
    HarmonicBlock(40, 60);
    HarmonicBlock(60, 90);
    HarmonicBlock(90, 135);
    HarmonicBlock(135, 200);
  }

  function MeanLimit(total: int, n: nat, k: nat): real {
    (total as real) * (2.0 + Harmonic(n) - Harmonic(k))
  }

  function GroupLimit(total: int, n: nat, k: nat): int {
    ((k as real) * MeanLimit(total, n, k)).Floor
  }

  lemma GroupLimitLeavesRoom(total: int, n: nat, k: nat)
    requires k >= 1
    ensures LeavesRoom(k, GroupLimit(total, n, k), GroupLimit(total, n, k + 1), total)
  {
    var a, b := MeanLimit(total, n, k), MeanLimit(total, n, k + 1);
    var kr, t := k as real, total as real;
    MeanLimitStep(total, n, k);
    RoomInReals(kr, a, b, t);
    var limit, next := GroupLimit(total, n, k), GroupLimit(total, n, k + 1);
    assert next as real <= (kr + 1.0) * b && kr * a < limit as real + 1.0;
    RoomFromReals(k, limit, next, total, kr * a);
  }

  lemma MeanLimitStep(total: int, n: nat, k: nat)
    ensures MeanLimit(total, n, k) * (k as real + 1.0) == MeanLimit(total, n, k + 1) * (k as real + 1.0) + total as real
  {
    var f := 1.0 / ((k + 1) as real);
    assert Harmonic(k + 1) == Harmonic(k) + f;
    assert f * (k as real + 1.0) == 1.0;
    var t, c := total as real, k as real + 1.0;
    assert (t * f) * c == t * (f * c);
    assert MeanLimit(total, n, k) == MeanLimit(total, n, k + 1) + t * f;
    assert (MeanLimit(total, n, k + 1) + t * f) * c == MeanLimit(total, n, k + 1) * c + (t * f) * c;
  }

  lemma RoomInReals(k: real, a: real, b: real, t: real)
    requires a * (k + 1.0) == b * (k + 1.0) + t
    ensures k * ((k + 1.0) * b + t) == (k + 1.0) * (k * a)
  {}

  lemma RoomFromReals(k: nat, limit: int, next: int, total: int, x: real)
    requires k >= 1
    requires (k as real) * (next as real + total as real) <= (k as real + 1.0) * x
    requires x < limit as real + 1.0
    ensures LeavesRoom(k, limit, next, total)
  {
    var a, b, c := next + total, k + 1, limit + 1;
    ProductAsReal(k, a);
    ProductAsReal(b, c);
    StrictInReals(b as real, x, c as real);
    TimesIsProduct(k, a);
    TimesIsProduct(b, c);
  }

  lemma ProductAsReal(a: int, b: int)
    ensures (a * b) as real == (a as real) * (b as real)
  {}

  lemma StrictInReals(a: real, x: real, y: real)
    requires a > 0.0 && x < y
    ensures a * x < a * y
  {}

  /** Limits that start above 2T per validator and allow a single validator
      no more than T * (1 + H(n)). */
  lemma HarmonicLimits(total: int, n: nat) returns (limits: seq<int>)
    requires total >= 0 && n >= 1
    ensures |limits| == n + 1 && Limits(limits, total)
    ensures forall k :: 0 <= k <= n ==> MeanAtMost(k, 2 * total, limits[k])
    ensures AtMostLog(limits[1], total, n)
  {
    limits := seq(n + 1, k requires 0 <= k <= n => GroupLimit(total, n, k));
    forall k | 1 <= k < |limits| - 1 ensures LeavesRoom(k, limits[k], limits[k + 1], total) {
      GroupLimitLeavesRoom(total, n, k);
    }
    forall k | 0 <= k <= n ensures MeanAtMost(k, 2 * total, limits[k]) {
      TwiceTotalWithinLimit(total, n, k);
    }
    LimitOfOne(total, n);
  }

  predicate MeanAtMost(k: int, mean: int, sum: int) { k * mean <= sum }

  lemma TwiceTotalWithinLimit(total: int, n: nat, k: nat)
    requires total >= 0 && k <= n
    ensures k * (2 * total) <= GroupLimit(total, n, k)
  {
    HarmonicMonotone(k, n);
    var t, h, kr := total as real, Harmonic(n) - Harmonic(k), k as real;
    assert t * h >= 0.0;
    assert t * (2.0 + h) == 2.0 * t + t * h;
    assert kr * (2.0 * t + t * h) >= kr * (2.0 * t);
    assert (k * (2 * total)) as real == kr * (2.0 * t);
  }

  lemma InitiallyBounded(p: seq<int>, hi: int, limits: seq<int>)
    requires |limits| == |p| + 1
    requires forall k :: 0 <= k <= |p| ==> MeanAtMost(k, hi, limits[k])
    requires forall i :: 0 <= i < |p| ==> p[i] <= hi
    ensures GroupsBounded(p, limits)
  {
    forall g: seq<bool> | |g| == |p| && 1 <= Count(g) <= |p| ensures MaskSum(g, p) <= limits[Count(g)] {
      MaskSumAtMost(g, p, hi);
      assert MeanAtMost(Count(g), hi, limits[Count(g)]);
    }
  }

  /** In a run that starts with priorities of at most 2T, no priority ever
      exceeds T * (1 + H(n)), however many steps are taken. */
  lemma ClimbIsLogarithmic(ps: seq<seq<int>>, w: seq<int>, picks: seq<int>, k: nat, i: nat)
    requires ExactRun(ps, w, picks, k) && Weights(w) && |ps[0]| == |w| && i < |w|
    requires forall j :: 0 <= j < |w| ==> ps[0][j] <= 2 * Sum(w)
    ensures |ps[k]| == |w|
    ensures AtMostLog(ps[k][i], Sum(w), |w|)
  {
    WeightsTotal(w);
    var limits := HarmonicLimits(Sum(w), |w|);
    InitiallyBounded(ps[0], 2 * Sum(w), limits);
    RunKeepsLimits(ps, w, picks, limits, k);
    SingletonBound(ps[k], limits, i);
    AtMostLogMonotone(ps[k][i], limits[1], Sum(w), |w|);
  }

  /** x <= T * (1 + H(n)) */
  predicate AtMostLog(x: int, total: int, n: nat) {
    x as real <= (total as real) * (1.0 + Harmonic(n))
  }

  lemma AtMostLogMonotone(x: int, y: int, total: int, n: nat)
    requires x <= y && AtMostLog(y, total, n)
    ensures AtMostLog(x, total, n)
  {}

  lemma LimitOfOne(total: int, n: nat)
    ensures AtMostLog(GroupLimit(total, n, 1), total, n)
  {
    assert Harmonic(1) == Harmonic(0) + 1.0;
  }

  /** Within a number of steps, no priority gains more than T per step. */
  lemma {:induction false} ClimbIsLinear(ps: seq<seq<int>>, w: seq<int>, picks: seq<int>, k: nat, i: nat)
    requires ExactRun(ps, w, picks, k) && Weights(w) && |ps[0]| == |w| && i < |w|
    ensures |ps[k]| == |w|
    ensures ps[k][i] <= ps[0][i] + k * Sum(w)
  {
    WeightsTotal(w);
    if k > 0 {
      ExactStepAt(ps, w, picks, k, k - 1);
      ClimbIsLinear(ps, w, picks, k - 1, i);
      PayOnce(0, 0, k, Sum(w));
    }
  }

  // ---- The code's steps, clips included ----

  ghost predicate ClippedRun(states: seq<seq<Validator>>, picks: seq<int>) {
    && |states| == |picks| + 1
    && forall k :: 0 <= k < |picks| ==> ClippedStep(states[k], picks[k], states[k + 1])
  }

  function PrioritiesOf(states: seq<seq<Validator>>): (ps: seq<seq<int>>)
    ensures |ps| == |states| && forall k :: 0 <= k < |states| ==> ps[k] == Priorities(states[k])
  {
    seq(|states|, k requires 0 <= k < |states| => Priorities(states[k]))
  }

  /** Room for `times` steps below `limit`: by their number, or by the
      logarithmic bound, which does not depend on their number. */
  ghost predicate Roomy(total: int, n: nat, times: nat, limit: int) {
    RoomyByCount(total, times, limit) || RoomyByLog(total, n, limit)
  }

  predicate RoomyByCount(total: int, times: nat, limit: int) {
    (times + 2) * total <= limit
  }

  predicate RoomyByLog(total: int, n: nat, limit: int) {
    (total as real) * (2.0 + Harmonic(n)) <= limit as real
  }

  /** Up to two hundred validators there is always room below MaxInt64. */
  lemma FewAreRoomy(vs: seq<Validator>, times: nat)
    requires Members(vs) && |vs| <= 200
    ensures Roomy(Total(vs), |vs|, times, MaxInt64)
  {
    HarmonicOfTwoHundred();
    HarmonicMonotone(|vs|, 200);
    SumAtLeast(Powers(vs), 0);
    EightfoldFits(Total(vs), 2.0 + Harmonic(|vs|));
    assert RoomyByLog(Total(vs), |vs|, MaxInt64);
  }

  lemma EightfoldFits(total: int, x: real)
    requires 0 <= total <= MaxTotalVotingPower && x <= 8.0
    ensures (total as real) * x <= MaxInt64 as real
  {
    ScaleReal(total as real, x, 8.0);
    assert (total as real) * 8.0 == (8 * total) as real;
  }

  lemma ScaleReal(t: real, x: real, y: real)
    requires 0.0 <= t && x <= y
    ensures t * x <= t * y
  {}

  /** What holds in front of step k of a run that has been exact so far. */
  lemma CreditFits(vs: seq<Validator>, ps: seq<seq<int>>, picks: seq<int>, k: nat, times: nat, limit: int, i: nat)
    requires |vs| > 0 && Members(vs) && k < times && i < |vs|
    requires ExactRun(ps, Powers(vs), picks, k) && ps[0] == Priorities(Normalized(vs))
    requires Roomy(Total(vs), |vs|, times, limit)
    ensures |ps[k]| == |vs| && ps[k][i] + vs[i].power <= limit
  {
    var w := Powers(vs);
    StartBounds(vs);
    if RoomyByCount(Total(vs), times, limit) {
      ClimbIsLinear(ps, w, picks, k, i);
      LinearFits(k, times, Total(vs), limit);
    } else {
      ClimbIsLogarithmic(ps, w, picks, k, i);
      LogarithmicFits(ps[k][i], Total(vs), |w|, limit);
    }
  }

  lemma StartBounds(vs: seq<Validator>)
    requires |vs| > 0 && Members(vs)
    ensures Weights(Powers(vs)) && 0 < Total(vs)
    ensures |Priorities(Normalized(vs))| == |vs|
    ensures forall i :: 0 <= i < |vs| ==> -2 * Total(vs) <= Priorities(Normalized(vs))[i] <= 2 * Total(vs) && Powers(vs)[i] <= Total(vs)
    ensures 0 <= Sum(Priorities(Normalized(vs))) < |vs|
  {
    NormalizedBounds(vs);
    TotalBounds(vs);
  }

  lemma LinearFits(k: nat, times: nat, total: int, limit: int)
    requires k < times && total >= 0 && RoomyByCount(total, times, limit)
    ensures 2 * total + k * total + total <= limit
  {
    MulMonotone(total, k + 3, times + 2);
    assert (k + 3) * total == k * total + 3 * total;
  }

  lemma LogarithmicFits(x: int, total: int, n: nat, limit: int)
    requires RoomyByLog(total, n, limit)
    requires AtMostLog(x, total, n)
    ensures x + total <= limit
  {
    assert (total as real) * (2.0 + Harmonic(n)) == (total as real) * (1.0 + Harmonic(n)) + total as real;
  }

  /** No clipping: from a rescaled and centred set, every step of the code is
      the exact step as long as there is room below MaxInt64. */
  lemma {:induction false} RunIsExact(vs: seq<Validator>, states: seq<seq<Validator>>, picks: seq<int>, times: nat, k: nat)
    requires |vs| > 0 && Members(vs)
    requires ClippedRun(states, picks) && states[0] == Normalized(vs) && k <= |picks| <= times
    requires Roomy(Total(vs), |vs|, times, MaxInt64)
    ensures ExactRun(PrioritiesOf(states), Powers(vs), picks, k)
  {
    if k > 0 {
      RunIsExact(vs, states, picks, times, k - 1);
      RunStepIsExact(vs, states, picks, times, k - 1);
    }
  }

  /** Up to two hundred validators, whatever their power and however many steps:
      no clip branch is ever taken. */
  lemma FewNeverClip(vs: seq<Validator>, states: seq<seq<Validator>>, picks: seq<int>)
    requires 0 < |vs| <= 200 && Members(vs)
    requires ClippedRun(states, picks) && states[0] == Normalized(vs)
    ensures ExactRun(PrioritiesOf(states), Powers(vs), picks, |picks|)
  {
    FewAreRoomy(vs, |picks|);
    RunIsExact(vs, states, picks, |picks|, |picks|);
  }

  lemma RunStepIsExact(vs: seq<Validator>, states: seq<seq<Validator>>, picks: seq<int>, times: nat, k: nat)
    requires |vs| > 0 && Members(vs)
    requires ClippedRun(states, picks) && states[0] == Normalized(vs) && k < |picks| <= times
    requires Roomy(Total(vs), |vs|, times, MaxInt64)
    requires ExactRun(PrioritiesOf(states), Powers(vs), picks, k)
    ensures ExactRun(PrioritiesOf(states), Powers(vs), picks, k + 1)
  {
    NormalizedBounds(vs);
    RunKeepsMembers(vs, states, picks, k);
    ClippedStepAt(states, picks, k);
    NextStepIsExact(vs, states, picks, times, k);
    ExactRunExtends(PrioritiesOf(states), Powers(vs), picks, k);
  }

  lemma ClippedStepAt(states: seq<seq<Validator>>, picks: seq<int>, k: nat)
    requires ClippedRun(states, picks) && k < |picks|
    ensures ClippedStep(states[k], picks[k], states[k + 1])
  {}

  lemma ExactRunExtends(ps: seq<seq<int>>, w: seq<int>, picks: seq<int>, k: nat)
    requires ExactRun(ps, w, picks, k) && k < |picks| && ExactStep(ps[k], w, picks[k], ps[k + 1])
    ensures ExactRun(ps, w, picks, k + 1)
  {}

  lemma ExactStepAt(ps: seq<seq<int>>, w: seq<int>, picks: seq<int>, k: nat, j: nat)
    requires ExactRun(ps, w, picks, k) && j < k
    ensures ExactStep(ps[j], w, picks[j], ps[j + 1]) && ExactRun(ps, w, picks, j)
  {}

  lemma {:induction false} RunKeepsMembers(vs: seq<Validator>, states: seq<seq<Validator>>, picks: seq<int>, k: nat)
    requires ClippedRun(states, picks) && SameMembers(vs, states[0]) && k <= |picks|
    ensures SameMembers(vs, states[k])
  {
    if k > 0 {
      RunKeepsMembers(vs, states, picks, k - 1);
      ClippedStepAt(states, picks, k - 1);
      StepKeepsMembers(vs, states[k - 1], picks[k - 1], states[k]);
    }
  }

  lemma NextStepIsExact(vs: seq<Validator>, states: seq<seq<Validator>>, picks: seq<int>, times: nat, k: nat)
    requires |vs| > 0 && Members(vs) && |states| == |picks| + 1 && k < |picks| <= times
    requires states[0] == Normalized(vs)
    requires Roomy(Total(vs), |vs|, times, MaxInt64)
    requires SameMembers(vs, states[k])
    requires ExactRun(PrioritiesOf(states), Powers(vs), picks, k)
    requires ClippedStep(states[k], picks[k], states[k + 1])
    ensures ExactStep(Priorities(states[k]), Powers(vs), picks[k], Priorities(states[k + 1]))
  {
    var ps, cur := PrioritiesOf(states), states[k];
    RunStaysCentred(vs, ps, picks, k);
    SameMembersKeeps(vs, cur);
    forall i | 0 <= i < |cur|
      ensures MinInt64 <= cur[i].priority && cur[i].priority + cur[i].power <= MaxInt64
    {
      CreditFits(vs, ps, picks, k, times, MaxInt64, i);
      assert ps[k][i] == cur[i].priority && cur[i].power == vs[i].power;
    }
    StepIsExact(cur, picks[k], states[k + 1]);
  }

  lemma StepKeepsMembers(vs: seq<Validator>, before: seq<Validator>, m: int, after: seq<Validator>)
    requires SameMembers(vs, before) && ClippedStep(before, m, after)
    ensures SameMembers(vs, after)
  {}

  /** Along an exact run from a normalized set the sum stays in [0, n) and no
      priority falls below -2T. */
  lemma RunStaysCentred(vs: seq<Validator>, ps: seq<seq<int>>, picks: seq<int>, k: nat)
    requires |vs| > 0 && Members(vs)
    requires ExactRun(ps, Powers(vs), picks, k) && ps[0] == Priorities(Normalized(vs))
    ensures |ps[k]| == |vs| && 0 <= Sum(ps[k]) < |vs|
    ensures forall i :: 0 <= i < |vs| ==> -2 * Total(vs) <= ps[k][i]
  {
    StartBounds(vs);
    RunConserves(ps, Powers(vs), picks, -2 * Total(vs), k);
  }

  /** Fairness of `IncrementProposerPriority(times)`: over its whole run each
      validator is elected in proportion to its power, up to a constant that
      grows only with the logarithm of the number of validators. */
  lemma RotationIsFair(vs: seq<Validator>, states: seq<seq<Validator>>, picks: seq<int>, i: nat)
    requires |vs| > 0 && Members(vs) && i < |vs|
    requires ClippedRun(states, picks) && states[0] == Normalized(vs)
    requires Roomy(Total(vs), |vs|, |picks|, MaxInt64)
    ensures |states[|picks|]| == |vs|
    ensures Elections(picks, i) * Total(vs)
         == |picks| * vs[i].power + states[0][i].priority - states[|picks|][i].priority
    ensures Elections(picks, i) * Total(vs) <= |picks| * vs[i].power + 4 * Total(vs)
    ensures LagsByLog(Elections(picks, i) * Total(vs), |picks| * vs[i].power, Total(vs), |vs|)
  {
    var k, ps := |picks|, PrioritiesOf(states);
    RunIsExact(vs, states, picks, k, k);
    RunKeepsMembers(vs, states, picks, k);
    ExactShare(vs, ps, picks, i);
    assert ps[k][i] == states[k][i].priority && ps[0][i] == states[0][i].priority;
    LowerShare(Elections(picks, i) * Total(vs), k * vs[i].power, ps[0][i], ps[k][i], Total(vs), |vs|);
  }

  lemma ExactShare(vs: seq<Validator>, ps: seq<seq<int>>, picks: seq<int>, i: nat)
    requires |vs| > 0 && Members(vs) && i < |vs|
    requires ExactRun(ps, Powers(vs), picks, |picks|) && ps[0] == Priorities(Normalized(vs))
    ensures |ps[0]| == |ps[|picks|]| == |vs|
    ensures Elections(picks, i) * Total(vs) == |picks| * vs[i].power + ps[0][i] - ps[|picks|][i]
    ensures -2 * Total(vs) <= ps[0][i] <= 2 * Total(vs)
    ensures -2 * Total(vs) <= ps[|picks|][i] && AtMostLog(ps[|picks|][i], Total(vs), |vs|)
  {
    var k, w := |picks|, Powers(vs);
    StartBounds(vs);
    RunStaysCentred(vs, ps, picks, k);
    assert picks[..k] == picks;
    SelectionCount(ps, w, picks, i, k);
    ClimbIsLogarithmic(ps, w, picks, k, i);
  }

  /** earned - paid <= T * (3 + H(n)) */
  predicate LagsByLog(paid: int, earned: int, total: int, n: nat) {
    (earned - paid) as real <= (total as real) * (3.0 + Harmonic(n))
  }

  lemma LowerShare(paid: int, earned: int, start: int, end: int, total: int, n: nat)
    requires paid == earned + start - end && start >= -2 * total
    requires AtMostLog(end, total, n)
    ensures LagsByLog(paid, earned, total, n)
  {
    assert (total as real) * (3.0 + Harmonic(n)) == (total as real) * (1.0 + Harmonic(n)) + 2.0 * total as real;
  }
}
