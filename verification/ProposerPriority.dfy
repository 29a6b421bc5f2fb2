/** One round of proposer rotation: rescaling, centring and a selection step.
    These functions state what the loops of `ValidatorSet` compute; the lemmas
    show that on every validator set in use nothing clips or overflows. */
module ProposerPriority {
  import opened Basics
  import opened Int64
  import opened Products
  import opened Sums
  import opened Validators

  ghost predicate Spread(vs: seq<Validator>, d: int) {
    forall i, j :: 0 <= i < |vs| && 0 <= j < |vs| ==> vs[i].priority - vs[j].priority <= d
  }

  ghost predicate Within(vs: seq<Validator>, lo: int, hi: int) {
    forall i :: 0 <= i < |vs| ==> lo <= vs[i].priority <= hi
  }

  function MaxPriority(vs: seq<Validator>): (m: int)
    requires |vs| > 0
    ensures forall i :: 0 <= i < |vs| ==> vs[i].priority <= m
    ensures exists i :: 0 <= i < |vs| && vs[i].priority == m
  {
    var last := vs[|vs| - 1].priority;
    if |vs| == 1 then last else
    var m := MaxPriority(vs[..|vs| - 1]);
    assert exists i :: 0 <= i < |vs| - 1 && vs[..|vs| - 1][i] == vs[i] && vs[i].priority == m;
    if m < last then last else m
  }

  function MinPriority(vs: seq<Validator>): (m: int)
    requires |vs| > 0
    ensures forall i :: 0 <= i < |vs| ==> m <= vs[i].priority
    ensures exists i :: 0 <= i < |vs| && vs[i].priority == m
  {
    var last := vs[|vs| - 1].priority;
    if |vs| == 1 then last else
    var m := MinPriority(vs[..|vs| - 1]);
    assert exists i :: 0 <= i < |vs| - 1 && vs[..|vs| - 1][i] == vs[i] && vs[i].priority == m;
    if m > last then last else m
  }

  /** How far the priorities are apart. */
  function Extent(vs: seq<Validator>): (d: int)
    requires |vs| > 0
    ensures d >= 0
  {
    assert MinPriority(vs) <= vs[0].priority <= MaxPriority(vs);
    MaxPriority(vs) - MinPriority(vs)
  }

  /** Same validators in the same places, only the priorities may differ. */
  ghost predicate SameMembers(a: seq<Validator>, b: seq<Validator>) {
    |a| == |b| && forall i :: 0 <= i < |a| ==> b[i] == a[i].(priority := b[i].priority)
  }

  lemma SameMembersKeeps(a: seq<Validator>, b: seq<Validator>)
    requires SameMembers(a, b)
    ensures Powers(a) == Powers(b) && Total(a) == Total(b)
    ensures DistinctAddresses(a) ==> DistinctAddresses(b)
    ensures Members(a) ==> Members(b)
  {
    assert Powers(a) == Powers(b);
  }

  /** The divisor of `RescalePriorities`: ceil(diff / diffMax). */
  function Ratio(diff: int, diffMax: int): int
    requires diffMax > 0
  {
    TruncDiv(diff + diffMax - 1, diffMax)
  }

  function Rescaled(vs: seq<Validator>, diffMax: int): (r: seq<Validator>)
    requires |vs| > 0
  {
    var diff := Extent(vs);
    if diffMax <= 0 || diff <= diffMax then vs
    else
      var ratio := Ratio(diff, diffMax);
      RatioPositive(diff, diffMax);
      Divided(vs, ratio)
  }

  function Divided(vs: seq<Validator>, ratio: int): (r: seq<Validator>)
    requires ratio > 0
    ensures |r| == |vs| && forall i :: 0 <= i < |vs| ==> r[i] == vs[i].(priority := TruncDiv(vs[i].priority, ratio))
  {
    seq(|vs|, i requires 0 <= i < |vs| => vs[i].(priority := TruncDiv(vs[i].priority, ratio)))
  }

  /** `computeAvgProposerPriority`: the floor of the mean. */
  function Average(vs: seq<Validator>): int
    requires |vs| > 0
  {
    FloorDiv(Sum(Priorities(vs)), |vs|)
  }

  /** Exact centring, without the clip of `safeSubClip`. */
  function Centred(vs: seq<Validator>): (r: seq<Validator>)
    requires |vs| > 0
  {
    var avg := Average(vs);
    seq(|vs|, i requires 0 <= i < |vs| => vs[i].(priority := vs[i].priority - avg))
  }

  lemma RatioPositive(diff: int, diffMax: int)
    requires 0 < diffMax < diff
    ensures Ratio(diff, diffMax) > 0
  {
    RatioIsCeiling(diff, diffMax);
  }

  lemma RatioIsCeiling(diff: int, diffMax: int)
    requires diffMax > 0 && diff >= 1
    ensures Ratio(diff, diffMax) >= 1
    ensures diff <= Ratio(diff, diffMax) * diffMax
  {
    var n := diff + diffMax - 1;
    var q := n / diffMax;
    Quotient(n, diffMax, q);
    assert (q + 1) * diffMax == q * diffMax + diffMax;
    CancelLess(diffMax, 1, q + 1);
  }

  /** Dividing two numbers that are at most r*d apart, truncating each, leaves
      them at most d apart. */
  lemma TruncDivContracts(a: int, b: int, r: int, d: int)
    requires r >= 1 && d >= 0 && a - b <= r * d
    ensures TruncDiv(a, r) - TruncDiv(b, r) <= d
  {
    var x, y := TruncDiv(a, r), TruncDiv(b, r);
    TruncDivBounds(a, r);
    TruncDivBounds(b, r);
    if a >= 0 > b || (a >= 0) == (b >= 0) {
      QuotientsClose(x, y, r, d, x * r - y * r);
    }
  }

  lemma QuotientsClose(x: int, y: int, r: int, d: int, gap: int)
    requires r >= 1 && gap == x * r - y * r && gap < r * d + r
    ensures x - y <= d
  {
    assert gap == (x - y) * r && r * d + r == (d + 1) * r;
    CancelLess(r, x - y, d + 1);
  }

  lemma TruncDivBounds(a: int, r: int)
    requires r >= 1
    ensures var q := TruncDiv(a, r); if a >= 0 then 0 <= q <= a && q * r <= a < q * r + r else a <= q <= 0 && q * r - r < a <= q * r
  {
    var m := if a >= 0 then a else -a;
    var q := m / r;
    Quotient(m, r, q);
    assert (-q) * r == -(q * r);
  }

  /** Rescaling brings the spread into the window and never enlarges a
      priority's magnitude. */
  lemma RescaledSpread(vs: seq<Validator>, diffMax: int)
    requires |vs| > 0 && diffMax > 0
    ensures SameMembers(vs, Rescaled(vs, diffMax))
    ensures Spread(Rescaled(vs, diffMax), diffMax)
    ensures forall lo, hi :: lo <= 0 <= hi && Within(vs, lo, hi) ==> Within(Rescaled(vs, diffMax), lo, hi)
  {
    var diff := Extent(vs);
    var r := Rescaled(vs, diffMax);
    if diff > diffMax {
      RatioIsCeiling(diff, diffMax);
      var ratio := Ratio(diff, diffMax);
      forall i, j | 0 <= i < |vs| && 0 <= j < |vs|
        ensures r[i].priority - r[j].priority <= diffMax
      {
        TruncDivContracts(vs[i].priority, vs[j].priority, ratio, diffMax);
      }
      forall i | 0 <= i < |vs|
        ensures 0 <= vs[i].priority ==> 0 <= r[i].priority <= vs[i].priority
        ensures vs[i].priority < 0 ==> vs[i].priority <= r[i].priority <= 0
      {
        TruncDivBounds(vs[i].priority, ratio);
      }
    }
  }

  /** The mean lies between any bounds of the list. */
  lemma AverageBetween(vs: seq<Validator>, lo: int, hi: int)
    requires |vs| > 0 && Within(vs, lo, hi)
    ensures lo <= Average(vs) <= hi
  {
    var n, avg := |vs|, Average(vs);
    SumAtLeast(Priorities(vs), lo);
    SumAtMost(Priorities(vs), hi);
    assert avg * n <= hi * n;
    CancelLeq(n, avg, hi);
    assert lo * n < (avg + 1) * n;
    CancelLess(n, lo, avg + 1);
  }

  /** The priorities sum to at least 0 and less than the number of validators. */
  ghost predicate SumCentred(vs: seq<Validator>) {
    0 <= Sum(Priorities(vs)) < |vs|
  }

  lemma CentredSum(vs: seq<Validator>)
    requires |vs| > 0
    ensures SameMembers(vs, Centred(vs))
    ensures SumCentred(Centred(vs))
  {
    var n, avg := |vs|, Average(vs);
    SumShift(Priorities(vs), Priorities(Centred(vs)), avg);
    assert (avg + 1) * n == avg * n + n && n * avg == avg * n;
  }

  /** A centred list straddles zero, so its spread bounds each priority. */
  lemma SpreadBoundsCentred(vs: seq<Validator>, d: int)
    requires |vs| > 0 && Spread(vs, d) && SumCentred(vs)
    ensures Within(vs, -d, d)
  {
    var hi, lo := MaxPriority(vs), MinPriority(vs);
    SumAtLeast(Priorities(vs), lo);
    SumAtMost(Priorities(vs), hi);
    var n := |vs|;
    assert lo * n < 1 * n && 0 * n <= hi * n;
    CancelLess(n, lo, 1);
    CancelLeq(n, 0, hi);
  }

  /** `RescalePriorities(2T)` followed by `shiftByAvgProposerPriority`. */
  function Normalized(vs: seq<Validator>): (r: seq<Validator>)
    requires |vs| > 0
  {
    Centred(Rescaled(vs, PriorityWindowSizeFactor * Total(vs)))
  }

  /** After rescaling and centring: spread at most 2T, sum in [0, n), and hence
      every priority in [-2T, 2T]. */
  lemma NormalizedBounds(vs: seq<Validator>)
    requires |vs| > 0 && Members(vs)
    ensures SameMembers(vs, Normalized(vs)) && Members(Normalized(vs))
    ensures Total(Normalized(vs)) == Total(vs) > 0
    ensures Spread(Normalized(vs), 2 * Total(vs))
    ensures SumCentred(Normalized(vs))
    ensures Within(Normalized(vs), -2 * Total(vs), 2 * Total(vs))
  {
    TotalBounds(vs);
    var diffMax := 2 * Total(vs);
    var a := Rescaled(vs, diffMax);
    RescaledSpread(vs, diffMax);
    CentredSum(a);
    var r := Normalized(vs);
    forall i, j | 0 <= i < |r| && 0 <= j < |r| ensures r[i].priority - r[j].priority <= diffMax {
      assert a[i].priority - a[j].priority <= diffMax;
    }
    SpreadBoundsCentred(r, diffMax);
    SameMembersKeeps(vs, r);
  }

  /** Within the window only the average is taken away: differences stay. */
  lemma WindowKeepsDifferences(vs: seq<Validator>, i: nat, j: nat)
    requires i < |vs| && j < |vs| && Extent(vs) <= 2 * Total(vs)
    ensures |Normalized(vs)| == |vs| && Normalized(vs)[i].priority - Normalized(vs)[j].priority == vs[i].priority - vs[j].priority
  {}

  /** Beyond the window rescaling does not take away more than it has to: half
      the window stays between the extremes. */
  lemma RescalingKeepsHalf(vs: seq<Validator>, window: int)
    requires |vs| > 0 && Extent(vs) > 2 * window > 0
    ensures |Rescaled(vs, 2 * window)| == |vs| && Extent(Rescaled(vs, 2 * window)) >= window - 1
  {
    var ratio := Ratio(Extent(vs), 2 * window);
    RatioPositive(Extent(vs), 2 * window);
    var hi :| 0 <= hi < |vs| && vs[hi].priority == MaxPriority(vs);
    var lo :| 0 <= lo < |vs| && vs[lo].priority == MinPriority(vs);
    RatioBelowDouble(Extent(vs), window);
    QuotientsApart(vs[hi].priority, vs[lo].priority, ratio, window);
    var r := Rescaled(vs, 2 * window);
    assert r == Divided(vs, ratio);
    assert r[hi].priority <= MaxPriority(r) && MinPriority(r) <= r[lo].priority;
  }

  lemma RatioBelowDouble(spread: int, window: int)
    requires spread > 2 * window > 0
    ensures Ratio(spread, 2 * window) * window < spread
  {
    var d := 2 * window;
    var q := (spread + d - 1) / d;
    Quotient(spread + d - 1, d, q);
    assert q * d == 2 * (q * window);
  }

  /** Truncating two quotients loses less than one each. */
  lemma QuotientsApart(a: int, b: int, r: int, w: int)
    requires r > 0 && r * w < a - b
    ensures TruncDiv(a, r) - TruncDiv(b, r) >= w - 1
  {
    var x, y := TruncDiv(a, r), TruncDiv(b, r);
    TruncDivBounds(a, r);
    TruncDivBounds(b, r);
    assert (x - y + 2) * r == x * r - y * r + 2 * r;
    CancelLess(r, w, x - y + 2);
  }

  // ---- The same in 64 bits ----

  ghost predicate AllInInt64(vs: seq<Validator>) {
    forall i :: 0 <= i < |vs| ==> InInt64(vs[i].priority) && InInt64(vs[i].power)
  }

  /** `computeMaxMinPriorityDiff`: the difference wraps, and a negative result is
      negated. */
  function Diff64(vs: seq<Validator>): int
    requires |vs| > 0
  {
    Abs64(Wrap64(Extent(vs)))
  }

  function Ratio64(diff: int, diffMax: int): int
    requires diffMax > 0
  {
    Div64(Wrap64(diff + diffMax - 1), diffMax)
  }

  /** The ratio is the ceiling where the sum fits. Where it wraps, the ratio is
      negative and turns the priorities around, or for the widest windows zero. */
  lemma Ratio64Sign(diff: int, diffMax: int)
    requires 0 < diffMax < diff <= MaxInt64
    ensures diff + diffMax - 1 <= MaxInt64 ==> Ratio64(diff, diffMax) == Ratio(diff, diffMax) > 0
    ensures diff + diffMax - 1 > MaxInt64 ==> Ratio64(diff, diffMax) <= 0
    ensures Ratio64(diff, diffMax) == 0 <==> diff + 2 * diffMax - 1 > TwoTo64
  {
    var sum := diff + diffMax - 1;
    if sum <= MaxInt64 {
      RatioPositive(diff, diffMax);
      DivFits(sum, diffMax);
    } else {
      DivFits(sum - TwoTo64, diffMax);
      QuotientZeroIff(TwoTo64 - sum, diffMax);
    }
  }

  lemma QuotientZeroIff(m: int, d: int)
    requires m >= 0 && d > 0
    ensures m / d >= 0 && (m / d == 0 <==> m < d)
  {
    Quotient(m, d, m / d);
  }

  /** The code decides and divides as it would without a bound. */
  predicate RescalesExactly(spread: int, diffMax: int)
    requires diffMax > 0
  {
    var diff := Abs64(Wrap64(spread));
    (diff <= diffMax <==> spread <= diffMax) && (spread > diffMax ==> Ratio64(diff, diffMax) == Ratio(spread, diffMax))
  }

  /** Exactly for the spreads that need no rescaling or whose guard fits. */
  lemma RescalesExactlyIff(spread: int, diffMax: int)
    requires 0 <= spread < TwoTo64 && 0 < diffMax <= MaxInt64
    ensures RescalesExactly(spread, diffMax) <==> spread <= diffMax || spread + diffMax - 1 <= MaxInt64
  {
    var diff := Abs64(Wrap64(spread));
    if spread <= MaxInt64 {
      assert diff == spread;
      if spread > diffMax {
        RatioPositive(spread, diffMax);
        Ratio64Sign(spread, diffMax);
      }
    } else if diff > diffMax {
      assert diff == TwoTo64 - spread;
      Ratio64Sign(diff, diffMax);
      RatioPositive(spread, diffMax);
      if diff + diffMax - 1 <= MaxInt64 { RatiosDiffer(diff, spread, diffMax); }
    }
  }

  lemma RatiosDiffer(a: int, b: int, d: int)
    requires 0 < a && 0 < d && a + d <= b
    ensures Ratio(a, d) < Ratio(b, d)
  {
    var x, y := a + d - 1, b + d - 1;
    Quotient(x, d, x / d);
    Quotient(y, d, y / d);
    assert (y / d + 1) * d == (y / d) * d + d && (x / d + 1) * d == (x / d) * d + d;
    CancelLess(d, x / d + 1, y / d + 1);
  }

  lemma DivFits(a: int, b: int)
    requires InInt64(a) && b > 0
    ensures Div64(a, b) == TruncDiv(a, b)
  {
    TruncDivBounds(a, b);
  }

  function Divided64(vs: seq<Validator>, ratio: int): (r: seq<Validator>)
    requires ratio != 0
    ensures |r| == |vs| && forall i :: 0 <= i < |vs| ==> r[i] == vs[i].(priority := Div64(vs[i].priority, ratio))
  {
    seq(|vs|, i requires 0 <= i < |vs| => vs[i].(priority := Div64(vs[i].priority, ratio)))
  }

  /** Dividing by a ratio of zero panics. */
  predicate RescalePanics(vs: seq<Validator>, diffMax: int)
    requires |vs| > 0
  {
    0 < diffMax < Diff64(vs) && Ratio64(Diff64(vs), diffMax) == 0
  }

  /** `RescalePriorities`; where it panics nothing is changed. */
  function Rescaled64(vs: seq<Validator>, diffMax: int): (r: seq<Validator>)
    requires |vs| > 0
    ensures SameMembers(vs, r) && (AllInInt64(vs) ==> AllInInt64(r))
  {
    var diff := Diff64(vs);
    if diffMax <= 0 || diff <= diffMax then vs
    else
      var ratio := Ratio64(diff, diffMax);
      if ratio == 0 then vs else Divided64(vs, ratio)
  }

  /** It takes a window beyond a quarter of the range; the callers ask for twice
      the total. */
  lemma WindowNeverPanics(vs: seq<Validator>, diffMax: int)
    requires |vs| > 0 && diffMax <= 2 * MaxTotalVotingPower
    ensures !RescalePanics(vs, diffMax)
  {
    if 0 < diffMax < Diff64(vs) { Ratio64Sign(Diff64(vs), diffMax); }
  }

  lemma AverageInInt64(vs: seq<Validator>)
    requires |vs| > 0 && AllInInt64(vs)
    ensures InInt64(Average(vs))
  {
    AverageBetween(vs, MinInt64, MaxInt64);
  }

  /** `shiftByAvgProposerPriority`, clipping. */
  function Centred64(vs: seq<Validator>): (r: seq<Validator>)
    requires |vs| > 0 && AllInInt64(vs)
    ensures SameMembers(vs, r) && AllInInt64(r)
  {
    AverageInInt64(vs);
    seq(|vs|, i requires 0 <= i < |vs| => vs[i].(priority := SafeSubClip(vs[i].priority, Average(vs))))
  }

  function Normalized64(vs: seq<Validator>): (r: seq<Validator>)
    requires |vs| > 0 && AllInInt64(vs) && Total(vs) <= MaxTotalVotingPower
    ensures SameMembers(vs, r) && AllInInt64(r)
  {
    Centred64(Rescaled64(vs, PriorityWindowSizeFactor * Total(vs)))
  }

  /** The guard of the ratio fits; a spread within the window does in any case. */
  ghost predicate SpreadFits(vs: seq<Validator>)
    requires |vs| > 0
  {
    Extent(vs) + 2 * Total(vs) - 1 <= MaxInt64
  }

  /** For a set of members that is the exact condition. */
  lemma SpreadFitsIff(vs: seq<Validator>)
    requires |vs| > 0 && AllInInt64(vs) && 0 < Total(vs) <= MaxTotalVotingPower
    ensures SpreadFits(vs) <==> RescalesExactly(Extent(vs), 2 * Total(vs))
  {
    assert Extent(vs) < TwoTo64;
    RescalesExactlyIff(Extent(vs), 2 * Total(vs));
  }

  /** The ratio and the branch are those of the exact rescaling. */
  lemma ExactRatio(spread: int, diffMax: int)
    requires 0 <= spread && 0 < diffMax <= MaxInt64 && (spread <= diffMax || spread + diffMax - 1 <= MaxInt64)
    ensures Abs64(Wrap64(spread)) == spread
    ensures spread > diffMax ==> Ratio64(spread, diffMax) == Ratio(spread, diffMax) > 0
  {
    if spread > diffMax { Ratio64Sign(spread, diffMax); }
  }

  lemma RescaleIsExact(vs: seq<Validator>, diffMax: int)
    requires |vs| > 0 && AllInInt64(vs) && 0 < diffMax <= MaxInt64
    requires Extent(vs) <= diffMax || Extent(vs) + diffMax - 1 <= MaxInt64
    ensures !RescalePanics(vs, diffMax) && Rescaled64(vs, diffMax) == Rescaled(vs, diffMax)
  {
    ExactRatio(Extent(vs), diffMax);
    if Extent(vs) > diffMax { DividedIsExact(vs, Ratio(Extent(vs), diffMax)); }
  }

  lemma DividedIsExact(vs: seq<Validator>, ratio: int)
    requires AllInInt64(vs) && ratio > 0
    ensures Divided64(vs, ratio) == Divided(vs, ratio)
  {
    forall i | 0 <= i < |vs| ensures Div64(vs[i].priority, ratio) == TruncDiv(vs[i].priority, ratio) {
      DivFits(vs[i].priority, ratio);
    }
  }

  function TwoEqual(first: int, second: int): seq<Validator> {
    var key := PubKey(Ed25519, []);
    [Validator([0], key, 1, first), Validator([1], key, 1, second)]
  }

  lemma TwoEqualSpread(first: int, second: int)
    requires first >= second
    ensures var vs := TwoEqual(first, second);
      Members(vs) && Total(vs) == 2 && MaxPriority(vs) == first && MinPriority(vs) == second
  {
    var vs := TwoEqual(first, second);
    assert Powers(vs) == [1] + [1] && Sum([1]) == 1;
    SumAppend([1], 1);
    assert vs[..1] == [vs[0]];
  }

  /** Two validators as far apart as can be: the difference wraps to one, and
      nothing is rescaled. */
  lemma FarthestNotRescaled()
    ensures var vs := TwoEqual(MaxInt64, MinInt64);
      Members(vs) && AllInInt64(vs) && !SpreadFits(vs) && !RescalePanics(vs, 4) && Rescaled64(vs, 4) == vs != Rescaled(vs, 4)
  {
    var vs, s := TwoEqual(MaxInt64, MinInt64), TwoTo64 - 1;
    TwoEqualSpread(MaxInt64, MinInt64);
    assert Diff64(vs) == 1;
    assert Ratio(s, 4) == 0x4000_0000_0000_0000;
    assert Rescaled(vs, 4)[0].priority == 1;
  }

  /** Half as far apart: the guard wraps, and the priorities are turned around. */
  lemma RescalingTurnsAround()
    ensures var vs := TwoEqual(MaxInt64, 0);
      Members(vs) && AllInInt64(vs) && !SpreadFits(vs) && !RescalePanics(vs, 4)
      && Rescaled64(vs, 4)[0].priority == -4 && Rescaled(vs, 4)[0].priority == 3
  {
    var vs := TwoEqual(MaxInt64, 0);
    TwoEqualSpread(MaxInt64, 0);
    assert Diff64(vs) == MaxInt64;
    assert Wrap64(MaxInt64 + 3) == MinInt64 + 2;
    assert Ratio64(MaxInt64, 4) == -0x1FFF_FFFF_FFFF_FFFF;
    assert Ratio(MaxInt64, 4) == 0x2000_0000_0000_0000;
  }

  /** Centring after rescaling never clips. */
  lemma CentringFits(vs: seq<Validator>, i: nat)
    requires i < |vs| && Members(vs)
    ensures var r := Rescaled(vs, 2 * Total(vs));
      |r| == |vs| && InInt64(r[i].priority - Average(r))
  {
    TotalBounds(vs);
    RescaledSpread(vs, 2 * Total(vs));
    var r := Rescaled(vs, 2 * Total(vs));
    AverageBetween(r, MinPriority(r), MaxPriority(r));
    var a :| 0 <= a < |r| && r[a].priority == MinPriority(r);
    var b :| 0 <= b < |r| && r[b].priority == MaxPriority(r);
    assert r[b].priority - r[a].priority <= 2 * Total(vs);
    assert r[a].priority <= r[i].priority <= r[b].priority;
  }

  /** If the spread fits, nothing wraps and nothing clips. */
  lemma NormalizedIsExact(vs: seq<Validator>)
    requires |vs| > 0 && AllInInt64(vs) && Members(vs) && SpreadFits(vs)
    ensures Normalized64(vs) == Normalized(vs)
  {
    TotalBounds(vs);
    RescaleIsExact(vs, 2 * Total(vs));
    var r := Rescaled64(vs, 2 * Total(vs));
    forall i | 0 <= i < |r| ensures InInt64(r[i].priority - Average(r)) {
      CentringFits(vs, i);
    }
    CentreIsExact(r);
  }

  lemma CentreIsExact(r: seq<Validator>)
    requires |r| > 0 && AllInInt64(r) && forall i :: 0 <= i < |r| ==> InInt64(r[i].priority - Average(r))
    ensures Centred64(r) == Centred(r)
  {
    AverageInInt64(r);
  }

  /** What `CompareProposerPriority` decides: higher priority, then lower address. */
  predicate Precedes(v: Validator, other: Validator) {
    v.priority > other.priority || (v.priority == other.priority && Less(v.address, other.address))
  }

  /** `m` is the index `getValWithMostPriority` must return. */
  ghost predicate IsMost(vs: seq<Validator>, m: int) {
    0 <= m < |vs| && forall j :: 0 <= j < |vs| && j != m ==> Precedes(vs[m], vs[j])
  }

  /** The first half of `incrementProposerPriority`, with its clip. */
  function Credited(vs: seq<Validator>): (r: seq<Validator>)
    requires forall i :: 0 <= i < |vs| ==> InInt64(vs[i].priority) && InInt64(vs[i].power)
  {
    seq(|vs|, i requires 0 <= i < |vs| => vs[i].(priority := SafeAddClip(vs[i].priority, vs[i].power)))
  }

  /** One call of `incrementProposerPriority` that elects index m, clips included. */
  ghost predicate ClippedStep(vs: seq<Validator>, m: int, next: seq<Validator>) {
    && AllInInt64(vs)
    && InInt64(Total(vs))
    && var c := Credited(vs);
    && IsMost(c, m)
    && next == c[m := c[m].(priority := SafeSubClip(c[m].priority, Total(vs)))]
  }

  /** The same step in exact arithmetic, on the bare numbers: everyone gains
      its power, then a validator with the largest priority pays the total. */
  ghost predicate ExactStep(p: seq<int>, w: seq<int>, m: int, q: seq<int>) {
    && |p| == |w| == |q|
    && 0 <= m < |p|
    && (forall j :: 0 <= j < |p| ==> p[j] + w[j] <= p[m] + w[m])
    && (forall j :: 0 <= j < |p| ==> q[j] == p[j] + w[j] - (if j == m then Sum(w) else 0))
  }

  /** If no priority plus its power exceeds MaxInt64, the clipped step is the
      exact step. */
  lemma StepIsExact(vs: seq<Validator>, m: int, next: seq<Validator>)
    requires ClippedStep(vs, m, next) && Members(vs)
    requires forall i :: 0 <= i < |vs| ==> MinInt64 <= vs[i].priority && vs[i].priority + vs[i].power <= MaxInt64
    requires 0 <= Sum(Priorities(vs))
    ensures SameMembers(vs, next)
    ensures ExactStep(Priorities(vs), Powers(vs), m, Priorities(next))
  {
    var p, w := Priorities(vs), Powers(vs);
    TotalBounds(vs);
    CreditIsExact(vs, m);
    ElectedIsPositive(p, w, m);
  }

  lemma CreditIsExact(vs: seq<Validator>, m: int)
    requires AllInInt64(vs) && IsMost(Credited(vs), m)
    requires forall i :: 0 <= i < |vs| ==> 1 <= vs[i].power && vs[i].priority + vs[i].power <= MaxInt64
    ensures forall i :: 0 <= i < |vs| ==> Credited(vs)[i].priority == Priorities(vs)[i] + Powers(vs)[i]
    ensures forall j :: 0 <= j < |vs| ==> Priorities(vs)[j] + Powers(vs)[j] <= Priorities(vs)[m] + Powers(vs)[m]
  {
    var c := Credited(vs);
    forall j | 0 <= j < |vs| ensures c[j].priority <= c[m].priority {
      if j != m { assert Precedes(c[m], c[j]); }
    }
  }

  /** The elected validator has positive priority before it pays. */
  lemma ElectedIsPositive(p: seq<int>, w: seq<int>, m: int)
    requires |p| == |w| && 0 <= m < |p|
    requires forall j :: 0 <= j < |p| ==> p[j] + w[j] <= p[m] + w[m]
    requires 0 <= Sum(p) && 0 < Sum(w)
    ensures 0 < p[m] + w[m]
  {
    var c := seq(|p|, i requires 0 <= i < |p| => p[i] + w[i]);
    var n, top := |c|, p[m] + w[m];
    assert 0 < n * top by {
      SumPlus(p, w, c);
      SumAtMost(c, top);
    }
    CancelLess(n, 0, top);
  }

  /** A step conserves the sum of the priorities, and keeps every lower bound
      of -T or below. */
  lemma ExactStepConserves(p: seq<int>, w: seq<int>, m: int, q: seq<int>, lo: int)
    requires ExactStep(p, w, m, q)
    requires 0 <= Sum(p) && 0 < Sum(w)
    requires forall i :: 0 <= i < |w| ==> 0 <= w[i]
    requires lo <= -Sum(w)
    requires forall i :: 0 <= i < |p| ==> lo <= p[i]
    ensures Sum(q) == Sum(p)
    ensures forall i :: 0 <= i < |q| ==> lo <= q[i]
  {
    ExactStepSum(p, w, m, q);
    ElectedIsPositive(p, w, m);
  }

  lemma ExactStepSum(p: seq<int>, w: seq<int>, m: int, q: seq<int>)
    requires ExactStep(p, w, m, q)
    ensures Sum(q) == Sum(p)
  {
    var c := q[m := q[m] + Sum(w)];
    SumPlus(p, w, c);
    SumUpdate(q, m, q[m] + Sum(w));
  }
}
