/** Finite sums of integer sequences. */
module Sums {
  function Sum(s: seq<int>): int {
    if |s| == 0 then 0 else Sum(s[..|s| - 1]) + s[|s| - 1]
  }

  lemma SumAppend(s: seq<int>, x: int)
    ensures Sum(s + [x]) == Sum(s) + x
  {
    assert (s + [x])[..|s|] == s;
  }

  lemma {:induction false} SumConcat(a: seq<int>, b: seq<int>)
    ensures Sum(a + b) == Sum(a) + Sum(b)
  {
    if |b| == 0 {
      assert a + b == a;
    } else {
      assert (a + b)[..|a + b| - 1] == a + b[..|b| - 1];
      SumConcat(a, b[..|b| - 1]);
    }
  }

  lemma {:induction false} SumUpdate(s: seq<int>, i: nat, x: int)
    requires i < |s|
    ensures Sum(s[i := x]) == Sum(s) - s[i] + x
  {
    if i == |s| - 1 {
      assert s[i := x][..i] == s[..i];
    } else {
      assert s[i := x][..|s| - 1] == s[..|s| - 1][i := x];
      SumUpdate(s[..|s| - 1], i, x);
    }
  }

  lemma {:induction false} SumPlus(a: seq<int>, b: seq<int>, c: seq<int>)
    requires |a| == |b| == |c|
    requires forall i :: 0 <= i < |a| ==> c[i] == a[i] + b[i]
    ensures Sum(c) == Sum(a) + Sum(b)
  {
    if |a| > 0 {
      var n := |a| - 1;
      SumPlus(a[..n], b[..n], c[..n]);
    }
  }

  lemma {:induction false} SumShift(a: seq<int>, c: seq<int>, d: int)
    requires |a| == |c|
    requires forall i :: 0 <= i < |a| ==> c[i] == a[i] - d
    ensures Sum(c) == Sum(a) - |a| * d
  {
    if |a| > 0 {
      var n := |a| - 1;
      SumShift(a[..n], c[..n], d);
      assert |a| * d == n * d + d;
    }
  }

  lemma {:induction false} SumAtLeast(a: seq<int>, lo: int)
    requires forall i :: 0 <= i < |a| ==> lo <= a[i]
    ensures |a| * lo <= Sum(a)
  {
    if |a| > 0 {
      var n := |a| - 1;
      SumAtLeast(a[..n], lo);
      assert |a| * lo == n * lo + lo;
    }
  }

  lemma {:induction false} SumAtMost(a: seq<int>, hi: int)
    requires forall i :: 0 <= i < |a| ==> a[i] <= hi
    ensures Sum(a) <= |a| * hi
  {
    if |a| > 0 {
      var n := |a| - 1;
      SumAtMost(a[..n], hi);
      assert |a| * hi == n * hi + hi;
    }
  }

  lemma {:induction false} SumMonotone(a: seq<int>, b: seq<int>)
    requires |a| == |b|
    requires forall i :: 0 <= i < |a| ==> a[i] <= b[i]
    ensures Sum(a) <= Sum(b)
  {
    if |a| > 0 {
      var n := |a| - 1;
      SumMonotone(a[..n], b[..n]);
    }
  }

  lemma {:induction false} SumPairs(a: seq<int>, b: seq<int>, c: seq<int>, d: seq<int>)
    requires |a| == |b| == |c| == |d|
    requires forall i :: 0 <= i < |a| ==> a[i] + b[i] <= c[i] + d[i]
    ensures Sum(a) + Sum(b) <= Sum(c) + Sum(d)
  {
    if |a| > 0 {
      var n := |a| - 1;
      SumPairs(a[..n], b[..n], c[..n], d[..n]);
    }
  }

  lemma {:induction false} SumNonNegative(a: seq<int>, i: nat)
    requires i < |a|
    requires forall j :: 0 <= j < |a| ==> 0 <= a[j]
    ensures a[i] <= Sum(a)
  {
    var n := |a| - 1;
    SumAtLeast(a[..n], 0);
    if i < n { SumNonNegative(a[..n], i); }
  }

  // Sums over part of a sequence, the part given by a mask.

  function Masked(mask: seq<bool>, s: seq<int>): (r: seq<int>)
    requires |mask| == |s|
    ensures |r| == |s| && forall i :: 0 <= i < |s| ==> r[i] == if mask[i] then s[i] else 0
  {
    seq(|s|, i requires 0 <= i < |s| => if mask[i] then s[i] else 0)
  }

  function MaskSum(mask: seq<bool>, s: seq<int>): int
    requires |mask| == |s|
  {
    Sum(Masked(mask, s))
  }

  function Ones(n: nat): (r: seq<int>)
    ensures |r| == n && forall i :: 0 <= i < n ==> r[i] == 1
  {
    seq(n, _ => 1)
  }

  /** How many positions the mask selects. */
  function Count(mask: seq<bool>): int { MaskSum(mask, Ones(|mask|)) }

  lemma MaskSumSet(mask: seq<bool>, s: seq<int>, i: nat)
    requires |mask| == |s| && i < |s| && !mask[i]
    ensures MaskSum(mask[i := true], s) == MaskSum(mask, s) + s[i]
  {
    assert Masked(mask[i := true], s) == Masked(mask, s)[i := s[i]];
    SumUpdate(Masked(mask, s), i, s[i]);
  }

  lemma MaskSumSubset(a: seq<bool>, b: seq<bool>, s: seq<int>)
    requires |a| == |b| == |s|
    requires forall i :: 0 <= i < |s| ==> 0 <= s[i] && (a[i] ==> b[i])
    ensures 0 <= MaskSum(a, s) <= MaskSum(b, s) <= Sum(s)
  {
    SumAtLeast(Masked(a, s), 0);
    SumMonotone(Masked(a, s), Masked(b, s));
    SumMonotone(Masked(b, s), s);
  }

  /** Inclusion and exclusion: two parts of a whole overlap in at least their
      joint excess over it. */
  lemma MaskSumOverlap(a: seq<bool>, b: seq<bool>, both: seq<bool>, s: seq<int>)
    requires |a| == |b| == |both| == |s|
    requires forall i :: 0 <= i < |s| ==> 0 <= s[i] && (both[i] <==> a[i] && b[i])
    ensures MaskSum(a, s) + MaskSum(b, s) - Sum(s) <= MaskSum(both, s)
  {
    SumPairs(Masked(a, s), Masked(b, s), s, Masked(both, s));
  }
}
