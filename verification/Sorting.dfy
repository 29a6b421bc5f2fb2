/** Sorting, known to its callers only by what `sort.Sort` promises: an ordered
    permutation, with no promise about the order of equivalent elements. */
module Sorting {
  ghost predicate StrictWeakOrder<T(!new)>(less: (T, T) -> bool) {
    && (forall a, b :: !(less(a, b) && less(b, a)))
    && (forall a, b, c :: !less(b, a) && !less(c, b) ==> !less(c, a))
  }

  ghost predicate SortedBy<T(!new)>(s: seq<T>, less: (T, T) -> bool) {
    forall i, j :: 0 <= i < j < |s| ==> !less(s[j], s[i])
  }

  method Sort<T(!new)>(s: seq<T>, less: (T, T) -> bool) returns (r: seq<T>)
    requires StrictWeakOrder(less)
    ensures SortedBy(r, less)
    ensures multiset(r) == multiset(s) && |r| == |s|
  {
    r := [];
    for i := 0 to |s|
      invariant SortedBy(r, less)
      invariant multiset(r) == multiset(s[..i]) && |r| == i
    {
      assert s[..i + 1] == s[..i] + [s[i]];
      r := Insert(r, s[i], less);
    }
    assert s[..|s|] == s;
  }

  method Insert<T(!new)>(s: seq<T>, x: T, less: (T, T) -> bool) returns (r: seq<T>)
    requires StrictWeakOrder(less) && SortedBy(s, less)
    ensures SortedBy(r, less)
    ensures multiset(r) == multiset(s) + multiset{x} && |r| == |s| + 1
  {
    var k := |s|;
    while k > 0 && less(x, s[k - 1])
      invariant 0 <= k <= |s|
      invariant forall j :: k <= j < |s| ==> less(x, s[j])
    {
      k := k - 1;
    }
    r := s[..k] + [x] + s[k..];
    InsertionKeepsOrder(s, x, k, less);
    assert s == s[..k] + s[k..];
  }

  lemma InsertionKeepsOrder<T(!new)>(s: seq<T>, x: T, k: nat, less: (T, T) -> bool)
    requires StrictWeakOrder(less) && SortedBy(s, less) && k <= |s|
    requires k == 0 || !less(x, s[k - 1])
    requires forall j :: k <= j < |s| ==> less(x, s[j])
    ensures SortedBy(s[..k] + [x] + s[k..], less)
  {
    var r := s[..k] + [x] + s[k..];
    forall j | 0 <= j < k ensures !less(x, s[j]) {
      if j < k - 1 { assert !less(s[k - 1], s[j]); }
    }
    forall i, j | 0 <= i < j < |r| ensures !less(r[j], r[i]) {
      var si := if i < k then s[i] else if i == k then x else s[i - 1];
      var sj := if j < k then s[j] else if j == k then x else s[j - 1];
      assert r[i] == si && r[j] == sj;
    }
  }
}
