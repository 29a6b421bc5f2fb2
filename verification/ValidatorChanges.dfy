/** What a change list does to a validator list, one change at a time, with the
    bookkeeping of total power. This is the reference that the sorted merge of
    `updateWithChangeSet` is proved against. */
module ValidatorChanges {
  import opened Basics
  import opened Sums
  import opened Validators

  lemma GetByAddressUnique(vs: seq<Validator>, v: Validator)
    requires DistinctAddresses(vs) && v in vs
    ensures GetByAddress(vs, v.address) == Some(v)
  {
    var i :| 0 <= i < |vs| && vs[i] == v;
    assert vs[i].address == v.address;
    var w := GetByAddress(vs, v.address).value;
    var j :| 0 <= j < |vs| && vs[j] == w;
  }

  /** The power held at an address, zero if there is none. */
  function PowerAt(vs: seq<Validator>, a: Address): int {
    var v := GetByAddress(vs, a);
    if v.Some? then v.value.power else 0
  }

  // ---- One change at a time ----

  function Without(vs: seq<Validator>, a: Address): (r: seq<Validator>)
    ensures forall v :: v in r <==> v in vs && v.address != a
  {
    if |vs| == 0 then []
    else
      var init, last := vs[..|vs| - 1], vs[|vs| - 1];
      assert vs == init + [last];
      if last.address == a then Without(init, a) else Without(init, a) + [last]
  }

  /** Power zero removes, anything else adds or replaces. */
  function Put(vs: seq<Validator>, c: Validator): seq<Validator> {
    Without(vs, c.address) + (if c.power == 0 then [] else [c])
  }

  function Applied(vs: seq<Validator>, changes: seq<Validator>): seq<Validator> {
    if |changes| == 0 then vs
    else Put(Applied(vs, changes[..|changes| - 1]), changes[|changes| - 1])
  }

  lemma {:induction false} WithoutDistinct(vs: seq<Validator>, a: Address)
    requires DistinctAddresses(vs)
    ensures DistinctAddresses(Without(vs, a))
  {
    if |vs| > 0 {
      var init, last := vs[..|vs| - 1], vs[|vs| - 1];
      WithoutDistinct(init, a);
      var w := Without(init, a);
      forall i | 0 <= i < |w| ensures w[i].address != last.address {
        assert w[i] in init;
        var j :| 0 <= j < |init| && init[j] == w[i];
        assert vs[j] == w[i];
      }
    }
  }

  lemma {:induction false} WithoutTotal(vs: seq<Validator>, a: Address)
    requires DistinctAddresses(vs)
    ensures Total(Without(vs, a)) == Total(vs) - PowerAt(vs, a)
  {
    if |vs| > 0 {
      var init, last := vs[..|vs| - 1], vs[|vs| - 1];
      assert vs == init + [last];
      WithoutTotal(init, a);
      TotalAppend(init, last);
      PowerAtAppend(init, last, a);
      if last.address == a {
        AbsentPower(init, last);
      } else {
        TotalAppend(Without(init, a), last);
      }
    }
  }

  lemma AbsentPower(init: seq<Validator>, last: Validator)
    requires DistinctAddresses(init + [last])
    ensures PowerAt(init, last.address) == 0
  {
    var vs := init + [last];
    assert forall i :: 0 <= i < |init| ==> vs[i] == init[i] && vs[i].address != vs[|init|].address;
  }

  lemma PowerAtAppend(init: seq<Validator>, last: Validator, a: Address)
    requires DistinctAddresses(init + [last])
    ensures PowerAt(init + [last], a) == if last.address == a then last.power else PowerAt(init, a)
  {
    var vs := init + [last];
    assert vs[|init|] == last;
    HasAddressAppend(init, last, a);
    if last.address == a {
      GetByAddressUnique(vs, last);
    } else if HasAddress(init, a) {
      var v := GetByAddress(init, a).value;
      assert v in vs;
      GetByAddressUnique(vs, v);
    }
  }

  lemma PutTotal(vs: seq<Validator>, c: Validator)
    requires DistinctAddresses(vs)
    ensures DistinctAddresses(Put(vs, c))
    ensures Total(Put(vs, c)) == Total(vs) - PowerAt(vs, c.address) + c.power
  {
    WithoutDistinct(vs, c.address);
    WithoutTotal(vs, c.address);
    var w := Without(vs, c.address);
    if c.power == 0 {
      assert Put(vs, c) == w;
    } else {
      TotalAppend(w, c);
      forall i | 0 <= i < |w| ensures w[i].address != c.address { assert w[i] in w; }
    }
  }

  /** Membership after a whole change list with distinct addresses. */
  lemma {:induction false} AppliedMembers(vs: seq<Validator>, changes: seq<Validator>, v: Validator)
    requires DistinctAddresses(changes)
    ensures v in Applied(vs, changes)
       <==> (v in changes && v.power != 0) || (v in vs && !HasAddress(changes, v.address))
  {
    if |changes| > 0 {
      var n := |changes| - 1;
      var init, c := changes[..n], changes[n];
      AppliedMembers(vs, init, v);
      assert changes == init + [c];
      HasAddressAppend(init, c, v.address);
      if v in init {
        var i :| 0 <= i < n && changes[i] == v;
        assert changes[i].address != c.address;
      }
    }
  }

  lemma HasAddressAppend(init: seq<Validator>, last: Validator, a: Address)
    ensures HasAddress(init + [last], a) <==> HasAddress(init, a) || last.address == a
  {
    var vs := init + [last];
    assert vs[|init|] == last;
    if HasAddress(init, a) {
      var i :| 0 <= i < |init| && init[i].address == a;
      assert vs[i].address == a;
    }
    if HasAddress(vs, a) && last.address != a {
      var i :| 0 <= i < |vs| && vs[i].address == a;
      assert init[i].address == a;
    }
  }

  /** What a change adds to the total power. */
  function Delta(vs: seq<Validator>, c: Validator): int { c.power - PowerAt(vs, c.address) }

  function Deltas(vs: seq<Validator>, changes: seq<Validator>): (d: seq<int>)
    ensures |d| == |changes| && forall i :: 0 <= i < |d| ==> d[i] == Delta(vs, changes[i])
  {
    seq(|changes|, i requires 0 <= i < |changes| => Delta(vs, changes[i]))
  }

  /** An untouched address keeps its power. */
  lemma AppliedPowerAt(vs: seq<Validator>, changes: seq<Validator>, a: Address)
    requires DistinctAddresses(vs) && DistinctAddresses(changes) && !HasAddress(changes, a)
    requires DistinctAddresses(Applied(vs, changes))
    ensures PowerAt(Applied(vs, changes), a) == PowerAt(vs, a)
  {
    var r := Applied(vs, changes);
    if HasAddress(r, a) {
      var v := GetByAddress(r, a).value;
      AppliedMembers(vs, changes, v);
      assert forall i :: 0 <= i < |changes| ==> changes[i].address != a;
      GetByAddressUnique(vs, v);
    } else if HasAddress(vs, a) {
      var v := GetByAddress(vs, a).value;
      AppliedMembers(vs, changes, v);
      GetByAddressUnique(r, v);
    }
  }

  lemma {:induction false} AppliedTotal(vs: seq<Validator>, changes: seq<Validator>)
    requires DistinctAddresses(vs) && DistinctAddresses(changes)
    ensures DistinctAddresses(Applied(vs, changes))
    ensures Total(Applied(vs, changes)) == Total(vs) + Sum(Deltas(vs, changes))
  {
    if |changes| > 0 {
      var n := |changes| - 1;
      var init, c := changes[..n], changes[n];
      AppliedTotal(vs, init);
      LastIsNew(changes);
      AppliedPowerAt(vs, init, c.address);
      PutTotal(Applied(vs, init), c);
      DeltasSplit(vs, changes);
    }
  }

  lemma LastIsNew(changes: seq<Validator>)
    requires DistinctAddresses(changes) && |changes| > 0
    ensures DistinctAddresses(changes[..|changes| - 1])
    ensures !HasAddress(changes[..|changes| - 1], changes[|changes| - 1].address)
  {
    var n := |changes| - 1;
    assert forall i :: 0 <= i < n ==> changes[..n][i] == changes[i] && changes[i].address != changes[n].address;
  }

  lemma DeltasSplit(vs: seq<Validator>, changes: seq<Validator>)
    requires |changes| > 0
    ensures Sum(Deltas(vs, changes)) == Sum(Deltas(vs, changes[..|changes| - 1])) + Delta(vs, changes[|changes| - 1])
  {
    var n := |changes| - 1;
    assert Deltas(vs, changes)[..n] == Deltas(vs, changes[..n]);
  }

  // ---- Lists as sets ----

  /** Lists with distinct addresses and the same members are permutations. */
  lemma {:induction false} SamePermutation(a: seq<Validator>, b: seq<Validator>)
    requires DistinctAddresses(a) && DistinctAddresses(b)
    requires forall v :: v in a <==> v in b
    ensures multiset(a) == multiset(b)
  {
    forall v ensures multiset(a)[v] == multiset(b)[v] {
      OccursOnce(a, v);
      OccursOnce(b, v);
    }
  }

  lemma {:induction false} OccursOnce(vs: seq<Validator>, v: Validator)
    requires DistinctAddresses(vs)
    ensures multiset(vs)[v] == if v in vs then 1 else 0
  {
    if |vs| > 0 {
      var n := |vs| - 1;
      var init := vs[..n];
      assert vs == init + [vs[n]];
      OccursOnce(init, v);
      assert forall i :: 0 <= i < n ==> init[i] == vs[i] && vs[i].address != vs[n].address;
    }
  }

  /** A permutation keeps the sum of any measure of the members. */
  function SumBy(f: Validator -> int, vs: seq<Validator>): int {
    if |vs| == 0 then 0 else SumBy(f, vs[..|vs| - 1]) + f(vs[|vs| - 1])
  }

  lemma {:induction false} SumByRemove(f: Validator -> int, vs: seq<Validator>, i: nat)
    requires i < |vs|
    ensures SumBy(f, vs) == SumBy(f, vs[..i] + vs[i + 1..]) + f(vs[i])
  {
    var n := |vs| - 1;
    if i == n {
      assert vs[..i] + vs[i + 1..] == vs[..n];
    } else {
      var rest := vs[..i] + vs[i + 1..];
      SumByRemove(f, vs[..n], i);
      assert rest[..n - 1] == vs[..n][..i] + vs[..n][i + 1..];
      assert rest[n - 1] == vs[n];
    }
  }

  lemma {:induction false} SumByPermutation(f: Validator -> int, a: seq<Validator>, b: seq<Validator>)
    requires multiset(a) == multiset(b)
    ensures |a| == |b| && SumBy(f, a) == SumBy(f, b)
  {
    if |a| == 0 {
      assert |multiset(b)| == 0;
    } else {
      var n := |a| - 1;
      var i := FindLast(a, b);
      SumByRemove(f, b, i);
      SumByPermutation(f, a[..n], b[..i] + b[i + 1..]);
    }
  }

  lemma FindLast(a: seq<Validator>, b: seq<Validator>) returns (i: nat)
    requires multiset(a) == multiset(b) && |a| > 0
    ensures i < |b| && b[i] == a[|a| - 1]
    ensures multiset(a[..|a| - 1]) == multiset(b[..i] + b[i + 1..])
  {
    var n := |a| - 1;
    assert a == a[..n] + [a[n]];
    assert a[n] in multiset(b);
    i :| 0 <= i < |b| && b[i] == a[n];
    var rest := b[..i] + b[i + 1..];
    assert b == b[..i] + [b[i]] + b[i + 1..];
    assert multiset(b) == multiset(rest) + multiset{b[i]};
    assert multiset(a) == multiset(a[..n]) + multiset{a[n]};
    assert multiset(rest) == multiset(b) - multiset{b[i]};
    assert multiset(a[..n]) == multiset(a) - multiset{a[n]};
  }

  lemma {:induction false} TotalIsSumBy(vs: seq<Validator>)
    ensures Total(vs) == SumBy((v: Validator) => v.power, vs)
  {
    if |vs| > 0 {
      var n := |vs| - 1;
      TotalIsSumBy(vs[..n]);
      assert Powers(vs)[..n] == Powers(vs[..n]);
    }
  }

  lemma {:induction false} DeltasIsSumBy(vs: seq<Validator>, cs: seq<Validator>)
    ensures Sum(Deltas(vs, cs)) == SumBy((c: Validator) => Delta(vs, c), cs)
  {
    if |cs| > 0 {
      var n := |cs| - 1;
      DeltasIsSumBy(vs, cs[..n]);
      assert Deltas(vs, cs)[..n] == Deltas(vs, cs[..n]);
    }
  }

  lemma TotalPermutation(a: seq<Validator>, b: seq<Validator>)
    requires multiset(a) == multiset(b)
    ensures |a| == |b| && Total(a) == Total(b)
  {
    TotalIsSumBy(a);
    TotalIsSumBy(b);
    SumByPermutation((v: Validator) => v.power, a, b);
  }

  lemma DeltasPermutation(vs: seq<Validator>, a: seq<Validator>, b: seq<Validator>)
    requires multiset(a) == multiset(b)
    ensures Sum(Deltas(vs, a)) == Sum(Deltas(vs, b))
  {
    DeltasIsSumBy(vs, a);
    DeltasIsSumBy(vs, b);
    SumByPermutation((c: Validator) => Delta(vs, c), a, b);
  }
}
