/** The two linear merges of `updateWithChangeSet` over address-sorted lists. */
module ChangeMerge {
  import opened Basics
  import opened Int64
  import opened Sorting
  import opened Validators
  import opened ChangeProcessing
  import opened ChangeVerification

  /** A newcomer starts at -1.125 times the total before removals; a known
      validator keeps its priority. */
  function NewPriority(vs: seq<Validator>, updatedTotal: int, a: Address): int {
    var v := GetByAddress(vs, a);
    if v.Some? then v.value.priority else -(updatedTotal + updatedTotal / 8)
  }

  function WithPriority(vs: seq<Validator>, updatedTotal: int, c: Validator): Validator {
    c.(priority := NewPriority(vs, updatedTotal, c.address))
  }

  function Incoming(vs: seq<Validator>, updatedTotal: int, cs: seq<Validator>): (r: seq<Validator>)
    ensures |r| == |cs| && forall i :: 0 <= i < |cs| ==> r[i] == WithPriority(vs, updatedTotal, cs[i])
  {
    seq(|cs|, i requires 0 <= i < |cs| => WithPriority(vs, updatedTotal, cs[i]))
  }

  /** `computeNewPriorities` */
  method ComputeNewPriorities(updates: seq<Validator>, vs: seq<Validator>, updatedTotal: int) returns (r: seq<Validator>)
    requires 0 <= updatedTotal <= 2 * MaxTotalVotingPower
    ensures r == Incoming(vs, updatedTotal, updates)
    ensures forall i :: 0 <= i < |r| ==> if HasAddress(vs, r[i].address)
      then r[i].priority == GetByAddress(vs, r[i].address).value.priority
      else -9 * updatedTotal <= 8 * r[i].priority <= -9 * updatedTotal + 7
  {
    r := updates;
    for i := 0 to |updates|
      invariant |r| == |updates|
      invariant forall j :: 0 <= j < i ==> r[j] == WithPriority(vs, updatedTotal, updates[j])
      invariant forall j :: i <= j < |r| ==> r[j] == updates[j]
    {
      var val := GetByAddress(vs, r[i].address);
      if val.None? {
        r := r[i := r[i].(priority := Sub64(0, Add64(updatedTotal, updatedTotal / 8)))];
      } else {
        r := r[i := r[i].(priority := val.value.priority)];
      }
    }
  }

  // ---- applyUpdates ----

  /** The first a of `e` and the first b of `u` have been merged. */
  ghost predicate Merging(e: seq<Validator>, u: seq<Validator>, a: nat, b: nat, m: seq<Validator>) {
    && a <= |e| && b <= |u|
    && Ascending(m)
    && (forall v :: v in m <==> v in u[..b] || (v in e[..a] && !HasAddress(u, v.address)))
    && (forall i :: 0 <= i < |m| ==> (a < |e| ==> Less(m[i].address, e[a].address)) && (b < |u| ==> Less(m[i].address, u[b].address)))
    && (forall j :: 0 <= j < b && a < |e| ==> Less(u[j].address, e[a].address))
  }

  lemma NotAmong(u: seq<Validator>, b: nat, x: Address)
    requires Ascending(u) && b <= |u|
    requires forall j :: 0 <= j < b ==> Less(u[j].address, x)
    requires b < |u| ==> Less(x, u[b].address)
    ensures !HasAddress(u, x)
  {
    LessIrreflexive(x);
    forall j | 0 <= j < |u| ensures u[j].address != x {
      if j > b { LessTransitive(x, u[b].address, u[j].address); }
    }
  }

  lemma TakeExisting(e: seq<Validator>, u: seq<Validator>, a: nat, b: nat, m: seq<Validator>)
    requires Ascending(e) && Ascending(u) && Merging(e, u, a, b, m) && a < |e|
    requires b < |u| ==> Less(e[a].address, u[b].address)
    ensures Merging(e, u, a + 1, b, m + [e[a]])
  {
    var x := e[a];
    NotAmong(u, b, x.address);
    assert e[..a + 1] == e[..a] + [x];
    var m' := m + [x];
    forall i | 0 <= i < |m'|
      ensures a + 1 < |e| ==> Less(m'[i].address, e[a + 1].address)
    {
      if a + 1 < |e| && i < |m| { LessTransitive(m[i].address, x.address, e[a + 1].address); }
    }
    forall j | 0 <= j < b && a + 1 < |e| ensures Less(u[j].address, e[a + 1].address) {
      LessTransitive(u[j].address, x.address, e[a + 1].address);
    }
  }

  lemma TakeUpdate(e: seq<Validator>, u: seq<Validator>, a: nat, b: nat, m: seq<Validator>)
    requires Ascending(e) && Ascending(u) && Merging(e, u, a, b, m) && b < |u|
    requires a < |e| ==> !Less(e[a].address, u[b].address)
    ensures var a' := if a < |e| && e[a].address == u[b].address then a + 1 else a; Merging(e, u, a', b + 1, m + [u[b]])
  {
    var x := u[b];
    var same := a < |e| && e[a].address == x.address;
    var a' := if same then a + 1 else a;
    if a < |e| { LessTotal(e[a].address, x.address); }
    assert u[..b + 1] == u[..b] + [x];
    assert same ==> e[..a + 1] == e[..a] + [e[a]] && HasAddress(u, e[a].address);
    assert a' < |e| ==> Less(x.address, e[a'].address);
    var m' := m + [x];
    forall i | 0 <= i < |m'|
      ensures a' < |e| ==> Less(m'[i].address, e[a'].address)
      ensures b + 1 < |u| ==> Less(m'[i].address, u[b + 1].address)
    {
      if i < |m| {
        if a' < |e| { LessTransitive(m[i].address, x.address, e[a'].address); }
        if b + 1 < |u| { LessTransitive(m[i].address, x.address, u[b + 1].address); }
      }
    }
    forall j | 0 <= j < b + 1 && a' < |e| ensures Less(u[j].address, e[a'].address) {
      if j < b { LessTransitive(u[j].address, x.address, e[a'].address); }
    }
  }

  /** `applyUpdates`: the update wins where both lists have an address. */
  method ApplyUpdates(vs: seq<Validator>, updates: seq<Validator>) returns (m: seq<Validator>)
    requires DistinctAddresses(vs) && Ascending(updates)
    ensures Ascending(m)
    ensures forall v :: v in m <==> v in updates || (v in vs && !HasAddress(updates, v.address))
  {
    ByAddressOrders();
    var existing := Sort(vs, ByAddress);
    SortedDistinctAscends(vs, existing);
    var a, b;
    m, a, b := MergeHeads(existing, updates);
    m := MergeRest(existing, updates, a, b, m);
    MergeComplete(vs, existing, updates, m);
  }

  method MergeHeads(existing: seq<Validator>, updates: seq<Validator>) returns (m: seq<Validator>, a: nat, b: nat)
    requires Ascending(existing) && Ascending(updates)
    ensures Merging(existing, updates, a, b, m) && (a == |existing| || b == |updates|)
  {
    m, a, b := [], 0, 0;
    while a < |existing| && b < |updates|
      invariant Merging(existing, updates, a, b, m)
      decreases |existing| + |updates| - a - b
    {
      if Less(existing[a].address, updates[b].address) {
        TakeExisting(existing, updates, a, b, m);
        m, a := m + [existing[a]], a + 1;
      } else {
        TakeUpdate(existing, updates, a, b, m);
        m := m + [updates[b]];
        if existing[a].address == updates[b].address {
          a := a + 1;
        }
        b := b + 1;
      }
    }
  }

  /** The elements that are left, of whichever list they are. */
  method MergeRest(existing: seq<Validator>, updates: seq<Validator>, i: nat, j: nat, heads: seq<Validator>) returns (m: seq<Validator>)
    requires Ascending(existing) && Ascending(updates)
    requires Merging(existing, updates, i, j, heads) && (i == |existing| || j == |updates|)
    ensures Merging(existing, updates, |existing|, |updates|, m)
  {
    m := heads;
    var a, b := i, j;
    while a < |existing|
      invariant Merging(existing, updates, a, b, m) && (a == |existing| || b == |updates|)
    {
      TakeExisting(existing, updates, a, b, m);
      m, a := m + [existing[a]], a + 1;
    }
    while b < |updates|
      invariant Merging(existing, updates, a, b, m) && a == |existing|
    {
      TakeUpdate(existing, updates, a, b, m);
      m, b := m + [updates[b]], b + 1;
    }
  }

  lemma MergeComplete(vs: seq<Validator>, e: seq<Validator>, u: seq<Validator>, m: seq<Validator>)
    requires multiset(e) == multiset(vs) && Merging(e, u, |e|, |u|, m)
    ensures forall v :: v in m <==> v in u || (v in vs && !HasAddress(u, v.address))
  {
    assert e[..|e|] == e && u[..|u|] == u;
    forall v ensures v in e <==> v in vs {
      assert v in e <==> v in multiset(e);
    }
  }

  lemma SortedDistinctAscends(vs: seq<Validator>, s: seq<Validator>)
    requires multiset(s) == multiset(vs) && DistinctAddresses(vs) && SortedBy(s, ByAddress)
    ensures Ascending(s)
  {
    DistinctPermutation(vs, s);
    forall i, j | 0 <= i < j < |s| ensures Less(s[i].address, s[j].address) {
      assert !ByAddress(s[j], s[i]);
      LessTotal(s[i].address, s[j].address);
    }
  }

  // ---- applyRemovals ----

  ghost predicate Removing(e: seq<Validator>, d: seq<Validator>, a: nat, b: nat, m: seq<Validator>) {
    && a <= |e| && b <= |d| && |m| == a - b
    && Ascending(m)
    && (forall v :: v in m <==> v in e[..a] && !HasAddress(d, v.address))
    && (forall i :: 0 <= i < |m| && a < |e| ==> Less(m[i].address, e[a].address))
    && (forall j :: b <= j < |d| ==> HasAddress(e[a..], d[j].address))
    && (forall j :: 0 <= j < b && a < |e| ==> Less(d[j].address, e[a].address))
  }

  lemma HasAddressTail(s: seq<Validator>, x: Address)
    requires |s| > 0
    ensures HasAddress(s, x) <==> s[0].address == x || HasAddress(s[1..], x)
  {
    if HasAddress(s, x) && s[0].address != x {
      var i :| 0 <= i < |s| && s[i].address == x;
      assert s[1..][i - 1].address == x;
    }
    if HasAddress(s[1..], x) {
      var i :| 0 <= i < |s[1..]| && s[1..][i].address == x;
      assert s[i + 1].address == x;
    }
  }

  lemma Drop(e: seq<Validator>, d: seq<Validator>, a: nat, b: nat, m: seq<Validator>)
    requires Ascending(e) && Ascending(d) && Removing(e, d, a, b, m) && a < |e| && b < |d|
    requires e[a].address == d[b].address
    ensures Removing(e, d, a + 1, b + 1, m)
  {
    assert e[..a + 1] == e[..a] + [e[a]];
    assert HasAddress(d, e[a].address);
    assert e[a..][1..] == e[a + 1..];
    AscendingDistinct(d);
    forall j | b + 1 <= j < |d| ensures HasAddress(e[a + 1..], d[j].address) {
      HasAddressTail(e[a..], d[j].address);
    }
    forall i | 0 <= i < |m| && a + 1 < |e| ensures Less(m[i].address, e[a + 1].address) {
      LessTransitive(m[i].address, e[a].address, e[a + 1].address);
    }
    forall j | 0 <= j < b + 1 && a + 1 < |e| ensures Less(d[j].address, e[a + 1].address) {
      if j < b { LessTransitive(d[j].address, e[a].address, e[a + 1].address); }
    }
  }

  lemma Keep(e: seq<Validator>, d: seq<Validator>, a: nat, b: nat, m: seq<Validator>)
    requires Ascending(e) && Ascending(d) && Removing(e, d, a, b, m) && a < |e|
    requires b < |d| ==> e[a].address != d[b].address
    ensures Removing(e, d, a + 1, b, m + [e[a]])
  {
    var x, m' := e[a], m + [e[a]];
    assert e[..a + 1] == e[..a] + [x];
    assert e[a..][1..] == e[a + 1..];
    if b < |d| { RemainingLater(e, a, d[b].address); }
    NotAmong(d, b, x.address);
    forall j | b <= j < |d| ensures HasAddress(e[a + 1..], d[j].address) {
      HasAddressTail(e[a..], d[j].address);
      assert x.address != d[j].address;
    }
    forall i | 0 <= i < |m'| && a + 1 < |e| ensures Less(m'[i].address, e[a + 1].address) {
      if i < |m| { LessTransitive(m[i].address, x.address, e[a + 1].address); }
    }
    forall j | 0 <= j < b && a + 1 < |e| ensures Less(d[j].address, e[a + 1].address) {
      LessTransitive(d[j].address, x.address, e[a + 1].address);
    }
  }

  /** A remaining address other than the next one comes after it. */
  lemma RemainingLater(e: seq<Validator>, a: nat, x: Address)
    requires Ascending(e) && a < |e| && HasAddress(e[a..], x) && e[a].address != x
    ensures Less(e[a].address, x)
  {
    var i :| 0 <= i < |e[a..]| && e[a..][i].address == x;
    assert e[a + i].address == x;
  }

  /** `applyRemovals`: exactly the listed addresses disappear, so the result
      fills the buffer of len(existing) - len(deletes) elements. */
  method ApplyRemovals(existing: seq<Validator>, deletes: seq<Validator>) returns (m: seq<Validator>)
    requires Ascending(existing) && Ascending(deletes) && AllPresent(existing, deletes)
    ensures Ascending(m) && |m| == |existing| - |deletes|
    ensures forall v :: v in m <==> v in existing && !HasAddress(deletes, v.address)
  {
    m := [];
    var a, b := 0, 0;
    assert existing[0..] == existing;
    while b < |deletes|
      invariant Removing(existing, deletes, a, b, m)
      decreases |existing| - a
    {
      assert HasAddress(existing[a..], deletes[b].address);
      if existing[a].address == deletes[b].address {
        Drop(existing, deletes, a, b, m);
        b := b + 1;
      } else {
        Keep(existing, deletes, a, b, m);
        m := m + [existing[a]];
      }
      a := a + 1;
    }
    while a < |existing|
      invariant Removing(existing, deletes, a, b, m) && b == |deletes|
    {
      Keep(existing, deletes, a, b, m);
      m := m + [existing[a]];
      a := a + 1;
    }
    assert existing[..|existing|] == existing;
  }
}
