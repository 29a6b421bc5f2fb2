/** The checks of `updateWithChangeSet` that look at the current set: removals
    must exist, the result must not be empty, and its total power must fit. */
module ChangeVerification {
  import opened Int64
  import opened Sums
  import opened Sorting
  import opened Validators
  import opened ValidatorChanges
  import opened ChangeProcessing

  ghost predicate AllPresent(vs: seq<Validator>, cs: seq<Validator>) {
    forall i :: 0 <= i < |cs| ==> HasAddress(vs, cs[i].address)
  }

  // ---- Partial totals stay representable ----

  /** Applying changes of non-negative power to a valid list leaves a total of
      at least zero. */
  lemma AppliedTotalNonNegative(vs: seq<Validator>, cs: seq<Validator>)
    requires Members(vs) && DistinctAddresses(cs)
    requires forall c :: c in cs ==> 0 <= c.power
    ensures 0 <= Total(Applied(vs, cs)) == Total(vs) + Sum(Deltas(vs, cs))
  {
    AppliedTotal(vs, cs);
    var r := Applied(vs, cs);
    forall i | 0 <= i < |r| ensures 0 <= Powers(r)[i] {
      assert r[i] in r;
      AppliedMembers(vs, cs, r[i]);
    }
    SumAtLeast(Powers(r), 0);
  }

  lemma PrefixDistinct(cs: seq<Validator>, i: nat)
    requires DistinctAddresses(cs) && i <= |cs|
    ensures DistinctAddresses(cs[..i])
  {}

  lemma DeltasPrefix(vs: seq<Validator>, cs: seq<Validator>, i: nat)
    requires i < |cs|
    ensures Sum(Deltas(vs, cs[..i + 1])) == Sum(Deltas(vs, cs[..i])) + Delta(vs, cs[i])
  {
    assert Deltas(vs, cs[..i + 1]) == Deltas(vs, cs[..i]) + [Delta(vs, cs[i])];
    SumAppend(Deltas(vs, cs[..i]), Delta(vs, cs[i]));
  }

  lemma PowerAtBounds(vs: seq<Validator>, a: Address)
    requires Members(vs)
    ensures 0 <= PowerAt(vs, a) <= MaxTotalVotingPower
  {
    TotalBounds(vs);
  }

  // ---- verifyRemovals ----

  /** `verifyRemovals`: the power removed, or failure if an address is unknown.
      The final panic of the source is unreachable. */
  method VerifyRemovals(deletes: seq<Validator>, vs: seq<Validator>) returns (ok: bool, removed: int)
    requires Members(vs) && DistinctAddresses(deletes)
    requires forall i :: 0 <= i < |deletes| ==> deletes[i].power == 0
    ensures ok <==> AllPresent(vs, deletes)
    ensures ok ==> removed == -Sum(Deltas(vs, deletes)) && |deletes| <= |vs|
    ensures ok ==> 0 <= removed <= Total(vs)
  {
    removed := 0;
    NothingRemoved(vs, deletes);
    for i := 0 to |deletes|
      invariant forall j :: 0 <= j < i ==> HasAddress(vs, deletes[j].address)
      invariant removed == RemovedPower(vs, deletes, i)
      invariant 0 <= removed <= Total(vs) <= MaxTotalVotingPower
    {
      var val := GetByAddress(vs, deletes[i].address);
      if val.None? {
        return false, removed;
      }
      RemovalStep(vs, deletes, i);
      removed := Add64(removed, val.value.power);
    }
    AllRemoved(vs, deletes);
    ok := true;
  }

  ghost function RemovedPower(vs: seq<Validator>, deletes: seq<Validator>, i: nat): int
    requires i <= |deletes|
  {
    -Sum(Deltas(vs, deletes[..i]))
  }

  lemma NothingRemoved(vs: seq<Validator>, deletes: seq<Validator>)
    requires Members(vs)
    ensures RemovedPower(vs, deletes, 0) == 0 <= Total(vs)
  {
    AppliedTotalNonNegative(vs, []);
  }

  lemma AllRemoved(vs: seq<Validator>, deletes: seq<Validator>)
    requires DistinctAddresses(vs) && DistinctAddresses(deletes) && AllPresent(vs, deletes)
    ensures RemovedPower(vs, deletes, |deletes|) == -Sum(Deltas(vs, deletes)) && |deletes| <= |vs|
  {
    assert deletes[..|deletes|] == deletes;
    MoreDeletesImpossible(vs, deletes);
  }

  lemma RemovalStep(vs: seq<Validator>, deletes: seq<Validator>, i: nat)
    requires Members(vs) && DistinctAddresses(deletes) && i < |deletes|
    requires forall j :: 0 <= j < |deletes| ==> deletes[j].power == 0
    ensures RemovedPower(vs, deletes, i + 1) == RemovedPower(vs, deletes, i) + PowerAt(vs, deletes[i].address)
    ensures RemovedPower(vs, deletes, i + 1) <= Total(vs)
    ensures 0 <= PowerAt(vs, deletes[i].address)
  {
    DeltasPrefix(vs, deletes, i);
    PowerAtBounds(vs, deletes[i].address);
    PrefixDistinct(deletes, i + 1);
    AppliedTotalNonNegative(vs, deletes[..i + 1]);
  }

  function AddressSet(vs: seq<Validator>): set<Address> {
    set i | 0 <= i < |vs| :: vs[i].address
  }

  lemma {:induction false} AddressSetSize(vs: seq<Validator>)
    requires DistinctAddresses(vs)
    ensures |AddressSet(vs)| == |vs|
  {
    if |vs| == 0 {
      assert AddressSet(vs) == {};
    } else {
      var n := |vs| - 1;
      AddressSetSize(vs[..n]);
      assert AddressSet(vs) == AddressSet(vs[..n]) + {vs[n].address};
      assert vs[n].address !in AddressSet(vs[..n]);
    }
  }

  lemma SubsetSize(a: set<Address>, b: set<Address>)
    requires a <= b
    ensures |a| <= |b| && (|a| == |b| ==> a == b)
  {
    assert b == a + (b - a);
    assert |b| == |a| + |b - a|;
    if |a| == |b| { assert b - a == {}; }
  }

  lemma MoreDeletesImpossible(vs: seq<Validator>, deletes: seq<Validator>)
    requires DistinctAddresses(vs) && DistinctAddresses(deletes) && AllPresent(vs, deletes)
    ensures |deletes| <= |vs|
    ensures |deletes| == |vs| ==> AllPresent(deletes, vs)
  {
    AddressSetSize(vs);
    AddressSetSize(deletes);
    SubsetSize(AddressSet(deletes), AddressSet(vs));
    if |deletes| == |vs| {
      forall i | 0 <= i < |vs| ensures HasAddress(deletes, vs[i].address) {
        assert vs[i].address in AddressSet(vs);
      }
    }
  }

  // ---- The result must not be empty ----

  /** `numNewValidators` */
  method NumNewValidators(updates: seq<Validator>, vs: seq<Validator>) returns (n: nat)
    ensures n == 0 <==> AllPresent(vs, updates)
  {
    n := 0;
    for i := 0 to |updates|
      invariant n == 0 <==> AllPresent(vs, updates[..i])
    {
      assert updates[..i + 1] == updates[..i] + [updates[i]];
      assert AllPresent(vs, updates[..i + 1]) <==> AllPresent(vs, updates[..i]) && HasAddress(vs, updates[i].address) by {
        assert updates[..i + 1][i] == updates[i];
        assert forall j :: 0 <= j < i ==> updates[..i + 1][j] == updates[..i][j];
      }
      var found := GetByAddress(vs, updates[i].address);
      if found.None? {
        n := n + 1;
      }
    }
    assert updates[..|updates|] == updates;
  }

  /** The emptiness test of the source is exact once all removals are present. */
  lemma EmptyResult(vs: seq<Validator>, changes: seq<Validator>, updates: seq<Validator>, removals: seq<Validator>)
    requires DistinctAddresses(vs) && DistinctAddresses(changes)
    requires Split(changes, updates, removals) && AllPresent(vs, removals)
    ensures Applied(vs, changes) == [] <==> AllPresent(vs, updates) && |vs| == |removals|
  {
    AscendingDistinct(removals);
    MoreDeletesImpossible(vs, removals);
    var r := Applied(vs, changes);
    if AllPresent(vs, updates) && |vs| == |removals| {
      if r != [] {
        var v := r[0];
        assert v in r;
        AppliedMembers(vs, changes, v);
        NobodySurvives(vs, changes, updates, removals, v);
      }
    }
    if r == [] {
      EverybodyRemoved(vs, changes, updates, removals);
      MoreDeletesImpossible(removals, vs);
    }
  }

  lemma EverybodyRemoved(vs: seq<Validator>, changes: seq<Validator>, updates: seq<Validator>, removals: seq<Validator>)
    requires DistinctAddresses(changes) && Split(changes, updates, removals)
    requires Applied(vs, changes) == []
    ensures updates == [] && AllPresent(removals, vs)
  {
    SplitMembers(changes, updates, removals);
    if updates != [] {
      assert updates[0] in updates;
      AppliedMembers(vs, changes, updates[0]);
    }
    forall i | 0 <= i < |vs| ensures HasAddress(removals, vs[i].address) {
      AppliedMembers(vs, changes, vs[i]);
      SplitAddress(changes, updates, removals, vs[i].address);
    }
  }

  lemma SplitMembers(changes: seq<Validator>, updates: seq<Validator>, removals: seq<Validator>)
    requires Split(changes, updates, removals)
    ensures forall c :: c in changes <==> c in updates || c in removals
  {
    forall c ensures c in changes <==> c in updates || c in removals {
      assert c in changes <==> c in multiset(changes);
    }
  }

  lemma SplitAddress(changes: seq<Validator>, updates: seq<Validator>, removals: seq<Validator>, a: Address)
    requires Split(changes, updates, removals)
    ensures HasAddress(changes, a) <==> HasAddress(updates, a) || HasAddress(removals, a)
  {
    SplitMembers(changes, updates, removals);
    HasAddressMember(changes, a);
    HasAddressMember(updates, a);
    HasAddressMember(removals, a);
  }

  lemma HasAddressMember(vs: seq<Validator>, a: Address)
    ensures HasAddress(vs, a) <==> exists v :: v in vs && v.address == a
  {
    if HasAddress(vs, a) {
      var i :| 0 <= i < |vs| && vs[i].address == a;
      assert vs[i] in vs;
    }
    if exists v :: v in vs && v.address == a {
      var v :| v in vs && v.address == a;
      var i :| 0 <= i < |vs| && vs[i] == v;
      assert vs[i].address == a;
    }
  }

  /** If removals cover the whole set and updates name only its members,
      nobody is left. */
  lemma NobodySurvives(vs: seq<Validator>, changes: seq<Validator>, updates: seq<Validator>, removals: seq<Validator>, v: Validator)
    requires DistinctAddresses(changes) && Split(changes, updates, removals)
    requires AllPresent(vs, updates) && AllPresent(removals, vs)
    ensures !((v in changes && v.power != 0) || (v in vs && !HasAddress(changes, v.address)))
  {
    SplitMembers(changes, updates, removals);
    SplitAddress(changes, updates, removals, v.address);
    if v in vs {
      var i :| 0 <= i < |vs| && vs[i] == v;
      assert HasAddress(removals, vs[i].address);
    }
    if v in updates {
      var i :| 0 <= i < |updates| && updates[i] == v;
      assert HasAddress(vs, updates[i].address);
      var j :| 0 <= j < |vs| && vs[j].address == v.address;
      assert HasAddress(removals, vs[j].address);
      UpdateNotRemoved(changes, updates, removals, v);
    }
  }

  lemma UpdateNotRemoved(changes: seq<Validator>, updates: seq<Validator>, removals: seq<Validator>, v: Validator)
    requires DistinctAddresses(changes) && Split(changes, updates, removals) && v in updates
    ensures !HasAddress(removals, v.address)
  {
    SplitMembers(changes, updates, removals);
    HasAddressMember(removals, v.address);
    GetByAddressUnique(changes, v);
    forall r | r in removals ensures r.address != v.address {
      GetByAddressUnique(changes, r);
    }
  }

  // ---- verifyUpdates ----

  predicate ByDelta(vs: seq<Validator>, a: Validator, b: Validator) { Delta(vs, a) < Delta(vs, b) }

  /** Running sums of ascending numbers exceed a limit somewhere only if they
      exceed it at the end. */
  lemma AscendingRunningSum(d: seq<int>, start: int, limit: int, i: nat)
    requires i < |d| && forall j, k :: 0 <= j < k < |d| ==> d[j] <= d[k]
    requires start + Sum(d[..i]) <= limit < start + Sum(d[..i + 1])
    ensures limit < start + Sum(d)
  {
    assert d[..i + 1] == d[..i] + [d[i]];
    SumAppend(d[..i], d[i]);
    SumAtLeast(d[i + 1..], 0);
    assert d == d[..i + 1] + d[i + 1..];
    SumConcat(d[..i + 1], d[i + 1..]);
  }

  function DeltaOrder(vs: seq<Validator>): (Validator, Validator) -> bool {
    (a, b) => ByDelta(vs, a, b)
  }

  /** `verifyUpdates`: the delta-sorted running check fails exactly when the
      final total would exceed the maximum; on success it returns the total
      after the updates and before the removals. */
  method VerifyUpdates(updates: seq<Validator>, vs: seq<Validator>, removed: int) returns (ok: bool, tvp: int)
    requires Members(vs) && DistinctAddresses(updates)
    requires forall i :: 0 <= i < |updates| ==> 0 < updates[i].power <= MaxTotalVotingPower
    requires 0 <= removed <= Total(vs)
    ensures ok <==> Total(vs) - removed + Sum(Deltas(vs, updates)) <= MaxTotalVotingPower
    ensures ok ==> tvp == Total(vs) + Sum(Deltas(vs, updates))
    ensures ok ==> 0 <= tvp <= 2 * MaxTotalVotingPower
  {
    var sorted := Sort(updates, DeltaOrder(vs));
    SortedUpdates(updates, sorted, vs);
    var running := Sub64(Total(vs), removed);
    assert sorted[..0] == [];
    for i := 0 to |sorted|
      invariant running == RunningTotal(vs, removed, sorted, i)
      invariant -MaxTotalVotingPower <= running <= MaxTotalVotingPower
    {
      RunningStep(vs, removed, sorted, i);
      running := Add64(running, Delta(vs, sorted[i]));
      if running > MaxTotalVotingPower {
        RunningExceeds(vs, removed, sorted, i);
        return false, 0;
      }
    }
    assert sorted[..|sorted|] == sorted;
    PrefixNonNegative(vs, sorted, |sorted|);
    return true, Add64(running, removed);
  }

  ghost function RunningTotal(vs: seq<Validator>, removed: int, cs: seq<Validator>, i: nat): int
    requires i <= |cs|
  {
    Total(vs) - removed + Sum(Deltas(vs, cs[..i]))
  }

  lemma RunningStep(vs: seq<Validator>, removed: int, cs: seq<Validator>, i: nat)
    requires Members(vs) && DistinctAddresses(cs) && i < |cs| && 0 <= removed <= Total(vs)
    requires forall j :: 0 <= j < |cs| ==> 0 < cs[j].power <= MaxTotalVotingPower
    ensures RunningTotal(vs, removed, cs, i + 1) == RunningTotal(vs, removed, cs, i) + Delta(vs, cs[i])
    ensures -MaxTotalVotingPower <= RunningTotal(vs, removed, cs, i + 1)
    ensures -MaxTotalVotingPower <= Delta(vs, cs[i]) <= MaxTotalVotingPower
  {
    PowerAtBounds(vs, cs[i].address);
    DeltasPrefix(vs, cs, i);
    PrefixNonNegative(vs, cs, i + 1);
  }

  lemma RunningExceeds(vs: seq<Validator>, removed: int, cs: seq<Validator>, i: nat)
    requires i < |cs|
    requires forall j, k :: 0 <= j < k < |cs| ==> Deltas(vs, cs)[j] <= Deltas(vs, cs)[k]
    requires RunningTotal(vs, removed, cs, i) <= MaxTotalVotingPower < RunningTotal(vs, removed, cs, i + 1)
    ensures MaxTotalVotingPower < Total(vs) - removed + Sum(Deltas(vs, cs))
  {
    var d := Deltas(vs, cs);
    assert d[..i] == Deltas(vs, cs[..i]);
    assert d[..i + 1] == Deltas(vs, cs[..i + 1]);
    AscendingRunningSum(d, Total(vs) - removed, MaxTotalVotingPower, i);
  }

  lemma PrefixNonNegative(vs: seq<Validator>, cs: seq<Validator>, i: nat)
    requires Members(vs) && DistinctAddresses(cs) && i <= |cs|
    requires forall j :: 0 <= j < |cs| ==> 0 < cs[j].power
    ensures 0 <= Total(vs) + Sum(Deltas(vs, cs[..i]))
  {
    PrefixDistinct(cs, i);
    AppliedTotalNonNegative(vs, cs[..i]);
  }

  lemma SortedUpdates(updates: seq<Validator>, sorted: seq<Validator>, vs: seq<Validator>)
    requires multiset(sorted) == multiset(updates) && DistinctAddresses(updates)
    requires SortedBy(sorted, DeltaOrder(vs))
    requires forall i :: 0 <= i < |updates| ==> 0 < updates[i].power <= MaxTotalVotingPower
    ensures DistinctAddresses(sorted)
    ensures Sum(Deltas(vs, sorted)) == Sum(Deltas(vs, updates))
    ensures forall j, k :: 0 <= j < k < |sorted| ==> Deltas(vs, sorted)[j] <= Deltas(vs, sorted)[k]
    ensures forall i :: 0 <= i < |sorted| ==> 0 < sorted[i].power <= MaxTotalVotingPower
  {
    DistinctPermutation(updates, sorted);
    DeltasPermutation(vs, sorted, updates);
    forall j, k | 0 <= j < k < |sorted| ensures Deltas(vs, sorted)[j] <= Deltas(vs, sorted)[k] {
      assert !DeltaOrder(vs)(sorted[k], sorted[j]);
    }
    forall i | 0 <= i < |sorted| ensures 0 < sorted[i].power <= MaxTotalVotingPower {
      assert sorted[i] in multiset(sorted);
      assert sorted[i] in updates;
    }
  }
}
