/** The whole of `updateWithChangeSet` up to, and not including, the rescaling:
    when it succeeds, and what the merged list is. */
module ValidatorUpdates {
  import opened Basics
  import opened Sums
  import opened Validators
  import opened ValidatorChanges
  import opened ChangeProcessing
  import opened ChangeVerification
  import opened ChangeMerge

  /** The change list is accepted exactly when: addresses are distinct and not
      empty, powers lie in [0, Max], removals are allowed and present, and the
      list that results is not empty and its power is at most Max. */
  ghost predicate Accepts(vs: seq<Validator>, changes: seq<Validator>, allowDeletes: bool) {
    && WellFormedChanges(changes)
    && (forall c :: c in changes && c.power == 0 ==> allowDeletes && HasAddress(vs, c.address))
    && Applied(vs, changes) != []
    && Total(Applied(vs, changes)) <= MaxTotalVotingPower
  }

  function Positive(cs: seq<Validator>): (r: seq<Validator>)
    ensures forall c :: c in r <==> c in cs && c.power != 0
  {
    if |cs| == 0 then []
    else
      var init, last := cs[..|cs| - 1], cs[|cs| - 1];
      assert cs == init + [last];
      Positive(init) + (if last.power != 0 then [last] else [])
  }

  lemma {:induction false} PositiveDistinct(cs: seq<Validator>)
    requires DistinctAddresses(cs)
    ensures DistinctAddresses(Positive(cs))
  {
    if |cs| > 0 {
      var init, last := cs[..|cs| - 1], cs[|cs| - 1];
      PositiveDistinct(init);
      var p := Positive(init);
      forall i | 0 <= i < |p| ensures p[i].address != last.address {
        assert p[i] in init;
        var j :| 0 <= j < |init| && init[j] == p[i];
        assert cs[j] == p[i];
      }
    }
  }

  /** Total power with the updates applied and the removals not. */
  function UpdatedTotal(vs: seq<Validator>, changes: seq<Validator>): int {
    Total(vs) + Sum(Deltas(vs, Positive(changes)))
  }

  /** The list before rescaling: the old one overridden and pruned, with the
      priorities that newcomers and known validators get. */
  function Updated(vs: seq<Validator>, changes: seq<Validator>): seq<Validator> {
    Applied(vs, Incoming(vs, UpdatedTotal(vs, changes), changes))
  }

  /** The verification half: processes, splits and checks the change list. */
  method CheckChanges(vs: seq<Validator>, changes: seq<Validator>, allowDeletes: bool)
    returns (ok: bool, updates: seq<Validator>, deletes: seq<Validator>, tvp: int)
    requires Members(vs)
    ensures ok <==> Accepts(vs, changes, allowDeletes)
    ensures ok ==> Split(changes, updates, deletes) && AllPresent(vs, deletes)
    ensures ok ==> tvp == UpdatedTotal(vs, changes) && 0 <= tvp <= 2 * MaxTotalVotingPower
  {
    tvp := 0;
    ok, updates, deletes := ProcessChanges(changes);
    if !ok { return; }
    AcceptsBySplit(vs, changes, allowDeletes, updates, deletes);
    if !allowDeletes && |deletes| != 0 {
      return false, [], [], 0;
    }
    var newcomers := NumNewValidators(updates, vs);
    if newcomers == 0 && |vs| == |deletes| {
      return false, [], [], 0;
    }
    var removed;
    ok, removed := VerifyRemovals(deletes, vs);
    if !ok { return; }
    ok, tvp := VerifyUpdates(updates, vs, removed);
  }

  /** Acceptance in the terms of the split lists that the code looks at. */
  lemma AcceptsBySplit(vs: seq<Validator>, changes: seq<Validator>, allowDeletes: bool, updates: seq<Validator>, deletes: seq<Validator>)
    requires Members(vs) && WellFormedChanges(changes) && Split(changes, updates, deletes)
    ensures DistinctAddresses(updates) && DistinctAddresses(deletes)
    ensures forall i :: 0 <= i < |deletes| ==> deletes[i].power == 0
    ensures forall i :: 0 <= i < |updates| ==> 0 < updates[i].power <= MaxTotalVotingPower
    ensures UpdatedTotal(vs, changes) == Total(vs) + Sum(Deltas(vs, updates))
    ensures Accepts(vs, changes, allowDeletes)
       <==> ( && (allowDeletes || |deletes| == 0) && AllPresent(vs, deletes)
              && !(AllPresent(vs, updates) && |vs| == |deletes|)
              && Total(vs) + Sum(Deltas(vs, deletes)) + Sum(Deltas(vs, updates)) <= MaxTotalVotingPower)
  {
    AscendingDistinct(updates);
    AscendingDistinct(deletes);
    TotalsAgree(vs, changes, updates, deletes);
    RemovalsPresent(vs, changes, updates, deletes);
    NoDeletes(changes, updates, deletes);
    if AllPresent(vs, deletes) {
      EmptyResult(vs, changes, updates, deletes);
    }
  }

  lemma NoDeletes(changes: seq<Validator>, updates: seq<Validator>, deletes: seq<Validator>)
    requires Split(changes, updates, deletes)
    ensures |deletes| == 0 <==> forall c :: c in changes ==> c.power != 0
    ensures forall i :: 0 <= i < |deletes| ==> deletes[i].power == 0
  {
    SplitMembers(changes, updates, deletes);
    assert forall i :: 0 <= i < |deletes| ==> deletes[i] in deletes;
    if |deletes| > 0 { assert deletes[0] in changes; }
  }

  /** Everything before the rescaling: on success the merged list is, up to
      order, the reference list. */
  method MergeChanges(vs: seq<Validator>, changes: seq<Validator>, allowDeletes: bool) returns (ok: bool, m: seq<Validator>)
    requires Members(vs)
    ensures ok <==> Accepts(vs, changes, allowDeletes)
    ensures ok ==> Ascending(m) && multiset(m) == multiset(Updated(vs, changes))
    ensures ok ==> 0 <= UpdatedTotal(vs, changes) <= 2 * MaxTotalVotingPower
  {
    m := [];
    var updates, deletes, tvp;
    ok, updates, deletes, tvp := CheckChanges(vs, changes, allowDeletes);
    if !ok { return; }
    var incoming := ComputeNewPriorities(updates, vs, tvp);
    IncomingAscends(vs, tvp, updates);
    m := ApplyUpdates(vs, incoming);
    DeletesStillPresent(vs, changes, updates, deletes, incoming, m);
    m := ApplyRemovals(m, deletes);
    MergeIsUpdated(vs, changes, updates, deletes, incoming, m);
  }

  lemma RemovalsPresent(vs: seq<Validator>, changes: seq<Validator>, updates: seq<Validator>, deletes: seq<Validator>)
    requires WellFormedChanges(changes) && Split(changes, updates, deletes)
    ensures AllPresent(vs, deletes) <==> forall c :: c in changes && c.power == 0 ==> HasAddress(vs, c.address)
  {
    SplitMembers(changes, updates, deletes);
    if AllPresent(vs, deletes) {
      forall c | c in changes && c.power == 0 ensures HasAddress(vs, c.address) {
        var i :| 0 <= i < |deletes| && deletes[i] == c;
        assert HasAddress(vs, deletes[i].address);
      }
    }
    if forall c :: c in changes && c.power == 0 ==> HasAddress(vs, c.address) {
      forall i | 0 <= i < |deletes| ensures HasAddress(vs, deletes[i].address) {
        assert deletes[i] in deletes;
      }
    }
  }

  /** The running check looks at the total of the reference list. */
  lemma TotalsAgree(vs: seq<Validator>, changes: seq<Validator>, updates: seq<Validator>, deletes: seq<Validator>)
    requires Members(vs) && WellFormedChanges(changes) && Split(changes, updates, deletes)
    ensures Total(Applied(vs, changes)) == Total(vs) + Sum(Deltas(vs, deletes)) + Sum(Deltas(vs, updates))
    ensures UpdatedTotal(vs, changes) == Total(vs) + Sum(Deltas(vs, updates))
    ensures forall i :: 0 <= i < |updates| ==> 0 < updates[i].power <= MaxTotalVotingPower
  {
    AppliedTotal(vs, changes);
    assert multiset(changes) == multiset(updates + deletes);
    DeltasPermutation(vs, changes, updates + deletes);
    assert Deltas(vs, updates + deletes) == Deltas(vs, updates) + Deltas(vs, deletes);
    SumConcat(Deltas(vs, updates), Deltas(vs, deletes));
    UpdatesArePositive(changes, updates, deletes);
    DeltasPermutation(vs, Positive(changes), updates);
  }

  lemma UpdatesArePositive(changes: seq<Validator>, updates: seq<Validator>, deletes: seq<Validator>)
    requires WellFormedChanges(changes) && Split(changes, updates, deletes)
    ensures multiset(Positive(changes)) == multiset(updates)
    ensures forall i :: 0 <= i < |updates| ==> 0 < updates[i].power <= MaxTotalVotingPower
  {
    SplitMembers(changes, updates, deletes);
    PositiveDistinct(changes);
    AscendingDistinct(updates);
    SamePermutation(Positive(changes), updates);
    forall i | 0 <= i < |updates| ensures 0 < updates[i].power <= MaxTotalVotingPower {
      assert updates[i] in updates;
    }
  }

  lemma IncomingAscends(vs: seq<Validator>, total: int, updates: seq<Validator>)
    requires Ascending(updates)
    ensures Ascending(Incoming(vs, total, updates))
  {
    var r := Incoming(vs, total, updates);
    forall i, j | 0 <= i < j < |r| ensures Less(r[i].address, r[j].address) {
      assert r[i].address == updates[i].address && r[j].address == updates[j].address;
    }
  }

  lemma IncomingAddresses(vs: seq<Validator>, total: int, cs: seq<Validator>, a: Address)
    ensures HasAddress(Incoming(vs, total, cs), a) <==> HasAddress(cs, a)
  {
    var r := Incoming(vs, total, cs);
    assert forall i :: 0 <= i < |cs| ==> r[i].address == cs[i].address;
    if HasAddress(cs, a) { var i :| 0 <= i < |cs| && cs[i].address == a; assert r[i].address == a; }
    if HasAddress(r, a) { var i :| 0 <= i < |r| && r[i].address == a; assert cs[i].address == a; }
  }

  lemma DeletesStillPresent(vs: seq<Validator>, changes: seq<Validator>, updates: seq<Validator>, deletes: seq<Validator>,
                            incoming: seq<Validator>, m: seq<Validator>)
    requires DistinctAddresses(changes) && Split(changes, updates, deletes) && AllPresent(vs, deletes)
    requires exists total :: incoming == Incoming(vs, total, updates)
    requires forall v :: v in m <==> v in incoming || (v in vs && !HasAddress(incoming, v.address))
    ensures AllPresent(m, deletes)
  {
    var total :| incoming == Incoming(vs, total, updates);
    forall i | 0 <= i < |deletes| ensures HasAddress(m, deletes[i].address) {
      var a := deletes[i].address;
      assert HasAddress(deletes, a);
      IncomingAddresses(vs, total, updates, a);
      NotBoth(changes, updates, deletes, a);
      HasAddressMember(vs, a);
      HasAddressMember(m, a);
    }
  }

  lemma NotBoth(changes: seq<Validator>, updates: seq<Validator>, deletes: seq<Validator>, a: Address)
    requires DistinctAddresses(changes) && Split(changes, updates, deletes)
    ensures !(HasAddress(updates, a) && HasAddress(deletes, a))
  {
    if HasAddress(updates, a) {
      HasAddressMember(updates, a);
      var u :| u in updates && u.address == a;
      UpdateNotRemoved(changes, updates, deletes, u);
    }
  }

  /** The merged list is a permutation of the reference. */
  lemma MergeIsUpdated(vs: seq<Validator>, changes: seq<Validator>, updates: seq<Validator>, deletes: seq<Validator>,
                       incoming: seq<Validator>, m: seq<Validator>)
    requires DistinctAddresses(vs) && DistinctAddresses(changes) && Split(changes, updates, deletes)
    requires incoming == Incoming(vs, UpdatedTotal(vs, changes), updates)
    requires Ascending(m)
    requires forall v :: v in m <==> (v in incoming || (v in vs && !HasAddress(incoming, v.address))) && !HasAddress(deletes, v.address)
    ensures multiset(m) == multiset(Updated(vs, changes))
  {
    var total := UpdatedTotal(vs, changes);
    var all := Incoming(vs, total, changes);
    IncomingDistinct(vs, total, changes);
    AppliedTotal(vs, all);
    AscendingDistinct(m);
    forall v ensures v in m <==> v in Applied(vs, all) {
      AppliedMembers(vs, all, v);
      IncomingAddresses(vs, total, changes, v.address);
      IncomingAddresses(vs, total, updates, v.address);
      SplitAddress(changes, updates, deletes, v.address);
      NotBoth(changes, updates, deletes, v.address);
      IncomingMembers(vs, total, changes, updates, deletes, v);
    }
    SamePermutation(m, Applied(vs, all));
  }

  lemma IncomingDistinct(vs: seq<Validator>, total: int, cs: seq<Validator>)
    requires DistinctAddresses(cs)
    ensures DistinctAddresses(Incoming(vs, total, cs))
  {
    var r := Incoming(vs, total, cs);
    assert forall i :: 0 <= i < |cs| ==> r[i].address == cs[i].address;
  }

  lemma IncomingMembers(vs: seq<Validator>, total: int, changes: seq<Validator>, updates: seq<Validator>, deletes: seq<Validator>, v: Validator)
    requires Split(changes, updates, deletes)
    ensures v in Incoming(vs, total, updates) <==> v in Incoming(vs, total, changes) && v.power != 0
    ensures v in Incoming(vs, total, updates) ==> HasAddress(updates, v.address)
  {
    var a, b := Incoming(vs, total, updates), Incoming(vs, total, changes);
    SplitMembers(changes, updates, deletes);
    if v in a {
      var i :| 0 <= i < |a| && a[i] == v;
      assert updates[i] in updates && updates[i].address == v.address;
      var j :| 0 <= j < |changes| && changes[j] == updates[i];
      assert b[j] == v;
    }
    if v in b && v.power != 0 {
      var j :| 0 <= j < |b| && b[j] == v;
      assert changes[j] in changes;
      var i :| 0 <= i < |updates| && updates[i] == changes[j];
      assert a[i] == v;
    }
  }
}
