/** What an accepted change list does to the set, address by address. */
module ValidatorPowers {
  import opened Validators
  import opened ProposerPriority
  import opened ValidatorChanges
  import opened ChangeProcessing
  import opened ChangeMerge
  import opened ValidatorUpdates
  import opened ValidatorRuns

  lemma FoundIn(a: seq<Validator>, b: seq<Validator>, at: Address)
    requires DistinctAddresses(b) && HasAddress(a, at) && forall v :: v in a ==> v in b
    ensures PowerAt(a, at) == PowerAt(b, at)
  {
    GetByAddressUnique(b, GetByAddress(a, at).value);
  }

  /** Order does not matter. */
  lemma PermutedPower(a: seq<Validator>, b: seq<Validator>, at: Address)
    requires DistinctAddresses(a) && multiset(a) == multiset(b)
    ensures DistinctAddresses(b) && PowerAt(a, at) == PowerAt(b, at)
  {
    DistinctPermutation(a, b);
    assert forall v :: v in multiset(a) <==> v in a;
    assert forall v :: v in multiset(b) <==> v in b;
    if HasAddress(a, at) { FoundIn(a, b, at); } else if HasAddress(b, at) { FoundIn(b, a, at); }
  }

  /** Priorities do not matter. */
  lemma RepricedPower(a: seq<Validator>, b: seq<Validator>, at: Address)
    requires DistinctAddresses(a) && SameMembers(a, b)
    ensures DistinctAddresses(b) && PowerAt(a, at) == PowerAt(b, at)
  {
    assert forall i :: 0 <= i < |a| ==> a[i].address == b[i].address;
    if HasAddress(a, at) {
      var i :| 0 <= i < |a| && a[i].address == at;
      GetByAddressUnique(a, a[i]);
      GetByAddressUnique(b, b[i]);
    }
  }

  /** Changed addresses get the power of the change, the others keep theirs. */
  lemma AppliedPower(vs: seq<Validator>, changes: seq<Validator>, at: Address)
    requires DistinctAddresses(vs) && DistinctAddresses(changes)
    ensures DistinctAddresses(Applied(vs, changes))
    ensures PowerAt(Applied(vs, changes), at) == if HasAddress(changes, at) then PowerAt(changes, at) else PowerAt(vs, at)
  {
    AppliedTotal(vs, changes);
    var r := Applied(vs, changes);
    if !HasAddress(changes, at) {
      AppliedPowerAt(vs, changes, at);
    } else {
      var c := GetByAddress(changes, at).value;
      if c.power != 0 {
        AppliedMembers(vs, changes, c);
        GetByAddressUnique(r, c);
      } else if HasAddress(r, at) {
        var v := GetByAddress(r, at).value;
        AppliedMembers(vs, changes, v);
        if v in changes { GetByAddressUnique(changes, v); }
      }
    }
  }

  lemma IncomingPower(vs: seq<Validator>, total: int, changes: seq<Validator>, at: Address)
    requires DistinctAddresses(changes)
    ensures SameMembers(changes, Incoming(vs, total, changes))
    ensures DistinctAddresses(Incoming(vs, total, changes))
    ensures HasAddress(Incoming(vs, total, changes), at) <==> HasAddress(changes, at)
    ensures PowerAt(Incoming(vs, total, changes), at) == PowerAt(changes, at)
  {
    RepricedPower(changes, Incoming(vs, total, changes), at);
    IncomingAddresses(vs, total, changes, at);
  }

  lemma UpdatedPower(before: seq<Validator>, changes: seq<Validator>, at: Address)
    requires DistinctAddresses(before) && DistinctAddresses(changes)
    ensures DistinctAddresses(Updated(before, changes))
    ensures PowerAt(Updated(before, changes), at) == if HasAddress(changes, at) then PowerAt(changes, at) else PowerAt(before, at)
  {
    var total := UpdatedTotal(before, changes);
    IncomingPower(before, total, changes, at);
    AppliedPower(before, Incoming(before, total, changes), at);
  }

  lemma SettlingKeepsPower(merged: seq<Validator>, m: seq<Validator>, after: seq<Validator>, at: Address)
    requires DistinctAddresses(merged) && multiset(m) == multiset(merged) && |m| > 0 && Sane(m) && multiset(after) == multiset(Normalized64(m))
    ensures PowerAt(after, at) == PowerAt(merged, at)
  {
    PermutedPower(merged, m, at);
    RepricedPower(m, Normalized64(m), at);
    PermutedPower(Normalized64(m), after, at);
  }

  /** As a map from addresses to powers, the new set is the old one overridden
      by the changes, where power zero stands for absence. */
  lemma ChangedPowers(before: seq<Validator>, changes: seq<Validator>, allowDeletes: bool, after: seq<Validator>, at: Address)
    requires Members(before) && ChangesTo(before, changes, allowDeletes, after)
    ensures PowerAt(after, at) == if HasAddress(changes, at) then PowerAt(changes, at) else PowerAt(before, at)
  {
    UpdatedPower(before, changes, at);
    var m :| Installs(before, changes, m, after);
    SettlingKeepsPower(Updated(before, changes), m, after, at);
  }
}
