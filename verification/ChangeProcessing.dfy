/** The verification and merge steps of `updateWithChangeSet`. Each works on a
    validator list and is proved against the change-by-change reference. */
module ChangeProcessing {
  import opened Basics
  import opened Sorting
  import opened Validators
  import opened ValidatorChanges

  ghost predicate Ascending(vs: seq<Validator>) {
    forall i, j :: 0 <= i < j < |vs| ==> Less(vs[i].address, vs[j].address)
  }

  predicate ByAddress(a: Validator, b: Validator) { Less(a.address, b.address) }

  lemma ByAddressOrders()
    ensures StrictWeakOrder(ByAddress)
  {
    forall a, b ensures !(ByAddress(a, b) && ByAddress(b, a)) { LessTotal(a.address, b.address); }
    forall a, b, c | !ByAddress(b, a) && !ByAddress(c, b) ensures !ByAddress(c, a) {
      LessTotal(a.address, b.address);
      LessTotal(b.address, c.address);
      LessTotal(a.address, c.address);
      if Less(a.address, b.address) && Less(b.address, c.address) {
        LessTransitive(a.address, b.address, c.address);
      }
    }
  }

  lemma AscendingDistinct(vs: seq<Validator>)
    requires Ascending(vs)
    ensures DistinctAddresses(vs)
  {
    forall i, j | 0 <= i < j < |vs| ensures vs[i].address != vs[j].address {
      LessIrreflexive(vs[i].address);
    }
  }

  /** Distinctness of addresses does not depend on the order of the list. */
  lemma DistinctPermutation(a: seq<Validator>, b: seq<Validator>)
    requires multiset(a) == multiset(b) && DistinctAddresses(a)
    ensures DistinctAddresses(b)
  {
    forall i, j | 0 <= i < j < |b| ensures b[i].address != b[j].address {
      assert b[i] in multiset(b) && b[j] in multiset(b);
      OccursOnce(a, b[i]);
      if b[i] == b[j] {
        OccursTwice(b, i, j);
      } else {
        GetByAddressUnique(a, b[i]);
        GetByAddressUnique(a, b[j]);
      }
    }
  }

  lemma OccursTwice(b: seq<Validator>, i: nat, j: nat)
    requires i < j < |b| && b[i] == b[j]
    ensures multiset(b)[b[i]] >= 2
  {
    assert b == b[..j] + [b[j]] + b[j + 1..];
    assert b[i] in b[..j];
  }

  /** What `processChanges` accepts. An empty address compares equal to the
      initial, nil, previous address and is reported as a duplicate. */
  ghost predicate WellFormedChanges(cs: seq<Validator>) {
    && DistinctAddresses(cs)
    && forall c :: c in cs ==> c.address != [] && 0 <= c.power <= MaxTotalVotingPower
  }

  /** The first i sorted changes have passed and are split in two. */
  ghost predicate Scanned(changes: seq<Validator>, i: nat, updates: seq<Validator>, removals: seq<Validator>) {
    && i <= |changes|
    && Ascending(changes[..i])
    && (forall j :: 0 <= j < i ==> changes[j].address != [] && 0 <= changes[j].power <= MaxTotalVotingPower)
    && Split(changes[..i], updates, removals)
  }

  ghost predicate Split(cs: seq<Validator>, updates: seq<Validator>, removals: seq<Validator>) {
    && Ascending(updates) && Ascending(removals)
    && multiset(cs) == multiset(updates) + multiset(removals)
    && (forall u :: u in updates ==> u.power > 0)
    && (forall r :: r in removals ==> r.power == 0)
  }

  /** `processChanges`: sorts, rejects duplicates and bad powers, and splits. */
  method ProcessChanges(orig: seq<Validator>) returns (ok: bool, updates: seq<Validator>, removals: seq<Validator>)
    ensures ok <==> WellFormedChanges(orig)
    ensures ok ==> Split(orig, updates, removals)
  {
    ByAddressOrders();
    var changes := Sort(orig, ByAddress);
    updates, removals := [], [];
    var prevAddr: Address := [];
    for i := 0 to |changes|
      invariant prevAddr == if i == 0 then [] else changes[i - 1].address
      invariant Scanned(changes, i, updates, removals)
    {
      var c := changes[i];
      assert c in multiset(orig) by { assert c in multiset(changes); }
      if c.address == prevAddr {
        if i > 0 { DuplicateInSorted(orig, changes, i); }
        return false, [], [];
      }
      if c.power < 0 {
        return false, [], [];
      } else if c.power > MaxTotalVotingPower {
        return false, [], [];
      }
      ScanStep(changes, i, updates, removals);
      if c.power == 0 {
        removals := removals + [c];
      } else {
        updates := updates + [c];
      }
      prevAddr := c.address;
    }
    ok := true;
    ScanComplete(orig, changes, updates, removals);
  }

  lemma ScanStep(changes: seq<Validator>, i: nat, updates: seq<Validator>, removals: seq<Validator>)
    requires i < |changes| && SortedBy(changes, ByAddress) && Scanned(changes, i, updates, removals)
    requires i > 0 ==> changes[i].address != changes[i - 1].address
    requires changes[i].address != [] && 0 <= changes[i].power <= MaxTotalVotingPower
    ensures changes[i].power == 0 ==> Scanned(changes, i + 1, updates, removals + [changes[i]])
    ensures changes[i].power > 0 ==> Scanned(changes, i + 1, updates + [changes[i]], removals)
  {
    NextAscends(changes, i);
    assert changes[..i + 1] == changes[..i] + [changes[i]];
    if changes[i].power == 0 {
      AscendingAppend(changes, i, removals);
      SplitRemoval(changes[..i], changes[i], updates, removals);
    } else {
      AscendingAppend(changes, i, updates);
      SplitUpdate(changes[..i], changes[i], updates, removals);
    }
  }

  lemma SplitRemoval(cs: seq<Validator>, c: Validator, updates: seq<Validator>, removals: seq<Validator>)
    requires Split(cs, updates, removals) && c.power == 0 && Ascending(removals + [c])
    ensures Split(cs + [c], updates, removals + [c])
  {}

  lemma SplitUpdate(cs: seq<Validator>, c: Validator, updates: seq<Validator>, removals: seq<Validator>)
    requires Split(cs, updates, removals) && c.power > 0 && Ascending(updates + [c])
    ensures Split(cs + [c], updates + [c], removals)
  {}

  lemma ScanComplete(orig: seq<Validator>, changes: seq<Validator>, updates: seq<Validator>, removals: seq<Validator>)
    requires multiset(orig) == multiset(changes) && Scanned(changes, |changes|, updates, removals)
    ensures WellFormedChanges(orig) && Split(orig, updates, removals)
  {
    assert changes[..|changes|] == changes;
    AscendingDistinct(changes);
    DistinctPermutation(changes, orig);
    forall c | c in orig ensures c.address != [] && 0 <= c.power <= MaxTotalVotingPower {
      assert c in multiset(orig);
      assert c in changes;
    }
  }

  lemma AscendingAppend(changes: seq<Validator>, i: nat, part: seq<Validator>)
    requires i < |changes| && Ascending(changes[..i + 1]) && Ascending(part)
    requires multiset(part) <= multiset(changes[..i])
    ensures Ascending(part + [changes[i]])
  {
    forall j | 0 <= j < |part| ensures Less(part[j].address, changes[i].address) {
      assert part[j] in multiset(part);
      assert part[j] in changes[..i];
      var k :| 0 <= k < i && changes[..i][k] == part[j];
      assert changes[..i + 1][k] == part[j];
    }
  }

  lemma NextAscends(changes: seq<Validator>, i: nat)
    requires i < |changes| && SortedBy(changes, ByAddress) && Ascending(changes[..i])
    requires i > 0 ==> changes[i].address != changes[i - 1].address
    ensures Ascending(changes[..i + 1])
  {
    var p := changes[..i + 1];
    if i > 0 {
      assert !ByAddress(changes[i], changes[i - 1]);
      LessTotal(changes[i].address, changes[i - 1].address);
    }
    forall j | 0 <= j < i ensures Less(p[j].address, p[i].address) {
      if j < i - 1 {
        assert Less(changes[..i][j].address, changes[..i][i - 1].address);
        LessTransitive(changes[j].address, changes[i - 1].address, changes[i].address);
      }
    }
    forall j, k | 0 <= j < k < i + 1 ensures Less(p[j].address, p[k].address) {
      if k < i { assert Less(changes[..i][j].address, changes[..i][k].address); }
    }
  }

  lemma DuplicateInSorted(orig: seq<Validator>, changes: seq<Validator>, i: nat)
    requires multiset(orig) == multiset(changes) && 0 < i < |changes|
    requires changes[i].address == changes[i - 1].address
    ensures !DistinctAddresses(orig)
  {
    if DistinctAddresses(orig) {
      DistinctPermutation(orig, changes);
    }
  }
}
