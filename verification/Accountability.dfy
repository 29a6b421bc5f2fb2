/** Who is to blame for a light client attack (`types/evidence.go`). */
module Accountability {
  import opened Basics
  import opened Sums
  import opened Sorting
  import opened Validators
  import opened Votes
  import opened Check = CommitVerification
  import opened CommitRules
  import opened LightBlocks
  import ValidatorChanges
  import ValidatorRuns

  /** `ConflictingHeaderIsInvalid`: some deterministic field differs. */
  predicate ConflictingHeaderIsInvalid(trusted: Header, conflicting: Header) {
    || trusted.validatorsHash != conflicting.validatorsHash
    || trusted.nextValidatorsHash != conflicting.nextValidatorsHash
    || trusted.consensusHash != conflicting.consensusHash
    || trusted.appHash != conflicting.appHash
    || trusted.lastResultsHash != conflicting.lastResultsHash
  }

  /** A conflicting header is no lunatic's exactly when it is the trusted one but
      for chain, height and time. */
  lemma ValidHeaderIff(trusted: Header, conflicting: Header)
    ensures !ConflictingHeaderIsInvalid(trusted, conflicting) <==>
      conflicting == trusted.(chainID := conflicting.chainID, height := conflicting.height, time := conflicting.time)
  {}

  /** The validators of the mask, in their order. */
  function Chosen(vs: seq<Validator>, mask: seq<bool>): seq<Validator>
    requires |mask| <= |vs|
  {
    if |mask| == 0 then []
    else
      var n := |mask| - 1;
      Chosen(vs, mask[..n]) + if mask[n] then [vs[n]] else []
  }

  lemma {:induction false} ChosenTotal(vs: seq<Validator>, mask: seq<bool>)
    requires |mask| <= |vs|
    ensures Total(Chosen(vs, mask)) == MaskSum(mask, Powers(vs[..|mask|]))
  {
    if |mask| > 0 {
      var n := |mask| - 1;
      ChosenTotal(vs, mask[..n]);
      var gains := Masked(mask, Powers(vs[..|mask|]));
      assert gains[..n] == Masked(mask[..n], Powers(vs[..n]));
      if mask[n] {
        TotalAppend(Chosen(vs, mask[..n]), vs[n]);
      } else {
        assert Chosen(vs, mask) == Chosen(vs, mask[..n]);
      }
    } else {
      assert Powers(Chosen(vs, mask)) == [];
    }
  }

  /** Both commits have a signature for their block at the index. */
  function BothMask(a: Commit, b: Commit): (r: seq<bool>)
    requires |a.signatures| <= |b.signatures|
    ensures |r| == |a.signatures|
    ensures forall i :: 0 <= i < |r| ==> r[i] == (a.signatures[i].flag == ForBlock && b.signatures[i].flag == ForBlock)
  {
    seq(|a.signatures|, i requires 0 <= i < |a.signatures| => a.signatures[i].flag == ForBlock && b.signatures[i].flag == ForBlock)
  }

  /** The addresses a commit carries for its block are those of the set. */
  ghost predicate InSetOrder(vs: seq<Validator>, commit: Commit) {
    && |commit.signatures| == |vs|
    && forall i :: 0 <= i < |vs| && commit.signatures[i].flag == ForBlock ==> commit.signatures[i].address == vs[i].address
  }

  /** A validator of the common set signed for the block under its address. */
  ghost predicate Named(vs: seq<Validator>, commit: Commit, v: nat)
    requires v < |vs|
  {
    exists i :: 0 <= i < |commit.signatures| && commit.signatures[i].flag == ForBlock && commit.signatures[i].address == vs[v].address
  }

  // ---- The three attacks ----

  /** The lunatic branch: validators of the common set that signed. A validator
      that signed twice is listed twice. */
  method Lunatics(common: seq<Validator>, commit: Commit) returns (r: seq<Validator>)
    requires DistinctAddresses(common)
    ensures forall v :: 0 <= v < |common| ==> (common[v] in r <==> Named(common, commit, v))
    ensures forall x :: x in r ==> x in common
  {
    r := [];
    for i := 0 to |commit.signatures|
      invariant forall x :: x in r ==> x in common
      invariant forall v :: 0 <= v < |common| ==> (common[v] in r <==> NamedBy(common, commit, v, i))
    {
      if commit.signatures[i].flag != ForBlock { continue; }
      var found := IndexOf(common, commit.signatures[i].address, 0);
      if found.None? { continue; }
      NamedStep(common, commit, r, i, found.value);
      r := r + [common[found.value]];
    }
  }

  ghost predicate NamedBy(vs: seq<Validator>, commit: Commit, v: nat, n: nat)
    requires v < |vs| && n <= |commit.signatures|
  {
    exists i :: 0 <= i < n && commit.signatures[i].flag == ForBlock && commit.signatures[i].address == vs[v].address
  }

  lemma NamedStep(vs: seq<Validator>, commit: Commit, r: seq<Validator>, i: nat, found: nat)
    requires DistinctAddresses(vs) && i < |commit.signatures| && found < |vs|
    requires commit.signatures[i].flag == ForBlock && commit.signatures[i].address == vs[found].address
    requires forall v :: 0 <= v < |vs| ==> (vs[v] in r <==> NamedBy(vs, commit, v, i))
    ensures forall v :: 0 <= v < |vs| ==> (vs[v] in r + [vs[found]] <==> NamedBy(vs, commit, v, i + 1))
  {
    forall v | 0 <= v < |vs| ensures vs[v] in r + [vs[found]] <==> NamedBy(vs, commit, v, i + 1) {
      if v == found { assert NamedBy(vs, commit, v, i + 1); }
      if NamedBy(vs, commit, v, i) {
        var j :| 0 <= j < i && commit.signatures[j].flag == ForBlock && commit.signatures[j].address == vs[v].address;
        assert NamedBy(vs, commit, v, i + 1);
      }
    }
  }

  predicate Both(a: Commit, b: Commit, i: nat)
    requires i < |a.signatures|
  {
    a.signatures[i].flag == ForBlock && i < |b.signatures| && b.signatures[i].flag == ForBlock
  }

  /** Whoever the first n signatures for both blocks are found to belong to. */
  function Suspects(vs: seq<Validator>, a: Commit, b: Commit, n: nat): seq<Option<Validator>>
    requires n <= |a.signatures|
  {
    if n == 0 then []
    else Suspects(vs, a, b, n - 1) + if Both(a, b, n - 1) then [GetByAddress(vs, a.signatures[n - 1].address)] else []
  }

  /** A signature for the block where the other commit has ended; reading there
      panics. */
  predicate Overruns(a: Commit, b: Commit) {
    exists i :: |b.signatures| <= i < |a.signatures| && a.signatures[i].flag == ForBlock
  }

  lemma {:induction false} SuspectsIff(vs: seq<Validator>, a: Commit, b: Commit, n: nat, x: Option<Validator>)
    requires n <= |a.signatures|
    ensures x in Suspects(vs, a, b, n) <==> exists i :: 0 <= i < n && Both(a, b, i) && GetByAddress(vs, a.signatures[i].address) == x
  {
    if n > 0 { SuspectsIff(vs, a, b, n - 1, x); }
  }

  /** The loop of the equivocation branch; `None` where it panics. */
  method Equivocators(vs: seq<Validator>, a: Commit, b: Commit) returns (r: Option<seq<Option<Validator>>>)
    ensures r.None? <==> Overruns(a, b)
    ensures r.Some? ==> r.value == Suspects(vs, a, b, |a.signatures|)
  {
    var found := [];
    for i := 0 to |a.signatures|
      invariant found == Suspects(vs, a, b, i)
      invariant forall j :: |b.signatures| <= j < i ==> a.signatures[j].flag != ForBlock
    {
      if a.signatures[i].flag != ForBlock { continue; }
      if i >= |b.signatures| { return None; }
      if b.signatures[i].flag != ForBlock { continue; }
      found := found + [GetByAddress(vs, a.signatures[i].address)];
    }
    r := Some(found);
  }

  /** Everybody was found. */
  predicate Known(s: seq<Option<Validator>>) { forall i :: 0 <= i < |s| ==> s[i].Some? }

  function Values(s: seq<Option<Validator>>): (r: seq<Validator>)
    requires Known(s)
    ensures |r| == |s| && forall i :: 0 <= i < |s| ==> s[i] == Some(r[i])
  {
    seq(|s|, i requires 0 <= i < |s| => s[i].value)
  }

  /** In set order the lookup finds exactly the validators of the signatures. */
  lemma {:induction false} SuspectsInOrder(vs: seq<Validator>, a: Commit, b: Commit, n: nat)
    requires DistinctAddresses(vs) && InSetOrder(vs, a) && |b.signatures| == |vs| && n <= |vs|
    ensures Known(Suspects(vs, a, b, n)) && Values(Suspects(vs, a, b, n)) == Chosen(vs, BothMask(a, b)[..n])
  {
    if n > 0 {
      SuspectsInOrder(vs, a, b, n - 1);
      assert BothMask(a, b)[..n][..n - 1] == BothMask(a, b)[..n - 1];
      var before, mask := Suspects(vs, a, b, n - 1), BothMask(a, b)[..n];
      if Both(a, b, n - 1) {
        assert IndexOf(vs, a.signatures[n - 1].address, 0) == Some(n - 1);
        assert Suspects(vs, a, b, n) == before + [Some(vs[n - 1])];
        assert Values(before + [Some(vs[n - 1])]) == Values(before) + [vs[n - 1]];
      } else {
        assert Suspects(vs, a, b, n) == before && Chosen(vs, mask) == Chosen(vs, mask[..n - 1]);
      }
    } else {
      assert Values(Suspects(vs, a, b, 0)) == [];
    }
  }

  /** What the evidence names: validators, a single entry that is nil, or
      nothing because it panics. Sorting two or more entries looks at each of
      them and panics on nil. */
  datatype Blame = Listed(validators: seq<Validator>) | Unknown | Panic

  /** What is listed for an equivocation. */
  ghost predicate Equivocation(r: Blame, vs: seq<Validator>, a: Commit, b: Commit) {
    var found := Suspects(vs, a, b, |a.signatures|);
    && (r.Panic? <==> Overruns(a, b) || (|found| >= 2 && !Known(found)))
    && (r.Unknown? <==> !Overruns(a, b) && found == [None])
    && (r.Listed? ==> Known(found) && multiset(r.validators) == multiset(Values(found)))
  }

  method BlameEquivocators(vs: seq<Validator>, a: Commit, b: Commit) returns (r: Blame)
    ensures Equivocation(r, vs, a, b)
    ensures r.Listed? ==> SortedBy(r.validators, ValidatorRuns.ByPower)
  {
    var found := Equivocators(vs, a, b);
    if found.None? { return Panic; }
    if !Known(found.value) {
      if |found.value| >= 2 { return Panic; }
      assert found.value == [None];
      return Unknown;
    }
    ValidatorRuns.ByPowerOrders();
    var sorted := Sort(Values(found.value), ValidatorRuns.ByPower);
    r := Listed(sorted);
  }

  /** In set order nothing goes wrong and those with a signature in both commits
      are listed. */
  lemma EquivocationInOrder(r: Blame, vs: seq<Validator>, a: Commit, b: Commit)
    requires Equivocation(r, vs, a, b) && DistinctAddresses(vs) && InSetOrder(vs, a) && |b.signatures| == |vs|
    ensures r.Listed? && multiset(r.validators) == multiset(Chosen(vs, BothMask(a, b)))
  {
    var found := Suspects(vs, a, b, |vs|);
    SuspectsInOrder(vs, a, b, |vs|);
    assert BothMask(a, b)[..|vs|] == BothMask(a, b);
    assert |found| > 0 ==> found[0].Some?;
  }

  /** What is listed for a header that the common set cannot have signed. */
  ghost predicate Lunacy(r: Blame, common: seq<Validator>, commit: Commit) {
    r.Listed? && forall v :: 0 <= v < |common| ==> (common[v] in r.validators <==> Named(common, commit, v))
  }

  method BlameLunatics(common: seq<Validator>, commit: Commit) returns (r: Blame)
    requires DistinctAddresses(common)
    ensures Lunacy(r, common, commit) && SortedBy(r.validators, ValidatorRuns.ByPower)
  {
    ValidatorRuns.ByPowerOrders();
    var found := Lunatics(common, commit);
    var sorted := Sort(found, ValidatorRuns.ByPower);
    forall v | 0 <= v < |common| ensures common[v] in sorted <==> common[v] in found {
      assert common[v] in multiset(sorted) <==> common[v] in multiset(found);
    }
    r := Listed(sorted);
  }

  /** `GetByzantineValidators` */
  method GetByzantineValidators(common: seq<Validator>, trusted: LightBlock, conflicting: LightBlock) returns (r: Blame)
    requires DistinctAddresses(common)
    ensures r.Listed? ==> SortedBy(r.validators, ValidatorRuns.ByPower)
    ensures ConflictingHeaderIsInvalid(trusted.header, conflicting.header) ==> Lunacy(r, common, conflicting.commit)
    ensures !ConflictingHeaderIsInvalid(trusted.header, conflicting.header) && trusted.commit.round == conflicting.commit.round ==>
      Equivocation(r, conflicting.vals, conflicting.commit, trusted.commit)
    ensures !ConflictingHeaderIsInvalid(trusted.header, conflicting.header) && trusted.commit.round != conflicting.commit.round ==>
      r == Listed([])
  {
    if ConflictingHeaderIsInvalid(trusted.header, conflicting.header) {
      r := BlameLunatics(common, conflicting.commit);
    } else if trusted.commit.round == conflicting.commit.round {
      r := BlameEquivocators(conflicting.vals, conflicting.commit, trusted.commit);
    } else {
      r := Listed([]);
    }
  }

  // ---- Accountability ----

  /** Two commits of one set, both accepted: the validators with signatures for
      both blocks hold more than a third of the power, and so do those among
      them whose two signatures were verified. */
  lemma EquivocationIsAccountable(v: Verifier, height: int, a: Commit, b: Commit) returns (guilty: seq<bool>)
    requires NonNegative(v.vals) && SoundVerifier(v)
    requires ByIndex(v, a.blockID, height, a, Light) == Accepted && ByIndex(v, b.blockID, height, b, Light) == Accepted
    ensures |a.signatures| == |b.signatures| == |v.vals|
    ensures 3 * Total(Chosen(v.vals, BothMask(a, b))) > Total(v.vals)
    ensures Signed(OwnCase(v, a, Light), guilty) && Signed(OwnCase(v, b, Light), guilty)
    ensures 3 * MaskSum(guilty, Powers(v.vals)) > Total(v.vals)
    ensures forall i :: 0 <= i < |guilty| && guilty[i] ==> BothMask(a, b)[i]
  {
    var signedA := LightMeansTwoThirds(v, a.blockID, height, a);
    var signedB := LightMeansTwoThirds(v, b.blockID, height, b);
    guilty := seq(|v.vals|, i requires 0 <= i < |v.vals| => signedA[i] && signedB[i]);
    MaskSumOverlap(signedA, signedB, guilty, Powers(v.vals));
    GuiltyAreListed(v, a, b, guilty);
  }

  lemma GuiltyAreListed(v: Verifier, a: Commit, b: Commit, guilty: seq<bool>)
    requires NonNegative(v.vals) && |a.signatures| == |b.signatures| == |v.vals|
    requires Signed(OwnCase(v, a, Light), guilty) && Signed(OwnCase(v, b, Light), guilty)
    ensures forall i :: 0 <= i < |guilty| && guilty[i] ==> BothMask(a, b)[i]
    ensures MaskSum(guilty, Powers(v.vals)) <= Total(Chosen(v.vals, BothMask(a, b)))
  {
    forall i | 0 <= i < |guilty| && guilty[i] ensures BothMask(a, b)[i] {
      SignsAt(OwnCase(v, a, Light), i);
      SignsAt(OwnCase(v, b, Light), i);
    }
    MaskSumSubset(guilty, BothMask(a, b), Powers(v.vals));
    ChosenTotal(v.vals, BothMask(a, b));
    assert v.vals[..|v.vals|] == v.vals;
  }

  /** Whoever is listed for such an equivocation holds more than a third. */
  lemma ListedHoldThird(v: Verifier, height: int, a: Commit, b: Commit, r: Blame)
    requires NonNegative(v.vals) && SoundVerifier(v) && DistinctAddresses(v.vals) && InSetOrder(v.vals, a)
    requires ByIndex(v, a.blockID, height, a, Light) == Accepted && ByIndex(v, b.blockID, height, b, Light) == Accepted
    requires Equivocation(r, v.vals, a, b)
    ensures r.Listed? && 3 * Total(r.validators) > Total(v.vals)
  {
    var _ := EquivocationIsAccountable(v, height, a, b);
    EquivocationInOrder(r, v.vals, a, b);
    ValidatorChanges.TotalPermutation(r.validators, Chosen(v.vals, BothMask(a, b)));
  }

  lemma SignsAt(k: Case, i: nat)
    requires k.rule == Light && Aligned(k) && i < |k.vals| && SignedBy(k, i)
    ensures k.commit.signatures[i].flag == ForBlock
  {
    var j :| 0 <= j < |k.commit.signatures| && SignsFor(k, j, i);
  }

  /** A lunatic block that the common set vouched for: distinct validators with
      more than a third of the common power signed it, and all of them are
      listed. */
  lemma LunacyIsAccountable(v: Verifier, commit: Commit, r: Blame) returns (guilty: seq<bool>)
    requires NonNegative(v.vals) && SoundVerifier(v)
    requires TrustingOutcome(v, commit, Fraction(1, 3)) == Accepted && Lunacy(r, v.vals, commit)
    ensures Signed(TrustedCase(v, commit, Fraction(1, 3)), guilty)
    ensures 3 * MaskSum(guilty, Powers(v.vals)) > Total(v.vals)
    ensures forall i :: 0 <= i < |guilty| && guilty[i] ==> v.vals[i] in r.validators
  {
    guilty := TrustingMeansShare(v, commit, Fraction(1, 3));
    var k := TrustedCase(v, commit, Fraction(1, 3));
    forall i | 0 <= i < |guilty| && guilty[i] ensures v.vals[i] in r.validators {
      assert SignedBy(k, i);
      var j :| 0 <= j < |commit.signatures| && SignsFor(k, j, i);
      assert Named(v.vals, commit, i);
    }
  }
}
