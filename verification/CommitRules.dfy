/** The three ways to ask whether a commit is good: for a block of a validator
    set in full, lightly, or at a trust level of another set
    (`types/validation.go`). */
module CommitRules {
  import opened Basics
  import opened Int64
  import opened Products
  import opened Sums
  import opened Validators
  import opened Votes
  import opened CommitVerification

  /** What verification needs besides the commit: the set, its proposer's key
      and what the batch verifiers require of a key and a signature. */
  datatype Verifier = Verifier(chain: Chain, vals: seq<Validator>, proposer: PubKey, shaped: (PubKey, Bytes) -> bool)

  ghost predicate SoundVerifier(v: Verifier) {
    Sound(v.chain, BatchVerifier(v.proposer.kind, v.shaped))
  }

  // ---- The power needed ----

  /** `TotalVotingPower`: the sum, clipped from below; `None` where it panics. */
  function PowerSum(vals: seq<Validator>): (r: Option<int>)
    ensures r.Some? ==> InInt64(r.value) && r.value <= MaxTotalVotingPower
  {
    if |vals| == 0 then Some(0)
    else
      var n := |vals| - 1;
      var s := PowerSum(vals[..n]);
      if s.None? || s.value + vals[n].power > MaxTotalVotingPower then None
      else Some(if s.value + vals[n].power < MinInt64 then MinInt64 else s.value + vals[n].power)
  }

  /** What `ValidatorSet.ValidateBasic` checks of the powers. */
  ghost predicate NonNegative(vals: seq<Validator>) {
    forall i :: 0 <= i < |vals| ==> 0 <= vals[i].power
  }

  /** The sum is never below the total; without negative powers it is the total,
      and it panics exactly when that exceeds the maximum. */
  lemma {:induction false} PowerSumIsTotal(vals: seq<Validator>)
    ensures PowerSum(vals).Some? ==> PowerSum(vals).value >= Total(vals)
    ensures NonNegative(vals) ==> 0 <= Total(vals)
    ensures NonNegative(vals) ==> PowerSum(vals) == if Total(vals) <= MaxTotalVotingPower then Some(Total(vals)) else None
  {
    if |vals| > 0 {
      var n := |vals| - 1;
      PowerSumIsTotal(vals[..n]);
      assert vals == vals[..n] + [vals[n]];
      TotalAppend(vals[..n], vals[n]);
    } else {
      assert Powers(vals) == [];
    }
  }

  /** Two thirds of the total as the source computes it. */
  function TwoThirds(vals: seq<Validator>): int {
    if PowerSum(vals).None? then 0 else Div64(Wrap64(PowerSum(vals).value * 2), 3)
  }

  /** Exceeding it means exceeding two thirds of the power, and conversely when
      no power is negative. */
  lemma TwoThirdsIff(vals: seq<Validator>, s: int)
    requires PowerSum(vals).Some?
    ensures s > TwoThirds(vals) ==> 3 * s > 2 * Total(vals)
    ensures NonNegative(vals) && 3 * s > 2 * Total(vals) ==> s > TwoThirds(vals)
  {
    PowerSumIsTotal(vals);
    var t := PowerSum(vals).value;
    assert Wrap64(t * 2) >= t * 2;
    TruncatedThird(Wrap64(t * 2));
  }

  lemma TruncatedThird(m: int)
    requires InInt64(m)
    ensures 3 * Div64(m, 3) > m - 3
    ensures m >= 0 ==> 3 * Div64(m, 3) <= m
  {}

  // ---- Against the set of the block ----

  /** `verifyBasicValsAndCommit` */
  function Basic(v: Verifier, blockID: BlockID, height: int, commit: Commit): Option<Outcome> {
    if |v.vals| != |commit.signatures| then Some(WrongSize)
    else if height != commit.height then Some(WrongHeight)
    else if blockID != commit.blockID then Some(WrongBlock)
    else None
  }

  /** The commit as a rule of the block's own set sees it. */
  function OwnCase(v: Verifier, commit: Commit, rule: Rule): Case {
    Case(v.chain, v.vals, commit, TwoThirds(v.vals), rule)
  }

  function ByIndex(v: Verifier, blockID: BlockID, height: int, commit: Commit, rule: Rule): Outcome
    requires rule != Trusting
  {
    var basic := Basic(v, blockID, height, commit);
    if basic.Some? then basic.value
    else if PowerSum(v.vals).None? then Panics
    else Verified(OwnCase(v, commit, rule), v.proposer, v.shaped)
  }

  /** The commit is one for this block of this set. */
  predicate Fits(v: Verifier, blockID: BlockID, height: int, commit: Commit) {
    |v.vals| == |commit.signatures| && height == commit.height && blockID == commit.blockID
  }

  /** Signature i is valid and, in a batch, of the proposer's key type. */
  predicate Backs(v: Verifier, commit: Commit, i: nat)
    requires i < |v.vals| == |commit.signatures|
  {
    && v.chain.verify(v.vals[i].pubKey, CommitSignBytes(v.chain, commit, i), commit.signatures[i].signature)
    && (BatchKind(commit, v.proposer).Some? ==> v.vals[i].pubKey.kind == v.proposer.kind)
  }

  /** All signatures present back the commit, and those for the block hold more
      than two thirds of the power. */
  ghost predicate FullyBacked(v: Verifier, commit: Commit)
    requires |v.vals| == |commit.signatures|
  {
    && (forall i :: 0 <= i < |v.vals| && commit.signatures[i].flag != Absent ==> Backs(v, commit, i))
    && 3 * MaskSum(BlockMask(commit), Powers(v.vals)) > 2 * Total(v.vals)
  }

  /** Among the first n signatures those for the block back the commit and hold
      more than two thirds of the power. */
  ghost predicate LightlyBacked(v: Verifier, commit: Commit, n: nat)
    requires |v.vals| == |commit.signatures|
  {
    && n <= |v.vals|
    && (forall i :: 0 <= i < n && commit.signatures[i].flag == ForBlock ==> Backs(v, commit, i))
    && 3 * MaskSum(BlockMask(commit)[..n], Powers(v.vals)[..n]) > 2 * Total(v.vals)
  }

  lemma GoodBacks(v: Verifier, commit: Commit, rule: Rule, i: nat)
    requires rule != Trusting && i < |v.vals| == |commit.signatures|
    ensures Good(OwnCase(v, commit, rule), BatchKind(commit, v.proposer), i) <==>
      (rule.Ignores(commit.signatures[i]) || Backs(v, commit, i))
  {}

  lemma FullCaseIff(v: Verifier, commit: Commit)
    requires |v.vals| == |commit.signatures| && NonNegative(v.vals) && PowerSum(v.vals).Some?
    ensures Acceptable(OwnCase(v, commit, Full), BatchKind(commit, v.proposer)) <==> FullyBacked(v, commit)
  {
    var k, kind := OwnCase(v, commit, Full), BatchKind(commit, v.proposer);
    FullIff(k, kind);
    TwoThirdsIff(v.vals, MaskSum(BlockMask(commit), Powers(v.vals)));
    forall i | 0 <= i < |v.vals| ensures Good(k, kind, i) <==> (commit.signatures[i].flag == Absent || Backs(v, commit, i)) {
      GoodBacks(v, commit, Full, i);
    }
  }

  lemma {:induction false} LightTally(k: Case, n: nat)
    requires Aligned(k) && k.rule == Light && n <= |k.vals|
    ensures Tally(k, n) == MaskSum(BlockMask(k.commit)[..n], Powers(k.vals)[..n])
  {
    if n > 0 {
      LightTally(k, n - 1);
      var mask, powers := BlockMask(k.commit), Powers(k.vals);
      assert Masked(mask[..n], powers[..n])[..n - 1] == Masked(mask[..n - 1], powers[..n - 1]);
    }
  }

  lemma LightPrefixIff(v: Verifier, commit: Commit, n: nat)
    requires |v.vals| == |commit.signatures| && NonNegative(v.vals) && PowerSum(v.vals).Some?
    ensures Backed(OwnCase(v, commit, Light), BatchKind(commit, v.proposer), n) <==> LightlyBacked(v, commit, n)
  {
    var k, kind := OwnCase(v, commit, Light), BatchKind(commit, v.proposer);
    if n <= |v.vals| {
      LightTally(k, n);
      TwoThirdsIff(v.vals, Tally(k, n));
      forall i | 0 <= i < n ensures Good(k, kind, i) <==> (commit.signatures[i].flag != ForBlock || Backs(v, commit, i)) {
        GoodBacks(v, commit, Light, i);
      }
    }
  }

  lemma LightCaseIff(v: Verifier, commit: Commit)
    requires |v.vals| == |commit.signatures| && NonNegative(v.vals) && PowerSum(v.vals).Some?
    ensures Acceptable(OwnCase(v, commit, Light), BatchKind(commit, v.proposer)) <==> exists n: nat :: LightlyBacked(v, commit, n)
  {
    var k, kind := OwnCase(v, commit, Light), BatchKind(commit, v.proposer);
    PowerSumIsTotal(v.vals);
    AcceptableIff(k, kind);
    forall n: nat ensures Backed(k, kind, n) <==> LightlyBacked(v, commit, n) {
      LightPrefixIff(v, commit, n);
    }
  }

  /** The answers other than a scan of the signatures. */
  ghost predicate Refusals(r: Outcome, v: Verifier, blockID: BlockID, height: int, commit: Commit) {
    && (r.WrongSize? <==> |v.vals| != |commit.signatures|)
    && (r.WrongHeight? <==> |v.vals| == |commit.signatures| && height != commit.height)
    && (r.WrongBlock? <==> |v.vals| == |commit.signatures| && height == commit.height && blockID != commit.blockID)
    && (NonNegative(v.vals) ==> (r.Panics? <==> Fits(v, blockID, height, commit) && Total(v.vals) > MaxTotalVotingPower))
  }

  lemma {:induction false} ScanAnswers(k: Case, i: nat, seen: map<nat, nat>, tally: int)
    requires Aligned(k) && i <= |k.commit.signatures|
    ensures FromScan(Single(k, i, seen, tally))
    decreases |k.commit.signatures| - i
  {
    if i < |k.commit.signatures| {
      var s := Signer(k, i);
      if s.None? { ScanAnswers(k, i + 1, seen, tally); }
      else { ScanAnswers(k, i + 1, seen[s.value := i], tally + Gain(k, i, s.value)); }
    }
  }

  lemma {:induction false} BatchAnswers(k: Case, b: BatchVerifier, i: nat, seen: map<nat, nat>, tally: int, bad: Option<nat>)
    requires Aligned(k) && i <= |k.commit.signatures|
    ensures FromScan(Batch(k, b, i, seen, tally, bad))
    decreases |k.commit.signatures| - i
  {
    if i < |k.commit.signatures| {
      var s := Signer(k, i);
      if s.None? { BatchAnswers(k, b, i + 1, seen, tally, bad); }
      else {
        BatchAnswers(k, b, i + 1, seen[s.value := i], tally + Gain(k, i, s.value),
                     if bad.None? && !ValidSig(k, i, s.value) then Some(i) else bad);
      }
    }
  }

  predicate FromScan(r: Outcome) {
    r.Accepted? || r.NotEnoughPower? || r.DoubleVote? || r.WrongSignature? || r.CannotBatch?
  }

  lemma VerifiedAnswers(k: Case, proposer: PubKey, shaped: (PubKey, Bytes) -> bool)
    requires Aligned(k)
    ensures FromScan(Verified(k, proposer, shaped))
  {
    ScanAnswers(k, 0, map[], 0);
    BatchAnswers(k, BatchVerifier(proposer.kind, shaped), 0, map[], 0, None);
  }

  lemma ByIndexRefusals(v: Verifier, blockID: BlockID, height: int, commit: Commit, rule: Rule)
    requires rule != Trusting
    ensures Refusals(ByIndex(v, blockID, height, commit, rule), v, blockID, height, commit)
  {
    PowerSumIsTotal(v.vals);
    if Fits(v, blockID, height, commit) { VerifiedAnswers(OwnCase(v, commit, rule), v.proposer, v.shaped); }
  }

  lemma FullAcceptedIff(v: Verifier, blockID: BlockID, height: int, commit: Commit)
    requires SoundVerifier(v) && NonNegative(v.vals)
    ensures ByIndex(v, blockID, height, commit, Full) == Accepted <==>
      Fits(v, blockID, height, commit) && Total(v.vals) <= MaxTotalVotingPower && FullyBacked(v, commit)
  {
    PowerSumIsTotal(v.vals);
    if Fits(v, blockID, height, commit) && PowerSum(v.vals).Some? {
      AcceptedIff(OwnCase(v, commit, Full), v.proposer, v.shaped);
      FullCaseIff(v, commit);
    }
  }

  lemma LightAcceptedIff(v: Verifier, blockID: BlockID, height: int, commit: Commit)
    requires SoundVerifier(v) && NonNegative(v.vals)
    ensures ByIndex(v, blockID, height, commit, Light) == Accepted <==>
      ( && Fits(v, blockID, height, commit) && Total(v.vals) <= MaxTotalVotingPower
        && exists n: nat :: LightlyBacked(v, commit, n))
  {
    PowerSumIsTotal(v.vals);
    if Fits(v, blockID, height, commit) && PowerSum(v.vals).Some? {
      AcceptedIff(OwnCase(v, commit, Light), v.proposer, v.shaped);
      LightCaseIff(v, commit);
    }
  }

  /** `VerifyCommit`: exactly the commits of the block that are fully backed. */
  method VerifyCommit(v: Verifier, blockID: BlockID, height: int, commit: Commit) returns (r: Outcome)
    ensures r == ByIndex(v, blockID, height, commit, Full)
    ensures Refusals(r, v, blockID, height, commit)
    ensures SoundVerifier(v) && NonNegative(v.vals) ==>
      (r == Accepted <==> Fits(v, blockID, height, commit) && Total(v.vals) <= MaxTotalVotingPower && FullyBacked(v, commit))
  {
    ByIndexRefusals(v, blockID, height, commit, Full);
    if SoundVerifier(v) && NonNegative(v.vals) { FullAcceptedIff(v, blockID, height, commit); }
    r := ScanByIndex(v, blockID, height, commit, Full);
  }

  /** `VerifyCommitLight`: exactly the commits of the block of which some prefix
      backs it. */
  method VerifyCommitLight(v: Verifier, blockID: BlockID, height: int, commit: Commit) returns (r: Outcome)
    ensures r == ByIndex(v, blockID, height, commit, Light)
    ensures Refusals(r, v, blockID, height, commit)
    ensures SoundVerifier(v) && NonNegative(v.vals) ==>
      (r == Accepted <==> ( && Fits(v, blockID, height, commit) && Total(v.vals) <= MaxTotalVotingPower
                            && exists n: nat :: LightlyBacked(v, commit, n)))
  {
    ByIndexRefusals(v, blockID, height, commit, Light);
    if SoundVerifier(v) && NonNegative(v.vals) { LightAcceptedIff(v, blockID, height, commit); }
    r := ScanByIndex(v, blockID, height, commit, Light);
  }

  method ScanByIndex(v: Verifier, blockID: BlockID, height: int, commit: Commit, rule: Rule) returns (r: Outcome)
    requires rule != Trusting
    ensures r == ByIndex(v, blockID, height, commit, rule)
  {
    var basic := Basic(v, blockID, height, commit);
    if basic.Some? { return basic.value; }
    if PowerSum(v.vals).None? { return Panics; }
    r := Dispatch(OwnCase(v, commit, rule), v.proposer, v.shaped);
  }

  // ---- Against a trusted set ----

  /** A trust level; the source casts both parts to `int64`. */
  datatype Fraction = Fraction(numerator: uint64, denominator: uint64) {
    predicate Uncast() { numerator <= MaxInt64 && 0 < denominator <= MaxInt64 }
  }

  /** The power needed for a share of the total; `None` on overflow. */
  function Share(total: int, level: Fraction): Option<int>
    requires InInt64(total) && level.denominator != 0
  {
    var product := SafeMul(total, Cast(level.numerator));
    if product.None? then None else Some(Div64(product.value, Cast(level.denominator)))
  }

  /** Where the casts do nothing it is the share, rounded down. */
  lemma ShareIsExact(total: int, level: Fraction)
    requires 0 <= total <= MaxInt64 && level.Uncast()
    ensures 0 <= total * level.numerator
    ensures Share(total, level) ==
      if total * level.numerator <= MaxInt64 then Some(total * level.numerator / level.denominator) else None
  {
    SafeMulIsExact(total, level.numerator);
    MulMonotone(level.numerator, 0, total);
    var product := total * level.numerator;
    Quotient(product, level.denominator, product / level.denominator);
  }

  /** The commit as the trusting rule of another set sees it. */
  function TrustedCase(v: Verifier, commit: Commit, level: Fraction): Case
    requires level.denominator != 0
  {
    var total := PowerSum(v.vals);
    var needed := if total.None? || Share(total.value, level).None? then 0 else Share(total.value, level).value;
    Case(v.chain, v.vals, commit, needed, Trusting)
  }

  /** Asking an empty set for its proposer panics. */
  predicate NoProposer(v: Verifier, commit: Commit) {
    |v.vals| == 0 && |commit.signatures| >= BatchVerifyThreshold
  }

  function TrustingOutcome(v: Verifier, commit: Commit, level: Fraction): Outcome {
    if level.denominator == 0 then ZeroDenominator
    else if PowerSum(v.vals).None? then Panics
    else if Share(PowerSum(v.vals).value, level).None? then Overflow
    else if NoProposer(v, commit) then Panics
    else Verified(TrustedCase(v, commit, level), v.proposer, v.shaped)
  }

  /** The first n signatures that are for the block and from the set are valid,
      of different validators, in a batch of the proposer's key type, and hold
      more than the share of the power. */
  ghost predicate Vouched(v: Verifier, commit: Commit, level: Fraction, n: nat)
    requires level.denominator != 0
  {
    var k := TrustedCase(v, commit, level);
    && n <= |commit.signatures| && Clean(k, BatchKind(commit, v.proposer), n)
    && Tally(k, n) * level.denominator > Total(v.vals) * level.numerator
  }

  lemma AboveQuotient(s: int, product: int, d: nat)
    requires d > 0 && product >= 0
    ensures s > product / d <==> s * d > product
  {
    var q := product / d;
    Quotient(product, d, q);
    if s > q { MulMonotone(d, q + 1, s); } else { MulMonotone(d, s, q); }
  }

  lemma VouchedIff(v: Verifier, commit: Commit, level: Fraction)
    requires NonNegative(v.vals) && Total(v.vals) <= MaxTotalVotingPower && level.Uncast()
    requires Total(v.vals) * level.numerator <= MaxInt64
    ensures Acceptable(TrustedCase(v, commit, level), BatchKind(commit, v.proposer)) <==>
      exists n: nat :: Vouched(v, commit, level, n)
  {
    PowerSumIsTotal(v.vals);
    ShareIsExact(Total(v.vals), level);
    var k, kind := TrustedCase(v, commit, level), BatchKind(commit, v.proposer);
    var product := Total(v.vals) * level.numerator;
    Quotient(product, level.denominator, k.needed);
    AcceptableIff(k, kind);
    forall n: nat ensures Backed(k, kind, n) <==> Vouched(v, commit, level, n) {
      if n <= |commit.signatures| { AboveQuotient(Tally(k, n), product, level.denominator); }
    }
  }

  lemma EmptySetVouchesForNone(v: Verifier, commit: Commit, level: Fraction, n: nat)
    requires level.denominator != 0 && |v.vals| == 0
    ensures !Vouched(v, commit, level, n)
  {
    var k := TrustedCase(v, commit, level);
    assert Powers(v.vals) == [];
    if n <= |commit.signatures| { NothingTallied(k, n); }
  }

  lemma {:induction false} NothingTallied(k: Case, n: nat)
    requires k.rule == Trusting && |k.vals| == 0 && n <= |k.commit.signatures|
    ensures Tally(k, n) == 0
  {
    if n > 0 {
      NothingTallied(k, n - 1);
      assert Signer(k, n - 1).None?;
    }
  }

  lemma TrustingAcceptedIff(v: Verifier, commit: Commit, level: Fraction)
    requires SoundVerifier(v)
    ensures TrustingOutcome(v, commit, level) == Accepted <==>
      ( && level.denominator != 0 && PowerSum(v.vals).Some? && Share(PowerSum(v.vals).value, level).Some?
        && !NoProposer(v, commit) && Acceptable(TrustedCase(v, commit, level), BatchKind(commit, v.proposer)))
  {
    if level.denominator != 0 { AcceptedIff(TrustedCase(v, commit, level), v.proposer, v.shaped); }
  }

  lemma VouchedAcceptedIff(v: Verifier, commit: Commit, level: Fraction)
    requires SoundVerifier(v) && NonNegative(v.vals) && level.Uncast()
    ensures TrustingOutcome(v, commit, level) == Accepted <==>
      ( && Total(v.vals) <= MaxTotalVotingPower && Total(v.vals) * level.numerator <= MaxInt64
        && exists n: nat :: Vouched(v, commit, level, n))
  {
    TrustingAcceptedIff(v, commit, level);
    PowerSumIsTotal(v.vals);
    if Total(v.vals) <= MaxTotalVotingPower {
      ShareIsExact(Total(v.vals), level);
      if Total(v.vals) * level.numerator <= MaxInt64 { VouchedIff(v, commit, level); }
    }
    if |v.vals| == 0 {
      forall n: nat ensures !Vouched(v, commit, level, n) { EmptySetVouchesForNone(v, commit, level, n); }
    }
  }

  /** The answers other than a scan of the signatures. */
  ghost predicate TrustingRefusals(r: Outcome, v: Verifier, commit: Commit, level: Fraction) {
    && (r.ZeroDenominator? <==> level.denominator == 0)
    && (NonNegative(v.vals) && level.denominator != 0 ==>
          && (r.Panics? <==> Total(v.vals) > MaxTotalVotingPower || NoProposer(v, commit))
          && (r.Overflow? <==> ( && Total(v.vals) <= MaxTotalVotingPower
                                 && !(-MaxInt64 <= Total(v.vals) * Cast(level.numerator) <= MaxInt64))))
  }

  lemma TrustingOutcomeRefusals(v: Verifier, commit: Commit, level: Fraction)
    ensures TrustingRefusals(TrustingOutcome(v, commit, level), v, commit, level)
  {
    PowerSumIsTotal(v.vals);
    if level.denominator != 0 && PowerSum(v.vals).Some? {
      SafeMulIsExact(PowerSum(v.vals).value, Cast(level.numerator));
      VerifiedAnswers(TrustedCase(v, commit, level), v.proposer, v.shaped);
    }
    if |v.vals| == 0 { assert Powers(v.vals) == []; }
  }

  /** Every signature that is for the block and from the set passes, each from a
      different validator, and together they hold no more than the share. */
  ghost predicate Unvouched(v: Verifier, commit: Commit, level: Fraction)
    requires level.denominator != 0
  {
    var k, n := TrustedCase(v, commit, level), |commit.signatures|;
    && Passed(k, BatchKind(commit, v.proposer), v.shaped, n)
    && Tally(k, n) * level.denominator <= Total(v.vals) * level.numerator
  }

  /** The share of the total can be computed, and the set has a proposer if a
      batch is to be used. */
  predicate Sharable(v: Verifier, commit: Commit, level: Fraction) {
    && level.denominator != 0 && Total(v.vals) <= MaxTotalVotingPower
    && -MaxInt64 <= Total(v.vals) * Cast(level.numerator) <= MaxInt64
    && (|v.vals| == 0 ==> |commit.signatures| < 2)
  }

  /** What the signatures decide once the share is computed. */
  lemma SharedIff(v: Verifier, commit: Commit, level: Fraction)
    requires NonNegative(v.vals)
    ensures Sharable(v, commit, level) <==>
      level.denominator != 0 && PowerSum(v.vals).Some? && Share(PowerSum(v.vals).value, level).Some? && !NoProposer(v, commit)
  {
    PowerSumIsTotal(v.vals);
    if level.denominator != 0 && PowerSum(v.vals).Some? { SafeMulIsExact(Total(v.vals), Cast(level.numerator)); }
  }

  /** A commit is short of a trusted set's share exactly when the share can be
      computed and all signatures pass without exceeding it. */
  lemma TrustingShortIff(v: Verifier, commit: Commit, level: Fraction)
    requires NonNegative(v.vals)
    ensures TrustingOutcome(v, commit, level).NotEnoughPower? <==>
      Sharable(v, commit, level) && Short(TrustedCase(v, commit, level), BatchKind(commit, v.proposer), v.shaped)
  {
    SharedIff(v, commit, level);
    if Sharable(v, commit, level) { ShortIff(TrustedCase(v, commit, level), v.proposer, v.shaped); }
  }

  /** Where the casts do nothing the share is the one of the level. */
  lemma UnvouchedIff(v: Verifier, commit: Commit, level: Fraction)
    requires NonNegative(v.vals) && level.Uncast() && Sharable(v, commit, level)
    ensures Short(TrustedCase(v, commit, level), BatchKind(commit, v.proposer), v.shaped) <==> Unvouched(v, commit, level)
  {
    PowerSumIsTotal(v.vals);
    ShareIsExact(Total(v.vals), level);
    AboveQuotient(Tally(TrustedCase(v, commit, level), |commit.signatures|), Total(v.vals) * level.numerator, level.denominator);
  }

  /** `VerifyCommitLightTrusting`: exactly the commits of which some prefix is
      vouched for by the share of the set. */
  method VerifyCommitLightTrusting(v: Verifier, commit: Commit, level: Fraction) returns (r: Outcome)
    ensures r == TrustingOutcome(v, commit, level)
    ensures TrustingRefusals(r, v, commit, level)
    ensures SoundVerifier(v) && NonNegative(v.vals) && level.Uncast() ==>
      (r == Accepted <==> ( && Total(v.vals) <= MaxTotalVotingPower && Total(v.vals) * level.numerator <= MaxInt64
                            && exists n: nat :: Vouched(v, commit, level, n)))
    ensures NonNegative(v.vals) && level.Uncast() ==>
      (r.NotEnoughPower? <==> Sharable(v, commit, level) && Unvouched(v, commit, level))
  {
    TrustingOutcomeRefusals(v, commit, level);
    if SoundVerifier(v) && NonNegative(v.vals) && level.Uncast() { VouchedAcceptedIff(v, commit, level); }
    if NonNegative(v.vals) && level.Uncast() {
      TrustingShortIff(v, commit, level);
      if Sharable(v, commit, level) { UnvouchedIff(v, commit, level); }
    }
    r := ScanByAddress(v, commit, level);
  }

  method ScanByAddress(v: Verifier, commit: Commit, level: Fraction) returns (r: Outcome)
    ensures r == TrustingOutcome(v, commit, level)
  {
    if level.denominator == 0 { return ZeroDenominator; }
    var total := PowerSum(v.vals);
    if total.None? { return Panics; }
    var needed := Share(total.value, level);
    if needed.None? { return Overflow; }
    if NoProposer(v, commit) { return Panics; }
    r := Dispatch(Case(v.chain, v.vals, commit, needed.value, Trusting), v.proposer, v.shaped);
  }

  // ---- What they promise ----

  /** Whatever full verification accepts, light verification accepts. */
  lemma VerifyCommitImpliesLight(v: Verifier, blockID: BlockID, height: int, commit: Commit)
    requires SoundVerifier(v) && ByIndex(v, blockID, height, commit, Full) == Accepted
    ensures ByIndex(v, blockID, height, commit, Light) == Accepted
  {
    var k := OwnCase(v, commit, Full);
    VerifiedIff(k, v.proposer, v.shaped);
    VerifiedIff(Lighter(k), v.proposer, v.shaped);
    FullImpliesLight(k, 0, map[], map[], 0);
    if KeysMatch(k, v.proposer.kind, 0, 0) { LightKeysMatch(k, v.proposer.kind, 0, 0); }
  }

  /** A commit accepted for a block was signed for that block by validators with
      more than two thirds of the power. */
  lemma LightMeansTwoThirds(v: Verifier, blockID: BlockID, height: int, commit: Commit) returns (signers: seq<bool>)
    requires SoundVerifier(v) && ByIndex(v, blockID, height, commit, Light) == Accepted
    ensures Fits(v, blockID, height, commit) && Signed(OwnCase(v, commit, Light), signers)
    ensures 3 * MaskSum(signers, Powers(v.vals)) > 2 * Total(v.vals)
  {
    var k := OwnCase(v, commit, Light);
    VerifiedIff(k, v.proposer, v.shaped);
    signers := AcceptedIsSigned(k);
    TwoThirdsIff(v.vals, MaskSum(signers, Powers(v.vals)));
  }

  /** A commit accepted at a trust level was signed for its block by distinct
      validators of the trusted set with more than the power needed, and so with
      more than that share of its power where the casts do nothing. */
  lemma TrustingMeansShare(v: Verifier, commit: Commit, level: Fraction) returns (signers: seq<bool>)
    requires SoundVerifier(v) && NonNegative(v.vals) && TrustingOutcome(v, commit, level) == Accepted
    ensures 0 <= Total(v.vals) <= MaxTotalVotingPower && level.denominator != 0 && Share(Total(v.vals), level).Some?
    ensures Signed(TrustedCase(v, commit, level), signers)
    ensures MaskSum(signers, Powers(v.vals)) > Share(Total(v.vals), level).value
    ensures level.Uncast() ==> MaskSum(signers, Powers(v.vals)) * level.denominator > Total(v.vals) * level.numerator
  {
    PowerSumIsTotal(v.vals);
    var k := TrustedCase(v, commit, level);
    VerifiedIff(k, v.proposer, v.shaped);
    signers := AcceptedIsSigned(k);
    if level.Uncast() {
      ShareIsExact(Total(v.vals), level);
      AboveQuotient(MaskSum(signers, Powers(v.vals)), Total(v.vals) * level.numerator, level.denominator);
    }
  }

  // ---- Mixed key types ----

  /** A set of two validators with keys of different types, the second one the
      proposer, on a chain where every signature is valid. */
  function MixedVerifier(): Verifier {
    var first, second := PubKey(Ed25519, Zeros(32)), PubKey(Sr25519, Zeros(32));
    Verifier(Chain((_, _, _, _, _) => [], (_, _, _) => true, _ => Zeros(20)),
             [Validator(Zeros(19) + [1], first, 1, 0), Validator(Zeros(19) + [2], second, 1, 0)], second, (_, _) => true)
  }

  /** A commit for a block that both have signed. */
  function MixedCommit(): Commit {
    Commit(1, 0, BlockID(seq(HashSize, _ => 9), 1, seq(HashSize, _ => 8)),
           [CommitSig(ForBlock, Zeros(19) + [1], 1, [1]), CommitSig(ForBlock, Zeros(19) + [2], 1, [1])])
  }

  /** By every rule of the set itself the commit is accepted one by one, and the
      entry points, which take the batch of the proposer's key type, refuse it. */
  lemma MixedKeysRefused(rule: Rule)
    requires rule != Trusting
    ensures var v, commit := MixedVerifier(), MixedCommit();
      && Aligned(OwnCase(v, commit, rule)) && Single(OwnCase(v, commit, rule), 0, map[], 0) == Accepted
      && ByIndex(v, commit.blockID, 1, commit, rule) == CannotBatch(0)
  {
    var v, commit := MixedVerifier(), MixedCommit();
    var k := OwnCase(v, commit, rule);
    assert v.vals[..1][..0] == [] && v.vals[..1][0] == v.vals[0];
    assert PowerSum(v.vals[..1]) == Some(1);
    assert PowerSum(v.vals) == Some(2) && k.needed == 1;
    assert Signer(k, 0) == Some(0) && Signer(k, 1) == Some(1);
    assert Single(k, 1, map[0 := 0], 1) == Accepted;
  }
}
