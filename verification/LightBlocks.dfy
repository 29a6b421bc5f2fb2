/** Light blocks and their verification against a trusted one
    (`types/light.go`, `light/verifier.go`). */
module LightBlocks {
  import opened Basics
  import opened Int64
  import opened Products
  import opened Sums
  import opened Validators
  import opened Votes
  import opened Check = CommitVerification
  import opened CommitRules

  datatype Header = Header(
    chainID: string, height: int, time: int, validatorsHash: Bytes, nextValidatorsHash: Bytes,
    consensusHash: Bytes, appHash: Bytes, lastResultsHash: Bytes)

  /** A signed header with its validator set and that set's proposer. */
  datatype LightBlock = LightBlock(header: Header, commit: Commit, vals: seq<Validator>, proposer: PubKey)

  /** What a light client is configured with, and what hashing and basic
      validation of headers and commits do. */
  datatype Client = Client(
    chainOf: string -> Chain, shaped: (PubKey, Bytes) -> bool,
    valsHash: seq<Validator> -> Bytes, headerHash: Header -> Bytes, basic: (Header, Commit) -> bool,
    trustingPeriod: int, now: int, maxClockDrift: int, trustLevel: Fraction)

  datatype Verdict = Ok | CantBeTrusted | Expired | InvalidHeader | Misused | Panics

  const ZeroTime: int := 0

  /** `ValidateTrustLevel`, with its 64-bit product. */
  predicate TrustLevelOk(f: Fraction) {
    f.numerator * 3 % TwoTo64 >= f.denominator && f.numerator < f.denominator && f.denominator != 0
  }

  /** `SignedHeader.ValidateBasic` */
  predicate SignedBasic(c: Client, b: LightBlock, chainID: string) {
    && c.basic(b.header, b.commit) && b.header.chainID == chainID
    && b.commit.height == b.header.height && b.commit.blockID.hash == c.headerHash(b.header)
  }

  /** `verifyNewHeaderAndVals` */
  predicate NewHeaderOk(c: Client, trusted: LightBlock, b: LightBlock) {
    && SignedBasic(c, b, trusted.header.chainID)
    && b.header.height > trusted.header.height
    && b.header.time > trusted.header.time
    && b.header.time < c.now + c.maxClockDrift
    && b.header.validatorsHash == c.valsHash(b.vals)
  }

  /** `checkRequiredHeaderFields` panics otherwise. */
  predicate RequiredFields(h: Header) {
    h.height != 0 && h.time != ZeroTime && h.chainID != ""
  }

  predicate HeaderExpired(c: Client, h: Header) { h.time + c.trustingPeriod <= c.now }

  function VerifierFor(c: Client, chainID: string, b: LightBlock): Verifier {
    Verifier(c.chainOf(chainID), b.vals, b.proposer, c.shaped)
  }

  /** Two thirds of the block's own set, under the trusted chain. */
  function OwnCommit(c: Client, trusted: LightBlock, b: LightBlock): Outcome {
    ByIndex(VerifierFor(c, trusted.header.chainID, b), b.commit.blockID, b.header.height, b.commit, Light)
  }

  function TrustedShare(c: Client, trusted: LightBlock, b: LightBlock): Outcome {
    TrustingOutcome(VerifierFor(c, trusted.header.chainID, trusted), b.commit, c.trustLevel)
  }

  /** The check of the block's own commit; after the basic checks, computing the
      total of a set that exceeds the maximum panics. */
  function OwnVerdict(c: Client, trusted: LightBlock, b: LightBlock): Verdict {
    var own := OwnCommit(c, trusted, b);
    if own == Outcome.Panics then Verdict.Panics else if own != Accepted then InvalidHeader else Ok
  }

  /** `VerifyNonAdjacent` */
  function VerifyNonAdjacent(c: Client, trusted: LightBlock, b: LightBlock): Verdict {
    if !RequiredFields(trusted.header) then Verdict.Panics
    else if b.header.height == trusted.header.height + 1 || !TrustLevelOk(c.trustLevel) then Misused
    else if HeaderExpired(c, b.header) then Expired
    else if !NewHeaderOk(c, trusted, b) then InvalidHeader
    else
      var share := TrustedShare(c, trusted, b);
      if share == Outcome.Panics then Verdict.Panics
      else if share.NotEnoughPower? then CantBeTrusted
      else if share != Accepted then InvalidHeader
      else OwnVerdict(c, trusted, b)
  }

  /** `VerifyAdjacent` */
  function VerifyAdjacent(c: Client, trusted: LightBlock, b: LightBlock): Verdict {
    if !RequiredFields(trusted.header) || trusted.header.nextValidatorsHash == [] then Verdict.Panics
    else if b.header.height != trusted.header.height + 1 then Misused
    else if HeaderExpired(c, b.header) then Expired
    else if !NewHeaderOk(c, trusted, b) then InvalidHeader
    else if b.header.validatorsHash != trusted.header.nextValidatorsHash then InvalidHeader
    else OwnVerdict(c, trusted, b)
  }

  /** `Verify` */
  function Verify(c: Client, trusted: LightBlock, b: LightBlock): Verdict {
    if b.header.height != trusted.header.height + 1 then VerifyNonAdjacent(c, trusted, b) else VerifyAdjacent(c, trusted, b)
  }

  // ---- What verdicts mean ----

  /** A verified block is later in height and time on the same chain, and one
      that cannot be trusted yet is at least two heights ahead. */
  lemma VerdictOrders(c: Client, trusted: LightBlock, b: LightBlock)
    ensures Verify(c, trusted, b) == Ok ==> b.header.height > trusted.header.height && b.header.time > trusted.header.time
                                            && b.header.chainID == trusted.header.chainID
    ensures Verify(c, trusted, b) == Ok ==> !HeaderExpired(c, b.header)
    ensures Verify(c, trusted, b) == CantBeTrusted ==> b.header.height >= trusted.header.height + 2
  {}

  // ---- Exactly when a verdict is given ----

  /** The trusted header has what verification needs of it. */
  ghost predicate Usable(trusted: LightBlock) {
    trusted.header.height != 0 && trusted.header.time != ZeroTime && trusted.header.chainID != ""
  }

  /** The header is well formed, belongs to its commit and to its set, and follows
      the trusted one in height and time without being ahead of the clock. */
  ghost predicate Follows(c: Client, trusted: LightBlock, b: LightBlock) {
    && c.basic(b.header, b.commit) && b.header.chainID == trusted.header.chainID
    && b.commit.height == b.header.height && b.commit.blockID.hash == c.headerHash(b.header)
    && b.header.validatorsHash == c.valsHash(b.vals)
    && trusted.header.height < b.header.height
    && trusted.header.time < b.header.time < c.now + c.maxClockDrift
  }

  /** The header is within the trusting period. */
  ghost predicate Young(c: Client, b: LightBlock) { c.now < b.header.time + c.trustingPeriod }

  ghost predicate SelfBacked(c: Client, trusted: LightBlock, b: LightBlock) {
    && |b.vals| == |b.commit.signatures| && Total(b.vals) <= MaxTotalVotingPower
    && exists n: nat :: LightlyBacked(VerifierFor(c, trusted.header.chainID, b), b.commit, n)
  }

  /** The block has as many signatures as validators, of too much power to add. */
  ghost predicate TooPowerful(b: LightBlock) {
    |b.vals| == |b.commit.signatures| && Total(b.vals) > MaxTotalVotingPower
  }

  lemma OwnVerdictIff(c: Client, trusted: LightBlock, b: LightBlock)
    requires SoundClient(c) && NonNegative(b.vals) && b.commit.height == b.header.height
    ensures var r := OwnVerdict(c, trusted, b);
      (r == Ok <==> SelfBacked(c, trusted, b)) && (r == Verdict.Panics <==> TooPowerful(b)) && r in {Ok, Verdict.Panics, InvalidHeader}
  {
    var v := VerifierFor(c, trusted.header.chainID, b);
    assert SoundVerifier(v);
    LightAcceptedIff(v, b.commit.blockID, b.header.height, b.commit);
    ByIndexRefusals(v, b.commit.blockID, b.header.height, b.commit, Light);
  }

  /** The verdict on the next block, for every trusted block: which header, hash,
      time and signatures give which. In all other cases the header is invalid. */
  lemma AdjacentVerdicts(c: Client, trusted: LightBlock, b: LightBlock)
    requires SoundClient(c) && NonNegative(b.vals) && b.header.height == trusted.header.height + 1
    ensures var r := Verify(c, trusted, b);
      var usable := Usable(trusted) && trusted.header.nextValidatorsHash != [];
      var follows := usable && Young(c, b) && Follows(c, trusted, b) && b.header.validatorsHash == trusted.header.nextValidatorsHash;
      && (r == Ok <==> follows && SelfBacked(c, trusted, b))
      && (r == Verdict.Panics <==> !usable || (follows && TooPowerful(b)))
      && (r == Expired <==> usable && !Young(c, b))
      && r != CantBeTrusted && r != Misused
  {
    if NewHeaderOk(c, trusted, b) { OwnVerdictIff(c, trusted, b); }
  }

  /** The trusted set, as it checks commits of its own chain. */
  function TrustedVerifier(c: Client, trusted: LightBlock): Verifier { VerifierFor(c, trusted.header.chainID, trusted) }

  /** Enough of the trusted set stands behind the block. */
  ghost predicate Trusted(c: Client, trusted: LightBlock, b: LightBlock) {
    var v := TrustedVerifier(c, trusted);
    Sharable(v, b.commit, c.trustLevel) && Acceptable(TrustedCase(v, b.commit, c.trustLevel), BatchKind(b.commit, v.proposer))
  }

  /** Nothing is wrong with what the trusted set signed, but it is not enough. */
  ghost predicate TooFewTrusted(c: Client, trusted: LightBlock, b: LightBlock) {
    var v := TrustedVerifier(c, trusted);
    Sharable(v, b.commit, c.trustLevel) && Short(TrustedCase(v, b.commit, c.trustLevel), BatchKind(b.commit, v.proposer), v.shaped)
  }

  /** The trusted set has too much power to add, or no proposer for a batch. */
  ghost predicate Unusable(trusted: LightBlock, b: LightBlock) {
    Total(trusted.vals) > MaxTotalVotingPower || (|trusted.vals| == 0 && |b.commit.signatures| >= 2)
  }

  lemma TrustedShareIff(c: Client, trusted: LightBlock, b: LightBlock)
    requires SoundClient(c) && NonNegative(trusted.vals) && c.trustLevel.denominator != 0
    ensures var r := TrustedShare(c, trusted, b);
      && (r == Accepted <==> Trusted(c, trusted, b))
      && (r.NotEnoughPower? <==> TooFewTrusted(c, trusted, b))
      && (r == Outcome.Panics <==> Unusable(trusted, b))
  {
    var v := TrustedVerifier(c, trusted);
    assert SoundVerifier(v);
    SharedIff(v, b.commit, c.trustLevel);
    TrustingAcceptedIff(v, b.commit, c.trustLevel);
    TrustingShortIff(v, b.commit, c.trustLevel);
    TrustingOutcomeRefusals(v, b.commit, c.trustLevel);
  }

  /** The verdict across a gap, for every trusted block: which header, hashes,
      times, trust level and signatures give which. In all other cases the header
      is invalid. */
  lemma GapVerdicts(c: Client, trusted: LightBlock, b: LightBlock)
    requires SoundClient(c) && NonNegative(trusted.vals) && NonNegative(b.vals) && b.header.height != trusted.header.height + 1
    ensures var r := Verify(c, trusted, b);
      var usable := Usable(trusted) && TrustLevelOk(c.trustLevel);
      var follows := usable && Young(c, b) && Follows(c, trusted, b);
      && (r == Ok <==> follows && Trusted(c, trusted, b) && SelfBacked(c, trusted, b))
      && (r == CantBeTrusted <==> follows && TooFewTrusted(c, trusted, b))
      && (r == Verdict.Panics <==>
            !Usable(trusted) || (follows && (Unusable(trusted, b) || (Trusted(c, trusted, b) && TooPowerful(b)))))
      && (r == Misused <==> Usable(trusted) && !TrustLevelOk(c.trustLevel))
      && (r == Expired <==> usable && !Young(c, b))
  {
    if TrustLevelOk(c.trustLevel) { TrustedShareIff(c, trusted, b); }
    if NewHeaderOk(c, trusted, b) { OwnVerdictIff(c, trusted, b); }
  }

  /** At a level that the casts leave alone, such as any in small numbers, it is
      the level's share of the trusted power that decides. */
  lemma GapShares(c: Client, trusted: LightBlock, b: LightBlock)
    requires NonNegative(trusted.vals) && c.trustLevel.Uncast()
    ensures var v := TrustedVerifier(c, trusted);
      && (Trusted(c, trusted, b) <==> Sharable(v, b.commit, c.trustLevel) && exists n: nat :: Vouched(v, b.commit, c.trustLevel, n))
      && (TooFewTrusted(c, trusted, b) <==> Sharable(v, b.commit, c.trustLevel) && Unvouched(v, b.commit, c.trustLevel))
  {
    var v := TrustedVerifier(c, trusted);
    if Sharable(v, b.commit, c.trustLevel) {
      VouchedIff(v, b.commit, c.trustLevel);
      UnvouchedIff(v, b.commit, c.trustLevel);
    }
  }

  /** A client of a chain where every signature is valid. */
  function StaleClient(): Client {
    var chain := Chain((_, _, _, _, _) => [], (_, _, _) => true, _ => []);
    Client(_ => chain, (_, _) => true, _ => [7], _ => seq(HashSize, _ => 9), (_, _) => true, 5, 12, 1, Fraction(1, 3))
  }

  /** The block of a height, signed for by its only validator. */
  function StaleBlock(height: int, time: int): LightBlock {
    var key, id := PubKey(Ed25519, Zeros(32)), BlockID(seq(HashSize, _ => 9), 1, seq(HashSize, _ => 8));
    var header := Header("chain", height, time, [7], [7], [], [], []);
    LightBlock(header, Commit(height, 0, id, [CommitSig(ForBlock, Zeros(20), time, [1])]), [Validator(Zeros(20), key, 1, 0)], key)
  }

  /** Only the age of the new header is looked at: a block verifies against a
      trusted header that has expired. */
  lemma ExpiredTrustIsAccepted()
    ensures var c, trusted, b := StaleClient(), StaleBlock(1, 1), StaleBlock(2, 10);
      HeaderExpired(c, trusted.header) && Verify(c, trusted, b) == Ok
  {
    OwnBlockVerifies(StaleClient(), StaleBlock(1, 1), StaleBlock(2, 10));
  }

  lemma OwnBlockVerifies(c: Client, trusted: LightBlock, b: LightBlock)
    requires c == StaleClient() && trusted.header.chainID == "chain" && exists height, time :: b == StaleBlock(height, time)
    ensures OwnCommit(c, trusted, b) == Accepted
  {
    var v := VerifierFor(c, "chain", b);
    var k := OwnCase(v, b.commit, Light);
    assert v.vals[..0] == [];
    assert PowerSum(v.vals) == Some(1) && k.needed == 0;
    assert Signer(k, 0) == Some(0);
    assert Single(k, 0, map[], 0) == Accepted;
  }

  /** A block two heights ahead that the trusted set has signed verifies; one of a
      stranger cannot be trusted yet. */
  lemma StrangerCantBeTrusted()
    ensures var c, trusted, b := StaleClient(), StaleBlock(1, 1), StaleBlock(3, 10);
      && Verify(c, trusted, b) == Ok
      && Verify(c, trusted, StrangersBlock(b)) == CantBeTrusted
  {
    var c, trusted, b := StaleClient(), StaleBlock(1, 1), StaleBlock(3, 10);
    var v := VerifierFor(c, "chain", b);
    assert v.vals[..0] == [];
    assert PowerSum(v.vals) == Some(1);
    SafeMulIsExact(1, 1);
    OwnBlockVerifies(c, trusted, b);
    var known, unknown := TrustedCase(v, b.commit, c.trustLevel), TrustedCase(v, StrangersBlock(b).commit, c.trustLevel);
    assert known.needed == 0 && unknown.needed == 0;
    assert Signer(known, 0) == Some(0);
    assert Single(known, 0, map[], 0) == Accepted;
    assert Zeros(20)[0] != Stranger()[0];
    assert Signer(unknown, 0) == None;
    assert Single(unknown, 0, map[], 0) == NotEnoughPower(0, 0);
  }

  function Stranger(): Address { [1] + Zeros(19) }

  /** The same block, of a set whose only validator has another address. */
  function StrangersBlock(b: LightBlock): LightBlock
    requires |b.vals| == |b.commit.signatures| == 1
  {
    b.(vals := [b.vals[0].(address := Stranger())],
       commit := b.commit.(signatures := [b.commit.signatures[0].(address := Stranger())]))
  }

  /** The documented range, without 1. */
  predicate InRange(f: Fraction) { f.denominator <= 3 * f.numerator && f.numerator < f.denominator }

  /** Exactly which levels are valid: those of the range whose tripled numerator
      fits, and those that still exceed the denominator after wrapping once. */
  lemma TrustLevelIff(f: Fraction)
    ensures 3 * f.numerator < TwoTo64 ==> (TrustLevelOk(f) <==> InRange(f))
    ensures 3 * f.numerator >= TwoTo64 ==>
      (TrustLevelOk(f) <==> InRange(f) && TwoTo64 + f.denominator <= 3 * f.numerator < 2 * TwoTo64)
  {
    var m := f.numerator * 3;
    assert m % TwoTo64 == if m < TwoTo64 then m else if m < 2 * TwoTo64 then m - TwoTo64 else m - 2 * TwoTo64;
  }

  /** Six sevenths is refused in large numbers, ten elevenths is not. */
  lemma WrappedLevels()
    ensures var f := Fraction(0x6000_0000_0000_0000, 0x7000_0000_0000_0000); InRange(f) && f.Uncast() && !TrustLevelOk(f)
    ensures var f := Fraction(0xA000_0000_0000_0000, 0xB000_0000_0000_0000); InRange(f) && TrustLevelOk(f)
    ensures TrustLevelOk(Fraction(6, 7)) && !TrustLevelOk(Fraction(1, 1))
  {
    TrustLevelIff(Fraction(0x6000_0000_0000_0000, 0x7000_0000_0000_0000));
    TrustLevelIff(Fraction(0xA000_0000_0000_0000, 0xB000_0000_0000_0000));
  }

  /** Whoever exceeds the power needed at a valid level exceeds a third of the
      total, unless the casts made that power negative. */
  lemma ShareOfThird(total: int, f: Fraction, s: int)
    requires 0 <= total <= MaxInt64 && TrustLevelOk(f) && Share(total, f).Some? && s > Share(total, f).value >= 0
    ensures 3 * s > total
  {
    TrustLevelIff(f);
    if f.Uncast() {
      ShareIsExact(total, f);
      AboveQuotient(s, total * f.numerator, f.denominator);
      ThirdOf(s, total, f.numerator, f.denominator);
    } else if total >= 3 {
      LargeLevelOverflows(total, f);
    }
  }

  lemma ThirdOf(s: int, t: int, n: nat, d: nat)
    requires s * d > t * n && 0 <= t && 3 * n >= d > 0
    ensures 3 * s > t
  {
    MulMonotone(t, d, 3 * n);
    assert 3 * s * d > 3 * (t * n) == t * (3 * n) >= t * d;
    CancelLess(d, t, 3 * s);
  }

  /** A level with a part beyond `int64` overflows against three or more. */
  lemma LargeLevelOverflows(total: int, f: Fraction)
    requires 3 <= total <= MaxInt64 && TrustLevelOk(f) && !f.Uncast()
    ensures Share(total, f).None?
  {
    var n := Cast(f.numerator);
    LargeLevel(f);
    LargeProduct(total, n);
    SafeMulIsExact(total, n);
  }

  lemma LargeProduct(total: int, n: int)
    requires 3 <= total && (3 * n > MaxInt64 || 3 * n < -MaxInt64)
    ensures total * n > MaxInt64 || total * n < -MaxInt64
  {
    if n >= 0 { MulMonotone(n, 3, total); } else { MulMonotone(-n, 3, total); }
  }

  lemma LargeLevel(f: Fraction)
    requires TrustLevelOk(f) && !f.Uncast()
    ensures var n := Cast(f.numerator); 3 * n > MaxInt64 || 3 * n < -MaxInt64
  {
    TrustLevelIff(f);
  }

  /** Exactly when the power needed is negative: only the denominator is beyond
      `int64`, and the total is one or two. */
  lemma NegativeShareIff(total: int, f: Fraction)
    requires 0 <= total <= MaxInt64 && TrustLevelOk(f) && Share(total, f).Some?
    ensures Share(total, f).value < 0 <==> f.numerator <= MaxInt64 < f.denominator && TwoTo64 - f.denominator <= total * f.numerator
    ensures Share(total, f).value < 0 ==> 1 <= total <= 2
  {
    TrustLevelIff(f);
    if f.Uncast() {
      ShareIsExact(total, f);
      Quotient(total * f.numerator, f.denominator, total * f.numerator / f.denominator);
    } else if total >= 3 {
      LargeLevelOverflows(total, f);
    } else {
      SafeMulIsExact(total, Cast(f.numerator));
      var p, d := total * Cast(f.numerator), TwoTo64 - f.denominator;
      assert Cast(f.denominator) == -d;
      if p >= 0 { Quotient(p, d, p / d); PositiveQuotient(p, d); }
      else { Quotient(-p, d, -p / d); }
    }
  }

  lemma PositiveQuotient(p: int, d: int)
    requires 0 <= p && 0 < d
    ensures p / d > 0 <==> d <= p
  {
    Quotient(p, d, p / d);
  }

  /** Then every commit that counts nobody of the set is accepted: with five
      fifteenths in large numbers and a total of one, for instance. */
  lemma NegativeShareAcceptsStrangers(v: Verifier, commit: Commit, f: Fraction)
    requires NonNegative(v.vals) && 0 <= Total(v.vals) <= MaxTotalVotingPower
    requires f.denominator != 0 && Share(Total(v.vals), f).Some? && Share(Total(v.vals), f).value < 0
    requires forall i :: 0 <= i < |commit.signatures| ==> Signer(TrustedCase(v, commit, f), i).None?
    ensures TrustingOutcome(v, commit, f) == Accepted
  {
    PowerSumIsTotal(v.vals);
    assert Share(0, f) == Some(0);
    var k := TrustedCase(v, commit, f);
    NobodyCounts(k, BatchVerifier(v.proposer.kind, v.shaped), 0);
  }

  lemma {:induction false} NobodyCounts(k: Case, b: BatchVerifier, i: nat)
    requires Aligned(k) && i <= |k.commit.signatures| && k.needed < 0
    requires forall j :: 0 <= j < |k.commit.signatures| ==> Signer(k, j).None?
    ensures Single(k, i, map[], 0) == Accepted && Batch(k, b, i, map[], 0, None) == Accepted
    decreases |k.commit.signatures| - i
  {
    if i < |k.commit.signatures| { NobodyCounts(k, b, i + 1); }
  }

  lemma NegativeShareExample()
    ensures var f := Fraction(0x5000_0000_0000_0000, 0xF000_0000_0000_0000); TrustLevelOk(f) && Share(1, f) == Some(-5)
  {
    var f := Fraction(0x5000_0000_0000_0000, 0xF000_0000_0000_0000);
    TrustLevelIff(f);
    SafeMulIsExact(1, f.numerator);
  }

  ghost predicate SoundClient(c: Client) {
    forall chainID, key, msg, signature {:trigger c.chainOf(chainID).verify(key, msg, signature)} ::
      c.chainOf(chainID).verify(key, msg, signature) ==> c.shaped(key, signature)
  }

  /** A block verified across a gap was signed for by distinct validators with
      more than a third of the trusted power, whatever the trust level, as long
      as the power needed is not negative. */
  lemma VerifiedAcrossGap(c: Client, trusted: LightBlock, b: LightBlock) returns (signers: seq<bool>)
    requires SoundClient(c) && NonNegative(trusted.vals)
    requires Verify(c, trusted, b) == Ok && b.header.height != trusted.header.height + 1
    ensures c.trustLevel.denominator != 0
    ensures Signed(TrustedCase(VerifierFor(c, trusted.header.chainID, trusted), b.commit, c.trustLevel), signers)
    ensures 0 <= Total(trusted.vals) <= MaxTotalVotingPower && Share(Total(trusted.vals), c.trustLevel).Some?
    ensures Share(Total(trusted.vals), c.trustLevel).value >= 0 ==> 3 * MaskSum(signers, Powers(trusted.vals)) > Total(trusted.vals)
  {
    var v := VerifierFor(c, trusted.header.chainID, trusted);
    assert SoundVerifier(v);
    signers := TrustingMeansShare(v, b.commit, c.trustLevel);
    if Share(Total(trusted.vals), c.trustLevel).value >= 0 {
      ShareOfThird(Total(trusted.vals), c.trustLevel, MaskSum(signers, Powers(trusted.vals)));
    }
  }

  /** Every verified block was signed for by more than two thirds of its own
      set, which is the one its header names; the next block's set is moreover
      the one the trusted header announced. */
  lemma VerifiedBySelf(c: Client, trusted: LightBlock, b: LightBlock) returns (signers: seq<bool>)
    requires SoundClient(c) && Verify(c, trusted, b) == Ok
    ensures |b.vals| == |b.commit.signatures|
    ensures Signed(OwnCase(VerifierFor(c, trusted.header.chainID, b), b.commit, Light), signers)
    ensures 3 * MaskSum(signers, Powers(b.vals)) > 2 * Total(b.vals)
    ensures c.valsHash(b.vals) == b.header.validatorsHash && b.commit.blockID.hash == c.headerHash(b.header)
    ensures b.header.height == trusted.header.height + 1 ==> b.header.validatorsHash == trusted.header.nextValidatorsHash
  {
    var v := VerifierFor(c, trusted.header.chainID, b);
    assert SoundVerifier(v);
    signers := LightMeansTwoThirds(v, b.commit.blockID, b.header.height, b.commit);
  }
}
