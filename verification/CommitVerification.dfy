/** Verifying the signatures of a commit against a validator set, one by one or
    in a batch (`types/validation.go`). */
module CommitVerification {
  import opened Basics
  import opened Sums
  import opened Validators
  import opened Votes

  const BatchVerifyThreshold: nat := 2

  /** The three ways a commit is verified: what they skip, what they count,
      whether they stop early and how they find the signer. */
  datatype Rule = Full | Light | Trusting {
    predicate Ignores(s: CommitSig) { if Full? then s.flag == Absent else s.flag != ForBlock }
    predicate Counts(s: CommitSig) { Full? ==> s.flag == ForBlock }
  }

  datatype Case = Case(chain: Chain, vals: seq<Validator>, commit: Commit, needed: int, rule: Rule)

  /** Looking up by index presumes as many signatures as validators. */
  predicate Aligned(k: Case) {
    k.rule != Trusting ==> |k.commit.signatures| == |k.vals|
  }

  datatype Outcome =
    | Accepted
    | NotEnoughPower(got: int, needed: int)
    | DoubleVote(first: nat, second: nat)
    | WrongSignature(index: nat)
    | CannotBatch(index: nat)
    | WrongSize
    | WrongHeight
    | WrongBlock
    | ZeroDenominator
    | Overflow
    | Panics

  // ---- One signature ----

  /** The validator a signature is checked for; `None` if it is skipped. */
  function Signer(k: Case, i: nat): (r: Option<nat>)
    requires Aligned(k) && i < |k.commit.signatures|
    ensures r.Some? ==> r.value < |k.vals|
  {
    var s := k.commit.signatures[i];
    if k.rule.Ignores(s) then None
    else if k.rule != Trusting then Some(i)
    else IndexOf(k.vals, s.address, 0)
  }

  predicate ValidSig(k: Case, i: nat, v: nat)
    requires i < |k.commit.signatures| && v < |k.vals|
  {
    k.chain.verify(k.vals[v].pubKey, CommitSignBytes(k.chain, k.commit, i), k.commit.signatures[i].signature)
  }

  function Gain(k: Case, i: nat, v: nat): int
    requires i < |k.commit.signatures| && v < |k.vals|
  {
    if k.rule.Counts(k.commit.signatures[i]) then k.vals[v].power else 0
  }

  /** Only looking up by address can meet a validator twice. */
  predicate Twice(k: Case, seen: map<nat, nat>, v: nat) {
    k.rule == Trusting && v in seen
  }

  predicate Enough(k: Case, tally: int) {
    k.rule != Full && tally > k.needed
  }

  function AtEnd(k: Case, tally: int): Outcome {
    if tally <= k.needed then NotEnoughPower(tally, k.needed) else Accepted
  }

  // ---- One by one ----

  /** `verifyCommitSingle` from signature i on. */
  function Single(k: Case, i: nat, seen: map<nat, nat>, tally: int): Outcome
    requires Aligned(k) && i <= |k.commit.signatures|
    decreases |k.commit.signatures| - i
  {
    if i == |k.commit.signatures| then AtEnd(k, tally)
    else
      var s := Signer(k, i);
      if s.None? then Single(k, i + 1, seen, tally)
      else if Twice(k, seen, s.value) then DoubleVote(seen[s.value], i)
      else if !ValidSig(k, i, s.value) then WrongSignature(i)
      else
        var total := tally + Gain(k, i, s.value);
        if Enough(k, total) then Accepted else Single(k, i + 1, seen[s.value := i], total)
  }

  /** `verifyCommitSingle` */
  method VerifyCommitSingle(k: Case) returns (r: Outcome)
    requires Aligned(k)
    ensures r == Single(k, 0, map[], 0)
  {
    var seen: map<nat, nat>, tally := map[], 0;
    for i := 0 to |k.commit.signatures|
      invariant Single(k, 0, map[], 0) == Single(k, i, seen, tally)
    {
      var s := Signer(k, i);
      if s.None? { continue; }
      if Twice(k, seen, s.value) { return DoubleVote(seen[s.value], i); }
      if !ValidSig(k, i, s.value) { return WrongSignature(i); }
      seen, tally := seen[s.value := i], tally + Gain(k, i, s.value);
      if Enough(k, tally) { return Accepted; }
    }
    r := AtEnd(k, tally);
  }

  // ---- In a batch ----

  /** A batch verifier of one key type takes keys and signatures of its own
      shape and is right about all it was given. */
  datatype BatchVerifier = BatchVerifier(kind: KeyType, shaped: (PubKey, Bytes) -> bool) {
    predicate Takes(key: PubKey, signature: Bytes) { key.kind == kind && shaped(key, signature) }
  }

  /** A signature that verifies has the right shape. */
  ghost predicate Sound(chain: Chain, b: BatchVerifier) {
    forall key, msg, signature :: chain.verify(key, msg, signature) ==> b.shaped(key, signature)
  }

  /** The outcome once the scan stops; `bad` is the first invalid signature
      among those added. */
  function BatchEnd(k: Case, tally: int, bad: Option<nat>): Outcome {
    if tally <= k.needed then NotEnoughPower(tally, k.needed)
    else if bad.Some? then WrongSignature(bad.value) else Accepted
  }

  /** `verifyCommitBatch` from signature i on. */
  function Batch(k: Case, b: BatchVerifier, i: nat, seen: map<nat, nat>, tally: int, bad: Option<nat>): Outcome
    requires Aligned(k) && i <= |k.commit.signatures|
    decreases |k.commit.signatures| - i
  {
    if i == |k.commit.signatures| then BatchEnd(k, tally, bad)
    else
      var s := Signer(k, i);
      if s.None? then Batch(k, b, i + 1, seen, tally, bad)
      else if Twice(k, seen, s.value) then DoubleVote(seen[s.value], i)
      else if !b.Takes(k.vals[s.value].pubKey, k.commit.signatures[i].signature) then CannotBatch(i)
      else
        var total := tally + Gain(k, i, s.value);
        var invalid := if bad.None? && !ValidSig(k, i, s.value) then Some(i) else bad;
        if Enough(k, total) then BatchEnd(k, total, invalid)
        else Batch(k, b, i + 1, seen[s.value := i], total, invalid)
  }

  /** The entries handed to the verifier, by commit index and validator. */
  ghost predicate Entries(k: Case, idxs: seq<nat>, signers: seq<nat>, bad: Option<nat>)
    requires Aligned(k)
  {
    && |idxs| == |signers|
    && (forall j :: 0 <= j < |idxs| ==> idxs[j] < |k.commit.signatures| && signers[j] < |k.vals|)
    && (bad.None? ==> forall j :: 0 <= j < |idxs| ==> ValidSig(k, idxs[j], signers[j]))
    && (bad.Some? ==> exists j :: 0 <= j < |idxs| && idxs[j] == bad.value && !ValidSig(k, idxs[j], signers[j])
                                  && forall m :: 0 <= m < j ==> ValidSig(k, idxs[m], signers[m]))
  }

  /** `verifyCommitBatch` */
  method VerifyCommitBatch(k: Case, b: BatchVerifier) returns (r: Outcome)
    requires Aligned(k)
    ensures r == Batch(k, b, 0, map[], 0, None)
  {
    var seen: map<nat, nat>, tally := map[], 0;
    var idxs: seq<nat>, signers: seq<nat> := [], [];
    ghost var bad: Option<nat> := None;
    var i := 0;
    while i < |k.commit.signatures|
      invariant 0 <= i <= |k.commit.signatures|
      invariant Batch(k, b, 0, map[], 0, None) == Batch(k, b, i, seen, tally, bad)
      invariant Entries(k, idxs, signers, bad)
    {
      var s := Signer(k, i);
      if s.None? {
        i := i + 1;
        continue;
      }
      if Twice(k, seen, s.value) { return DoubleVote(seen[s.value], i); }
      if !b.Takes(k.vals[s.value].pubKey, k.commit.signatures[i].signature) { return CannotBatch(i); }
      AddEntry(k, idxs, signers, bad, i, s.value);
      ghost var was := bad;
      bad := if bad.None? && !ValidSig(k, i, s.value) then Some(i) else bad;
      idxs, signers := idxs + [i], signers + [s.value];
      tally := tally + Gain(k, i, s.value);
      if Enough(k, tally) {
        assert Batch(k, b, i, seen, tally - Gain(k, i, s.value), was) == BatchEnd(k, tally, bad);
        r := EndBatch(k, tally, idxs, signers, bad);
        return;
      }
      seen := seen[s.value := i];
      i := i + 1;
    }
    r := EndBatch(k, tally, idxs, signers, bad);
  }

  lemma AddEntry(k: Case, idxs: seq<nat>, signers: seq<nat>, bad: Option<nat>, i: nat, v: nat)
    requires Aligned(k) && Entries(k, idxs, signers, bad) && i < |k.commit.signatures| && v < |k.vals|
    ensures Entries(k, idxs + [i], signers + [v], if bad.None? && !ValidSig(k, i, v) then Some(i) else bad)
  {
    if bad.Some? {
      var j :| 0 <= j < |idxs| && idxs[j] == bad.value && !ValidSig(k, idxs[j], signers[j])
               && forall m :: 0 <= m < j ==> ValidSig(k, idxs[m], signers[m]);
      assert (idxs + [i])[j] == bad.value;
    } else if !ValidSig(k, i, v) {
      assert (idxs + [i])[|idxs|] == i;
    }
  }

  lemma FirstInvalid(k: Case, idxs: seq<nat>, signers: seq<nat>, bad: Option<nat>, j: nat)
    requires Aligned(k) && Entries(k, idxs, signers, bad) && j < |idxs| && !ValidSig(k, idxs[j], signers[j])
    requires forall m :: 0 <= m < j ==> ValidSig(k, idxs[m], signers[m])
    ensures bad == Some(idxs[j])
  {
    var first :| 0 <= first < |idxs| && idxs[first] == bad.value && !ValidSig(k, idxs[first], signers[first])
                 && forall m :: 0 <= m < first ==> ValidSig(k, idxs[m], signers[m]);
    assert first == j;
  }

  /** The power check, then the verifier, then the search for the first invalid
      signature; the search always finds one. */
  method EndBatch(k: Case, tally: int, idxs: seq<nat>, signers: seq<nat>, ghost bad: Option<nat>) returns (r: Outcome)
    requires Aligned(k) && Entries(k, idxs, signers, bad)
    ensures r == BatchEnd(k, tally, bad)
  {
    if tally <= k.needed { return NotEnoughPower(tally, k.needed); }
    var valid := seq(|idxs|, j requires 0 <= j < |idxs| => ValidSig(k, idxs[j], signers[j]));
    if false !in valid {
      assert forall j :: 0 <= j < |idxs| ==> valid[j] == ValidSig(k, idxs[j], signers[j]) && valid[j] in valid;
      return Accepted;
    }
    for j := 0 to |valid|
      invariant forall m :: 0 <= m < j ==> valid[m] && ValidSig(k, idxs[m], signers[m])
    {
      if !valid[j] {
        FirstInvalid(k, idxs, signers, bad, j);
        return WrongSignature(idxs[j]);
      }
    }
    assert false;
  }

  // ---- The batch agrees with the signatures taken one by one ----

  lemma {:induction false} InvalidIsRefused(k: Case, b: BatchVerifier, i: nat, seen: map<nat, nat>, tally: int, bad: Option<nat>)
    requires Aligned(k) && i <= |k.commit.signatures| && bad.Some?
    ensures Batch(k, b, i, seen, tally, bad) != Accepted
    decreases |k.commit.signatures| - i
  {
    if i < |k.commit.signatures| {
      var s := Signer(k, i);
      if s.None? {
        InvalidIsRefused(k, b, i + 1, seen, tally, bad);
      } else {
        InvalidIsRefused(k, b, i + 1, seen[s.value := i], tally + Gain(k, i, s.value), bad);
      }
    }
  }

  /** Every signer met before the scan stops has a key of the batch's type. */
  predicate KeysMatch(k: Case, kind: KeyType, i: nat, tally: int)
    requires Aligned(k) && i <= |k.commit.signatures|
    decreases |k.commit.signatures| - i
  {
    if i == |k.commit.signatures| then true
    else
      var s := Signer(k, i);
      if s.None? then KeysMatch(k, kind, i + 1, tally)
      else
        var total := tally + Gain(k, i, s.value);
        k.vals[s.value].pubKey.kind == kind && (Enough(k, total) || KeysMatch(k, kind, i + 1, total))
  }

  lemma {:induction false} BatchFromIff(k: Case, b: BatchVerifier, i: nat, seen: map<nat, nat>, tally: int)
    requires Aligned(k) && i <= |k.commit.signatures| && Sound(k.chain, b)
    ensures Batch(k, b, i, seen, tally, None) == Accepted <==>
      (Single(k, i, seen, tally) == Accepted && KeysMatch(k, b.kind, i, tally))
    decreases |k.commit.signatures| - i
  {
    if i < |k.commit.signatures| {
      var s := Signer(k, i);
      if s.None? {
        BatchFromIff(k, b, i + 1, seen, tally);
      } else {
        var total := tally + Gain(k, i, s.value);
        BatchFromIff(k, b, i + 1, seen[s.value := i], total);
        InvalidIsRefused(k, b, i + 1, seen[s.value := i], total, Some(i));
      }
    }
  }

  /** The batch accepts exactly what verifying one by one accepts, as long as
      the keys it meets are of one type. */
  lemma BatchIff(k: Case, b: BatchVerifier)
    requires Aligned(k) && Sound(k.chain, b)
    ensures Batch(k, b, 0, map[], 0, None) == Accepted <==>
      (Single(k, 0, map[], 0) == Accepted && KeysMatch(k, b.kind, 0, 0))
  {
    BatchFromIff(k, b, 0, map[], 0);
  }

  lemma {:induction false} OneKeyType(k: Case, kind: KeyType, i: nat, tally: int)
    requires Aligned(k) && i <= |k.commit.signatures|
    requires forall v :: 0 <= v < |k.vals| ==> k.vals[v].pubKey.kind == kind
    ensures KeysMatch(k, kind, i, tally)
    decreases |k.commit.signatures| - i
  {
    if i < |k.commit.signatures| {
      var s := Signer(k, i);
      OneKeyType(k, kind, i + 1, if s.None? then tally else tally + Gain(k, i, s.value));
    }
  }

  /** With keys of one type the two ways agree on every commit. */
  lemma BatchAgrees(k: Case, b: BatchVerifier)
    requires Aligned(k) && Sound(k.chain, b)
    requires forall v :: 0 <= v < |k.vals| ==> k.vals[v].pubKey.kind == b.kind
    ensures Batch(k, b, 0, map[], 0, None) == Accepted <==> Single(k, 0, map[], 0) == Accepted
  {
    OneKeyType(k, b.kind, 0, 0);
    BatchIff(k, b);
  }

  // ---- Dispatch ----

  /** `SupportsBatchVerifier` */
  predicate SupportsBatch(kind: KeyType) { kind == Ed25519 || kind == Sr25519 }

  /** The batch verifier is chosen by the proposer's key; `shaped` is what the
      verifiers require of a key and a signature. */
  function Verified(k: Case, proposer: PubKey, shaped: (PubKey, Bytes) -> bool): Outcome
    requires Aligned(k)
  {
    if |k.commit.signatures| >= BatchVerifyThreshold && SupportsBatch(proposer.kind)
    then Batch(k, BatchVerifier(proposer.kind, shaped), 0, map[], 0, None)
    else Single(k, 0, map[], 0)
  }

  method Dispatch(k: Case, proposer: PubKey, shaped: (PubKey, Bytes) -> bool) returns (r: Outcome)
    requires Aligned(k)
    ensures r == Verified(k, proposer, shaped)
  {
    if |k.commit.signatures| >= BatchVerifyThreshold && SupportsBatch(proposer.kind) {
      r := VerifyCommitBatch(k, BatchVerifier(proposer.kind, shaped));
    } else {
      r := VerifyCommitSingle(k);
    }
  }

  /** Whichever way is taken, acceptance means acceptance one by one; the
      converse needs matching keys only when the batch is used. */
  lemma VerifiedIff(k: Case, proposer: PubKey, shaped: (PubKey, Bytes) -> bool)
    requires Aligned(k) && Sound(k.chain, BatchVerifier(proposer.kind, shaped))
    ensures Verified(k, proposer, shaped) == Accepted <==>
      ( && Single(k, 0, map[], 0) == Accepted
        && (|k.commit.signatures| >= BatchVerifyThreshold && SupportsBatch(proposer.kind) ==> KeysMatch(k, proposer.kind, 0, 0)))
  {
    BatchIff(k, BatchVerifier(proposer.kind, shaped));
  }

  // ---- Full verification implies light verification ----

  function Lighter(k: Case): Case { k.(rule := Light) }

  /** The light scan has counted what the full scan has. */
  lemma {:induction false} FullImpliesLight(k: Case, i: nat, seen: map<nat, nat>, lightSeen: map<nat, nat>, tally: int)
    requires Aligned(k) && k.rule == Full && i <= |k.commit.signatures|
    requires Single(k, i, seen, tally) == Accepted
    ensures Single(Lighter(k), i, lightSeen, tally) == Accepted
    decreases |k.commit.signatures| - i
  {
    if i < |k.commit.signatures| {
      var s := k.commit.signatures[i];
      if s.flag == ForBlock {
        FullImpliesLight(k, i + 1, seen[i := i], lightSeen[i := i], tally + k.vals[i].power);
      } else if s.flag == ForNil {
        FullImpliesLight(k, i + 1, seen[i := i], lightSeen, tally);
      } else {
        FullImpliesLight(k, i + 1, seen, lightSeen, tally);
      }
    }
  }

  lemma {:induction false} LightKeysMatch(k: Case, kind: KeyType, i: nat, tally: int)
    requires Aligned(k) && k.rule == Full && i <= |k.commit.signatures|
    requires KeysMatch(k, kind, i, tally)
    ensures KeysMatch(Lighter(k), kind, i, tally)
    decreases |k.commit.signatures| - i
  {
    if i < |k.commit.signatures| {
      var s := k.commit.signatures[i];
      LightKeysMatch(k, kind, i + 1, if s.flag == ForBlock then tally + k.vals[i].power else tally);
    }
  }

  // ---- What acceptance means ----

  /** The validators of the mask signed the commit's block, each in a signature
      of its own. */
  ghost predicate Signed(k: Case, mask: seq<bool>)
    requires Aligned(k)
  {
    && |mask| == |k.vals|
    && forall v :: 0 <= v < |mask| && mask[v] ==> SignedBy(k, v)
  }

  ghost predicate SignedBy(k: Case, v: nat)
    requires Aligned(k) && v < |k.vals|
  {
    exists i :: 0 <= i < |k.commit.signatures| && SignsFor(k, i, v)
  }

  predicate SignsFor(k: Case, i: nat, v: nat)
    requires Aligned(k) && i < |k.commit.signatures| && v < |k.vals|
  {
    && k.commit.signatures[i].flag == ForBlock
    && (if k.rule == Trusting then k.vals[v].address == k.commit.signatures[i].address else v == i)
    && ValidSig(k, i, v)
  }

  /** The validators counted so far cannot be met again without notice. */
  ghost predicate Counted(k: Case, i: nat, seen: map<nat, nat>, mask: seq<bool>, tally: int)
    requires Aligned(k)
  {
    && Signed(k, mask) && tally == MaskSum(mask, Powers(k.vals))
    && forall v :: 0 <= v < |mask| && mask[v] ==> if k.rule == Trusting then v in seen else v < i
  }

  lemma CountOne(k: Case, i: nat, seen: map<nat, nat>, mask: seq<bool>, tally: int, v: nat)
    requires Aligned(k) && i < |k.commit.signatures| && Signer(k, i) == Some(v)
    requires Counted(k, i, seen, mask, tally) && !Twice(k, seen, v) && ValidSig(k, i, v)
    ensures Counted(k, i + 1, seen[v := i], if k.rule.Counts(k.commit.signatures[i]) then mask[v := true] else mask,
                    tally + Gain(k, i, v))
  {
    if k.rule.Counts(k.commit.signatures[i]) {
      assert SignsFor(k, i, v);
      MaskSumSet(mask, Powers(k.vals), v);
      forall w | 0 <= w < |mask| && mask[v := true][w] ensures SignedBy(k, w) {
        if w != v { assert mask[w]; }
      }
    }
  }

  lemma {:induction false} AcceptedFrom(k: Case, i: nat, seen: map<nat, nat>, mask: seq<bool>, tally: int) returns (signers: seq<bool>)
    requires Aligned(k) && i <= |k.commit.signatures| && Counted(k, i, seen, mask, tally)
    requires Single(k, i, seen, tally) == Accepted
    ensures Signed(k, signers) && MaskSum(signers, Powers(k.vals)) > k.needed
    decreases |k.commit.signatures| - i
  {
    if i == |k.commit.signatures| {
      signers := mask;
    } else {
      var s := Signer(k, i);
      if s.None? {
        signers := AcceptedFrom(k, i + 1, seen, mask, tally);
      } else {
        CountOne(k, i, seen, mask, tally, s.value);
        var more := if k.rule.Counts(k.commit.signatures[i]) then mask[s.value := true] else mask;
        var total := tally + Gain(k, i, s.value);
        if Enough(k, total) {
          signers := more;
        } else {
          signers := AcceptedFrom(k, i + 1, seen[s.value := i], more, total);
        }
      }
    }
  }

  /** An accepted commit was signed by distinct validators that together hold
      more than the power needed. */
  lemma AcceptedIsSigned(k: Case) returns (signers: seq<bool>)
    requires Aligned(k) && Single(k, 0, map[], 0) == Accepted
    ensures Signed(k, signers) && MaskSum(signers, Powers(k.vals)) > k.needed
  {
    var none := seq(|k.vals|, _ => false);
    SumAtLeast(Masked(none, Powers(k.vals)), 0);
    SumAtMost(Masked(none, Powers(k.vals)), 0);
    signers := AcceptedFrom(k, 0, map[], none, 0);
  }

  // ---- Exactly what is accepted ----

  /** The key type a batch insists on; `None` if signatures are taken one by
      one. */
  function BatchKind(commit: Commit, proposer: PubKey): Option<KeyType> {
    if |commit.signatures| >= BatchVerifyThreshold && SupportsBatch(proposer.kind) then Some(proposer.kind) else None
  }

  /** Signature j is skipped, or valid and of the key type asked for. */
  predicate Good(k: Case, kind: Option<KeyType>, j: nat)
    requires Aligned(k) && j < |k.commit.signatures|
  {
    var s := Signer(k, j);
    s.Some? ==> ValidSig(k, j, s.value) && (kind.Some? ==> k.vals[s.value].pubKey.kind == kind.value)
  }

  predicate Different(k: Case, i: nat, j: nat)
    requires Aligned(k) && i < |k.commit.signatures| && j < |k.commit.signatures|
  {
    Signer(k, i).None? || Signer(k, i) != Signer(k, j)
  }

  /** The first n signatures are good, and nobody among them signed twice. */
  predicate Clean(k: Case, kind: Option<KeyType>, n: nat)
    requires Aligned(k) && n <= |k.commit.signatures|
  {
    && (forall j :: 0 <= j < n ==> Good(k, kind, j))
    && (k.rule == Trusting ==> forall i, j :: 0 <= i < j < n ==> Different(k, i, j))
  }

  function GainAt(k: Case, j: nat): int
    requires Aligned(k) && j < |k.commit.signatures|
  {
    var s := Signer(k, j);
    if s.None? then 0 else Gain(k, j, s.value)
  }

  /** The power that the first n signatures add up to. */
  function Tally(k: Case, n: nat): int
    requires Aligned(k) && n <= |k.commit.signatures|
  {
    if n == 0 then 0 else Tally(k, n - 1) + GainAt(k, n - 1)
  }

  /** The scan may end after n signatures: at the end, and unless all have to be
      checked, after a signature that was not skipped. */
  predicate Stops(k: Case, n: nat)
    requires Aligned(k) && n <= |k.commit.signatures|
  {
    n == |k.commit.signatures| || (k.rule != Full && n > 0 && Signer(k, n - 1).Some?)
  }

  /** The first n signatures are reason enough to accept. */
  predicate Suffices(k: Case, kind: Option<KeyType>, n: nat)
    requires Aligned(k)
  {
    n <= |k.commit.signatures| && Stops(k, n) && Clean(k, kind, n) && Tally(k, n) > k.needed
  }

  ghost predicate SufficesFrom(k: Case, kind: Option<KeyType>, i: nat)
    requires Aligned(k)
  {
    exists n: nat :: (i < n || n == |k.commit.signatures|) && Suffices(k, kind, n)
  }

  /** Some prefix of the signatures is clean and exceeds the power needed. */
  ghost predicate Acceptable(k: Case, kind: Option<KeyType>)
    requires Aligned(k)
  {
    exists n: nat :: Suffices(k, kind, n)
  }

  ghost predicate MetBefore(k: Case, i: nat, v: nat)
    requires Aligned(k) && i <= |k.commit.signatures|
  {
    exists j :: 0 <= j < i && Signer(k, j) == Some(v)
  }

  ghost predicate Scanned(k: Case, i: nat, seen: map<nat, nat>)
    requires Aligned(k) && i <= |k.commit.signatures|
  {
    forall v: nat :: v in seen <==> MetBefore(k, i, v)
  }

  lemma ScanOne(k: Case, i: nat, seen: map<nat, nat>)
    requires Aligned(k) && i < |k.commit.signatures| && Scanned(k, i, seen)
    ensures Scanned(k, i + 1, if Signer(k, i).None? then seen else seen[Signer(k, i).value := i])
  {
    var s := Signer(k, i);
    forall v: nat ensures MetBefore(k, i + 1, v) <==> MetBefore(k, i, v) || s == Some(v) {
      if MetBefore(k, i, v) { var j :| 0 <= j < i && Signer(k, j) == Some(v); }
    }
  }

  lemma CleanStep(k: Case, kind: Option<KeyType>, i: nat, seen: map<nat, nat>)
    requires Aligned(k) && i < |k.commit.signatures| && Scanned(k, i, seen) && Clean(k, kind, i)
    ensures Clean(k, kind, i + 1) <==>
      Good(k, kind, i) && (Signer(k, i).Some? ==> !Twice(k, seen, Signer(k, i).value))
  {
    var s := Signer(k, i);
    if s.Some? && k.rule == Trusting {
      assert s.value in seen <==> MetBefore(k, i, s.value);
      if MetBefore(k, i, s.value) {
        var j :| 0 <= j < i && Signer(k, j) == s;
        assert !Different(k, j, i);
      }
    }
  }

  lemma CleanShorter(k: Case, kind: Option<KeyType>, m: nat, n: nat)
    requires Aligned(k) && m <= n <= |k.commit.signatures| && Clean(k, kind, n)
    ensures Clean(k, kind, m)
  {}

  /** One by one, with the key types a batch would insist on. */
  ghost predicate Passes(k: Case, kind: Option<KeyType>, i: nat, seen: map<nat, nat>, tally: int)
    requires Aligned(k) && i <= |k.commit.signatures|
  {
    Single(k, i, seen, tally) == Accepted && (kind.Some? ==> KeysMatch(k, kind.value, i, tally))
  }

  lemma {:induction false} ScanIff(k: Case, kind: Option<KeyType>, i: nat, seen: map<nat, nat>)
    requires Aligned(k) && i <= |k.commit.signatures| && Scanned(k, i, seen) && Clean(k, kind, i)
    ensures Passes(k, kind, i, seen, Tally(k, i)) <==> SufficesFrom(k, kind, i)
    decreases |k.commit.signatures| - i
  {
    if i == |k.commit.signatures| {
      assert Suffices(k, kind, i) <==> Tally(k, i) > k.needed;
    } else {
      var s := Signer(k, i);
      CleanStep(k, kind, i, seen);
      ScanOne(k, i, seen);
      if !Clean(k, kind, i + 1) {
        forall n: nat | i < n ensures !Suffices(k, kind, n) {
          if Suffices(k, kind, n) { CleanShorter(k, kind, i + 1, n); }
        }
      } else if s.Some? && Enough(k, Tally(k, i + 1)) {
        assert Suffices(k, kind, i + 1);
      } else {
        ScanIff(k, kind, i + 1, if s.None? then seen else seen[s.value := i]);
        SameFrom(k, kind, i);
      }
    }
  }

  lemma SameFrom(k: Case, kind: Option<KeyType>, i: nat)
    requires Aligned(k) && i < |k.commit.signatures|
    requires Signer(k, i).None? || !Enough(k, Tally(k, i + 1))
    ensures SufficesFrom(k, kind, i) <==> SufficesFrom(k, kind, i + 1)
  {
    if i + 1 < |k.commit.signatures| { assert !Suffices(k, kind, i + 1); }
  }

  /** Whichever way is taken and whatever the rule, a commit is accepted exactly
      when some prefix of its signatures is clean and exceeds the power needed. */
  lemma AcceptedIff(k: Case, proposer: PubKey, shaped: (PubKey, Bytes) -> bool)
    requires Aligned(k) && Sound(k.chain, BatchVerifier(proposer.kind, shaped))
    ensures Verified(k, proposer, shaped) == Accepted <==> Acceptable(k, BatchKind(k.commit, proposer))
  {
    var kind := BatchKind(k.commit, proposer);
    VerifiedIff(k, proposer, shaped);
    ScanIff(k, kind, 0, map[]);
    if Acceptable(k, kind) {
      var n: nat :| Suffices(k, kind, n);
      assert 0 < n || n == |k.commit.signatures|;
    }
  }

  /** A clean prefix that exceeds the power needed; where it ends does not
      matter unless everything is to be checked or no power at all is needed. */
  predicate Backed(k: Case, kind: Option<KeyType>, n: nat)
    requires Aligned(k)
  {
    n <= |k.commit.signatures| && Clean(k, kind, n) && Tally(k, n) > k.needed
  }

  lemma {:induction false} BackedStops(k: Case, kind: Option<KeyType>, n: nat)
    requires Aligned(k) && k.rule != Full && k.needed >= 0 && Backed(k, kind, n)
    ensures Acceptable(k, kind)
  {
    if Stops(k, n) {
      assert Suffices(k, kind, n);
    } else {
      BackedStops(k, kind, n - 1);
    }
  }

  lemma AcceptableIff(k: Case, kind: Option<KeyType>)
    requires Aligned(k) && k.rule != Full && k.needed >= 0
    ensures Acceptable(k, kind) <==> exists n: nat :: Backed(k, kind, n)
  {
    if Acceptable(k, kind) {
      var n: nat :| Suffices(k, kind, n);
      assert Backed(k, kind, n);
    }
    if n: nat :| Backed(k, kind, n) { BackedStops(k, kind, n); }
  }

  // ---- Exactly when the power does not suffice ----

  /** Signature j is skipped, or passes: one by one if it is valid; a batch looks
      at key type and shape only, as it verifies nothing before the power
      suffices. */
  predicate Passable(k: Case, kind: Option<KeyType>, shaped: (PubKey, Bytes) -> bool, j: nat)
    requires Aligned(k) && j < |k.commit.signatures|
  {
    var s := Signer(k, j);
    s.Some? ==>
      if kind.None? then ValidSig(k, j, s.value)
      else k.vals[s.value].pubKey.kind == kind.value && shaped(k.vals[s.value].pubKey, k.commit.signatures[j].signature)
  }

  /** The first n signatures pass, and nobody among them signed twice. */
  predicate Passed(k: Case, kind: Option<KeyType>, shaped: (PubKey, Bytes) -> bool, n: nat)
    requires Aligned(k) && n <= |k.commit.signatures|
  {
    && (forall j :: 0 <= j < n ==> Passable(k, kind, shaped, j))
    && (k.rule == Trusting ==> forall i, j :: 0 <= i < j < n ==> Different(k, i, j))
  }

  /** All signatures pass, and they do not exceed the power needed. */
  predicate Short(k: Case, kind: Option<KeyType>, shaped: (PubKey, Bytes) -> bool)
    requires Aligned(k)
  {
    Passed(k, kind, shaped, |k.commit.signatures|) && Tally(k, |k.commit.signatures|) <= k.needed
  }

  ghost predicate NoNegativePower(k: Case) {
    forall v :: 0 <= v < |k.vals| ==> 0 <= k.vals[v].power
  }

  lemma {:induction false} TallyGrows(k: Case, m: nat, n: nat)
    requires Aligned(k) && NoNegativePower(k) && m <= n <= |k.commit.signatures|
    ensures Tally(k, m) <= Tally(k, n)
  {
    if m < n { TallyGrows(k, m, n - 1); }
  }

  lemma PassedStep(k: Case, kind: Option<KeyType>, shaped: (PubKey, Bytes) -> bool, i: nat, seen: map<nat, nat>)
    requires Aligned(k) && i < |k.commit.signatures| && Scanned(k, i, seen) && Passed(k, kind, shaped, i)
    ensures Passed(k, kind, shaped, i + 1) <==>
      Passable(k, kind, shaped, i) && (Signer(k, i).Some? ==> !Twice(k, seen, Signer(k, i).value))
  {
    var s := Signer(k, i);
    if s.Some? && k.rule == Trusting {
      assert s.value in seen <==> MetBefore(k, i, s.value);
      if MetBefore(k, i, s.value) {
        var j :| 0 <= j < i && Signer(k, j) == s;
        assert !Different(k, j, i);
      }
    }
  }

  lemma PassedShorter(k: Case, kind: Option<KeyType>, shaped: (PubKey, Bytes) -> bool, m: nat, n: nat)
    requires Aligned(k) && m <= n <= |k.commit.signatures| && Passed(k, kind, shaped, n)
    ensures Passed(k, kind, shaped, m)
  {}

  /** The scan ends here, and not for want of power. */
  lemma NotShort(k: Case, kind: Option<KeyType>, shaped: (PubKey, Bytes) -> bool, i: nat)
    requires Aligned(k) && NoNegativePower(k) && i <= |k.commit.signatures|
    requires !Passed(k, kind, shaped, i) || Tally(k, i) > k.needed
    ensures !Short(k, kind, shaped)
  {
    if Short(k, kind, shaped) {
      PassedShorter(k, kind, shaped, i, |k.commit.signatures|);
      TallyGrows(k, i, |k.commit.signatures|);
    }
  }

  /** Everything up to i passed and was noted. */
  ghost predicate Reached(k: Case, kind: Option<KeyType>, shaped: (PubKey, Bytes) -> bool, i: nat, seen: map<nat, nat>)
    requires Aligned(k)
  {
    i <= |k.commit.signatures| && Scanned(k, i, seen) && Passed(k, kind, shaped, i)
  }

  /** Signature i is one the scan stops at with an error. */
  predicate Stuck(k: Case, kind: Option<KeyType>, shaped: (PubKey, Bytes) -> bool, i: nat, seen: map<nat, nat>)
    requires Aligned(k) && i < |k.commit.signatures|
  {
    !Passable(k, kind, shaped, i) || (Signer(k, i).Some? && Twice(k, seen, Signer(k, i).value))
  }

  function Noting(k: Case, i: nat, seen: map<nat, nat>): map<nat, nat>
    requires Aligned(k) && i < |k.commit.signatures|
  {
    if Signer(k, i).None? then seen else seen[Signer(k, i).value := i]
  }

  /** The scan goes on behind signature i. */
  predicate GoesOn(k: Case, kind: Option<KeyType>, shaped: (PubKey, Bytes) -> bool, i: nat, seen: map<nat, nat>)
    requires Aligned(k) && i < |k.commit.signatures|
  {
    !Stuck(k, kind, shaped, i, seen) && !(Signer(k, i).Some? && Enough(k, Tally(k, i + 1)))
  }

  lemma SingleTurn(k: Case, shaped: (PubKey, Bytes) -> bool, i: nat, seen: map<nat, nat>)
    requires Aligned(k) && i < |k.commit.signatures|
    ensures if GoesOn(k, None, shaped, i, seen) then Single(k, i, seen, Tally(k, i)) == Single(k, i + 1, Noting(k, i, seen), Tally(k, i + 1))
            else !Single(k, i, seen, Tally(k, i)).NotEnoughPower?
  {}

  function Invalid(k: Case, i: nat, bad: Option<nat>): Option<nat>
    requires Aligned(k) && i < |k.commit.signatures|
  {
    var s := Signer(k, i);
    if s.Some? && bad.None? && !ValidSig(k, i, s.value) then Some(i) else bad
  }

  lemma BatchTurn(k: Case, b: BatchVerifier, i: nat, seen: map<nat, nat>, bad: Option<nat>)
    requires Aligned(k) && i < |k.commit.signatures|
    ensures if GoesOn(k, Some(b.kind), b.shaped, i, seen)
            then Batch(k, b, i, seen, Tally(k, i), bad) == Batch(k, b, i + 1, Noting(k, i, seen), Tally(k, i + 1), Invalid(k, i, bad))
            else !Batch(k, b, i, seen, Tally(k, i), bad).NotEnoughPower?
  {}

  lemma ShortTurn(k: Case, kind: Option<KeyType>, shaped: (PubKey, Bytes) -> bool, i: nat, seen: map<nat, nat>)
    requires Aligned(k) && NoNegativePower(k) && Reached(k, kind, shaped, i, seen) && i < |k.commit.signatures|
    ensures if GoesOn(k, kind, shaped, i, seen) then Reached(k, kind, shaped, i + 1, Noting(k, i, seen)) else !Short(k, kind, shaped)
  {
    PassedStep(k, kind, shaped, i, seen);
    ScanOne(k, i, seen);
    if !GoesOn(k, kind, shaped, i, seen) { NotShort(k, kind, shaped, i + 1); }
  }

  lemma {:induction false} SingleShort(k: Case, shaped: (PubKey, Bytes) -> bool, i: nat, seen: map<nat, nat>)
    requires Aligned(k) && NoNegativePower(k) && Reached(k, None, shaped, i, seen)
    ensures Single(k, i, seen, Tally(k, i)).NotEnoughPower? <==> Short(k, None, shaped)
    decreases |k.commit.signatures| - i
  {
    if i < |k.commit.signatures| {
      SingleTurn(k, shaped, i, seen);
      ShortTurn(k, None, shaped, i, seen);
      if GoesOn(k, None, shaped, i, seen) { SingleShort(k, shaped, i + 1, Noting(k, i, seen)); }
    }
  }

  lemma {:induction false} BatchShort(k: Case, b: BatchVerifier, i: nat, seen: map<nat, nat>, bad: Option<nat>)
    requires Aligned(k) && NoNegativePower(k) && Reached(k, Some(b.kind), b.shaped, i, seen)
    ensures Batch(k, b, i, seen, Tally(k, i), bad).NotEnoughPower? <==> Short(k, Some(b.kind), b.shaped)
    decreases |k.commit.signatures| - i
  {
    if i < |k.commit.signatures| {
      BatchTurn(k, b, i, seen, bad);
      ShortTurn(k, Some(b.kind), b.shaped, i, seen);
      if GoesOn(k, Some(b.kind), b.shaped, i, seen) { BatchShort(k, b, i + 1, Noting(k, i, seen), Invalid(k, i, bad)); }
    }
  }

  /** Whichever way is taken and whatever the rule, the answer is that the power
      does not suffice exactly when all signatures pass without exceeding it. */
  lemma ShortIff(k: Case, proposer: PubKey, shaped: (PubKey, Bytes) -> bool)
    requires Aligned(k) && NoNegativePower(k)
    ensures Verified(k, proposer, shaped).NotEnoughPower? <==> Short(k, BatchKind(k.commit, proposer), shaped)
  {
    SingleShort(k, shaped, 0, map[]);
    BatchShort(k, BatchVerifier(proposer.kind, shaped), 0, map[], None);
  }

  /** A batch is used for two signatures or more, unless the proposer's key is of
      the type that knows none. */
  lemma BatchIsUsed(commit: Commit, proposer: PubKey)
    ensures BatchKind(commit, proposer) == if |commit.signatures| < 2 || proposer.kind == Secp256k1 then None else Some(proposer.kind)
  {}

  // ---- The full rule, without the scan ----

  function BlockMask(commit: Commit): (r: seq<bool>)
    ensures |r| == |commit.signatures| && forall i :: 0 <= i < |r| ==> r[i] == (commit.signatures[i].flag == ForBlock)
  {
    seq(|commit.signatures|, i requires 0 <= i < |commit.signatures| => commit.signatures[i].flag == ForBlock)
  }

  lemma {:induction false} FullTally(k: Case, n: nat)
    requires Aligned(k) && k.rule == Full && n <= |k.vals|
    ensures Tally(k, n) == Sum(Masked(BlockMask(k.commit), Powers(k.vals))[..n])
  {
    var gains := Masked(BlockMask(k.commit), Powers(k.vals));
    if n > 0 {
      FullTally(k, n - 1);
      assert gains[..n] == gains[..n - 1] + [gains[n - 1]];
      SumAppend(gains[..n - 1], gains[n - 1]);
    }
  }

  /** Every signature present is good, and those for the block exceed the power
      needed. */
  lemma FullIff(k: Case, kind: Option<KeyType>)
    requires Aligned(k) && k.rule == Full
    ensures Acceptable(k, kind) <==>
      (forall j :: 0 <= j < |k.vals| ==> Good(k, kind, j)) && MaskSum(BlockMask(k.commit), Powers(k.vals)) > k.needed
  {
    var gains, n := Masked(BlockMask(k.commit), Powers(k.vals)), |k.vals|;
    FullTally(k, n);
    assert gains[..n] == gains;
    assert Acceptable(k, kind) <==> Suffices(k, kind, n);
  }
}
