/** Commits made from vote sets and vote sets rebuilt from commits
    (`types/vote_set.go`, `types/block.go`). */
module Commits {
  import opened Basics
  import opened Sums
  import opened Validators
  import opened Votes
  import VoteSets
  import opened VoteCollection
  import Check = CommitVerification
  import Rules = CommitRules

  // ---- Making a commit ----

  /** Votes the network lets through name no block or a complete one. */
  predicate Nameable(v: Option<Vote>) {
    v.Some? ==> v.value.blockID.IsComplete() || v.value.blockID.IsZero()
  }

  /** The signature of one canonical vote; a vote for another block is left out. */
  function SigFor(v: Option<Vote>, maj23: BlockID): CommitSig
    requires Nameable(v)
  {
    var sig := ToCommitSig(v);
    if sig.flag == ForBlock && v.value.blockID != maj23 then AbsentSig else sig
  }

  /** `MakeCommit`; `None` where it panics. */
  function Made(c: VoteSets.Config, s: VoteSets.State): Option<Commit> {
    if c.kind != Precommit || s.maj23.None? || exists i :: 0 <= i < |s.votes| && !Nameable(s.votes[i]) then None
    else
      Some(Commit(c.height, c.round, s.maj23.value,
                  seq(|s.votes|, i requires 0 <= i < |s.votes| && Nameable(s.votes[i]) => SigFor(s.votes[i], s.maj23.value))))
  }

  method MakeCommit(vs: VoteSet) returns (r: Option<Commit>)
    ensures r == Made(vs.config, vs.Value())
    ensures r.Some? ==>
      && r.value.height == vs.config.height && r.value.round == vs.config.round && vs.maj23 == Some(r.value.blockID)
      && |r.value.signatures| == |vs.votes|
      && forall i :: 0 <= i < |vs.votes| ==> Stands(r.value.signatures[i], vs.votes[i], r.value.blockID)
  {
    MadeIff(vs.config, vs.Value());
    if vs.config.kind != Precommit { return None; }
    if vs.maj23.None? { return None; }
    var sigs := [];
    for i := 0 to |vs.votes|
      invariant |sigs| == i && forall j :: 0 <= j < i ==> Nameable(vs.votes[j]) && sigs[j] == SigFor(vs.votes[j], vs.maj23.value)
    {
      if !Nameable(vs.votes[i]) { return None; }
      sigs := sigs + [SigFor(vs.votes[i], vs.maj23.value)];
    }
    assert sigs == Made(vs.config, vs.Value()).value.signatures;
    r := Some(Commit(vs.config.height, vs.config.round, vs.maj23.value, sigs));
  }

  /** What the commit says of a canonical vote: nothing if there is none or it is
      for another block; otherwise who voted, when, with what signature, and
      whether for the block or for nil. */
  ghost predicate Stands(sig: CommitSig, v: Option<Vote>, maj23: BlockID) {
    && (sig.flag == Absent <==> v.None? || (v.value.blockID.IsComplete() && v.value.blockID != maj23))
    && (sig.flag == ForNil <==> v.Some? && v.value.blockID == NilBlockID)
    && (sig.flag == ForBlock <==> v.Some? && v.value.blockID.IsComplete() && v.value.blockID == maj23)
    && (sig.flag != Absent ==>
          sig.address == v.value.address && sig.timestamp == v.value.timestamp && sig.signature == v.value.signature)
    && (sig.flag == Absent ==> sig.address == [] && sig.timestamp == NoTime && sig.signature == [])
  }

  /** A commit is made exactly for precommits with a majority, none of which names
      an incomplete block, and it says of every canonical vote what it should. */
  lemma MadeIff(c: VoteSets.Config, s: VoteSets.State)
    ensures Made(c, s).Some? <==>
      && c.kind == Precommit && s.maj23.Some?
      && forall i :: 0 <= i < |s.votes| && s.votes[i].Some? ==> s.votes[i].value.blockID.IsComplete() || s.votes[i].value.blockID == NilBlockID
    ensures Made(c, s).Some? ==>
      var commit := Made(c, s).value;
      && commit.height == c.height && commit.round == c.round && s.maj23 == Some(commit.blockID)
      && |commit.signatures| == |s.votes|
      && forall i :: 0 <= i < |s.votes| ==> Stands(commit.signatures[i], s.votes[i], commit.blockID)
  {
    forall i | 0 <= i < |s.votes| ensures Nameable(s.votes[i]) <==>
      (s.votes[i].Some? ==> s.votes[i].value.blockID.IsComplete() || s.votes[i].value.blockID == NilBlockID) {}
    if Made(c, s).Some? {
      var commit := Made(c, s).value;
      forall i | 0 <= i < |s.votes| ensures Stands(commit.signatures[i], s.votes[i], commit.blockID) {
        assert Nameable(s.votes[i]) && commit.signatures[i] == SigFor(s.votes[i], commit.blockID);
      }
    }
  }

  /** Each signature of the commit stands for the canonical vote it came from. */
  lemma MadeVotes(c: VoteSets.Config, s: VoteSets.State, commit: Commit, i: nat)
    requires Made(c, s) == Some(commit) && VoteSets.Slots(c, s.votes, s.bits, s.sum) && i < |s.votes|
    ensures |commit.signatures| == |s.votes| && commit.blockID == s.maj23.value
    ensures commit.signatures[i].flag != Absent ==> s.votes[i] == Some(GetVote(commit, i))
    ensures commit.signatures[i].flag == Absent ==> commit.signatures[i] == AbsentSig
    ensures s.votes[i].Some? && s.votes[i].value.blockID == commit.blockID && commit.blockID.IsComplete()
            ==> commit.signatures[i].flag == ForBlock
  {
    assert commit.signatures[i] == SigFor(s.votes[i], s.maj23.value);
  }

  lemma MadePower(c: VoteSets.Config, s: VoteSets.State, commit: Commit)
    requires Members(c.validators) && VoteSets.Inv(c, s)
    requires Made(c, s) == Some(commit) && commit.blockID.IsComplete()
    ensures |commit.signatures| == |c.validators|
    ensures MaskSum(Check.BlockMask(commit), Powers(c.validators)) >= Quorum(c.validators)
  {
    var voters := VoteSets.MajorityVoters(c, s);
    VotersAreIncluded(c, s, commit, voters);
  }

  lemma VotersAreIncluded(c: VoteSets.Config, s: VoteSets.State, commit: Commit, voters: seq<bool>)
    requires Members(c.validators) && VoteSets.Slots(c, s.votes, s.bits, s.sum)
    requires Made(c, s) == Some(commit) && commit.blockID.IsComplete() && |voters| == |c.validators|
    requires forall i :: 0 <= i < |voters| && voters[i] ==> s.votes[i].Some? && s.votes[i].value.blockID == s.maj23.value
    ensures |commit.signatures| == |c.validators|
    ensures MaskSum(Check.BlockMask(commit), Powers(c.validators)) >= MaskSum(voters, Powers(c.validators))
  {
    forall i | 0 <= i < |voters| ensures voters[i] ==> Check.BlockMask(commit)[i] {
      MadeVotes(c, s, commit, i);
    }
    MaskSumSubset(voters, Check.BlockMask(commit), Powers(c.validators));
  }

  /** A commit made for a block passes full verification one by one, and in a
      batch if the keys are of one type. */
  lemma MadeCommitVerifies(c: VoteSets.Config, s: VoteSets.State, commit: Commit, v: Rules.Verifier)
    requires Members(c.validators) && VoteSets.Inv(c, s)
    requires Made(c, s) == Some(commit) && commit.blockID.IsComplete()
    requires v.chain == c.chain && v.vals == c.validators && Rules.SoundVerifier(v)
    requires Check.SupportsBatch(v.proposer.kind) ==> forall i :: 0 <= i < |v.vals| ==> v.vals[i].pubKey.kind == v.proposer.kind
    ensures Rules.ByIndex(v, s.maj23.value, c.height, commit, Check.Full) == Check.Accepted
  {
    MadePower(c, s, commit);
    forall i | 0 <= i < |v.vals| && commit.signatures[i].flag != Absent ensures Rules.Backs(v, commit, i) {
      MadeVotes(c, s, commit, i);
    }
    Rules.FullAcceptedIff(v, s.maj23.value, c.height, commit);
  }

  // ---- Rebuilding a vote set ----

  function ConfigOf(chain: Chain, commit: Commit, vals: seq<Validator>): VoteSets.Config {
    VoteSets.Config(chain, commit.height, commit.round, Precommit, vals)
  }

  function VoteAt(commit: Commit, i: nat, until: nat): Option<Vote> {
    if i < until && i < |commit.signatures| && commit.signatures[i].flag != Absent then Some(GetVote(commit, i)) else None
  }

  /** The votes of the first signatures and nothing else: canonical votes and
      tallies agree. */
  ghost predicate Rebuilt(c: VoteSets.Config, commit: Commit, s: VoteSets.State, until: nat) {
    && VoteSets.Shaped(c, s)
    && (forall i :: 0 <= i < |s.votes| ==> s.votes[i] == VoteAt(commit, i, until))
    && (forall id, i :: id in s.tallies && 0 <= i < |s.votes| && s.tallies[id].votes[i].Some? ==> s.tallies[id].votes[i] == s.votes[i])
    && (forall i :: 0 <= i < |s.votes| && s.votes[i].Some? ==>
          s.votes[i].value.blockID in s.tallies && s.tallies[s.votes[i].value.blockID].votes[i] == s.votes[i])
  }

  /** Adding the next vote of a commit: it is new, so it is only a matter of
      verifying. */
  lemma NextVote(c: VoteSets.Config, commit: Commit, s: VoteSets.State, i: nat)
    requires Members(c.validators) && Rebuilt(c, commit, s, i)
    requires i < |commit.signatures| && commit.signatures[i].flag != Absent
    ensures var (r, outcome) := VoteSets.AddVote(c, s, Some(GetVote(commit, i)));
      && (outcome == VoteSets.Added <==> VoteSets.Verified(c, GetVote(commit, i)))
      && (outcome == VoteSets.Added ==> Rebuilt(c, commit, r, i + 1))
  {
    var v := GetVote(commit, i);
    VoteSets.ScreenPasses(c, s, Some(v));
    if VoteSets.Verified(c, v) {
      assert s.votes[i].None?;
      NextRebuilt(c, commit, s, i);
    }
  }

  lemma NextRebuilt(c: VoteSets.Config, commit: Commit, s: VoteSets.State, i: nat)
    requires Rebuilt(c, commit, s, i) && i < |c.validators| && s.votes[i].None?
    requires i < |commit.signatures| && commit.signatures[i].flag != Absent
    ensures Rebuilt(c, commit, VoteSets.AddVerified(c, s, GetVote(commit, i)), i + 1)
  {
    var v := GetVote(commit, i);
    var t := VoteSets.TallyOf(s, v.blockID, |c.validators|);
    assert t.votes[i].None?;
    assert VoteSets.NewTally(c, s, v).votes == t.votes[i := Some(v)];
    var f := VoteSets.Filed(c, s, v);
    assert Rebuilt(c, commit, f, i + 1);
    assert VoteSets.Overlay(f.votes, VoteSets.NewTally(c, s, v).votes) == f.votes;
  }

  ghost predicate AllVerified(c: VoteSets.Config, commit: Commit, until: nat)
    requires until <= |commit.signatures|
  {
    forall i :: 0 <= i < until && commit.signatures[i].flag != Absent ==> VoteSets.Verified(c, GetVote(commit, i))
  }

  /** `CommitToVoteSet`, which panics exactly when the vote of some signature
      present does not verify for its place in the set. */
  method CommitToVoteSet(chain: Chain, commit: Commit, vals: seq<Validator>) returns (vs: VoteSet, panics: bool)
    requires commit.height != 0 && Members(vals)
    ensures panics <==> !AllVerified(ConfigOf(chain, commit, vals), commit, |commit.signatures|)
    ensures vs.Valid() && vs.config == ConfigOf(chain, commit, vals)
    ensures !panics ==> Rebuilt(vs.config, commit, vs.Value(), |commit.signatures|)
  {
    vs := new VoteSet(ConfigOf(chain, commit, vals));
    NothingRebuilt(vs.config, commit);
    for i := 0 to |commit.signatures|
      invariant fresh(vs) && vs.Valid() && vs.config == ConfigOf(chain, commit, vals)
      invariant Rebuilt(vs.config, commit, vs.Value(), i)
      invariant AllVerified(vs.config, commit, i)
    {
      var ok := AddSignature(vs, commit, i);
      if !ok { return vs, true; }
    }
    panics := false;
  }

  lemma NothingRebuilt(c: VoteSets.Config, commit: Commit)
    ensures Rebuilt(c, commit, VoteSets.Initial(|c.validators|), 0)
  {}

  lemma SkipAbsent(c: VoteSets.Config, commit: Commit, s: VoteSets.State, i: nat)
    requires Rebuilt(c, commit, s, i) && i < |commit.signatures| && AllVerified(c, commit, i)
    requires commit.signatures[i].flag == Absent
    ensures Rebuilt(c, commit, s, i + 1) && AllVerified(c, commit, i + 1)
  {
    forall j | 0 <= j < |s.votes| ensures s.votes[j] == VoteAt(commit, j, i + 1) {
      assert s.votes[j] == VoteAt(commit, j, i);
    }
  }

  lemma AddPresent(c: VoteSets.Config, commit: Commit, s: VoteSets.State, i: nat)
    requires Members(c.validators) && Rebuilt(c, commit, s, i)
    requires i < |commit.signatures| && AllVerified(c, commit, i) && commit.signatures[i].flag != Absent
    ensures var (r, outcome) := VoteSets.AddVote(c, s, Some(GetVote(commit, i)));
      && (outcome == VoteSets.Added <==> AllVerified(c, commit, i + 1))
      && (outcome == VoteSets.Added ==> Rebuilt(c, commit, r, i + 1))
  {
    NextVote(c, commit, s, i);
  }

  /** One turn of the loop. */
  method AddSignature(vs: VoteSet, commit: Commit, i: nat) returns (ok: bool)
    requires vs.Valid() && Rebuilt(vs.config, commit, vs.Value(), i)
    requires i < |commit.signatures| && AllVerified(vs.config, commit, i)
    modifies vs
    ensures vs.Valid()
    ensures ok <==> AllVerified(vs.config, commit, i + 1)
    ensures ok ==> Rebuilt(vs.config, commit, vs.Value(), i + 1)
  {
    if commit.signatures[i].flag == Absent {
      SkipAbsent(vs.config, commit, vs.Value(), i);
      return true;
    }
    AddPresent(vs.config, commit, vs.Value(), i);
    var outcome := vs.AddVote(Some(GetVote(commit, i)));
    ok := outcome == VoteSets.Added;
  }

  /** In a rebuilt set the tally of a block is the power of its signatures. */
  lemma RebuiltTally(c: VoteSets.Config, commit: Commit, s: VoteSets.State, id: BlockID, mask: seq<bool>)
    requires VoteSets.Inv(c, s) && Rebuilt(c, commit, s, |commit.signatures|) && id in s.tallies
    requires |mask| == |c.validators| == |commit.signatures|
    requires forall i :: 0 <= i < |mask| ==> mask[i] == (commit.signatures[i].flag != Absent && SigBlockID(commit.signatures[i], commit.blockID) == id)
    ensures s.tallies[id].sum == MaskSum(mask, Powers(c.validators))
  {
    var t := s.tallies[id];
    assert VoteSets.TallyOk(c, s, id, t);
    forall i | 0 <= i < |mask| ensures t.bits[i] == mask[i] {
      assert s.votes[i] == VoteAt(commit, i, |commit.signatures|);
    }
    assert t.bits == mask;
  }

  function NilMask(commit: Commit): (r: seq<bool>)
    ensures |r| == |commit.signatures| && forall i :: 0 <= i < |r| ==> r[i] == (commit.signatures[i].flag == ForNil)
  {
    seq(|commit.signatures|, i requires 0 <= i < |commit.signatures| => commit.signatures[i].flag == ForNil)
  }

  /** Votes for the block and for nil come from different validators. */
  lemma NilPower(commit: Commit, vals: seq<Validator>)
    requires |commit.signatures| == |vals| && Members(vals)
    ensures MaskSum(Check.BlockMask(commit), Powers(vals)) + MaskSum(NilMask(commit), Powers(vals)) <= Total(vals)
  {
    var a, b := Masked(Check.BlockMask(commit), Powers(vals)), Masked(NilMask(commit), Powers(vals));
    var zeros := seq(|vals|, _ => 0);
    SumPairs(a, b, Powers(vals), zeros);
    SumAtMost(zeros, 0);
  }

  /** The rebuilt set finds the majority the commit was made for. */
  lemma RebuiltMajority(c: VoteSets.Config, commit: Commit, s: VoteSets.State)
    requires Members(c.validators) && VoteSets.Inv(c, s) && Rebuilt(c, commit, s, |commit.signatures|)
    requires |commit.signatures| == |c.validators| && commit.blockID.IsComplete()
    requires MaskSum(Check.BlockMask(commit), Powers(c.validators)) >= Quorum(c.validators)
    ensures s.maj23 == Some(commit.blockID)
  {
    SomeForBlock(c, commit, s);
    RebuiltTally(c, commit, s, commit.blockID, Check.BlockMask(commit));
    NilCannotWin(c, commit, s);
  }

  lemma NilCannotWin(c: VoteSets.Config, commit: Commit, s: VoteSets.State)
    requires Members(c.validators) && VoteSets.Inv(c, s) && Rebuilt(c, commit, s, |commit.signatures|)
    requires |commit.signatures| == |c.validators| && commit.blockID.IsComplete() && s.maj23.Some?
    requires MaskSum(Check.BlockMask(commit), Powers(c.validators)) >= Quorum(c.validators)
    ensures s.maj23.value == commit.blockID
  {
    NilPower(commit, c.validators);
    SumAtLeast(Powers(c.validators), 0);
    OnlyTwoBlocks(c, commit, s, s.maj23.value);
    if s.maj23.value == NilBlockID {
      RebuiltTally(c, commit, s, NilBlockID, NilMask(commit));
    }
  }

  lemma SomeForBlock(c: VoteSets.Config, commit: Commit, s: VoteSets.State)
    requires Rebuilt(c, commit, s, |commit.signatures|) && |commit.signatures| == |c.validators|
    requires Members(c.validators) && MaskSum(Check.BlockMask(commit), Powers(c.validators)) >= Quorum(c.validators)
    ensures commit.blockID in s.tallies
  {
    var mask := Check.BlockMask(commit);
    SumAtLeast(Powers(c.validators), 0);
    if forall i :: 0 <= i < |mask| ==> !mask[i] {
      SumAtMost(Masked(mask, Powers(c.validators)), 0);
    }
    var i :| 0 <= i < |mask| && mask[i];
    assert s.votes[i] == VoteAt(commit, i, |commit.signatures|);
  }

  /** A tally with power holds votes, which are for the block or for nil. */
  lemma OnlyTwoBlocks(c: VoteSets.Config, commit: Commit, s: VoteSets.State, id: BlockID)
    requires Rebuilt(c, commit, s, |commit.signatures|) && id in s.tallies
    requires VoteSets.TallyOk(c, s, id, s.tallies[id]) && s.tallies[id].sum > 0
    ensures id == commit.blockID || id == NilBlockID
  {
    var t := s.tallies[id];
    var i := SomeSelected(t.bits, Powers(c.validators));
    assert s.votes[i] == VoteAt(commit, i, |commit.signatures|);
  }

  lemma SomeSelected(mask: seq<bool>, s: seq<int>) returns (i: nat)
    requires |mask| == |s| && MaskSum(mask, s) > 0
    ensures i < |mask| && mask[i]
  {
    i := 0;
    while i < |mask| && !mask[i]
      invariant i <= |mask| && forall j :: 0 <= j < i ==> !mask[j]
    {
      i := i + 1;
    }
    if i == |mask| { SumAtMost(Masked(mask, s), 0); }
  }

  /** The inverse: every set rebuilt from a made commit finds the same majority
      and makes the same commit. */
  lemma CommitRoundTrip(c: VoteSets.Config, s: VoteSets.State, commit: Commit, r: VoteSets.State)
    requires Members(c.validators) && VoteSets.Inv(c, s) && VoteSets.Inv(c, r)
    requires Made(c, s) == Some(commit) && commit.blockID.IsComplete()
    requires Rebuilt(c, commit, r, |commit.signatures|)
    ensures r.maj23 == s.maj23 && Made(c, r) == Some(commit)
  {
    MadePower(c, s, commit);
    RebuiltMajority(c, commit, r);
    SameSignatures(c, s, commit, r);
  }

  lemma SameSignatures(c: VoteSets.Config, s: VoteSets.State, commit: Commit, r: VoteSets.State)
    requires VoteSets.Slots(c, s.votes, s.bits, s.sum) && Made(c, s) == Some(commit) && commit.blockID.IsComplete()
    requires Rebuilt(c, commit, r, |commit.signatures|) && r.maj23 == s.maj23
    ensures Made(c, r) == Some(commit)
  {
    forall i | 0 <= i < |r.votes| ensures Nameable(r.votes[i]) && SigFor(r.votes[i], commit.blockID) == commit.signatures[i] {
      MadeVotes(c, s, commit, i);
      assert r.votes[i] == VoteAt(commit, i, |commit.signatures|);
      assert commit.signatures[i] == SigFor(s.votes[i], commit.blockID);
    }
    assert Made(c, r).value.signatures == commit.signatures;
  }

  /** A made commit verifies at every place, so rebuilding never panics. */
  lemma MadeNeverPanics(c: VoteSets.Config, s: VoteSets.State, commit: Commit)
    requires VoteSets.Inv(c, s) && Made(c, s) == Some(commit)
    ensures c == ConfigOf(c.chain, commit, c.validators)
    ensures forall i :: 0 <= i < |commit.signatures| && commit.signatures[i].flag != Absent ==> VoteSets.Verified(c, GetVote(commit, i))
  {
    forall i | 0 <= i < |commit.signatures| && commit.signatures[i].flag != Absent ensures VoteSets.Verified(c, GetVote(commit, i)) {
      MadeVotes(c, s, commit, i);
    }
  }
}
