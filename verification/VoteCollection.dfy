/** The vote set as an object updated in place (`types/vote_set.go`). */
module VoteCollection {
  import opened Basics
  import opened Validators
  import opened Votes
  import Spec = VoteSets

  class VoteSet {
    const config: Spec.Config
    var votesBitArray: seq<bool>
    var votes: seq<Option<Vote>>
    var sum: int
    var maj23: Option<BlockID>
    var votesByBlock: map<BlockID, Spec.Tally>
    var peerMaj23s: map<Spec.PeerID, BlockID>

    ghost function Value(): Spec.State
      reads this
    {
      Spec.State(votes, votesBitArray, sum, maj23, votesByBlock, peerMaj23s)
    }

    ghost predicate Valid()
      reads this
    {
      Members(config.validators) && Spec.Shaped(config, Value()) && Spec.Inv(config, Value())
    }

    /** `NewVoteSet`, which panics on height zero. */
    constructor (config: Spec.Config)
      requires config.height != 0 && Members(config.validators)
      ensures this.config == config && Valid() && Value() == Spec.Initial(|config.validators|)
    {
      this.config := config;
      votesBitArray, votes := Spec.NoBits(|config.validators|), Nones(|config.validators|);
      sum, maj23, votesByBlock, peerMaj23s := 0, None, map[], map[];
      new;
      Spec.InitialInv(config);
    }

    /** `getVote` */
    method GetVote(i: nat, id: BlockID) returns (v: Option<Vote>)
      requires Spec.Shaped(config, Value()) && i < |config.validators|
      ensures v == Spec.Known(Value(), i, id)
    {
      if votes[i].Some? && votes[i].value.blockID == id { return votes[i]; }
      if id in votesByBlock { return votesByBlock[id].votes[i]; }
      v := None;
    }

    /** `addVote`; its two panics cannot be reached. */
    method AddVote(vote: Option<Vote>) returns (r: Spec.Result)
      requires Valid()
      modifies this
      ensures Valid()
      ensures (Value(), r) == Spec.AddVote(config, old(Value()), vote)
    {
      if vote.None? { return Spec.Rejected(Spec.VoteNil); }
      var v := vote.value;
      if v.index < 0 { return Spec.Rejected(Spec.InvalidIndex); }
      if |v.address| == 0 { return Spec.Rejected(Spec.InvalidAddress); }
      if v.height != config.height || v.round != config.round || v.kind != config.kind {
        return Spec.Rejected(Spec.UnexpectedStep);
      }
      if v.index >= |config.validators| { return Spec.Rejected(Spec.InvalidIndex); }
      var val := config.validators[v.index];
      if v.address != val.address { return Spec.Rejected(Spec.InvalidAddress); }
      var existing := GetVote(v.index, v.blockID);
      if existing.Some? {
        return if existing.value.signature == v.signature then Spec.Duplicate else Spec.Rejected(Spec.NonDeterministicSignature);
      }
      if config.chain.addressOf(val.pubKey) != v.address { return Spec.Rejected(Spec.InvalidAddress); }
      if !config.chain.verify(val.pubKey, VoteSignBytes(config.chain, v), v.signature) {
        return Spec.Rejected(Spec.InvalidSignature);
      }
      r := AddChecked(v);
    }

    /** The end of `addVote`, once every check has passed. */
    method AddChecked(v: Vote) returns (r: Spec.Result)
      requires Valid() && Spec.New(config, Value(), v)
      modifies this
      ensures Valid()
      ensures (Value(), r) == Spec.AddVote(config, old(Value()), Some(v))
    {
      Spec.ScreenPasses(config, Value(), Some(v));
      Spec.AddVerifiedKeeps(config, Value(), v);
      var added, conflicting := AddVerifiedVote(v);
      if conflicting.Some? { return Spec.Conflict(added, conflicting.value, v); }
      if !added { assert false; }
      r := Spec.Added;
    }

    /** `addVerifiedVote` */
    method AddVerifiedVote(v: Vote) returns (added: bool, conflicting: Option<Vote>)
      requires Spec.Shaped(config, Value()) && Spec.New(config, Value(), v)
      modifies this
      ensures Value() == Spec.AddVerified(config, old(Value()), v)
      ensures added == Spec.Counts(old(Value()), v)
      ensures conflicting == old(votes[v.index])
    {
      ghost var s := Value();
      var i, id, power := v.index, v.blockID, config.validators[v.index].power;
      conflicting := None;
      if votes[i].Some? {
        if votes[i].value.blockID == id { assert false; }
        conflicting := votes[i];
        if maj23 == Some(id) {
          votes, votesBitArray := votes[i := Some(v)], votesBitArray[i := true];
        }
      } else {
        votes, votesBitArray := votes[i := Some(v)], votesBitArray[i := true];
        sum := sum + power;
      }
      assert Value() == Spec.Recorded(config, s, v);
      var tally: Spec.Tally;
      if id in votesByBlock {
        tally := votesByBlock[id];
        if conflicting.Some? && !tally.peerMaj23 { return false, conflicting; }
      } else {
        if conflicting.Some? { return false, conflicting; }
        tally := Spec.EmptyTally(false, |config.validators|);
      }
      added := true;
      var origSum, quorum := tally.sum, Quorum(config.validators);
      tally := Spec.TallyAdd(tally, v, power);
      votesByBlock := votesByBlock[id := tally];
      assert Value() == Spec.Filed(config, s, v);
      if origSum < quorum <= tally.sum && maj23.None? {
        maj23 := Some(id);
        CopyVotes(tally.votes);
      }
    }

    /** The loop that makes the votes of the majority canonical. */
    method CopyVotes(over: seq<Option<Vote>>)
      requires |over| == |votes|
      modifies this`votes
      ensures votes == Spec.Overlay(old(votes), over)
    {
      for i := 0 to |over|
        invariant |votes| == |over|
        invariant forall j :: 0 <= j < i ==> votes[j] == Spec.Overlay(old(votes), over)[j]
        invariant forall j :: i <= j < |over| ==> votes[j] == old(votes)[j]
      {
        if over[i].Some? { votes := votes[i := over[i]]; }
      }
    }

    /** `SetPeerMaj23` */
    method SetPeerMaj23(peer: Spec.PeerID, id: BlockID) returns (ok: bool)
      requires Valid()
      modifies this
      ensures Valid()
      ensures (Value(), ok) == Spec.SetPeerMaj23(config, old(Value()), peer, id)
    {
      Spec.SetPeerKeeps(config, Value(), peer, id);
      ok := NoteClaim(peer, id);
    }

    method NoteClaim(peer: Spec.PeerID, id: BlockID) returns (ok: bool)
      requires Spec.Shaped(config, Value())
      modifies this
      ensures (Value(), ok) == Spec.SetPeerMaj23(config, old(Value()), peer, id)
      ensures Spec.Shaped(config, Value())
    {
      if peer in peerMaj23s { return peerMaj23s[peer] == id; }
      peerMaj23s := peerMaj23s[peer := id];
      ok := true;
      if id in votesByBlock {
        if votesByBlock[id].peerMaj23 {
          assert votesByBlock[id := votesByBlock[id]] == votesByBlock;
          return;
        }
        votesByBlock := votesByBlock[id := votesByBlock[id].(peerMaj23 := true)];
      } else {
        votesByBlock := votesByBlock[id := Spec.EmptyTally(true, |config.validators|)];
      }
    }
  }
}
