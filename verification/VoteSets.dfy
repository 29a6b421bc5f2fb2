/** Collecting the votes of one height, round and type (`types/vote_set.go`). */
module VoteSets {
  import opened Basics
  import opened Sums
  import opened Validators
  import opened Votes

  type PeerID = string

  datatype Config = Config(chain: Chain, height: int, round: int, kind: SignedMsgType, validators: seq<Validator>)

  /** `blockVotes` */
  datatype Tally = Tally(peerMaj23: bool, bits: seq<bool>, votes: seq<Option<Vote>>, sum: int)

  datatype State = State(
    votes: seq<Option<Vote>>, bits: seq<bool>, sum: int, maj23: Option<BlockID>,
    tallies: map<BlockID, Tally>, peers: map<PeerID, BlockID>)

  datatype Error = VoteNil | InvalidIndex | InvalidAddress | UnexpectedStep | NonDeterministicSignature | InvalidSignature

  datatype Result =
    | Added
    | Duplicate
    | Conflict(added: bool, existing: Vote, vote: Vote)
    | Rejected(error: Error)

  function NoBits(n: nat): (r: seq<bool>)
    ensures |r| == n && forall i :: 0 <= i < n ==> !r[i]
  {
    seq(n, _ => false)
  }

  function EmptyTally(peerMaj23: bool, n: nat): Tally { Tally(peerMaj23, NoBits(n), Nones(n), 0) }

  function Initial(n: nat): State { State(Nones(n), NoBits(n), 0, None, map[], map[]) }

  // ---- What one call does ----

  /** A vote that passed every check of `addVote` that depends on the
      configuration alone. */
  predicate Verified(c: Config, v: Vote) {
    && v.height == c.height && v.round == c.round && v.kind == c.kind
    && 0 <= v.index < |c.validators|
    && v.address != [] && v.address == c.validators[v.index].address
    && c.chain.addressOf(c.validators[v.index].pubKey) == v.address
    && c.chain.verify(c.validators[v.index].pubKey, VoteSignBytes(c.chain, v), v.signature)
  }

  /** `blockVotes.addVerifiedVote` */
  function TallyAdd(t: Tally, v: Vote, power: int): Tally
    requires 0 <= v.index < |t.votes| == |t.bits|
  {
    if t.votes[v.index].Some? then t
    else t.(bits := t.bits[v.index := true], votes := t.votes[v.index := Some(v)], sum := t.sum + power)
  }

  /** Every vote of the tally over the canonical one. */
  function Overlay(votes: seq<Option<Vote>>, over: seq<Option<Vote>>): (r: seq<Option<Vote>>)
    requires |votes| == |over|
    ensures |r| == |votes| && forall i :: 0 <= i < |r| ==> r[i] == if over[i].Some? then over[i] else votes[i]
  {
    seq(|votes|, i requires 0 <= i < |votes| => if over[i].Some? then over[i] else votes[i])
  }

  ghost predicate Shaped(c: Config, s: State) {
    && |s.votes| == |s.bits| == |c.validators|
    && forall id :: id in s.tallies ==> |s.tallies[id].votes| == |s.tallies[id].bits| == |c.validators|
  }

  /** The canonical votes after a verified vote. */
  function Recorded(c: Config, s: State, v: Vote): (r: State)
    requires Shaped(c, s) && 0 <= v.index < |c.validators|
    ensures Shaped(c, r)
  {
    var i := v.index;
    if s.votes[i].None? then
      s.(votes := s.votes[i := Some(v)], bits := s.bits[i := true], sum := s.sum + c.validators[i].power)
    else if s.maj23 == Some(v.blockID) then s.(votes := s.votes[i := Some(v)], bits := s.bits[i := true])
    else s
  }

  /** Whether the vote goes into the tally of its block. */
  predicate Counts(s: State, v: Vote)
    requires 0 <= v.index < |s.votes|
  {
    s.votes[v.index].None? || (v.blockID in s.tallies && s.tallies[v.blockID].peerMaj23)
  }

  function TallyOf(s: State, id: BlockID, n: nat): Tally {
    if id in s.tallies then s.tallies[id] else EmptyTally(false, n)
  }

  /** The new tally of the vote's block. */
  function NewTally(c: Config, s: State, v: Vote): (r: Tally)
    requires Shaped(c, s) && 0 <= v.index < |c.validators|
    ensures |r.votes| == |r.bits| == |c.validators|
  {
    TallyAdd(TallyOf(s, v.blockID, |c.validators|), v, c.validators[v.index].power)
  }

  /** The state with the vote in its tally, before a majority is noted. */
  function Filed(c: Config, s: State, v: Vote): (r: State)
    requires Shaped(c, s) && 0 <= v.index < |c.validators|
    ensures Shaped(c, r)
  {
    Recorded(c, s, v).(tallies := s.tallies[v.blockID := NewTally(c, s, v)])
  }

  /** The state once the majority for the vote's block is noted. */
  function Noted(c: Config, s: State, v: Vote): (r: State)
    requires Shaped(c, s) && 0 <= v.index < |c.validators|
    ensures Shaped(c, r)
  {
    Filed(c, s, v).(maj23 := Some(v.blockID), votes := Overlay(Recorded(c, s, v).votes, NewTally(c, s, v).votes))
  }

  /** `addVerifiedVote` */
  function AddVerified(c: Config, s: State, v: Vote): (r: State)
    requires Shaped(c, s) && 0 <= v.index < |c.validators|
    ensures Shaped(c, r)
  {
    if !Counts(s, v) then Recorded(c, s, v)
    else if
      && TallyOf(s, v.blockID, |c.validators|).sum < Quorum(c.validators) <= NewTally(c, s, v).sum
      && s.maj23.None?
    then Noted(c, s, v)
    else Filed(c, s, v)
  }

  /** `getVote` */
  function Known(s: State, i: nat, id: BlockID): Option<Vote>
    requires i < |s.votes| && (id in s.tallies ==> i < |s.tallies[id].votes|)
  {
    if s.votes[i].Some? && s.votes[i].value.blockID == id then s.votes[i]
    else if id in s.tallies then s.tallies[id].votes[i]
    else None
  }

  /** The checks of `addVote`, in order; `None` when the vote is to be added. */
  function Screen(c: Config, s: State, vote: Option<Vote>): Option<Result>
    requires Shaped(c, s)
  {
    if vote.None? then Some(Rejected(VoteNil))
    else
      var v := vote.value;
      if v.index < 0 then Some(Rejected(InvalidIndex))
      else if v.address == [] then Some(Rejected(InvalidAddress))
      else if v.height != c.height || v.round != c.round || v.kind != c.kind then Some(Rejected(UnexpectedStep))
      else if v.index >= |c.validators| then Some(Rejected(InvalidIndex))
      else if v.address != c.validators[v.index].address then Some(Rejected(InvalidAddress))
      else
        var known := Known(s, v.index, v.blockID);
        if known.Some? && known.value.signature == v.signature then Some(Duplicate)
        else if known.Some? then Some(Rejected(NonDeterministicSignature))
        else if c.chain.addressOf(c.validators[v.index].pubKey) != v.address then Some(Rejected(InvalidAddress))
        else if !c.chain.verify(c.validators[v.index].pubKey, VoteSignBytes(c.chain, v), v.signature)
        then Some(Rejected(InvalidSignature))
        else None
  }

  /** `addVote` */
  function AddVote(c: Config, s: State, vote: Option<Vote>): (State, Result)
    requires Shaped(c, s)
  {
    if Screen(c, s, vote).Some? then (s, Screen(c, s, vote).value)
    else
      var v := vote.value;
      (AddVerified(c, s, v), if s.votes[v.index].Some? then Conflict(Counts(s, v), s.votes[v.index].value, v) else Added)
  }

  /** `SetPeerMaj23`; false if the peer already named another block. */
  function SetPeerMaj23(c: Config, s: State, peer: PeerID, id: BlockID): (State, bool) {
    if peer in s.peers then (s, s.peers[peer] == id)
    else (Claimed(c, s, peer, id), true)
  }

  function Claimed(c: Config, s: State, peer: PeerID, id: BlockID): State {
    s.(peers := s.peers[peer := id], tallies := s.tallies[id := PeerTally(c, s, id)])
  }

  function PeerTally(c: Config, s: State, id: BlockID): Tally {
    if id in s.tallies then s.tallies[id].(peerMaj23 := true) else EmptyTally(true, |c.validators|)
  }

  // ---- The invariant ----

  /** A list of votes, one slot per validator, with its bits and its power. */
  ghost predicate Slots(c: Config, votes: seq<Option<Vote>>, bits: seq<bool>, sum: int) {
    && |votes| == |bits| == |c.validators|
    && (forall i :: 0 <= i < |votes| ==> bits[i] == votes[i].Some?)
    && (forall i :: 0 <= i < |votes| && votes[i].Some? ==> votes[i].value.index == i && Verified(c, votes[i].value))
    && sum == MaskSum(bits, Powers(c.validators))
  }

  /** The tally of a block holds votes for it, of validators that have a
      canonical vote. */
  ghost predicate TallyOk(c: Config, s: State, id: BlockID, t: Tally) {
    && Slots(c, t.votes, t.bits, t.sum)
    && |s.votes| == |c.validators|
    && forall i :: 0 <= i < |t.votes| && t.votes[i].Some? ==> t.votes[i].value.blockID == id && s.votes[i].Some?
  }

  /** A canonical vote is in its block's tally or is for the majority block. */
  ghost predicate CanonicalOk(s: State, i: nat)
    requires i < |s.votes|
  {
    s.votes[i].Some? ==>
      var id := s.votes[i].value.blockID;
      id in s.tallies && i < |s.tallies[id].votes| && (s.tallies[id].votes[i] == s.votes[i] || s.maj23 == Some(id))
  }

  /** The majority block reached the quorum and its tally is canonical. */
  ghost predicate MajorityOk(c: Config, s: State) {
    s.maj23.Some? ==>
      && s.maj23.value in s.tallies
      && s.tallies[s.maj23.value].sum >= Quorum(c.validators)
      && |s.tallies[s.maj23.value].votes| == |s.votes|
      && forall i :: 0 <= i < |s.votes| && s.tallies[s.maj23.value].votes[i].Some? ==> s.votes[i] == s.tallies[s.maj23.value].votes[i]
  }

  ghost predicate PeersOk(s: State) {
    && (forall p :: p in s.peers ==> s.peers[p] in s.tallies && s.tallies[s.peers[p]].peerMaj23)
    && forall id :: id in s.tallies && s.tallies[id].peerMaj23 ==> id in s.peers.Values
  }

  ghost predicate TalliesOk(c: Config, s: State) {
    forall id :: id in s.tallies ==> TallyOk(c, s, id, s.tallies[id])
  }

  ghost predicate AllCanonical(s: State) {
    forall i :: 0 <= i < |s.votes| ==> CanonicalOk(s, i)
  }

  /** The majority is set as soon as some tally reaches the quorum. */
  ghost predicate MajorityNoted(c: Config, s: State) {
    s.maj23.None? ==> forall id :: id in s.tallies ==> s.tallies[id].sum < Quorum(c.validators)
  }

  ghost predicate Inv(c: Config, s: State) {
    && Slots(c, s.votes, s.bits, s.sum)
    && TalliesOk(c, s)
    && AllCanonical(s)
    && MajorityNoted(c, s)
    && MajorityOk(c, s)
    && PeersOk(s)
    && |s.tallies| <= Count(s.bits) + |s.peers|
  }

  lemma InitialInv(c: Config)
    requires Members(c.validators)
    ensures Inv(c, Initial(|c.validators|)) && Shaped(c, Initial(|c.validators|))
  {
    var s := Initial(|c.validators|);
    SumAtLeast(Masked(s.bits, Powers(c.validators)), 0);
    SumAtMost(Masked(s.bits, Powers(c.validators)), 0);
    SumAtLeast(Masked(s.bits, Ones(|s.bits|)), 0);
  }

  // ---- Slots ----

  lemma SlotsFill(c: Config, votes: seq<Option<Vote>>, bits: seq<bool>, sum: int, v: Vote)
    requires Slots(c, votes, bits, sum) && Verified(c, v) && votes[v.index].None?
    ensures Slots(c, votes[v.index := Some(v)], bits[v.index := true], sum + c.validators[v.index].power)
    ensures Count(bits[v.index := true]) == Count(bits) + 1
  {
    MaskSumSet(bits, Powers(c.validators), v.index);
    MaskSumSet(bits, Ones(|bits|), v.index);
  }

  lemma SlotsReplace(c: Config, votes: seq<Option<Vote>>, bits: seq<bool>, sum: int, v: Vote)
    requires Slots(c, votes, bits, sum) && Verified(c, v) && votes[v.index].Some?
    ensures Slots(c, votes[v.index := Some(v)], bits[v.index := true], sum)
    ensures bits[v.index := true] == bits
  {
    assert bits[v.index := true] == bits;
  }

  lemma EmptySlots(c: Config, peerMaj23: bool)
    requires Members(c.validators)
    ensures var t := EmptyTally(peerMaj23, |c.validators|); Slots(c, t.votes, t.bits, t.sum) && t.sum < Quorum(c.validators)
  {
    var t := EmptyTally(peerMaj23, |c.validators|);
    SumAtLeast(Masked(t.bits, Powers(c.validators)), 0);
    SumAtMost(Masked(t.bits, Powers(c.validators)), 0);
    SumAtLeast(Powers(c.validators), 0);
  }

  // ---- Adding a vote keeps the invariant ----

  /** What is known of the vote when it is added. */
  ghost predicate New(c: Config, s: State, v: Vote) {
    && Members(c.validators) && Shaped(c, s) && Verified(c, v)
    && Known(s, v.index, v.blockID).None?
  }

  lemma RecordedSlots(c: Config, s: State, v: Vote)
    requires New(c, s, v) && Slots(c, s.votes, s.bits, s.sum)
    ensures var r := Recorded(c, s, v); Slots(c, r.votes, r.bits, r.sum)
    ensures Count(Recorded(c, s, v).bits) == Count(s.bits) + if s.votes[v.index].None? then 1 else 0
  {
    if s.votes[v.index].None? { SlotsFill(c, s.votes, s.bits, s.sum, v); } else { SlotsReplace(c, s.votes, s.bits, s.sum, v); }
  }

  lemma VotersStay(c: Config, s: State, r: State, id: BlockID, t: Tally)
    requires TallyOk(c, s, id, t) && |r.votes| == |s.votes|
    requires forall i :: 0 <= i < |s.votes| && s.votes[i].Some? ==> r.votes[i].Some?
    ensures TallyOk(c, r, id, t)
  {}

  lemma RecordedTallies(c: Config, s: State, v: Vote)
    requires New(c, s, v) && TalliesOk(c, s)
    ensures TalliesOk(c, Recorded(c, s, v))
  {
    var r := Recorded(c, s, v);
    forall id | id in r.tallies ensures TallyOk(c, r, id, r.tallies[id]) {
      VotersStay(c, s, r, id, s.tallies[id]);
    }
  }

  lemma RecordedCanonical(c: Config, s: State, v: Vote)
    requires New(c, s, v) && !Counts(s, v) && AllCanonical(s) && MajorityOk(c, s)
    ensures AllCanonical(Recorded(c, s, v)) && MajorityOk(c, Recorded(c, s, v))
  {
    var r := Recorded(c, s, v);
    forall i | 0 <= i < |r.votes| ensures CanonicalOk(r, i) { assert CanonicalOk(s, i); }
  }

  /** A vote beside an earlier one that no peer vouched for changes the canonical
      vote only in favour of the majority. */
  lemma UncountedKeeps(c: Config, s: State, v: Vote)
    requires New(c, s, v) && Inv(c, s) && !Counts(s, v)
    ensures Inv(c, Recorded(c, s, v))
  {
    RecordedSlots(c, s, v);
    RecordedTallies(c, s, v);
    RecordedCanonical(c, s, v);
  }

  lemma NewTallyOk(c: Config, s: State, v: Vote)
    requires New(c, s, v) && Counts(s, v) && TalliesOk(c, s)
    ensures TallyOk(c, Recorded(c, s, v), v.blockID, NewTally(c, s, v))
    ensures NewTally(c, s, v).votes == TallyOf(s, v.blockID, |c.validators|).votes[v.index := Some(v)]
    ensures TallyOf(s, v.blockID, |c.validators|).sum < NewTally(c, s, v).sum
  {
    var t := TallyOf(s, v.blockID, |c.validators|);
    if v.blockID in s.tallies { assert TallyOk(c, s, v.blockID, t); } else { EmptySlots(c, false); }
    SlotsFill(c, t.votes, t.bits, t.sum, v);
  }

  lemma FiledTallies(c: Config, s: State, v: Vote)
    requires New(c, s, v) && Counts(s, v) && TalliesOk(c, s)
    ensures TalliesOk(c, Filed(c, s, v))
  {
    var r := Filed(c, s, v);
    NewTallyOk(c, s, v);
    forall id | id in r.tallies ensures TallyOk(c, r, id, r.tallies[id]) {
      if id != v.blockID { VotersStay(c, s, r, id, s.tallies[id]); }
    }
  }

  lemma FiledCanonical(c: Config, s: State, v: Vote)
    requires New(c, s, v) && Counts(s, v) && AllCanonical(s)
    requires NewTally(c, s, v).votes == TallyOf(s, v.blockID, |c.validators|).votes[v.index := Some(v)]
    ensures AllCanonical(Filed(c, s, v))
  {
    var r := Filed(c, s, v);
    forall i | 0 <= i < |r.votes| ensures CanonicalOk(r, i) { assert CanonicalOk(s, i); }
  }

  lemma FiledMajority(c: Config, s: State, v: Vote)
    requires New(c, s, v) && Counts(s, v) && TalliesOk(c, s) && MajorityOk(c, s)
    ensures MajorityOk(c, Filed(c, s, v))
  {
    NewTallyOk(c, s, v);
    if s.maj23.Some? && s.maj23.value != v.blockID { assert TallyOk(c, s, s.maj23.value, s.tallies[s.maj23.value]); }
  }

  lemma FiledPeers(c: Config, s: State, v: Vote)
    requires New(c, s, v) && PeersOk(s)
    ensures PeersOk(Filed(c, s, v))
  {
    var r := Filed(c, s, v);
    forall id | id in r.tallies && r.tallies[id].peerMaj23 ensures id in r.peers.Values {
      assert id in s.tallies && s.tallies[id].peerMaj23;
    }
  }

  lemma MapPut<K, V>(m: map<K, V>, k: K, v: V)
    ensures |m[k := v]| == if k in m then |m| else |m| + 1
  {
    assert m[k := v].Keys == m.Keys + {k};
    if k in m { assert m.Keys + {k} == m.Keys; }
  }

  lemma FiledCount(c: Config, s: State, v: Vote)
    requires New(c, s, v) && Counts(s, v) && Slots(c, s.votes, s.bits, s.sum)
    requires |s.tallies| <= Count(s.bits) + |s.peers|
    ensures |Filed(c, s, v).tallies| <= Count(Filed(c, s, v).bits) + |s.peers|
  {
    RecordedSlots(c, s, v);
    MapPut(s.tallies, v.blockID, NewTally(c, s, v));
  }

  lemma FiledBelow(c: Config, s: State, v: Vote)
    requires New(c, s, v) && MajorityNoted(c, s)
    requires s.maj23.Some? || NewTally(c, s, v).sum < Quorum(c.validators)
    ensures MajorityNoted(c, Filed(c, s, v))
  {}

  lemma FiledSlots(c: Config, s: State, v: Vote)
    requires New(c, s, v) && Slots(c, s.votes, s.bits, s.sum)
    ensures var r := Filed(c, s, v); Slots(c, r.votes, r.bits, r.sum)
  {
    RecordedSlots(c, s, v);
  }

  /** A vote in its tally leaves tallies, canonical votes and claims in order. */
  lemma FiledKeeps(c: Config, s: State, v: Vote)
    requires New(c, s, v) && Inv(c, s) && Counts(s, v)
    ensures var r := Filed(c, s, v); TalliesOk(c, r) && AllCanonical(r) && PeersOk(r) && |r.tallies| <= Count(r.bits) + |r.peers|
  {
    NewTallyOk(c, s, v);
    FiledTallies(c, s, v);
    FiledCanonical(c, s, v);
    FiledPeers(c, s, v);
    FiledCount(c, s, v);
  }

  /** Without a new majority. */
  lemma CountedKeeps(c: Config, s: State, v: Vote)
    requires New(c, s, v) && Inv(c, s) && Counts(s, v)
    requires s.maj23.Some? || NewTally(c, s, v).sum < Quorum(c.validators)
    ensures Inv(c, Filed(c, s, v))
  {
    FiledSlots(c, s, v);
    FiledKeeps(c, s, v);
    FiledMajority(c, s, v);
    FiledBelow(c, s, v);
  }

  /** Copying the votes of a tally over the canonical ones. */
  lemma OverlaySlots(c: Config, s: State, id: BlockID, t: Tally)
    requires Slots(c, s.votes, s.bits, s.sum) && TallyOk(c, s, id, t)
    ensures Slots(c, Overlay(s.votes, t.votes), s.bits, s.sum)
  {}

  lemma NotedSlots(c: Config, s: State, v: Vote)
    requires New(c, s, v) && Counts(s, v) && TalliesOk(c, s) && Slots(c, s.votes, s.bits, s.sum)
    ensures var r := Noted(c, s, v); Slots(c, r.votes, r.bits, r.sum)
  {
    RecordedSlots(c, s, v);
    NewTallyOk(c, s, v);
    OverlaySlots(c, Recorded(c, s, v), v.blockID, NewTally(c, s, v));
  }

  lemma NotedTallies(c: Config, s: State, v: Vote)
    requires New(c, s, v) && Counts(s, v) && TalliesOk(c, s)
    ensures TalliesOk(c, Noted(c, s, v))
  {
    var r := Noted(c, s, v);
    FiledTallies(c, s, v);
    forall id | id in r.tallies ensures TallyOk(c, r, id, r.tallies[id]) {
      VotersStay(c, Filed(c, s, v), r, id, r.tallies[id]);
    }
  }

  lemma NotedCanonical(c: Config, s: State, v: Vote)
    requires New(c, s, v) && AllCanonical(Filed(c, s, v)) && s.maj23.None?
    requires TallyOk(c, Recorded(c, s, v), v.blockID, NewTally(c, s, v))
    ensures AllCanonical(Noted(c, s, v))
  {
    var f, r := Filed(c, s, v), Noted(c, s, v);
    forall i | 0 <= i < |r.votes| ensures CanonicalOk(r, i) { assert CanonicalOk(f, i); }
  }

  /** The first vote that completes a quorum. */
  lemma MajorityKeeps(c: Config, s: State, v: Vote)
    requires New(c, s, v) && Inv(c, s) && Counts(s, v)
    requires s.maj23.None? && Quorum(c.validators) <= NewTally(c, s, v).sum
    ensures Inv(c, Noted(c, s, v))
  {
    NotedSlots(c, s, v);
    NotedTallies(c, s, v);
    NewTallyOk(c, s, v);
    FiledKeeps(c, s, v);
    NotedCanonical(c, s, v);
  }

  lemma AddVerifiedKeeps(c: Config, s: State, v: Vote)
    requires New(c, s, v) && Inv(c, s)
    ensures Inv(c, AddVerified(c, s, v))
  {
    if !Counts(s, v) {
      UncountedKeeps(c, s, v);
    } else if s.maj23.Some? || NewTally(c, s, v).sum < Quorum(c.validators) {
      CountedKeeps(c, s, v);
    } else {
      if v.blockID !in s.tallies { EmptySlots(c, false); }
      MajorityKeeps(c, s, v);
    }
  }

  // ---- Runs ----

  /** A vote that passes verifies and is not known yet. */
  lemma ScreenPasses(c: Config, s: State, vote: Option<Vote>)
    requires Members(c.validators) && Shaped(c, s)
    ensures Screen(c, s, vote).None? <==> vote.Some? && New(c, s, vote.value)
  {}

  lemma AddVoteKeeps(c: Config, s: State, vote: Option<Vote>)
    requires Members(c.validators) && Inv(c, s) && Shaped(c, s)
    ensures Inv(c, AddVote(c, s, vote).0)
  {
    if Screen(c, s, vote).None? {
      ScreenPasses(c, s, vote);
      AddVerifiedKeeps(c, s, vote.value);
    }
  }

  lemma SetPeerKeeps(c: Config, s: State, peer: PeerID, id: BlockID)
    requires Members(c.validators) && Inv(c, s) && Shaped(c, s)
    ensures Inv(c, SetPeerMaj23(c, s, peer, id).0)
  {
    if peer !in s.peers {
      PeerTallies(c, s, peer, id);
      PeerPeers(c, s, peer, id);
      PeerMajority(c, s, peer, id);
      PeerCount(c, s, peer, id);
    }
  }

  lemma PeerTallies(c: Config, s: State, peer: PeerID, id: BlockID)
    requires Members(c.validators) && TalliesOk(c, s) && Shaped(c, s)
    ensures TalliesOk(c, Claimed(c, s, peer, id))
  {
    EmptySlots(c, true);
    var r := Claimed(c, s, peer, id);
    forall other | other in r.tallies ensures TallyOk(c, r, other, r.tallies[other]) {
      if other in s.tallies { assert TallyOk(c, s, other, s.tallies[other]); }
    }
  }

  lemma PeerPeers(c: Config, s: State, peer: PeerID, id: BlockID)
    requires PeersOk(s) && peer !in s.peers
    ensures PeersOk(Claimed(c, s, peer, id))
  {
    var r := Claimed(c, s, peer, id);
    forall other | other in r.tallies && r.tallies[other].peerMaj23 ensures other in r.peers.Values {
      if other == id {
        assert peer in r.peers && r.peers[peer] == id;
      } else {
        assert other in s.peers.Values;
        var p :| p in s.peers && s.peers[p] == other;
        assert p in r.peers && r.peers[p] == other;
      }
    }
  }

  lemma PeerMajority(c: Config, s: State, peer: PeerID, id: BlockID)
    requires Members(c.validators) && MajorityOk(c, s) && MajorityNoted(c, s) && AllCanonical(s)
    ensures var r := Claimed(c, s, peer, id); MajorityOk(c, r) && MajorityNoted(c, r) && AllCanonical(r)
  {
    EmptySlots(c, true);
    var r := Claimed(c, s, peer, id);
    forall i | 0 <= i < |r.votes| ensures CanonicalOk(r, i) { assert CanonicalOk(s, i); }
  }

  lemma PeerCount(c: Config, s: State, peer: PeerID, id: BlockID)
    requires peer !in s.peers && |s.tallies| <= Count(s.bits) + |s.peers|
    ensures var r := Claimed(c, s, peer, id); |r.tallies| <= Count(r.bits) + |r.peers|
  {
    MapPut(s.tallies, id, PeerTally(c, s, id));
    MapPut(s.peers, peer, id);
  }

  datatype Operation = AddingVote(vote: Option<Vote>) | PeerClaim(peer: PeerID, id: BlockID)

  ghost function Apply(c: Config, s: State, op: Operation): (r: State)
    requires Shaped(c, s)
    ensures Shaped(c, r)
  {
    match op
    case AddingVote(vote) => AddVote(c, s, vote).0
    case PeerClaim(peer, id) => SetPeerMaj23(c, s, peer, id).0
  }

  lemma ApplyKeeps(c: Config, s: State, op: Operation)
    requires Members(c.validators) && Inv(c, s) && Shaped(c, s)
    ensures Inv(c, Apply(c, s, op))
  {
    match op {
      case AddingVote(vote) => AddVoteKeeps(c, s, vote);
      case PeerClaim(peer, id) => SetPeerKeeps(c, s, peer, id);
    }
  }

  /** The state after a run of operations on an empty vote set. */
  ghost function After(c: Config, ops: seq<Operation>): (s: State)
    ensures Shaped(c, s)
  {
    if |ops| == 0 then Initial(|c.validators|) else Apply(c, After(c, ops[..|ops| - 1]), ops[|ops| - 1])
  }

  /** The invariant holds after every run. */
  lemma {:induction false} RunsKeepInv(c: Config, ops: seq<Operation>)
    requires Members(c.validators)
    ensures Inv(c, After(c, ops))
  {
    if |ops| == 0 {
      InitialInv(c);
    } else {
      RunsKeepInv(c, ops[..|ops| - 1]);
      ApplyKeeps(c, After(c, ops[..|ops| - 1]), ops[|ops| - 1]);
    }
  }

  /** The majority, once found, is the majority for the rest of the run. */
  lemma {:induction false} MajorityIsFinal(c: Config, ops: seq<Operation>, more: seq<Operation>)
    requires After(c, ops).maj23.Some?
    ensures After(c, ops + more).maj23 == After(c, ops).maj23
    decreases |more|
  {
    if |more| == 0 {
      assert ops + more == ops;
    } else {
      var n := |more| - 1;
      MajorityIsFinal(c, ops, more[..n]);
      assert (ops + more)[..|ops + more| - 1] == ops + more[..n];
    }
  }

  /** At every point of a run there is a majority exactly when the votes
      recorded for some block hold more than two thirds of the power, and memory
      is bounded by the voters and the peers. */
  lemma MajorityIsExact(c: Config, ops: seq<Operation>)
    requires Members(c.validators)
    ensures var s := After(c, ops);
      s.maj23.Some? <==> exists id :: id in s.tallies && 3 * s.tallies[id].sum > 2 * Total(c.validators)
    ensures var s := After(c, ops); |s.tallies| <= Count(s.bits) + |s.peers|
  {
    RunsKeepInv(c, ops);
    var s := After(c, ops);
    if s.maj23.Some? { assert s.maj23.value in s.tallies; }
  }

  // ---- What the results mean ----

  /** A conflict is evidence: two verified votes of one validator for two
      blocks. */
  lemma ConflictIsEvidence(c: Config, s: State, vote: Option<Vote>)
    requires Members(c.validators) && Inv(c, s) && Shaped(c, s)
    ensures var r := AddVote(c, s, vote).1;
      r.Conflict? ==> r.existing.blockID != r.vote.blockID && r.existing.index == r.vote.index
                      && Verified(c, r.existing) && Verified(c, r.vote)
  {}

  /** The vote is recorded in the tally of its block. */
  ghost predicate InTally(s: State, id: BlockID, i: nat) {
    id in s.tallies && i < |s.tallies[id].votes| && s.tallies[id].votes[i].Some?
  }

  /** What becomes of a verified vote of a validator that has a canonical vote
      for another block: it is always reported as a conflict, and it counts for
      its block exactly when some peer has named that block. The canonical vote
      changes only in favour of the majority. */
  lemma ConflictingVote(c: Config, ops: seq<Operation>, v: Vote)
    requires Members(c.validators) && Verified(c, v)
    requires After(c, ops).votes[v.index].Some? && After(c, ops).votes[v.index].value.blockID != v.blockID
    requires !InTally(After(c, ops), v.blockID, v.index)
    ensures var s := After(c, ops);
      var (r, outcome) := AddVote(c, s, Some(v));
      && outcome == Conflict(v.blockID in s.peers.Values, s.votes[v.index].value, v)
      && (outcome.added ==> v.blockID in r.tallies && r.tallies[v.blockID].votes[v.index] == Some(v))
      && (!outcome.added ==> r.tallies == s.tallies)
      && r.votes[v.index] == if r.maj23 == Some(v.blockID) then Some(v) else s.votes[v.index]
  {
    var s := After(c, ops);
    RunsKeepInv(c, ops);
    ConflictAt(c, s, v);
  }

  lemma ConflictAt(c: Config, s: State, v: Vote)
    requires Members(c.validators) && Inv(c, s) && Shaped(c, s) && Verified(c, v)
    requires s.votes[v.index].Some? && s.votes[v.index].value.blockID != v.blockID && !InTally(s, v.blockID, v.index)
    ensures var (r, outcome) := AddVote(c, s, Some(v));
      && outcome == Conflict(v.blockID in s.peers.Values, s.votes[v.index].value, v)
      && (outcome.added ==> v.blockID in r.tallies && r.tallies[v.blockID].votes[v.index] == Some(v))
      && (!outcome.added ==> r.tallies == s.tallies)
      && r.votes[v.index] == if r.maj23 == Some(v.blockID) then Some(v) else s.votes[v.index]
  {
    NamedIff(s, v.blockID);
    ConflictCounted(c, s, v);
  }

  lemma ConflictCounted(c: Config, s: State, v: Vote)
    requires New(c, s, v) && TalliesOk(c, s) && s.votes[v.index].Some?
    ensures var r := AddVerified(c, s, v);
      && (Counts(s, v) ==> v.blockID in r.tallies && r.tallies[v.blockID].votes[v.index] == Some(v))
      && (!Counts(s, v) ==> r.tallies == s.tallies)
      && r.votes[v.index] == if r.maj23 == Some(v.blockID) then Some(v) else s.votes[v.index]
  {
    if Counts(s, v) { NewTallyOk(c, s, v); }
  }

  /** Being named by a peer is what the flag of a tally says. */
  lemma NamedIff(s: State, id: BlockID)
    requires PeersOk(s)
    ensures id in s.peers.Values <==> id in s.tallies && s.tallies[id].peerMaj23
  {
    if id in s.peers.Values { var p :| p in s.peers && s.peers[p] == id; }
  }

  /** The first vote of a validator is added, becomes its canonical one and
      counts for its block. */
  lemma FirstVote(c: Config, ops: seq<Operation>, v: Vote)
    requires Members(c.validators) && Verified(c, v) && After(c, ops).votes[v.index].None?
    ensures var (r, outcome) := AddVote(c, After(c, ops), Some(v));
      outcome == Added && r.votes[v.index] == Some(v) && InTally(r, v.blockID, v.index) && r.tallies[v.blockID].votes[v.index] == Some(v)
  {
    var s := After(c, ops);
    RunsKeepInv(c, ops);
    if v.blockID in s.tallies { assert TallyOk(c, s, v.blockID, s.tallies[v.blockID]); }
    assert New(c, s, v);
    NewTallyOk(c, s, v);
  }

  /** A peer names one block, once: a second claim changes nothing and succeeds
      exactly when it repeats the first. */
  lemma ClaimIff(c: Config, s: State, peer: PeerID, id: BlockID)
    ensures var (r, ok) := SetPeerMaj23(c, s, peer, id);
      && (ok <==> peer !in s.peers || s.peers[peer] == id)
      && (peer in s.peers ==> r == s)
      && (peer !in s.peers ==> r.peers == s.peers[peer := id] && id in r.tallies && r.tallies[id].peerMaj23)
      && r.votes == s.votes && r.maj23 == s.maj23
  {}

  // ---- A majority is found despite conflicting votes ----

  /** Recorded for the block, or no longer needed. */
  ghost predicate Secured(s: State, id: BlockID, i: nat) {
    s.maj23.Some? || InTally(s, id, i)
  }

  /** Recording a vote loses no recorded vote and no majority. */
  lemma AddingLosesNothing(c: Config, s: State, v: Vote, id: BlockID, i: nat)
    requires Shaped(c, s) && 0 <= v.index < |c.validators| && Secured(s, id, i)
    ensures Secured(AddVerified(c, s, v), id, i)
  {}

  /** Operations lose no claim, no recorded vote and no majority. */
  lemma OperationKeepsClaims(c: Config, s: State, op: Operation, id: BlockID)
    requires Shaped(c, s) && id in s.peers.Values
    ensures id in Apply(c, s, op).peers.Values
  {
    var r := Apply(c, s, op);
    var p :| p in s.peers && s.peers[p] == id;
    assert p in r.peers && r.peers[p] == id;
  }

  lemma OperationKeepsSecured(c: Config, s: State, op: Operation, id: BlockID, i: nat)
    requires Shaped(c, s) && Secured(s, id, i)
    ensures Secured(Apply(c, s, op), id, i)
  {
    match op {
      case AddingVote(vote) =>
        if Screen(c, s, vote).None? { AddingLosesNothing(c, s, vote.value, id, i); }
      case PeerClaim(peer, other) =>
    }
  }

  /** Once a peer has named the block, a verified vote for it is recorded, unless
      the majority is found already. */
  lemma NamedVoteSecured(c: Config, s: State, v: Vote)
    requires Members(c.validators) && Inv(c, s) && Shaped(c, s) && Verified(c, v) && v.blockID in s.peers.Values
    ensures Secured(AddVote(c, s, Some(v)).0, v.blockID, v.index)
  {
    NamedIff(s, v.blockID);
    ScreenPasses(c, s, Some(v));
    if Known(s, v.index, v.blockID).None? {
      NewTallyOk(c, s, v);
    } else {
      assert CanonicalOk(s, v.index);
    }
  }

  /** A verified vote of validator i for the block among the operations. */
  ghost predicate VotedIn(c: Config, ops: seq<Operation>, id: BlockID, i: nat) {
    exists k :: 0 <= k < |ops| && IsVote(c, ops[k], id, i)
  }

  predicate IsVote(c: Config, op: Operation, id: BlockID, i: nat) {
    op.AddingVote? && op.vote.Some? && Verified(c, op.vote.value) && op.vote.value.blockID == id && op.vote.value.index == i
  }

  lemma OperationSecures(c: Config, s: State, op: Operation, id: BlockID, i: nat)
    requires Members(c.validators) && Inv(c, s) && Shaped(c, s) && id in s.peers.Values
    ensures id in Apply(c, s, op).peers.Values
    ensures Secured(s, id, i) || IsVote(c, op, id, i) ==> Secured(Apply(c, s, op), id, i)
  {
    OperationKeepsClaims(c, s, op, id);
    if Secured(s, id, i) {
      OperationKeepsSecured(c, s, op, id, i);
    } else if IsVote(c, op, id, i) {
      NamedVoteSecured(c, s, op.vote.value);
    }
  }

  lemma LastSecures(c: Config, ops: seq<Operation>, id: BlockID, i: nat)
    requires Members(c.validators) && |ops| > 0 && id in After(c, ops[..|ops| - 1]).peers.Values
    ensures id in After(c, ops).peers.Values
    ensures Secured(After(c, ops[..|ops| - 1]), id, i) || IsVote(c, ops[|ops| - 1], id, i) ==> Secured(After(c, ops), id, i)
  {
    RunsKeepInv(c, ops[..|ops| - 1]);
    OperationSecures(c, After(c, ops[..|ops| - 1]), ops[|ops| - 1], id, i);
  }

  /** The claim, and the vote once it is recorded, stay for the rest of the run. */
  lemma {:induction false} VotesSecured(c: Config, ops: seq<Operation>, more: seq<Operation>, id: BlockID, i: nat)
    requires Members(c.validators) && id in After(c, ops).peers.Values
    ensures id in After(c, ops + more).peers.Values
    ensures Secured(After(c, ops), id, i) || VotedIn(c, more, id, i) ==> Secured(After(c, ops + more), id, i)
    decreases |more|
  {
    if |more| == 0 {
      assert ops + more == ops;
    } else {
      var n := |more| - 1;
      VotesSecured(c, ops, more[..n], id, i);
      Unsplit(ops, more);
      LastSecures(c, ops + more, id, i);
      VotedLast(c, more, id, i);
    }
  }

  lemma Unsplit<T>(a: seq<T>, b: seq<T>)
    requires |b| > 0
    ensures (a + b)[..|a + b| - 1] == a + b[..|b| - 1] && (a + b)[|a + b| - 1] == b[|b| - 1]
  {}

  lemma VotedLast(c: Config, ops: seq<Operation>, id: BlockID, i: nat)
    requires |ops| > 0
    ensures VotedIn(c, ops, id, i) ==> VotedIn(c, ops[..|ops| - 1], id, i) || IsVote(c, ops[|ops| - 1], id, i)
  {
    if VotedIn(c, ops, id, i) {
      var k :| 0 <= k < |ops| && IsVote(c, ops[k], id, i);
      if k < |ops| - 1 { assert ops[..|ops| - 1][k] == ops[k]; }
    }
  }

  /** Once a peer has named a block, votes for it with more than two thirds of
      the power make a majority exist, whatever else the voters voted for and in
      whatever order. Votes recorded before count with those that come after. */
  lemma NamedMajorityIsFound(c: Config, ops: seq<Operation>, more: seq<Operation>, id: BlockID, voters: seq<bool>)
    requires Members(c.validators) && id in After(c, ops).peers.Values && |voters| == |c.validators|
    requires 3 * MaskSum(voters, Powers(c.validators)) > 2 * Total(c.validators)
    requires forall i :: 0 <= i < |voters| && voters[i] ==> InTally(After(c, ops), id, i) || VotedIn(c, more, id, i)
    ensures After(c, ops + more).maj23.Some?
  {
    var s := After(c, ops + more);
    RunsKeepInv(c, ops + more);
    forall i | 0 <= i < |voters| && voters[i] ensures Secured(s, id, i) {
      VotesSecured(c, ops, more, id, i);
    }
    SecuredIsMajority(c, s, id, voters);
  }

  lemma SecuredIsMajority(c: Config, s: State, id: BlockID, voters: seq<bool>)
    requires Members(c.validators) && TalliesOk(c, s) && MajorityNoted(c, s) && |voters| == |c.validators|
    requires 3 * MaskSum(voters, Powers(c.validators)) > 2 * Total(c.validators)
    requires forall i :: 0 <= i < |voters| && voters[i] ==> Secured(s, id, i)
    ensures s.maj23.Some?
  {
    var _ := SomeVoter(voters, Powers(c.validators));
    if s.maj23.None? {
      var t := s.tallies[id];
      assert TallyOk(c, s, id, t);
      assert forall i :: 0 <= i < |voters| && voters[i] ==> t.bits[i];
      MaskSumSubset(voters, t.bits, Powers(c.validators));
    }
  }

  lemma SomeVoter(voters: seq<bool>, powers: seq<int>) returns (i: nat)
    requires |voters| == |powers| && 3 * MaskSum(voters, powers) > 2 * Sum(powers) && forall j :: 0 <= j < |powers| ==> 0 <= powers[j]
    ensures i < |voters| && voters[i]
  {
    SumAtLeast(powers, 0);
    i := 0;
    while i < |voters| && !voters[i]
      invariant i <= |voters| && forall j :: 0 <= j < i ==> !voters[j]
    {
      i := i + 1;
    }
    if i == |voters| { SumAtMost(Masked(voters, powers), 0); }
  }

  /** The set holds this vote of validator i for the block, as the canonical one
      or in the tally of the block. */
  ghost predicate Holds(s: State, i: nat, id: BlockID, w: Vote)
    requires i < |s.votes|
  {
    w.blockID == id && (s.votes[i] == Some(w) || (id in s.tallies && i < |s.tallies[id].votes| && s.tallies[id].votes[i] == Some(w)))
  }

  /** A well placed vote is a duplicate exactly when the set holds the validator's
      vote for that block with the same signature, and is refused for its
      signature alone exactly when it holds one with another. */
  lemma KnownIff(c: Config, ops: seq<Operation>, v: Vote)
    requires Members(c.validators)
    requires v.height == c.height && v.round == c.round && v.kind == c.kind && v.address != []
    requires 0 <= v.index < |c.validators| && v.address == c.validators[v.index].address
    ensures var s := After(c, ops);
      var outcome := AddVote(c, s, Some(v)).1;
      && (outcome == Duplicate <==> exists w :: Holds(s, v.index, v.blockID, w) && w.signature == v.signature)
      && (outcome == Rejected(NonDeterministicSignature) <==> exists w :: Holds(s, v.index, v.blockID, w) && w.signature != v.signature)
  {
    RunsKeepInv(c, ops);
    KnownAt(c, After(c, ops), v);
  }

  lemma KnownAt(c: Config, s: State, v: Vote)
    requires Members(c.validators) && Inv(c, s) && Shaped(c, s)
    requires v.height == c.height && v.round == c.round && v.kind == c.kind && v.address != []
    requires 0 <= v.index < |c.validators| && v.address == c.validators[v.index].address
    ensures var outcome := AddVote(c, s, Some(v)).1;
      && (outcome == Duplicate <==> exists w :: Holds(s, v.index, v.blockID, w) && w.signature == v.signature)
      && (outcome == Rejected(NonDeterministicSignature) <==> exists w :: Holds(s, v.index, v.blockID, w) && w.signature != v.signature)
  {
    forall w | Holds(s, v.index, v.blockID, w) ensures Known(s, v.index, v.blockID) == Some(w) { HeldIsKnown(c, s, v.index, v.blockID, w); }
    KnownIsHeld(c, s, v.index, v.blockID);
  }

  lemma KnownIsHeld(c: Config, s: State, i: nat, id: BlockID)
    requires TalliesOk(c, s) && Shaped(c, s) && i < |s.votes|
    ensures Known(s, i, id).Some? ==> Holds(s, i, id, Known(s, i, id).value)
  {
    if id in s.tallies { assert TallyOk(c, s, id, s.tallies[id]); }
  }

  /** The two places that may hold a vote never disagree. */
  lemma HeldIsKnown(c: Config, s: State, i: nat, id: BlockID, w: Vote)
    requires AllCanonical(s) && MajorityOk(c, s) && Shaped(c, s) && i < |s.votes| && Holds(s, i, id, w)
    ensures Known(s, i, id) == Some(w)
  {
    assert CanonicalOk(s, i);
  }

  /** A vote is turned away unchanged exactly when it does not verify for its
      place, or the same validator's vote for that block is known. */
  lemma RejectedIff(c: Config, s: State, vote: Option<Vote>)
    requires Members(c.validators) && Inv(c, s) && Shaped(c, s)
    ensures var r := AddVote(c, s, vote).1;
      r.Rejected? || r.Duplicate? <==>
      (vote.None? || !Verified(c, vote.value) || Known(s, vote.value.index, vote.value.blockID).Some?)
    ensures var (r, outcome) := AddVote(c, s, vote); outcome.Rejected? || outcome.Duplicate? ==> r == s
  {}

  /** Two vote sets of one height, round and type that find majorities for two
      blocks: validators with more than a third of the power signed both. */
  lemma MajoritiesOverlap(c: Config, s: State, r: State) returns (both: seq<bool>)
    requires Members(c.validators) && Inv(c, s) && Inv(c, r)
    requires s.maj23.Some? && r.maj23.Some? && s.maj23 != r.maj23
    ensures |both| == |c.validators| == |s.votes| == |r.votes| && 3 * MaskSum(both, Powers(c.validators)) > Total(c.validators)
    ensures forall i :: 0 <= i < |both| && both[i] ==>
      && s.votes[i].Some? && r.votes[i].Some?
      && s.votes[i].value.blockID == s.maj23.value && r.votes[i].value.blockID == r.maj23.value
      && Verified(c, s.votes[i].value) && Verified(c, r.votes[i].value)
  {
    var a := MajorityVoters(c, s);
    var b := MajorityVoters(c, r);
    both := seq(|c.validators|, i requires 0 <= i < |c.validators| => a[i] && b[i]);
    MaskSumOverlap(a, b, both, Powers(c.validators));
  }

  lemma MajorityVoters(c: Config, s: State) returns (bits: seq<bool>)
    requires Inv(c, s) && s.maj23.Some?
    ensures |bits| == |c.validators| == |s.votes| && MaskSum(bits, Powers(c.validators)) >= Quorum(c.validators)
    ensures forall i :: 0 <= i < |bits| && bits[i] ==>
      s.votes[i].Some? && s.votes[i].value.blockID == s.maj23.value && Verified(c, s.votes[i].value)
  {
    var t := s.tallies[s.maj23.value];
    assert TallyOk(c, s, s.maj23.value, t);
    bits := t.bits;
  }
}
