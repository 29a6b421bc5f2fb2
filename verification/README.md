# A verified model of the consensus core of a Tendermint/Celestia node

The project models, in Dafny, the parts of the node on which its safety rests,
and proves what their documentation promises: the weighted proposer rotation and
validator-set updates, vote collection and commits, commit verification and the
light client, accountability for forks, Merkle trees, proofs and block parts, the
layout of block data over the shares of a square, the crash-safe signer, the
replay of blocks after a crash, and the encrypted framing of the signer's
connection.

`dafny verify dfyconfig.toml` checks the whole project.

## How the model is built

- What the source updates in place is a class whose methods update the same
  fields with the same loops (`ValidatorSet`, `VoteSet`, `PartSet`,
  `PartSetReader`, `ProofNode`, `ShareStack`, `FilePV`, `Node`, `Direction`).
  Each method is proved against a specification function or predicate on values,
  and the invariants and theorems are proved about those values, so that they
  hold over whole runs.
- Go's `int64` is modelled by unbounded integers. The totals of updates carry
  explicit range conditions (`Add64`, `Sub64`), guarded operations their clip
  branches (`SafeAddClip`, `SafeSubClip`), and what can wrap does (`Wrap64`,
  `Div64`, `Cast`, `PartCount32`, `SquareIn32`, the product of
  `ValidateTrustLevel`). Vote tallies are proved to be sums over distinct
  validators, hence at most the total power. `nextHighestPowerOf2` works on 32-bit
  vectors.
- Panics are outcomes or dead branches. A dead branch is an `assert false` that
  the verifier proves unreachable; an outcome is reported by the method, whose
  contract says when it happens.
- Signatures, hashes, encodings, the cipher and the application are function
  parameters. The laws used of them are named predicates: `DigestSized`,
  `SoundVerifier`, `SoundClient`, `Lawful`, `Answers`. Soundness of Merkle proofs does
  not assume collision resistance; instead the lemmas return a collision.

## Where the code differs from what is expected of it

- Part sets: a part is checked against the root, but neither the index nor the
  total of its proof is compared with anything, so a chunk is accepted at a
  position that is not its own (`MisplacedPartAccepted`), even when the index of
  the proof is that position (`WrongTotalAccepted`). The leaf that a proof speaks
  about is a function of its index and total and the number of parts (`Landing`).
  An accepted part is right exactly when that leaf is its position or has an equal
  chunk (`AcceptedPartRightIff`), and a delivery of parts that pass this test gives
  the data (`DeliveryReassembles`, `Reassemble`).
- Batch verification is documented as equivalent to single verification. It
  accepts a commit exactly when single verification does and every signer met
  before the scan stops has a key of the proposer's type (`BatchIff`);
  `MixedKeysRefused` is a commit that only single verification accepts.
- Share layout: an empty item is written as a zero length and reads as padding, so
  it and everything after it is lost. `ContiguousRoundTrip` and `SquareRoundTrip`
  state exactly when the data comes back.
- Order of the square: a message of the largest namespace sorts after the tail
  padding, and one below a reserved namespace sorts before that section
  (`ZeroNamespaceBreaksOrder`). `SquareOrdered` is the exact condition.
- The reserved byte of a share names the first item that begins in it exactly when
  no item begins at the very start of the share (`ReservedByteIff`); otherwise it
  names the second (`TwoItemShare`).
- Replay panics at genesis exactly when the application answers InitChain without
  an application hash and the genesis document has one (`ReplayBlocks`).
- Change lists: an empty address equals the initial previous address of the scan
  and is reported as a duplicate (`WellFormedChanges`).
- `ValidateTrustLevel` documents the range [1/3, 1]. It refuses 1, and it refuses
  levels of the range whose tripled numerator wraps, unless the wrapped value still
  exceeds the denominator (`TrustLevelIff`, `WrappedLevels`). For valid levels the
  share asked for is at least a third of the power exactly when the casts to
  `int64` do not make it negative (`ShareOfThird`, `NegativeShareIff`,
  `NegativeShareAcceptsStrangers`).
- `safeMul` reports an overflow exactly when the product or its negation does not
  fit, but never for the smallest first factor (`SafeMulIsExact`).
- Data of more than 2^32 bytes less one part gets too few parts
  (`PartSet.FromData`), and more than 2^30 shares are padded to none (`PaddedLen`).
- Rescaling is exact exactly when the spread is within the window or the guard
  `diff + diffMax - 1` fits an `int64` (`RescalesExactlyIff`). Beyond that,
  priorities can be turned around (`RescalingTurnsAround`) or left as they are
  (`FarthestNotRescaled`).
- `VerifyNonAdjacent` and `VerifyAdjacent` document that the trusted header can
  still be trusted. They test the age of the new header only, so a block verifies
  against an expired one (`ExpiredTrustIsAccepted`).
- `schedule` falls back behind the verified height for gaps whose product wraps
  (`ScheduleIff`, `ScheduleFallsBack`); verification then ends with an error.

## Model

| member | source | states |
|---|---|---|
| ProposerPriority.RescaledSpread | types/validator_set.go:143-164 | rescaling by the truncating ratio brings the spread of priorities into the window and enlarges none of them |
| ProposerPriority.WindowKeepsDifferences | types/validator_set.go:143-164 | a spread of up to twice the total is left alone: centring keeps every difference of two priorities |
| ProposerPriority.RescalingKeepsHalf | types/validator_set.go:143-164 | rescaling a spread beyond an even window leaves at least half of the window, less one, between the extremes |
| ProposerPriority.CentredSum | types/validator_set.go:181-234 | subtracting the floor average leaves the sum of the priorities in [0, n) |
| ProposerPriority.NormalizedBounds | types/validator_set.go:116-138 | after rescaling and centring the spread is at most 2T, the sum is in [0, n) and every priority in [-2T, 2T] |
| ProposerPriority.NormalizedIsExact | types/validator_set.go:143-234 | if the guard fits an int64, rescaling and centring in 64 bits neither wrap nor clip |
| ProposerPriority.RescalesExactlyIff | types/validator_set.go:143-164 | for every spread of 64-bit priorities and every window, branch and ratio are the exact ones if and only if the spread is within the window or `diff + diffMax - 1` fits |
| ProposerPriority.FarthestNotRescaled | types/validator_set.go:197-216 | two validators as far apart as can be: the difference wraps to one and nothing is rescaled |
| ProposerPriority.RescalingTurnsAround | types/validator_set.go:143-164 | two validators half as far apart: the priorities change sign |
| ProposerPriority.Ratio64Sign | types/validator_set.go:158-163 | the 64-bit ratio is the ceiling where the sum fits and not positive where it wraps; exactly when it is zero |
| ProposerPriority.StepIsExact | types/validator_set.go:166-178 | with room below MaxInt64 the clipping step is the exact step: everybody gains its power, the elected pays the total |
| ProposerPriority.ElectedIsPositive | types/validator_set.go:166-178 | whoever is elected has positive priority before paying, so paying cannot clip |
| ProposerFairness.RunConserves | types/validator_set.go:116-178 | every step of a run keeps the sum of the priorities and the lower bound |
| ProposerFairness.SelectionCount | types/validator_set.go:116-178 | elections times T equal steps times power plus the priority drawn down, exactly |
| ProposerFairness.ClimbIsLogarithmic | types/validator_set.go:116-178 | however many steps are taken, no priority exceeds T times (1 + the n-th harmonic number) |
| ProposerFairness.ClimbIsLinear | types/validator_set.go:116-178 | no priority gains more than T per step |
| ProposerFairness.RunIsExact | types/validator_set.go:116-178 | no clip branch is taken in any step when (times + 2) T, or T (2 + harmonic number), fits an int64 |
| ProposerFairness.FewNeverClip | types/validator_set.go:17-31 | up to two hundred validators of any power, no clip branch is taken in any number of steps |
| ProposerFairness.RunStaysCentred | types/validator_set.go:116-178 | along a whole run the sum stays in [0, n) and no priority falls below -2T |
| ProposerFairness.RotationIsFair | types/validator_set.go:116-178 | each validator is elected in proportion to its power: at most 4 elections more, and behind by at most 3 + the harmonic number |
| ChangeProcessing.ProcessChanges | types/validator_set.go:373-407 | accepts exactly the lists with distinct, non-empty addresses and powers in [0, Max], and splits them into sorted updates and removals |
| ChangeVerification.VerifyRemovals | types/validator_set.go:538-552 | succeeds exactly when every removal is present; returns the power removed; the panic is unreachable |
| ChangeVerification.NumNewValidators | types/validator_set.go:453-461 | is zero exactly when every update is of a present address |
| ChangeVerification.VerifyUpdates | types/validator_set.go:424-451 | the delta-sorted running check fails exactly when the final total exceeds the maximum |
| ChangeVerification.EmptyResult | types/validator_set.go:587-637 | the emptiness test on counts is exact |
| ChangeMerge.ComputeNewPriorities | types/validator_set.go:474-493 | known validators keep their priority; newcomers get the updated total times -1.125, rounded towards zero, stated as a range of width 7/8; without overflow |
| ChangeMerge.ApplyUpdates | types/validator_set.go:499-534 | the merge holds exactly the updates and the untouched old validators, sorted by address |
| ChangeMerge.ApplyRemovals | types/validator_set.go:557-581 | exactly the listed addresses disappear and the result fills its buffer |
| ValidatorUpdates.CheckChanges | types/validator_set.go:587-626 | all checks together accept exactly the change lists of `Accepts` |
| ValidatorUpdates.MergeChanges | types/validator_set.go:587-637 | the merged list is a permutation of the reference list |
| ValidatorChanges.AppliedMembers | types/validator_set.go:587-637 | the reference list: changed validators with power, and old ones whose address is untouched |
| ValidatorChanges.AppliedTotal | types/validator_set.go:424-451 | the power after a change list is the old one plus the sum of the deltas |
| ValidatorPowers.ChangedPowers | types/validator_set.go:587-637 | as a map from address to power the new set is the old one overridden by the changes and pruned |
| ValidatorRuns.UpdatedFits | types/validator_set.go:587-637 | an accepted merge has distinct members with power, and priorities in the range of the old ones where that holds a newcomer; for sets in use [-2.25 Max, 3.75 Max], so rescaling it cannot overflow |
| ValidatorRuns.MergedPriorities | types/validator_set.go:474-493 | of every accepted change: in the merged list an old address has its old priority, and a newcomer one that is -1.125 times the old total plus the power differences of the updates, rounded |
| ValidatorRuns.ChangedOrder | types/validator_set.go:628-637 | a changed set goes down in power, and among equals up in address |
| ValidatorRuns.RunStaysSettled | types/validator_set.go:116-138 | a rotation run for which there is room ends in the window that leaves room for the next operation |
| ValidatorRuns.OperationKeepsSettled | types/validator_set.go:116-138 | updates, and rotations for which there is room, keep the invariant of sets in use |
| ValidatorRuns.OperationKeepsSane | types/validator_set.go:116-138 | all operations, with room or without, keep distinct members with power, 64-bit numbers and the order by power |
| ValidatorRuns.OperationIsTight | types/validator_set.go:116-138 | updates and single rotations leave every priority in [-2T, 3T] |
| ValidatorRuns.RunsStaySettled | types/validator_set.go:17-31 | every state of every run of updates and rotations keeps it as long as the rotations have room, and those take exact steps only |
| ValidatorRuns.RunsOfFewStaySettled | types/validator_set.go:17-31 | with at most eight validators every state of every run keeps it, whatever the numbers of steps |
| ValidatorRuns.RotationOfFewIsExact | types/validator_set.go:17-31 | with at most two hundred validators every rotation from a set in use takes exact steps only, whatever their number |
| ValidatorSets.ValidatorSet.New | types/validator_set.go:70-80 | panics exactly on lists that are not acceptable; otherwise the set is the accepted update rotated once |
| ValidatorSets.ValidatorSet.UpdateTotalVotingPower | types/validator_set.go:298-312 | the clipped sum is the exact total; the panic is unreachable |
| ValidatorSets.ValidatorSet.TotalVotingPower | types/validator_set.go:316-321 | the cache is the total |
| ValidatorSets.ValidatorSet.ComputeMaxMinPriorityDiff | types/validator_set.go:197-216 | the loop finds the extremes; their difference wraps and loses its sign as in the source |
| ValidatorSets.ValidatorSet.RescalePriorities | types/validator_set.go:143-164 | for every window the in-place loop divides every priority by the 64-bit ratio; panics exactly when that is zero, before anything changes |
| ValidatorSets.ValidatorSet.ComputeAvgProposerPriority | types/validator_set.go:181-194 | is the floor average; its panic cannot happen |
| ValidatorSets.ValidatorSet.ShiftByAvgProposerPriority | types/validator_set.go:226-234 | the in-place loop subtracts the average from every priority, clipping |
| ValidatorSets.ValidatorSet.GetValWithMostPriority | types/validator_set.go:218-224 | nobody has a higher priority, and whoever has the same has a larger address; the panic on identical validators is dead |
| ValidatorSets.ValidatorSet.IncrementOnce | types/validator_set.go:166-178 | is one code step and keeps members and total |
| ValidatorSets.ValidatorSet.IncrementProposerPriority | types/validator_set.go:116-138 | from any priorities performs a run of code steps on the list normalized in 64 bits and sets the proposer; where the guard fits and there is room, always for one step, the set is settled afterwards |
| ValidatorSets.ValidatorSet.UpdateWithChangeSet | types/validator_set.go:587-637 | from any priorities succeeds exactly on acceptable lists; on failure nothing changes; on success the set is the update, with priorities as `MergedPriorities` says, normalized in 64 bits, in the order of `ChangedOrder`; a settled set stays settled |
| MerkleTree.SplitPointUnique | crypto/merkle/tree.go:101-112 | the split point is the only power of two below n that is at least half of it |
| MerkleTree.HashIsRoot | crypto/merkle/tree.go:15-27 | the recursive hash is the root over the leaf hashes |
| MerkleTree.PairingKeepsRoot | crypto/merkle/tree.go:68-98 | one level of pairing with carry keeps the root of section 2.1 of RFC 6962 |
| MerkleTree.PairLevel | crypto/merkle/tree.go:77-94 | the shared read and write positions pair one level in place |
| MerkleTree.HashFromByteSlicesIterative | crypto/merkle/tree.go:68-98 | equals the recursive hash for every list |
| MerkleProof.AuntsLeadToRoot | crypto/merkle/proof.go:151-181 | the audit path of every index leads to the root |
| MerkleProof.PathProvesIndex | crypto/merkle/proof.go:151-181 | a path with the right total proves the item at its index, or a digest collision is exhibited |
| MerkleProof.LandsAtIndex | crypto/merkle/proof.go:151-181 | with the right total a path lands at its index |
| MerkleProof.PathProvesLanding | crypto/merkle/proof.go:151-181 | a path of any index and any claimed total proves the item it lands on, or a digest collision is exhibited |
| MerkleProof.LandingIsAccepted | crypto/merkle/proof.go:52-68 | every index and total that land on an item have a proof that is accepted for it |
| MerkleProof.VerifySound | crypto/merkle/proof.go:52-68 | an accepted proof, whatever its index and total, proves the item it lands on; with the right total the one at its index |
| MerkleProof.FlattenAunts | crypto/merkle/proof.go:197-215 | climbing the parents collects exactly the audit path |
| MerkleProof.TrailsFromByteSlices | crypto/merkle/proof.go:219-239 | the linked nodes form the tree of the items, each leaf with its path |
| MerkleProof.ProofsFromByteSlices | crypto/merkle/proof.go:35-48 | the root is the hash of the items and every proof is accepted for its item |
| PartSets.ChunksComplete | types/part_set.go:166-194 | the chunks of the parts put together are the data |
| PartSets.StoredPartIsChunk | types/part_set.go:266-294 | a stored part whose proof lands on its position holds exactly its chunk, or a collision is exhibited |
| PartSets.MisplacedPartAccepted | types/part_set.go:266-294 | for every index and total that land on some chunk, that chunk is accepted at every free position |
| PartSets.WrongTotalAccepted | types/part_set.go:266-294 | of three chunks the last is accepted at position one with a proof of index one |
| PartSets.AcceptedPartRightIff | types/part_set.go:266-294 | whatever its proof claims, an accepted part holds the chunk of its position exactly when it lands there or on an equal chunk |
| PartSets.AcceptedPartMatchesIff | types/part_set.go:266-294 | for chunks that differ, exactly when it lands on its position |
| PartSets.DeliveryReassembles | types/part_set.go:266-304 | any order of delivery with repeats and rejected parts completes the set and gives the data |
| PartSets.CoveredIff | types/part_set.go:166-194 | the 32-bit number of parts covers the data exactly when data and one part together fit 2^32 bytes |
| PartSets.PartSet.FromData | types/part_set.go:166-194 | a complete set over the chunks that the 32-bit number of parts covers, with matching proofs; sound exactly when that is all of the data |
| PartSets.PartSet.FromHeader | types/part_set.go:197-206 | an empty set for the header |
| PartSets.PartSet.AddPart | types/part_set.go:266-294 | adds exactly acceptable new parts; counters and bits stay exact; which error when |
| PartSets.PartSet.IsComplete | types/part_set.go:302-304 | the counter test is exact |
| PartSets.PartSet.GetReader | types/part_set.go:306-325 | panics exactly on an incomplete or empty set; otherwise the whole data remains to be read |
| PartSets.PartSetReader.Read | types/part_set.go:327-346 | returns the next bytes of what remains, end-of-file exactly when short, and ends |
| PartSets.PiecesConcatenate | types/part_set.go:327-346 | reads of any sizes concatenate to the data |
| PartSets.Reassemble | types/part_set.go:197-346 | from an empty set over any delivery to reads of any sizes: the data from the start, or a collision |
| Varint.ReadPut | types/share_merging.go:308-333 | reading a varint undoes writing it, whatever follows |
| Varint.ParseDelimited | types/share_merging.go:308-333 | the delimiter of any length below 2^64 is parsed back wherever the input is cut after it |
| Varint.ParsePadding | types/share_merging.go:308-333 | zero padding, or nothing, announces length zero |
| ContiguousShares.GetNextChunk | types/share_splitting.go:81-111 | the next bytes of the stream across item boundaries, and the reserved byte |
| ContiguousShares.ReservedByteIff | types/share_splitting.go:94-100 | the reserved byte names the first item that begins in the share, zero if none does, exactly when no item begins at its start |
| ContiguousShares.TwoItemShare | types/share_splitting.go:94-100 | with two items in a share it names the second |
| ContiguousShares.SplitContiguous | types/share_splitting.go:56-76 | the shares are exactly the padded pieces of the stream with namespace and reserved byte |
| ContiguousShares.SplitItems | types/tx.go:83-94 | the same for length-delimited items |
| ContiguousShares.PeelInverts | types/share_merging.go:196-233 | parsing from an item boundary, with at least a whole delimiter in the buffer, gives the items |
| ContiguousShares.ContiguousRoundTrip | types/share_merging.go:186-233 | parsing the layout never fails and gives the items exactly when none is empty |
| ContiguousShares.ShareStack.PeelShare | types/share_merging.go:196-233 | the stateful recursion appends what the functional parser computes, and ends |
| ContiguousShares.ProcessContiguousShares | types/share_merging.go:165-193 | items and error of the functional parser |
| MessageShares.SplitMessage | types/share_splitting.go:30-52 | the minimal number of shares, each the padded piece of the message |
| MessageShares.AppendToShares | types/share_splitting.go:12-26 | appends exactly the shares of the message |
| MessageShares.SplitMessages | types/block.go:1153-1164 | the shares of all messages one after the other |
| MessageShares.NextMsgAt | types/share_merging.go:272-304 | the message at the cursor and the shares it took, or the index panic |
| MessageShares.ParseMsgShares | types/share_merging.go:237-270 | the loop computes the functional parser |
| MessageShares.MessagesRoundTrip | types/share_merging.go:237-304 | every list of messages is parsed back, with namespaces and in order |
| DataSquare.NextHighestPowerOf2 | types/block.go:1114-1130 | for all inputs up to 2^31 the power of two in [v, 2v), zero otherwise |
| DataSquare.PaddedLen | types/block.go:1106-1110 | the smallest square of power-of-two width that holds the shares, exactly up to 2^30 of them; zero beyond |
| DataSquare.TailPaddingShares | types/share_splitting.go:120-129 | padding completes that square, at least the minimal one |
| DataSquare.SortMessages | types/block.go:1166-1170 | an ordered permutation by namespace |
| DataSquare.ComputeShares | types/block.go:1068-1102 | lays out all sections, panics exactly above the maximum, and fills the smallest square |
| DataSquare.DataFromSquare | types/share_merging.go:16-86 | the nested loops read the original quadrant by namespace and parse each kind |
| DataSquare.SquareMessages | types/share_merging.go:16-86 | the messages read back are always those of message namespaces |
| DataSquare.SquareRoundTrip | types/share_merging.go:16-86 | reading the square gives the data back if and only if no item is empty and no message uses a reserved or the tail padding namespace |
| SquareOrder.MessagesOrdered | types/block.go:1153-1170 | the shares of sorted messages are ordered by namespace, and every message has one |
| SquareOrder.SquareOrdered | types/block.go:1068-1102 | the namespaces of the whole square never go down, if and only if no message sorts before a reserved section that is there and no padding follows a message that sorts after it |
| SquareOrder.TailEmptyIff | types/block.go:1068-1102 | there is no padding exactly when the shares used form such a square |
| SquareOrder.ComputedSquareOrdered | types/block.go:1068-1102 | the exact condition for an ordered square in terms of the data alone, share counts included |
| SquareOrder.OwnNamespacesAbove | types/block.go:1068-1102 | the first condition holds whenever the messages have namespaces of their own |
| SquareOrder.MessageKindIff | types/share_merging.go:16-86 | a namespace is read as one of messages exactly above the reserved ones, the tail padding left out |
| SquareOrder.ZeroNamespaceBreaksOrder | types/block.go:1068-1102 | a message of the zero namespace behind a transaction breaks the order |
| VoteSets.AddVerifiedKeeps | types/vote_set.go:231-302 | adding a verified vote keeps the whole invariant: sums, bits, tallies, canonical votes, majority, peers, memory bound |
| VoteSets.SetPeerKeeps | types/vote_set.go:309-342 | so does a peer's claim |
| VoteSets.RunsKeepInv | types/vote_set.go:154-342 | the invariant holds after every run |
| VoteSets.MajorityIsFinal | types/vote_set.go:288-299 | the first majority never changes |
| VoteSets.MajorityIsExact | types/vote_set.go:231-302 | there is a majority exactly when some block's recorded votes hold more than two thirds; tracked blocks are at most voters plus peers |
| VoteSets.ConflictIsEvidence | types/vote_set.go:154-216 | a conflict carries two verified votes of one validator for two blocks |
| VoteSets.FirstVote | types/vote_set.go:231-302 | after every run the first verified vote of a validator is added, canonical and in the tally of its block |
| VoteSets.ConflictingVote | types/vote_set.go:231-302 | after every run a verified vote beside a canonical one for another block is answered with a conflict; it is added, and in the tally of its block, exactly when some peer named that block; it becomes canonical exactly if its block is the majority |
| VoteSets.KnownIff | types/vote_set.go:154-216 | after every run a well placed vote is a duplicate, or refused for its signature, exactly when the set holds that vote of the validator with the same, or another, signature |
| VoteSets.ClaimIff | types/vote_set.go:309-342 | a peer names one block: the claim succeeds exactly for its first block, from then on tracked, and a later claim changes nothing |
| VoteSets.NamedMajorityIsFound | types/vote_set.go:231-342 | once a peer has named a block, verified votes for it with more than two thirds of the power, before or after, make a majority exist, whatever else the voters voted and in whatever order |
| VoteSets.RejectedIff | types/vote_set.go:154-216 | exactly which votes are turned away, and that they change nothing |
| VoteSets.MajoritiesOverlap | types/vote_set.go:231-302 | majorities for two blocks share validators with more than a third of the power, with verified votes for both |
| VoteCollection.VoteSet.constructor | types/vote_set.go:78-96 | an empty valid set |
| VoteCollection.VoteSet.AddVote | types/vote_set.go:154-216 | is the specification of which `ConflictingVote`, `FirstVote`, `KnownIff` and `RejectedIff` say when which answer is given; both panics are unreachable |
| VoteCollection.VoteSet.AddVerifiedVote | types/vote_set.go:231-302 | state, result and conflicting vote of that specification |
| VoteCollection.VoteSet.CopyVotes | types/vote_set.go:293-298 | the copy loop overlays the majority's votes |
| VoteCollection.VoteSet.SetPeerMaj23 | types/vote_set.go:309-342 | is the specification that `ClaimIff` and `NamedMajorityIsFound` are about |
| Commits.MakeCommit | types/vote_set.go:593-617 | the commit of the majority, which says of every canonical vote what it should: absent if there is none or it is for another block, otherwise for the block or nil with address, time and signature of the vote |
| Commits.MadeIff | types/vote_set.go:593-617 | a commit is made exactly of precommits with a majority, none for an incomplete block; then the same for every slot, both ways |
| Commits.MadeVotes | types/vote.go:62-83 | each signature present stands for the canonical vote it came from |
| Commits.MadeCommitVerifies | types/validation.go:25-51 | a commit made for a block passes full verification, also in a batch of one key type |
| Commits.CommitToVoteSet | types/block.go:786-798 | panics exactly when some signature's vote does not verify at its place; otherwise rebuilds exactly the commit's votes |
| Commits.RebuiltMajority | types/block.go:786-798 | the rebuilt set finds the commit's block as majority |
| Commits.CommitRoundTrip | types/block.go:786-815 | rebuilding from a made commit finds the same majority and makes the same commit |
| Commits.MadeNeverPanics | types/block.go:786-798 | rebuilding from a made commit never panics |
| CommitVerification.VerifyCommitSingle | types/validation.go:265-332 | the loop computes the recursive scan |
| CommitVerification.VerifyCommitBatch | types/validation.go:152-256 | the loop with deferred verification computes the batch scan |
| CommitVerification.EndBatch | types/validation.go:226-255 | reports the first invalid signature of the batch; the final error is unreachable |
| CommitVerification.BatchIff | types/validation.go:152-332 | the batch accepts exactly what verifying one by one accepts, provided the keys met are of its type |
| CommitVerification.BatchAgrees | types/validation.go:152-332 | with one key type both accept the same commits |
| CommitVerification.AcceptedIff | types/validation.go:152-332 | by every rule, in a batch or not, a commit is accepted exactly when some prefix of its signatures is valid, without a double vote, of the batch's key type and exceeds the power needed |
| CommitVerification.ShortIff | types/validation.go:152-332 | by every rule the power is found not to suffice exactly when all signatures pass, in a batch by key type and shape only, nobody signed twice and together they do not exceed it |
| CommitVerification.BatchIsUsed | types/validation.go:12-16 | a batch is used exactly for two signatures or more and a proposer key that is not secp256k1 |
| CommitRules.MixedKeysRefused | types/validation.go:152-332 | a well-formed commit of two key types that single verification accepts and the entry points refuse |
| CommitRules.VerifyCommit | types/validation.go:25-51 | accepts exactly the commits of the block with every signature present valid and more than two thirds of the power for the block, keys of the proposer's type in a batch; which error or panic when |
| CommitRules.VerifyCommitLight | types/validation.go:59-84 | accepts exactly the commits of the block of which some prefix has valid signatures for the block with more than two thirds of the power, keys of the proposer's type in a batch; which error or panic when |
| CommitRules.VerifyCommitLightTrusting | types/validation.go:94-130 | for levels that the casts keep, accepts exactly the commits of which some prefix has valid signatures of distinct validators of the set with more than the share of its power, and finds too little power exactly when all signatures pass and hold no more; which error or panic when, for every level |
| CommitRules.TrustingAcceptedIff | types/validation.go:94-130 | the same for every level, with the power needed as the casts give it |
| CommitRules.TrustingShortIff | types/validation.go:94-130 | for every level, too little power exactly when the share can be computed and all signatures pass without exceeding it |
| CommitRules.PowerSumIsTotal | types/validator_set.go:298-312 | without negative powers the sum is the total and panics exactly above the maximum |
| Int64.SafeMulIsExact | types/validator_set.go:913-933 | for all factors: the exact product, or overflow exactly when it or its negation exceeds an int64; the product wraps unnoticed only for the smallest first factor |
| CommitVerification.FullIff | types/validation.go:265-332 | the full rule without the scan: all signatures present are good and those for the block exceed the power needed |
| CommitRules.VerifyCommitImpliesLight | types/validation.go:25-84 | whatever full verification accepts, light verification accepts |
| CommitVerification.AcceptedIsSigned | types/validation.go:265-332 | an accepted commit was signed by distinct validators with more than the power needed |
| CommitRules.LightMeansTwoThirds | types/validation.go:59-84 | more than two thirds of the power signed the block asked for |
| CommitRules.TrustingMeansShare | types/validation.go:94-130 | distinct validators with more than the power needed signed, and so with more than the trust level's share where the casts keep it |
| LightBlocks.VerdictOrders | light/verifier.go:33-168 | what verifies is later in height and time on the same chain and not expired; what cannot be trusted yet is two heights ahead |
| LightBlocks.AdjacentVerdicts | light/verifier.go:103-149 | the exact condition of every verdict on the next block, in terms of required fields, hashes, height, times, clock drift, age, and two thirds of its own set |
| LightBlocks.GapVerdicts | light/verifier.go:33-88 | the exact condition of every verdict across a gap: verified if and only if header, times and trust level hold, the trusted set vouches and two thirds of its own set signed; cannot be trusted yet if and only if the header checks hold and the trusted signers pass but are too few |
| LightBlocks.GapShares | types/validation.go:94-130 | for levels that the casts keep, these are shares of the trusted power |
| LightBlocks.StrangerCantBeTrusted | light/verifier.go:33-88 | a block two heights ahead signed by the trusted validator verifies, the same block of a stranger cannot be trusted yet |
| LightBlocks.ExpiredTrustIsAccepted | light/verifier.go:19-88 | a block verifies against a trusted header that has expired |
| LightBlocks.TrustLevelIff | light/verifier.go:173-180 | exactly which levels are valid: those in [1/3, 1) whose tripled numerator fits 64 bits, and those for which the wrapped product still reaches the denominator |
| LightBlocks.WrappedLevels | light/verifier.go:173-180 | six sevenths in large numbers is refused, ten elevenths is not, one is |
| LightBlocks.ShareOfThird | types/validation.go:94-115 | exceeding the power needed at a valid level means exceeding a third, unless that power is negative |
| LightBlocks.NegativeShareIff | types/validation.go:94-115 | exactly when the casts make it negative, which takes a total of one or two |
| LightBlocks.NegativeShareAcceptsStrangers | types/validation.go:94-130 | then every commit that counts nobody of the set is accepted |
| LightBlocks.VerifiedAcrossGap | light/verifier.go:33-88 | a block verified across a gap was signed by more than a third of the trusted power, for every trust level that does not ask for negative power |
| LightBlocks.VerifiedBySelf | light/verifier.go:103-149 | every verified block was signed by more than two thirds of the set its header names |
| LightClient.ScheduleIff | light/client.go:716-719 | nine sixteenths of the gap where the product fits; never passes the failed height; lies strictly between two heights that are not adjacent exactly when the 64-bit product is large enough, always where it fits |
| LightClient.ScheduleFallsBack | light/client.go:716-719 | a gap for which it falls back behind the verified height |
| LightClient.VerifySkipping | light/client.go:639-713 | ends against every provider that answers with the height asked for, asks for no height twice on its way, and returns a trace in which every consecutive pair verifies; every height asked for is the scheduled pivot of a pair that cannot be trusted yet, the trusted block and the target first, and without such a pair the first verdict is final; falls back only for gaps whose product wraps, and then fails |
| LightClient.Skip | light/client.go:639-713 | the same loop for every judge of blocks and every schedule, with its lexicographic measure |
| LightClient.TraceIncreases | light/client.go:639-713 | heights and times go up strictly along a trace |
| Accountability.GetByzantineValidators | types/evidence.go:280-326 | whom each of the three attacks lists, sorted by power; exactly when the equivocation branch panics |
| Accountability.ValidHeaderIff | types/evidence.go:332-339 | a conflicting header is not a lunatic one exactly when it is the trusted one but for chain, height and time, among the fields of the model |
| Accountability.Lunatics | types/evidence.go:285-299 | exactly the common validators that signed for the block are listed |
| Accountability.Equivocators | types/evidence.go:300-320 | whoever is found for the signatures for the block in both commits; panics exactly when a signature for the block lies past the end of the other commit |
| Accountability.EquivocationInOrder | types/evidence.go:300-320 | when addresses follow the set nothing panics and exactly those with a signature in both commits are listed |
| Accountability.EquivocationIsAccountable | types/evidence.go:300-320 | if both commits were accepted, those with signatures in both hold more than a third of the power, as do those among them with verified signatures for both |
| Accountability.ListedHoldThird | types/evidence.go:300-320 | and so do the validators that are listed |
| Accountability.LunacyIsAccountable | types/evidence.go:285-299 | if the common set vouched for the block, distinct validators listed hold more than a third of the common power |
| PrivValidator.FilePV.Sign | privval/file.go:319-410 | outcome and new state of the specification, saved before the signature is released; from every state that signing leaves the answer is the one of `RunsAnswer` |
| PrivValidator.FilePV.SaveSigned | privval/file.go:401-410 | memory and file hold the new state |
| PrivValidator.ResignRepeats | privval/file.go:319-400 | signing again for the same height, round and step releases the same bytes and signature, or nothing, and cannot panic |
| PrivValidator.RunsAnswer | privval/file.go:319-400 | after every run a message is released if and only if it is ahead of the saved height, round and step and the key signs it, or it was signed for this chain up to its timestamp; then with the saved timestamp, bytes and signature |
| PrivValidator.SavedIsLast | privval/file.go:401-410 | at every point of a run memory and file hold the last signature made and saved |
| PrivValidator.CrashRepeats | privval/file.go:319-400 | after a crash behind the save the same message, asked for with any timestamp, is released as it was signed |
| PrivValidator.StepOrder | privval/file.go:26-46 | within a round proposals come before prevotes and these before precommits; two messages have one height, round and step exactly when they are of one kind for one height and round |
| PrivValidator.NextKeeps | privval/file.go:319-410 | calls, crashes before and after the save, and restarts keep the invariant |
| PrivValidator.NoDoubleSign | privval/file.go:319-410 | over every run released height, round and step never go back, and equal ones carry identical sign bytes and signature |
| PrivValidator.RunsNeverPanic | privval/file.go:95-127 | over every run the missing-signature and undecodable-bytes panics are unreachable |
| Recovery.WritesKeepInv | internal/state/execution.go:195-261 | every durable write, in the order the code makes them, leaves a world to recover from |
| Recovery.RunsKeepInv | internal/state/execution.go:195-261 | so does every run of writes, at every point |
| Replay.Node.ApplyBlock | internal/state/execution.go:195-261 | on the real or the mock application, ends with everything in step and the state a crash-free node would have |
| Replay.Node.ReplayUpTo | internal/consensus/replay.go:438-505 | executes exactly the missing blocks in order; its assertions on application hashes hold |
| Replay.Node.SyncState | internal/consensus/replay.go:399-431 | a stored block without saved state is applied once, by the real application or from saved responses |
| Replay.Node.ReplayBlocks | internal/consensus/replay.go:285-436 | from every world a crash can leave: ends in step with every block executed once, refuses exactly when needed blocks are pruned, panics exactly at a genesis with mismatched hashes; an application ahead of the store is refused and nothing changes |
| SecretConnection.GetPutLE | privval/secret_connection.go:457-466 | little-endian numbers are read back |
| SecretConnection.IncrNonceCounts | privval/secret_connection.go:457-466 | the counter goes up by one and stops at its maximum |
| SecretConnection.NoncesNeverRepeat | privval/secret_connection.go:457-466 | no two seals use one nonce, the last included |
| SecretConnection.Direction.WriteChunk | privval/secret_connection.go:196-229 | one frame per chunk under the next nonce |
| SecretConnection.Direction.Write | privval/secret_connection.go:191-231 | all data enters the stream in one frame per 1024 bytes; fails exactly when the counter does not suffice for these |
| SecretConnection.Direction.Read | privval/secret_connection.go:234-277 | the next bytes of the stream, some whenever there are any; frame errors cannot happen |
| SecretConnection.Direction.OpenFrame | privval/secret_connection.go:245-276 | takes the next frame under the matching nonce |
| SecretConnection.ReadIsPrefix | privval/secret_connection.go:191-277 | what was read is a prefix of what was written, and all of it when nothing is under way |

## Left out

- ValidatorSetFromExistingValidators, findPreviousProposer and sets decoded from protobuf with arbitrary priorities: a heuristic without a general specification.
- ValidatorRuns.RunsStaySettled: the source says that its maximal total prevents clipping, and overflow of the next rescaling, in all cases. For rotations of many steps with a total near the maximum the first is proved up to two hundred validators (`FewNeverClip`), the second up to eight (`RunsOfFewStaySettled`); beyond, with room only.
- ValidatorSet.Proposer is a value; the source keeps a pointer to the elected element.
- CommitVerification.VerifyCommitSingle and CommitVerification.VerifyCommitBatch: tallies do not wrap; with the non-negative powers that `ValidateBasic` demands they are at most the total.
- Slices are values: `append` in the share parser and the splitter could write into shared capacity.
- Evidence is laid out and read back as the bytes of its encoding; protobuf decoding of evidence, votes and headers is not modelled.
- Erasure coding and the data availability header: the original quadrant is modelled as row-major shares.
- BlockID is its own map key; the string key of the source joins hash and header bytes and is injective on identifiers of valid size.
- Nil pointers for votes, commits and validator sets, except a nil vote, which `AddVote` rejects.
- The handshake's InitChain answer is deterministic, and its validator updates are part of an opaque state; an initial height other than 1 is not modelled.
- Replay.Node.ReplayBlocks: an application whose blocks differ from those stored is not modelled.
- Pruning of saved responses, the write-ahead log and events are not part of the replay model.
- SecretConnection: the key agreement, and a failing or reordering transport; frames travel in a first-in first-out queue.
- PrivValidator.FilePV.Sign: `Reset` and unknown vote types, on which `voteToStep` panics.
- Light client: sequential and backwards verification, witnesses, the detector and the trusted store.
- Mutexes: methods are atomic. Logging, metrics, string forms, networking, reactors, clients and servers.
