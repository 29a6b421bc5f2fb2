/** Votes, block identifiers and commits (`types/vote.go`, `types/block.go`). */
module Votes {
  import opened Basics
  import opened Validators

  const HashSize: nat := 32

  /** A block hash with its part set header; also its own map key, the source's
      `Key` being injective on identifiers it can meet. */
  datatype BlockID = BlockID(hash: Bytes, total: nat, partsHash: Bytes) {
    predicate IsZero() { hash == [] && total == 0 && partsHash == [] }
    predicate IsComplete() { |hash| == HashSize && total > 0 && |partsHash| == HashSize }
  }

  const NilBlockID: BlockID := BlockID([], 0, [])

  datatype SignedMsgType = Prevote | Precommit

  datatype Vote = Vote(
    kind: SignedMsgType, height: int, round: int, blockID: BlockID, timestamp: int,
    address: Address, index: int, signature: Bytes)

  /** What the chain fixes: the canonical encoding that is signed, signature
      verification, and the address of a key. */
  datatype Chain = Chain(
    signBytes: (SignedMsgType, int, int, BlockID, int) -> Bytes,
    verify: (PubKey, Bytes, Bytes) -> bool,
    addressOf: PubKey -> Address)

  function VoteSignBytes(chain: Chain, v: Vote): Bytes {
    chain.signBytes(v.kind, v.height, v.round, v.blockID, v.timestamp)
  }

  datatype Flag = Absent | ForBlock | ForNil

  datatype CommitSig = CommitSig(flag: Flag, address: Address, timestamp: int, signature: Bytes)

  const NoTime: int := 0

  const AbsentSig: CommitSig := CommitSig(Absent, [], NoTime, [])

  datatype Commit = Commit(height: int, round: int, blockID: BlockID, signatures: seq<CommitSig>)

  /** `Vote.CommitSig`, which panics on a block identifier that is neither zero
      nor complete. */
  function ToCommitSig(v: Option<Vote>): CommitSig
    requires v.Some? ==> v.value.blockID.IsComplete() || v.value.blockID.IsZero()
  {
    if v.None? then AbsentSig
    else CommitSig(if v.value.blockID.IsComplete() then ForBlock else ForNil,
                   v.value.address, v.value.timestamp, v.value.signature)
  }

  /** `CommitSig.BlockID` */
  function SigBlockID(s: CommitSig, commitBlockID: BlockID): BlockID {
    if s.flag == ForBlock then commitBlockID else NilBlockID
  }

  /** `Commit.GetVote` */
  function GetVote(c: Commit, i: nat): Vote
    requires i < |c.signatures|
  {
    var s := c.signatures[i];
    Vote(Precommit, c.height, c.round, SigBlockID(s, c.blockID), s.timestamp, s.address, i, s.signature)
  }

  /** `Commit.VoteSignBytes` */
  function CommitSignBytes(chain: Chain, c: Commit, i: nat): Bytes
    requires i < |c.signatures|
  {
    VoteSignBytes(chain, GetVote(c, i))
  }

  /** Two thirds, rounded down, plus one. */
  function Quorum(vs: seq<Validator>): int { Total(vs) * 2 / 3 + 1 }
}
