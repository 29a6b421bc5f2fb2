/** Validators as values, and the lists of them that a validator set holds. */
module Validators {
  import opened Basics
  import opened Int64
  import opened Sums

  datatype KeyType = Ed25519 | Sr25519 | Secp256k1
  datatype PubKey = PubKey(kind: KeyType, raw: Bytes)
  type Address = Bytes

  datatype Validator = Validator(address: Address, pubKey: PubKey, power: int, priority: int)

  const MaxTotalVotingPower: int := MaxInt64 / 8
  const PriorityWindowSizeFactor: int := 2

  function Powers(vs: seq<Validator>): (w: seq<int>)
    ensures |w| == |vs| && forall i :: 0 <= i < |vs| ==> w[i] == vs[i].power
  {
    seq(|vs|, i requires 0 <= i < |vs| => vs[i].power)
  }

  function Priorities(vs: seq<Validator>): (p: seq<int>)
    ensures |p| == |vs| && forall i :: 0 <= i < |vs| ==> p[i] == vs[i].priority
  {
    seq(|vs|, i requires 0 <= i < |vs| => vs[i].priority)
  }

  function Total(vs: seq<Validator>): int { Sum(Powers(vs)) }

  ghost predicate DistinctAddresses(vs: seq<Validator>) {
    forall i, j :: 0 <= i < j < |vs| ==> vs[i].address != vs[j].address
  }

  /** What every validator set in use satisfies about its members. */
  ghost predicate Members(vs: seq<Validator>) {
    && DistinctAddresses(vs)
    && (forall i :: 0 <= i < |vs| ==> 1 <= vs[i].power)
    && Total(vs) <= MaxTotalVotingPower
  }

  predicate HasAddress(vs: seq<Validator>, a: Address) {
    exists i :: 0 <= i < |vs| && vs[i].address == a
  }

  /** The first index from which the address is found. */
  function IndexOf(vs: seq<Validator>, a: Address, from: nat): (r: Option<nat>)
    requires from <= |vs|
    ensures r.Some? ==> from <= r.value < |vs| && vs[r.value].address == a
    ensures r.None? ==> forall j :: from <= j < |vs| ==> vs[j].address != a
    decreases |vs| - from
  {
    if from == |vs| then None else if vs[from].address == a then Some(from) else IndexOf(vs, a, from + 1)
  }

  /** `GetByAddress`: the first validator with the address; `None` stands for
      nil. */
  function GetByAddress(vs: seq<Validator>, a: Address): (r: Option<Validator>)
    ensures r.Some? ==> r.value in vs && r.value.address == a
    ensures r.Some? <==> HasAddress(vs, a)
  {
    var i := IndexOf(vs, a, 0);
    if i.None? then None else Some(vs[i.value])
  }

  lemma TotalAppend(vs: seq<Validator>, v: Validator)
    ensures Total(vs + [v]) == Total(vs) + v.power
  {
    assert Powers(vs + [v]) == Powers(vs) + [v.power];
    SumAppend(Powers(vs), v.power);
  }

  /** Each power is at most the total, and a non-empty set has positive total. */
  lemma TotalBounds(vs: seq<Validator>)
    requires forall i :: 0 <= i < |vs| ==> 1 <= vs[i].power
    ensures |vs| <= Total(vs)
    ensures forall i :: 0 <= i < |vs| ==> vs[i].power <= Total(vs)
  {
    SumAtLeast(Powers(vs), 1);
    forall i | 0 <= i < |vs| ensures vs[i].power <= Total(vs) {
      SumNonNegative(Powers(vs), i);
    }
  }
}
