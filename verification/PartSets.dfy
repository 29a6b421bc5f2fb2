/** Block parts of `types/part_set.go`: splitting, collecting in any order with
    Merkle proofs, and reading back. */
module PartSets {
  import opened Basics
  import opened Products
  import opened Sums
  import opened Streams
  import opened MerkleTree
  import opened MerkleProof

  const TwoTo32: nat := 0x1_0000_0000

  datatype Part = Part(index: nat, bytes: Bytes, proof: Proof)

  // ---- Splitting ----

  function PartCount(data: Bytes, partSize: nat): nat
    requires partSize > 0
  {
    (|data| + partSize - 1) / partSize
  }

  lemma PartRange(data: Bytes, partSize: nat, i: nat)
    requires partSize > 0 && i < PartCount(data, partSize)
    ensures 0 <= i * partSize < Min(|data|, (i + 1) * partSize)
  {
    var n := PartCount(data, partSize);
    Quotient(|data| + partSize - 1, partSize, n);
    MulMonotone(partSize, i + 1, n);
    assert (i + 1) * partSize == i * partSize + partSize;
  }

  function Chunk(data: Bytes, partSize: nat, i: nat): Bytes
    requires partSize > 0 && i < PartCount(data, partSize)
  {
    PartRange(data, partSize, i);
    data[i * partSize..Min(|data|, (i + 1) * partSize)]
  }

  function Chunks(data: Bytes, partSize: nat): (r: seq<Bytes>)
    requires partSize > 0
    ensures |r| == PartCount(data, partSize)
    ensures forall i :: 0 <= i < |r| ==> r[i] == Chunk(data, partSize, i)
  {
    seq(PartCount(data, partSize), i requires 0 <= i < PartCount(data, partSize) => Chunk(data, partSize, i))
  }

  lemma {:induction false} ChunksPrefix(data: Bytes, partSize: nat, i: nat)
    requires partSize > 0 && i <= PartCount(data, partSize)
    ensures 0 <= Min(|data|, i * partSize)
    ensures Flatten(Chunks(data, partSize)[..i]) == data[..Min(|data|, i * partSize)]
  {
    var c := Chunks(data, partSize);
    if i > 0 {
      ChunksPrefix(data, partSize, i - 1);
      PartRange(data, partSize, i - 1);
      assert c[..i] == c[..i - 1] + [c[i - 1]];
      FlattenAppend(c[..i - 1], c[i - 1]);
    }
  }

  /** The chunks put together are the data. */
  lemma ChunksComplete(data: Bytes, partSize: nat)
    requires partSize > 0
    ensures Flatten(Chunks(data, partSize)) == data
  {
    var c, n := Chunks(data, partSize), PartCount(data, partSize);
    ChunksPrefix(data, partSize, n);
    assert c[..n] == c;
    Quotient(|data| + partSize - 1, partSize, n);
    assert data[..|data|] == data;
  }

  // ---- Collecting ----

  /** What `AddPart` stores: nothing for an index out of range, a part already
      present, or a proof that does not verify. */
  function Added(h: Hasher, hash: Bytes, parts: seq<Option<Part>>, part: Part): (r: seq<Option<Part>>)
    ensures |r| == |parts|
  {
    if part.index >= |parts| || parts[part.index].Some? || !Verify(h, part.proof, hash, part.bytes) then parts
    else parts[part.index := Some(part)]
  }

  /** The proof speaks about the position the part claims. The receiver of a
      header can check this, but `AddPart` looks neither at the index of the
      proof nor at its total. */
  predicate Matching(part: Part, total: nat) {
    Landing(part.proof.index, part.proof.total, total) == Some(part.index)
  }

  ghost predicate Stored(h: Hasher, hash: Bytes, parts: seq<Option<Part>>) {
    forall i :: 0 <= i < |parts| && parts[i].Some? ==>
      parts[i].value.index == i && Verify(h, parts[i].value.proof, hash, parts[i].value.bytes)
  }

  function Present(parts: seq<Option<Part>>): (r: seq<bool>)
    ensures |r| == |parts| && forall i :: 0 <= i < |r| ==> r[i] == parts[i].Some?
  {
    seq(|parts|, i requires 0 <= i < |parts| => parts[i].Some?)
  }

  function Sizes(parts: seq<Option<Part>>): (r: seq<int>)
    ensures |r| == |parts| && forall i :: 0 <= i < |r| ==> r[i] == if parts[i].Some? then |parts[i].value.bytes| else 0
  {
    seq(|parts|, i requires 0 <= i < |parts| => if parts[i].Some? then |parts[i].value.bytes| else 0)
  }

  /** A stored part whose proof matches its position holds exactly its chunk. */
  lemma StoredPartIsChunk(h: Hasher, items: seq<Bytes>, parts: seq<Option<Part>>, i: nat) returns (c: (Bytes, Bytes))
    requires DigestSized(h) && |parts| == |items| && i < |parts| && parts[i].Some?
    requires Stored(h, HashFromByteSlices(h, items), parts) && Matching(parts[i].value, |items|)
    ensures parts[i].value.bytes == items[i] || Collides(h, c)
  {
    c := VerifySound(h, items, parts[i].value.proof, parts[i].value.bytes);
  }

  /** Without the matching condition the property fails: for every index and
      total of a proof that land on some chunk, that chunk is accepted at every
      free position. */
  lemma MisplacedPartAccepted(h: Hasher, items: seq<Bytes>, parts: seq<Option<Part>>, index: nat, total: nat, i: nat, j: nat)
    requires |parts| == |items| && j < |items| && parts[j] == None
    requires Landing(index, total, |items|) == Some(i)
    ensures var part := Part(j, items[i], ProofFor(h, items, index, total, i));
      Added(h, HashFromByteSlices(h, items), parts, part) == parts[j := Some(part)]
    ensures Matching(Part(j, items[i], ProofFor(h, items, index, total, i)), |items|) <==> i == j
  {
    LandingIsAccepted(h, items, index, total, i);
  }

  /** Not even the right index helps: of three chunks the last one is accepted
      at position one with a proof of index one and total two. */
  lemma WrongTotalAccepted(h: Hasher, items: seq<Bytes>)
    requires |items| == 3
    ensures var part := Part(1, items[2], Proof(2, 1, Leaf(h, items[2]), [HashFromByteSlices(h, items[..2])]));
      part.proof.index == part.index && Added(h, HashFromByteSlices(h, items), Nones(3), part)[1] == Some(part)
  {
    assert SplitPoint(3) == 2 && SplitPoint(2) == 1;
    assert items[2..] == [items[2]];
    var aunt := HashFromByteSlices(h, items[..2]);
    assert HashFromByteSlices(h, items) == Inner(h, aunt, HashFromByteSlices(h, items[2..]));
    assert ComputeHashFromAunts(h, 0, 1, Leaf(h, items[2]), []) == Some(Leaf(h, items[2]));
    assert ComputeHashFromAunts(h, 1, 2, Leaf(h, items[2]), [aunt]) == Some(Inner(h, aunt, Leaf(h, items[2])));
  }

  /** Exactly when an accepted part is right, whatever its proof claims: it lands
      on its position, or on one with an equal chunk. */
  lemma AcceptedPartRightIff(h: Hasher, items: seq<Bytes>, part: Part) returns (c: (Bytes, Bytes))
    requires DigestSized(h) && part.index < |items|
    requires Verify(h, part.proof, HashFromByteSlices(h, items), part.bytes)
    ensures Collides(h, c) || Landing(part.proof.index, part.proof.total, |items|).Some?
    ensures var at := Landing(part.proof.index, part.proof.total, |items|);
      at.None? || Collides(h, c) ||
      (part.bytes == items[part.index] <==> Matching(part, |items|) || items[at.value] == items[part.index])
  {
    c := VerifySound(h, items, part.proof, part.bytes);
  }

  /** The guard is what a receiver needs: for chunks that differ, an accepted
      part is right if and only if it matches. */
  lemma AcceptedPartMatchesIff(h: Hasher, items: seq<Bytes>, part: Part) returns (c: (Bytes, Bytes))
    requires DigestSized(h) && part.index < |items|
    requires forall i, j :: 0 <= i < j < |items| ==> items[i] != items[j]
    requires Verify(h, part.proof, HashFromByteSlices(h, items), part.bytes)
    ensures Collides(h, c) || (part.bytes == items[part.index] <==> Matching(part, |items|))
  {
    c := AcceptedPartRightIff(h, items, part);
  }

  // ---- A whole delivery ----

  function AddedAll(h: Hasher, hash: Bytes, parts: seq<Option<Part>>, stream: seq<Part>): (r: seq<Option<Part>>)
    ensures |r| == |parts|
  {
    if |stream| == 0 then parts
    else Added(h, hash, AddedAll(h, hash, parts, stream[..|stream| - 1]), stream[|stream| - 1])
  }

  lemma {:induction false} AddedAllKeeps(h: Hasher, hash: Bytes, parts: seq<Option<Part>>, stream: seq<Part>)
    requires Stored(h, hash, parts)
    requires forall i :: 0 <= i < |parts| && parts[i].Some? ==> Matching(parts[i].value, |parts|)
    requires forall p :: p in stream && Verify(h, p.proof, hash, p.bytes) ==> Matching(p, |parts|)
    ensures var r := AddedAll(h, hash, parts, stream);
      Stored(h, hash, r) && forall i :: 0 <= i < |r| && r[i].Some? ==> Matching(r[i].value, |r|)
  {
    if |stream| > 0 {
      var n := |stream| - 1;
      assert stream[n] in stream;
      AddedAllKeeps(h, hash, parts, stream[..n]);
    }
  }

  lemma {:induction false} AddedAllCollects(h: Hasher, hash: Bytes, parts: seq<Option<Part>>, stream: seq<Part>, p: Part)
    requires p in stream && p.index < |parts| && Verify(h, p.proof, hash, p.bytes)
    ensures AddedAll(h, hash, parts, stream)[p.index].Some?
  {
    var n := |stream| - 1;
    if stream[n] != p {
      assert p in stream[..n];
      AddedAllCollects(h, hash, parts, stream[..n], p);
    }
  }

  /** The stream contains each genuine part, and its verifying parts match
      their positions. */
  ghost predicate Delivers(h: Hasher, items: seq<Bytes>, stream: seq<Part>) {
    && (forall i :: 0 <= i < |items| ==> Part(i, items[i], AuditProof(h, items, i)) in stream)
    && (forall p :: p in stream && Verify(h, p.proof, HashFromByteSlices(h, items), p.bytes) ==> Matching(p, |items|))
  }

  lemma DeliveryCompletes(h: Hasher, items: seq<Bytes>, stream: seq<Part>, i: nat)
    requires Delivers(h, items, stream) && i < |items|
    ensures AddedAll(h, HashFromByteSlices(h, items), Nones(|items|), stream)[i].Some?
  {
    AuditProofVerifies(h, items, i);
    AddedAllCollects(h, HashFromByteSlices(h, items), Nones(|items|), stream, Part(i, items[i], AuditProof(h, items, i)));
  }

  lemma MatchingContents(h: Hasher, items: seq<Bytes>, r: seq<Option<Part>>) returns (c: (Bytes, Bytes))
    requires DigestSized(h) && |r| == |items| && Stored(h, HashFromByteSlices(h, items), r)
    requires forall i :: 0 <= i < |r| ==> r[i].Some? && Matching(r[i].value, |r|)
    ensures Collides(h, c) || Contents(r) == items
  {
    c := ([], []);
    var j := 0;
    while j < |items| && !Collides(h, c)
      invariant j <= |items|
      invariant Collides(h, c) || forall i :: 0 <= i < j ==> r[i].value.bytes == items[i]
    {
      c := StoredPartIsChunk(h, items, r, j);
      j := j + 1;
    }
  }

  /** Any delivery, in any order, with repeats and rejected parts in between,
      completes the set and yields the data. */
  lemma DeliveryReassembles(h: Hasher, data: Bytes, partSize: nat, stream: seq<Part>) returns (c: (Bytes, Bytes))
    requires DigestSized(h) && partSize > 0 && Delivers(h, Chunks(data, partSize), stream)
    ensures var items := Chunks(data, partSize);
      var r := AddedAll(h, HashFromByteSlices(h, items), Nones(|items|), stream);
      && Full(r)
      && (Collides(h, c) || Flatten(Contents(r)) == data)
  {
    var items := Chunks(data, partSize);
    var root := HashFromByteSlices(h, items);
    var r := AddedAll(h, root, Nones(|items|), stream);
    AddedAllKeeps(h, root, Nones(|items|), stream);
    forall i | 0 <= i < |r| ensures r[i].Some? {
      DeliveryCompletes(h, items, stream, i);
    }
    c := MatchingContents(h, items, r);
    ChunksComplete(data, partSize);
  }

  predicate Full(parts: seq<Option<Part>>) {
    forall i :: 0 <= i < |parts| ==> parts[i].Some?
  }

  function Contents(parts: seq<Option<Part>>): (r: seq<Bytes>)
    requires Full(parts)
    ensures |r| == |parts| && forall i :: 0 <= i < |r| ==> r[i] == parts[i].value.bytes
  {
    seq(|parts|, i requires 0 <= i < |parts| => parts[i].value.bytes)
  }

  // ---- The set ----

  datatype AddError = Ok | UnexpectedIndex | InvalidProof

  class PartSet {
    const h: Hasher
    const total: nat
    const hash: Bytes
    var parts: seq<Option<Part>>
    var partsBitArray: seq<bool>
    var count: nat
    var byteSize: int

    /** Counters and bit array are exact, and every stored part was proved. */
    ghost predicate Valid()
      reads this
    {
      && |parts| == total
      && partsBitArray == Present(parts)
      && count == Count(Present(parts))
      && byteSize == Sum(Sizes(parts))
      && Stored(h, hash, parts)
    }

    /** `NewPartSetFromHeader` */
    constructor FromHeader(h: Hasher, total: nat, hash: Bytes)
      ensures Valid() && this.h == h && this.total == total && this.hash == hash
      ensures parts == Nones(total)
    {
      this.h, this.total, this.hash := h, total, hash;
      parts, partsBitArray, count, byteSize := Nones(total), seq(total, _ => false), 0, 0;
      new;
      EmptyCounts(total);
      assert partsBitArray == Present(parts);
    }

    /** `NewPartSetFromData`: a complete set over the chunks that the 32-bit
        count of parts reaches. The set is sound exactly when that is all of the
        data; the byte size claims all of it in any case. */
    constructor FromData(h: Hasher, data: Bytes, partSize: nat)
      requires 0 < partSize < TwoTo32
      ensures this.h == h && hash == HashFromByteSlices(h, Chunks(Covered(data, partSize), partSize))
      ensures |parts| == total == PartCount(Covered(data, partSize), partSize)
      ensures Full(parts) && forall i :: 0 <= i < total ==> Matching(parts[i].value, total)
      ensures Contents(parts) == Chunks(Covered(data, partSize), partSize)
      ensures count == total && byteSize == |data|
      ensures Valid() <==> |data| + partSize <= TwoTo32
    {
      var bytes := SplitBytes(data, partSize);
      var n := |bytes|;
      var root, proofs := ProofsFromByteSlices(h, bytes);
      var ps := seq(n, i requires 0 <= i < n => Some(Part(i, bytes[i], proofs[i])));
      this.h, total, hash := h, n, root;
      parts, partsBitArray, count, byteSize := ps, seq(n, _ => true), n, |data|;
      new;
      FromDataIsFull(h, data, partSize, bytes, proofs, ps);
      CoveredIff(data, partSize);
      assert partsBitArray == Present(ps);
    }

    /** `AddPart` */
    method AddPart(part: Part) returns (added: bool, err: AddError)
      requires Valid()
      modifies this
      ensures Valid()
      ensures parts == Added(h, hash, old(parts), part)
      ensures added <==> parts != old(parts)
      ensures err.UnexpectedIndex? <==> part.index >= total
      ensures err.InvalidProof? <==> part.index < total && old(parts)[part.index].None? && !Verify(h, part.proof, hash, part.bytes)
    {
      if part.index >= total { return false, UnexpectedIndex; }
      if parts[part.index].Some? { return false, Ok; }
      if !Verify(h, part.proof, hash, part.bytes) { return false, InvalidProof; }
      AddCounts(parts, part);
      parts := parts[part.index := Some(part)];
      partsBitArray := partsBitArray[part.index := true];
      count := count + 1;
      byteSize := byteSize + |part.bytes|;
      assert partsBitArray == Present(parts);
      return true, Ok;
    }

    /** `GetReader`; null where it panics: on an incomplete set, and on a set
        without parts, whose first part is indexed. */
    method GetReader() returns (r: PartSetReader?)
      requires Valid()
      ensures r == null <==> total == 0 || !Full(parts)
      ensures r != null ==> fresh(r) && r.Remaining() == Flatten(Contents(parts))
    {
      var complete := IsComplete();
      if !complete || total == 0 { return null; }
      r := new PartSetReader(Contents(parts));
    }

    /** `IsComplete`: the counter test is exact. */
    method IsComplete() returns (b: bool)
      requires Valid()
      ensures b <==> Full(parts)
    {
      b := count == total;
      CountFull(Present(parts));
    }
  }

  /** The number of parts, computed in 32 bits. */
  function PartCount32(length: nat, partSize: nat): nat
    requires partSize > 0
  {
    (length % TwoTo32 + partSize - 1) % TwoTo32 / partSize
  }

  /** The data that so many parts hold. */
  function Covered(data: Bytes, partSize: nat): Bytes
    requires partSize > 0
  {
    data[..Min(|data|, PartCount32(|data|, partSize) * partSize)]
  }

  /** Only data that fits 32 bits together with a part is covered. */
  lemma CoveredIff(data: Bytes, partSize: nat)
    requires 0 < partSize < TwoTo32
    ensures Covered(data, partSize) == data <==> |data| + partSize <= TwoTo32
    ensures |Covered(data, partSize)| == |data| <==> |data| + partSize <= TwoTo32
    ensures PartCount(Covered(data, partSize), partSize) == PartCount32(|data|, partSize)
  {
    var n := PartCount32(|data|, partSize);
    CountReaches(|data|, partSize);
    WholeParts(n, partSize);
    assert data[..|data|] == data;
  }

  lemma CountReaches(length: nat, partSize: nat)
    requires 0 < partSize < TwoTo32
    ensures var n := PartCount32(length, partSize);
      if length + partSize <= TwoTo32 then n == (length + partSize - 1) / partSize && length <= n * partSize
      else n * partSize < length
  {
    var v := (length % TwoTo32 + partSize - 1) % TwoTo32;
    Quotient(v, partSize, v / partSize);
    WrappedLength(length, partSize);
  }

  lemma WrappedLength(length: nat, partSize: nat)
    requires 0 < partSize < TwoTo32
    ensures var v := (length % TwoTo32 + partSize - 1) % TwoTo32;
      if length + partSize <= TwoTo32 then v == length + partSize - 1 else v < length
  {}

  lemma WholeParts(n: nat, partSize: nat)
    requires partSize > 0
    ensures 0 <= n * partSize && (n * partSize + partSize - 1) / partSize == n
  {
    var q := (n * partSize + partSize - 1) / partSize;
    Quotient(n * partSize + partSize - 1, partSize, q);
    assert (q + 1) * partSize == q * partSize + partSize && (n + 1) * partSize == n * partSize + partSize;
    CancelLess(partSize, n, q + 1);
    CancelLess(partSize, q, n + 1);
  }

  lemma FromDataIsFull(h: Hasher, data: Bytes, partSize: nat, bytes: seq<Bytes>, proofs: seq<Proof>, ps: seq<Option<Part>>)
    requires 0 < partSize < TwoTo32 && bytes == Chunks(Covered(data, partSize), partSize) && |ps| == |proofs| == |bytes|
    requires forall i :: 0 <= i < |ps| ==> ps[i] == Some(Part(i, bytes[i], proofs[i]))
    requires forall i :: 0 <= i < |bytes| ==>
      proofs[i].total == |bytes| && proofs[i].index == i && Verify(h, proofs[i], HashFromByteSlices(h, bytes), bytes[i])
    ensures Full(ps) && Contents(ps) == bytes && Stored(h, HashFromByteSlices(h, bytes), ps)
    ensures forall i :: 0 <= i < |ps| ==> Matching(ps[i].value, |ps|)
    ensures Count(Present(ps)) == |ps| && Sum(Sizes(ps)) == |Covered(data, partSize)|
  {
    FullCounts(Covered(data, partSize), partSize, ps);
    forall i | 0 <= i < |ps| ensures Matching(ps[i].value, |ps|) { LandsAtIndex(i, |ps|); }
  }

  /** The loop of `NewPartSetFromData` that slices the data. */
  method SplitBytes(data: Bytes, partSize: nat) returns (bytes: seq<Bytes>)
    requires 0 < partSize < TwoTo32
    ensures bytes == Chunks(Covered(data, partSize), partSize)
  {
    bytes := [];
    var n := PartCount32(|data|, partSize);
    ghost var covered := Covered(data, partSize);
    CoveredIff(data, partSize);
    for i := 0 to n
      invariant |bytes| == i && forall j :: 0 <= j < i ==> bytes[j] == Chunk(covered, partSize, j)
    {
      CoveredChunk(data, partSize, i);
      bytes := bytes + [data[i * partSize..Min(|data|, (i + 1) * partSize)]];
    }
  }

  /** What the loop slices is the chunk of what is covered. */
  lemma CoveredChunk(data: Bytes, partSize: nat, i: nat)
    requires 0 < partSize < TwoTo32 && i < PartCount32(|data|, partSize)
    ensures i < PartCount(Covered(data, partSize), partSize) && 0 <= i * partSize <= Min(|data|, (i + 1) * partSize)
    ensures data[i * partSize..Min(|data|, (i + 1) * partSize)] == Chunk(Covered(data, partSize), partSize, i)
  {
    CoveredIff(data, partSize);
    PartRange(Covered(data, partSize), partSize, i);
    MulMonotone(partSize, i + 1, PartCount32(|data|, partSize));
  }

  lemma EmptyCounts(n: nat)
    ensures Count(Present(Nones(n))) == 0 && Sum(Sizes(Nones(n))) == 0
  {
    var a, b := Masked(Present(Nones(n)), Ones(n)), Sizes(Nones(n));
    SumAtLeast(a, 0); SumAtMost(a, 0);
    SumAtLeast(b, 0); SumAtMost(b, 0);
  }

  lemma AddCounts(parts: seq<Option<Part>>, part: Part)
    requires part.index < |parts| && parts[part.index] == None
    ensures var r := parts[part.index := Some(part)];
      && Count(Present(r)) == Count(Present(parts)) + 1
      && Sum(Sizes(r)) == Sum(Sizes(parts)) + |part.bytes|
  {
    var r := parts[part.index := Some(part)];
    assert Present(r) == Present(parts)[part.index := true];
    MaskSumSet(Present(parts), Ones(|parts|), part.index);
    assert Sizes(r) == Sizes(parts)[part.index := |part.bytes|];
    SumUpdate(Sizes(parts), part.index, |part.bytes|);
  }

  /** The mask selects everything exactly when its count is its length. */
  lemma {:induction false} CountFull(mask: seq<bool>)
    ensures Count(mask) <= |mask|
    ensures Count(mask) == |mask| <==> forall i :: 0 <= i < |mask| ==> mask[i]
  {
    if |mask| > 0 {
      var n := |mask| - 1;
      CountFull(mask[..n]);
      assert Masked(mask, Ones(|mask|))[..n] == Masked(mask[..n], Ones(n));
    }
  }

  lemma FullCounts(data: Bytes, partSize: nat, ps: seq<Option<Part>>)
    requires partSize > 0 && |ps| == PartCount(data, partSize)
    requires forall i :: 0 <= i < |ps| ==> ps[i].Some? && ps[i].value.bytes == Chunk(data, partSize, i)
    ensures Count(Present(ps)) == |ps| && Sum(Sizes(ps)) == |data|
  {
    CountFull(Present(ps));
    var c := Chunks(data, partSize);
    SizesFlatten(ps, c);
    ChunksComplete(data, partSize);
  }

  lemma {:induction false} SizesFlatten(ps: seq<Option<Part>>, c: seq<Bytes>)
    requires |ps| == |c| && forall i :: 0 <= i < |ps| ==> ps[i].Some? && ps[i].value.bytes == c[i]
    ensures Sum(Sizes(ps)) == |Flatten(c)|
  {
    if |ps| > 0 {
      var n := |ps| - 1;
      SizesFlatten(ps[..n], c[..n]);
      assert c == c[..n] + [c[n]];
      FlattenAppend(c[..n], c[n]);
      assert Sizes(ps)[..n] == Sizes(ps[..n]);
    }
  }

  // ---- The reader ----

  class PartSetReader {
    var i: nat
    const parts: seq<Bytes>
    var rest: Bytes

    /** What is left to read. */
    ghost function Remaining(): Bytes
      reads this
    {
      rest + Flatten(if i < |parts| then parts[i + 1..] else [])
    }

    /** `NewPartSetReader`; the source indexes the first part. */
    constructor (parts: seq<Bytes>)
      requires |parts| > 0
      ensures this.parts == parts && Remaining() == Flatten(parts)
    {
      this.parts := parts;
      i, rest := 0, parts[0];
    }

    /** `Read` into a buffer of k bytes: the next k bytes, or all that is left
        together with end-of-file. It terminates whatever the part sizes. */
    method Read(k: nat) returns (out: Bytes, eof: bool)
      modifies this
      ensures out == Piece(old(Remaining()), k)
      ensures Remaining() == old(Remaining())[|out|..]
      ensures k > 0 ==> (eof <==> |out| < k)
      ensures i >= old(i) && (k <= |old(rest)| ==> i == old(i) && rest == old(rest)[k..])
      decreases if i < |parts| then |parts| - i else 0, k
    {
      var readerLen := |rest|;
      ghost var all := Remaining();
      if readerLen >= k {
        if rest == [] { return [], true; }
        out, eof := rest[..k], false;
        rest := rest[k..];
        assert all[k..] == rest + all[readerLen..];
      } else if readerLen > 0 {
        var n1, _ := Read(readerLen);
        var n2;
        n2, eof := Read(k - readerLen);
        out := n1 + n2;
        PieceSplits(all, readerLen, k);
      } else {
        var more := NextPart();
        if !more { return [], true; }
        out, eof := Read(k);
      }
    }

    /** On to the next part, once this one is read. */
    method NextPart() returns (more: bool)
      requires rest == []
      modifies this
      ensures i == old(i) + 1 && more == (i < |parts|) && Remaining() == old(Remaining())
      ensures !more ==> rest == [] && Remaining() == []
    {
      i := i + 1;
      more := i < |parts|;
      if more {
        rest := parts[i];
        assert parts[i..] == [parts[i]] + parts[i + 1..];
      }
    }
  }

  /** Reads of any sizes deliver consecutive pieces: put together they are the
      data from the start. */
  function Piece(remaining: Bytes, k: nat): Bytes { remaining[..Min(k, |remaining|)] }

  lemma PieceSplits(s: Bytes, a: nat, k: nat)
    requires a <= k && a <= |s|
    ensures Piece(s, k) == Piece(s, a) + Piece(s[a..], k - a)
    ensures s[a..][|Piece(s[a..], k - a)|..] == s[|Piece(s, k)|..]
  {}

  function Pieces(remaining: Bytes, sizes: seq<nat>): seq<Bytes> {
    if |sizes| == 0 then []
    else [Piece(remaining, sizes[0])] + Pieces(remaining[|Piece(remaining, sizes[0])|..], sizes[1..])
  }

  function SumOf(sizes: seq<nat>): nat {
    if |sizes| == 0 then 0 else sizes[0] + SumOf(sizes[1..])
  }

  lemma {:induction false} PiecesConcatenate(remaining: Bytes, sizes: seq<nat>)
    ensures Flatten(Pieces(remaining, sizes)) == remaining[..Min(SumOf(sizes), |remaining|)]
  {
    if |sizes| > 0 {
      var p := Piece(remaining, sizes[0]);
      PiecesConcatenate(remaining[|p|..], sizes[1..]);
      assert Pieces(remaining, sizes)[1..] == Pieces(remaining[|p|..], sizes[1..]);
    }
  }

  /** From a delivery to the bytes read: parts in any order, with repeats and
      rejected ones in between, then reads of any sizes, give the data. */
  method Reassemble(h: Hasher, data: Bytes, partSize: nat, stream: seq<Part>, sizes: seq<nat>) returns (out: seq<Bytes>, ghost c: (Bytes, Bytes))
    requires DigestSized(h) && partSize > 0 && data != [] && Delivers(h, Chunks(data, partSize), stream)
    ensures Collides(h, c) || Flatten(out) == data[..Min(SumOf(sizes), |data|)]
  {
    var n, root := PartCount(data, partSize), HashFromByteSlices(h, Chunks(data, partSize));
    var received := Collect(h, n, root, stream);
    c := DeliveryReassembles(h, data, partSize, stream);
    PartRangeNonEmpty(data, partSize);
    out := ReadBack(received, sizes);
    PiecesConcatenate(Flatten(Contents(received.parts)), sizes);
  }

  /** A set made from a header, and every part of a stream added to it. */
  method Collect(h: Hasher, total: nat, hash: Bytes, stream: seq<Part>) returns (received: PartSet)
    ensures received.Valid() && received.total == total
    ensures received.parts == AddedAll(h, hash, Nones(total), stream)
  {
    received := new PartSet.FromHeader(h, total, hash);
    for i := 0 to |stream|
      invariant fresh(received) && received.Valid()
      invariant received.parts == AddedAll(h, hash, Nones(total), stream[..i])
    {
      var _, _ := received.AddPart(stream[i]);
      assert stream[..i + 1][..i] == stream[..i];
    }
    assert stream[..|stream|] == stream;
  }

  /** Reads of the given sizes from a complete set. */
  method ReadBack(received: PartSet, sizes: seq<nat>) returns (out: seq<Bytes>)
    requires received.Valid() && received.total > 0
    requires Full(received.parts)
    ensures out == Pieces(Flatten(Contents(received.parts)), sizes)
  {
    var reader := received.GetReader();
    out := ReadAll(reader, sizes);
  }

  lemma PartRangeNonEmpty(data: Bytes, partSize: nat)
    requires partSize > 0 && data != []
    ensures PartCount(data, partSize) > 0
  {
    var n := PartCount(data, partSize);
    Quotient(|data| + partSize - 1, partSize, n);
  }

  method ReadAll(reader: PartSetReader, sizes: seq<nat>) returns (out: seq<Bytes>)
    modifies reader
    ensures out == Pieces(old(reader.Remaining()), sizes)
    decreases |sizes|
  {
    if |sizes| == 0 { return []; }
    var first, _ := reader.Read(sizes[0]);
    var rest := ReadAll(reader, sizes[1..]);
    out := [first] + rest;
  }
}
