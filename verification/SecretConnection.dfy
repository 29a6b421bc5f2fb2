/** Encrypted frames over a byte stream (`privval/secret_connection.go`). */
module SecretConnection {
  import opened Basics
  import opened Streams

  const DataLenSize: nat := 4
  const DataMaxSize: nat := 1024
  const TotalFrameSize: nat := DataMaxSize + DataLenSize
  const AeadNonceSize: nat := 12
  const MaxUint64: nat := 0xFFFF_FFFF_FFFF_FFFF

  // ---- Little-endian numbers ----

  function Power256(n: nat): (r: nat)
    ensures r >= 1
  {
    if n == 0 then 1 else 256 * Power256(n - 1)
  }

  function PutLE(x: nat, width: nat): (r: Bytes)
    ensures |r| == width
  {
    if width == 0 then [] else [x % 256] + PutLE(x / 256, width - 1)
  }

  function GetLE(s: Bytes): nat {
    if |s| == 0 then 0 else s[0] + 256 * GetLE(s[1..])
  }

  lemma {:induction false} GetPutLE(x: nat, width: nat)
    requires x < Power256(width)
    ensures GetLE(PutLE(x, width)) == x
  {
    if width > 0 {
      assert x / 256 < Power256(width - 1);
      GetPutLE(x / 256, width - 1);
      assert PutLE(x, width)[1..] == PutLE(x / 256, width - 1);
    }
  }

  lemma Widths()
    ensures Power256(4) == 0x1_0000_0000 && Power256(8) == MaxUint64 + 1
  {
    assert Power256(2) == 0x1_0000 && Power256(4) == 0x1_0000_0000;
    assert Power256(6) == 0x1_0000_0000_0000;
  }

  // ---- Nonces ----

  /** The nonce of the n-th frame: four zero bytes and a 64-bit counter. */
  function Nonce(n: nat): (r: Bytes)
    ensures |r| == AeadNonceSize
  {
    Zeros(4) + PutLE(n, 8)
  }

  lemma NonceCounter(n: nat)
    requires n <= MaxUint64
    ensures GetLE(Nonce(n)[4..]) == n
  {
    Widths();
    assert Nonce(n)[4..] == PutLE(n, 8);
    GetPutLE(n, 8);
  }

  lemma NoncesDiffer(a: nat, b: nat)
    requires a <= MaxUint64 && b <= MaxUint64 && a != b
    ensures Nonce(a) != Nonce(b)
  {
    NonceCounter(a);
    NonceCounter(b);
  }

  /** `incrNonce`; `None` where it panics rather than wrap around. */
  function IncrNonce(nonce: Bytes): Option<Bytes>
    requires |nonce| == AeadNonceSize
  {
    var counter := GetLE(nonce[4..]);
    if counter == MaxUint64 then None else Some(nonce[..4] + PutLE(counter + 1, 8))
  }

  lemma IncrNonceCounts(n: nat)
    requires n <= MaxUint64
    ensures IncrNonce(Nonce(n)) == if n == MaxUint64 then None else Some(Nonce(n + 1))
  {
    NonceCounter(n);
    assert Nonce(n)[..4] == Zeros(4);
  }

  // ---- Frames ----

  /** The chunk's length, the chunk, and whatever the pooled buffer held. */
  predicate Frames(frame: Bytes, chunk: Bytes) {
    && |frame| == TotalFrameSize && 0 < |chunk| <= DataMaxSize
    && frame[..DataLenSize] == PutLE(|chunk|, DataLenSize)
    && frame[DataLenSize..DataLenSize + |chunk|] == chunk
  }

  /** Writing the length and the chunk over a buffer. */
  function FrameOf(buffer: Bytes, chunk: Bytes): (r: Bytes)
    requires |buffer| == TotalFrameSize && 0 < |chunk| <= DataMaxSize
    ensures Frames(r, chunk)
  {
    PutLE(|chunk|, DataLenSize) + chunk + buffer[DataLenSize + |chunk|..]
  }

  lemma FrameLength(frame: Bytes, chunk: Bytes)
    requires Frames(frame, chunk)
    ensures GetLE(frame[..DataLenSize]) == |chunk|
  {
    Widths();
    GetPutLE(|chunk|, DataLenSize);
  }

  /** The cipher under the key of one direction. */
  datatype Aead = Aead(seal: (Bytes, Bytes) -> Bytes, open: (Bytes, Bytes) -> Option<Bytes>)

  /** Opening undoes sealing under the same nonce (section 2.8 of RFC 8439). */
  ghost predicate Lawful(a: Aead) {
    forall nonce, frame :: a.open(nonce, a.seal(nonce, frame)) == Some(frame)
  }

  /** The frame of a chunk sealed with the n-th nonce. */
  ghost predicate Sealed(a: Aead, sealedFrame: Bytes, chunk: Bytes, n: nat) {
    exists frame :: Frames(frame, chunk) && sealedFrame == a.seal(Nonce(n), frame)
  }

  lemma SealFrame(a: Aead, buffer: Bytes, chunk: Bytes, n: nat)
    requires |buffer| == TotalFrameSize && 0 < |chunk| <= DataMaxSize
    ensures Sealed(a, a.seal(Nonce(n), FrameOf(buffer, chunk)), chunk, n)
  {
    assert Frames(FrameOf(buffer, chunk), chunk);
  }

  /** Opening a frame and cutting out its chunk; `None` for the errors that
      `Read` has about a frame. */
  function Unframe(a: Aead, nonce: Bytes, sealedFrame: Bytes): Option<Bytes> {
    var plain := a.open(nonce, sealedFrame);
    if plain.None? || |plain.value| != TotalFrameSize then None
    else
      var chunkLength := GetLE(plain.value[..DataLenSize]);
      if chunkLength > DataMaxSize then None else Some(plain.value[DataLenSize..DataLenSize + chunkLength])
  }

  /** What was sealed comes out. */
  lemma OpenSealed(a: Aead, sealedFrame: Bytes, chunk: Bytes, n: nat)
    requires Lawful(a) && Sealed(a, sealedFrame, chunk, n)
    ensures Unframe(a, Nonce(n), sealedFrame) == Some(chunk) && |chunk| > 0
  {
    var frame :| Frames(frame, chunk) && sealedFrame == a.seal(Nonce(n), frame);
    FrameLength(frame, chunk);
  }

  // ---- Bytes in, bytes out ----

  /** The frames under way with the chunks in them, what the reader has left
      over, and everything written and read so far. */
  datatype Flow = Flow(wire: seq<Bytes>, chunks: seq<Bytes>, received: nat, buffer: Bytes, written: Bytes, read: Bytes)

  ghost predicate Flows(a: Aead, f: Flow) {
    InFlight(a, f.wire, f.chunks, f.received) && f.written == f.read + f.buffer + Flatten(f.chunks)
  }

  /** Frame i holds chunk i under the nonce that is its turn. */
  ghost predicate InFlight(a: Aead, wire: seq<Bytes>, chunks: seq<Bytes>, received: nat) {
    |chunks| == |wire| && forall i {:trigger wire[i]} :: 0 <= i < |wire| ==> Sealed(a, wire[i], chunks[i], received + i)
  }

  lemma FirstArrives(a: Aead, wire: seq<Bytes>, chunks: seq<Bytes>, received: nat)
    requires InFlight(a, wire, chunks, received) && |wire| > 0
    ensures Sealed(a, wire[0], chunks[0], received)
    ensures InFlight(a, wire[1..], chunks[1..], received + 1)
  {
    assert received + 0 == received;
    forall i | 0 <= i < |wire[1..]| ensures Sealed(a, wire[1..][i], chunks[1..][i], received + 1 + i) {
      var j := i + 1;
      assert wire[1..][i] == wire[j] && chunks[1..][i] == chunks[j] && received + 1 + i == received + j;
    }
  }

  lemma SendKeeps(a: Aead, f: Flow, sealedFrame: Bytes, chunk: Bytes)
    requires Flows(a, f) && Sealed(a, sealedFrame, chunk, f.received + |f.wire|)
    ensures Flows(a, f.(wire := f.wire + [sealedFrame], chunks := f.chunks + [chunk], written := f.written + chunk))
  {
    FlattenAppend(f.chunks, chunk);
    assert f.read + f.buffer + Flatten(f.chunks) + chunk == f.read + f.buffer + (Flatten(f.chunks) + chunk);
  }

  lemma TakeKeeps(a: Aead, f: Flow)
    requires Flows(a, f) && |f.wire| > 0 && f.buffer == []
    ensures Sealed(a, f.wire[0], f.chunks[0], f.received)
    ensures Flows(a, f.(wire := f.wire[1..], chunks := f.chunks[1..], received := f.received + 1, buffer := f.chunks[0]))
  {
    FirstArrives(a, f.wire, f.chunks, f.received);
    assert Flatten(f.chunks) == f.chunks[0] + Flatten(f.chunks[1..]);
    assert f.read + [] + Flatten(f.chunks) == f.read + f.chunks[0] + Flatten(f.chunks[1..]);
  }

  /** The next frame opens to the next chunk, and the counter goes on. */
  lemma FrameArrives(a: Aead, f: Flow)
    requires Lawful(a) && Flows(a, f) && |f.wire| > 0 && f.buffer == [] && f.received < MaxUint64
    ensures Unframe(a, Nonce(f.received), f.wire[0]) == Some(f.chunks[0]) && |f.chunks[0]| > 0
    ensures Flows(a, f.(wire := f.wire[1..], chunks := f.chunks[1..], received := f.received + 1, buffer := f.chunks[0]))
    ensures IncrNonce(Nonce(f.received)) == Some(Nonce(f.received + 1))
  {
    TakeKeeps(a, f);
    OpenSealed(a, f.wire[0], f.chunks[0], f.received);
    IncrNonceCounts(f.received);
  }

  lemma DrainKeeps(a: Aead, f: Flow, n: nat)
    requires Flows(a, f) && n <= |f.buffer|
    ensures Flows(a, f.(buffer := f.buffer[n..], read := f.read + f.buffer[..n]))
  {
    assert f.buffer == f.buffer[..n] + f.buffer[n..];
  }

  ghost predicate Numbered(nonces: seq<Bytes>) {
    |nonces| <= MaxUint64 + 1 && forall i :: 0 <= i < |nonces| ==> nonces[i] == Nonce(i)
  }

  lemma NumberedGrows(nonces: seq<Bytes>)
    requires Numbered(nonces) && |nonces| <= MaxUint64
    ensures Numbered(nonces + [Nonce(|nonces|)])
  {}

  // ---- One direction of a connection ----

  /** The writing end, the sealed frames under way, and the reading end. The
      ghost fields record what went in, what came out and how. */
  class Direction {
    const aead: Aead
    var sendNonce: Bytes
    var wire: seq<Bytes>
    var recvNonce: Bytes
    var recvBuffer: Bytes

    ghost var written: Bytes
    ghost var read: Bytes
    ghost var chunks: seq<Bytes>
    ghost var nonces: seq<Bytes>
    ghost var received: nat

    ghost function Value(): Flow
      reads this
    {
      Flow(wire, chunks, received, recvBuffer, written, read)
    }

    /** Both counters equal the frames processed on their side. */
    ghost predicate Valid()
      reads this
    {
      && Lawful(aead) && Flows(aead, Value()) && Numbered(nonces)
      && |nonces| == received + |wire| <= MaxUint64
      && sendNonce == Nonce(|nonces|) && recvNonce == Nonce(received)
    }

    constructor (aead: Aead)
      requires Lawful(aead)
      ensures Valid() && this.aead == aead && written == [] && read == [] && nonces == []
    {
      this.aead := aead;
      sendNonce, wire, recvNonce, recvBuffer := Nonce(0), [], Nonce(0), [];
      written, read, chunks, nonces, received := [], [], [], [], 0;
    }

    /** One turn of the loop of `Write`. False when the counter is exhausted: the
        frame was sealed with the last nonce but not sent, and the process
        panics. */
    method WriteChunk(chunk: Bytes, buffer: Bytes) returns (ok: bool)
      requires Valid() && 0 < |chunk| <= DataMaxSize && |buffer| == TotalFrameSize
      modifies this
      ensures ok <==> old(|nonces|) < MaxUint64
      ensures ok ==> Valid() && written == old(written) + chunk && read == old(read)
      ensures Numbered(nonces) && |nonces| == old(|nonces|) + 1
    {
      var sealedFrame := aead.seal(sendNonce, FrameOf(buffer, chunk));
      SealFrame(aead, buffer, chunk, |nonces|);
      IncrNonceCounts(|nonces|);
      var next := IncrNonce(sendNonce);
      NumberedGrows(nonces);
      nonces := nonces + [sendNonce];
      if next.None? { return false; }
      SendKeeps(aead, Value(), sealedFrame, chunk);
      sendNonce, wire := next.value, wire + [sealedFrame];
      chunks, written := chunks + [chunk], written + chunk;
      ok := true;
    }

    /** `Write`; false where it panics, exactly when the frames needed for 1024
        bytes each use up the counter. */
    method Write(data: Bytes, buffer: Bytes) returns (ok: bool)
      requires Valid() && |buffer| == TotalFrameSize
      modifies this
      ensures ok <==> old(|nonces|) + (|data| + 1023) / 1024 <= MaxUint64
      ensures ok ==> Valid() && written == old(written) + data && read == old(read)
      ensures ok ==> |nonces| == old(|nonces|) + (|data| + 1023) / 1024
      ensures Numbered(nonces)
    {
      var rest := data;
      ok := true;
      while 0 < |rest|
        invariant Valid() && read == old(read)
        invariant old(written) + data == written + rest
        invariant ok && |nonces| + (|rest| + 1023) / 1024 == old(|nonces|) + (|data| + 1023) / 1024
      {
        var n := Min(DataMaxSize, |rest|);
        var chunk := rest[..n];
        assert written + rest == (written + chunk) + rest[n..];
        rest := rest[n..];
        ok := WriteChunk(chunk, buffer);
        if !ok { return; }
      }
    }

    /** `Read` into a buffer of some size; `None` when no frame has arrived. The
        errors about a frame that came cannot happen. */
    method Read(size: nat) returns (data: Option<Bytes>)
      requires Valid()
      modifies this
      ensures Valid() && written == old(written) && nonces == old(nonces)
      ensures data.None? ==> read == old(read) && old(recvBuffer) == [] && old(wire) == []
      ensures data.Some? ==> read == old(read) + data.value && |data.value| <= size
      ensures data.Some? && size > 0 ==> |data.value| > 0
    {
      if 0 < |recvBuffer| {
        var n := Min(size, |recvBuffer|);
        data := Some(recvBuffer[..n]);
        DrainKeeps(aead, Value(), n);
        read, recvBuffer := read + recvBuffer[..n], recvBuffer[n..];
        return;
      }
      if |wire| == 0 { return None; }
      var chunk := OpenFrame();
      var n := Min(size, |chunk|);
      data := Some(chunk[..n]);
      DrainKeeps(aead, Value().(buffer := chunk), n);
      read := read + chunk[..n];
      if n < |chunk| { recvBuffer := chunk[n..]; }
    }

    /** Taking the next frame off the wire. */
    method OpenFrame() returns (chunk: Bytes)
      requires Valid() && |wire| > 0 && recvBuffer == []
      modifies this`wire, this`recvNonce, this`chunks, this`received
      ensures |chunk| > 0 && Flows(aead, Value().(buffer := chunk))
      ensures |nonces| == received + |wire| && recvNonce == Nonce(received)
    {
      FrameArrives(aead, Value());
      var plain := Unframe(aead, recvNonce, wire[0]);
      if plain.None? { assert false; }
      chunk := plain.value;
      recvNonce, wire := IncrNonce(recvNonce).value, wire[1..];
      chunks, received := chunks[1..], received + 1;
    }
  }

  /** What was read is always a prefix of what was written, and all of it once
      nothing is under way. */
  lemma ReadIsPrefix(a: Aead, f: Flow)
    requires Flows(a, f)
    ensures f.read <= f.written
    ensures f.wire == [] && f.buffer == [] ==> f.read == f.written
  {
    assert f.written == f.read + (f.buffer + Flatten(f.chunks));
  }

  /** Counters that never wrap mean nonces that never repeat, the last one
      included. */
  lemma NoncesNeverRepeat(nonces: seq<Bytes>, i: nat, j: nat)
    requires Numbered(nonces) && i < j < |nonces|
    ensures nonces[i] != nonces[j]
  {
    NoncesDiffer(i, j);
  }
}
