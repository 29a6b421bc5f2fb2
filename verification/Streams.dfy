/** Byte streams cut into pieces of equal width and put together again. */
module Streams {
  import opened Basics

  function Flatten(s: seq<Bytes>): Bytes {
    if |s| == 0 then [] else s[0] + Flatten(s[1..])
  }

  lemma {:induction false} FlattenAppend(s: seq<Bytes>, x: Bytes)
    ensures Flatten(s + [x]) == Flatten(s) + x
  {
    if |s| == 0 {
      assert s + [x] == [x];
    } else {
      FlattenAppend(s[1..], x);
      assert (s + [x])[1..] == s[1..] + [x];
    }
  }

  lemma {:induction false} FlattenConcat(a: seq<Bytes>, b: seq<Bytes>)
    ensures Flatten(a + b) == Flatten(a) + Flatten(b)
  {
    if |a| == 0 {
      assert a + b == b;
    } else {
      assert (a + b)[1..] == a[1..] + b && (a + b)[0] == a[0];
      FlattenConcat(a[1..], b);
    }
  }

  /** `zeroPadIfNecessary` */
  function ZeroPad(s: Bytes, width: nat): (r: Bytes)
    ensures |r| == if |s| < width then width else |s|
  {
    if |s| < width then s + Zeros(width - |s|) else s
  }

  /** The bytes from `pos` on that fill one piece. */
  function ChunkAt(s: Bytes, pos: nat, width: nat): Bytes
    requires pos <= |s|
  {
    s[pos..Min(pos + width, |s|)]
  }

  /** The first n bytes of a stream followed by zeros for ever. */
  function Padded(s: Bytes, n: nat): Bytes {
    if n <= |s| then s[..n] else s + Zeros(n - |s|)
  }

  lemma PaddedGrows(s: Bytes, pos: nat, width: nat)
    requires pos <= |s|
    ensures Padded(s, pos) + ZeroPad(ChunkAt(s, pos, width), width) == Padded(s, pos + width)
  {
    if pos + width > |s| {
      assert s[..pos] + s[pos..] == s;
    }
  }

  /** Piece j is bytes `j * width` onwards, the last one padded with zeros. */
  ghost predicate PaddedPieces(p: seq<Bytes>, s: Bytes, width: nat) {
    forall j :: 0 <= j < |p| ==> PaddedPiece(p[j], s, width, j)
  }

  ghost predicate PaddedPiece(x: Bytes, s: Bytes, width: nat, j: nat) {
    0 <= j * width < |s| && x == ZeroPad(ChunkAt(s, j * width, width), width)
  }

  lemma {:induction false} PiecesFlatten(p: seq<Bytes>, s: Bytes, width: nat, k: nat)
    requires PaddedPieces(p, s, width) && k <= |p|
    ensures 0 <= k * width && (width > 0 ==> k * width < |s| + width)
    ensures Flatten(p[..k]) == Padded(s, k * width)
  {
    if k > 0 {
      PiecesFlatten(p, s, width, k - 1);
      assert PaddedPiece(p[k - 1], s, width, k - 1);
      assert p[..k] == p[..k - 1] + [p[k - 1]];
      FlattenAppend(p[..k - 1], p[k - 1]);
      PaddedGrows(s, (k - 1) * width, width);
      assert (k - 1) * width + width == k * width;
    }
  }

  /** Pieces that cover the stream put together give it back, padded with less
      than one piece of zeros. */
  lemma PiecesCover(p: seq<Bytes>, s: Bytes, width: nat) returns (pad: nat)
    requires PaddedPieces(p, s, width) && width > 0 && |s| <= |p| * width
    ensures Flatten(p) == s + Zeros(pad) && pad < width
  {
    PiecesFlatten(p, s, width, |p|);
    assert p[..|p|] == p;
    pad := |p| * width - |s|;
    assert pad == 0 ==> s[..|s|] == s + Zeros(pad);
  }

  /** Removing a known prefix from the first of two parts. */
  lemma CutPrefix(a: Bytes, b: Bytes, head: Bytes, tail: Bytes)
    requires a + b == head + tail && |head| <= |a|
    ensures a[..|head|] == head && a == head + a[|head|..] && a[|head|..] + b == tail
  {
    assert a[..|head|] == (a + b)[..|head|];
    assert a[|head|..] + b == (a + b)[|head|..];
  }
}
