/** Merkle tree hashing of `crypto/merkle/tree.go`: the recursive tree of
    section 2.1 of RFC 6962, and the in-place iterative form. */
module MerkleTree {
  import opened Basics
  import opened Products

  /** The digest function, and its three uses (`crypto/merkle/hash.go`).
      Nothing is assumed about it except, where a lemma says so, the digest size. */
  datatype Hasher = Hasher(sum: Bytes -> Bytes)

  const DigestSize: nat := 32

  ghost predicate DigestSized(h: Hasher) {
    forall x :: |h.sum(x)| == DigestSize
  }

  function Empty(h: Hasher): Bytes { h.sum([]) }

  function Leaf(h: Hasher, item: Bytes): Bytes { h.sum([0] + item) }

  function Inner(h: Hasher, left: Bytes, right: Bytes): Bytes { h.sum([1] + left + right) }

  /** Doubles k while it stays at most n. */
  function Doubled(k: nat, n: nat): (r: nat)
    requires 1 <= k <= n
    ensures r <= n < 2 * r
    decreases n - k
  {
    if 2 * k > n then k else Doubled(2 * k, n)
  }

  /** `getSplitPoint`: the largest power of two less than n; 0 for n = 1. */
  function SplitPoint(n: nat): (k: nat)
    requires n >= 1
    ensures n >= 2 ==> 1 <= k < n <= 2 * k
    ensures n == 1 ==> k == 0
  {
    var k := Doubled(1, n); // 1 << (bits.Len(n) - 1)
    DoubledIsPower(1, n);
    if k == n then k / 2 else k
  }

  lemma {:induction false} DoubledIsPower(k: nat, n: nat)
    requires 1 <= k <= n && IsPowerOf2(k)
    ensures IsPowerOf2(Doubled(k, n))
    decreases n - k
  {
    if 2 * k <= n { DoubledIsPower(2 * k, n); }
  }

  lemma SplitPointIsPower(n: nat)
    requires n >= 2
    ensures IsPowerOf2(SplitPoint(n))
  {
    DoubledIsPower(1, n);
  }

  /** The split point is the only power of two in its range. */
  lemma SplitPointUnique(n: nat, k: nat)
    requires n >= 2 && IsPowerOf2(k) && k < n <= 2 * k
    ensures k == SplitPoint(n)
  {
    SplitPointIsPower(n);
    PowersOf2Apart(k, SplitPoint(n));
    PowersOf2Apart(SplitPoint(n), k);
  }

  /** The tree over already hashed leaves. */
  function Root(h: Hasher, s: seq<Bytes>): Bytes
    decreases |s|
  {
    if |s| == 0 then Empty(h)
    else if |s| == 1 then s[0]
    else
      var k := SplitPoint(|s|);
      Inner(h, Root(h, s[..k]), Root(h, s[k..]))
  }

  function LeafHashes(h: Hasher, items: seq<Bytes>): (r: seq<Bytes>)
    ensures |r| == |items| && forall i :: 0 <= i < |items| ==> r[i] == Leaf(h, items[i])
  {
    seq(|items|, i requires 0 <= i < |items| => Leaf(h, items[i]))
  }

  /** `hashFromByteSlices` */
  function HashFromByteSlices(h: Hasher, items: seq<Bytes>): Bytes
    decreases |items|
  {
    if |items| == 0 then Empty(h)
    else if |items| == 1 then Leaf(h, items[0])
    else
      var k := SplitPoint(|items|);
      Inner(h, HashFromByteSlices(h, items[..k]), HashFromByteSlices(h, items[k..]))
  }

  lemma {:induction false} HashIsRoot(h: Hasher, items: seq<Bytes>)
    ensures HashFromByteSlices(h, items) == Root(h, LeafHashes(h, items))
    decreases |items|
  {
    if |items| >= 2 {
      var k := SplitPoint(|items|);
      HashIsRoot(h, items[..k]);
      HashIsRoot(h, items[k..]);
      assert LeafHashes(h, items)[..k] == LeafHashes(h, items[..k]);
      assert LeafHashes(h, items)[k..] == LeafHashes(h, items[k..]);
    }
  }

  /** One level of the iterative form: neighbours are combined, an odd last
      element is carried. */
  function Paired(h: Hasher, s: seq<Bytes>): (r: seq<Bytes>)
    ensures |r| == (|s| + 1) / 2
  {
    if |s| <= 1 then s
    else [Inner(h, s[0], s[1])] + Paired(h, s[2..])
  }

  lemma {:induction false} PairedConcat(h: Hasher, a: seq<Bytes>, b: seq<Bytes>)
    requires |a| % 2 == 0
    ensures Paired(h, a + b) == Paired(h, a) + Paired(h, b)
    decreases |a|
  {
    if |a| == 0 {
      assert a + b == b;
    } else {
      var head, s := Inner(h, a[0], a[1]), a + b;
      PairedConcat(h, a[2..], b);
      assert s[2..] == a[2..] + b;
      assert s[0] == a[0] && s[1] == a[1];
      assert [head] + (Paired(h, a[2..]) + Paired(h, b)) == ([head] + Paired(h, a[2..])) + Paired(h, b);
    }
  }

  /** Pairing once does not change the root. */
  lemma {:induction false} PairingKeepsRoot(h: Hasher, s: seq<Bytes>)
    ensures Root(h, Paired(h, s)) == Root(h, s)
    decreases |s|
  {
    if |s| == 2 {
      assert Paired(h, s) == [Inner(h, s[0], s[1])];
      assert SplitPoint(2) == 1;
    } else if |s| > 2 {
      var k := SplitPoint(|s|);
      PairingKeepsRoot(h, s[..k]);
      PairingKeepsRoot(h, s[k..]);
      PairedSplits(h, s);
    }
  }

  /** The next level splits where this one does, at half the position. */
  lemma PairedSplits(h: Hasher, s: seq<Bytes>)
    requires |s| > 2
    ensures var k, p := SplitPoint(|s|), Paired(h, s);
      && |p| >= 2 && 2 * SplitPoint(|p|) == k
      && p[..SplitPoint(|p|)] == Paired(h, s[..k]) && p[SplitPoint(|p|)..] == Paired(h, s[k..])
  {
    var k := SplitPoint(|s|);
    assert s == s[..k] + s[k..];
    SplitPointIsPower(|s|);
    SplitPointUnique((|s| + 1) / 2, k / 2);
    PairedConcat(h, s[..k], s[k..]);
  }

  /** `HashFromByteSlicesIterative`: the read and write positions share one
      array, and the result is the recursive hash for every input. */
  method HashFromByteSlicesIterative(h: Hasher, input: seq<Bytes>) returns (root: Bytes)
    ensures root == HashFromByteSlices(h, input)
  {
    var items := new Bytes[|input|];
    for i := 0 to |input|
      invariant forall j :: 0 <= j < i ==> items[j] == Leaf(h, input[j])
    {
      items[i] := Leaf(h, input[i]);
    }
    assert items[..|input|] == LeafHashes(h, input);
    HashIsRoot(h, input);
    var size := |input|;
    while size > 1
      invariant 0 <= size <= items.Length
      invariant Root(h, items[..size]) == Root(h, LeafHashes(h, input))
      invariant size == 0 <==> |input| == 0
    {
      PairingKeepsRoot(h, items[..size]);
      size := PairLevel(h, items, size);
    }
    root := if size == 0 then Empty(h) else items[0];
  }

  /** One pass of the inner loop, in place. */
  method PairLevel(h: Hasher, items: array<Bytes>, size: nat) returns (wp: nat)
    requires 2 <= size <= items.Length
    modifies items
    ensures 0 < wp < size && items[..wp] == Paired(h, old(items[..size]))
  {
    ghost var s, target := items[..size], Paired(h, items[..size]);
    var rp := 0;
    wp := 0;
    while rp < size
      invariant 0 <= wp <= rp <= size && (rp == 2 * wp || (rp == size && rp + 1 == 2 * wp))
      invariant forall j :: 0 <= j < wp ==> items[j] == target[j]
      invariant forall j :: rp <= j < size ==> items[j] == s[j]
    {
      PairedAt(h, s, wp);
      if rp + 1 < size {
        items[wp] := Inner(h, items[rp], items[rp + 1]);
        rp := rp + 2;
      } else {
        items[wp] := items[rp];
        rp := rp + 1;
      }
      wp := wp + 1;
    }
  }

  lemma {:induction false} PairedAt(h: Hasher, s: seq<Bytes>, i: nat)
    requires 2 * i < |s|
    ensures Paired(h, s)[i] == if 2 * i + 1 < |s| then Inner(h, s[2 * i], s[2 * i + 1]) else s[2 * i]
  {
    if i > 0 { PairedAt(h, s[2..], i - 1); }
  }
}
