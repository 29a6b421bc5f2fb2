/** Unsigned varints as in Go's encoding/binary, and the length delimiter that
    `parseDelimiter` of `types/share_merging.go` strips. */
module Varint {
  import opened Basics
  import opened Int64
  import opened Streams

  const MaxVarintLen64: nat := 10

  /** `binary.PutUvarint` */
  function PutUvarint(x: nat): (r: Bytes)
    ensures |r| >= 1
  {
    if x < 128 then [x] else [x % 128 + 128] + PutUvarint(x / 128)
  }

  /** `binary.ReadUvarint` with i bytes already read; `None` on overflow or
      when the input ends early. */
  function ReadUvarint(s: Bytes, i: nat): Option<nat>
    decreases |s|
  {
    if |s| == 0 || i >= MaxVarintLen64 then None
    else if s[0] < 128 then (if i == MaxVarintLen64 - 1 && s[0] > 1 then None else Some(s[0]))
    else
      var rest := ReadUvarint(s[1..], i + 1);
      if rest.None? then None else Some(s[0] - 128 + 128 * rest.value)
  }

  /** The values that fit once i bytes have been read: 2^(64 - 7i). */
  function Capacity(i: nat): nat
    requires i < MaxVarintLen64
    decreases MaxVarintLen64 - i
  {
    if i == MaxVarintLen64 - 1 then 2 else 128 * Capacity(i + 1)
  }

  lemma CapacityIs64Bit()
    ensures Capacity(0) == TwoTo64
  {
    assert Capacity(8) == 0x100 && Capacity(7) == 0x8000 && Capacity(6) == 0x40_0000;
    assert Capacity(5) == 0x2000_0000 && Capacity(4) == 0x10_0000_0000 && Capacity(3) == 0x800_0000_0000;
    assert Capacity(2) == 0x4_0000_0000_0000 && Capacity(1) == 0x200_0000_0000_0000;
  }

  /** Reading undoes writing, whatever follows. */
  lemma {:induction false} ReadPut(x: nat, rest: Bytes, i: nat)
    requires i < MaxVarintLen64 && x < Capacity(i)
    ensures ReadUvarint(PutUvarint(x) + rest, i) == Some(x)
    ensures |PutUvarint(x)| <= MaxVarintLen64 - i
    decreases x
  {
    if x >= 128 {
      var s := PutUvarint(x) + rest;
      assert x / 128 < Capacity(i + 1);
      ReadPut(x / 128, rest, i + 1);
      assert s[1..] == PutUvarint(x / 128) + rest;
      assert x == x % 128 + 128 * (x / 128);
    }
  }

  lemma {:induction false} ReadZeros(n: nat, i: nat)
    requires ReadUvarint(Zeros(n), i).Some?
    ensures ReadUvarint(Zeros(n), i) == Some(0)
  {}

  /** What was read from n bytes and padding is written in at most n bytes. */
  lemma {:induction false} PutFits(s: Bytes, pad: nat, i: nat)
    requires |s| > 0 && ReadUvarint(s + Zeros(pad), i).Some?
    ensures |PutUvarint(ReadUvarint(s + Zeros(pad), i).value)| <= |s|
    decreases |s|
  {
    var t := s + Zeros(pad);
    if s[0] >= 128 {
      var v := ReadUvarint(t[1..], i + 1).value;
      assert t[1..] == s[1..] + Zeros(pad);
      if |s| == 1 {
        assert t[1..] == Zeros(pad);
        ReadZeros(pad, i + 1);
      } else {
        PutFits(s[1..], pad, i + 1);
      }
      var w := s[0] - 128 + 128 * v;
      assert w / 128 == v;
    }
  }

  /** `MarshalDelimited` */
  function Delimited(item: Bytes): (r: Bytes)
    ensures |r| >= 1
  {
    PutUvarint(|item|) + item
  }

  /** `parseDelimiter`: the rest of the input and the length it announced. */
  function ParseDelimiter(input: Bytes): (r: Option<(Bytes, nat)>)
    ensures r.Some? && |input| > 0 ==> |r.value.0| < |input|
    ensures r.Some? && |input| == 0 ==> r.value == (input, 0)
  {
    if |input| == 0 then Some((input, 0))
    else
      var l := Min(MaxVarintLen64, |input|);
      var v := ReadUvarint(ZeroPad(input[..l], MaxVarintLen64), 0);
      if v.None? then None
      else
        DelimiterFits(input);
        Some((input[|PutUvarint(v.value)|..], v.value))
  }

  lemma DelimiterFits(input: Bytes)
    requires |input| > 0
    ensures var v := ReadUvarint(ZeroPad(input[..Min(MaxVarintLen64, |input|)], MaxVarintLen64), 0);
      v.Some? ==> |PutUvarint(v.value)| <= |input|
  {
    var s := input[..Min(MaxVarintLen64, |input|)];
    var pad := MaxVarintLen64 - |s|;
    assert ZeroPad(s, MaxVarintLen64) == s + Zeros(pad);
    if ReadUvarint(s + Zeros(pad), 0).Some? { PutFits(s, pad, 0); }
  }

  /** A delimiter is parsed back wherever the input is cut after it. */
  lemma ParseDelimited(x: nat, rest: Bytes)
    requires x < TwoTo64
    ensures ParseDelimiter(PutUvarint(x) + rest) == Some((rest, x))
  {
    CapacityIs64Bit();
    var input := PutUvarint(x) + rest;
    var l := Min(MaxVarintLen64, |input|);
    ReadPut(x, [], 0);
    var n := |PutUvarint(x)|;
    var padded := ZeroPad(input[..l], MaxVarintLen64);
    var tail := padded[n..];
    assert padded == PutUvarint(x) + tail;
    ReadPut(x, tail, 0);
    assert input[n..] == rest;
  }

  /** Padding, or nothing at all, announces length zero. */
  lemma ParsePadding(n: nat)
    ensures ParseDelimiter(Zeros(n)).Some? && ParseDelimiter(Zeros(n)).value.1 == 0
  {
    if n > 0 {
      var s := Zeros(n)[..Min(MaxVarintLen64, n)];
      assert ZeroPad(s, MaxVarintLen64)[0] == 0;
    }
  }
}
