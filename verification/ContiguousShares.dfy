/** Transactions, state roots and evidence: length-delimited, laid out
    contiguously over fixed-size shares, and parsed back
    (`types/share_splitting.go`, `types/share_merging.go`). */
module ContiguousShares {
  import opened Basics
  import opened Int64
  import opened Streams
  import opened Varint
  import opened ShareConstants

  // ---- Splitting ----

  /** Where a pair of indices into the raw data points in the whole stream. */
  function Position(raw: seq<Bytes>, outer: nat, inner: nat): nat
    requires outer <= |raw|
  {
    |Flatten(raw[..outer])| + inner
  }

  ghost predicate AtCursor(raw: seq<Bytes>, outer: nat, inner: nat) {
    outer <= |raw| && (if outer < |raw| then inner < |raw[outer]| else inner == 0)
  }

  lemma PositionOf(raw: seq<Bytes>, outer: nat, inner: nat)
    requires outer < |raw| && inner <= |raw[outer]|
    ensures Position(raw, outer, inner) <= |Flatten(raw)|
    ensures Position(raw, outer + 1, 0) == Position(raw, outer, |raw[outer]|) <= |Flatten(raw)|
    ensures forall k :: 0 <= k <= |raw[outer]| - inner ==>
      Flatten(raw)[Position(raw, outer, inner)..][..k] == raw[outer][inner..inner + k]
  {
    var before, item, after := Flatten(raw[..outer]), raw[outer], Flatten(raw[outer + 1..]);
    assert raw == raw[..outer] + ([item] + raw[outer + 1..]);
    FlattenConcat(raw[..outer], [item] + raw[outer + 1..]);
    assert Flatten(raw) == before + (item + after);
    assert raw[..outer + 1] == raw[..outer] + [item];
    FlattenAppend(raw[..outer], item);
  }

  /** The chunk gathered between two cursors. */
  ghost predicate Fetched(raw: seq<Bytes>, pos: nat, chunk: Bytes, outer: nat, inner: nat) {
    && AtCursor(raw, outer, inner)
    && pos + |chunk| <= |Flatten(raw)|
    && chunk == Flatten(raw)[pos..pos + |chunk|]
    && Position(raw, outer, inner) == pos + |chunk|
  }

  lemma FetchMore(raw: seq<Bytes>, pos: nat, chunk: Bytes, outer: nat, inner: nat, k: nat)
    requires forall i :: 0 <= i < |raw| ==> |raw[i]| > 0
    requires Fetched(raw, pos, chunk, outer, inner) && outer < |raw| && inner + k <= |raw[outer]|
    ensures inner + k == |raw[outer]| ==> Fetched(raw, pos, chunk + raw[outer][inner..inner + k], outer + 1, 0)
    ensures inner + k < |raw[outer]| ==> Fetched(raw, pos, chunk + raw[outer][inner..inner + k], outer, inner + k)
  {
    PositionOf(raw, outer, inner);
    PositionOf(raw, outer, inner + k);
    var s, at := Flatten(raw), Position(raw, outer, inner);
    assert s[at..][..k] == s[at..at + k];
    assert s[pos..at] + s[at..at + k] == s[pos..at + k];
  }

  /** Appends k bytes of the current item and moves the cursor. */
  method Fetch(raw: seq<Bytes>, ghost pos: nat, chunk: Bytes, outer: nat, inner: nat, k: nat)
    returns (c: Bytes, o: nat, i: nat)
    requires forall j :: 0 <= j < |raw| ==> |raw[j]| > 0
    requires Fetched(raw, pos, chunk, outer, inner) && outer < |raw| && inner + k <= |raw[outer]|
    ensures Fetched(raw, pos, c, o, i) && |c| == |chunk| + k
    ensures o == if inner + k == |raw[outer]| then outer + 1 else outer
  {
    FetchMore(raw, pos, chunk, outer, inner, k);
    c, o, i := chunk + raw[outer][inner..inner + k], outer, inner + k;
    if i >= |raw[outer]| {
      i := 0;
      o := o + 1;
    }
  }

  lemma FetchedAll(raw: seq<Bytes>, pos: nat, chunk: Bytes, outer: nat, inner: nat, width: nat)
    requires Fetched(raw, pos, chunk, outer, inner) && |chunk| <= width
    requires |chunk| == width || outer == |raw|
    ensures chunk == ChunkAt(Flatten(raw), pos, width)
  {
    assert raw[..|raw|] == raw;
  }

  /** Where the item that holds offset `pos` of the stream ends. */
  function ItemEnd(raw: seq<Bytes>, pos: nat): nat
    requires pos < |Flatten(raw)|
  {
    if pos < |raw[0]| then |raw[0]| else |raw[0]| + ItemEnd(raw[1..], pos - |raw[0]|)
  }

  lemma {:induction false} ItemEndAt(raw: seq<Bytes>, outer: nat, inner: nat)
    requires outer < |raw| && inner < |raw[outer]|
    ensures Position(raw, outer, inner) < |Flatten(raw)|
    ensures ItemEnd(raw, Position(raw, outer, inner)) == Position(raw, outer + 1, 0)
  {
    PositionOf(raw, outer, inner);
    if outer > 0 {
      ItemEndAt(raw[1..], outer - 1, inner);
      assert raw[..outer][1..] == raw[1..][..outer - 1] && raw[..outer + 1][1..] == raw[1..][..outer];
    } else {
      assert raw[..1][1..] == [];
    }
  }

  /** The reserved byte of a share that starts at offset `pos`: where in the
      share its second item begins, zero if it holds a single one. */
  function ReservedByte(raw: seq<Bytes>, pos: nat, width: nat): nat
    requires pos < |Flatten(raw)|
  {
    var end := ItemEnd(raw, pos);
    if pos < end < Min(pos + width, |Flatten(raw)|) then end - pos + NamespaceSize + ShareReservedBytes else 0
  }

  /** An item begins at this offset of the stream. */
  ghost predicate IsStart(raw: seq<Bytes>, pos: nat) {
    exists k :: 0 <= k < |raw| && Position(raw, k, 0) == pos
  }

  ghost predicate NoStart(raw: seq<Bytes>, from: nat, to: nat) {
    forall pos: nat :: from <= pos < to ==> !IsStart(raw, pos)
  }

  /** The byte names the first item that begins in the share at offset `pos`:
      zero if none does, its place in the share otherwise. */
  ghost predicate NamesFirstStart(b: nat, raw: seq<Bytes>, pos: nat, width: nat) {
    var header := NamespaceSize + ShareReservedBytes;
    if b == 0 then NoStart(raw, pos, pos + width)
    else header <= b < header + width && IsStart(raw, pos + b - header) && NoStart(raw, pos, pos + b - header)
  }

  /** Behind the first item the starts are those of the other items. */
  lemma StartShift(raw: seq<Bytes>, pos: nat)
    requires |raw| > 0
    ensures IsStart(raw, pos) <==> pos == 0 || (pos >= |raw[0]| && IsStart(raw[1..], pos - |raw[0]|))
  {
    forall k | 0 < k <= |raw| ensures Position(raw, k, 0) == |raw[0]| + Position(raw[1..], k - 1, 0) {
      assert raw[..k][1..] == raw[1..][..k - 1];
    }
    assert Position(raw, 0, 0) == 0;
    if pos >= |raw[0]| && IsStart(raw[1..], pos - |raw[0]|) {
      var k :| 0 <= k < |raw[1..]| && Position(raw[1..], k, 0) == pos - |raw[0]|;
      assert Position(raw, k + 1, 0) == pos;
    }
  }

  /** No item begins inside another, and the next one where it ends. */
  lemma {:induction false} ItemEndIsNextStart(raw: seq<Bytes>, pos: nat)
    requires forall i :: 0 <= i < |raw| ==> |raw[i]| > 0
    requires pos < |Flatten(raw)|
    ensures pos < ItemEnd(raw, pos) <= |Flatten(raw)|
    ensures NoStart(raw, pos + 1, ItemEnd(raw, pos))
    ensures ItemEnd(raw, pos) < |Flatten(raw)| ==> IsStart(raw, ItemEnd(raw, pos))
  {
    var first, end := |raw[0]|, ItemEnd(raw, pos);
    if pos >= first { ItemEndIsNextStart(raw[1..], pos - first); }
    forall q: nat | pos + 1 <= q < end ensures !IsStart(raw, q) { StartShift(raw, q); }
    StartShift(raw, end);
    if pos < first < |Flatten(raw)| { StartShift(raw[1..], 0); }
  }

  lemma {:induction false} StartsAreInside(raw: seq<Bytes>, pos: nat)
    requires forall i :: 0 <= i < |raw| ==> |raw[i]| > 0
    requires IsStart(raw, pos)
    ensures pos < |Flatten(raw)|
  {
    var k :| 0 <= k < |raw| && Position(raw, k, 0) == pos;
    PositionOf(raw, k, 0);
  }

  /** Exactly when the reserved byte is right: no item begins at the very start
      of the share. */
  lemma ReservedByteIff(raw: seq<Bytes>, pos: nat, width: nat)
    requires forall i :: 0 <= i < |raw| ==> |raw[i]| > 0
    requires pos < |Flatten(raw)| && width > 0
    ensures NamesFirstStart(ReservedByte(raw, pos, width), raw, pos, width) <==> !IsStart(raw, pos)
  {
    var end := ItemEnd(raw, pos);
    ItemEndIsNextStart(raw, pos);
    forall q: nat | |Flatten(raw)| <= q ensures !IsStart(raw, q) {
      if IsStart(raw, q) { StartsAreInside(raw, q); }
    }
  }

  /** Two items in one share: the byte names the second, the first begins at
      the head of the share. */
  lemma TwoItemShare(x: byte, y: byte)
    ensures var raw: seq<Bytes> := [[x], [y]];
      && ReservedByte(raw, 0, TxShareSize) == NamespaceSize + ShareReservedBytes + 1
      && NamesFirstStart(NamespaceSize + ShareReservedBytes, raw, 0, TxShareSize)
      && !NamesFirstStart(ReservedByte(raw, 0, TxShareSize), raw, 0, TxShareSize)
  {
    var raw: seq<Bytes> := [[x], [y]];
    assert raw[1..] == [[y]] && Flatten(raw) == [x] + ([y] + Flatten(raw[1..][1..]));
    assert Position(raw, 0, 0) == 0;
    ReservedByteIff(raw, 0, TxShareSize);
  }

  /** `getNextChunk`: the next `width` bytes of the stream, however many items
      they span, and the share's reserved byte, which always fits a byte. */
  method GetNextChunk(raw: seq<Bytes>, outerIndex: nat, innerIndex: nat, width: nat)
    returns (chunk: Bytes, outer: nat, inner: nat, start: nat)
    requires forall i :: 0 <= i < |raw| ==> |raw[i]| > 0
    requires AtCursor(raw, outerIndex, innerIndex) && outerIndex < |raw| && 0 < width <= TxShareSize
    ensures AtCursor(raw, outer, inner)
    ensures Position(raw, outerIndex, innerIndex) < |Flatten(raw)|
    ensures chunk == ChunkAt(Flatten(raw), Position(raw, outerIndex, innerIndex), width)
    ensures Position(raw, outer, inner) == Position(raw, outerIndex, innerIndex) + |chunk|
    ensures start < 256
    ensures start == ReservedByte(raw, Position(raw, outerIndex, innerIndex), width)
  {
    chunk, outer, inner, start := [], outerIndex, innerIndex, 0;
    var firstBytesToFetch, curIndex := 0, 0;
    ghost var pos := Position(raw, outerIndex, innerIndex);
    PositionOf(raw, outerIndex, innerIndex);
    ItemEndAt(raw, outerIndex, innerIndex);
    ghost var end := ItemEnd(raw, pos);
    while curIndex < width && outer < |raw|
      invariant Fetched(raw, pos, chunk, outer, inner) && curIndex == |chunk| <= width
      invariant curIndex == 0 ==> outer == outerIndex && inner == innerIndex && start == 0
      invariant firstBytesToFetch <= curIndex
      invariant 0 < curIndex ==> firstBytesToFetch == Min(end - pos, width) && (outer > outerIndex || curIndex == width)
      invariant start == if end - pos < curIndex then end - pos + NamespaceSize + ShareReservedBytes else 0
      decreases width - curIndex
    {
      var bytesToFetch := Min(|raw[outer]| - inner, width - curIndex);
      if curIndex == 0 {
        firstBytesToFetch := bytesToFetch;
      }
      if curIndex != 0 {
        start := firstBytesToFetch + NamespaceSize + ShareReservedBytes;
      }
      chunk, outer, inner := Fetch(raw, pos, chunk, outer, inner, bytesToFetch);
      curIndex := curIndex + bytesToFetch;
    }
    FetchedAll(raw, pos, chunk, outer, inner, width);
  }

  /** Share j of the stream: namespace, reserved byte, piece j. */
  ghost predicate IsContiguousShare(share: Bytes, nid: Bytes, raw: seq<Bytes>, j: nat) {
    && |share| == ShareSize
    && share[..NamespaceSize] == nid
    && PaddedPiece(share[NamespaceSize + ShareReservedBytes..], Flatten(raw), TxShareSize, j)
    && share[NamespaceSize] == ReservedByte(raw, j * TxShareSize, TxShareSize)
  }

  ghost predicate ContiguousPrefix(shares: seq<Bytes>, nid: Bytes, raw: seq<Bytes>) {
    forall j :: 0 <= j < |shares| ==> IsContiguousShare(shares[j], nid, raw, j)
  }

  /** The shares cover the whole stream. */
  ghost predicate ContiguousLayout(shares: seq<Bytes>, nid: Bytes, raw: seq<Bytes>) {
    ContiguousPrefix(shares, nid, raw) && |Flatten(raw)| <= |shares| * TxShareSize
  }

  /** `splitContiguous` */
  method SplitContiguous(nid: Bytes, raw: seq<Bytes>) returns (shares: seq<Bytes>)
    requires |nid| == NamespaceSize
    requires forall i :: 0 <= i < |raw| ==> |raw[i]| > 0
    ensures ContiguousLayout(shares, nid, raw)
  {
    shares := [];
    var outer: nat, inner: nat := 0, 0;
    while outer < |raw|
      invariant AtCursor(raw, outer, inner)
      invariant Position(raw, outer, inner) == Min(|shares| * TxShareSize, |Flatten(raw)|)
      invariant ContiguousPrefix(shares, nid, raw)
      decreases |Flatten(raw)| - Position(raw, outer, inner)
    {
      var share;
      share, outer, inner := NextShare(nid, raw, outer, inner, |shares|);
      shares := shares + [share];
    }
    assert raw[..|raw|] == raw;
  }

  method NextShare(nid: Bytes, raw: seq<Bytes>, outerIndex: nat, innerIndex: nat, ghost j: nat)
    returns (share: Bytes, outer: nat, inner: nat)
    requires |nid| == NamespaceSize
    requires forall i :: 0 <= i < |raw| ==> |raw[i]| > 0
    requires AtCursor(raw, outerIndex, innerIndex) && outerIndex < |raw|
    requires Position(raw, outerIndex, innerIndex) == Min(j * TxShareSize, |Flatten(raw)|)
    ensures IsContiguousShare(share, nid, raw, j)
    ensures AtCursor(raw, outer, inner)
    ensures Position(raw, outer, inner) == Min((j + 1) * TxShareSize, |Flatten(raw)|)
  {
    var rawData, startIndex;
    rawData, outer, inner, startIndex := GetNextChunk(raw, outerIndex, innerIndex, TxShareSize);
    share := ZeroPad(nid + [startIndex] + rawData, ShareSize);
    PaddedShare(nid, startIndex, rawData);
  }

  lemma PaddedShare(nid: Bytes, start: byte, chunk: Bytes)
    requires |nid| == NamespaceSize && |chunk| <= TxShareSize
    ensures var share := ZeroPad(nid + [start] + chunk, ShareSize);
      |share| == ShareSize && share[..NamespaceSize] == nid && share[NamespaceSize] == start
      && share[NamespaceSize + ShareReservedBytes..] == ZeroPad(chunk, TxShareSize)
  {
    var share := ZeroPad(nid + [start] + chunk, ShareSize);
    assert share[NamespaceSize + ShareReservedBytes..] == ZeroPad(chunk, TxShareSize);
  }

  // ---- Parsing ----

  function Payloads(shares: seq<Bytes>): (r: seq<Bytes>)
    requires forall i :: 0 <= i < |shares| ==> |shares[i]| == ShareSize
    ensures |r| == |shares|
    ensures forall i :: 0 <= i < |r| ==> r[i] == shares[i][NamespaceSize + ShareReservedBytes..] && |r[i]| == TxShareSize
  {
    seq(|shares|, i requires 0 <= i < |shares| => shares[i][NamespaceSize + ShareReservedBytes..])
  }

  /** The items found so far, and whether parsing ended without an error. */
  datatype Parsed = Parsed(txs: seq<Bytes>, ok: bool)

  function Cons(x: Bytes, p: Parsed): Parsed { Parsed([x] + p.txs, p.ok) }

  /** `peel(share, true)`: `rest` are the payloads of the shares after the cursor. */
  function Peel(share: Bytes, rest: seq<Bytes>): Parsed
    decreases |rest|, |share|, 0
  {
    var d := ParseDelimiter(share);
    if d.None? then Parsed([], false)
    else if d.value.1 == 0 then Parsed([], true)
    else PeelItem(d.value.0, d.value.1, rest)
  }

  /** `peel(share, false)` with the announced length */
  function PeelItem(share: Bytes, txLen: nat, rest: seq<Bytes>): Parsed
    requires txLen > 0
    decreases |rest|, |share|, 1
  {
    var safeLen := if |share| < MaxVarintLen64 then 0 else |share| - MaxVarintLen64;
    if txLen <= safeLen then Cons(share[..txLen], Peel(share[txLen..], rest))
    else if |rest| > 0 then PeelItem(share + rest[0], txLen, rest[1..])
    else if txLen <= |share| then Cons(share[..txLen], Peel(share[txLen..], rest))
    else Parsed([], false)
  }

  /** `processContiguousShares` and `resolve` */
  function Resolve(payloads: seq<Bytes>): Parsed {
    if |payloads| == 0 then Parsed([], true) else Peel(payloads[0], payloads[1..])
  }

  function DelimitedStream(items: seq<Bytes>): Bytes {
    if |items| == 0 then [] else Delimited(items[0]) + DelimitedStream(items[1..])
  }

  ghost predicate Items(items: seq<Bytes>) {
    forall i :: 0 <= i < |items| ==> |items[i]| < TwoTo64
  }

  /** The items before the first empty one: a zero length reads as padding. */
  function BeforeEmpty(items: seq<Bytes>): seq<Bytes> {
    if |items| == 0 || |items[0]| == 0 then [] else [items[0]] + BeforeEmpty(items[1..])
  }

  lemma {:induction false} BeforeEmptyIsAll(items: seq<Bytes>)
    ensures BeforeEmpty(items) == items <==> forall i :: 0 <= i < |items| ==> |items[i]| > 0
  {
    if |items| > 0 {
      BeforeEmptyIsAll(items[1..]);
      assert items == [items[0]] + items[1..];
      if |items[0]| > 0 {
        assert BeforeEmpty(items)[1..] == BeforeEmpty(items[1..]);
        assert forall i :: 0 <= i < |items[1..]| ==> items[1..][i] == items[i + 1];
        assert forall i :: 0 < i < |items| ==> items[i] == items[1..][i - 1];
      }
    }
  }

  /** Parsing from an item boundary: the buffer holds at least a whole
      delimiter, or everything that is left. */
  lemma {:induction false} PeelInverts(share: Bytes, rest: seq<Bytes>, items: seq<Bytes>, pad: nat)
    requires Items(items)
    requires share + Flatten(rest) == DelimitedStream(items) + Zeros(pad)
    requires |share| >= MaxVarintLen64 || |rest| == 0
    ensures Peel(share, rest) == Parsed(BeforeEmpty(items), true)
    decreases |rest|, |share|, 0
  {
    if |items| == 0 {
      assert share == (share + Flatten(rest))[..|share|] == Zeros(|share|);
      ParsePadding(|share|);
    } else {
      var x := items[0];
      var head, tail := PutUvarint(|x|), x + DelimitedStream(items[1..]) + Zeros(pad);
      assert DelimitedStream(items) + Zeros(pad) == head + tail;
      DelimiterHeld(share, rest, head, tail, |x|);
      CutPrefix(share, Flatten(rest), head, tail);
      ParseDelimited(|x|, share[|head|..]);
      if |x| > 0 {
        PeelItemInverts(share[|head|..], rest, items, pad);
      }
    }
  }

  lemma DelimiterHeld(share: Bytes, rest: seq<Bytes>, head: Bytes, tail: Bytes, n: nat)
    requires share + Flatten(rest) == head + tail && head == PutUvarint(n) && n < TwoTo64
    requires |share| >= MaxVarintLen64 || |rest| == 0
    ensures |head| <= |share|
  {
    CapacityIs64Bit();
    ReadPut(n, [], 0);
    assert |rest| == 0 ==> Flatten(rest) == [];
  }

  lemma {:induction false} PeelItemInverts(share: Bytes, rest: seq<Bytes>, items: seq<Bytes>, pad: nat)
    requires Items(items) && |items| > 0 && |items[0]| > 0
    requires share + Flatten(rest) == items[0] + DelimitedStream(items[1..]) + Zeros(pad)
    ensures PeelItem(share, |items[0]|, rest) == Parsed(BeforeEmpty(items), true)
    decreases |rest|, |share|, 1
  {
    var x, tail := items[0], DelimitedStream(items[1..]) + Zeros(pad);
    assert share + Flatten(rest) == x + tail;
    var safeLen := if |share| < MaxVarintLen64 then 0 else |share| - MaxVarintLen64;
    if |x| <= safeLen || |rest| == 0 {
      assert |rest| == 0 ==> Flatten(rest) == [];
      CutPrefix(share, Flatten(rest), x, tail);
      PeelInverts(share[|x|..], rest, items[1..], pad);
    } else {
      assert (share + rest[0]) + Flatten(rest[1..]) == share + Flatten(rest);
      PeelItemInverts(share + rest[0], rest[1..], items, pad);
    }
  }

  // ---- Round trip ----

  /** Whatever the item sizes, and wherever items and delimiters straddle share
      boundaries, parsing the layout of the delimited items never fails, and
      returns the items exactly when none of them is empty. */
  lemma ContiguousRoundTrip(shares: seq<Bytes>, nid: Bytes, items: seq<Bytes>)
    requires Items(items) && ContiguousLayout(shares, nid, DelimitedItems(items))
    ensures Resolve(Payloads(shares)) == Parsed(BeforeEmpty(items), true)
    ensures Resolve(Payloads(shares)).txs == items <==> forall i :: 0 <= i < |items| ==> |items[i]| > 0
  {
    BeforeEmptyIsAll(items);
    StreamIsFlatten(items);
    var p := Payloads(shares);
    assert forall j :: 0 <= j < |p| ==> IsContiguousShare(shares[j], nid, DelimitedItems(items), j);
    var pad := PiecesCover(p, DelimitedStream(items), TxShareSize);
    if |p| > 0 {
      assert Flatten(p) == p[0] + Flatten(p[1..]);
      PeelInverts(p[0], p[1..], items, pad);
    } else {
      assert |DelimitedStream(items)| == 0;
    }
  }

  function DelimitedItems(items: seq<Bytes>): (r: seq<Bytes>)
    ensures forall i :: 0 <= i < |r| ==> |r[i]| > 0
  {
    seq(|items|, i requires 0 <= i < |items| => Delimited(items[i]))
  }

  lemma {:induction false} StreamIsFlatten(items: seq<Bytes>)
    ensures Flatten(DelimitedItems(items)) == DelimitedStream(items)
  {
    if |items| > 0 {
      StreamIsFlatten(items[1..]);
      assert DelimitedItems(items)[1..] == DelimitedItems(items[1..]);
    }
  }

  /** `Txs.SplitIntoShares`, and likewise for state roots and evidence. */
  method SplitItems(nid: Bytes, items: seq<Bytes>) returns (shares: seq<Bytes>)
    requires |nid| == NamespaceSize
    ensures ContiguousLayout(shares, nid, DelimitedItems(items))
  {
    shares := SplitContiguous(nid, DelimitedItems(items));
  }

  // ---- The parser as the source runs it ----

  class ShareStack {
    const shares: seq<Bytes>
    var txLen: nat
    var txs: seq<Bytes>
    var cursor: nat

    constructor (shares: seq<Bytes>)
      ensures this.shares == shares && txs == [] && cursor == 0
    {
      this.shares := shares;
      txLen, txs, cursor := 0, [], 0;
    }

    ghost predicate Valid()
      reads this
    {
      cursor < |shares| && forall i :: 0 <= i < |shares| ==> |shares[i]| == ShareSize
    }

    /** The payloads of the shares after the cursor. */
    ghost function Rest(): seq<Bytes>
      requires Valid()
      reads this
    {
      Payloads(shares)[cursor + 1..]
    }

    /** `peel`: appends what the functions above compute. */
    method PeelShare(input: Bytes, delimited: bool) returns (ok: bool)
      requires Valid() && (!delimited ==> txLen > 0)
      modifies this
      ensures Valid()
      ensures var p := if delimited then Peel(input, old(Rest())) else PeelItem(input, old(txLen), old(Rest()));
        txs == old(txs) + p.txs && ok == p.ok
      decreases |shares| - cursor, |input|, if delimited then 3 else 1
    {
      if delimited { ok := PeelDelimiter(input); } else { ok := PeelTx(input); }
    }

    /** The delimiter is read first. */
    method PeelDelimiter(share: Bytes) returns (ok: bool)
      requires Valid()
      modifies this
      ensures Valid() && var p := Peel(share, old(Rest())); txs == old(txs) + p.txs && ok == p.ok
      decreases |shares| - cursor, |share|, 2
    {
      var d := ParseDelimiter(share);
      if d.None? { return false; }
      if d.value.1 == 0 { return true; }
      txLen := d.value.1;
      ok := PeelShare(d.value.0, false);
    }

    /** An item of known length is cut off, or the next share fetched for it. */
    method PeelTx(share: Bytes) returns (ok: bool)
      requires Valid() && txLen > 0
      modifies this
      ensures Valid() && var p := PeelItem(share, old(txLen), old(Rest())); txs == old(txs) + p.txs && ok == p.ok
      decreases |shares| - cursor, |share|, 0
    {
      var safeLen := |share| - MaxVarintLen64;
      if safeLen < 0 { safeLen := 0; }
      if txLen <= safeLen {
        ok := CutTx(share);
        return;
      }
      if |shares| > cursor + 1 {
        NextPayload(shares, cursor);
        cursor := cursor + 1;
        ok := PeelShare(share + shares[cursor][NamespaceSize + ShareReservedBytes..], false);
        return;
      }
      if txLen <= |share| {
        ok := CutTx(share);
        return;
      }
      return false;
    }

    method CutTx(share: Bytes) returns (ok: bool)
      requires Valid() && 0 < txLen <= |share|
      modifies this
      ensures Valid() && var p := Cons(share[..old(txLen)], Peel(share[old(txLen)..], old(Rest()))); txs == old(txs) + p.txs && ok == p.ok
      decreases |shares| - cursor, |share| - txLen, 4
    {
      txs := txs + [share[..txLen]];
      ok := PeelShare(share[txLen..], true);
    }
  }

  lemma NextPayload(shares: seq<Bytes>, cursor: nat)
    requires cursor + 1 < |shares| && forall i :: 0 <= i < |shares| ==> |shares[i]| == ShareSize
    ensures var rest := Payloads(shares)[cursor + 1..];
      |rest| > 0 && rest[0] == shares[cursor + 1][NamespaceSize + ShareReservedBytes..] && rest[1..] == Payloads(shares)[cursor + 2..]
  {}

  /** `processContiguousShares` */
  method ProcessContiguousShares(shares: seq<Bytes>) returns (txs: seq<Bytes>, ok: bool)
    requires forall i :: 0 <= i < |shares| ==> |shares[i]| == ShareSize
    ensures Parsed(txs, ok) == Resolve(Payloads(shares))
  {
    if |shares| == 0 { return [], true; }
    var ss := new ShareStack(shares);
    ok := ss.PeelShare(shares[0][NamespaceSize + ShareReservedBytes..], true);
    txs := ss.txs;
  }
}
