/** Block data laid out over the original data square and read back from it
    (`types/block.go`, `types/share_merging.go`). */
module DataSquare {
  import opened Basics
  import opened Products
  import opened Varint
  import opened ShareConstants
  import opened Sorting
  import Contiguous = ContiguousShares
  import opened MessageShares

  /** Transactions, intermediate state roots and evidence as the byte strings
      that are length-delimited, and the messages. */
  datatype Data = Data(txs: seq<Bytes>, roots: seq<Bytes>, evidence: seq<Bytes>, messages: seq<Message>)

  // ---- The size of the square ----

  /** `nextHighestPowerOf2` */
  function NextHighestPowerOf2(v: bv32): (r: bv32)
    ensures 0 < v <= 0x8000_0000 ==> r & (r - 1) == 0 && (r >> 1) < v <= r
    ensures v == 0 || v > 0x8000_0000 ==> r == 0
  {
    if v == 0 then 0
    else
      var v0 := v - 1;
      var v1 := v0 | (v0 >> 1);
      var v2 := v1 | (v1 >> 2);
      var v3 := v2 | (v2 >> 4);
      var v4 := v3 | (v3 >> 8);
      var v5 := v4 | (v4 >> 16);
      v5 + 1
  }

  /** The conversion to `uint32`, the upper 17 bits and the lower 15. */
  function Uint32(w: nat): bv32
    requires w < 0x1_0000_0000
  {
    (((w / 0x8000) as bv32) << 15) | ((w % 0x8000) as bv32)
  }

  /** The ceiling of the square root, searched from w upwards. */
  function CeilSqrt(n: nat, w: nat): (r: nat)
    requires w == 0 || (w - 1) * (w - 1) < n
    ensures r * r >= n && (r == 0 || (r - 1) * (r - 1) < n)
    decreases n - w
  {
    if w * w >= n then w else CeilSqrt(n, w + 1)
  }

  /** The powers of two up to the widest square. */
  predicate IsWidth(s: nat) {
    s in {1, 2, 4, 8, 16, 32, 64, 128, 256, 512, 1024, 2048, 4096, 8192, 16384, 32768}
  }

  lemma WidthsArePowers()
    ensures forall s: nat :: IsWidth(s) ==> IsPowerOf2(s)
  {
    assert IsPowerOf2(1) && IsPowerOf2(2) && IsPowerOf2(4) && IsPowerOf2(8) && IsPowerOf2(16) && IsPowerOf2(32);
    assert IsPowerOf2(64) && IsPowerOf2(128) && IsPowerOf2(256) && IsPowerOf2(512) && IsPowerOf2(1024) && IsPowerOf2(2048);
    assert IsPowerOf2(4096) && IsPowerOf2(8192) && IsPowerOf2(16384) && IsPowerOf2(32768);
  }

  /** The largest width whose square fits 32 bits. */
  const WidestSquare: nat := 32768

  /** The width computed in 32 bits is the one computed without a bound. */
  ghost predicate Widens(w: nat)
    requires w <= WidestSquare
  {
    var r := NextHighestPowerOf2(w as bv32);
    IsWidth(r as nat) && w <= r as nat < 2 * w && (r * r) as nat == (r as nat) * (r as nat)
  }

  lemma UpTo8(w: nat)
    requires 0 < w <= 8
    ensures Widens(w)
  {
    if w <= 2 {
    } else if w <= 4 {
      assert 2 < (w as bv32) <= 4;
      assert NextHighestPowerOf2(w as bv32) == 4;
    } else {
      assert 4 < (w as bv32) <= 8;
      assert NextHighestPowerOf2(w as bv32) == 8;
    }
  }

  lemma UpTo16(w: nat)
    requires 8 < w <= 16
    ensures Widens(w)
  {
    assert 8 < (w as bv32) <= 16;
    assert NextHighestPowerOf2(w as bv32) == 16;
  }

  lemma UpTo32(w: nat)
    requires 16 < w <= 32
    ensures Widens(w)
  {
    assert 16 < (w as bv32) <= 32;
    assert NextHighestPowerOf2(w as bv32) == 32;
  }

  lemma UpTo64(w: nat)
    requires 32 < w <= 64
    ensures Widens(w)
  {
    assert 32 < (w as bv32) <= 64;
    assert NextHighestPowerOf2(w as bv32) == 64;
  }

  lemma UpTo128(w: nat)
    requires 64 < w <= 128
    ensures Widens(w)
  {
    assert 64 < (w as bv32) <= 128;
    assert NextHighestPowerOf2(w as bv32) == 128;
  }

  lemma UpTo256(w: nat)
    requires 128 < w <= 256
    ensures Widens(w)
  {
    assert 128 < (w as bv32) <= 256;
    assert NextHighestPowerOf2(w as bv32) == 256;
  }

  lemma UpTo512(w: nat)
    requires 256 < w <= 512
    ensures Widens(w)
  {
    assert 256 < (w as bv32) <= 512;
    assert NextHighestPowerOf2(w as bv32) == 512;
  }

  lemma UpTo1024(w: nat)
    requires 512 < w <= 1024
    ensures Widens(w)
  {
    assert 512 < (w as bv32) <= 1024;
    assert NextHighestPowerOf2(w as bv32) == 1024;
  }

  lemma UpTo2048(w: nat)
    requires 1024 < w <= 2048
    ensures Widens(w)
  {
    assert 1024 < (w as bv32) <= 2048;
    assert NextHighestPowerOf2(w as bv32) == 2048;
  }

  lemma UpTo4096(w: nat)
    requires 2048 < w <= 4096
    ensures Widens(w)
  {
    assert 2048 < (w as bv32) <= 4096;
    assert NextHighestPowerOf2(w as bv32) == 4096;
  }

  lemma UpTo8192(w: nat)
    requires 4096 < w <= 8192
    ensures Widens(w)
  {
    assert 4096 < (w as bv32) <= 8192;
    assert NextHighestPowerOf2(w as bv32) == 8192;
  }

  lemma UpTo16384(w: nat)
    requires 8192 < w <= 16384
    ensures Widens(w)
  {
    assert 8192 < (w as bv32) <= 16384;
    assert NextHighestPowerOf2(w as bv32) == 16384;
  }

  lemma UpTo32768(w: nat)
    requires 16384 < w <= 32768
    ensures Widens(w)
  {
    assert 16384 < (w as bv32) <= 32768;
    assert NextHighestPowerOf2(w as bv32) == 32768;
  }

  lemma WidthsWiden(w: nat)
    requires 0 < w <= WidestSquare
    ensures Widens(w)
  {
    if w <= 8 { UpTo8(w); } else if w <= 16 { UpTo16(w); } else if w <= 32 { UpTo32(w); }
    else if w <= 64 { UpTo64(w); } else if w <= 128 { UpTo128(w); } else if w <= 256 { UpTo256(w); }
    else if w <= 512 { UpTo512(w); } else if w <= 1024 { UpTo1024(w); } else if w <= 2048 { UpTo2048(w); }
    else if w <= 4096 { UpTo4096(w); } else if w <= 8192 { UpTo8192(w); } else if w <= 16384 { UpTo16384(w); }
    else { UpTo32768(w); }
  }

  lemma Narrow(w: nat)
    requires w <= WidestSquare
    ensures Uint32(w) == w as bv32
  {
    if w == WidestSquare {
      assert w / 0x8000 == 1 && w % 0x8000 == 0;
    } else {
      assert w / 0x8000 == 0 && w % 0x8000 == w && (0 as bv32) << 15 == 0;
    }
  }

  /** Wider squares vanish in 32 bits. */
  lemma BeyondVanishes(v: bv32)
    requires v > 32768
    ensures NextHighestPowerOf2(v) * NextHighestPowerOf2(v) == 0
  {
    var r := NextHighestPowerOf2(v);
    LowBitsClear(v);
    HighSquare(r);
  }

  lemma LowBitsClear(v: bv32)
    requires v > 32768
    ensures NextHighestPowerOf2(v) & 0xFFFF == 0
  {}

  lemma HighSquare(r: bv32)
    requires r & 0xFFFF == 0
    ensures r * r == 0
  {}

  lemma BeyondIsWide(w: nat)
    requires WidestSquare < w < 0x1_0000_0000
    ensures Uint32(w) > 32768
  {
    var high, low := w / 0x8000, w % 0x8000;
    if high == 1 { NonZero(low); } else { AboveOne(high); }
    ShiftedHigh(high as bv32, low as bv32);
  }

  lemma NonZero(h: nat)
    requires 0 < h < 0x8000
    ensures 0 < (h as bv32) < 0x8000
  {}

  lemma AboveOne(h: nat)
    requires 1 < h < 0x2_0000
    ensures 1 < (h as bv32) < 0x2_0000
  {}

  lemma ShiftedHigh(a: bv32, b: bv32)
    requires 1 <= a < 0x2_0000 && b < 0x8000 && (a == 1 ==> b != 0)
    ensures (a << 15) | b > 32768
  {}

  lemma SquaresKeepOrder(a: nat, b: nat)
    ensures a <= b <==> a * a <= b * b
  {
    if a <= b { assert a * a <= a * b <= b * b; }
    if b < a { assert b * b <= b * a < a * a; }
  }

  /** r shares form the smallest square of power-of-two width that holds
      `length` shares. */
  ghost predicate IsPaddedLen(r: nat, length: nat) {
    exists s: nat :: IsPowerOf2(s) && r == s * s && length <= r
      && forall t: nat :: IsPowerOf2(t) && length <= t * t ==> s <= t
  }

  lemma PaddedWidth(length: nat, width: nat, s: nat)
    requires 0 < length <= width * width && 0 < width && (width - 1) * (width - 1) < length
    requires IsPowerOf2(s) && width <= s < 2 * width
    ensures IsPaddedLen(s * s, length)
  {
    SquaresKeepOrder(width, s);
    forall t: nat | IsPowerOf2(t) && length <= t * t ensures s <= t {
      SquaresKeepOrder(t, width - 1);
      PowersOf2Apart(s, t);
    }
  }

  lemma SqrtBound(length: nat, width: nat)
    ensures CeilSqrt(length, 0) <= width <==> length <= width * width
  {
    var w := CeilSqrt(length, 0);
    if w <= width { SquaresKeepOrder(w, width); } else { SquaresKeepOrder(width, w - 1); }
  }

  /** The square of the power of two for a width, in 32 bits. */
  function SquareIn32(width: nat): nat
    requires width < 0x1_0000_0000
  {
    var highest := NextHighestPowerOf2(Uint32(width));
    (highest * highest) as nat
  }

  lemma SquareFits(length: nat, width: nat)
    requires 0 < length <= width * width && 0 < width <= WidestSquare && (width - 1) * (width - 1) < length
    ensures IsPaddedLen(SquareIn32(width), length)
  {
    Narrow(width);
    WidthsWiden(width);
    WidthsArePowers();
    PaddedWidth(length, width, NextHighestPowerOf2(width as bv32) as nat);
  }

  lemma SquareVanishes(width: nat)
    requires WidestSquare < width < 0x1_0000_0000
    ensures SquareIn32(width) == 0
  {
    BeyondIsWide(width);
    BeyondVanishes(Uint32(width));
  }

  /** `paddedLen`. The length is padded to a square exactly up to 2^30 shares;
      beyond that the square overflows to nothing. */
  method PaddedLen(length: nat) returns (r: nat)
    requires length <= 0x7FFF_FFFF_FFFF_FFFF
    ensures length == 0 ==> r == 0
    ensures 0 < length <= 0x4000_0000 ==> IsPaddedLen(r, length)
    ensures length > 0x4000_0000 ==> r == 0
  {
    SqrtBound(length, 0xFFFF_FFFF);
    SqrtBound(length, WidestSquare);
    var width := CeilSqrt(length, 0);
    r := SquareIn32(width);
    if length > 0x4000_0000 { SquareVanishes(width); } else if length > 0 { SquareFits(length, width); }
  }

  // ---- Namespaces ----

  datatype Kind = TxKind | RootKind | EvidenceKind | Ignored | MessageKind

  /** The switch of `DataFromSquare`. */
  function KindOf(nid: Bytes): Kind {
    if nid == TxNamespace then TxKind
    else if nid == IntermediateStateRootsNamespace then RootKind
    else if nid == EvidenceNamespace then EvidenceKind
    else if nid == TailPaddingNamespace then Ignored
    else if !Less(MaxReservedNamespace, nid) then Ignored
    else MessageKind
  }

  function ShareKind(share: Bytes): Kind
    requires |share| == ShareSize
  {
    KindOf(share[..NamespaceSize])
  }

  /** The shares of one kind, in their order. */
  function Select(shares: seq<Bytes>, kind: Kind): (r: seq<Bytes>)
    requires Sized(shares)
    ensures Sized(r)
  {
    if |shares| == 0 then []
    else
      var last := shares[|shares| - 1];
      Select(shares[..|shares| - 1], kind) + if ShareKind(last) == kind then [last] else []
  }

  lemma {:induction false} SelectConcat(a: seq<Bytes>, b: seq<Bytes>, kind: Kind)
    requires Sized(a) && Sized(b)
    ensures Sized(a + b) && Select(a + b, kind) == Select(a, kind) + Select(b, kind)
    decreases |b|
  {
    if |b| == 0 {
      assert a + b == a;
    } else {
      SelectConcat(a, b[..|b| - 1], kind);
      assert (a + b)[..|a + b| - 1] == a + b[..|b| - 1] && (a + b)[|a + b| - 1] == b[|b| - 1];
    }
  }

  ghost predicate AllOf(shares: seq<Bytes>, nid: Bytes) {
    forall i :: 0 <= i < |shares| ==> |shares[i]| == ShareSize && shares[i][..NamespaceSize] == nid
  }

  lemma {:induction false} SelectUniform(shares: seq<Bytes>, nid: Bytes, kind: Kind)
    requires AllOf(shares, nid)
    ensures Sized(shares) && Select(shares, kind) == if KindOf(nid) == kind then shares else []
  {
    if |shares| > 0 {
      var front, last := shares[..|shares| - 1], shares[|shares| - 1];
      assert AllOf(front, nid) && ShareKind(last) == KindOf(nid);
      SelectUniform(front, nid, kind);
      assert shares == front + [last];
    }
  }

  // ---- Writing ----

  predicate ByNamespace(a: Message, b: Message) {
    Less(a.nid, b.nid)
  }

  lemma ByNamespaceOrders()
    ensures StrictWeakOrder(ByNamespace)
  {
    forall a, b ensures !(ByNamespace(a, b) && ByNamespace(b, a)) { LessTotal(a.nid, b.nid); }
    forall a, b, c | !ByNamespace(b, a) && !ByNamespace(c, b) ensures !ByNamespace(c, a) {
      LessTotal(a.nid, b.nid);
      LessTotal(b.nid, c.nid);
      LessTotal(a.nid, c.nid);
      if Less(a.nid, b.nid) && Less(b.nid, c.nid) { LessTransitive(a.nid, b.nid, c.nid); }
    }
  }

  const TailPaddingShare: Bytes := TailPaddingNamespace + Zeros(ShareSize - NamespaceSize)

  /** The sections of a square, in the order they are laid out. */
  datatype Sections = Sections(txs: seq<Bytes>, roots: seq<Bytes>, evidence: seq<Bytes>, messages: seq<Bytes>, tail: seq<Bytes>) {
    function All(): seq<Bytes> { txs + roots + evidence + messages + tail }
    function Used(): nat { |txs| + |roots| + |evidence| + |messages| }
  }

  ghost predicate Laid(sections: Sections, data: Data) {
    && ItemsLaid(sections.txs, TxNamespace, data.txs)
    && ItemsLaid(sections.roots, IntermediateStateRootsNamespace, data.roots)
    && ItemsLaid(sections.evidence, EvidenceNamespace, data.evidence)
    && MessagesLayout(sections.messages, data.messages)
    && TailLaid(sections.tail)
  }

  ghost predicate ItemsLaid(shares: seq<Bytes>, nid: Bytes, items: seq<Bytes>) {
    Contiguous.ContiguousLayout(shares, nid, Contiguous.DelimitedItems(items))
  }

  ghost predicate TailLaid(tail: seq<Bytes>) {
    forall i :: 0 <= i < |tail| ==> tail[i] == TailPaddingShare
  }

  ghost predicate Encodable(data: Data) {
    && Contiguous.Items(data.txs) && Contiguous.Items(data.roots) && Contiguous.Items(data.evidence)
    && forall i :: 0 <= i < |data.messages| ==> WellFormed(data.messages[i])
  }

  /** `sortMessages` */
  method SortMessages(messages: seq<Message>) returns (sorted: seq<Message>)
    requires forall i :: 0 <= i < |messages| ==> WellFormed(messages[i])
    ensures SortedBy(sorted, ByNamespace) && multiset(sorted) == multiset(messages)
    ensures forall i :: 0 <= i < |sorted| ==> WellFormed(sorted[i])
  {
    ByNamespaceOrders();
    sorted := Sort(messages, ByNamespace);
    forall i | 0 <= i < |sorted| ensures WellFormed(sorted[i]) {
      assert sorted[i] in multiset(messages);
    }
  }

  /** `ComputeShares`, which also sorts the messages of the data in place. It
      panics exactly when the shares exceed the largest square. */
  method ComputeShares(data: Data) returns (sections: Sections, sorted: Data, panics: bool)
    requires Encodable(data)
    ensures Laid(sections, sorted)
    ensures sorted == data.(messages := sorted.messages)
    ensures multiset(sorted.messages) == multiset(data.messages) && SortedBy(sorted.messages, ByNamespace)
    ensures panics <==> sections.Used() > MaxShareCount
    ensures !panics ==> IsPaddedLen(|sections.All()|, if sections.Used() == 0 then MinShareCount else sections.Used())
  {
    var txs := Contiguous.SplitItems(TxNamespace, data.txs);
    var roots := Contiguous.SplitItems(IntermediateStateRootsNamespace, data.roots);
    var evidence := Contiguous.SplitItems(EvidenceNamespace, data.evidence);
    var messages := SortMessages(data.messages);
    sorted := data.(messages := messages);
    var messageShares := SplitMessages(messages);
    sections := Sections(txs, roots, evidence, messageShares, []);
    panics := sections.Used() > MaxShareCount;
    if !panics {
      var tail := TailPaddingShares(sections.Used());
      sections := sections.(tail := tail);
    }
  }

  /** The padding that completes a square of at least the minimal size. */
  method TailPaddingShares(curLen: nat) returns (tail: seq<Bytes>)
    requires curLen <= MaxShareCount
    ensures TailLaid(tail)
    ensures IsPaddedLen(curLen + |tail|, if curLen == 0 then MinShareCount else curLen)
  {
    var wantLen := PaddedLen(curLen);
    if wantLen < MinShareCount {
      wantLen := MinShareCount;
      PaddedWidth(1, 1, 1);
    }
    tail := seq(wantLen - curLen, _ => TailPaddingShare);
  }

  // ---- Reading ----

  datatype Read = Ok(data: Data) | Failed

  /** What `DataFromSquare` returns for the shares of the original quadrant;
      `Failed` for an error or an index past the last message share. */
  function ReadSquare(shares: seq<Bytes>): Read
    requires Sized(shares)
  {
    var txs := Contiguous.Resolve(Contiguous.Payloads(Select(shares, TxKind)));
    var roots := Contiguous.Resolve(Contiguous.Payloads(Select(shares, RootKind)));
    var evidence := Contiguous.Resolve(Contiguous.Payloads(Select(shares, EvidenceKind)));
    var messages := ParseMsgs(Select(shares, MessageKind));
    if txs.ok && roots.ok && evidence.ok && messages.Messages?
      then Ok(Data(txs.txs, roots.txs, evidence.txs, messages.msgs)) else Failed
  }

  /** Rows of an extended square of width `2 * w`; its original quadrant, row by
      row, is what `rsmt2d` was given. */
  function Quadrant(rows: seq<seq<Bytes>>, w: nat, x: nat): seq<Bytes>
    requires x <= |rows| && forall i :: 0 <= i < |rows| ==> w <= |rows[i]|
  {
    if x == 0 then [] else Quadrant(rows, w, x - 1) + rows[x - 1][..w]
  }

  ghost predicate Square(rows: seq<seq<Bytes>>, w: nat) {
    |rows| == 2 * w && forall i :: 0 <= i < |rows| ==> |rows[i]| == 2 * w && Sized(rows[i])
  }

  /** One share sorted by its namespace. */
  method Classify(share: Bytes, ghost before: seq<Bytes>, txs: seq<Bytes>, roots: seq<Bytes>, evidence: seq<Bytes>, messages: seq<Bytes>)
    returns (t: seq<Bytes>, r: seq<Bytes>, e: seq<Bytes>, m: seq<Bytes>)
    requires |share| == ShareSize && Sized(before)
    requires Sorted(before, txs, roots, evidence, messages)
    ensures Sized(before + [share]) && Sorted(before + [share], t, r, e, m)
  {
    t, r, e, m := txs, roots, evidence, messages;
    match KindOf(share[..NamespaceSize]) {
      case TxKind => t := t + [share];
      case RootKind => r := r + [share];
      case EvidenceKind => e := e + [share];
      case Ignored =>
      case MessageKind => m := m + [share];
    }
    assert (before + [share])[..|before|] == before;
  }

  ghost predicate Sorted(shares: seq<Bytes>, txs: seq<Bytes>, roots: seq<Bytes>, evidence: seq<Bytes>, messages: seq<Bytes>)
    requires Sized(shares)
  {
    && txs == Select(shares, TxKind) && roots == Select(shares, RootKind)
    && evidence == Select(shares, EvidenceKind) && messages == Select(shares, MessageKind)
  }

  /** One row of the original quadrant. */
  method SortRow(row: seq<Bytes>, ghost before: seq<Bytes>, txs: seq<Bytes>, roots: seq<Bytes>, evidence: seq<Bytes>, messages: seq<Bytes>)
    returns (t: seq<Bytes>, r: seq<Bytes>, e: seq<Bytes>, m: seq<Bytes>)
    requires Sized(row) && Sized(before) && Sorted(before, txs, roots, evidence, messages)
    ensures Sized(before + row) && Sorted(before + row, t, r, e, m)
  {
    t, r, e, m := txs, roots, evidence, messages;
    assert before + row[..0] == before;
    for y := 0 to |row|
      invariant Sized(before + row[..y]) && Sorted(before + row[..y], t, r, e, m)
    {
      assert before + row[..y] + [row[y]] == before + row[..y + 1];
      t, r, e, m := Classify(row[y], before + row[..y], t, r, e, m);
    }
    assert row[..|row|] == row;
  }

  /** The rows of the original quadrant, by the namespaces of their shares. */
  method SortShares(rows: seq<seq<Bytes>>, ghost w: nat)
    returns (t: seq<Bytes>, r: seq<Bytes>, e: seq<Bytes>, m: seq<Bytes>)
    requires Square(rows, w)
    ensures Sized(Quadrant(rows, w, w)) && Sorted(Quadrant(rows, w, w), t, r, e, m)
  {
    var originalWidth := |rows| / 2;
    t, r, e, m := [], [], [], [];
    for x := 0 to originalWidth
      invariant Sized(Quadrant(rows, w, x)) && Sorted(Quadrant(rows, w, x), t, r, e, m)
    {
      t, r, e, m := SortRow(rows[x][..originalWidth], Quadrant(rows, w, x), t, r, e, m);
    }
  }

  /** `DataFromSquare` */
  method DataFromSquare(rows: seq<seq<Bytes>>, ghost w: nat) returns (r: Read)
    requires Square(rows, w)
    ensures Sized(Quadrant(rows, w, w)) && r == ReadSquare(Quadrant(rows, w, w))
  {
    var txShares, rootShares, evidenceShares, messageShares := SortShares(rows, w);
    var txs, okTxs := Contiguous.ProcessContiguousShares(txShares);
    if !okTxs { return Failed; }
    var roots, okRoots := Contiguous.ProcessContiguousShares(rootShares);
    if !okRoots { return Failed; }
    var evidence, okEvidence := Contiguous.ProcessContiguousShares(evidenceShares);
    if !okEvidence { return Failed; }
    var messages := ParseMsgShares(messageShares);
    if !messages.Messages? { return Failed; }
    r := Ok(Data(txs, roots, evidence, messages.msgs));
  }

  // ---- Round trip ----

  function OwnMessages(msgs: seq<Message>): seq<Message> {
    if |msgs| == 0 then []
    else (if KindOf(msgs[0].nid) == MessageKind then [msgs[0]] else []) + OwnMessages(msgs[1..])
  }

  lemma LayoutPrepend(own: seq<Bytes>, m: Message, rest: seq<Bytes>, msgs: seq<Message>)
    requires MessageLayout(own, m) && MessagesLayout(rest, msgs)
    ensures MessagesLayout(own + rest, [m] + msgs)
    ensures [] + rest == rest && [] + msgs == msgs
  {
    assert (own + rest)[..|own|] == own && (own + rest)[|own|..] == rest && ([m] + msgs)[1..] == msgs;
  }

  lemma SelectFirst(own: seq<Bytes>, m: Message, rest: seq<Bytes>, kind: Kind)
    requires MessageLayout(own, m) && Sized(rest)
    ensures Sized(own + rest)
    ensures Select(own + rest, kind) == (if KindOf(m.nid) == kind then own else []) + Select(rest, kind)
  {
    assert forall j :: 0 <= j < |own| ==> IsMessageShare(own[j], m.nid, Delimited(m.data), j);
    SelectUniform(own, m.nid, kind);
    SelectConcat(own, rest, kind);
  }

  lemma SelectOwn(own: seq<Bytes>, m: Message, rest: seq<Bytes>, msgs: seq<Message>)
    requires MessageLayout(own, m) && Sized(rest) && MessagesLayout(Select(rest, MessageKind), msgs)
    ensures Sized(own + rest)
    ensures MessagesLayout(Select(own + rest, MessageKind), (if KindOf(m.nid) == MessageKind then [m] else []) + msgs)
  {
    SelectFirst(own, m, rest, MessageKind);
    LayoutPrepend(own, m, Select(rest, MessageKind), msgs);
  }

  /** Only messages of message namespaces reach the message parser. */
  lemma {:induction false} SelectMessages(shares: seq<Bytes>, msgs: seq<Message>)
    requires MessagesLayout(shares, msgs) && Sized(shares)
    ensures MessagesLayout(Select(shares, MessageKind), OwnMessages(msgs))
    decreases |msgs|
  {
    if |msgs| > 0 {
      var m, n, more := msgs[0], Span(msgs[0]), msgs[1..];
      var own, rest := shares[..n], shares[n..];
      assert shares == own + rest && MessageLayout(own, m);
      SelectMessages(rest, more);
      SelectOwn(own, m, rest, OwnMessages(more));
    }
  }

  /** No share of another kind appears among messages that avoid it. */
  lemma {:induction false} SelectNoMessages(shares: seq<Bytes>, msgs: seq<Message>, kind: Kind)
    requires MessagesLayout(shares, msgs)
    requires forall i :: 0 <= i < |msgs| ==> KindOf(msgs[i].nid) != kind
    ensures Sized(shares) && Select(shares, kind) == []
    decreases |msgs|
  {
    if |msgs| > 0 {
      var n, more := Span(msgs[0]), msgs[1..];
      var own, rest := shares[..n], shares[n..];
      assert shares == own + rest && MessageLayout(own, msgs[0]);
      assert forall i :: 0 <= i < |more| ==> more[i] == msgs[i + 1];
      SelectNoMessages(rest, more, kind);
      SelectFirst(own, msgs[0], rest, kind);
    }
  }

  lemma {:induction false} OwnMessagesIsAll(msgs: seq<Message>)
    ensures OwnMessages(msgs) == msgs <==> forall i :: 0 <= i < |msgs| ==> KindOf(msgs[i].nid) == MessageKind
    ensures forall m :: m in OwnMessages(msgs) ==> KindOf(m.nid) == MessageKind
  {
    if |msgs| > 0 {
      OwnMessagesIsAll(msgs[1..]);
      assert msgs == [msgs[0]] + msgs[1..];
      if KindOf(msgs[0].nid) == MessageKind {
        assert OwnMessages(msgs)[1..] == OwnMessages(msgs[1..]);
        assert forall i :: 0 < i < |msgs| ==> msgs[i] == msgs[1..][i - 1];
      } else {
        assert msgs[0] in msgs;
      }
    }
  }

  lemma SelectItems(shares: seq<Bytes>, nid: Bytes, items: seq<Bytes>, own: Kind, kind: Kind)
    requires ItemsLaid(shares, nid, items) && KindOf(nid) == own
    ensures Sized(shares) && Select(shares, kind) == if kind == own then shares else []
  {
    assert forall j :: 0 <= j < |shares| ==> Contiguous.IsContiguousShare(shares[j], nid, Contiguous.DelimitedItems(items), j);
    SelectUniform(shares, nid, kind);
  }

  lemma SelectTail(tail: seq<Bytes>, kind: Kind)
    requires TailLaid(tail)
    ensures Sized(tail) && Select(tail, kind) == if kind == Ignored then tail else []
  {
    assert TailPaddingShare[..NamespaceSize] == TailPaddingNamespace;
    SelectUniform(tail, TailPaddingNamespace, kind);
  }

  lemma SelectAll(s: Sections, kind: Kind)
    requires Sized(s.txs) && Sized(s.roots) && Sized(s.evidence) && Sized(s.messages) && Sized(s.tail)
    ensures Sized(s.All())
    ensures Select(s.All(), kind) ==
      Select(s.txs, kind) + Select(s.roots, kind) + Select(s.evidence, kind) + Select(s.messages, kind) + Select(s.tail, kind)
  {
    SelectConcat(s.txs, s.roots, kind);
    SelectConcat(s.txs + s.roots, s.evidence, kind);
    SelectConcat(s.txs + s.roots + s.evidence, s.messages, kind);
    SelectConcat(s.txs + s.roots + s.evidence + s.messages, s.tail, kind);
  }

  lemma TxSection(shares: seq<Bytes>, items: seq<Bytes>, kind: Kind)
    requires ItemsLaid(shares, TxNamespace, items)
    ensures Sized(shares) && Select(shares, kind) == if kind == TxKind then shares else []
  {
    SelectItems(shares, TxNamespace, items, TxKind, kind);
  }

  lemma RootSection(shares: seq<Bytes>, items: seq<Bytes>, kind: Kind)
    requires ItemsLaid(shares, IntermediateStateRootsNamespace, items)
    ensures Sized(shares) && Select(shares, kind) == if kind == RootKind then shares else []
  {
    SelectItems(shares, IntermediateStateRootsNamespace, items, RootKind, kind);
  }

  lemma EvidenceSection(shares: seq<Bytes>, items: seq<Bytes>, kind: Kind)
    requires ItemsLaid(shares, EvidenceNamespace, items)
    ensures Sized(shares) && Select(shares, kind) == if kind == EvidenceKind then shares else []
  {
    SelectItems(shares, EvidenceNamespace, items, EvidenceKind, kind);
  }

  /** Each section of the square holds one kind of share. */
  lemma SelectSections(s: Sections, data: Data, kind: Kind)
    requires Laid(s, data)
    ensures Sized(s.All()) && Sized(s.messages)
    ensures Select(s.All(), kind) ==
      (if kind == TxKind then s.txs else []) + (if kind == RootKind then s.roots else [])
      + (if kind == EvidenceKind then s.evidence else []) + Select(s.messages, kind)
      + (if kind == Ignored then s.tail else [])
  {
    TxSection(s.txs, data.txs, kind);
    RootSection(s.roots, data.roots, kind);
    EvidenceSection(s.evidence, data.evidence, kind);
    LayoutSizes(s.messages, data.messages);
    SelectTail(s.tail, kind);
    SelectAll(s, kind);
  }

  lemma SectionOf(s: Sections, data: Data, kind: Kind, section: seq<Bytes>)
    requires Laid(s, data)
    requires forall i :: 0 <= i < |data.messages| ==> KindOf(data.messages[i].nid) != kind
    requires kind != MessageKind && kind != Ignored
    requires section == if kind == TxKind then s.txs else if kind == RootKind then s.roots else s.evidence
    ensures Sized(s.All()) && Select(s.All(), kind) == section
  {
    SelectSections(s, data, kind);
    SelectNoMessages(s.messages, data.messages, kind);
  }

  ghost predicate NoEmpty(items: seq<Bytes>) {
    forall i :: 0 <= i < |items| ==> |items[i]| > 0
  }

  ghost predicate OwnNamespaces(msgs: seq<Message>) {
    forall i :: 0 <= i < |msgs| ==> KindOf(msgs[i].nid) == MessageKind
  }

  /** The messages read back are those of message namespaces, always. */
  lemma SquareMessages(s: Sections, data: Data)
    requires Encodable(data) && Laid(s, data)
    ensures Sized(s.All())
    ensures ReadSquare(s.All()).Ok? ==> ReadSquare(s.All()).data.messages == OwnMessages(data.messages)
    ensures ParseMsgs(Select(s.All(), MessageKind)) == Messages(OwnMessages(data.messages))
  {
    SelectSections(s, data, MessageKind);
    LayoutSizes(s.messages, data.messages);
    SelectMessages(s.messages, data.messages);
    OwnWellFormed(data.messages);
    MessagesRoundTrip(Select(s.messages, MessageKind), OwnMessages(data.messages));
    assert Select(s.All(), MessageKind) == Select(s.messages, MessageKind);
  }

  lemma {:induction false} OwnWellFormed(msgs: seq<Message>)
    requires forall i :: 0 <= i < |msgs| ==> WellFormed(msgs[i])
    ensures forall i :: 0 <= i < |OwnMessages(msgs)| ==> WellFormed(OwnMessages(msgs)[i])
  {
    if |msgs| > 0 { OwnWellFormed(msgs[1..]); }
  }

  /** Reading the square gives back the data exactly when no item is empty and
      no message uses a reserved or the tail padding namespace. */
  lemma SquareRoundTrip(s: Sections, data: Data)
    requires Encodable(data) && Laid(s, data)
    ensures Sized(s.All())
    ensures ReadSquare(s.All()) == Ok(data) <==>
      (NoEmpty(data.txs) && NoEmpty(data.roots) && NoEmpty(data.evidence) && OwnNamespaces(data.messages))
  {
    SquareMessages(s, data);
    OwnMessagesIsAll(data.messages);
    if OwnNamespaces(data.messages) {
      SectionRoundTrip(s, data, TxKind, s.txs, TxNamespace, data.txs);
      SectionRoundTrip(s, data, RootKind, s.roots, IntermediateStateRootsNamespace, data.roots);
      SectionRoundTrip(s, data, EvidenceKind, s.evidence, EvidenceNamespace, data.evidence);
    }
  }

  /** One reserved section is read back exactly when none of its items is empty. */
  lemma SectionRoundTrip(s: Sections, data: Data, kind: Kind, own: seq<Bytes>, nid: Bytes, items: seq<Bytes>)
    requires Laid(s, data) && OwnNamespaces(data.messages) && Sized(s.All())
    requires ( || (kind == TxKind && own == s.txs && nid == TxNamespace && items == data.txs)
               || (kind == RootKind && own == s.roots && nid == IntermediateStateRootsNamespace && items == data.roots)
               || (kind == EvidenceKind && own == s.evidence && nid == EvidenceNamespace && items == data.evidence))
    requires Contiguous.Items(items)
    ensures var p := Contiguous.Resolve(Contiguous.Payloads(Select(s.All(), kind))); p.ok && (p.txs == items <==> NoEmpty(items))
  {
    SectionOf(s, data, kind, own);
    Contiguous.ContiguousRoundTrip(own, nid, items);
  }
}
