/** The order of namespaces over a square, which the namespaced Merkle tree of
    its rows relies on (`types/block.go`). */
module SquareOrder {
  import opened Basics
  import opened Products
  import opened ShareConstants
  import opened Sorting
  import opened Streams
  import opened Varint
  import opened MessageShares
  import opened DataSquare

  /** The namespaces never go down from one share to a later one. */
  ghost predicate Ordered(shares: seq<Bytes>)
    requires Sized(shares)
  {
    forall i, j :: 0 <= i < j < |shares| ==> Follows(shares[i], shares[j])
  }

  predicate Follows(a: Bytes, b: Bytes)
    requires |a| == |b| == ShareSize
  {
    !Less(b[..NamespaceSize], a[..NamespaceSize])
  }

  /** No share of the second part sorts before one of the first. */
  ghost predicate Before(a: seq<Bytes>, b: seq<Bytes>)
    requires Sized(a) && Sized(b)
  {
    forall i, j :: 0 <= i < |a| && 0 <= j < |b| ==> Follows(a[i], b[j])
  }

  lemma OrderedConcat(a: seq<Bytes>, b: seq<Bytes>)
    requires Sized(a) && Sized(b)
    ensures Sized(a + b) && (Ordered(a + b) <==> Ordered(a) && Ordered(b) && Before(a, b))
  {
    var c := a + b;
    if Ordered(a) && Ordered(b) && Before(a, b) {
      forall i, j | 0 <= i < j < |c| ensures Follows(c[i], c[j]) {
        if i >= |a| { assert c[i] == b[i - |a|] && c[j] == b[j - |a|]; }
      }
    }
    if Ordered(c) {
      forall i, j | 0 <= i < |a| && 0 <= j < |b| ensures Follows(a[i], b[j]) { assert c[i] == a[i] && c[|a| + j] == b[j]; }
      forall i, j | 0 <= i < j < |a| ensures Follows(a[i], a[j]) { assert c[i] == a[i] && c[j] == a[j]; }
      forall i, j | 0 <= i < j < |b| ensures Follows(b[i], b[j]) { assert c[|a| + i] == b[i] && c[|a| + j] == b[j]; }
    }
  }

  lemma BeforeConcat(a: seq<Bytes>, b: seq<Bytes>, c: seq<Bytes>)
    requires Sized(a) && Sized(b) && Sized(c)
    ensures Sized(a + b) && (Before(a + b, c) <==> Before(a, c) && Before(b, c))
  {
    var d := a + b;
    if Before(a, c) && Before(b, c) {
      forall i, j | 0 <= i < |d| && 0 <= j < |c| ensures Follows(d[i], c[j]) {
        if i >= |a| { assert d[i] == b[i - |a|]; }
      }
    }
    if Before(d, c) {
      forall i, j | 0 <= i < |a| && 0 <= j < |c| ensures Follows(a[i], c[j]) { assert d[i] == a[i]; }
      forall i, j | 0 <= i < |b| && 0 <= j < |c| ensures Follows(b[i], c[j]) { assert d[|a| + i] == b[i]; }
    }
  }

  lemma UniformOrdered(shares: seq<Bytes>, nid: Bytes)
    requires AllOf(shares, nid)
    ensures Sized(shares) && Ordered(shares)
  {
    LessIrreflexive(nid);
  }

  /** The share is one of a message of the list. */
  ghost predicate Carries(share: Bytes, msgs: seq<Message>)
    requires |share| == ShareSize
  {
    exists k :: 0 <= k < |msgs| && msgs[k].nid == share[..NamespaceSize]
  }

  lemma OwnUniform(own: seq<Bytes>, m: Message)
    requires MessageLayout(own, m)
    ensures |own| > 0 && AllOf(own, m.nid)
  {
    assert forall j :: 0 <= j < |own| ==> IsMessageShare(own[j], m.nid, Delimited(m.data), j);
  }

  /** Sorted messages have ordered shares, each of them some message's, and
      every message has a share. */
  lemma {:induction false} MessagesOrdered(shares: seq<Bytes>, msgs: seq<Message>)
    requires MessagesLayout(shares, msgs) && Sized(shares) && SortedBy(msgs, ByNamespace)
    ensures Ordered(shares)
    ensures forall i :: 0 <= i < |shares| ==> Carries(shares[i], msgs)
    ensures forall k :: 0 <= k < |msgs| ==> HasShare(shares, msgs[k])
    decreases |msgs|
  {
    if |msgs| > 0 {
      var n := Span(msgs[0]);
      var own, rest, more := shares[..n], shares[n..], msgs[1..];
      assert shares == own + rest && MessageLayout(own, msgs[0]);
      forall i, j | 0 <= i < j < |more| ensures !ByNamespace(more[j], more[i]) {
        assert more[j] == msgs[j + 1] && more[i] == msgs[i + 1];
      }
      MessagesOrdered(rest, more);
      OwnUniform(own, msgs[0]);
      UniformOrdered(own, msgs[0].nid);
      FirstBeforeRest(own, rest, msgs);
      OrderedConcat(own, rest);
      SharesOfBoth(own, rest, msgs);
    }
  }

  ghost predicate HasShare(shares: seq<Bytes>, m: Message)
    requires Sized(shares)
  {
    exists i :: 0 <= i < |shares| && shares[i][..NamespaceSize] == m.nid
  }

  lemma FirstBeforeRest(own: seq<Bytes>, rest: seq<Bytes>, msgs: seq<Message>)
    requires |msgs| > 0 && AllOf(own, msgs[0].nid) && Sized(rest) && SortedBy(msgs, ByNamespace)
    requires forall j :: 0 <= j < |rest| ==> Carries(rest[j], msgs[1..])
    ensures Before(own, rest)
  {
    forall i, j | 0 <= i < |own| && 0 <= j < |rest| ensures Follows(own[i], rest[j]) {
      assert Carries(rest[j], msgs[1..]);
      var k :| 0 <= k < |msgs[1..]| && msgs[1..][k].nid == rest[j][..NamespaceSize];
      assert !ByNamespace(msgs[k + 1], msgs[0]);
    }
  }

  lemma SharesOfBoth(own: seq<Bytes>, rest: seq<Bytes>, msgs: seq<Message>)
    requires |msgs| > 0 && |own| > 0 && AllOf(own, msgs[0].nid) && Sized(rest) && Sized(own + rest)
    requires forall j :: 0 <= j < |rest| ==> Carries(rest[j], msgs[1..])
    requires forall k :: 0 <= k < |msgs[1..]| ==> HasShare(rest, msgs[1..][k])
    ensures forall i :: 0 <= i < |own + rest| ==> Carries((own + rest)[i], msgs)
    ensures forall k :: 0 <= k < |msgs| ==> HasShare(own + rest, msgs[k])
  {
    var all := own + rest;
    forall i | 0 <= i < |all| ensures Carries(all[i], msgs) {
      if i < |own| {
        assert msgs[0].nid == all[i][..NamespaceSize];
      } else {
        assert Carries(rest[i - |own|], msgs[1..]);
        var k :| 0 <= k < |msgs[1..]| && msgs[1..][k].nid == all[i][..NamespaceSize];
        assert msgs[k + 1].nid == all[i][..NamespaceSize];
      }
    }
    forall k | 0 <= k < |msgs| ensures HasShare(all, msgs[k]) {
      if k == 0 {
        assert all[0][..NamespaceSize] == msgs[0].nid;
      } else {
        assert HasShare(rest, msgs[1..][k - 1]);
        var i :| 0 <= i < |rest| && rest[i][..NamespaceSize] == msgs[k].nid;
        assert all[|own| + i][..NamespaceSize] == msgs[k].nid;
      }
    }
  }

  // ---- The whole square ----

  predicate Reserved(nid: Bytes) {
    nid == TxNamespace || nid == IntermediateStateRootsNamespace || nid == EvidenceNamespace
  }

  lemma ReservedOrder()
    ensures !Less(IntermediateStateRootsNamespace, TxNamespace) && !Less(EvidenceNamespace, TxNamespace)
    ensures !Less(EvidenceNamespace, IntermediateStateRootsNamespace)
    ensures forall nid :: Reserved(nid) ==> Less(nid, MaxReservedNamespace) && !Less(TailPaddingNamespace, nid)
  {
    assert Less([2], [3]) && Less([1], [2]) && Less([1], [3]) && Less([1], [255]) && Less([2], [255]) && Less([3], [255]);
    ZerosOrder([1], [2]);
    ZerosOrder([1], [3]);
    ZerosOrder([2], [3]);
    ZerosOrder([1], [255]);
    ZerosOrder([2], [255]);
    ZerosOrder([3], [255]);
  }

  /** A common prefix does not matter. */
  lemma ZerosOrder(a: Bytes, b: Bytes)
    requires |a| == |b| == 1 && Less(a, b)
    ensures Less([0, 0, 0, 0, 0, 0, 0] + a, [0, 0, 0, 0, 0, 0, 0] + b)
    ensures !Less([0, 0, 0, 0, 0, 0, 0] + b, [0, 0, 0, 0, 0, 0, 0] + a)
  {
    PrefixOrder([0, 0, 0, 0, 0, 0, 0], a, b);
    LessTotal([0, 0, 0, 0, 0, 0, 0] + a, [0, 0, 0, 0, 0, 0, 0] + b);
  }

  lemma {:induction false} PrefixOrder(p: Bytes, a: Bytes, b: Bytes)
    requires Less(a, b)
    ensures Less(p + a, p + b)
  {
    if |p| == 0 {
      assert p + a == a && p + b == b;
    } else {
      PrefixOrder(p[1..], a, b);
      assert (p + a)[1..] == p[1..] + a && (p + b)[1..] == p[1..] + b;
    }
  }

  lemma ItemsUniform(shares: seq<Bytes>, nid: Bytes, items: seq<Bytes>)
    requires ItemsLaid(shares, nid, items)
    ensures AllOf(shares, nid)
  {
    assert forall j :: 0 <= j < |shares| ==> Contiguous.IsContiguousShare(shares[j], nid, Contiguous.DelimitedItems(items), j);
  }

  lemma SectionEmptyIff(shares: seq<Bytes>, nid: Bytes, items: seq<Bytes>)
    requires ItemsLaid(shares, nid, items)
    ensures shares == [] <==> items == []
  {
    var raw := Contiguous.DelimitedItems(items);
    FirstShareHolds(shares, nid, raw);
    if items == [] { assert raw == []; } else { assert |raw[0]| > 0; }
  }

  lemma FirstShareHolds(shares: seq<Bytes>, nid: Bytes, raw: seq<Bytes>)
    requires Contiguous.ContiguousLayout(shares, nid, raw)
    ensures |shares| > 0 ==> |Flatten(raw)| > 0
  {
    if |shares| > 0 { assert Contiguous.IsContiguousShare(shares[0], nid, raw, 0); }
  }

  lemma UniformBefore(a: seq<Bytes>, x: Bytes, b: seq<Bytes>, y: Bytes)
    requires AllOf(a, x) && AllOf(b, y) && !Less(y, x)
    ensures Before(a, b)
  {}

  /** The sections before the messages. */
  function Front(s: Sections): seq<Bytes> { s.txs + s.roots + s.evidence }

  ghost predicate Uniform(s: Sections) {
    && AllOf(s.txs, TxNamespace) && AllOf(s.roots, IntermediateStateRootsNamespace) && AllOf(s.evidence, EvidenceNamespace)
    && AllOf(s.tail, TailPaddingNamespace)
  }

  lemma SectionsUniform(s: Sections, data: Data)
    requires Laid(s, data)
    ensures Uniform(s)
  {
    ItemsUniform(s.txs, TxNamespace, data.txs);
    ItemsUniform(s.roots, IntermediateStateRootsNamespace, data.roots);
    ItemsUniform(s.evidence, EvidenceNamespace, data.evidence);
    TailUniform(s.tail);
  }

  lemma FrontOrdered(s: Sections)
    requires Uniform(s)
    ensures Sized(Front(s)) && Ordered(Front(s))
  {
    ReservedOrder();
    UniformOrdered(s.txs, TxNamespace);
    UniformOrdered(s.roots, IntermediateStateRootsNamespace);
    UniformOrdered(s.evidence, EvidenceNamespace);
    UniformBefore(s.txs, TxNamespace, s.roots, IntermediateStateRootsNamespace);
    OrderedConcat(s.txs, s.roots);
    UniformBefore(s.txs, TxNamespace, s.evidence, EvidenceNamespace);
    UniformBefore(s.roots, IntermediateStateRootsNamespace, s.evidence, EvidenceNamespace);
    BeforeConcat(s.txs, s.roots, s.evidence);
    OrderedConcat(s.txs + s.roots, s.evidence);
  }

  lemma FrontBefore(s: Sections, b: seq<Bytes>)
    requires Uniform(s) && Sized(b)
    ensures Sized(Front(s)) && (Before(Front(s), b) <==> Before(s.txs, b) && Before(s.roots, b) && Before(s.evidence, b))
  {
    BeforeConcat(s.txs, s.roots, b);
    BeforeConcat(s.txs + s.roots, s.evidence, b);
  }

  lemma FrontBeforeTail(s: Sections)
    requires Uniform(s)
    ensures Sized(Front(s)) && Before(Front(s), s.tail)
  {
    ReservedOrder();
    UniformBefore(s.txs, TxNamespace, s.tail, TailPaddingNamespace);
    UniformBefore(s.roots, IntermediateStateRootsNamespace, s.tail, TailPaddingNamespace);
    UniformBefore(s.evidence, EvidenceNamespace, s.tail, TailPaddingNamespace);
    FrontBefore(s, s.tail);
  }

  /** The shares are those of the messages. */
  ghost predicate CarryAll(shares: seq<Bytes>, msgs: seq<Message>) {
    && Sized(shares)
    && (forall i :: 0 <= i < |shares| ==> Carries(shares[i], msgs))
    && (forall k :: 0 <= k < |msgs| ==> HasShare(shares, msgs[k]))
  }

  /** No message sorts before the namespace. */
  ghost predicate NoneBelow(msgs: seq<Message>, nid: Bytes) {
    forall k :: 0 <= k < |msgs| ==> !Less(msgs[k].nid, nid)
  }

  lemma SectionBeforeMessages(a: seq<Bytes>, nid: Bytes, shares: seq<Bytes>, msgs: seq<Message>)
    requires AllOf(a, nid) && CarryAll(shares, msgs)
    ensures Before(a, shares) <==> a == [] || NoneBelow(msgs, nid)
  {
    if a != [] && Before(a, shares) {
      forall k | 0 <= k < |msgs| ensures !Less(msgs[k].nid, nid) {
        assert HasShare(shares, msgs[k]);
        var i :| 0 <= i < |shares| && shares[i][..NamespaceSize] == msgs[k].nid;
        assert Follows(a[0], shares[i]);
      }
    }
    if NoneBelow(msgs, nid) {
      forall i, j | 0 <= i < |a| && 0 <= j < |shares| ensures Follows(a[i], shares[j]) {
        assert Carries(shares[j], msgs);
      }
    }
  }

  /** No message sorts after the padding. */
  ghost predicate BelowPadding(msgs: seq<Message>) {
    forall k :: 0 <= k < |msgs| ==> !Less(TailPaddingNamespace, msgs[k].nid)
  }

  lemma MessagesBeforeTail(shares: seq<Bytes>, msgs: seq<Message>, tail: seq<Bytes>)
    requires CarryAll(shares, msgs) && AllOf(tail, TailPaddingNamespace)
    ensures Before(shares, tail) <==> tail == [] || BelowPadding(msgs)
  {
    if tail != [] && Before(shares, tail) {
      forall k | 0 <= k < |msgs| ensures !Less(TailPaddingNamespace, msgs[k].nid) {
        assert HasShare(shares, msgs[k]);
        var i :| 0 <= i < |shares| && shares[i][..NamespaceSize] == msgs[k].nid;
        assert Follows(shares[i], tail[0]);
      }
    }
    if BelowPadding(msgs) {
      forall i, j | 0 <= i < |shares| && 0 <= j < |tail| ensures Follows(shares[i], tail[j]) {
        assert Carries(shares[i], msgs);
      }
    }
  }

  /** No message sorts before a reserved section that is there. */
  ghost predicate AboveReserved(data: Data) {
    && (data.txs != [] ==> NoneBelow(data.messages, TxNamespace))
    && (data.roots != [] ==> NoneBelow(data.messages, IntermediateStateRootsNamespace))
    && (data.evidence != [] ==> NoneBelow(data.messages, EvidenceNamespace))
  }

  lemma FrontBeforeMessages(s: Sections, data: Data)
    requires Laid(s, data) && Uniform(s) && CarryAll(s.messages, data.messages)
    ensures Sized(Front(s)) && (Before(Front(s), s.messages) <==> AboveReserved(data))
  {
    FrontBefore(s, s.messages);
    SectionBeforeMessages(s.txs, TxNamespace, s.messages, data.messages);
    SectionBeforeMessages(s.roots, IntermediateStateRootsNamespace, s.messages, data.messages);
    SectionBeforeMessages(s.evidence, EvidenceNamespace, s.messages, data.messages);
    SectionEmptyIff(s.txs, TxNamespace, data.txs);
    SectionEmptyIff(s.roots, IntermediateStateRootsNamespace, data.roots);
    SectionEmptyIff(s.evidence, EvidenceNamespace, data.evidence);
  }

  /** The square is ordered by namespace exactly when no message sorts before a
      reserved section that is there, and no padding follows a message that
      sorts after it. */
  lemma SquareOrdered(s: Sections, data: Data)
    requires Laid(s, data) && SortedBy(data.messages, ByNamespace)
    ensures Sized(s.All())
    ensures Ordered(s.All()) <==> AboveReserved(data) && (s.tail == [] || BelowPadding(data.messages))
  {
    SectionsUniform(s, data);
    LayoutSizes(s.messages, data.messages);
    MessagesOrdered(s.messages, data.messages);
    FrontOrdered(s);
    FrontBeforeMessages(s, data);
    FrontBeforeTail(s);
    MessagesBeforeTail(s.messages, data.messages, s.tail);
    UniformOrdered(s.tail, TailPaddingNamespace);
    OrderedConcat(Front(s), s.messages);
    BeforeConcat(Front(s), s.messages, s.tail);
    OrderedConcat(Front(s) + s.messages, s.tail);
    assert s.All() == Front(s) + s.messages + s.tail;
  }

  // ---- The same, checked on the data ----

  /** The shares that length-delimited items take. */
  function ItemShares(items: seq<Bytes>): nat {
    (|Contiguous.DelimitedStream(items)| + TxShareSize - 1) / TxShareSize
  }

  function SpanOf(msgs: seq<Message>): nat {
    if |msgs| == 0 then 0 else Span(msgs[0]) + SpanOf(msgs[1..])
  }

  /** The shares that the data takes before padding. */
  function UsedShares(data: Data): nat {
    ItemShares(data.txs) + ItemShares(data.roots) + ItemShares(data.evidence) + SpanOf(data.messages)
  }

  lemma ItemSharesOf(shares: seq<Bytes>, nid: Bytes, items: seq<Bytes>)
    requires ItemsLaid(shares, nid, items)
    ensures |shares| == ItemShares(items)
  {
    var raw := Contiguous.DelimitedItems(items);
    Contiguous.StreamIsFlatten(items);
    LastShareHolds(shares, nid, raw);
    CeilingUnique(|shares|, |Flatten(raw)|);
  }

  lemma LastShareHolds(shares: seq<Bytes>, nid: Bytes, raw: seq<Bytes>)
    requires Contiguous.ContiguousLayout(shares, nid, raw)
    ensures |shares| > 0 ==> (|shares| - 1) * TxShareSize < |Flatten(raw)|
  {
    var j := |shares| - 1;
    if j >= 0 { assert Contiguous.IsContiguousShare(shares[j], nid, raw, j); }
  }

  lemma CeilingUnique(n: nat, length: nat)
    requires length <= n * TxShareSize && (n > 0 ==> (n - 1) * TxShareSize < length)
    ensures n == (length + TxShareSize - 1) / TxShareSize
  {}

  lemma {:induction false} SpanOfLayout(shares: seq<Bytes>, msgs: seq<Message>)
    requires MessagesLayout(shares, msgs)
    ensures |shares| == SpanOf(msgs)
    decreases |msgs|
  {
    if |msgs| > 0 { SpanOfLayout(shares[Span(msgs[0])..], msgs[1..]); }
  }

  lemma UsedFromData(s: Sections, data: Data)
    requires Laid(s, data)
    ensures s.Used() == UsedShares(data)
  {
    ItemSharesOf(s.txs, TxNamespace, data.txs);
    ItemSharesOf(s.roots, IntermediateStateRootsNamespace, data.roots);
    ItemSharesOf(s.evidence, EvidenceNamespace, data.evidence);
    SpanOfLayout(s.messages, data.messages);
  }

  /** That many shares are a square already. */
  ghost predicate IsSquare(n: nat) {
    exists w: nat :: IsPowerOf2(w) && n == w * w
  }

  /** The padding to the smallest square is empty exactly then. */
  lemma TailEmptyIff(s: Sections)
    requires IsPaddedLen(|s.All()|, if s.Used() == 0 then MinShareCount else s.Used())
    ensures s.tail == [] <==> IsSquare(s.Used())
  {
    var used := s.Used();
    var w: nat :| IsPowerOf2(w) && |s.All()| == w * w && (if used == 0 then MinShareCount else used) <= w * w
      && forall t: nat :: IsPowerOf2(t) && (if used == 0 then MinShareCount else used) <= t * t ==> w <= t;
    assert |s.All()| == used + |s.tail|;
    if IsSquare(used) {
      var t: nat :| IsPowerOf2(t) && used == t * t;
      SquaresKeepOrder(w, t);
    }
  }

  /** What `ComputeShares` lays out is ordered, if and only if no message sorts
      before a reserved section that is there, and the data fills a square or no
      message sorts after the padding. */
  lemma ComputedSquareOrdered(s: Sections, data: Data)
    requires Laid(s, data) && SortedBy(data.messages, ByNamespace)
    requires IsPaddedLen(|s.All()|, if s.Used() == 0 then MinShareCount else s.Used())
    ensures Sized(s.All())
    ensures Ordered(s.All()) <==> AboveReserved(data) && (IsSquare(UsedShares(data)) || BelowPadding(data.messages))
  {
    SquareOrdered(s, data);
    TailEmptyIff(s);
    UsedFromData(s, data);
  }

  /** Messages with namespaces of their own never sort before a section. */
  lemma OwnNamespacesAbove(data: Data)
    requires OwnNamespaces(data.messages)
    ensures AboveReserved(data)
  {
    OwnAbove(data.messages, TxNamespace);
    OwnAbove(data.messages, IntermediateStateRootsNamespace);
    OwnAbove(data.messages, EvidenceNamespace);
  }

  /** A message has a namespace of its own exactly above the reserved ones, the one
      for padding left out. */
  lemma MessageKindIff(nid: Bytes)
    ensures KindOf(nid) == MessageKind <==> Less(MaxReservedNamespace, nid) && nid != TailPaddingNamespace
  {
    ReservedOrder();
    LessTotal(nid, MaxReservedNamespace);
    assert Reserved(TxNamespace) && Reserved(IntermediateStateRootsNamespace) && Reserved(EvidenceNamespace);
  }

  lemma OwnAbove(msgs: seq<Message>, nid: Bytes)
    requires OwnNamespaces(msgs) && Reserved(nid)
    ensures NoneBelow(msgs, nid)
  {
    ReservedOrder();
    forall k | 0 <= k < |msgs| ensures !Less(msgs[k].nid, nid) {
      LessTransitive(nid, MaxReservedNamespace, msgs[k].nid);
      LessTotal(nid, msgs[k].nid);
    }
  }

  /** A message of the zero namespace behind a transaction breaks the order. */
  lemma ZeroNamespaceBreaksOrder(s: Sections, data: Data, k: nat)
    requires Laid(s, data) && SortedBy(data.messages, ByNamespace) && data.txs != []
    requires k < |data.messages| && data.messages[k].nid == [0, 0, 0, 0, 0, 0, 0] + [0]
    ensures Sized(s.All()) && !Ordered(s.All())
  {
    SquareOrdered(s, data);
    assert Less([0], [1]) && TxNamespace == [0, 0, 0, 0, 0, 0, 0] + [1];
    ZerosOrder([0], [1]);
    assert Less(data.messages[k].nid, TxNamespace);
  }

  lemma TailUniform(tail: seq<Bytes>)
    requires TailLaid(tail)
    ensures AllOf(tail, TailPaddingNamespace)
  {
    assert TailPaddingShare[..NamespaceSize] == TailPaddingNamespace;
  }
}
