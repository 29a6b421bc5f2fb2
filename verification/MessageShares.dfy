/** Messages: each one length-delimited, cut over whole shares of its own
    namespace, and parsed back (`types/share_splitting.go`,
    `types/share_merging.go`). */
module MessageShares {
  import opened Basics
  import opened Int64
  import opened Streams
  import opened Varint
  import opened ShareConstants

  datatype Message = Message(nid: Bytes, data: Bytes)

  ghost predicate WellFormed(m: Message) {
    |m.nid| == NamespaceSize && |m.data| < TwoTo64
  }

  predicate Sized(shares: seq<Bytes>) {
    forall i :: 0 <= i < |shares| ==> |shares[i]| == ShareSize
  }

  // ---- Splitting ----

  /** Share j of a message: namespace, then piece j of its encoding. */
  ghost predicate IsMessageShare(share: Bytes, nid: Bytes, raw: Bytes, j: nat) {
    && |share| == ShareSize
    && share[..NamespaceSize] == nid
    && PaddedPiece(share[NamespaceSize..], raw, MsgShareSize, j)
  }

  ghost predicate MessagePrefix(shares: seq<Bytes>, nid: Bytes, raw: Bytes) {
    forall j :: 0 <= j < |shares| ==> IsMessageShare(shares[j], nid, raw, j)
  }

  function ShareCount(raw: Bytes): nat {
    (|raw| + MsgShareSize - 1) / MsgShareSize
  }

  method NextMessageShare(rest: Bytes, nid: Bytes, ghost raw: Bytes, ghost j: nat) returns (share: Bytes)
    requires |nid| == NamespaceSize && j * MsgShareSize < |raw| && rest == raw[j * MsgShareSize..]
    ensures IsMessageShare(share, nid, raw, j)
  {
    var sizeOrLen := Min(MsgShareSize, |rest|);
    share := ZeroPad(nid + rest[..sizeOrLen], ShareSize);
    assert rest[..sizeOrLen] == ChunkAt(raw, j * MsgShareSize, MsgShareSize);
    assert share[NamespaceSize..] == ZeroPad(rest[..sizeOrLen], MsgShareSize);
  }

  /** `splitMessage` */
  method SplitMessage(raw: Bytes, nid: Bytes) returns (shares: seq<Bytes>)
    requires |nid| == NamespaceSize && |raw| > MsgShareSize
    ensures |shares| == ShareCount(raw) && MessagePrefix(shares, nid, raw)
  {
    var first := NextMessageShare(raw, nid, raw, 0);
    shares := [first];
    var rest := raw[MsgShareSize..];
    while |rest| > 0
      invariant MessagePrefix(shares, nid, raw)
      invariant rest == raw[Min(|shares| * MsgShareSize, |raw|)..]
      invariant |shares| * MsgShareSize < |raw| + MsgShareSize
    {
      var share := NextMessageShare(rest, nid, raw, |shares|);
      shares := shares + [share];
      rest := rest[Min(MsgShareSize, |rest|)..];
    }
  }

  /** `appendToShares` */
  method AppendToShares(shares: seq<Bytes>, nid: Bytes, raw: Bytes) returns (r: seq<Bytes>)
    requires |nid| == NamespaceSize && |raw| > 0
    ensures |r| == |shares| + ShareCount(raw) && r[..|shares|] == shares
    ensures MessagePrefix(r[|shares|..], nid, raw)
  {
    if |raw| <= MsgShareSize {
      var share := NextMessageShare(raw, nid, raw, 0);
      r := shares + [share];
    } else {
      var more := SplitMessage(raw, nid);
      r := shares + more;
      assert r[|shares|..] == more;
    }
  }

  /** The shares of one message. */
  ghost predicate MessageLayout(shares: seq<Bytes>, m: Message) {
    |shares| == Span(m) && MessagePrefix(shares, m.nid, Delimited(m.data))
  }

  function Span(m: Message): nat { ShareCount(Delimited(m.data)) }

  /** The shares of a list of messages, one after the other. */
  ghost predicate MessagesLayout(shares: seq<Bytes>, msgs: seq<Message>) {
    if |msgs| == 0 then |shares| == 0
    else
      && Span(msgs[0]) <= |shares|
      && MessageLayout(shares[..Span(msgs[0])], msgs[0])
      && MessagesLayout(shares[Span(msgs[0])..], msgs[1..])
  }

  lemma {:induction false} LayoutAppend(shares: seq<Bytes>, msgs: seq<Message>, more: seq<Bytes>, m: Message)
    requires MessagesLayout(shares, msgs) && MessageLayout(more, m)
    ensures MessagesLayout(shares + more, msgs + [m])
  {
    if |msgs| == 0 {
      assert shares + more == more && more[..|more|] == more && msgs + [m] == [m];
    } else {
      var n := Span(msgs[0]);
      LayoutAppend(shares[n..], msgs[1..], more, m);
      assert (shares + more)[..n] == shares[..n] && (shares + more)[n..] == shares[n..] + more;
      assert (msgs + [m])[1..] == msgs[1..] + [m] && (msgs + [m])[0] == msgs[0];
    }
  }

  /** The loop of `Messages.SplitIntoShares` over messages already sorted. */
  method SplitMessages(msgs: seq<Message>) returns (shares: seq<Bytes>)
    requires forall i :: 0 <= i < |msgs| ==> WellFormed(msgs[i])
    ensures MessagesLayout(shares, msgs)
  {
    shares := [];
    for i := 0 to |msgs|
      invariant MessagesLayout(shares, msgs[..i])
    {
      var before := shares;
      shares := AppendToShares(shares, msgs[i].nid, Delimited(msgs[i].data));
      assert shares == before + shares[|before|..] && msgs[..i + 1] == msgs[..i] + [msgs[i]];
      LayoutAppend(before, msgs[..i], shares[|before|..], msgs[i]);
    }
    assert msgs[..|msgs|] == msgs;
  }

  // ---- Parsing ----

  /** What parsing ends in: the messages, an unreadable delimiter, or a length
      that runs past the last share (an index panic in the source). */
  datatype Outcome = Messages(msgs: seq<Message>) | BadDelimiter | OutOfRange

  function Prepend(m: Message, o: Outcome): Outcome {
    if o.Messages? then Messages([m] + o.msgs) else o
  }

  /** `nextMsg`: the message and how many more shares it took. */
  function NextMsg(current: Bytes, msgLen: nat, rest: seq<Bytes>): (r: Option<(Bytes, nat)>)
    requires Sized(rest)
    ensures r.Some? ==> r.value.1 <= |rest|
    decreases |rest|
  {
    if msgLen <= |current| then Some((current[..msgLen], 0))
    else if |rest| == 0 then None
    else
      var r := NextMsg(current + rest[0][NamespaceSize..], msgLen, rest[1..]);
      if r.None? then None else Some((r.value.0, r.value.1 + 1))
  }

  /** `parseMsgShares` */
  function ParseMsgs(shares: seq<Bytes>): Outcome
    requires Sized(shares)
  {
    if |shares| == 0 then Messages([])
    else
      var d := ParseDelimiter(shares[0][NamespaceSize..]);
      if d.None? then BadDelimiter
      else
        var m := NextMsg(d.value.0, d.value.1, shares[1..]);
        if m.None? then OutOfRange
        else Prepend(Message(shares[0][..NamespaceSize], m.value.0), ParseMsgs(shares[m.value.1 + 1..]))
  }

  /** `nextMsg` as the source runs it, over a cursor; `None` where it indexes
      past the last share. */
  method NextMsgAt(shares: seq<Bytes>, current: Bytes, cursor: nat, msgLen: nat) returns (r: Option<(Bytes, nat)>)
    requires cursor < |shares| && Sized(shares)
    ensures r == match NextMsg(current, msgLen, shares[cursor + 1..])
                 case Some(m) => Some((m.0, cursor + m.1 + 1))
                 case None => None
    decreases |shares| - cursor
  {
    if msgLen > |current| {
      if cursor + 1 >= |shares| { return None; }
      assert shares[cursor + 1..][1..] == shares[cursor + 2..];
      r := NextMsgAt(shares, current + shares[cursor + 1][NamespaceSize..], cursor + 1, msgLen);
    } else {
      r := Some((current[..msgLen], cursor + 1));
    }
  }

  function Concat(msgs: seq<Message>, o: Outcome): Outcome {
    if o.Messages? then Messages(msgs + o.msgs) else o
  }

  /** What was collected before the cursor and what the rest still gives. */
  ghost predicate Collected(shares: seq<Bytes>, msgs: seq<Message>, cursor: nat, result: Outcome)
    requires Sized(shares)
  {
    cursor <= |shares| && result == Concat(msgs, ParseMsgs(shares[cursor..]))
  }

  lemma CollectNext(shares: seq<Bytes>, msgs: seq<Message>, cursor: nat, result: Outcome, d: (Bytes, nat))
    requires Sized(shares) && Collected(shares, msgs, cursor, result)
    requires cursor < |shares| && ParseDelimiter(shares[cursor][NamespaceSize..]) == Some(d)
    ensures match NextMsg(d.0, d.1, shares[cursor + 1..])
            case None => result == OutOfRange
            case Some(m) => Collected(shares, msgs + [Message(shares[cursor][..NamespaceSize], m.0)], cursor + m.1 + 1, result)
  {
    var rest := shares[cursor..];
    assert rest[1..] == shares[cursor + 1..];
    assert forall k :: 0 <= k <= |rest| ==> rest[k..] == shares[cursor + k..];
  }

  /** The delimiter at the cursor; on an error the result is known. */
  method DelimiterAt(shares: seq<Bytes>, cursor: nat, ghost msgs: seq<Message>, ghost result: Outcome) returns (d: Option<(Bytes, nat)>)
    requires Sized(shares) && Collected(shares, msgs, cursor, result) && cursor < |shares|
    ensures d == ParseDelimiter(shares[cursor][NamespaceSize..])
    ensures d.None? ==> result == BadDelimiter
  {
    d := ParseDelimiter(shares[cursor][NamespaceSize..]);
  }

  /** `nextMsg` at the cursor, whose delimiter is known. */
  method MessageAt(shares: seq<Bytes>, cursor: nat, d: (Bytes, nat), ghost msgs: seq<Message>, ghost result: Outcome)
    returns (m: Option<(Message, nat)>)
    requires Sized(shares) && Collected(shares, msgs, cursor, result) && cursor < |shares|
    requires ParseDelimiter(shares[cursor][NamespaceSize..]) == Some(d)
    ensures m.None? ==> result == OutOfRange
    ensures m.Some? ==> cursor < m.value.1 && Collected(shares, msgs + [m.value.0], m.value.1, result)
  {
    CollectNext(shares, msgs, cursor, result, d);
    var next := NextMsgAt(shares, d.0, cursor, d.1);
    if next.None? { return None; }
    m := Some((Message(shares[cursor][..NamespaceSize], next.value.0), next.value.1));
  }

  /** `parseMsgShares` as the source runs it: one loop over a cursor. */
  method ParseMsgShares(shares: seq<Bytes>) returns (r: Outcome)
    requires Sized(shares)
    ensures r == ParseMsgs(shares)
  {
    if |shares| == 0 { return Messages([]); }
    ghost var result := ParseMsgs(shares);
    assert shares[0..] == shares;
    r := ParseLoop(shares, result);
  }

  method ParseLoop(shares: seq<Bytes>, ghost result: Outcome) returns (r: Outcome)
    requires Sized(shares) && |shares| > 0 && Collected(shares, [], 0, result)
    ensures r == result
  {
    var msgs: seq<Message>, cursor: nat := [], 0;
    var d := DelimiterAt(shares, cursor, msgs, result);
    if d.None? { return BadDelimiter; }
    while cursor < |shares|
      invariant Collected(shares, msgs, cursor, result)
      invariant cursor < |shares| ==> d.Some? && ParseDelimiter(shares[cursor][NamespaceSize..]) == d
    {
      var m := MessageAt(shares, cursor, d.value, msgs, result);
      if m.None? { return OutOfRange; }
      msgs, cursor := msgs + [m.value.0], m.value.1;
      if cursor < |shares| {
        d := DelimiterAt(shares, cursor, msgs, result);
        if d.None? { return BadDelimiter; }
      }
    }
    r := Messages(msgs);
  }

  // ---- Round trip ----

  function Payloads(shares: seq<Bytes>): (r: seq<Bytes>)
    requires Sized(shares)
    ensures |r| == |shares|
    ensures forall i :: 0 <= i < |r| ==> r[i] == shares[i][NamespaceSize..] && |r[i]| == MsgShareSize
  {
    seq(|shares|, i requires 0 <= i < |shares| => shares[i][NamespaceSize..])
  }

  lemma {:induction false} PayloadsLength(shares: seq<Bytes>)
    requires Sized(shares)
    ensures |Flatten(Payloads(shares))| == |shares| * MsgShareSize
  {
    if |shares| > 0 {
      PayloadsLength(shares[1..]);
      assert Payloads(shares)[1..] == Payloads(shares[1..]);
    }
  }

  /** A message that ends inside the last share of `own` is read from exactly
      those shares, whatever follows them. */
  lemma {:induction false} NextMsgInverts(current: Bytes, data: Bytes, own: seq<Bytes>, rest: seq<Bytes>, pad: nat)
    requires Sized(own) && Sized(rest) && Sized(own + rest)
    requires current + Flatten(Payloads(own)) == data + Zeros(pad) && pad < MsgShareSize
    ensures NextMsg(current, |data|, own + rest) == Some((data, |own|))
    decreases |own|
  {
    PayloadsLength(own);
    if |own| == 0 {
      CutPrefix(current, [], data, Zeros(pad));
    } else {
      var next := own[0][NamespaceSize..];
      assert Payloads(own)[1..] == Payloads(own[1..]);
      assert (current + next) + Flatten(Payloads(own[1..])) == current + Flatten(Payloads(own));
      assert (own + rest)[1..] == own[1..] + rest;
      NextMsgInverts(current + next, data, own[1..], rest, pad);
    }
  }

  lemma {:induction false} LayoutSizes(shares: seq<Bytes>, msgs: seq<Message>)
    requires MessagesLayout(shares, msgs)
    ensures Sized(shares)
  {
    if |msgs| > 0 {
      var n := Span(msgs[0]);
      LayoutSizes(shares[n..], msgs[1..]);
      assert forall i :: 0 <= i < n ==> shares[i] == shares[..n][i];
      assert forall i :: n <= i < |shares| ==> shares[i] == shares[n..][i - n];
    }
  }

  /** The first message of a layout is read back from its own shares. */
  lemma FirstMessage(own: seq<Bytes>, rest: seq<Bytes>, m: Message)
    requires WellFormed(m) && MessageLayout(own, m) && Sized(rest)
    ensures |own| > 0 && Sized(own) && own[0][..NamespaceSize] == m.nid
    ensures Sized(own[1..] + rest)
    ensures var d := ParseDelimiter(own[0][NamespaceSize..]);
      d.Some? && NextMsg(d.value.0, d.value.1, own[1..] + rest) == Some((m.data, |own| - 1))
  {
    var head, first := PutUvarint(|m.data|), own[0][NamespaceSize..];
    var pad := OwnPayloads(own, m);
    CapacityIs64Bit();
    ReadPut(|m.data|, [], 0);
    CutPrefix(first, Flatten(Payloads(own[1..])), head, m.data + Zeros(pad));
    ParseDelimited(|m.data|, first[|head|..]);
    NextMsgInverts(first[|head|..], m.data, own[1..], rest, pad);
  }

  lemma OwnPayloads(own: seq<Bytes>, m: Message) returns (pad: nat)
    requires MessageLayout(own, m)
    ensures |own| > 0 && Sized(own) && own[0][..NamespaceSize] == m.nid && pad < MsgShareSize
    ensures own[0][NamespaceSize..] + Flatten(Payloads(own[1..])) == PutUvarint(|m.data|) + (m.data + Zeros(pad))
  {
    var raw := Delimited(m.data);
    assert forall j :: 0 <= j < |own| ==> IsMessageShare(own[j], m.nid, raw, j);
    pad := PiecesCover(Payloads(own), raw, MsgShareSize);
    assert Payloads(own)[1..] == Payloads(own[1..]);
    assert raw + Zeros(pad) == PutUvarint(|m.data|) + (m.data + Zeros(pad));
  }

  /** Every list of messages is parsed back from its shares: the same
      namespaces, the same data, in the same order. */
  lemma {:induction false} MessagesRoundTrip(shares: seq<Bytes>, msgs: seq<Message>)
    requires MessagesLayout(shares, msgs) && forall i :: 0 <= i < |msgs| ==> WellFormed(msgs[i])
    ensures Sized(shares)
    ensures ParseMsgs(shares) == Messages(msgs)
    decreases |msgs|
  {
    LayoutSizes(shares, msgs);
    if |msgs| > 0 {
      var n := Span(msgs[0]);
      var own, rest := shares[..n], shares[n..];
      assert own + rest == shares && own[1..] + rest == shares[1..];
      FirstMessage(own, rest, msgs[0]);
      MessagesRoundTrip(rest, msgs[1..]);
      assert msgs == [msgs[0]] + msgs[1..];
    }
  }
}
