/** The file-backed signer and what it does to prevent double signing
    (`privval/file.go`). */
module PrivValidator {
  import opened Basics
  import opened Votes

  const StepNone: int := 0
  const StepPropose: int := 1
  const StepPrevote: int := 2
  const StepPrecommit: int := 3

  datatype HRS = HRS(height: int, round: int, step: int)

  predicate Before(a: HRS, b: HRS) {
    a.height < b.height || (a.height == b.height && (a.round < b.round || (a.round == b.round && a.step < b.step)))
  }

  /** What can be signed. */
  datatype Message =
    | VoteMsg(kind: SignedMsgType, height: int, round: int, blockID: BlockID, timestamp: int)
    | ProposalMsg(height: int, round: int, polRound: int, blockID: BlockID, timestamp: int)

  /** `voteToStep`, and the step of a proposal. */
  function HrsOf(m: Message): HRS {
    HRS(m.height, m.round, match m case VoteMsg(kind, _, _, _, _) => (if kind == Prevote then StepPrevote else StepPrecommit)
                                   case ProposalMsg(_, _, _, _, _) => StepPropose)
  }

  /** Canonical encoding with its decoders, and the private key. A signature may
      fail and need not be the same twice; `attempt` tells attempts apart. */
  datatype Codec = Codec(
    encode: (string, Message) -> Bytes,
    decodeVote: Bytes -> Option<(string, Message)>, decodeProposal: Bytes -> Option<(string, Message)>,
    sign: (Bytes, nat) -> Option<Bytes>)

  ghost predicate Lawful(c: Codec) {
    && (forall chainID: string, m: Message :: c.encode(chainID, m) != [])
    && (forall chainID: string, m: Message :: m.VoteMsg? ==> c.decodeVote(c.encode(chainID, m)) == Some((chainID, m)))
    && (forall chainID: string, m: Message :: m.ProposalMsg? ==> c.decodeProposal(c.encode(chainID, m)) == Some((chainID, m)))
    && (forall b, attempt :: c.sign(b, attempt).Some? ==> c.sign(b, attempt).value != [])
  }

  /** `FilePVLastSignState`; `None` stands for nil. */
  datatype LastSign = LastSign(hrs: HRS, signature: Option<Bytes>, signBytes: Option<Bytes>)

  const Fresh: LastSign := LastSign(HRS(0, 0, StepNone), None, None)

  /** What is read back from the file: empty fields are left out of it. */
  function Reload(l: LastSign): LastSign {
    l.(signature := if l.signature == Some([]) then None else l.signature,
       signBytes := if l.signBytes == Some([]) then None else l.signBytes)
  }

  datatype Checked = Regression | NoSignBytes | SameHRS | Advances | MissingSignature

  /** `CheckHRS`; `MissingSignature` is its panic. */
  function CheckHRS(l: LastSign, hrs: HRS): Checked {
    if l.hrs.height > hrs.height then Regression
    else if l.hrs.height < hrs.height then Advances
    else if l.hrs.round > hrs.round then Regression
    else if l.hrs.round < hrs.round then Advances
    else if l.hrs.step > hrs.step then Regression
    else if l.hrs.step < hrs.step then Advances
    else if l.signBytes.None? then NoSignBytes
    else if l.signature.None? then MissingSignature
    else SameHRS
  }

  /** How a call ends. A released message carries its sign bytes, which depend
      on the timestamp it ends up with. */
  datatype Outcome =
    | Refused
    | Released(message: Message, signBytes: Bytes, signature: Bytes)
    | Panicked

  /** `checkVotesOnlyDifferByTimestamp` and its twin for proposals: the last
      timestamp if nothing else differs. */
  function OnlyTimestampDiffers(c: Codec, isVote: bool, last: Bytes, signBytes: Bytes): Option<Option<int>> {
    var decode := if isVote then c.decodeVote else c.decodeProposal;
    var a, b := decode(last), decode(signBytes);
    if a.None? || b.None? then None
    else
      var ((chainA, lastMsg), (chainB, newMsg)) := (a.value, b.value);
      Some(if chainA == chainB && newMsg.(timestamp := 0) == lastMsg.(timestamp := 0) then Some(lastMsg.timestamp) else None)
  }

  /** Signing again for the height, round and step signed last. */
  function Resign(c: Codec, l: LastSign, chainID: string, m: Message): Outcome
    requires l.signBytes.Some? && l.signature.Some?
  {
    var signBytes := c.encode(chainID, m);
    if signBytes == l.signBytes.value then Released(m, signBytes, l.signature.value)
    else
      var differs := OnlyTimestampDiffers(c, m.VoteMsg?, l.signBytes.value, signBytes);
      if differs.None? then Panicked
      else if differs.value.None? then Refused
      else
        var again := m.(timestamp := differs.value.value);
        Released(again, c.encode(chainID, again), l.signature.value)
  }

  /** The state to save, if the message is to be signed anew. */
  function NewlySigned(c: Codec, l: LastSign, chainID: string, m: Message, attempt: nat): Option<LastSign> {
    if CheckHRS(l, HrsOf(m)) != Advances then None
    else
      var signBytes := c.encode(chainID, m);
      var sig := c.sign(signBytes, attempt);
      if sig.None? then None else Some(LastSign(HrsOf(m), sig, Some(signBytes)))
  }

  function Call(c: Codec, l: LastSign, chainID: string, m: Message, attempt: nat): Outcome {
    match CheckHRS(l, HrsOf(m))
    case Regression => Refused
    case NoSignBytes => Refused
    case MissingSignature => Panicked
    case SameHRS => Resign(c, l, chainID, m)
    case Advances =>
      var saved := NewlySigned(c, l, chainID, m, attempt);
      if saved.None? then Refused else Released(m, saved.value.signBytes.value, saved.value.signature.value)
  }

  // ---- When a message is released ----

  function At(m: Message, timestamp: int): Message { m.(timestamp := timestamp) }

  /** The message was signed for this chain, with this or another timestamp. */
  ghost predicate Repeats(c: Codec, l: LastSign, chainID: string, m: Message) {
    HrsOf(m) == l.hrs && exists timestamp :: l.signBytes == Some(c.encode(chainID, At(m, timestamp)))
  }

  /** The right answer: a message ahead of the saved height, round and step is
      released if the key signs it, and one that repeats what was signed with the
      saved sign bytes and signature and the timestamp these are for. Nothing
      else is released. */
  ghost predicate Answers(c: Codec, l: LastSign, chainID: string, m: Message, attempt: nat, r: Outcome) {
    var signBytes := c.encode(chainID, m);
    var signs := Before(l.hrs, HrsOf(m)) && c.sign(signBytes, attempt).Some?;
    && (signs ==> r == Released(m, signBytes, c.sign(signBytes, attempt).value))
    && (Repeats(c, l, chainID, m) ==>
          && r.Released? && r.message == At(m, r.message.timestamp) && r.signBytes == c.encode(chainID, r.message)
          && Some(r.signBytes) == l.signBytes && Some(r.signature) == l.signature)
    && (!signs && !Repeats(c, l, chainID, m) ==> r == Refused)
  }

  lemma CallAnswers(c: Codec, l: LastSign, chainID: string, m: Message, attempt: nat)
    requires Lawful(c) && StateOk(c, l)
    ensures Answers(c, l, chainID, m, attempt, Call(c, l, chainID, m, attempt))
  {
    if CheckHRS(l, HrsOf(m)) == SameHRS { ResignAnswers(c, l, chainID, m); }
  }

  lemma ResignAnswers(c: Codec, l: LastSign, chainID: string, m: Message)
    requires Lawful(c) && Signed(c, l) && HrsOf(m) == l.hrs
    ensures var r := Resign(c, l, chainID, m);
      if Repeats(c, l, chainID, m) then
        && r.Released? && r.message == At(m, r.message.timestamp) && r.signBytes == c.encode(chainID, r.message)
        && Some(r.signBytes) == l.signBytes && Some(r.signature) == l.signature
      else r == Refused
  {
    var lastChain, last :| HrsOf(last) == l.hrs && l.signBytes == Some(c.encode(lastChain, last));
    assert last.VoteMsg? == m.VoteMsg?;
    if Repeats(c, l, chainID, m) {
      var timestamp :| l.signBytes == Some(c.encode(chainID, At(m, timestamp)));
      SameMessage(c, lastChain, last, chainID, At(m, timestamp));
    } else {
      assert c.encode(chainID, m) == c.encode(chainID, At(m, m.timestamp));
      assert At(m, last.timestamp) == last ==> lastChain != chainID;
    }
  }

  /** Sign bytes determine chain and message. */
  lemma SameMessage(c: Codec, chainA: string, a: Message, chainB: string, b: Message)
    requires Lawful(c) && c.encode(chainA, a) == c.encode(chainB, b) && a.VoteMsg? == b.VoteMsg?
    ensures chainA == chainB && a == b
  {}

  /** Within a round a proposal comes before prevotes and these before precommits;
      two messages have one height, round and step exactly when they are of one
      kind, for one height and round. */
  lemma StepOrder(a: Message, b: Message)
    ensures Before(HrsOf(a), HrsOf(b)) <==>
      || a.height < b.height
      || (a.height == b.height && a.round < b.round)
      || (a.height == b.height && a.round == b.round &&
          ((a.ProposalMsg? && b.VoteMsg?) || (a.VoteMsg? && b.VoteMsg? && a.kind == Prevote && b.kind == Precommit)))
    ensures HrsOf(a) == HrsOf(b) <==>
      a.height == b.height && a.round == b.round && a.VoteMsg? == b.VoteMsg? && (a.VoteMsg? ==> a.kind == b.kind)
  {}

  // ---- The signer as an object ----

  class FilePV {
    const codec: Codec
    var lastSignState: LastSign
    var file: LastSign

    /** `NewFilePV` followed by `Save` */
    constructor (codec: Codec)
      ensures this.codec == codec && lastSignState == file == Fresh
    {
      this.codec := codec;
      lastSignState, file := Fresh, Fresh;
    }

    /** `saveSigned`: memory first, then the file, which is replaced at once. */
    method SaveSigned(hrs: HRS, signBytes: Bytes, sig: Bytes)
      modifies this
      ensures lastSignState == file == LastSign(hrs, Some(sig), Some(signBytes))
    {
      lastSignState := lastSignState.(hrs := hrs);
      lastSignState := lastSignState.(signature := Some(sig));
      lastSignState := lastSignState.(signBytes := Some(signBytes));
      file := lastSignState;
    }

    /** `signVote` and `signProposal` */
    method Sign(chainID: string, m: Message, attempt: nat) returns (r: Outcome)
      modifies this
      ensures r == Call(codec, old(lastSignState), chainID, m, attempt)
      ensures var saved := NewlySigned(codec, old(lastSignState), chainID, m, attempt);
        if saved.Some? then lastSignState == file == saved.value else lastSignState == old(lastSignState) && file == old(file)
      ensures Lawful(codec) && StateOk(codec, old(lastSignState)) ==>
        Answers(codec, old(lastSignState), chainID, m, attempt, r) && StateOk(codec, lastSignState)
    {
      ghost var l := lastSignState;
      if Lawful(codec) && StateOk(codec, l) { SignAnswers(codec, l, chainID, m, attempt); }
      var hrs := HrsOf(m);
      var checked := CheckHRS(lastSignState, hrs);
      if checked == MissingSignature { return Panicked; }
      if checked == Regression || checked == NoSignBytes { return Refused; }
      var signBytes := codec.encode(chainID, m);
      if checked == SameHRS {
        if signBytes == lastSignState.signBytes.value { return Released(m, signBytes, lastSignState.signature.value); }
        var differs := OnlyTimestampDiffers(codec, m.VoteMsg?, lastSignState.signBytes.value, signBytes);
        if differs.None? { return Panicked; }
        if differs.value.None? { return Refused; }
        var again := m.(timestamp := differs.value.value);
        return Released(again, codec.encode(chainID, again), lastSignState.signature.value);
      }
      var sig := codec.sign(signBytes, attempt);
      if sig.None? { return Refused; }
      SaveSigned(hrs, signBytes, sig.value);
      r := Released(m, signBytes, sig.value);
    }

    /** `LoadFilePV` after a restart */
    method Load()
      modifies this
      ensures lastSignState == Reload(file) && file == old(file)
    {
      lastSignState := Reload(file);
    }
  }

  // ---- Runs with crashes ----

  datatype Release = Release(hrs: HRS, signBytes: Bytes, signature: Bytes)

  datatype World = World(memory: LastSign, disk: LastSign, released: seq<Release>)

  /** A call that ends, a call during which the process dies once the signature
      is made, before or after the file was replaced, and a restart. */
  datatype Event =
    | Calling(chainID: string, message: Message, attempt: nat)
    | Crashing(chainID: string, message: Message, attempt: nat, saved: bool)
    | Restarting

  function Next(c: Codec, w: World, e: Event): World {
    match e
    case Restarting => w.(memory := Reload(w.disk))
    case Crashing(chainID, m, attempt, saved) =>
      var l := NewlySigned(c, w.memory, chainID, m, attempt);
      var disk := if l.Some? && saved then l.value else w.disk;
      World(Reload(disk), disk, w.released)
    case Calling(chainID, m, attempt) =>
      var l := NewlySigned(c, w.memory, chainID, m, attempt);
      var w1 := if l.Some? then w.(memory := l.value, disk := l.value) else w;
      var r := Call(c, w.memory, chainID, m, attempt);
      if r.Released? then w1.(released := w.released + [Release(HrsOf(r.message), r.signBytes, r.signature)]) else w1
  }

  function After(c: Codec, events: seq<Event>): World {
    if |events| == 0 then World(Fresh, Fresh, [])
    else Next(c, After(c, events[..|events| - 1]), events[|events| - 1])
  }

  /** A state that came from signing a message with its height, round, step. */
  ghost predicate Signed(c: Codec, l: LastSign) {
    && l.signature.Some? && l.signature.value != []
    && exists chainID, m :: HrsOf(m) == l.hrs && l.signBytes == Some(c.encode(chainID, m))
  }

  ghost predicate StateOk(c: Codec, l: LastSign) {
    l == Fresh || Signed(c, l)
  }

  /** Nothing released is ahead of the file, and what was released last for the
      file's height, round and step is what the file holds. */
  ghost predicate Covered(l: LastSign, r: Release) {
    Before(r.hrs, l.hrs) || (r.hrs == l.hrs && l.signBytes == Some(r.signBytes) && l.signature == Some(r.signature))
  }

  ghost predicate Consistent(released: seq<Release>) {
    forall i, j :: 0 <= i < j < |released| ==> Before(released[i].hrs, released[j].hrs) || released[i] == released[j]
  }

  ghost predicate Inv(c: Codec, w: World) {
    && StateOk(c, w.disk) && w.memory == w.disk
    && (forall i :: 0 <= i < |w.released| ==> Covered(w.disk, w.released[i]))
    && Consistent(w.released)
  }

  lemma ReloadOk(c: Codec, l: LastSign)
    requires Lawful(c) && StateOk(c, l)
    ensures Reload(l) == l
  {}

  /** Signing again releases exactly what was signed, whatever the timestamp
      asked for, and cannot panic. */
  lemma ResignRepeats(c: Codec, l: LastSign, chainID: string, m: Message)
    requires Lawful(c) && Signed(c, l) && HrsOf(m) == l.hrs
    ensures var r := Resign(c, l, chainID, m);
      r != Panicked && (r.Released? ==> HrsOf(r.message) == l.hrs && Some(r.signBytes) == l.signBytes && Some(r.signature) == l.signature)
  {
    var lastChain, last :| HrsOf(last) == l.hrs && l.signBytes == Some(c.encode(lastChain, last));
    assert last.VoteMsg? == m.VoteMsg?;
    var signBytes := c.encode(chainID, m);
    var differs := OnlyTimestampDiffers(c, m.VoteMsg?, l.signBytes.value, signBytes);
    if signBytes != l.signBytes.value && differs.value.Some? {
      assert m.(timestamp := last.timestamp) == last;
    }
  }

  /** No call panics. */
  lemma CallNeverPanics(c: Codec, l: LastSign, chainID: string, m: Message, attempt: nat)
    requires Lawful(c) && StateOk(c, l)
    ensures Call(c, l, chainID, m, attempt) != Panicked
  {
    if CheckHRS(l, HrsOf(m)) == SameHRS { ResignRepeats(c, l, chainID, m); }
  }

  lemma NewlySignedOk(c: Codec, l: LastSign, chainID: string, m: Message, attempt: nat)
    requires Lawful(c) && NewlySigned(c, l, chainID, m, attempt).Some?
    ensures var saved := NewlySigned(c, l, chainID, m, attempt).value; Signed(c, saved) && Before(l.hrs, saved.hrs)
  {}

  lemma SignAnswers(c: Codec, l: LastSign, chainID: string, m: Message, attempt: nat)
    requires Lawful(c) && StateOk(c, l)
    ensures Answers(c, l, chainID, m, attempt, Call(c, l, chainID, m, attempt))
    ensures NewlySigned(c, l, chainID, m, attempt).Some? ==> StateOk(c, NewlySigned(c, l, chainID, m, attempt).value)
  {
    CallAnswers(c, l, chainID, m, attempt);
    if NewlySigned(c, l, chainID, m, attempt).Some? { NewlySignedOk(c, l, chainID, m, attempt); }
  }

  lemma AdvanceCovers(l: LastSign, saved: LastSign, released: seq<Release>)
    requires Before(l.hrs, saved.hrs) && forall i :: 0 <= i < |released| ==> Covered(l, released[i])
    ensures forall i :: 0 <= i < |released| ==> Before(released[i].hrs, saved.hrs)
  {}

  lemma NextKeeps(c: Codec, w: World, e: Event)
    requires Lawful(c) && Inv(c, w)
    ensures Inv(c, Next(c, w, e))
  {
    match e {
      case Restarting => ReloadOk(c, w.disk);
      case Crashing(chainID, m, attempt, saved) =>
        ReloadOk(c, w.disk);
        if NewlySigned(c, w.memory, chainID, m, attempt).Some? {
          var l := NewlySigned(c, w.memory, chainID, m, attempt).value;
          NewlySignedOk(c, w.memory, chainID, m, attempt);
          AdvanceCovers(w.disk, l, w.released);
          ReloadOk(c, l);
        }
      case Calling(chainID, m, attempt) =>
        if NewlySigned(c, w.memory, chainID, m, attempt).Some? {
          NewlySignedOk(c, w.memory, chainID, m, attempt);
          AdvanceCovers(w.disk, NewlySigned(c, w.memory, chainID, m, attempt).value, w.released);
        } else if CheckHRS(w.memory, HrsOf(m)) == SameHRS {
          ResignRepeats(c, w.memory, chainID, m);
        }
    }
  }

  lemma {:induction false} RunsAreSafe(c: Codec, events: seq<Event>)
    requires Lawful(c)
    ensures Inv(c, After(c, events))
  {
    if |events| > 0 {
      RunsAreSafe(c, events[..|events| - 1]);
      NextKeeps(c, After(c, events[..|events| - 1]), events[|events| - 1]);
    }
  }

  /** Over every run: height, round and step of what is released never go back,
      and two messages released for the same ones are one and the same, signature
      included. */
  lemma NoDoubleSign(c: Codec, events: seq<Event>, i: nat, j: nat)
    requires Lawful(c) && i < j < |After(c, events).released|
    ensures var a, b := After(c, events).released[i], After(c, events).released[j];
      !Before(b.hrs, a.hrs) && (a.hrs == b.hrs ==> a.signBytes == b.signBytes && a.signature == b.signature)
  {
    RunsAreSafe(c, events);
  }

  /** Over every run: no call ends in a panic. */
  lemma RunsNeverPanic(c: Codec, events: seq<Event>, chainID: string, m: Message, attempt: nat)
    requires Lawful(c)
    ensures Call(c, After(c, events).memory, chainID, m, attempt) != Panicked
  {
    RunsAreSafe(c, events);
    CallNeverPanics(c, After(c, events).memory, chainID, m, attempt);
  }

  /** After every run a call gives the right answer. */
  lemma RunsAnswer(c: Codec, events: seq<Event>, chainID: string, m: Message, attempt: nat)
    requires Lawful(c)
    ensures var l := After(c, events).memory; Answers(c, l, chainID, m, attempt, Call(c, l, chainID, m, attempt))
  {
    RunsAreSafe(c, events);
    CallAnswers(c, After(c, events).memory, chainID, m, attempt);
  }

  /** The event makes a signature that reaches the file. */
  predicate Saves(c: Codec, l: LastSign, e: Event) {
    && (e.Calling? || (e.Crashing? && e.saved))
    && Before(l.hrs, HrsOf(e.message)) && c.sign(c.encode(e.chainID, e.message), e.attempt).Some?
  }

  /** At every point of a run memory and file hold the last signature made and
      saved, crashes and restarts or not. */
  lemma SavedIsLast(c: Codec, events: seq<Event>, e: Event)
    requires Lawful(c)
    ensures var l, w := After(c, events).memory, After(c, events + [e]);
      && w.memory == w.disk
      && w.memory == if Saves(c, l, e)
                     then LastSign(HrsOf(e.message), c.sign(c.encode(e.chainID, e.message), e.attempt), Some(c.encode(e.chainID, e.message)))
                     else l
  {
    RunsAreSafe(c, events);
    RunsAreSafe(c, events + [e]);
    assert (events + [e])[..|events|] == events;
    SavedNext(c, After(c, events), e);
  }

  lemma SavedNext(c: Codec, w: World, e: Event)
    requires Lawful(c) && Inv(c, w)
    ensures Next(c, w, e).memory == if Saves(c, w.memory, e)
                                    then LastSign(HrsOf(e.message), c.sign(c.encode(e.chainID, e.message), e.attempt), Some(c.encode(e.chainID, e.message)))
                                    else w.memory
  {
    ReloadOk(c, w.disk);
  }

  /** A signature saved before a crash is not lost: whatever timestamp the same
      message is asked for with after it, the signer releases what it had signed. */
  lemma CrashRepeats(c: Codec, events: seq<Event>, chainID: string, m: Message, attempt: nat, timestamp: int, again: nat)
    requires Lawful(c) && Saves(c, After(c, events).memory, Crashing(chainID, m, attempt, true))
    ensures var l := After(c, events + [Crashing(chainID, m, attempt, true)]).memory;
      Call(c, l, chainID, At(m, timestamp), again) == Released(m, c.encode(chainID, m), c.sign(c.encode(chainID, m), attempt).value)
  {
    var e := Crashing(chainID, m, attempt, true);
    SavedIsLast(c, events, e);
    RunsAnswer(c, events + [e], chainID, At(m, timestamp), again);
    assert At(At(m, timestamp), m.timestamp) == m;
    var r := Call(c, After(c, events + [e]).memory, chainID, At(m, timestamp), again);
    assert Repeats(c, After(c, events + [e]).memory, chainID, At(m, timestamp));
    SameMessage(c, chainID, m, chainID, r.message);
  }
}
