/** What a node keeps on disk, the writes that change it, and the invariant that
    holds between any two of them (`internal/state/execution.go`,
    `internal/consensus/replay.go`). */
module Recovery {
  import opened Basics

  /** A block with the application hash its header carries. */
  datatype Block = Block(height: nat, appHash: Bytes, data: Bytes)

  /** The saved state: last height, application hash and everything else that
      is computed from blocks and responses. */
  datatype State = State(height: nat, appHash: Bytes, data: Bytes)

  /** The genesis document, the application's answer to InitChain, and the
      deterministic behaviour of the application and of the state update. */
  datatype Env = Env(
    genesisHash: Bytes, genesisData: Bytes, initHash: Bytes, initData: Bytes -> Bytes,
    hashOf: seq<Block> -> Bytes, respond: (seq<Block>, Block) -> Bytes, update: (Bytes, Block, Bytes) -> Bytes)

  /** Applying the answer to InitChain a second time changes nothing. */
  ghost predicate Lawful(e: Env) {
    e.initData(e.initData(e.genesisData)) == e.initData(e.genesisData)
  }

  /** The stored blocks, of which those below `base` are pruned, the saved state
      and responses, and the blocks the application has committed. */
  datatype World = World(store: seq<Block>, base: nat, state: State, responses: map<nat, Bytes>, app: seq<Block>)

  function Genesis(e: Env): World {
    World([], 1, State(0, e.genesisHash, e.genesisData), map[], [])
  }

  // ---- The state without crashes ----

  function FirstHash(e: Env): Bytes { if e.initHash != [] then e.initHash else e.genesisHash }

  function InitState(e: Env, s: State): State {
    State(0, if e.initHash != [] then e.initHash else s.appHash, e.initData(s.data))
  }

  /** The application hash after the blocks. */
  function HashAfter(e: Env, blocks: seq<Block>): Bytes {
    if |blocks| == 0 then FirstHash(e) else e.hashOf(blocks)
  }

  /** The state a node that never crashed would have after the blocks. */
  function StateAfter(e: Env, blocks: seq<Block>): State {
    if |blocks| == 0 then State(0, FirstHash(e), e.initData(e.genesisData))
    else
      var before, b := blocks[..|blocks| - 1], blocks[|blocks| - 1];
      State(|blocks|, e.hashOf(blocks), e.update(StateAfter(e, before).data, b, e.respond(before, b)))
  }

  lemma StateAfterHash(e: Env, blocks: seq<Block>)
    ensures StateAfter(e, blocks).height == |blocks| && StateAfter(e, blocks).appHash == HashAfter(e, blocks)
  {}

  /** The block extends the chain: what `validateBlock` checks of it here. */
  predicate Extends(s: State, b: Block) {
    b.height == s.height + 1 && b.appHash == s.appHash
  }

  // ---- The invariant ----

  ghost predicate Chain(e: Env, store: seq<Block>) {
    forall i {:trigger store[i]} :: 0 <= i < |store| ==> store[i].height == i + 1 && store[i].appHash == HashAfter(e, store[..i])
  }

  ghost predicate StateOk(e: Env, w: World) {
    && w.state.height <= |w.store| <= w.state.height + 1
    && (w.state == StateAfter(e, w.store[..w.state.height])
        || (|w.store| == 0 && w.state == Genesis(e).state))
  }

  /** Responses of the last block were saved before the application committed
      it, and are still the right ones. */
  ghost predicate ResponsesOk(e: Env, w: World) {
    |w.app| == |w.store| == w.state.height + 1 ==> Answered(e, w)
  }

  ghost predicate Answered(e: Env, w: World) {
    && |w.store| > 0 && |w.store| in w.responses
    && w.responses[|w.store|] == e.respond(w.store[..|w.store| - 1], w.store[|w.store| - 1])
  }

  ghost predicate Inv(e: Env, w: World) {
    && Chain(e, w.store) && 1 <= w.base && (w.base == 1 || w.base <= |w.store|)
    && StateOk(e, w)
    && w.app <= w.store
    && ResponsesOk(e, w)
  }

  // ---- Writes ----

  /** Every durable write, with what the code guarantees when it is made. */
  datatype Write =
    | SaveInit
    | SaveBlock(block: Block)
    | SaveResponses
    | CommitApp
    | SaveState
    | Prune(base: nat)
    | AppLoses(kept: nat)

  ghost predicate Allowed(e: Env, w: World, x: Write) {
    match x
    case SaveInit => w.state.height == 0
    case SaveBlock(b) => w.state.height == |w.store| && w.state == StateAfter(e, w.store) && Extends(w.state, b)
    case SaveResponses => |w.store| == w.state.height + 1
    case CommitApp => |w.app| < |w.store| && (|w.app| < w.state.height || Answered(e, w))
    case SaveState => |w.app| == |w.store| == w.state.height + 1
    case Prune(base) => w.base <= base <= |w.store|
    case AppLoses(kept) => kept <= |w.app|
  }

  ghost function Written(e: Env, w: World, x: Write): World
    requires Allowed(e, w, x)
  {
    match x
    case SaveInit => w.(state := InitState(e, w.state))
    case SaveBlock(b) => w.(store := w.store + [b])
    case SaveResponses => w.(responses := w.responses[|w.store| := e.respond(w.store[..w.state.height], w.store[w.state.height])])
    case CommitApp => w.(app := w.app + [w.store[|w.app|]])
    case SaveState => w.(state := StateAfter(e, w.store))
    case Prune(base) => w.(base := base)
    case AppLoses(kept) => w.(app := w.app[..kept])
  }

  lemma SaveInitKeeps(e: Env, w: World)
    requires Lawful(e) && Inv(e, w) && w.state.height == 0
    ensures Inv(e, Written(e, w, SaveInit))
    ensures Written(e, w, SaveInit).state == StateAfter(e, [])
  {
    assert w.store[..0] == [];
  }

  lemma SaveBlockKeeps(e: Env, w: World, b: Block)
    requires Inv(e, w) && Allowed(e, w, SaveBlock(b))
    ensures Inv(e, Written(e, w, SaveBlock(b)))
  {
    var r := Written(e, w, SaveBlock(b));
    StateAfterHash(e, w.store);
    assert r.store[..|w.store|] == w.store;
    forall i | 0 <= i < |r.store| ensures r.store[i].height == i + 1 && r.store[i].appHash == HashAfter(e, r.store[..i]) {
      if i < |w.store| { assert r.store[i] == w.store[i] && r.store[..i] == w.store[..i]; }
    }
  }

  lemma WritesKeepInv(e: Env, w: World, x: Write)
    requires Lawful(e) && Inv(e, w) && Allowed(e, w, x)
    ensures Inv(e, Written(e, w, x))
  {
    match x {
      case SaveInit => SaveInitKeeps(e, w);
      case SaveBlock(b) => SaveBlockKeeps(e, w, b);
      case SaveResponses =>
      case CommitApp =>
      case SaveState => assert w.store[..|w.store|] == w.store; StateAfterHash(e, w.store);
      case Prune(base) =>
      case AppLoses(kept) =>
    }
  }

  /** The worlds of a run, one write after the other. A crash can come after any
      of them. */
  ghost predicate Run(e: Env, writes: seq<Write>, worlds: seq<World>) {
    && |worlds| == |writes| + 1 && worlds[0] == Genesis(e)
    && forall k :: 0 <= k < |writes| ==> Allowed(e, worlds[k], writes[k]) && worlds[k + 1] == Written(e, worlds[k], writes[k])
  }

  lemma RunStep(e: Env, writes: seq<Write>, worlds: seq<World>, k: nat)
    requires Run(e, writes, worlds) && k < |writes|
    ensures Allowed(e, worlds[k], writes[k]) && worlds[k + 1] == Written(e, worlds[k], writes[k])
  {}

  lemma {:induction false} RunsKeepInv(e: Env, writes: seq<Write>, worlds: seq<World>, k: nat)
    requires Lawful(e) && Run(e, writes, worlds) && k < |worlds|
    ensures Inv(e, worlds[k])
  {
    if k > 0 {
      RunsKeepInv(e, writes, worlds, k - 1);
      RunStep(e, writes, worlds, k - 1);
      WritesKeepInv(e, worlds[k - 1], writes[k - 1]);
    }
  }
}
