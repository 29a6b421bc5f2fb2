/** The handshake that brings application, state and store together after a
    crash (`internal/consensus/replay.go`). */
module Replay {
  import opened Basics
  import opened Recovery

  datatype Outcome = Replayed(appHash: Bytes) | AppTooLow | AppTooHigh | InvalidBlock | NoResponses | Panics

  /** The first block the application needs is below the ones kept. */
  predicate TooLow(base: nat, app: nat) { app + 1 < base }

  class Node {
    const env: Env
    var store: seq<Block>
    var base: nat
    var state: State
    var responses: map<nat, Bytes>
    var app: seq<Block>
    var nBlocks: nat

    ghost function Value(): World
      reads this
    {
      World(store, base, state, responses, app)
    }

    ghost predicate Valid()
      reads this
    {
      Lawful(env) && Inv(env, Value())
    }

    /** The application is ahead of the store, which is under its own control;
        everything else is as it should be. */
    ghost predicate Ahead()
      reads this
    {
      Lawful(env) && Inv(env, Value().(app := [])) && |app| > |store|
    }

    /** Everything is at one height and as if there had been no crash. */
    ghost predicate Synced()
      reads this
    {
      app == store && state == StateAfter(env, store)
    }

    constructor (env: Env)
      requires Lawful(env)
      ensures this.env == env && Valid() && Value() == Genesis(env)
    {
      this.env := env;
      store, base, state, responses, app, nBlocks := [], 1, State(0, env.genesisHash, env.genesisData), map[], [], 0;
    }

    // ---- Durable writes: each leaves a world to recover from ----

    method SaveInit()
      requires Valid() && state.height == 0
      modifies this`state
      ensures Valid() && Value() == Written(env, old(Value()), Write.SaveInit) && state == StateAfter(env, [])
    {
      SaveInitKeeps(env, Value());
      if |env.initHash| > 0 { state := state.(appHash := env.initHash); }
      state := state.(data := env.initData(state.data));
    }

    method SaveBlock(b: Block)
      requires Valid() && Synced() && Extends(state, b)
      modifies this`store
      ensures Valid() && Value() == Written(env, old(Value()), Write.SaveBlock(b))
    {
      StateAfterHash(env, store);
      WritesKeepInv(env, Value(), Write.SaveBlock(b));
      store := store + [b];
    }

    method SaveResponses(height: nat, r: Bytes)
      requires Valid() && height == |store| == state.height + 1 && r == env.respond(store[..state.height], store[state.height])
      modifies this`responses
      ensures Valid() && Value() == Written(env, old(Value()), Write.SaveResponses) && Answered(env, Value())
    {
      WritesKeepInv(env, Value(), Write.SaveResponses);
      responses := responses[height := r];
    }

    /** The application commits the block it has executed. */
    method CommitApp(b: Block) returns (appHash: Bytes)
      requires Valid() && Allowed(env, Value(), Write.CommitApp) && b == store[|app|]
      modifies this`app
      ensures Valid() && Value() == Written(env, old(Value()), Write.CommitApp) && appHash == env.hashOf(app)
    {
      WritesKeepInv(env, Value(), Write.CommitApp);
      app := app + [b];
      appHash := env.hashOf(app);
    }

    method SaveState(s: State)
      requires Valid() && |app| == |store| == state.height + 1 && s == StateAfter(env, store)
      modifies this`state
      ensures Valid() && Value() == Written(env, old(Value()), Write.SaveState)
    {
      WritesKeepInv(env, Value(), Write.SaveState);
      state := s;
    }

    // ---- Applying a block ----

    /** `ApplyBlock` on the real application, or on one that answers from saved
        responses. */
    method ApplyBlock(b: Block, mock: Option<(Bytes, Bytes)>) returns (ok: bool)
      requires Valid() && |store| == state.height + 1 && b == store[state.height]
      requires mock.None? ==> |app| == state.height
      requires mock.Some? ==> |app| == |store| && mock.value == (env.hashOf(app), env.respond(store[..state.height], b))
      modifies this`responses, this`app, this`state
      ensures ok && Valid() && Synced() && old(app) <= app
    {
      BlockExtends(env, Value());
      if !Extends(state, b) { return false; }
      var r, appHash := ExecuteBlock(b, mock);
      NextState(env, Value());
      SaveState(State(b.height, appHash, env.update(state.data, b, r)));
      ok := true;
    }

    /** Execution, saving the responses, and the application's commit. */
    method ExecuteBlock(b: Block, mock: Option<(Bytes, Bytes)>) returns (r: Bytes, appHash: Bytes)
      requires Valid() && |store| == state.height + 1 && b == store[state.height] && b.height == |store|
      requires mock.None? ==> |app| == state.height
      requires mock.Some? ==> |app| == |store| && mock.value == (env.hashOf(app), env.respond(store[..state.height], b))
      modifies this`responses, this`app
      ensures Valid() && app == store && old(app) <= app
      ensures r == env.respond(store[..state.height], b) && appHash == env.hashOf(store)
    {
      assert app == store[..|app|];
      r := if mock.None? then env.respond(app, b) else mock.value.1;
      SaveResponses(b.height, r);
      if mock.None? {
        appHash := CommitApp(b);
      } else {
        appHash := mock.value.0;
      }
      assert app == store;
    }

    /** A block decided by consensus: stored, then applied. */
    method FinalizeCommit(b: Block)
      requires Valid() && Synced() && Extends(state, b)
      modifies this
      ensures Valid() && Synced() && store == old(store) + [b]
    {
      StateAfterHash(env, store);
      SaveBlock(b);
      var ok := ApplyBlock(b, None);
    }

    /** `LoadBlock` of a height that is not pruned */
    function LoadBlock(i: nat): Block
      requires base <= i <= |store| && 1 <= i
      reads this
    {
      store[i - 1]
    }

    /** `ExecCommitBlock`: the application alone. */
    method ExecCommitBlock(b: Block) returns (appHash: Bytes)
      requires Valid() && |app| < state.height && b == store[|app|]
      modifies this`app
      ensures Valid() && app == old(app) + [b] && appHash == env.hashOf(app)
    {
      appHash := CommitApp(b);
    }

    // ---- The handshake ----

    /** One turn of the loop of `replayBlocks`; its assertion on the application
        hash holds. */
    method ReplayNext(i: nat, lastHash: Bytes) returns (ok: bool, appHash: Bytes)
      requires Valid() && i == |app| + 1 <= state.height && !TooLow(base, |app|)
      requires lastHash != [] ==> |app| > 0 && lastHash == env.hashOf(app)
      modifies this`app, this`nBlocks
      ensures ok && Valid() && app == old(app) + [store[i - 1]] && appHash == env.hashOf(app)
      ensures nBlocks == old(nBlocks) + 1
    {
      var block := LoadBlock(i);
      if |lastHash| > 0 {
        NextBlock(env, Value());
        if lastHash != block.appHash { return false, []; }
      }
      appHash := ExecCommitBlock(block);
      nBlocks := nBlocks + 1;
      ok := true;
    }

    /** `replayBlocks`; `None` is one of its panics. */
    method ReplayUpTo(mutateState: bool) returns (r: Option<Bytes>)
      requires Valid() && !TooLow(base, |app|)
      requires if mutateState then |app| < state.height == |store| - 1 else |app| < state.height == |store|
      modifies this
      ensures r == Some(state.appHash) && Valid() && Synced() && store == old(store) && base == old(base) && old(app) <= app
      ensures nBlocks == old(nBlocks) + |store| - old(|app|)
    {
      var appHash: Bytes := [];
      var finalBlock := if mutateState then |store| - 1 else |store|;
      ghost var known := app;
      var i := |app| + 1;
      while i <= finalBlock
        invariant Valid() && store == old(store) && base == old(base) && state == old(state) && known <= app
        invariant i == |app| + 1 <= finalBlock + 1 && !TooLow(base, |app|)
        invariant nBlocks == old(nBlocks) + |app| - |known|
        invariant appHash != [] || app != known ==> |app| > 0 && appHash == env.hashOf(app)
        decreases finalBlock - i
      {
        var ok;
        ok, appHash := ReplayNext(i, appHash);
        if !ok { return None; }
        i := i + 1;
      }
      if mutateState {
        var ok := ApplyBlock(LoadBlock(|store|), None);
        nBlocks := nBlocks + 1;
        appHash := state.appHash;
      } else {
        CaughtUp(env, Value());
      }
      if appHash != state.appHash { return None; }
      r := Some(appHash);
    }

    /** `ReplayBlocks`, after the application has told its height and hash. An
        application ahead of the store is refused and nothing is changed; only
        over an empty store its hash decides. */
    method ReplayBlocks() returns (r: Outcome)
      requires Valid() || Ahead()
      modifies this
      ensures store == old(store) && base == old(base)
      ensures old(Valid()) ==> Valid() && old(app) <= app && Recovered(r, old(Value()))
      ensures old(Ahead()) ==> Value() == old(Value())
      ensures old(Ahead()) ==>
        r == if |store| > 0 then AppTooHigh else if env.hashOf(app) == state.appHash then Replayed(state.appHash) else Panics
    {
      if |app| > |store| {
        r := RefuseAhead();
      } else {
        r := Recover();
      }
    }

    /** On every world a crash can leave, the handshake ends with everything in
        step, unless the blocks the application needs were pruned. Only at
        genesis can it panic, exactly when the application answers InitChain
        without a hash and the genesis document has one. */
    ghost predicate Recovered(r: Outcome, before: World)
      reads this
    {
      && (r == Panics <==> |before.store| == 0 && env.initHash == [] && env.genesisHash != [])
      && (r == AppTooLow <==> |before.store| > 0 && |before.app| + 1 < before.base)
      && (r.Replayed? <==> r != Panics && r != AppTooLow)
      && (r.Replayed? ==> Synced() && r.appHash == state.appHash)
    }

    /** The handshake with an application that is ahead: the checks before its
        height is compared with the store's do not apply to it. */
    method RefuseAhead() returns (r: Outcome)
      requires Ahead()
      ensures r == if |store| > 0 then AppTooHigh else if env.hashOf(app) == state.appHash then Replayed(state.appHash) else Panics
    {
      var appHeight, appHash := |app|, env.hashOf(app);
      if |store| == 0 {
        return if appHash != state.appHash then Panics else Replayed(appHash);
      }
      if appHeight == 0 && 1 < base { return AppTooLow; }
      if appHeight > 0 && appHeight < base - 1 { return AppTooLow; }
      r := AppTooHigh;
    }

    method Recover() returns (r: Outcome)
      requires Valid()
      modifies this
      ensures Valid() && store == old(store) && base == old(base) && old(app) <= app && Recovered(r, old(Value()))
    {
      var appHeight := |app|;
      var appHash := if appHeight == 0 then env.initHash else env.hashOf(app);
      if appHeight == 0 && state.height == 0 {
        SaveInit();
      }
      if |store| == 0 {
        assert store == [];
        return if appHash != state.appHash then Panics else Replayed(appHash);
      }
      if appHeight == 0 && 1 < base { return AppTooLow; }
      if appHeight > 0 && appHeight < base - 1 { return AppTooLow; }
      if |store| < appHeight { return AppTooHigh; }
      if |store| < state.height { return Panics; }
      if |store| > state.height + 1 { return Panics; }
      if |store| == state.height {
        r := SyncApp(appHash);
      } else {
        r := SyncState(appHash);
      }
    }

    /** The state is saved for the last block; the application may be behind. */
    method SyncApp(appHash: Bytes) returns (r: Outcome)
      requires Valid() && |store| == state.height > 0 && !TooLow(base, |app|)
      requires |app| > 0 ==> appHash == env.hashOf(app)
      modifies this
      ensures r == Replayed(state.appHash) && Valid() && Synced() && store == old(store) && base == old(base) && old(app) <= app
    {
      if |app| < |store| {
        var replayed := ReplayUpTo(false);
        r := if replayed.None? then Panics else Replayed(replayed.value);
      } else {
        CaughtUp(env, Value());
        r := if appHash != state.appHash then Panics else Replayed(appHash);
      }
    }

    /** The last block is stored but the state is not saved for it. */
    method SyncState(appHash: Bytes) returns (r: Outcome)
      requires Valid() && |store| == state.height + 1 && !TooLow(base, |app|)
      requires |app| > 0 ==> appHash == env.hashOf(app)
      modifies this
      ensures r == Replayed(state.appHash) && Valid() && Synced() && store == old(store) && base == old(base) && old(app) <= app
    {
      if |app| < state.height {
        var replayed := ReplayUpTo(true);
        return if replayed.None? then Panics else Replayed(replayed.value);
      }
      var mock: Option<(Bytes, Bytes)> := None;
      if |app| == |store| {
        if |store| !in responses { return NoResponses; }
        mock := Some((appHash, responses[|store|]));
      }
      var ok := ApplyBlock(LoadBlock(|store|), mock);
      nBlocks := nBlocks + 1;
      r := if ok then Replayed(state.appHash) else InvalidBlock;
    }
  }

  /** The stored block above the state is the next one for it. */
  lemma BlockExtends(e: Env, w: World)
    requires Inv(e, w) && |w.store| == w.state.height + 1
    ensures Extends(w.state, w.store[w.state.height])
    ensures w.state == StateAfter(e, w.store[..w.state.height])
  {
    StateAfterHash(e, w.store[..w.state.height]);
  }

  lemma NextState(e: Env, w: World)
    requires Inv(e, w) && |w.store| == w.state.height + 1
    ensures var b := w.store[w.state.height];
      StateAfter(e, w.store) == State(b.height, e.hashOf(w.store), e.update(w.state.data, b, e.respond(w.store[..w.state.height], b)))
  {
    assert w.store[..|w.store| - 1] == w.store[..w.state.height];
  }

  /** The next block for the application carries the hash it has. */
  lemma NextBlock(e: Env, w: World)
    requires Inv(e, w) && 0 < |w.app| < |w.store|
    ensures w.store[|w.app|].appHash == e.hashOf(w.app)
  {
    assert w.app == w.store[..|w.app|];
  }

  lemma CaughtUp(e: Env, w: World)
    requires Inv(e, w) && |w.app| == |w.store| == w.state.height && 0 < |w.app|
    ensures w.app == w.store && w.state == StateAfter(e, w.store) && w.state.appHash == e.hashOf(w.app)
  {
    assert w.store[..|w.store|] == w.store;
  }
}
