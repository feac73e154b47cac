/** History: the journal and the checkpoints only grow, and checkpoints tile every chain. */
module History {
  import opened HashChain
  import opened Tables
  import opened Sealing
  import opened Shard
  import opened Protocol
  import opened Invariants
  import opened Preservation
  import opened CommitStep
  import opened Safety

  // ----- append-only -----

  /** Everything that was committed is still there, in place; queues' histories only grow. */
  ghost predicate Extends(s: State, s': State) {
    && s.tables.events <= s'.tables.events
    && s.tables.checkpoints <= s'.tables.checkpoints
    && (forall sh :: sh in s.tables.chains ==>
          sh in s'.tables.chains && s'.tables.chains[sh].id == s.tables.chains[sh].id)
    && (forall sh :: DrainedOf(s.drained, sh) <= DrainedOf(s'.drained, sh))
    && (forall key :: key in s.tables.idempotency ==>
          key in s'.tables.idempotency && s'.tables.idempotency[key] == s.tables.idempotency[key])
  }

  lemma CommittedExtends(cfg: Config, s: State, k: int)
    requires Inv(cfg, s) && k in s.txns && s.txns[k].stage.LookedUp?
    ensures Extends(s, Committed(cfg, s, k))
  {
    hide QueuesOk, CallsOk, JournalOk, StageOk, Exclusive, NewRows, Remove;
    assert TxnChainOk(cfg, s.tables.chains, s.txns[k]);
  }

  /** Steps that commit no batch, write no chain row and claim no key. */
  lemma SameTablesExtend(s: State, s': State)
    requires s'.tables.events == s.tables.events && s'.tables.checkpoints == s.tables.checkpoints
    requires s'.tables.chains == s.tables.chains && s'.drained == s.drained && s'.tables.idempotency == s.tables.idempotency
    ensures Extends(s, s')
  {
  }

  lemma DrainExtends(cfg: Config, s: State, k: int, batch: seq<PendingRow>)
    requires Inv(cfg, s) && k in s.txns
    ensures Extends(s, ApplyDrain(s, k, batch))
  {
    hide QueuesOk, CallsOk, JournalOk, StageOk, Exclusive;
    assert TxnChainOk(cfg, s.tables.chains, s.txns[k]);
  }

  lemma ClaimExtends(s: State, id: int)
    requires id in s.calls
    ensures Extends(s, ApplyClaim(s, id))
  {
    hide ResponseBody;
  }

  lemma StepExtends(cfg: Config, s: State, step: Step)
    requires Inv(cfg, s) && Enabled(cfg, s, step)
    ensures Extends(s, Apply(cfg, s, step))
  {
    hide Inv, Extends, ApplyCommit, ApplyDrain, ApplyClaim, Committed, IsDrain, PendingRowOf, IsIndexFor,
         HashOfRequest, ExistingExternals;
    match step
    case Commit(k) =>
      CopyAlwaysSucceeds(cfg, s, k);
      CommittedExtends(cfg, s, k);
    case Drain(k, _, batch) => DrainExtends(cfg, s, k, batch);
    case Claim(id) => ClaimExtends(s, id);
    case _ => SameTablesExtend(s, Apply(cfg, s, step));
  }

  lemma ExtendsTransitive(a: State, b: State, c: State)
    requires Extends(a, b) && Extends(b, c)
    ensures Extends(a, c)
  {
    forall sh ensures DrainedOf(a.drained, sh) <= DrainedOf(c.drained, sh) {
      assert DrainedOf(a.drained, sh) <= DrainedOf(b.drained, sh) <= DrainedOf(c.drained, sh);
    }
  }

  lemma {:induction false} RunExtends(cfg: Config, s: State, steps: seq<Step>)
    requires Inv(cfg, s) && Executable(cfg, s, steps)
    ensures Extends(s, Exec(cfg, s, steps))
    decreases |steps|
  {
    hide Inv, Enabled, Apply;
    if steps == [] {
    } else {
      var next := Apply(cfg, s, steps[0]);
      StepExtends(cfg, s, steps[0]);
      StepKeepsInv(cfg, s, steps[0]);
      RunExtends(cfg, next, steps[1..]);
      ExtendsTransitive(s, next, Exec(cfg, next, steps[1..]));
    }
  }

  lemma ChainEventsPrefix(a: seq<EventRow>, b: seq<EventRow>, chainId: string)
    requires a <= b
    ensures ChainEvents(a, chainId) <= ChainEvents(b, chainId)
  {
    assert b == a + b[|a|..];
    ChainEventsAppend(a, b[|a|..], chainId);
  }

  /** A chain's later event list extends its earlier one. */
  lemma ChainsAppendOnly(cfg: Config, s: State, steps: seq<Step>, shard: ShardKey)
    requires Reachable(cfg, s) && Executable(cfg, s, steps) && shard in s.tables.chains
    ensures var s' := Exec(cfg, s, steps);
            && shard in s'.tables.chains && s'.tables.chains[shard].id == s.tables.chains[shard].id
            && ChainEvents(s.tables.events, s.tables.chains[shard].id)
               <= ChainEvents(s'.tables.events, s.tables.chains[shard].id)
  {
    hide Reachable, Inv, Executable, Exec, ChainEvents;
    ReachableInv(cfg, s);
    RunExtends(cfg, s, steps);
    ChainEventsPrefix(s.tables.events, Exec(cfg, s, steps).tables.events, s.tables.chains[shard].id);
  }

  // ----- checkpoints -----

  /** Checkpoint i starts after checkpoint i-1, counts its range, and names the hash at its end. */
  predicate TileOk(tiles: seq<Checkpoint>, journal: seq<EventRow>, i: nat)
    requires i < |tiles|
  {
    var c := tiles[i];
    && c.fromPosition == (if i == 0 then 1 else tiles[i - 1].toPosition + 1)
    && c.fromPosition <= c.toPosition <= |journal|
    && c.toPosition >= 1
    && c.eventCount == c.toPosition - c.fromPosition + 1
    && c.rootHash == journal[c.toPosition - 1].eventHash
  }

  /** Checkpoints cover 1..|journal| without gap or overlap. */
  predicate Tiles(tiles: seq<Checkpoint>, journal: seq<EventRow>) {
    && (forall i :: 0 <= i < |tiles| ==> TileOk(tiles, journal, i))
    && (if tiles == [] then journal == [] else tiles[|tiles| - 1].toPosition == |journal|)
  }

  predicate CheckpointsOk(s: State) {
    && (forall sh :: sh in s.tables.chains ==>
          Tiles(ChainCheckpoints(s.tables.checkpoints, s.tables.chains[sh].id),
                ChainEvents(s.tables.events, s.tables.chains[sh].id)))
    && (forall i :: 0 <= i < |s.tables.checkpoints| ==> IsChainId(s.tables.chains, s.tables.checkpoints[i].chainId))
  }

  lemma {:induction false} NoCheckpoints(checkpoints: seq<Checkpoint>, chainId: string)
    requires forall i :: 0 <= i < |checkpoints| ==> checkpoints[i].chainId != chainId
    ensures ChainCheckpoints(checkpoints, chainId) == []
  {
    if checkpoints == [] {
    } else {
      NoCheckpoints(checkpoints[..|checkpoints| - 1], chainId);
    }
  }

  lemma TilesGrow(tiles: seq<Checkpoint>, journal: seq<EventRow>, rows: seq<EventRow>, c: Checkpoint)
    requires Tiles(tiles, journal) && rows != []
    requires c.fromPosition == |journal| + 1 && c.toPosition == |journal| + |rows| && c.eventCount == |rows|
    requires c.rootHash == TipHash("", rows)
    ensures Tiles(tiles + [c], journal + rows)
  {
    var tiles', journal' := tiles + [c], journal + rows;
    forall i | 0 <= i < |tiles'| ensures TileOk(tiles', journal', i) {
      if i < |tiles| {
        assert TileOk(tiles, journal, i);
      }
    }
  }

  /** A chain held by a transaction is tiled, whether committed or new. */
  lemma TxnChainTiled(cfg: Config, s: State, k: int)
    requires Inv(cfg, s) && CheckpointsOk(s) && k in s.txns
    ensures Tiles(ChainCheckpoints(s.tables.checkpoints, s.txns[k].chain.id),
                  ChainEvents(s.tables.events, s.txns[k].chain.id))
  {
    hide QueuesOk, CallsOk, StageOk, Exclusive, ChainsOk, Tiles;
    var txn := s.txns[k];
    assert TxnChainOk(cfg, s.tables.chains, txn);
    if txn.created {
      forall i | 0 <= i < |s.tables.checkpoints| ensures s.tables.checkpoints[i].chainId != txn.chain.id {
        assert IsChainId(s.tables.chains, s.tables.checkpoints[i].chainId);
      }
      NoCheckpoints(s.tables.checkpoints, txn.chain.id);
      forall i | 0 <= i < |s.tables.events| ensures s.tables.events[i].chainId != txn.chain.id {
        assert IsChainId(s.tables.chains, s.tables.events[i].chainId);
      }
      ChainEventsNone(s.tables.events, txn.chain.id);
      NothingTiled();
    }
  }

  lemma NothingTiled()
    ensures Tiles([], [])
  {
  }

  lemma OwnListsGrow(checkpoints: seq<Checkpoint>, added: seq<Checkpoint>, events: seq<EventRow>,
                     rows: seq<EventRow>, id: string)
    requires forall i :: 0 <= i < |rows| ==> rows[i].chainId == id
    requires added == [] || (|added| == 1 && added[0].chainId == id)
    ensures ChainCheckpoints(checkpoints + added, id) == ChainCheckpoints(checkpoints, id) + added
    ensures ChainEvents(events + rows, id) == ChainEvents(events, id) + rows
  {
    CheckpointAdded(checkpoints, added, id);
    ChainEventsAppend(events, rows, id);
    ChainEventsAll(rows, id);
  }

  lemma OtherListsStay(checkpoints: seq<Checkpoint>, added: seq<Checkpoint>, events: seq<EventRow>, rows: seq<EventRow>,
                       id: string, other: string)
    requires forall i :: 0 <= i < |rows| ==> rows[i].chainId == id
    requires added == [] || (|added| == 1 && added[0].chainId == id)
    requires other != id
    ensures ChainCheckpoints(checkpoints + added, other) == ChainCheckpoints(checkpoints, other)
    ensures ChainEvents(events + rows, other) == ChainEvents(events, other)
  {
    CheckpointAdded(checkpoints, added, other);
    ChainEventsAppend(events, rows, other);
    ChainEventsNone(rows, other);
    assert ChainEvents(events, other) + [] == ChainEvents(events, other);
    assert ChainCheckpoints(checkpoints, other) + [] == ChainCheckpoints(checkpoints, other);
  }

  /** Writing a shard's chain row, with the rows and the checkpoint of one batch or with none. */
  lemma ChainWriteKeepsCheckpoints(cfg: Config, s: State, k: int, row: ChainRow, rows: seq<EventRow>,
                                   added: seq<Checkpoint>, s': State)
    requires Inv(cfg, s) && CheckpointsOk(s) && k in s.txns && row.id == s.txns[k].chain.id
    requires forall i :: 0 <= i < |rows| ==> rows[i].chainId == row.id
    requires added == [] || (|added| == 1 && added[0].chainId == row.id)
    requires Tiles(ChainCheckpoints(s.tables.checkpoints, row.id) + added, ChainEvents(s.tables.events, row.id) + rows)
    requires s'.tables.chains == s.tables.chains[s.txns[k].shard := row]
    requires s'.tables.events == s.tables.events + rows && s'.tables.checkpoints == s.tables.checkpoints + added
    ensures CheckpointsOk(s')
  {
    hide QueuesOk, CallsOk, StageOk, Exclusive, ChainsOk, Tiles, ChainEvents, ChainCheckpoints;
    var txn := s.txns[k];
    var chains, chains' := s.tables.chains, s'.tables.chains;
    assert TxnChainOk(cfg, chains, txn);
    forall sh | sh in chains'
      ensures Tiles(ChainCheckpoints(s'.tables.checkpoints, chains'[sh].id), ChainEvents(s'.tables.events, chains'[sh].id))
    {
      if sh == txn.shard {
        OwnListsGrow(s.tables.checkpoints, added, s.tables.events, rows, row.id);
      } else {
        assert chains[sh].id != row.id;
        OtherListsStay(s.tables.checkpoints, added, s.tables.events, rows, row.id, chains[sh].id);
      }
    }
    var checkpoints' := s'.tables.checkpoints;
    forall i | 0 <= i < |checkpoints'| ensures IsChainId(chains', checkpoints'[i].chainId) {
      if i < |s.tables.checkpoints| {
        assert IsChainId(chains, s.tables.checkpoints[i].chainId);
        var sh :| sh in chains && chains[sh].id == s.tables.checkpoints[i].chainId;
        assert sh in chains' && chains'[sh].id == chains[sh].id;
      } else {
        assert txn.shard in chains' && chains'[txn.shard].id == checkpoints'[i].chainId;
      }
    }
  }

  lemma CheckpointAdded(checkpoints: seq<Checkpoint>, added: seq<Checkpoint>, chainId: string)
    requires |added| <= 1
    ensures ChainCheckpoints(checkpoints + added, chainId)
            == ChainCheckpoints(checkpoints, chainId) + (if added != [] && added[0].chainId == chainId then added else [])
  {
    if added == [] {
      assert checkpoints + added == checkpoints;
    } else {
      assert (checkpoints + added)[..|checkpoints|] == checkpoints;
      assert added == [added[0]];
    }
  }

  /** The checkpoint that SealedTables inserts, if any. */
  function NewCheckpoints(H: Digest, shard: ShardKey, chain: ChainRow, batch: seq<PendingRow>,
                          already: set<string>): seq<Checkpoint> {
    var rows := NewRows(H, chain, batch, already);
    var last := chain.latestPosition + |rows|;
    if rows == [] then []
    else [Checkpoint(chain.org, chain.project, shard.env, chain.id, chain.latestPosition + 1, last, TipHash("", rows), |rows|)]
  }

  lemma SealedTablesCheckpoints(H: Digest, t: Tables, shard: ShardKey, chain: ChainRow,
                                batch: seq<PendingRow>, already: set<string>)
    ensures SealedTables(H, t, shard, chain, batch, already).checkpoints
            == t.checkpoints + NewCheckpoints(H, shard, chain, batch, already)
  {
    hide NewRows, Remove;
  }

  lemma BatchTiles(cfg: Config, s: State, k: int)
    requires Inv(cfg, s) && CheckpointsOk(s) && k in s.txns && s.txns[k].stage.LookedUp?
    ensures var txn := s.txns[k];
            var rows := NewRows(cfg.digest, txn.chain, txn.stage.batch, txn.stage.already);
            var added := NewCheckpoints(cfg.digest, txn.shard, txn.chain, txn.stage.batch, txn.stage.already);
            Tiles(ChainCheckpoints(s.tables.checkpoints, txn.chain.id) + added, ChainEvents(s.tables.events, txn.chain.id) + rows)
  {
    hide NewRows, QueuesOk, CallsOk, JournalOk, TxnsOk, Tiles, SealedLog;
    var txn := s.txns[k];
    var rows := NewRows(cfg.digest, txn.chain, txn.stage.batch, txn.stage.already);
    var added := NewCheckpoints(cfg.digest, txn.shard, txn.chain, txn.stage.batch, txn.stage.already);
    var tiles, journal := ChainCheckpoints(s.tables.checkpoints, txn.chain.id), ChainEvents(s.tables.events, txn.chain.id);
    TxnChainTiled(cfg, s, k);
    TxnChainIsLog(cfg, s, k);
    if rows == [] {
      assert tiles + added == tiles && journal + rows == journal;
    } else {
      TilesGrow(tiles, journal, rows, added[0]);
    }
  }

  lemma CommitKeepsCheckpoints(cfg: Config, s: State, k: int)
    requires Inv(cfg, s) && CheckpointsOk(s) && k in s.txns && s.txns[k].stage.LookedUp?
    ensures CheckpointsOk(Committed(cfg, s, k))
  {
    hide Inv, Tiles, NewRows, SealedTables, NewCheckpoints, SealedChain, Remove, CheckpointsOk;
    var txn := s.txns[k];
    var batch, already := txn.stage.batch, txn.stage.already;
    BatchTiles(cfg, s, k);
    SealedTablesParts(cfg.digest, s.tables, txn.shard, txn.chain, batch, already);
    SealedTablesCheckpoints(cfg.digest, s.tables, txn.shard, txn.chain, batch, already);
    NewRowsShape(cfg.digest, txn.chain, batch, already);
    SealedChainId(cfg.digest, txn.chain, batch, already);
    NewCheckpointsShape(cfg.digest, txn.shard, txn.chain, batch, already);
    ChainWriteKeepsCheckpoints(cfg, s, k, SealedChain(cfg.digest, txn.chain, batch, already),
                               NewRows(cfg.digest, txn.chain, batch, already),
                               NewCheckpoints(cfg.digest, txn.shard, txn.chain, batch, already), Committed(cfg, s, k));
  }

  lemma DrainKeepsCheckpoints(cfg: Config, s: State, k: int)
    requires Inv(cfg, s) && CheckpointsOk(s) && k in s.txns
    ensures CheckpointsOk(ApplyDrain(s, k, []))
  {
    hide Inv, Tiles, CheckpointsOk;
    TxnChainTiled(cfg, s, k);
    var id := s.txns[k].chain.id;
    var tiles, journal := ChainCheckpoints(s.tables.checkpoints, id), ChainEvents(s.tables.events, id);
    assert tiles + [] == tiles && journal + [] == journal;
    ChainWriteKeepsCheckpoints(cfg, s, k, s.txns[k].chain, [], [], ApplyDrain(s, k, []));
  }

  lemma CheckpointsFrame(s: State, s': State)
    requires CheckpointsOk(s)
    requires s'.tables.events == s.tables.events && s'.tables.checkpoints == s.tables.checkpoints
    requires s'.tables.chains == s.tables.chains
    ensures CheckpointsOk(s')
  {
  }

  lemma StepKeepsCheckpoints(cfg: Config, s: State, step: Step)
    requires Inv(cfg, s) && CheckpointsOk(s) && Enabled(cfg, s, step)
    ensures CheckpointsOk(Apply(cfg, s, step))
  {
    hide Inv, CheckpointsOk, ApplyCommit, Committed, IsDrain, PendingRowOf, IsIndexFor, HashOfRequest,
         ExistingExternals;
    if step.Commit? {
      CopyAlwaysSucceeds(cfg, s, step.sealer);
      CommitKeepsCheckpoints(cfg, s, step.sealer);
    } else if step.Drain? && step.batch == [] {
      DrainKeepsCheckpoints(cfg, s, step.sealer);
    } else {
      CheckpointsFrame(s, Apply(cfg, s, step));
    }
  }

  lemma NewCheckpointsShape(H: Digest, shard: ShardKey, chain: ChainRow, batch: seq<PendingRow>, already: set<string>)
    ensures var added := NewCheckpoints(H, shard, chain, batch, already);
            added == [] || (|added| == 1 && added[0].chainId == chain.id)
  {
    hide NewRows;
  }

  lemma {:induction false} RunKeepsCheckpoints(cfg: Config, s: State, steps: seq<Step>)
    requires Inv(cfg, s) && CheckpointsOk(s) && Executable(cfg, s, steps)
    ensures CheckpointsOk(Exec(cfg, s, steps))
    decreases |steps|
  {
    hide Inv, Enabled, Apply, CheckpointsOk;
    if steps == [] {
    } else {
      StepKeepsCheckpoints(cfg, s, steps[0]);
      StepKeepsInv(cfg, s, steps[0]);
      RunKeepsCheckpoints(cfg, Apply(cfg, s, steps[0]), steps[1..]);
    }
  }

  /** In every reachable state the checkpoints of every chain tile 1..latest_position; since the
      journal only grows, a checkpoint's root hash stays the hash at its end. */
  lemma CheckpointsTileEveryChain(cfg: Config, s: State, shard: ShardKey)
    requires Reachable(cfg, s) && shard in s.tables.chains
    ensures var chain := s.tables.chains[shard];
            var journal := ChainEvents(s.tables.events, chain.id);
            Tiles(ChainCheckpoints(s.tables.checkpoints, chain.id), journal) && |journal| == chain.latestPosition
  {
    ReachableInv(cfg, s);
    var steps :| Executable(cfg, INIT, steps) && Exec(cfg, INIT, steps) == s;
    hide Reachable, Executable, Exec, CallsOk, QueuesOk, TxnsOk, SealedLog, Tiles;
    InvInit(cfg);
    RunKeepsCheckpoints(cfg, INIT, steps);
    assert ChainOk(cfg, shard, s.tables.chains[shard], ChainEvents(s.tables.events, s.tables.chains[shard].id),
                   DrainedOf(s.drained, shard));
  }

  /** The checkpoint names a chain and its environment, organization and project. */
  predicate CheckpointOwned(cfg: Config, chains: map<ShardKey, ChainRow>, c: Checkpoint) {
    && c.env in cfg.envs && c.org == cfg.envs[c.env].org && c.project == cfg.envs[c.env].project
    && exists sh :: sh in chains && chains[sh].id == c.chainId && sh.env == c.env
  }

  predicate CheckpointsOwned(cfg: Config, s: State) {
    forall c :: c in s.tables.checkpoints ==> CheckpointOwned(cfg, s.tables.chains, c)
  }

  lemma OwnedLater(cfg: Config, chains: map<ShardKey, ChainRow>, chains': map<ShardKey, ChainRow>, c: Checkpoint)
    requires CheckpointOwned(cfg, chains, c)
    requires forall sh :: sh in chains ==> sh in chains' && chains'[sh].id == chains[sh].id
    ensures CheckpointOwned(cfg, chains', c)
  {
    var sh :| sh in chains && chains[sh].id == c.chainId && sh.env == c.env;
    assert sh in chains' && chains'[sh].id == c.chainId;
  }

  lemma NewCheckpointOwned(cfg: Config, s: State, k: int, c: Checkpoint)
    requires Inv(cfg, s) && k in s.txns && s.txns[k].stage.LookedUp?
    requires var txn := s.txns[k]; c in NewCheckpoints(cfg.digest, txn.shard, txn.chain, txn.stage.batch, txn.stage.already)
    ensures CheckpointOwned(cfg, Committed(cfg, s, k).tables.chains, c)
  {
    hide NewRows, CallsOk, QueuesOk, JournalOk, TxnsOk, SealedTables, SealedLog;
    var txn := s.txns[k];
    TxnChainIsLog(cfg, s, k);
    SealedTablesParts(cfg.digest, s.tables, txn.shard, txn.chain, txn.stage.batch, txn.stage.already);
    SealedChainId(cfg.digest, txn.chain, txn.stage.batch, txn.stage.already);
    hide SealedChain;
    var chains := Committed(cfg, s, k).tables.chains;
    assert txn.shard in chains && chains[txn.shard].id == c.chainId && txn.shard.env == c.env;
  }

  lemma StepKeepsOwned(cfg: Config, s: State, step: Step)
    requires Inv(cfg, s) && Enabled(cfg, s, step) && CheckpointsOwned(cfg, s)
    ensures CheckpointsOwned(cfg, Apply(cfg, s, step))
  {
    StepExtends(cfg, s, step);
    hide Inv, Enabled, Apply, CheckpointOwned;
    var s' := Apply(cfg, s, step);
    forall c | c in s.tables.checkpoints ensures CheckpointOwned(cfg, s'.tables.chains, c) {
      OwnedLater(cfg, s.tables.chains, s'.tables.chains, c);
    }
    forall c | c in s'.tables.checkpoints && c !in s.tables.checkpoints ensures CheckpointOwned(cfg, s'.tables.chains, c) {
      AddedByCommit(cfg, s, step, c);
    }
  }

  lemma AddedByCommit(cfg: Config, s: State, step: Step, c: Checkpoint)
    requires Inv(cfg, s) && Enabled(cfg, s, step)
    requires c in Apply(cfg, s, step).tables.checkpoints && c !in s.tables.checkpoints
    ensures CheckpointOwned(cfg, Apply(cfg, s, step).tables.chains, c)
  {
    hide Inv, ApplyCommit, Committed, IsDrain, PendingRowOf, IsIndexFor, HashOfRequest, ExistingExternals,
         CheckpointOwned, NewCheckpoints;
    if step.Commit? {
      CopyAlwaysSucceeds(cfg, s, step.sealer);
      CommittedCheckpoints(cfg, s, step.sealer);
      NewCheckpointOwned(cfg, s, step.sealer, c);
    }
  }

  lemma CommittedCheckpoints(cfg: Config, s: State, k: int)
    requires k in s.txns && s.txns[k].stage.LookedUp?
    ensures var txn := s.txns[k];
            Committed(cfg, s, k).tables.checkpoints
            == s.tables.checkpoints
               + NewCheckpoints(cfg.digest, txn.shard, txn.chain, txn.stage.batch, txn.stage.already)
  {
    hide SealedTables, NewCheckpoints;
    var txn := s.txns[k];
    SealedTablesCheckpoints(cfg.digest, s.tables, txn.shard, txn.chain, txn.stage.batch, txn.stage.already);
  }

  lemma {:induction false} RunKeepsOwned(cfg: Config, s: State, steps: seq<Step>)
    requires Inv(cfg, s) && CheckpointsOwned(cfg, s) && Executable(cfg, s, steps)
    ensures CheckpointsOwned(cfg, Exec(cfg, s, steps))
    decreases |steps|
  {
    hide Inv, Enabled, Apply, CheckpointsOwned;
    if steps == [] {
    } else {
      StepKeepsOwned(cfg, s, steps[0]);
      StepKeepsInv(cfg, s, steps[0]);
      RunKeepsOwned(cfg, Apply(cfg, s, steps[0]), steps[1..]);
    }
  }

  /** Every checkpoint of every reachable state names a chain of the server, with the environment of
      that chain and the organization and the project that own the environment. */
  lemma CheckpointsCarry(cfg: Config, s: State, c: Checkpoint)
    requires Reachable(cfg, s) && c in s.tables.checkpoints
    ensures c.env in cfg.envs && c.org == cfg.envs[c.env].org && c.project == cfg.envs[c.env].project
    ensures exists sh :: sh in s.tables.chains && s.tables.chains[sh].id == c.chainId && sh.env == c.env
  {
    var steps :| Executable(cfg, INIT, steps) && Exec(cfg, INIT, steps) == s;
    hide Executable, Exec, Inv;
    InvInit(cfg);
    RunKeepsOwned(cfg, INIT, steps);
    assert CheckpointOwned(cfg, s.tables.chains, c);
  }

  lemma {:induction false} ChainCheckpointsPrefix(a: seq<Checkpoint>, b: seq<Checkpoint>, chainId: string)
    requires a <= b
    ensures ChainCheckpoints(a, chainId) <= ChainCheckpoints(b, chainId)
    decreases |b|
  {
    if a == b {
    } else {
      ChainCheckpointsPrefix(a, b[..|b| - 1], chainId);
    }
  }

  lemma LaterStateIsReachable(cfg: Config, s: State, steps: seq<Step>)
    requires Reachable(cfg, s) && Executable(cfg, s, steps)
    ensures Reachable(cfg, Exec(cfg, s, steps))
  {
    hide Apply, Enabled;
    var before :| Executable(cfg, INIT, before) && Exec(cfg, INIT, before) == s;
    ExecAppend(cfg, INIT, before, steps);
  }

  /** A checkpoint once written is there in all later states, at the same place among its chain's
      checkpoints, and there still names the hash of the event at its end. */
  lemma CheckpointsEndure(cfg: Config, s: State, steps: seq<Step>, shard: ShardKey, i: nat)
    requires Reachable(cfg, s) && Executable(cfg, s, steps) && shard in s.tables.chains
    requires i < |ChainCheckpoints(s.tables.checkpoints, s.tables.chains[shard].id)|
    ensures var s' := Exec(cfg, s, steps);
            var id := s.tables.chains[shard].id;
            var c := ChainCheckpoints(s.tables.checkpoints, id)[i];
            var tiles, journal := ChainCheckpoints(s'.tables.checkpoints, id), ChainEvents(s'.tables.events, id);
            && i < |tiles| && tiles[i] == c
            && 1 <= c.toPosition <= |journal| && journal[c.toPosition - 1].eventHash == c.rootHash
  {
    hide Reachable, Inv, Executable, Exec, ChainCheckpoints, ChainEvents;
    ReachableInv(cfg, s);
    RunExtends(cfg, s, steps);
    LaterStateIsReachable(cfg, s, steps);
    var s' := Exec(cfg, s, steps);
    CheckpointsTileEveryChain(cfg, s', shard);
    ChainCheckpointsPrefix(s.tables.checkpoints, s'.tables.checkpoints, s.tables.chains[shard].id);
    assert TileOk(ChainCheckpoints(s'.tables.checkpoints, s.tables.chains[shard].id),
                  ChainEvents(s'.tables.events, s.tables.chains[shard].id), i);
  }
}
