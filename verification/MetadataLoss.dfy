/** Runs that end with a pending row and a journal row that do not verify: the request carries a
    present-but-empty metadata map, which is hashed but not stored. */
module MetadataLoss {
  import opened Wrappers
  import opened Content
  import opened Payloads
  import opened Tables
  import opened Sealing
  import opened Shard
  import opened Protocol
  import opened Invariants
  import opened Safety
  import opened StoredVerification
  import opened SealRuns
  import opened SmallRuns

  /** A plain request with an empty metadata map. */
  predicate EmptyMetadataRequest(cfg: Config, request: Request, shard: int) {
    request.event.metadata == Some(map[]) && PlainRequest(cfg, request, shard)
  }

  lemma RunReaches(cfg: Config, steps: seq<Step>)
    requires Executable(cfg, INIT, steps)
    ensures Reachable(cfg, Exec(cfg, INIT, steps))
  {
    hide Enabled, Apply;
  }

  /** After the two steps the pending row is invalid, unless two contents collide. */
  lemma EmptyMetadataPending(cfg: Config, request: Request, shard: int)
    requires EmptyMetadataRequest(cfg, request, shard) && Injective(cfg.canonical)
    ensures Executable(cfg, INIT, AcceptRun(1, request, shard))
    ensures var s := Exec(cfg, INIT, AcceptRun(1, request, shard));
            && 1 in s.tables.pending
            && (|| !PendingValid(cfg.digest, cfg.canonical, s.tables.pending[1])
                || ContentCollision(cfg, RequestContent(request, TruncateMilli(0)), PendingContent(s.tables.pending[1])))
  {
    AcceptOne(cfg, INIT, 1, request, shard);
    hide Executable, Exec, Reachable, Injective, PendingValid, ContentCollision, IsIndexFor, HashOfRequest;
    RunReaches(cfg, AcceptRun(1, request, shard));
    var s := Exec(cfg, INIT, AcceptRun(1, request, shard));
    if PendingValid(cfg.digest, cfg.canonical, s.tables.pending[1]) {
      OnlyStorablePendingVerifies(cfg, s, 1);
    }
  }

  function SealRun(cfg: Config, request: Request, shard: int, chainId: string): seq<Step>
    requires HashOfRequest(cfg, request, 0).Some?
  {
    AcceptRun(1, request, shard)
    + SealSteps(0, ShardKey(request.env, shard), chainId, 1, [AcceptedRow(cfg, 1, request, shard)])
  }

  lemma NothingIsThere(env: string, row: PendingRow)
    ensures !IsDuplicate(row, ExistingExternals([], env, Externals([row])))
  {
  }

  /** The run goes on to seal the row. */
  lemma SealRunState(cfg: Config, request: Request, shard: int, chainId: string)
    requires EmptyMetadataRequest(cfg, request, shard)
    ensures Executable(cfg, INIT, SealRun(cfg, request, shard, chainId))
    ensures var s := Exec(cfg, INIT, SealRun(cfg, request, shard, chainId));
            && |s.tables.events| == 1 && s.tables.events[0].id == 1
            && s.calls == map[1 := AcceptedCall(cfg, request, shard)]
  {
    hide IsIndexFor, HashOfRequest, RoutingKey, Executable, Exec, Inv, Reachable, IsDuplicate, ExistingExternals, Externals;
    var first, row := AcceptRun(1, request, shard), AcceptedRow(cfg, 1, request, shard);
    AcceptOne(cfg, INIT, 1, request, shard);
    AcceptedRowFacts(cfg, 1, request, shard);
    RunReaches(cfg, first);
    var s1 := Exec(cfg, INIT, first);
    ReachableInv(cfg, s1);
    NothingIsThere(row.env, row);
    SealOne(cfg, s1, chainId, row);
    ExecAppend(cfg, INIT, first, SealSteps(0, ShardOf(row), chainId, 1, [row]));
  }

  /** After six steps the journal's only row is invalid, unless two contents collide. */
  lemma EmptyMetadataSealed(cfg: Config, request: Request, shard: int, chainId: string)
    requires EmptyMetadataRequest(cfg, request, shard) && Injective(cfg.canonical)
    ensures Executable(cfg, INIT, SealRun(cfg, request, shard, chainId))
    ensures var s := Exec(cfg, INIT, SealRun(cfg, request, shard, chainId));
            && |s.tables.events| == 1
            && (|| !SealedValid(cfg.digest, cfg.canonical, s.tables.events[0])
                || ContentCollision(cfg, RequestContent(request, TruncateMilli(0)), SealedContent(s.tables.events[0])))
  {
    SealRunState(cfg, request, shard, chainId);
    hide Executable, Exec, Reachable, Injective, SealedValid, ContentCollision, IsIndexFor, HashOfRequest, SealRun;
    RunReaches(cfg, SealRun(cfg, request, shard, chainId));
    var s := Exec(cfg, INIT, SealRun(cfg, request, shard, chainId));
    if SealedValid(cfg.digest, cfg.canonical, s.tables.events[0]) {
      OnlyKeptContentVerifies(cfg, s, s.tables.events[0]);
    }
  }
}
