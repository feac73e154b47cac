/** Exports and chain checks that race with a sealer: the two queries see different states, and a
    chain that is in order is reported invalid. */
module Races {
  import opened Verification
  import opened TamperEvidence
  import opened Tables
  import opened Sealing
  import opened Shard
  import opened Protocol
  import opened Invariants
  import opened Safety
  import opened StoredVerification
  import opened History
  import opened ServerChains
  import opened SealRuns
  import opened SmallRuns
  import opened Sequences
  import opened Bundle
  import opened Export
  import opened EndToEnd

  /** A plain request of the environment's owner, without external id. */
  predicate OwnRequest(cfg: Config, request: Request, shard: int) {
    && PlainRequest(cfg, request, shard) && request.event.externalEventId == ""
    && cfg.envs[request.env] == Tenant(request.org, request.project)
  }

  /** A quiet state: nothing pending, no transaction, and calls of this request only. */
  predicate Quiescent(cfg: Config, s: State, request: Request, shard: int, ids: set<int>)
    requires HashOfRequest(cfg, request, 0).Some?
  {
    && s.txns == map[] && s.tables.pending == map[] && s.calls.Keys == ids
    && forall id :: id in s.calls ==> s.calls[id] == AcceptedCall(cfg, request, shard)
  }

  lemma Follow(cfg: Config, s: State, steps: seq<Step>)
    requires Reachable(cfg, s) && Executable(cfg, s, steps)
    ensures Reachable(cfg, Exec(cfg, s, steps)) && Later(cfg, s, Exec(cfg, s, steps))
  {
    hide Enabled, Apply;
    LaterStateIsReachable(cfg, s, steps);
  }

  /** Between two quiet states: one more event accepted, and then sealed. */
  lemma OneMoreEvent(cfg: Config, s: State, request: Request, shard: int, ids: set<int>, id: int, chainId: string)
    returns (mid: State, t: State)
    requires OwnRequest(cfg, request, shard) && Reachable(cfg, s) && Quiescent(cfg, s, request, shard, ids) && id !in ids
    requires ShardKey(request.env, shard) in s.tables.chains || s.tables.chains == map[]
    ensures Reachable(cfg, mid) && mid.tables.chains == s.tables.chains && mid.tables.events == s.tables.events
    ensures mid.calls.Keys == ids + {id} && forall i :: i in mid.calls ==> mid.calls[i].request == request
    ensures Reachable(cfg, t) && Later(cfg, mid, t) && Quiescent(cfg, t, request, shard, ids + {id})
    ensures var key := ShardKey(request.env, shard);
            && key in t.tables.chains
            && t.tables.chains[key].latestPosition == LockedChain(cfg, s.tables, key, chainId).latestPosition + 1
  {
    hide IsIndexFor, HashOfRequest, RoutingKey, Executable, Exec, Inv, Reachable, Later, ExistingExternals, Externals;
    var row := AcceptedRow(cfg, id, request, shard);
    AcceptOne(cfg, s, id, request, shard);
    AcceptedRowFacts(cfg, id, request, shard);
    Follow(cfg, s, AcceptRun(id, request, shard));
    mid := Exec(cfg, s, AcceptRun(id, request, shard));
    ReachableInv(cfg, mid);
    SealOne(cfg, mid, chainId, row);
    var steps := SealSteps(0, ShardOf(row), chainId, 1, [row]);
    Follow(cfg, mid, steps);
    t := Exec(cfg, mid, steps);
  }

  lemma StartIsQuiescent(cfg: Config, request: Request, shard: int)
    requires HashOfRequest(cfg, request, 0).Some?
    ensures Reachable(cfg, INIT) && Quiescent(cfg, INIT, request, shard, {})
  {
    hide HashOfRequest, Enabled, Apply;
    assert Executable(cfg, INIT, []) && Exec(cfg, INIT, []) == INIT;
  }

  /** Two states of one run that two queries can see: the chain has one event, and then two. */
  lemma RacedReads(cfg: Config, request: Request, shard: int, chainId: string) returns (s: State, t: State)
    requires OwnRequest(cfg, request, shard)
    ensures Reachable(cfg, s) && Later(cfg, s, t) && Tenancy(cfg, s)
    ensures var key := ShardKey(request.env, shard);
            && key in s.tables.chains && key in t.tables.chains
            && |ServerChain(s, key)| == 1 && |ServerChain(t, key)| == 2
            && (forall from, to :: NonEmptyInScope(Scope(request.org, request.project, from, to), s.tables.chains[key]))
  {
    var key := ShardKey(request.env, shard);
    hide IsIndexFor, HashOfRequest, Executable, Exec, Inv, Reachable, Later, Quiescent, ServerChain, RowLinks;
    StartIsQuiescent(cfg, request, shard);
    var before, first := OneMoreEvent(cfg, INIT, request, shard, {}, 1, chainId);
    s, t := OneMoreEvent(cfg, first, request, shard, {} + {1}, 2, chainId);
    ChainsAreWellLinked(cfg, s, key);
    ChainsAreWellLinked(cfg, t, key);
    OwnerOfChain(cfg, s, key);
  }

  lemma OwnerOfChain(cfg: Config, s: State, key: ShardKey)
    requires Reachable(cfg, s) && key in s.tables.chains
    ensures key.env in cfg.envs
    ensures s.tables.chains[key].org == cfg.envs[key.env].org && s.tables.chains[key].project == cfg.envs[key.env].project
  {
    hide Reachable, Inv;
    ReachableInv(cfg, s);
    ChainProject(cfg, s, key);
  }

  /** An export whose event query sees the first state and whose chain query sees the second is
      reported invalid although the window covers the project, or a collision is at hand. */
  lemma RacedExportIsInvalid<C>(cfg: Config, request: Request, shard: int, chainId: string, scope: Scope, h: Hasher<C>)
    returns (s: State, t: State)
    requires OwnRequest(cfg, request, shard) && h.digest == cfg.digest
    requires scope.org == request.org && scope.project == request.project
    ensures Reachable(cfg, s) && Later(cfg, s, t)
    ensures var key := ShardKey(request.env, shard);
            && key in s.tables.chains && key in t.tables.chains
            && (forall b, rep :: IsExport(s, t, scope, b) && CoversProject(s, scope) && IsReport(h, b, rep) ==>
                  || !rep.valid
                  || CollisionShown(h, BundleRecords(Map(ServerChain(s, key), ToBundleEvent)),
                                    JournalRecords(ServerChain(t, key))))
  {
    hide Reachable, Later, IsExport, CoversProject, IsReport, ServerChain, CollisionShown, Tenancy, OwnRequest;
    s, t := RacedReads(cfg, request, shard, chainId);
    var key := ShardKey(request.env, shard);
    assert NonEmptyInScope(Scope(scope.org, scope.project, scope.from, scope.to), s.tables.chains[key]);
    forall b, rep | IsExport(s, t, scope, b) && CoversProject(s, scope) && IsReport(h, b, rep)
      ensures || !rep.valid
              || CollisionShown(h, BundleRecords(Map(ServerChain(s, key), ToBundleEvent)),
                                JournalRecords(ServerChain(t, key)))
    {
      MovedChainIsInvalid(cfg, s, t, key, scope, h, b, rep);
    }
  }
}
