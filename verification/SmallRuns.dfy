/** Accepting one event and sealing one event without interruption: the building blocks of concrete
    runs. */
module SmallRuns {
  import opened HashChain
  import opened Tables
  import opened Sealing
  import opened Shard
  import opened Protocol
  import opened Invariants
  import opened CommitStep
  import opened SealRuns
  import opened Ingest
  import opened Refinement

  /** A request without idempotency key, for a known environment and the shard that it is routed to. */
  predicate PlainRequest(cfg: Config, request: Request, shard: int) {
    && request.key == "" && request.env in cfg.envs
    && IsIndexFor(cfg.fnv, RoutingKey(request.event), cfg.shardCount, shard)
    && HashOfRequest(cfg, request, 0).Some?
  }

  function AcceptRun(id: int, request: Request, shard: int): seq<Step> {
    [Arrive(id, request, 0, shard), Insert(id, 0)]
  }

  function AcceptedCall(cfg: Config, request: Request, shard: int): Call
    requires HashOfRequest(cfg, request, 0).Some?
  {
    HashedCall(request, 0, shard, HashOfRequest(cfg, request, 0).value).(phase := Accepted)
  }

  function AcceptedRow(cfg: Config, id: int, request: Request, shard: int): PendingRow
    requires HashOfRequest(cfg, request, 0).Some?
  {
    PendingRowOf(id, HashedCall(request, 0, shard, HashOfRequest(cfg, request, 0).value), 0)
  }

  /** One accept adds one call and one pending row. */
  lemma AcceptOne(cfg: Config, s: State, id: int, request: Request, shard: int)
    requires PlainRequest(cfg, request, shard) && id !in s.calls
    ensures Executable(cfg, s, AcceptRun(id, request, shard))
    ensures Exec(cfg, s, AcceptRun(id, request, shard))
            == s.(tables := s.tables.(pending := s.tables.pending[id := AcceptedRow(cfg, id, request, shard)]),
                  calls := s.calls[id := AcceptedCall(cfg, request, shard)])
  {
    hide IsIndexFor, HashOfRequest, RoutingKey, Enabled, Apply, PendingRowOf;
    ArriveStep(cfg, s, request, 0, id, shard);
    var s1 := Apply(cfg, s, Arrive(id, request, 0, shard));
    InsertStep(cfg, s1, id, 0);
    ExecTwo(cfg, s, Arrive(id, request, 0, shard), Insert(id, 0));
  }

  lemma AcceptedRowFacts(cfg: Config, id: int, request: Request, shard: int)
    requires HashOfRequest(cfg, request, 0).Some?
    ensures var row := AcceptedRow(cfg, id, request, shard);
            && row.id == id && ShardOf(row) == ShardKey(request.env, shard)
            && row.externalId == NullIfEmpty(request.event.externalEventId)
  {
    hide HashOfRequest;
  }

  lemma OneRowDrain(row: PendingRow)
    ensures IsDrain(map[row.id := row], ShardOf(row), 1, [row])
  {
  }

  lemma OneRowRemoved(row: PendingRow)
    ensures Remove(map[row.id := row], [row]) == map[]
  {
    assert [row][0] == row;
  }

  /** A row that is no duplicate becomes one journal row. */
  lemma OneRowSealed(H: Digest, chain: ChainRow, row: PendingRow, already: set<string>)
    requires !IsDuplicate(row, already)
    ensures var rows := NewRows(H, chain, [row], already); |rows| == 1 && rows[0].id == row.id
  {
    hide EventHash, RawPayload, EnvelopeExternalId;
    assert [row][..0] == [];
    assert Externals([]) == {};
    assert already + {} == already;
    assert FirstOccurrences([row], already) == [row];
  }

  /** Sealing the only pending row adds it to its chain's journal. */
  lemma SealOne(cfg: Config, s: State, chainId: string, row: PendingRow)
    requires Inv(cfg, s) && s.txns == map[] && s.tables.pending == map[row.id := row]
    requires !IsDuplicate(row, ExistingExternals(s.tables.events, row.env, Externals([row])))
    requires ShardOf(row) in s.tables.chains || (row.env in cfg.envs && FreshChainId(s, chainId))
    ensures var key, steps := ShardOf(row), SealSteps(0, ShardOf(row), chainId, 1, [row]);
            && Executable(cfg, s, steps)
            && (var t := Exec(cfg, s, steps);
                && t.txns == map[] && t.calls == s.calls && t.tables.pending == map[]
                && |t.tables.events| == |s.tables.events| + 1 && t.tables.events[|s.tables.events|].id == row.id
                && key in t.tables.chains
                && t.tables.chains[key].latestPosition == LockedChain(cfg, s.tables, key, chainId).latestPosition + 1)
  {
    var key := ShardOf(row);
    OneRowDrain(row);
    OneRowRemoved(row);
    hide Inv, IsDrain, FreshChainId, Executable, Exec, NewRows, SealedTables, Remove, ExistingExternals, IsDuplicate,
         Externals;
    SealIsRun(cfg, s, 0, key, chainId, 1, [row]);
    var chain := LockedChain(cfg, s.tables, key, chainId);
    var already := ExistingExternals(s.tables.events, row.env, Externals([row]));
    OneRowSealed(cfg.digest, chain, row, already);
    SealedTablesParts(cfg.digest, s.tables, key, chain, [row], already);
  }
}
