/** Facts about journal rows that the protocol's invariants give. */
module JournalFacts {
  import opened Wrappers
  import opened HashChain
  import opened Content
  import opened Tables
  import opened Sealing
  import opened Shard
  import opened Protocol
  import opened Invariants

  /** The journal row carries this pending row's identity and content. */
  predicate SealedFrom(e: EventRow, p: PendingRow, chainId: string, project: string) {
    && e.id == p.id && e.org == p.org && e.env == p.env && e.project == project && e.chainId == chainId
    && e.externalId == NullIfEmpty(EnvelopeExternalId(p.data))
    && e.receivedAt == TimestampColumn(p.data.receivedAt) && e.rawPayload == RawPayload(p.data)
    && e.payloadHash == p.payloadHash
  }

  lemma LinkRowsFrom(H: Digest, chainId: string, project: string, prev: string, start: int,
                     rows: seq<PendingRow>, i: nat)
    requires i < |rows|
    ensures SealedFrom(LinkRows(H, chainId, project, prev, start, rows)[i], rows[i], chainId, project)
  {
    hide EventHash, RawPayload, EnvelopeExternalId, NullIfEmpty, TimestampColumn;
    LinkRowsAt(H, chainId, project, prev, start, rows, i);
  }

  /** Every row of a log comes from a drained row. */
  lemma LogRowSource(H: Digest, chainId: string, project: string, drained: seq<PendingRow>, e: EventRow)
    returns (p: PendingRow)
    requires e in SealedLog(H, chainId, project, drained)
    ensures p in drained && SealedFrom(e, p, chainId, project)
  {
    hide SealedFrom;
    var kept := FirstOccurrences(drained, {});
    var log := LinkRows(H, chainId, project, "", 1, kept);
    var i :| 0 <= i < |log| && log[i] == e;
    LinkRowsFrom(H, chainId, project, "", 1, kept, i);
    p := kept[i];
  }

  /** Every external id that was drained is in the log. */
  lemma LogHasExternal(H: Digest, chainId: string, project: string, drained: seq<PendingRow>, x: string)
    returns (e: EventRow, p: PendingRow)
    requires x in Externals(drained)
    ensures e in SealedLog(H, chainId, project, drained)
    ensures p in drained && HasExternal(p) && p.externalId.value == x && SealedFrom(e, p, chainId, project)
  {
    hide SealedFrom;
    var kept := FirstOccurrences(drained, {});
    KeptExternals(drained, {});
    assert x in Externals(kept);
    var i :| 0 <= i < |kept| && HasExternal(kept[i]) && kept[i].externalId.value == x;
    LinkRowsFrom(H, chainId, project, "", 1, kept, i);
    p := kept[i];
    e := LinkRows(H, chainId, project, "", 1, kept)[i];
  }

  /** The stored envelope keeps the external id of the row that carries it. */
  lemma RowExternal(calls: map<int, Call>, p: PendingRow)
    requires FromCall(calls, p)
    ensures NullIfEmpty(EnvelopeExternalId(p.data)) == p.externalId
    ensures p.externalId != Some("")
    ensures HasExternal(p) <==> p.externalId.Some?
  {
    var e := calls[p.id].request.event;
    JsonRoundTrip(e);
  }

  /** A non-empty external id has one shard. */
  lemma ExternalShard(cfg: Config, calls: map<int, Call>, p: PendingRow)
    requires CallsOk(cfg, calls) && FromCall(calls, p) && HasExternal(p)
    ensures p.shard == cfg.fnv(p.externalId.value) % EffectiveCount(cfg.shardCount)
  {
    assert CallOk(cfg, calls[p.id]);
  }

  /** Rows of one environment with one external id are in one shard. */
  lemma SameExternalSameShard(cfg: Config, calls: map<int, Call>, p: PendingRow, q: PendingRow)
    requires CallsOk(cfg, calls) && FromCall(calls, p) && FromCall(calls, q)
    requires HasExternal(p) && p.externalId == q.externalId && p.env == q.env
    ensures ShardOf(p) == ShardOf(q)
  {
    ExternalShard(cfg, calls, p);
    ExternalShard(cfg, calls, q);
  }

  /** The chain that a journal row belongs to. */
  lemma EventChain(cfg: Config, s: State, e: EventRow) returns (shard: ShardKey, p: PendingRow)
    requires Inv(cfg, s) && e in s.tables.events
    ensures shard in s.tables.chains && s.tables.chains[shard].id == e.chainId
    ensures e in SealedLog(cfg.digest, e.chainId, s.tables.chains[shard].project, DrainedOf(s.drained, shard))
    ensures p in DrainedOf(s.drained, shard) && SealedFrom(e, p, e.chainId, s.tables.chains[shard].project)
    ensures FromCall(s.calls, p) && ShardOf(p) == shard && p.id !in s.tables.pending
  {
    hide SealedFrom, SealedLog, FromCall, TxnsOk, CallsOk;
    var chains := s.tables.chains;
    assert IsChainId(chains, e.chainId);
    shard :| shard in chains && chains[shard].id == e.chainId;
    ChainEventsComplete(s.tables.events, e);
    assert ChainOk(cfg, shard, chains[shard], ChainEvents(s.tables.events, e.chainId), DrainedOf(s.drained, shard));
    p := LogRowSource(cfg.digest, e.chainId, chains[shard].project, DrainedOf(s.drained, shard), e);
    assert HistoryOk(s.calls, s.tables.pending, shard, DrainedOf(s.drained, shard));
  }

  /** Looking up external ids in the environment's journal finds exactly those that this
      shard's own queue has delivered: other shards cannot hold them. */
  lemma LookUpIsOwnHistory(cfg: Config, s: State, shard: ShardKey, batch: seq<PendingRow>)
    requires Inv(cfg, s)
    requires forall i :: 0 <= i < |batch| ==> PendingInShard(s.tables.pending, shard, batch[i])
    ensures AlreadyOk(batch, ExistingExternals(s.tables.events, shard.env, Externals(batch)), DrainedOf(s.drained, shard))
  {
    hide TxnsOk, JournalOk;
    var already := ExistingExternals(s.tables.events, shard.env, Externals(batch));
    forall x | x in Externals(batch) ensures x in already <==> x in Externals(DrainedOf(s.drained, shard)) {
      if x in already {
        FoundMeansDrained(cfg, s, shard, batch, x);
      }
      if x in Externals(DrainedOf(s.drained, shard)) {
        DrainedMeansFound(cfg, s, shard, batch, x);
      }
    }
  }

  lemma FoundMeansDrained(cfg: Config, s: State, shard: ShardKey, batch: seq<PendingRow>, x: string)
    requires Inv(cfg, s)
    requires forall i :: 0 <= i < |batch| ==> PendingInShard(s.tables.pending, shard, batch[i])
    requires x in ExistingExternals(s.tables.events, shard.env, Externals(batch))
    ensures x in Externals(DrainedOf(s.drained, shard))
  {
    hide EnvelopeExternalId, RawPayload, TxnsOk, JournalOk, CallsOk, FromCall, DrainedOk, NothingLost;
    var events := s.tables.events;
    var j :| 0 <= j < |events| && events[j].env == shard.env && events[j].externalId == Some(x);
    var i :| 0 <= i < |batch| && HasExternal(batch[i]) && batch[i].externalId.value == x;
    assert FromCall(s.calls, batch[i]);
    var home, p := EventChain(cfg, s, events[j]);
    RowExternal(s.calls, p);
    SameExternalSameShard(cfg, s.calls, batch[i], p);
    assert home == shard;
  }

  lemma DrainedMeansFound(cfg: Config, s: State, shard: ShardKey, batch: seq<PendingRow>, x: string)
    requires Inv(cfg, s)
    requires x in Externals(batch) && x in Externals(DrainedOf(s.drained, shard))
    ensures x in ExistingExternals(s.tables.events, shard.env, Externals(batch))
  {
    hide EnvelopeExternalId, RawPayload, TxnsOk, CallsOk, FromCall, NothingLost, PendingOk;
    var history := DrainedOf(s.drained, shard);
    var chain := s.tables.chains[shard];
    var e, p := LogHasExternal(cfg.digest, chain.id, chain.project, history, x);
    assert HistoryOk(s.calls, s.tables.pending, shard, history);
    RowExternal(s.calls, p);
    assert ChainOk(cfg, shard, chain, ChainEvents(s.tables.events, chain.id), history);
    assert e in s.tables.events;
    assert e.env == shard.env && e.externalId == Some(x);
  }
}
