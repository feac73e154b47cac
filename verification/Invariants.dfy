/** What holds in every reachable state of the protocol, stated part by part. */
module Invariants {
  import opened Wrappers
  import opened Content
  import opened Payloads
  import opened Tables
  import opened Sealing
  import opened Shard
  import opened Protocol

  // ----- calls and queues -----

  /** A call's shard, hash and receive time are what Accept computed for its request. */
  predicate CallOk(cfg: Config, c: Call) {
    && IsIndexFor(cfg.fnv, RoutingKey(c.request.event), cfg.shardCount, c.shard)
    && ContentHash(cfg.digest, cfg.canonical, RequestContent(c.request, c.receivedAt)) == Some(c.payloadHash)
    && TruncateMilli(c.receivedAt) == c.receivedAt
  }

  predicate CallsOk(cfg: Config, calls: map<int, Call>) {
    forall id :: id in calls ==> CallOk(cfg, calls[id])
  }

  /** The row is the one that its accepted call inserted. */
  predicate FromCall(calls: map<int, Call>, p: PendingRow) {
    p.id in calls && calls[p.id].phase.Accepted? && p == PendingRowOf(p.id, calls[p.id], p.acceptedAt)
  }

  predicate PendingOk(calls: map<int, Call>, pending: map<int, PendingRow>) {
    forall id :: id in pending ==> pending[id].id == id && FromCall(calls, pending[id])
  }

  predicate DistinctIds(rows: seq<PendingRow>) {
    forall i, j :: 0 <= i < j < |rows| ==> rows[i].id != rows[j].id
  }

  predicate HistoryOk(calls: map<int, Call>, pending: map<int, PendingRow>, shard: ShardKey, rows: seq<PendingRow>) {
    && DistinctIds(rows)
    && (forall i :: 0 <= i < |rows| ==>
          ShardOf(rows[i]) == shard && FromCall(calls, rows[i]) && rows[i].id !in pending)
  }

  predicate DrainedOk(calls: map<int, Call>, pending: map<int, PendingRow>, drained: map<ShardKey, seq<PendingRow>>) {
    forall sh :: sh in drained ==> HistoryOk(calls, pending, sh, drained[sh])
  }

  predicate HasId(rows: seq<PendingRow>, id: int) {
    exists i :: 0 <= i < |rows| && rows[i].id == id
  }

  function CallShard(c: Call): ShardKey {
    ShardKey(c.request.env, c.shard)
  }

  /** An accepted event is in its queue or was drained from it. */
  predicate NothingLost(calls: map<int, Call>, pending: map<int, PendingRow>,
                        drained: map<ShardKey, seq<PendingRow>>) {
    forall id :: id in calls && calls[id].phase.Accepted? ==>
      id in pending || HasId(DrainedOf(drained, CallShard(calls[id])), id)
  }

  predicate QueuesOk(calls: map<int, Call>, pending: map<int, PendingRow>, drained: map<ShardKey, seq<PendingRow>>) {
    PendingOk(calls, pending) && DrainedOk(calls, pending, drained) && NothingLost(calls, pending, drained)
  }

  // ----- chains -----

  /** A chain row and its journal are the one-pass log of what was drained from its queue. */
  predicate ChainOk(cfg: Config, shard: ShardKey, chain: ChainRow, journal: seq<EventRow>, drained: seq<PendingRow>) {
    && shard.env in cfg.envs
    && chain.org == cfg.envs[shard.env].org && chain.project == cfg.envs[shard.env].project
    && journal == SealedLog(cfg.digest, chain.id, chain.project, drained)
    && chain.latestPosition == |journal|
    && chain.latestHash == NullIfEmpty(TipHash("", journal))
  }

  predicate ChainsOk(cfg: Config, chains: map<ShardKey, ChainRow>, events: seq<EventRow>,
                     drained: map<ShardKey, seq<PendingRow>>) {
    forall sh :: sh in chains ==>
      ChainOk(cfg, sh, chains[sh], ChainEvents(events, chains[sh].id), DrainedOf(drained, sh))
  }

  predicate ChainIdsUnique(chains: map<ShardKey, ChainRow>) {
    forall a, b :: a in chains && b in chains && a != b ==> chains[a].id != chains[b].id
  }

  predicate IsChainId(chains: map<ShardKey, ChainRow>, id: string) {
    exists sh :: sh in chains && chains[sh].id == id
  }

  predicate EventsOwned(chains: map<ShardKey, ChainRow>, events: seq<EventRow>) {
    forall i :: 0 <= i < |events| ==> IsChainId(chains, events[i].chainId)
  }

  predicate JournalOk(cfg: Config, chains: map<ShardKey, ChainRow>, events: seq<EventRow>,
                      drained: map<ShardKey, seq<PendingRow>>) {
    && ChainsOk(cfg, chains, events, drained)
    && ChainIdsUnique(chains)
    && EventsOwned(chains, events)
    && drained.Keys <= chains.Keys
  }

  // ----- sealer transactions -----

  /** The transaction's copy of the chain row is current, or it is a new row of its own. */
  predicate TxnChainOk(cfg: Config, chains: map<ShardKey, ChainRow>, txn: Txn) {
    if txn.created then
      && txn.shard !in chains
      && txn.shard.env in cfg.envs
      && txn.chain == NewChain(cfg, txn.shard, txn.chain.id)
      && (forall sh :: sh in chains ==> chains[sh].id != txn.chain.id)
    else
      txn.shard in chains && chains[txn.shard] == txn.chain
  }

  predicate BatchOk(pending: map<int, PendingRow>, shard: ShardKey, batch: seq<PendingRow>) {
    && (forall i :: 0 <= i < |batch| ==> PendingInShard(pending, shard, batch[i]))
    && (forall i, j :: 0 <= i < j < |batch| ==> Before(batch[i], batch[j]))
  }

  /** What the look-up found is what the chain's own history says. */
  predicate AlreadyOk(batch: seq<PendingRow>, already: set<string>, drained: seq<PendingRow>) {
    forall x :: x in Externals(batch) ==> (x in already <==> x in Externals(drained))
  }

  predicate StageOk(pending: map<int, PendingRow>, drained: map<ShardKey, seq<PendingRow>>, txn: Txn) {
    match txn.stage
    case Locked => true
    case Drained(batch) => BatchOk(pending, txn.shard, batch)
    case LookedUp(batch, already) =>
      BatchOk(pending, txn.shard, batch) && AlreadyOk(batch, already, DrainedOf(drained, txn.shard))
  }

  /** No two transactions hold one chain row, nor did two create one chain id. */
  predicate Exclusive(txns: map<int, Txn>) {
    forall a, b :: a in txns && b in txns && a != b ==>
      txns[a].shard != txns[b].shard && (txns[a].created && txns[b].created ==> txns[a].chain.id != txns[b].chain.id)
  }

  predicate TxnsOk(cfg: Config, chains: map<ShardKey, ChainRow>, pending: map<int, PendingRow>,
                   drained: map<ShardKey, seq<PendingRow>>, txns: map<int, Txn>) {
    && Exclusive(txns)
    && (forall k :: k in txns ==> TxnChainOk(cfg, chains, txns[k]) && StageOk(pending, drained, txns[k]))
  }

  predicate Inv(cfg: Config, s: State) {
    && CallsOk(cfg, s.calls)
    && QueuesOk(s.calls, s.tables.pending, s.drained)
    && JournalOk(cfg, s.tables.chains, s.tables.events, s.drained)
    && TxnsOk(cfg, s.tables.chains, s.tables.pending, s.drained, s.txns)
  }
}
