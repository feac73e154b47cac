/** Accept and seal as a step machine over committed table state.

    Accept calls and sealer transactions interleave statement by statement, each statement
    reading the latest committed tables (READ COMMITTED).  A sealer's writes become visible in
    one atomic commit.  A step that Postgres would skip or that changes nothing is not listed. */
module Protocol {
  import opened Wrappers
  import opened HashChain
  import opened Content
  import opened Payloads
  import opened Tables
  import opened Sealing
  import opened Shard

  /** What does not change during a run. */
  datatype Config = Config(digest: Digest, canonical: Canonicalizer, fnv: string -> nat,
                           shardCount: int, envs: map<string, Tenant>)

  // ----- accept calls -----

  /** The caller's scope, the idempotency key ("" for none) and the event. */
  datatype Request = Request(org: string, project: string, env: string, key: string, event: EventInput)

  /** How far a call got.  Claimed: it inserted the idempotency row.  Outbid: the row was there.
      Failed: it answered with an error, or died. */
  datatype Phase = Hashed | Claimed | Outbid | Accepted | Replayed(body: AcceptedResponse) | Failed

  /** An Accept call, named by the event id that it minted. */
  datatype Call = Call(request: Request, receivedAt: int, shard: int, payloadHash: string, phase: Phase)

  /** Route by external id, then by actor id. */
  function RoutingKey(e: EventInput): string {
    if e.externalEventId != "" then e.externalEventId else e.actor.id
  }

  function RequestContent(r: Request, receivedAt: int): ContentInput {
    ContentInput(r.org, r.project, r.env, receivedAt, r.event)
  }

  /** The 202 body that the call builds before the idempotency gate. */
  function ResponseBody(id: int, c: Call): AcceptedResponse {
    AcceptedResponse(id, c.payloadHash, c.receivedAt, c.request.env, c.shard)
  }

  /** The pending row that the call inserts at time `acceptedAt`. */
  function PendingRowOf(id: int, c: Call, acceptedAt: int): PendingRow {
    PendingRow(id, c.request.org, c.request.project, c.request.env, c.shard,
               NullIfEmpty(c.request.event.externalEventId), c.payloadHash,
               Envelope(c.receivedAt, EncodeEvent(c.request.event)), acceptedAt, c.request.key)
  }

  // ----- sealer transactions -----

  datatype Stage =
    | Locked
    | Drained(batch: seq<PendingRow>)
    | LookedUp(batch: seq<PendingRow>, already: set<string>)

  /** A sealer that holds a chain row.  `created`: the row is its own uncommitted insert. */
  datatype Txn = Txn(shard: ShardKey, chain: ChainRow, created: bool, stage: Stage)

  function ShardOf(p: PendingRow): ShardKey {
    ShardKey(p.env, p.shard)
  }

  /** ORDER BY accepted_at ASC, id ASC. */
  predicate Before(a: PendingRow, b: PendingRow) {
    a.acceptedAt < b.acceptedAt || (a.acceptedAt == b.acceptedAt && a.id < b.id)
  }

  predicate PendingInShard(pending: map<int, PendingRow>, shard: ShardKey, p: PendingRow) {
    p.id in pending && pending[p.id] == p && ShardOf(p) == shard
  }

  /** The result of DrainPendingForShard: the first `limit` rows of the shard, in order. */
  predicate IsDrain(pending: map<int, PendingRow>, shard: ShardKey, limit: nat, batch: seq<PendingRow>) {
    && |batch| <= limit
    && (forall i :: 0 <= i < |batch| ==> PendingInShard(pending, shard, batch[i]))
    && (forall i, j :: 0 <= i < j < |batch| ==> Before(batch[i], batch[j]))
    && (forall id :: id in pending && ShardOf(pending[id]) == shard && pending[id] !in batch ==>
          |batch| == limit && forall i :: 0 <= i < |batch| ==> Before(batch[i], pending[id]))
  }

  /** ExistingExternalEventIDs: which of the candidates the environment's journal holds. */
  function ExistingExternals(events: seq<EventRow>, env: string, candidates: set<string>): set<string> {
    set i | 0 <= i < |events| && events[i].env == env && events[i].externalId.Some?
            && events[i].externalId.value in candidates :: events[i].externalId.value
  }

  /** The primary key of the events table. */
  predicate UniqueIds(events: seq<EventRow>) {
    forall i, j :: 0 <= i < j < |events| ==> events[i].id != events[j].id
  }

  /** The unique index on (environment_id, external_event_id), where the latter is not null. */
  predicate UniqueExternals(events: seq<EventRow>) {
    forall i, j :: 0 <= i < j < |events| && events[i].env == events[j].env && events[i].externalId.Some? ==>
      events[i].externalId != events[j].externalId
  }

  function Remove(pending: map<int, PendingRow>, batch: seq<PendingRow>): map<int, PendingRow> {
    pending - (set i | 0 <= i < |batch| :: batch[i].id)
  }

  /** The journal rows that a transaction would copy. */
  function NewRows(H: Digest, chain: ChainRow, batch: seq<PendingRow>, already: set<string>): seq<EventRow> {
    BatchRows(H, chain.id, chain.project, chain.latestHash.GetOr(""), chain.latestPosition, batch, already)
  }

  /** The tables after a batch has been sealed; a batch of duplicates only deletes its rows. */
  function SealedTables(H: Digest, t: Tables, shard: ShardKey, chain: ChainRow,
                        batch: seq<PendingRow>, already: set<string>): Tables {
    var rows := NewRows(H, chain, batch, already);
    var t' := t.(pending := Remove(t.pending, batch));
    if rows == [] then t'.(chains := t.chains[shard := chain])
    else
      var tip := TipHash("", rows);
      var last := chain.latestPosition + |rows|;
      t'.(events := t.events + rows,
          chains := t.chains[shard := chain.(latestPosition := last, latestHash := Some(tip))],
          checkpoints := t.checkpoints
            + [Checkpoint(chain.org, chain.project, shard.env, chain.id, chain.latestPosition + 1, last, tip, |rows|)])
  }

  /** The copy into the journal breaks neither the primary key nor the unique index. */
  predicate CopySucceeds(H: Digest, t: Tables, chain: ChainRow, batch: seq<PendingRow>, already: set<string>) {
    var events := t.events + NewRows(H, chain, batch, already);
    UniqueIds(events) && UniqueExternals(events)
  }

  // ----- the machine -----

  /** `drained` is a history variable: what has been deleted from each shard's queue, in order. */
  datatype State = State(tables: Tables, calls: map<int, Call>, txns: map<int, Txn>,
                         drained: map<ShardKey, seq<PendingRow>>)

  const INIT := State(Tables(map[], map[], map[], [], []), map[], map[], map[])

  datatype Step =
    | Arrive(id: int, request: Request, now: int, shard: int)
    | Claim(id: int)
    | Replay(id: int)
    | Insert(id: int, acceptedAt: int)
    | Fail(id: int)
    | Lock(sealer: int, key: ShardKey, chainId: string)
    | Drain(sealer: int, limit: nat, batch: seq<PendingRow>)
    | LookUp(sealer: int)
    | Commit(sealer: int)
    | Abort(sealer: int)

  function DrainedOf(drained: map<ShardKey, seq<PendingRow>>, shard: ShardKey): seq<PendingRow> {
    if shard in drained then drained[shard] else []
  }

  predicate LockHeld(s: State, key: ShardKey) {
    exists k :: k in s.txns && s.txns[k].shard == key
  }

  /** gen_random_uuid: unlike every chain id in use. */
  predicate FreshChainId(s: State, chainId: string) {
    && (forall sh :: sh in s.tables.chains ==> s.tables.chains[sh].id != chainId)
    && (forall k :: k in s.txns ==> s.txns[k].chain.id != chainId)
  }

  function IdempotencyKey(r: Request): (string, string) {
    (r.org, r.key)
  }

  /** The payload is hashed after the receive time has been truncated to milliseconds. */
  function HashOfRequest(cfg: Config, r: Request, now: int): Option<string> {
    ContentHash(cfg.digest, cfg.canonical, RequestContent(r, TruncateMilli(now)))
  }

  predicate Enabled(cfg: Config, s: State, step: Step) {
    match step
    case Arrive(id, request, now, shard) =>
      id !in s.calls && IsIndexFor(cfg.fnv, RoutingKey(request.event), cfg.shardCount, shard)
      && HashOfRequest(cfg, request, now).Some?
    case Claim(id) => id in s.calls && s.calls[id].phase.Hashed? && s.calls[id].request.key != ""
    case Replay(id) => id in s.calls && s.calls[id].phase.Outbid?
                       && IdempotencyKey(s.calls[id].request) in s.tables.idempotency
    case Insert(id, _) =>
      id in s.calls && (s.calls[id].phase.Claimed? || (s.calls[id].phase.Hashed? && s.calls[id].request.key == ""))
    case Fail(id) => id in s.calls && (s.calls[id].phase.Hashed? || s.calls[id].phase.Claimed? || s.calls[id].phase.Outbid?)
    case Lock(k, key, chainId) =>
      k !in s.txns && !LockHeld(s, key) && (key in s.tables.chains || (key.env in cfg.envs && FreshChainId(s, chainId)))
    case Drain(k, limit, batch) =>
      k in s.txns && s.txns[k].stage.Locked? && IsDrain(s.tables.pending, s.txns[k].shard, limit, batch)
    case LookUp(k) => k in s.txns && s.txns[k].stage.Drained?
    case Commit(k) => k in s.txns && s.txns[k].stage.LookedUp?
    case Abort(k) => k in s.txns
  }

  function WithPhase(s: State, id: int, phase: Phase): State
    requires id in s.calls
  {
    s.(calls := s.calls[id := s.calls[id].(phase := phase)])
  }

  function NewChain(cfg: Config, key: ShardKey, chainId: string): ChainRow
    requires key.env in cfg.envs
  {
    ChainRow(chainId, cfg.envs[key.env].org, cfg.envs[key.env].project, 0, None)
  }

  function Close(s: State, k: int): State {
    s.(txns := s.txns - {k})
  }

  function ApplyClaim(s: State, id: int): State
    requires id in s.calls
  {
    var c := s.calls[id];
    var key := IdempotencyKey(c.request);
    if key in s.tables.idempotency then WithPhase(s, id, Outbid)
    else
      var t := s.tables.(idempotency := s.tables.idempotency[key := ResponseBody(id, c)]);
      WithPhase(s.(tables := t), id, Claimed)
  }

  function ApplyInsert(s: State, id: int, acceptedAt: int): State
    requires id in s.calls
  {
    var row := PendingRowOf(id, s.calls[id], acceptedAt);
    WithPhase(s.(tables := s.tables.(pending := s.tables.pending[id := row])), id, Accepted)
  }

  function ApplyLock(cfg: Config, s: State, k: int, key: ShardKey, chainId: string): State
    requires key in s.tables.chains || key.env in cfg.envs
  {
    var txn := if key in s.tables.chains then Txn(key, s.tables.chains[key], false, Locked)
               else Txn(key, NewChain(cfg, key, chainId), true, Locked);
    s.(txns := s.txns[k := txn])
  }

  /** Nothing pending: the transaction commits with at most its new chain row. */
  function ApplyDrain(s: State, k: int, batch: seq<PendingRow>): State
    requires k in s.txns
  {
    var txn := s.txns[k];
    if batch == [] then Close(s.(tables := s.tables.(chains := s.tables.chains[txn.shard := txn.chain])), k)
    else s.(txns := s.txns[k := txn.(stage := Drained(batch))])
  }

  function ApplyLookUp(s: State, k: int): State
    requires k in s.txns && s.txns[k].stage.Drained?
  {
    var txn := s.txns[k];
    var batch := txn.stage.batch;
    var already := ExistingExternals(s.tables.events, txn.shard.env, Externals(batch));
    s.(txns := s.txns[k := txn.(stage := LookedUp(batch, already))])
  }

  /** Everything becomes visible at once, or, if the copy breaks a constraint, nothing does. */
  function ApplyCommit(cfg: Config, s: State, k: int): State
    requires k in s.txns && s.txns[k].stage.LookedUp?
  {
    var txn := s.txns[k];
    var batch, already := txn.stage.batch, txn.stage.already;
    if !CopySucceeds(cfg.digest, s.tables, txn.chain, batch, already) then Close(s, k)
    else
      Close(s.(tables := SealedTables(cfg.digest, s.tables, txn.shard, txn.chain, batch, already),
               drained := s.drained[txn.shard := DrainedOf(s.drained, txn.shard) + batch]), k)
  }

  function Apply(cfg: Config, s: State, step: Step): State
    requires Enabled(cfg, s, step)
  {
    match step
    case Arrive(id, request, now, shard) =>
      var c := Call(request, TruncateMilli(now), shard, HashOfRequest(cfg, request, now).value, Hashed);
      s.(calls := s.calls[id := c])
    case Claim(id) => ApplyClaim(s, id)
    case Replay(id) => WithPhase(s, id, Replayed(s.tables.idempotency[IdempotencyKey(s.calls[id].request)]))
    case Insert(id, acceptedAt) => ApplyInsert(s, id, acceptedAt)
    case Fail(id) => WithPhase(s, id, Failed)
    case Lock(k, key, chainId) => ApplyLock(cfg, s, k, key, chainId)
    case Drain(k, _, batch) => ApplyDrain(s, k, batch)
    case LookUp(k) => ApplyLookUp(s, k)
    case Commit(k) => ApplyCommit(cfg, s, k)
    case Abort(k) => Close(s, k)
  }

  // ----- runs -----

  predicate Executable(cfg: Config, s: State, steps: seq<Step>)
    decreases |steps|
  {
    steps == [] || (Enabled(cfg, s, steps[0]) && Executable(cfg, Apply(cfg, s, steps[0]), steps[1..]))
  }

  function Exec(cfg: Config, s: State, steps: seq<Step>): State
    requires Executable(cfg, s, steps)
    decreases |steps|
  {
    if steps == [] then s else Exec(cfg, Apply(cfg, s, steps[0]), steps[1..])
  }

  /** Some run of the machine leads to s. */
  ghost predicate Reachable(cfg: Config, s: State) {
    exists steps :: Executable(cfg, INIT, steps) && Exec(cfg, INIT, steps) == s
  }

  /** Some run leads from s to t. */
  ghost predicate Later(cfg: Config, s: State, t: State) {
    exists steps :: Executable(cfg, s, steps) && Exec(cfg, s, steps) == t
  }

  lemma {:induction false} ExecAppend(cfg: Config, s: State, a: seq<Step>, b: seq<Step>)
    requires Executable(cfg, s, a)
    requires Executable(cfg, Exec(cfg, s, a), b)
    ensures Executable(cfg, s, a + b)
    ensures Exec(cfg, s, a + b) == Exec(cfg, Exec(cfg, s, a), b)
    decreases |a|
  {
    hide Enabled, Apply;
    if a == [] {
      assert a + b == b;
    } else {
      assert (a + b)[0] == a[0] && (a + b)[1..] == a[1..] + b;
      ExecAppend(cfg, Apply(cfg, s, a[0]), a[1..], b);
    }
  }
}
