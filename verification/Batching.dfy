/** Batching does not matter: while nothing new is inserted into a shard's queue, every schedule of
    sealers, limits, aborts and retries leads to the one-pass log of the queue, and sealing rounds
    empty it. */
module Batching {
  import opened HashChain
  import opened Tables
  import opened Sealing
  import opened Shard
  import opened Protocol
  import opened Invariants
  import opened Preservation
  import opened CommitStep
  import opened Safety
  import opened History
  import opened Ordering
  import opened ServerChains
  import opened StoredVerification
  import opened Content
  import opened SealRuns

  // ----- the queue of a shard -----

  predicate InOrder(q: seq<PendingRow>) {
    forall i, j :: 0 <= i < j < |q| ==> Before(q[i], q[j])
  }

  /** All pending rows of the shard, in drain order. */
  predicate IsQueue(pending: map<int, PendingRow>, shard: ShardKey, q: seq<PendingRow>) {
    && InOrder(q)
    && (forall i :: 0 <= i < |q| ==> PendingInShard(pending, shard, q[i]))
    && (forall p :: p in pending.Values && PendingInShard(pending, shard, p) ==> p in q)
  }

  function Min(a: nat, b: nat): nat {
    if a <= b then a else b
  }

  lemma QueueHas(pending: map<int, PendingRow>, shard: ShardKey, q: seq<PendingRow>, p: PendingRow) returns (i: nat)
    requires IsQueue(pending, shard, q) && PendingInShard(pending, shard, p)
    ensures i < |q| && q[i] == p
  {
    assert p in pending.Values;
    i :| 0 <= i < |q| && q[i] == p;
  }

  lemma BeforeIsStrict(a: PendingRow, b: PendingRow)
    ensures !(Before(a, b) && Before(b, a))
    ensures !Before(a, a)
  {
  }

  /** A drain skips nothing: its row i comes before every row that its first i rows left. */
  lemma NothingSkipped(pending: map<int, PendingRow>, shard: ShardKey, limit: nat, batch: seq<PendingRow>, i: nat,
                       p: PendingRow)
    requires IsDrain(pending, shard, limit, batch) && i < |batch|
    requires PendingInShard(pending, shard, p) && forall k :: 0 <= k < i ==> batch[k] != p
    ensures p == batch[i] || Before(batch[i], p)
  {
    if p in batch {
      var k :| 0 <= k < |batch| && batch[k] == p;
      assert k > i ==> Before(batch[i], batch[k]);
    } else {
      assert pending[p.id] !in batch;
    }
  }

  /** Row i of a drain is row i of the queue. */
  lemma {:induction false} DrainedRowIs(pending: map<int, PendingRow>, shard: ShardKey, limit: nat, batch: seq<PendingRow>,
                                        q: seq<PendingRow>, i: nat)
    requires IsDrain(pending, shard, limit, batch) && IsQueue(pending, shard, q) && i < |batch|
    ensures i < |q| && batch[i] == q[i]
    decreases i
  {
    hide PendingInShard, Before;
    forall k | 0 <= k < i ensures k < |q| && batch[k] == q[k] {
      DrainedRowIs(pending, shard, limit, batch, q, k);
    }
    var j := QueueHas(pending, shard, q, batch[i]);
    BeforeIsStrict(batch[i], batch[i]);
    assert forall k :: 0 <= k < i ==> Before(batch[k], batch[i]);
    assert j >= i;
    BeforeIsStrict(q[i], q[i]);
    assert forall k :: 0 <= k < i ==> Before(q[k], q[i]);
    NothingSkipped(pending, shard, limit, batch, i, q[i]);
    BeforeIsStrict(q[i], batch[i]);
  }

  /** A drain takes a prefix of the queue: as many rows as the limit allows. */
  lemma DrainIsPrefix(pending: map<int, PendingRow>, shard: ShardKey, limit: nat, batch: seq<PendingRow>,
                      q: seq<PendingRow>)
    requires IsDrain(pending, shard, limit, batch) && IsQueue(pending, shard, q)
    ensures batch == q[..Min(limit, |q|)]
  {
    forall i | 0 <= i < |batch| ensures i < |q| && batch[i] == q[i] {
      DrainedRowIs(pending, shard, limit, batch, q, i);
    }
    if |batch| > 0 {
      DrainedRowIs(pending, shard, limit, batch, q, |batch| - 1);
    }
    if |batch| < |q| {
      var p := q[|batch|];
      assert PendingInShard(pending, shard, p) && pending[p.id] == p;
      forall i | 0 <= i < |batch| ensures batch[i] != p {
        assert Before(q[i], p);
      }
    }
  }

  /** Conversely the prefix is a drain. */
  lemma PrefixIsDrain(pending: map<int, PendingRow>, shard: ShardKey, limit: nat, q: seq<PendingRow>)
    requires IsQueue(pending, shard, q) && forall id :: id in pending ==> pending[id].id == id
    ensures IsDrain(pending, shard, limit, q[..Min(limit, |q|)])
  {
    var batch := q[..Min(limit, |q|)];
    assert forall k :: 0 <= k < |batch| ==> q[k] == batch[k] && q[k] in batch;
    forall id | id in pending && ShardOf(pending[id]) == shard && pending[id] !in batch
      ensures |batch| == limit && forall i :: 0 <= i < |batch| ==> Before(batch[i], pending[id])
    {
      var j := QueueHas(pending, shard, q, pending[id]);
    }
  }

  /** Deleting a drained prefix leaves the rest of the queue. */
  lemma QueueShrinks(pending: map<int, PendingRow>, shard: ShardKey, q: seq<PendingRow>, n: nat)
    requires IsQueue(pending, shard, q) && n <= |q|
    ensures IsQueue(Remove(pending, q[..n]), shard, q[n..])
  {
    hide Remove;
    var batch, rest, pending' := q[..n], q[n..], Remove(pending, q[..n]);
    forall i | 0 <= i < |rest| ensures PendingInShard(pending', shard, rest[i]) {
      assert rest[i] == q[n + i];
      RemoveSpec(pending, batch, rest[i].id);
      forall k | 0 <= k < n ensures batch[k].id != rest[i].id {
        assert Before(q[k], q[n + i]);
        assert PendingInShard(pending, shard, q[k]) && PendingInShard(pending, shard, q[n + i]);
      }
    }
    forall k | 0 <= k < n ensures HasId(batch, q[k].id) {
      assert batch[k] == q[k];
    }
    forall p | p in pending'.Values && PendingInShard(pending', shard, p) ensures p in rest {
      RemoveSpec(pending, batch, p.id);
      var i := QueueHas(pending, shard, q, p);
      assert rest[i - n] == p;
    }
  }

  /** Rows of other shards coming or going leave the queue alone. */
  lemma QueueFrame(pending: map<int, PendingRow>, pending': map<int, PendingRow>, shard: ShardKey, q: seq<PendingRow>)
    requires IsQueue(pending, shard, q)
    requires forall p :: PendingInShard(pending, shard, p) <==> PendingInShard(pending', shard, p)
    ensures IsQueue(pending', shard, q)
  {
    forall p | p in pending'.Values && PendingInShard(pending', shard, p) ensures p in q {
      var i := QueueHas(pending, shard, q, p);
    }
  }

  // ----- quiet runs -----

  /** No step of the run inserts into the shard's queue. */
  predicate Quiet(cfg: Config, s: State, steps: seq<Step>, shard: ShardKey)
    requires Executable(cfg, s, steps)
    decreases |steps|
  {
    steps == [] || (QuietStep(s, steps[0], shard) && Quiet(cfg, Apply(cfg, s, steps[0]), steps[1..], shard))
  }

  predicate QuietStep(s: State, step: Step, shard: ShardKey) {
    step.Insert? && step.id in s.calls ==> CallShard(s.calls[step.id]) != shard
  }

  /** n rows of the queue are sealed, the rest is pending, and every batch in flight is a prefix
      of the rest. */
  predicate Progress(s: State, shard: ShardKey, history: seq<PendingRow>, q: seq<PendingRow>, n: nat) {
    && n <= |q|
    && DrainedOf(s.drained, shard) == history + q[..n]
    && IsQueue(s.tables.pending, shard, q[n..])
    && (forall k :: k in s.txns && s.txns[k].shard == shard ==> BatchOf(s.txns[k]) <= q[n..])
  }

  /** A sealed prefix moves from the queue to the history. */
  lemma PrefixMoves(pending: map<int, PendingRow>, shard: ShardKey, history: seq<PendingRow>, q: seq<PendingRow>, n: nat,
                    batch: seq<PendingRow>)
    requires n <= |q| && IsQueue(pending, shard, q[n..]) && batch <= q[n..]
    ensures n + |batch| <= |q| && IsQueue(Remove(pending, batch), shard, q[n + |batch|..])
    ensures history + q[..n] + batch == history + q[..n + |batch|]
  {
    hide IsQueue, Remove;
    var n' := n + |batch|;
    assert q[n..][..|batch|] == batch && q[n..][|batch|..] == q[n'..] && q[..n] + batch == q[..n'];
    QueueShrinks(pending, shard, q[n..], |batch|);
  }

  lemma NoOtherHolder(txns: map<int, Txn>, k: int, j: int)
    requires Exclusive(txns) && k in txns && j in txns && j != k
    ensures txns[j].shard != txns[k].shard
  {
  }

  lemma TxnsExclude(cfg: Config, s: State)
    requires Inv(cfg, s)
    ensures Exclusive(s.txns)
  {
    hide QueuesOk, CallsOk, JournalOk, TxnChainOk, StageOk, Exclusive;
  }

  /** What a commit of the shard does to its queue and its history. */
  lemma PrefixCommitted(s: State, s': State, k: int, batch: seq<PendingRow>, history: seq<PendingRow>,
                        q: seq<PendingRow>, n: nat)
    requires k in s.txns && Exclusive(s.txns) && BatchOf(s.txns[k]) == batch
    requires Progress(s, s.txns[k].shard, history, q, n)
    requires s'.tables.pending == Remove(s.tables.pending, batch) && s'.txns == s.txns - {k}
    requires DrainedOf(s'.drained, s.txns[k].shard) == DrainedOf(s.drained, s.txns[k].shard) + batch
    ensures Progress(s', s.txns[k].shard, history, q, n + |batch|)
  {
    hide Remove, IsQueue, DrainedOf, BatchOf, Exclusive;
    PrefixMoves(s.tables.pending, s.txns[k].shard, history, q, n, batch);
    forall j | j in s'.txns ensures s'.txns[j].shard != s.txns[k].shard {
      NoOtherHolder(s.txns, k, j);
    }
  }

  lemma OwnCommitProgress(cfg: Config, s: State, k: int, history: seq<PendingRow>, q: seq<PendingRow>, n: nat)
    returns (n': nat)
    requires Inv(cfg, s) && k in s.txns && s.txns[k].stage.LookedUp?
    requires Progress(s, s.txns[k].shard, history, q, n)
    ensures Progress(Committed(cfg, s, k), s.txns[k].shard, history, q, n')
  {
    hide Inv, NewRows, SealedTables, Remove, Progress, Exclusive;
    var txn := s.txns[k];
    TxnsExclude(cfg, s);
    SealedTablesParts(cfg.digest, s.tables, txn.shard, txn.chain, txn.stage.batch, txn.stage.already);
    n' := n + |txn.stage.batch|;
    PrefixCommitted(s, Committed(cfg, s, k), k, txn.stage.batch, history, q, n);
  }

  lemma OtherCommitProgress(cfg: Config, s: State, k: int, shard: ShardKey, history: seq<PendingRow>,
                            q: seq<PendingRow>, n: nat)
    requires Inv(cfg, s) && k in s.txns && s.txns[k].stage.LookedUp? && s.txns[k].shard != shard
    requires Progress(s, shard, history, q, n)
    ensures Progress(Committed(cfg, s, k), shard, history, q, n)
  {
    hide QueuesOk, CallsOk, JournalOk, TxnsOk, NewRows, SealedTables, Remove, IsQueue, BatchOk;
    var txn := s.txns[k];
    var batch, s' := txn.stage.batch, Committed(cfg, s, k);
    LookedUpFacts(cfg, s, k);
    SealedTablesParts(cfg.digest, s.tables, txn.shard, txn.chain, batch, txn.stage.already);
    ForeignRemove(s.tables.pending, shard, txn.shard, batch, q[n..]);
    assert DrainedOf(s'.drained, shard) == DrainedOf(s.drained, shard);
  }

  lemma ForeignRemove(pending: map<int, PendingRow>, shard: ShardKey, other: ShardKey, batch: seq<PendingRow>,
                      q: seq<PendingRow>)
    requires BatchOk(pending, other, batch) && other != shard && IsQueue(pending, shard, q)
    ensures IsQueue(Remove(pending, batch), shard, q)
  {
    hide BatchOk, Remove, IsQueue;
    var pending' := Remove(pending, batch);
    forall p ensures PendingInShard(pending, shard, p) <==> PendingInShard(pending', shard, p) {
      if PendingInShard(pending, shard, p) {
        NotInForeignBatch(pending, shard, other, batch, p);
        StaysPending(pending, shard, other, batch, p);
      }
      RemoveSpec(pending, batch, p.id);
    }
    QueueFrame(pending, pending', shard, q);
  }

  lemma InsertedShard(id: int, c: Call, acceptedAt: int)
    ensures ShardOf(PendingRowOf(id, c, acceptedAt)) == CallShard(c) && PendingRowOf(id, c, acceptedAt).id == id
  {
  }

  /** A new row of another shard leaves the queue alone. */
  lemma InsertedElsewhere(pending: map<int, PendingRow>, row: PendingRow, shard: ShardKey, q: seq<PendingRow>)
    requires IsQueue(pending, shard, q) && row.id !in pending && ShardOf(row) != shard
    ensures IsQueue(pending[row.id := row], shard, q)
  {
    hide IsQueue;
    QueueFrame(pending, pending[row.id := row], shard, q);
  }

  lemma InsertProgress(cfg: Config, s: State, id: int, acceptedAt: int, shard: ShardKey, history: seq<PendingRow>,
                       q: seq<PendingRow>, n: nat)
    requires Inv(cfg, s) && Enabled(cfg, s, Insert(id, acceptedAt)) && QuietStep(s, Insert(id, acceptedAt), shard)
    requires Progress(s, shard, history, q, n)
    ensures Progress(ApplyInsert(s, id, acceptedAt), shard, history, q, n)
  {
    InsertedIsNew(cfg, s, id, acceptedAt);
    assert id in s.calls;
    hide Inv, Enabled, IsQueue, Progress, PendingRowOf, ShardOf;
    ProgressQueue(s, shard, history, q, n);
    var row := PendingRowOf(id, s.calls[id], acceptedAt);
    InsertedShard(id, s.calls[id], acceptedAt);
    InsertedElsewhere(s.tables.pending, row, shard, q[n..]);
    ProgressFrame(s, ApplyInsert(s, id, acceptedAt), shard, history, q, n);
  }

  /** Steps that move no row of the shard and give its transactions no new batch. */
  lemma ProgressFrame(s: State, s': State, shard: ShardKey, history: seq<PendingRow>, q: seq<PendingRow>, n: nat)
    requires Progress(s, shard, history, q, n)
    requires s'.drained == s.drained && IsQueue(s'.tables.pending, shard, q[n..])
    requires forall k :: k in s'.txns && s'.txns[k].shard == shard ==>
               BatchOf(s'.txns[k]) <= q[n..] || SameBatch(s, s', shard, k)
    ensures Progress(s', shard, history, q, n)
  {
    hide IsQueue;
  }

  lemma DrainProgress(cfg: Config, s: State, k: int, limit: nat, batch: seq<PendingRow>, shard: ShardKey,
                      history: seq<PendingRow>, q: seq<PendingRow>, n: nat)
    requires Enabled(cfg, s, Drain(k, limit, batch)) && Progress(s, shard, history, q, n)
    ensures Progress(ApplyDrain(s, k, batch), shard, history, q, n)
  {
    hide IsDrain, IsQueue;
    if s.txns[k].shard == shard {
      DrainIsPrefix(s.tables.pending, shard, limit, batch, q[n..]);
    }
    ProgressFrame(s, ApplyDrain(s, k, batch), shard, history, q, n);
  }

  lemma StepProgress(cfg: Config, s: State, step: Step, shard: ShardKey, history: seq<PendingRow>,
                     q: seq<PendingRow>, n: nat)
    returns (n': nat)
    requires Inv(cfg, s) && Enabled(cfg, s, step) && QuietStep(s, step, shard)
    requires Progress(s, shard, history, q, n)
    ensures Progress(Apply(cfg, s, step), shard, history, q, n')
  {
    hide Inv, IsDrain, IsIndexFor, HashOfRequest, ApplyCommit, Committed, ResponseBody, ExistingExternals,
         ApplyInsert, ApplyDrain,
         Progress;
    n' := n;
    assert n <= |q| && IsQueue(s.tables.pending, shard, q[n..]) by {
      ProgressQueue(s, shard, history, q, n);
    }
    hide IsQueue;
    match step
    case Commit(k) =>
      CopyAlwaysSucceeds(cfg, s, k);
      if s.txns[k].shard == shard {
        n' := OwnCommitProgress(cfg, s, k, history, q, n);
      } else {
        OtherCommitProgress(cfg, s, k, shard, history, q, n);
      }
    case Insert(id, acceptedAt) => InsertProgress(cfg, s, id, acceptedAt, shard, history, q, n);
    case Drain(k, limit, batch) => DrainProgress(cfg, s, k, limit, batch, shard, history, q, n);
    case _ => ProgressFrame(s, Apply(cfg, s, step), shard, history, q, n);
  }

  lemma ProgressQueue(s: State, shard: ShardKey, history: seq<PendingRow>, q: seq<PendingRow>, n: nat)
    requires Progress(s, shard, history, q, n)
    ensures n <= |q| && IsQueue(s.tables.pending, shard, q[n..])
  {
  }

  lemma {:induction false} RunProgress(cfg: Config, s: State, steps: seq<Step>, shard: ShardKey,
                                       history: seq<PendingRow>, q: seq<PendingRow>, n: nat) returns (n': nat)
    requires Inv(cfg, s) && Executable(cfg, s, steps) && Quiet(cfg, s, steps, shard)
    requires Progress(s, shard, history, q, n)
    ensures Progress(Exec(cfg, s, steps), shard, history, q, n')
    decreases |steps|
  {
    hide Inv, Enabled, Apply, Progress, QuietStep;
    n' := n;
    if steps == [] {
    } else {
      n' := StepProgress(cfg, s, steps[0], shard, history, q, n);
      StepKeepsInv(cfg, s, steps[0]);
      n' := RunProgress(cfg, Apply(cfg, s, steps[0]), steps[1..], shard, history, q, n');
    }
  }

  lemma ProgressStarts(s: State, shard: ShardKey, q: seq<PendingRow>)
    requires IsQueue(s.tables.pending, shard, q) && !LockHeld(s, shard)
    ensures Progress(s, shard, DrainedOf(s.drained, shard), q, 0)
  {
    assert q[0..] == q;
  }

  /** At any time of a quiet run the chain is the one-pass log of what was drained before and a
      prefix of the queue, and the rest of the queue is still pending. */
  lemma QuietRunSealsPrefix(cfg: Config, s: State, steps: seq<Step>, shard: ShardKey, q: seq<PendingRow>)
    returns (n: nat)
    requires Reachable(cfg, s) && !LockHeld(s, shard) && IsQueue(s.tables.pending, shard, q)
    requires Executable(cfg, s, steps) && Quiet(cfg, s, steps, shard)
    ensures var s' := Exec(cfg, s, steps);
            && n <= |q| && IsQueue(s'.tables.pending, shard, q[n..])
            && DrainedOf(s'.drained, shard) == DrainedOf(s.drained, shard) + q[..n]
            && (shard in s'.tables.chains ==>
                  var chain := s'.tables.chains[shard];
                  && ServerChain(s', shard)
                     == SealedLog(cfg.digest, chain.id, chain.project, DrainedOf(s.drained, shard) + q[..n])
                  && chain.latestPosition == |ServerChain(s', shard)|
                  && chain.latestHash == NullIfEmpty(TipHash("", ServerChain(s', shard))))
  {
    hide Reachable, Inv, Executable, Exec, Quiet, IsQueue, SealedLog, ServerChain, LockHeld;
    ReachableInv(cfg, s);
    ProgressStarts(s, shard, q);
    n := RunProgress(cfg, s, steps, shard, DrainedOf(s.drained, shard), q, 0);
    RunKeepsInv(cfg, s, steps);
    var s' := Exec(cfg, s, steps);
    if shard in s'.tables.chains {
      ServerChainIsLog(cfg, s', shard);
    }
  }

  // ----- schedules that empty the queue -----

  /** The journal rows of the shard so far; none if it has no chain yet. */
  function RowsSoFar(s: State, shard: ShardKey): seq<EventRow> {
    if shard in s.tables.chains then ServerChain(s, shard) else []
  }

  /** The same rows in a chain of another id: nothing that is hashed depends on it. */
  function InChainOf(rows: seq<EventRow>, id: string): (r: seq<EventRow>)
    ensures |r| == |rows| && forall i :: 0 <= i < |r| ==> r[i] == rows[i].(chainId := id)
  {
    seq(|rows|, i requires 0 <= i < |rows| => rows[i].(chainId := id))
  }

  lemma {:induction false} LinkRowsInChainOf(H: Digest, id: string, id': string, project: string, prev: string, start: int,
                                             rows: seq<PendingRow>)
    ensures LinkRows(H, id', project, prev, start, rows) == InChainOf(LinkRows(H, id, project, prev, start, rows), id')
  {
    hide EventHash, RawPayload, EnvelopeExternalId, TimestampColumn, NullIfEmpty;
    if rows == [] {
    } else {
      var init, last := rows[..|rows| - 1], rows[|rows| - 1];
      LinkRowsInChainOf(H, id, id', project, prev, start, init);
      var done := LinkRows(H, id, project, prev, start, init);
      assert TipHash(prev, InChainOf(done, id')) == TipHash(prev, done);
    }
  }

  /** The rows and the chain row after the whole queue was sealed in one batch, under a chain id. */
  predicate IsOneBatch(cfg: Config, s: State, shard: ShardKey, q: seq<PendingRow>, rows: seq<EventRow>,
                       row: ChainRow) {
    && shard.env in cfg.envs
    && (var chain := LockedChain(cfg, s.tables, shard, row.id);
        && rows == RowsSoFar(s, shard) + NewRows(cfg.digest, chain, q, Externals(DrainedOf(s.drained, shard)))
        && row == ChainRow(chain.id, chain.org, chain.project, |rows|, NullIfEmpty(TipHash("", rows))))
  }

  /** Any two quiet runs that empty the queue leave the same journal rows, positions, hashes and tip
      for the shard, namely those of sealing the whole queue in one batch; only the id of a chain
      that did not exist before may differ. */
  lemma BatchingDoesNotMatter(cfg: Config, s: State, shard: ShardKey, q: seq<PendingRow>, a: seq<Step>, b: seq<Step>)
    requires Reachable(cfg, s) && !LockHeld(s, shard) && IsQueue(s.tables.pending, shard, q)
    requires shard in s.tables.chains || q != []
    requires Executable(cfg, s, a) && Quiet(cfg, s, a, shard) && IsQueue(Exec(cfg, s, a).tables.pending, shard, [])
    requires Executable(cfg, s, b) && Quiet(cfg, s, b, shard) && IsQueue(Exec(cfg, s, b).tables.pending, shard, [])
    ensures var x, y := Exec(cfg, s, a), Exec(cfg, s, b);
            && shard in x.tables.chains && shard in y.tables.chains
            && IsOneBatch(cfg, s, shard, q, ServerChain(x, shard), x.tables.chains[shard])
            && ServerChain(y, shard) == InChainOf(ServerChain(x, shard), y.tables.chains[shard].id)
            && y.tables.chains[shard] == x.tables.chains[shard].(id := y.tables.chains[shard].id)
            && (shard in s.tables.chains ==> x.tables.chains[shard].id == y.tables.chains[shard].id == s.tables.chains[shard].id)
  {
    hide Reachable, Inv, Executable, Exec, Quiet, IsQueue, IsOneBatch, ServerChain, LockHeld;
    EmptiedIsOneBatch(cfg, s, shard, q, a);
    EmptiedIsOneBatch(cfg, s, shard, q, b);
    var x, y := Exec(cfg, s, a), Exec(cfg, s, b);
    ReachableInv(cfg, s);
    OneBatchPerId(cfg, s, shard, q, ServerChain(x, shard), x.tables.chains[shard], ServerChain(y, shard), y.tables.chains[shard]);
  }

  lemma OneBatchPerId(cfg: Config, s: State, shard: ShardKey, q: seq<PendingRow>, rows: seq<EventRow>, row: ChainRow,
                      rows': seq<EventRow>, row': ChainRow)
    requires Inv(cfg, s)
    requires IsOneBatch(cfg, s, shard, q, rows, row) && IsOneBatch(cfg, s, shard, q, rows', row')
    ensures rows' == InChainOf(rows, row'.id) && row' == row.(id := row'.id)
    ensures shard in s.tables.chains ==> row.id == row'.id == s.tables.chains[shard].id
  {
    hide Inv, LinkRows, FirstOccurrences;
    var chain := LockedChain(cfg, s.tables, shard, row.id);
    LinkRowsInChainOf(cfg.digest, row.id, row'.id, chain.project, chain.latestHash.GetOr(""), chain.latestPosition + 1,
                      FirstOccurrences(q, Externals(DrainedOf(s.drained, shard))));
    assert rows' == InChainOf(rows, row'.id);
    assert |rows| > 0 ==> rows'[|rows| - 1].eventHash == rows[|rows| - 1].eventHash;
  }

  lemma EmptyQueueUnique(pending: map<int, PendingRow>, shard: ShardKey, q: seq<PendingRow>)
    requires IsQueue(pending, shard, []) && IsQueue(pending, shard, q)
    ensures q == []
  {
    if q != [] {
      var i := QueueHas(pending, shard, [], q[0]);
    }
  }

  /** The chain that a sealer would lock is the log of the shard's history, existing or not. */
  lemma LockedChainIsLog(cfg: Config, s: State, shard: ShardKey, id: string)
    requires Inv(cfg, s) && shard.env in cfg.envs
    ensures var chain, log := LockedChain(cfg, s.tables, shard, id), RowsSoFar(s, shard);
            && log == SealedLog(cfg.digest, chain.id, chain.project, DrainedOf(s.drained, shard))
            && chain.latestPosition == |log| && chain.latestHash == NullIfEmpty(TipHash("", log))
            && chain.org == cfg.envs[shard.env].org && chain.project == cfg.envs[shard.env].project
  {
    if shard in s.tables.chains {
      hide Inv, SealedLog, ServerChain;
      ServerChainIsLog(cfg, s, shard);
      ChainProject(cfg, s, shard);
    } else {
      NoChainNoHistory(cfg, s, shard);
      EmptyLog(cfg.digest, id, cfg.envs[shard.env].project);
    }
  }

  lemma NoChainNoHistory(cfg: Config, s: State, shard: ShardKey)
    requires Inv(cfg, s)
    ensures shard !in s.tables.chains ==> DrainedOf(s.drained, shard) == []
  {
    hide CallsOk, QueuesOk, ChainsOk, TxnsOk, EventsOwned;
  }

  lemma EmptiedIsOneBatch(cfg: Config, s: State, shard: ShardKey, q: seq<PendingRow>, steps: seq<Step>)
    requires Reachable(cfg, s) && !LockHeld(s, shard) && IsQueue(s.tables.pending, shard, q)
    requires shard in s.tables.chains || q != []
    requires Executable(cfg, s, steps) && Quiet(cfg, s, steps, shard)
    requires IsQueue(Exec(cfg, s, steps).tables.pending, shard, [])
    ensures var s' := Exec(cfg, s, steps);
            shard in s'.tables.chains && IsOneBatch(cfg, s, shard, q, ServerChain(s', shard), s'.tables.chains[shard])
  {
    hide Reachable, Inv, Executable, Exec, Quiet, IsQueue, SealedLog, ServerChain, LockHeld, NewRows, RowsSoFar,
         DrainedOf;
    var s' := Exec(cfg, s, steps);
    var n := QuietRunSealsPrefix(cfg, s, steps, shard, q);
    EmptyQueueUnique(s'.tables.pending, shard, q[n..]);
    assert q[..n] == q;
    ReachableInv(cfg, s);
    RunExtends(cfg, s, steps);
    RunKeepsInv(cfg, s, steps);
    NoChainNoHistory(cfg, s', shard);
    assert q != [] ==> DrainedOf(s.drained, shard) + q != [];
    ChainProject(cfg, s', shard);
    var id := s'.tables.chains[shard].id;
    LockedChainIsLog(cfg, s, shard, id);
    OneMoreBatch(cfg.digest, LockedChain(cfg, s.tables, shard, id), RowsSoFar(s, shard), DrainedOf(s.drained, shard), q);
  }

  lemma OneMoreBatch(H: Digest, chain: ChainRow, log: seq<EventRow>, drained: seq<PendingRow>, q: seq<PendingRow>)
    requires log == SealedLog(H, chain.id, chain.project, drained)
    requires chain.latestPosition == |log| && chain.latestHash == NullIfEmpty(TipHash("", log))
    ensures SealedLog(H, chain.id, chain.project, drained + q) == log + NewRows(H, chain, q, Externals(drained))
  {
    hide SealedLog, BatchRows;
    SealedLogExtends(H, chain.id, chain.project, drained, q);
  }

  // ----- sealing rounds -----

  /** After one uninterrupted round the queue is shorter by min(limit, |q|). */
  lemma RoundShrinksQueue(cfg: Config, s: State, k: int, shard: ShardKey, chainId: string, limit: nat,
                          q: seq<PendingRow>)
    returns (steps: seq<Step>)
    requires Inv(cfg, s) && CanLock(cfg, s, k, shard, chainId) && IsQueue(s.tables.pending, shard, q) && q != [] && limit >= 1
    ensures Executable(cfg, s, steps) && |steps| == 4 && Quiet(cfg, s, steps, shard)
    ensures var s' := Exec(cfg, s, steps);
            && IsQueue(s'.tables.pending, shard, q[Min(limit, |q|)..])
            && CanLock(cfg, s', k, shard, chainId)
  {
    hide Inv, IsDrain, IsQueue, LockHeld, FreshChainId, Executable, Exec, Quiet, SealedTables, Remove;
    var n := Min(limit, |q|);
    var batch := q[..n];
    RowIdsAreKeys(cfg, s);
    PrefixIsDrain(s.tables.pending, shard, limit, q);
    SealIsRun(cfg, s, k, shard, chainId, limit, batch);
    steps := SealSteps(k, shard, chainId, limit, batch);
    QuietWithoutInsert(cfg, s, steps, shard);
    var chain := LockedChain(cfg, s.tables, shard, chainId);
    var already := ExistingExternals(s.tables.events, shard.env, Externals(batch));
    SealedTablesParts(cfg.digest, s.tables, shard, chain, batch, already);
    QueueShrinks(s.tables.pending, shard, q, n);
    SameLocks(s, SealedState(cfg, s, shard, chainId, batch), shard);
  }

  lemma SameLocks(s: State, s': State, shard: ShardKey)
    requires s'.txns == s.txns
    ensures LockHeld(s', shard) == LockHeld(s, shard)
  {
  }

  lemma RowIdsAreKeys(cfg: Config, s: State)
    requires Inv(cfg, s)
    ensures forall id :: id in s.tables.pending ==> s.tables.pending[id].id == id
  {
    hide CallsOk, JournalOk, TxnsOk, DrainedOk, NothingLost, FromCall;
  }

  lemma {:induction false} QuietWithoutInsert(cfg: Config, s: State, steps: seq<Step>, shard: ShardKey)
    requires Executable(cfg, s, steps) && forall i :: 0 <= i < |steps| ==> !steps[i].Insert?
    ensures Quiet(cfg, s, steps, shard)
    decreases |steps|
  {
    hide Enabled, Apply;
    if steps == [] {
    } else {
      assert !steps[0].Insert?;
      QuietWithoutInsert(cfg, Apply(cfg, s, steps[0]), steps[1..], shard);
    }
  }

  lemma {:induction false} QuietAppend(cfg: Config, s: State, a: seq<Step>, b: seq<Step>, shard: ShardKey)
    requires Executable(cfg, s, a) && Quiet(cfg, s, a, shard)
    requires Executable(cfg, Exec(cfg, s, a), b) && Quiet(cfg, Exec(cfg, s, a), b, shard)
    ensures Executable(cfg, s, a + b) && Quiet(cfg, s, a + b, shard)
    decreases |a|
  {
    hide Enabled, Apply;
    ExecAppend(cfg, s, a, b);
    if a == [] {
      assert a + b == b;
    } else {
      assert (a + b)[0] == a[0] && (a + b)[1..] == a[1..] + b;
      QuietAppend(cfg, Apply(cfg, s, a[0]), a[1..], b, shard);
    }
  }

  /** How many rounds a queue of n rows takes. */
  function Rounds(n: nat, limit: nat): nat
    requires limit >= 1
  {
    if n == 0 then 0 else 1 + Rounds(n - Min(limit, n), limit)
  }

  /** It is n / limit, rounded up: the least r with n <= r * limit. */
  lemma {:induction false} RoundsIsCeiling(n: nat, limit: nat)
    requires limit >= 1
    ensures n <= Rounds(n, limit) * limit < n + limit
  {
    if n == 0 {
    } else {
      var rest := Rounds(n - Min(limit, n), limit);
      RoundsIsCeiling(n - Min(limit, n), limit);
      assert (1 + rest) * limit == limit + rest * limit;
      assert n <= limit ==> rest == 0;
    }
  }

  /** Repeated rounds empty the queue. */
  lemma {:induction false} RoundsEmptyQueue(cfg: Config, s: State, k: int, shard: ShardKey, chainId: string, limit: nat,
                                            q: seq<PendingRow>) returns (steps: seq<Step>)
    requires Inv(cfg, s) && CanLock(cfg, s, k, shard, chainId) && IsQueue(s.tables.pending, shard, q) && limit >= 1
    ensures Executable(cfg, s, steps) && Quiet(cfg, s, steps, shard)
    ensures |steps| == 4 * Rounds(|q|, limit)
    ensures IsQueue(Exec(cfg, s, steps).tables.pending, shard, [])
    decreases |q|
  {
    hide Inv, IsQueue, CanLock, Enabled, Apply;
    if q == [] {
      steps := [];
    } else {
      hide Executable, Exec, Quiet;
      var first := RoundShrinksQueue(cfg, s, k, shard, chainId, limit, q);
      RunKeepsInv(cfg, s, first);
      var rest := RoundsEmptyQueue(cfg, Exec(cfg, s, first), k, shard, chainId, limit, q[Min(limit, |q|)..]);
      steps := first + rest;
      ExecAppend(cfg, s, first, rest);
      QuietAppend(cfg, s, first, rest, shard);
    }
  }
}
