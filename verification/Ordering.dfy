/** No overtaking: of two rows that one drain could see, the earlier never gets the larger
    position, whatever aborts, retries and inserts come in between. */
module Ordering {
  import opened HashChain
  import opened Tables
  import opened Sealing
  import opened Shard
  import opened Protocol
  import opened Invariants
  import opened CommitStep
  import opened Safety
  import opened Conservation

  /** Both rows are in one history, a first. */
  predicate DrainedInOrder(history: seq<PendingRow>, a: PendingRow, b: PendingRow) {
    exists i, j :: 0 <= i < j < |history| && history[i] == a && history[j] == b
  }

  function BatchOf(txn: Txn): seq<PendingRow> {
    match txn.stage
    case Locked => []
    case Drained(batch) => batch
    case LookedUp(batch, _) => batch
  }

  /** a is ahead of b: in the queue, leaving the queue, or in the history. */
  predicate Ahead(s: State, shard: ShardKey, a: PendingRow, b: PendingRow) {
    var pending, history := s.tables.pending, DrainedOf(s.drained, shard);
    || (PendingInShard(pending, shard, a) && PendingInShard(pending, shard, b)
        && forall k :: k in s.txns && s.txns[k].shard == shard && b in BatchOf(s.txns[k]) ==> a in BatchOf(s.txns[k]))
    || (a in history && PendingInShard(pending, shard, b))
    || DrainedInOrder(history, a, b)
  }

  /** A drain that takes the later row takes the earlier one. */
  lemma DrainTakesEarlier(pending: map<int, PendingRow>, shard: ShardKey, limit: nat, batch: seq<PendingRow>,
                          a: PendingRow, b: PendingRow)
    requires IsDrain(pending, shard, limit, batch) && PendingInShard(pending, shard, a)
    requires Before(a, b) && b in batch
    ensures a in batch
  {
    var i :| 0 <= i < |batch| && batch[i] == b;
    assert pending[a.id] == a;
    assert a !in batch ==> Before(batch[i], a);
  }

  /** In a sorted batch the earlier row has the smaller index. */
  lemma BatchInOrder(pending: map<int, PendingRow>, shard: ShardKey, history: seq<PendingRow>, batch: seq<PendingRow>,
                     a: PendingRow, b: PendingRow)
    requires BatchOk(pending, shard, batch) && Before(a, b) && a in batch && b in batch
    ensures DrainedInOrder(history + batch, a, b)
  {
    var i :| 0 <= i < |batch| && batch[i] == a;
    var j :| 0 <= j < |batch| && batch[j] == b;
    assert i != j;
    assert j < i ==> Before(batch[j], batch[i]);
    var all := history + batch;
    assert all[|history| + i] == a && all[|history| + j] == b;
  }

  lemma HistoryThenBatch(history: seq<PendingRow>, batch: seq<PendingRow>, a: PendingRow, b: PendingRow)
    requires a in history && b in batch
    ensures DrainedInOrder(history + batch, a, b)
  {
    var i :| 0 <= i < |history| && history[i] == a;
    var j :| 0 <= j < |batch| && batch[j] == b;
    var all := history + batch;
    assert all[i] == a && all[|history| + j] == b;
  }

  lemma OrderPersists(history: seq<PendingRow>, batch: seq<PendingRow>, a: PendingRow, b: PendingRow)
    requires DrainedInOrder(history, a, b)
    ensures DrainedInOrder(history + batch, a, b)
  {
    var i, j :| 0 <= i < j < |history| && history[i] == a && history[j] == b;
    var all := history + batch;
    assert all[i] == a && all[j] == b;
  }

  lemma StaysPending(pending: map<int, PendingRow>, shard: ShardKey, other: ShardKey, batch: seq<PendingRow>,
                     p: PendingRow)
    requires PendingInShard(pending, shard, p) && BatchOk(pending, other, batch) && p !in batch
    ensures PendingInShard(Remove(pending, batch), shard, p)
  {
    RemoveSpec(pending, batch, p.id);
    forall i | 0 <= i < |batch| ensures batch[i].id != p.id {
      assert PendingInShard(pending, other, batch[i]);
    }
  }

  lemma NotInForeignBatch(pending: map<int, PendingRow>, shard: ShardKey, other: ShardKey, batch: seq<PendingRow>,
                          p: PendingRow)
    requires PendingInShard(pending, shard, p) && BatchOk(pending, other, batch) && other != shard
    ensures p !in batch
  {
  }

  lemma CommitKeepsAhead(cfg: Config, s: State, k: int, shard: ShardKey, a: PendingRow, b: PendingRow)
    requires Inv(cfg, s) && k in s.txns && s.txns[k].stage.LookedUp?
    requires Before(a, b) && Ahead(s, shard, a, b)
    ensures Ahead(Committed(cfg, s, k), shard, a, b)
  {
    hide QueuesOk, CallsOk, JournalOk, TxnsOk, BatchOk, NewRows, SealedTables, Remove, DrainedInOrder,
         PendingInShard, Before;
    var txn := s.txns[k];
    var batch := txn.stage.batch;
    var s' := Committed(cfg, s, k);
    LookedUpFacts(cfg, s, k);
    SealedTablesParts(cfg.digest, s.tables, txn.shard, txn.chain, batch, txn.stage.already);
    assert s'.tables.pending == Remove(s.tables.pending, batch);
    assert s'.drained == s.drained[txn.shard := DrainedOf(s.drained, txn.shard) + batch];
    assert forall j :: j in s'.txns ==> j in s.txns && s'.txns[j] == s.txns[j];
    if txn.shard == shard {
      OwnCommitKeepsAhead(s, s', k, a, b);
    } else {
      assert DrainedOf(s'.drained, shard) == DrainedOf(s.drained, shard);
      forall p | PendingInShard(s.tables.pending, shard, p) ensures PendingInShard(s'.tables.pending, shard, p) {
        NotInForeignBatch(s.tables.pending, shard, txn.shard, batch, p);
        StaysPending(s.tables.pending, shard, txn.shard, batch, p);
      }
    }
  }

  lemma OwnCommitKeepsAhead(s: State, s': State, k: int, a: PendingRow, b: PendingRow)
    requires k in s.txns && s.txns[k].stage.LookedUp?
    requires BatchOk(s.tables.pending, s.txns[k].shard, s.txns[k].stage.batch)
    requires Before(a, b) && Ahead(s, s.txns[k].shard, a, b)
    requires s'.tables.pending == Remove(s.tables.pending, s.txns[k].stage.batch)
    requires s'.drained == s.drained[s.txns[k].shard := DrainedOf(s.drained, s.txns[k].shard) + s.txns[k].stage.batch]
    requires forall j :: j in s'.txns ==> j in s.txns && s'.txns[j] == s.txns[j]
    ensures Ahead(s', s.txns[k].shard, a, b)
  {
    hide BatchOk, Remove, DrainedInOrder, PendingInShard, Before;
    var shard, batch := s.txns[k].shard, s.txns[k].stage.batch;
    var pending, history := s.tables.pending, DrainedOf(s.drained, shard);
    assert DrainedOf(s'.drained, shard) == history + batch;
    if DrainedInOrder(history, a, b) {
      OrderPersists(history, batch, a, b);
    } else if b in batch {
      if a in history {
        HistoryThenBatch(history, batch, a, b);
      } else {
        assert a in BatchOf(s.txns[k]);
        BatchInOrder(pending, shard, history, batch, a, b);
      }
    } else {
      StaysPending(pending, shard, shard, batch, b);
      if a !in history && a !in batch {
        StaysPending(pending, shard, shard, batch, a);
      }
    }
  }

  /** The transaction held the shard before, with this batch. */
  predicate SameBatch(s: State, s': State, shard: ShardKey, k: int)
    requires k in s'.txns
  {
    k in s.txns && s.txns[k].shard == shard && BatchOf(s.txns[k]) == BatchOf(s'.txns[k])
  }

  /** A step that moves no history and removes no row, and whose drains respect the order. */
  lemma AheadFrame(s: State, s': State, shard: ShardKey, a: PendingRow, b: PendingRow)
    requires Ahead(s, shard, a, b) && s'.drained == s.drained
    requires forall id :: id in s.tables.pending ==> id in s'.tables.pending && s'.tables.pending[id] == s.tables.pending[id]
    requires PendingInShard(s.tables.pending, shard, a) ==>
               forall k :: k in s'.txns && s'.txns[k].shard == shard && b in BatchOf(s'.txns[k]) ==>
                 a in BatchOf(s'.txns[k]) || SameBatch(s, s', shard, k)
    ensures Ahead(s', shard, a, b)
  {
    hide DrainedInOrder;
  }

  lemma DrainKeepsAhead(cfg: Config, s: State, k: int, limit: nat, batch: seq<PendingRow>, shard: ShardKey,
                        a: PendingRow, b: PendingRow)
    requires Enabled(cfg, s, Drain(k, limit, batch)) && Before(a, b) && Ahead(s, shard, a, b)
    ensures Ahead(ApplyDrain(s, k, batch), shard, a, b)
  {
    hide IsDrain, Before, Ahead, PendingInShard;
    if s.txns[k].shard == shard && b in batch && PendingInShard(s.tables.pending, shard, a) {
      DrainTakesEarlier(s.tables.pending, shard, limit, batch, a, b);
    }
    AheadFrame(s, ApplyDrain(s, k, batch), shard, a, b);
  }

  lemma StepKeepsAhead(cfg: Config, s: State, step: Step, shard: ShardKey, a: PendingRow, b: PendingRow)
    requires Inv(cfg, s) && Enabled(cfg, s, step)
    requires Before(a, b) && Ahead(s, shard, a, b)
    ensures Ahead(Apply(cfg, s, step), shard, a, b)
  {
    hide Inv, IsDrain, IsIndexFor, HashOfRequest, ApplyCommit, Committed, Before, ResponseBody, Ahead,
         ExistingExternals,
         PendingInShard, PendingRowOf;
    match step
    case Commit(k) =>
      CopyAlwaysSucceeds(cfg, s, k);
      CommitKeepsAhead(cfg, s, k, shard, a, b);
    case Drain(k, limit, batch) => DrainKeepsAhead(cfg, s, k, limit, batch, shard, a, b);
    case Insert(id, acceptedAt) =>
      InsertedIsNew(cfg, s, id, acceptedAt);
      AheadFrame(s, Apply(cfg, s, step), shard, a, b);
    case _ => AheadFrame(s, Apply(cfg, s, step), shard, a, b);
  }

  lemma InsertedIsNew(cfg: Config, s: State, id: int, acceptedAt: int)
    requires Inv(cfg, s) && Enabled(cfg, s, Insert(id, acceptedAt))
    ensures id !in s.tables.pending
  {
    hide CallsOk, JournalOk, TxnsOk, PendingRowOf;
    assert id in s.tables.pending ==> FromCall(s.calls, s.tables.pending[id]);
  }

  lemma {:induction false} RunKeepsAhead(cfg: Config, s: State, steps: seq<Step>, shard: ShardKey, a: PendingRow,
                                         b: PendingRow)
    requires Inv(cfg, s) && Executable(cfg, s, steps)
    requires Before(a, b) && Ahead(s, shard, a, b)
    ensures Ahead(Exec(cfg, s, steps), shard, a, b)
    decreases |steps|
  {
    hide Inv, Enabled, Apply, Ahead, Before;
    if steps == [] {
    } else {
      StepKeepsAhead(cfg, s, steps[0], shard, a, b);
      StepKeepsInv(cfg, s, steps[0]);
      RunKeepsAhead(cfg, Apply(cfg, s, steps[0]), steps[1..], shard, a, b);
    }
  }

  /** The drain of a shard puts earlier rows ahead of later ones. */
  lemma DrainPutsAhead(cfg: Config, s: State, k: int, limit: nat, batch: seq<PendingRow>, a: PendingRow,
                       b: PendingRow)
    requires Inv(cfg, s) && k in s.txns && IsDrain(s.tables.pending, s.txns[k].shard, limit, batch)
    requires PendingInShard(s.tables.pending, s.txns[k].shard, a) && PendingInShard(s.tables.pending, s.txns[k].shard, b)
    requires Before(a, b)
    ensures Ahead(ApplyDrain(s, k, batch), s.txns[k].shard, a, b)
  {
    hide CallsOk, JournalOk, QueuesOk, TxnChainOk, StageOk, IsDrain, Before, PendingInShard;
    if b in batch {
      DrainTakesEarlier(s.tables.pending, s.txns[k].shard, limit, batch, a, b);
    }
  }

  lemma DrainIsEnabled(cfg: Config, s: State, k: int, limit: nat, batch: seq<PendingRow>)
    requires Enabled(cfg, s, Drain(k, limit, batch))
    ensures k in s.txns && IsDrain(s.tables.pending, s.txns[k].shard, limit, batch)
    ensures Apply(cfg, s, Drain(k, limit, batch)) == ApplyDrain(s, k, batch)
  {
    hide IsDrain;
  }

  // ----- from queue order to positions -----

  lemma {:induction false} KeptInOrder(rows: seq<PendingRow>, i: nat, j: nat) returns (x: nat, y: nat)
    requires i < j < |rows| && DistinctIds(rows)
    requires rows[i] in FirstOccurrences(rows, {}) && rows[j] in FirstOccurrences(rows, {})
    ensures var kept := FirstOccurrences(rows, {});
            x < y < |kept| && kept[x] == rows[i] && kept[y] == rows[j]
  {
    hide DistinctIds, FirstOccurrences;
    var n := |rows| - 1;
    var init := rows[..n];
    KeptSplit(rows, i);
    if j < n {
      KeptSplit(rows, j);
      DistinctPrefix(rows, n);
      assert init[i] == rows[i] && init[j] == rows[j];
      x, y := KeptInOrder(init, i, j);
    } else {
      LastIsLast(rows);
      var kept := FirstOccurrences(init, {});
      x :| 0 <= x < |kept| && kept[x] == rows[i];
      y := |kept|;
    }
  }

  lemma DistinctPrefix(rows: seq<PendingRow>, n: nat)
    requires n <= |rows| && DistinctIds(rows)
    ensures DistinctIds(rows[..n])
  {
  }

  /** Deduplicating the rows before the last gives a prefix that holds whatever it kept. */
  lemma KeptSplit(rows: seq<PendingRow>, i: nat)
    requires i < |rows| - 1 && DistinctIds(rows) && rows[i] in FirstOccurrences(rows, {})
    ensures FirstOccurrences(rows[..|rows| - 1], {}) <= FirstOccurrences(rows, {})
    ensures rows[i] in FirstOccurrences(rows[..|rows| - 1], {})
  {
    assert rows[i].id != rows[|rows| - 1].id;
  }

  lemma LastIsLast(rows: seq<PendingRow>)
    requires |rows| > 0 && DistinctIds(rows) && rows[|rows| - 1] in FirstOccurrences(rows, {})
    ensures FirstOccurrences(rows, {}) == FirstOccurrences(rows[..|rows| - 1], {}) + [rows[|rows| - 1]]
  {
    hide FirstOccurrences, DistinctIds;
    var n := |rows| - 1;
    var kept := FirstOccurrences(rows[..n], {});
    LastSplit(rows);
    forall m | 0 <= m < |kept| ensures kept[m] != rows[n] {
      var l :| 0 <= l < n && rows[..n][l] == kept[m];
      DifferentIds(rows, l, n);
    }
  }

  lemma DifferentIds(rows: seq<PendingRow>, i: nat, j: nat)
    requires i < j < |rows| && DistinctIds(rows)
    ensures rows[i].id != rows[j].id
  {
  }

  lemma LastSplit(rows: seq<PendingRow>)
    requires |rows| > 0
    ensures var kept := FirstOccurrences(rows[..|rows| - 1], {});
            FirstOccurrences(rows, {}) == kept || FirstOccurrences(rows, {}) == kept + [rows[|rows| - 1]]
  {
  }

  lemma LogPosition(H: Digest, chainId: string, project: string, drained: seq<PendingRow>, x: nat)
    requires x < |FirstOccurrences(drained, {})|
    ensures var e := SealedLog(H, chainId, project, drained)[x];
            e.position == x + 1 && e.id == FirstOccurrences(drained, {})[x].id
  {
    hide EventHash;
    LinkRowsAt(H, chainId, project, "", 1, FirstOccurrences(drained, {}), x);
  }

  /** The journal row of a kept row stands at the row's place in the log. */
  lemma PositionOfKept(cfg: Config, s: State, shard: ShardKey, x: nat, e: EventRow)
    requires Inv(cfg, s) && e in s.tables.events
    requires x < |FirstOccurrences(DrainedOf(s.drained, shard), {})|
    requires e.id == FirstOccurrences(DrainedOf(s.drained, shard), {})[x].id
    ensures shard in s.tables.chains && e.chainId == s.tables.chains[shard].id && e.position == x + 1
  {
    ShardOfKept(cfg, s, shard, x);
    var history := DrainedOf(s.drained, shard);
    var chain := s.tables.chains[shard];
    ServerLog(cfg, s, shard);
    hide Inv, SealedLog, DrainedOf, UniqueIds, UniqueExternals;
    LogPosition(cfg.digest, chain.id, chain.project, history, x);
    SealedLogLength(cfg.digest, chain.id, chain.project, history);
    var mine := SealedLog(cfg.digest, chain.id, chain.project, history)[x];
    assert mine in s.tables.events;
    JournalUnique(cfg, s);
    OneRowPerId(s.tables.events, e, mine);
  }

  lemma ShardOfKept(cfg: Config, s: State, shard: ShardKey, x: nat)
    requires Inv(cfg, s) && x < |FirstOccurrences(DrainedOf(s.drained, shard), {})|
    ensures shard in s.tables.chains
  {
    hide CallsOk, TxnsOk, QueuesOk, ChainsOk, EventsOwned;
  }

  lemma ServerLog(cfg: Config, s: State, shard: ShardKey)
    requires Inv(cfg, s) && shard in s.tables.chains
    ensures var chain := s.tables.chains[shard];
            ChainEvents(s.tables.events, chain.id) == SealedLog(cfg.digest, chain.id, chain.project, DrainedOf(s.drained, shard))
  {
    hide CallsOk, TxnsOk, QueuesOk, EventsOwned, SealedLog;
    var chain := s.tables.chains[shard];
    assert ChainOk(cfg, shard, chain, ChainEvents(s.tables.events, chain.id), DrainedOf(s.drained, shard));
  }

  lemma OneRowPerId(events: seq<EventRow>, e: EventRow, f: EventRow)
    requires UniqueIds(events) && e in events && f in events && e.id == f.id
    ensures e == f
  {
    var i :| 0 <= i < |events| && events[i] == e;
    var j :| 0 <= j < |events| && events[j] == f;
    assert i == j;
  }

  lemma SealedLogLength(H: Digest, chainId: string, project: string, drained: seq<PendingRow>)
    ensures |SealedLog(H, chainId, project, drained)| == |FirstOccurrences(drained, {})|
  {
  }

  lemma AheadMeansSmallerPosition(cfg: Config, s: State, shard: ShardKey, a: PendingRow, b: PendingRow, e: EventRow,
                                  f: EventRow)
    requires Inv(cfg, s) && Ahead(s, shard, a, b)
    requires e in s.tables.events && f in s.tables.events && e.id == a.id && f.id == b.id
    ensures e.chainId == f.chainId && e.position < f.position
  {
    hide CallsOk, TxnsOk, JournalOk, NothingLost, PendingOk, FromCall;
    var history := DrainedOf(s.drained, shard);
    var home, p := JournaledIsKept(cfg, s, e);
    var home', q := JournaledIsKept(cfg, s, f);
    assert DrainedInOrder(history, a, b);
    var i, j :| 0 <= i < j < |history| && history[i] == a && history[j] == b;
    SameHome(cfg, s, shard, i, home, p);
    SameHome(cfg, s, shard, j, home', q);
    assert HistoryOk(s.calls, s.tables.pending, shard, history);
    var x, y := KeptInOrder(history, i, j);
    PositionOfKept(cfg, s, shard, x, e);
    PositionOfKept(cfg, s, shard, y, f);
  }

  /** An id is drained from one queue only, and once. */
  lemma SameHome(cfg: Config, s: State, shard: ShardKey, i: nat, home: ShardKey, p: PendingRow)
    requires Inv(cfg, s) && i < |DrainedOf(s.drained, shard)| && DrainedOf(s.drained, shard)[i].id == p.id
    requires p in FirstOccurrences(DrainedOf(s.drained, home), {}) && FromCall(s.calls, p) && ShardOf(p) == home
    ensures home == shard && p == DrainedOf(s.drained, shard)[i]
  {
    hide CallsOk, TxnsOk, JournalOk, NothingLost, PendingOk, FromCall, FirstOccurrences;
    var history := DrainedOf(s.drained, shard);
    assert HistoryOk(s.calls, s.tables.pending, shard, history);
    RowShard(s.calls, p);
    RowShard(s.calls, history[i]);
    OneRowPerDrainedId(history, i, p);
  }

  lemma RowShard(calls: map<int, Call>, p: PendingRow)
    requires FromCall(calls, p)
    ensures p.id in calls && ShardOf(p) == CallShard(calls[p.id])
  {
  }

  lemma OneRowPerDrainedId(rows: seq<PendingRow>, i: nat, p: PendingRow)
    requires DistinctIds(rows) && i < |rows| && p in rows && rows[i].id == p.id
    ensures rows[i] == p
  {
    var j :| 0 <= j < |rows| && rows[j] == p;
  }

  lemma AheadInRun(cfg: Config, mid: State, steps: seq<Step>, shard: ShardKey,
                   a: PendingRow, b: PendingRow, e: EventRow, f: EventRow)
    requires Inv(cfg, mid) && Before(a, b) && Ahead(mid, shard, a, b) && Executable(cfg, mid, steps)
    requires var s' := Exec(cfg, mid, steps);
             e in s'.tables.events && f in s'.tables.events && e.id == a.id && f.id == b.id
    ensures e.chainId == f.chainId && e.position < f.position
  {
    hide Inv, Ahead, Executable, Exec, Before;
    RunKeepsAhead(cfg, mid, steps, shard, a, b);
    RunKeepsInv(cfg, mid, steps);
    AheadMeansSmallerPosition(cfg, Exec(cfg, mid, steps), shard, a, b, e, f);
  }

  /** Of two rows visible to one drain, if both are ever sealed, the earlier by
      (accepted_at, id) has the smaller position in the same chain. */
  lemma NoOvertaking(cfg: Config, s: State, k: int, limit: nat, batch: seq<PendingRow>, steps: seq<Step>,
                     a: PendingRow, b: PendingRow, e: EventRow, f: EventRow)
    requires Reachable(cfg, s) && Enabled(cfg, s, Drain(k, limit, batch))
    requires a.id in s.tables.pending && s.tables.pending[a.id] == a && b.id in s.tables.pending && s.tables.pending[b.id] == b
    requires ShardKey(a.env, a.shard) == ShardKey(b.env, b.shard) == s.txns[k].shard
    requires a.acceptedAt < b.acceptedAt || (a.acceptedAt == b.acceptedAt && a.id < b.id)
    requires Executable(cfg, Apply(cfg, s, Drain(k, limit, batch)), steps)
    requires var s' := Exec(cfg, Apply(cfg, s, Drain(k, limit, batch)), steps);
             e in s'.tables.events && f in s'.tables.events && e.id == a.id && f.id == b.id
    ensures e.chainId == f.chainId && e.position < f.position
  {
    hide Reachable, Inv, Ahead, Executable, Exec, Apply, IsDrain;
    ReachableInv(cfg, s);
    StepKeepsInv(cfg, s, Drain(k, limit, batch));
    DrainIsEnabled(cfg, s, k, limit, batch);
    DrainPutsAhead(cfg, s, k, limit, batch, a, b);
    AheadInRun(cfg, Apply(cfg, s, Drain(k, limit, batch)), steps, s.txns[k].shard, a, b, e, f);
  }
}
