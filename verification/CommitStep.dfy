/** The commit of a sealed batch keeps the invariant, and the copy never fails. */
module CommitStep {
  import opened Wrappers
  import opened HashChain
  import opened Tables
  import opened Sealing
  import opened Protocol
  import opened Invariants
  import opened Preservation

  // ----- queues -----

  lemma BatchIds(pending: map<int, PendingRow>, shard: ShardKey, batch: seq<PendingRow>)
    requires BatchOk(pending, shard, batch)
    ensures DistinctIds(batch)
    ensures forall i :: 0 <= i < |batch| ==> batch[i].id in pending && pending[batch[i].id] == batch[i]
  {
    forall i, j | 0 <= i < j < |batch| ensures batch[i].id != batch[j].id {
      assert Before(batch[i], batch[j]);
      assert PendingInShard(pending, shard, batch[i]) && PendingInShard(pending, shard, batch[j]);
    }
    forall i | 0 <= i < |batch| ensures batch[i].id in pending && pending[batch[i].id] == batch[i] {
      assert PendingInShard(pending, shard, batch[i]);
    }
  }

  lemma RemoveSpec(pending: map<int, PendingRow>, batch: seq<PendingRow>, id: int)
    ensures id in Remove(pending, batch) <==> id in pending && !HasId(batch, id)
    ensures id in Remove(pending, batch) ==> Remove(pending, batch)[id] == pending[id]
  {
  }

  /** The history of the shard whose batch commits. */
  lemma HistoryGrows(calls: map<int, Call>, pending: map<int, PendingRow>, shard: ShardKey,
                     history: seq<PendingRow>, batch: seq<PendingRow>)
    requires PendingOk(calls, pending) && BatchOk(pending, shard, batch)
    requires HistoryOk(calls, pending, shard, history)
    ensures HistoryOk(calls, Remove(pending, batch), shard, history + batch)
  {
    hide FromCall, Remove;
    var all := history + batch;
    BatchIds(pending, shard, batch);
    forall i, j | 0 <= i < j < |all| ensures all[i].id != all[j].id {
      if i < |history| <= j {
        assert history[i].id !in pending;
        assert batch[j - |history|].id in pending;
      }
    }
    forall i | 0 <= i < |all|
      ensures ShardOf(all[i]) == shard && FromCall(calls, all[i]) && all[i].id !in Remove(pending, batch)
    {
      RemoveSpec(pending, batch, all[i].id);
      if i >= |history| {
        var b := i - |history|;
        assert PendingInShard(pending, shard, batch[b]);
        assert all[i] == batch[b];
      }
    }
  }

  lemma HistoryShrinkingQueue(calls: map<int, Call>, pending: map<int, PendingRow>, shard: ShardKey,
                              history: seq<PendingRow>, batch: seq<PendingRow>)
    requires HistoryOk(calls, pending, shard, history)
    ensures HistoryOk(calls, Remove(pending, batch), shard, history)
  {
    forall i | 0 <= i < |history| ensures history[i].id !in Remove(pending, batch) {
      RemoveSpec(pending, batch, history[i].id);
    }
  }

  lemma CommitKeepsQueues(calls: map<int, Call>, pending: map<int, PendingRow>, drained: map<ShardKey, seq<PendingRow>>,
                          shard: ShardKey, batch: seq<PendingRow>)
    requires QueuesOk(calls, pending, drained) && BatchOk(pending, shard, batch)
    ensures QueuesOk(calls, Remove(pending, batch), drained[shard := DrainedOf(drained, shard) + batch])
  {
    hide Remove, FromCall;
    var pending', history := Remove(pending, batch), DrainedOf(drained, shard);
    var drained' := drained[shard := history + batch];
    forall id | id in pending' ensures pending'[id].id == id && FromCall(calls, pending'[id]) {
      RemoveSpec(pending, batch, id);
    }
    assert HistoryOk(calls, pending, shard, history);
    HistoryGrows(calls, pending, shard, history, batch);
    forall sh | sh in drained' ensures HistoryOk(calls, pending', sh, drained'[sh]) {
      if sh != shard {
        assert HistoryOk(calls, pending, sh, drained[sh]);
        HistoryShrinkingQueue(calls, pending, sh, drained[sh], batch);
      }
    }
    forall id | id in calls && calls[id].phase.Accepted?
      ensures id in pending' || HasId(DrainedOf(drained', CallShard(calls[id])), id)
    {
      CommitLosesNothing(calls, pending, drained, shard, batch, id);
    }
  }

  lemma CommitLosesNothing(calls: map<int, Call>, pending: map<int, PendingRow>, drained: map<ShardKey, seq<PendingRow>>,
                           shard: ShardKey, batch: seq<PendingRow>, id: int)
    requires QueuesOk(calls, pending, drained) && BatchOk(pending, shard, batch)
    requires id in calls && calls[id].phase.Accepted?
    ensures || id in Remove(pending, batch)
            || HasId(DrainedOf(drained[shard := DrainedOf(drained, shard) + batch], CallShard(calls[id])), id)
  {
    hide Remove;
    var history := DrainedOf(drained, shard);
    RemoveSpec(pending, batch, id);
    var home := CallShard(calls[id]);
    if id in pending {
      if HasId(batch, id) {
        DrainedJoinsHistory(calls, pending, shard, history, batch, id);
      }
    } else {
      hide QueuesOk;
      var old' := DrainedOf(drained, home);
      assert HasId(old', id);
      HistoryKeepsId(history, batch, id);
    }
  }

  lemma DrainedJoinsHistory(calls: map<int, Call>, pending: map<int, PendingRow>, shard: ShardKey, history: seq<PendingRow>,
                            batch: seq<PendingRow>, id: int)
    requires PendingOk(calls, pending) && BatchOk(pending, shard, batch) && HasId(batch, id)
    ensures id in calls && CallShard(calls[id]) == shard && HasId(history + batch, id)
  {
    var i :| 0 <= i < |batch| && batch[i].id == id;
    assert PendingInShard(pending, shard, batch[i]);
    assert FromCall(calls, pending[id]);
    assert (history + batch)[|history| + i].id == id;
  }

  lemma HistoryKeepsId(history: seq<PendingRow>, batch: seq<PendingRow>, id: int)
    ensures HasId(history, id) ==> HasId(history + batch, id)
  {
    if HasId(history, id) {
      var i :| 0 <= i < |history| && history[i].id == id;
      assert (history + batch)[i].id == id;
    }
  }

  // ----- the journal -----

  /** The rows that a batch adds are the continuation of the chain's one-pass log. */
  lemma NewRowsContinueLog(cfg: Config, shard: ShardKey, chain: ChainRow, journal: seq<EventRow>,
                           history: seq<PendingRow>, batch: seq<PendingRow>, already: set<string>)
    requires ChainOk(cfg, shard, chain, journal, history) && AlreadyOk(batch, already, history)
    ensures SealedLog(cfg.digest, chain.id, chain.project, history + batch)
            == journal + NewRows(cfg.digest, chain, batch, already)
  {
    hide LinkRows, FirstOccurrences, SealedLog;
    SealedLogExtends(cfg.digest, chain.id, chain.project, history, batch);
    FirstOccurrencesRelevant(batch, already, Externals(history));
    assert chain.latestHash.GetOr("") == TipHash("", journal);
  }

  lemma NewRowsShape(H: Digest, chain: ChainRow, batch: seq<PendingRow>, already: set<string>)
    ensures var rows := NewRows(H, chain, batch, already);
            && (forall i :: 0 <= i < |rows| ==> rows[i].chainId == chain.id)
            && (rows != [] ==> TipHash("", rows) != "")
  {
    hide EventHash;
    var kept := FirstOccurrences(batch, already);
    var prev, start := chain.latestHash.GetOr(""), chain.latestPosition + 1;
    var rows := NewRows(H, chain, batch, already);
    assert rows == LinkRows(H, chain.id, chain.project, prev, start, kept);
    forall i | 0 <= i < |rows| ensures rows[i].chainId == chain.id && |rows[i].eventHash| == 71 {
      LinkRowsAt(H, chain.id, chain.project, prev, start, kept, i);
      var tip := if i == 0 then prev else rows[i - 1].eventHash;
      EventHashIsTagged(H, tip, kept[i].payloadHash, start + i);
    }
  }

  /** The chain row that SealedTables writes. */
  function SealedChain(H: Digest, chain: ChainRow, batch: seq<PendingRow>, already: set<string>): ChainRow {
    var rows := NewRows(H, chain, batch, already);
    if rows == [] then chain
    else chain.(latestPosition := chain.latestPosition + |rows|, latestHash := Some(TipHash("", rows)))
  }

  lemma SealedChainOk(cfg: Config, shard: ShardKey, chain: ChainRow, journal: seq<EventRow>,
                      history: seq<PendingRow>, batch: seq<PendingRow>, already: set<string>)
    requires ChainOk(cfg, shard, chain, journal, history) && AlreadyOk(batch, already, history)
    ensures var rows := NewRows(cfg.digest, chain, batch, already);
            ChainOk(cfg, shard, SealedChain(cfg.digest, chain, batch, already), journal + rows, history + batch)
  {
    hide NewRows, SealedLog, AlreadyOk;
    NewRowsContinueLog(cfg, shard, chain, journal, history, batch, already);
    NewRowsShape(cfg.digest, chain, batch, already);
    var rows := NewRows(cfg.digest, chain, batch, already);
    assert rows == [] ==> journal + rows == journal;
    assert rows != [] ==> TipHash("", journal + rows) == TipHash("", rows);
  }

  /** What the invariant says of a transaction that has looked up its batch. */
  lemma LookedUpFacts(cfg: Config, s: State, k: int)
    requires Inv(cfg, s) && k in s.txns && s.txns[k].stage.LookedUp?
    ensures BatchOk(s.tables.pending, s.txns[k].shard, s.txns[k].stage.batch)
    ensures AlreadyOk(s.txns[k].stage.batch, s.txns[k].stage.already, DrainedOf(s.drained, s.txns[k].shard))
  {
    hide QueuesOk, CallsOk, JournalOk, BatchOk, AlreadyOk, TxnChainOk, Exclusive;
    assert StageOk(s.tables.pending, s.drained, s.txns[k]);
  }

  lemma SealedTablesParts(H: Digest, t: Tables, shard: ShardKey, chain: ChainRow,
                          batch: seq<PendingRow>, already: set<string>)
    ensures var t' := SealedTables(H, t, shard, chain, batch, already);
            && t'.events == t.events + NewRows(H, chain, batch, already)
            && t'.chains == t.chains[shard := SealedChain(H, chain, batch, already)]
            && t'.pending == Remove(t.pending, batch)
            && t'.idempotency == t.idempotency
  {
    hide NewRows, Remove;
  }

  lemma CommitKeepsJournal(cfg: Config, s: State, k: int)
    requires Inv(cfg, s) && k in s.txns && s.txns[k].stage.LookedUp?
    ensures var txn := s.txns[k];
            var t := SealedTables(cfg.digest, s.tables, txn.shard, txn.chain, txn.stage.batch, txn.stage.already);
            JournalOk(cfg, t.chains, t.events, s.drained[txn.shard := DrainedOf(s.drained, txn.shard) + txn.stage.batch])
  {
    hide QueuesOk, CallsOk, JournalOk, TxnsOk, NewRows, ChainOk, AlreadyOk, BatchOk, SealedTables;
    var txn := s.txns[k];
    var batch, already := txn.stage.batch, txn.stage.already;
    LookedUpFacts(cfg, s, k);
    TxnChainIsLog(cfg, s, k);
    NewRowsShape(cfg.digest, txn.chain, batch, already);
    SealedChainOk(cfg, txn.shard, txn.chain, ChainEvents(s.tables.events, txn.chain.id), DrainedOf(s.drained, txn.shard),
                  batch, already);
    SealedTablesParts(cfg.digest, s.tables, txn.shard, txn.chain, batch, already);
    CommitKeepsChains(cfg, s, k, NewRows(cfg.digest, txn.chain, batch, already),
                      SealedChain(cfg.digest, txn.chain, batch, already));
  }

  /** The committed shard gets its new log; every other chain is untouched. */
  lemma CommitKeepsChains(cfg: Config, s: State, k: int, rows: seq<EventRow>, row: ChainRow)
    requires Inv(cfg, s) && k in s.txns && s.txns[k].stage.LookedUp? && row.id == s.txns[k].chain.id
    requires forall i :: 0 <= i < |rows| ==> rows[i].chainId == row.id
    requires ChainOk(cfg, s.txns[k].shard, row, ChainEvents(s.tables.events, row.id) + rows,
                     DrainedOf(s.drained, s.txns[k].shard) + s.txns[k].stage.batch)
    ensures JournalOk(cfg, s.tables.chains[s.txns[k].shard := row], s.tables.events + rows,
                      s.drained[s.txns[k].shard := DrainedOf(s.drained, s.txns[k].shard) + s.txns[k].stage.batch])
  {
    hide QueuesOk, CallsOk, StageOk, Exclusive, ChainsOk;
    var txn := s.txns[k];
    var chains, events := s.tables.chains, s.tables.events;
    var chains', events' := chains[txn.shard := row], events + rows;
    var drained' := s.drained[txn.shard := DrainedOf(s.drained, txn.shard) + txn.stage.batch];
    assert TxnChainOk(cfg, chains, txn);
    EventsStayOwned(chains, events, txn.shard, row, rows);
    assert forall sh :: sh in chains && sh != txn.shard ==> chains[sh].id != row.id;
    OtherChainsStay(cfg, chains, events, s.drained, txn.shard, row, rows, txn.stage.batch);
  }

  lemma OtherChainsStay(cfg: Config, chains: map<ShardKey, ChainRow>, events: seq<EventRow>, drained: map<ShardKey, seq<PendingRow>>,
                        shard: ShardKey, row: ChainRow, rows: seq<EventRow>, batch: seq<PendingRow>)
    requires ChainsOk(cfg, chains, events, drained)
    requires forall sh :: sh in chains && sh != shard ==> chains[sh].id != row.id
    requires forall i :: 0 <= i < |rows| ==> rows[i].chainId == row.id
    requires ChainOk(cfg, shard, row, ChainEvents(events, row.id) + rows, DrainedOf(drained, shard) + batch)
    ensures ChainsOk(cfg, chains[shard := row], events + rows, drained[shard := DrainedOf(drained, shard) + batch])
  {
    hide ChainOk;
    var chains', events' := chains[shard := row], events + rows;
    var drained' := drained[shard := DrainedOf(drained, shard) + batch];
    forall sh | sh in chains'
      ensures ChainOk(cfg, sh, chains'[sh], ChainEvents(events', chains'[sh].id), DrainedOf(drained', sh))
    {
      ChainEventsAppend(events, rows, chains'[sh].id);
      if sh == shard {
        ChainEventsAll(rows, row.id);
      } else {
        ChainEventsNone(rows, chains[sh].id);
        assert ChainEvents(events, chains[sh].id) + [] == ChainEvents(events, chains[sh].id);
        assert ChainOk(cfg, sh, chains[sh], ChainEvents(events, chains[sh].id), DrainedOf(drained, sh));
      }
    }
  }

  lemma EventsStayOwned(chains: map<ShardKey, ChainRow>, events: seq<EventRow>, shard: ShardKey, row: ChainRow,
                        rows: seq<EventRow>)
    requires EventsOwned(chains, events) && (shard in chains ==> chains[shard].id == row.id)
    requires forall i :: 0 <= i < |rows| ==> rows[i].chainId == row.id
    ensures EventsOwned(chains[shard := row], events + rows)
  {
    var chains', events' := chains[shard := row], events + rows;
    OwnersStay(chains, shard, row, events);
    forall i | 0 <= i < |events'| ensures IsChainId(chains', events'[i].chainId) {
      if i >= |events| {
        assert events'[i] == rows[i - |events|];
        assert shard in chains' && chains'[shard].id == events'[i].chainId;
      }
    }
  }

  // ----- the other transactions -----

  /** A batch of another shard keeps its rows, and its shard's history does not move. */
  lemma OthersKeepStage(pending: map<int, PendingRow>, drained: map<ShardKey, seq<PendingRow>>, txn: Txn,
                        shard: ShardKey, batch: seq<PendingRow>)
    requires StageOk(pending, drained, txn) && txn.shard != shard && BatchOk(pending, shard, batch)
    ensures StageOk(Remove(pending, batch), drained[shard := DrainedOf(drained, shard) + batch], txn)
  {
    if !txn.stage.Locked? {
      var mine := txn.stage.batch;
      forall i | 0 <= i < |mine| ensures PendingInShard(Remove(pending, batch), txn.shard, mine[i]) {
        assert PendingInShard(pending, txn.shard, mine[i]);
        RemoveSpec(pending, batch, mine[i].id);
        forall j | 0 <= j < |batch| ensures batch[j].id != mine[i].id {
          assert PendingInShard(pending, shard, batch[j]);
        }
      }
    }
  }

  lemma CommitKeepsTxns(cfg: Config, s: State, k: int, row: ChainRow)
    requires Inv(cfg, s) && k in s.txns && s.txns[k].stage.LookedUp? && row.id == s.txns[k].chain.id
    ensures var txn := s.txns[k];
            TxnsOk(cfg, s.tables.chains[txn.shard := row], Remove(s.tables.pending, txn.stage.batch),
                   s.drained[txn.shard := DrainedOf(s.drained, txn.shard) + txn.stage.batch], s.txns - {k})
  {
    var txn := s.txns[k];
    LookedUpFacts(cfg, s, k);
    hide QueuesOk, CallsOk, JournalOk, TxnChainOk, StageOk, BatchOk, Remove;
    OthersKeepChains(cfg, s.tables.chains, s.txns, k, row);
    var pending' := Remove(s.tables.pending, txn.stage.batch);
    var drained' := s.drained[txn.shard := DrainedOf(s.drained, txn.shard) + txn.stage.batch];
    forall j | j in s.txns && j != k ensures StageOk(pending', drained', s.txns[j]) {
      OthersKeepStage(s.tables.pending, s.drained, s.txns[j], txn.shard, txn.stage.batch);
    }
  }

  // ----- the step -----

  /** The state that a commit leads to when its copy succeeds. */
  function Committed(cfg: Config, s: State, k: int): State
    requires k in s.txns && s.txns[k].stage.LookedUp?
  {
    var txn := s.txns[k];
    Close(s.(tables := SealedTables(cfg.digest, s.tables, txn.shard, txn.chain, txn.stage.batch, txn.stage.already),
             drained := s.drained[txn.shard := DrainedOf(s.drained, txn.shard) + txn.stage.batch]), k)
  }

  lemma CommittedKeepsInv(cfg: Config, s: State, k: int)
    requires Inv(cfg, s) && k in s.txns && s.txns[k].stage.LookedUp?
    ensures Inv(cfg, Committed(cfg, s, k))
  {
    hide QueuesOk, CallsOk, JournalOk, TxnsOk, Remove, NewRows, SealedTables, SealedChain, BatchOk, AlreadyOk;
    var txn := s.txns[k];
    LookedUpFacts(cfg, s, k);
    CommitKeepsQueues(s.calls, s.tables.pending, s.drained, txn.shard, txn.stage.batch);
    CommitKeepsJournal(cfg, s, k);
    SealedTablesParts(cfg.digest, s.tables, txn.shard, txn.chain, txn.stage.batch, txn.stage.already);
    SealedChainId(cfg.digest, txn.chain, txn.stage.batch, txn.stage.already);
    CommitKeepsTxns(cfg, s, k, SealedChain(cfg.digest, txn.chain, txn.stage.batch, txn.stage.already));
  }

  lemma SealedChainId(H: Digest, chain: ChainRow, batch: seq<PendingRow>, already: set<string>)
    ensures SealedChain(H, chain, batch, already).id == chain.id
  {
    hide NewRows;
  }
}
