/** Every step keeps the invariant, so it holds in every reachable state. */
module Preservation {
  import opened HashChain
  import opened Content
  import opened Payloads
  import opened Tables
  import opened Sealing
  import opened Protocol
  import opened Invariants
  import opened JournalFacts

  // ----- accept calls -----

  /** Calls that are not accepted may come and change phase freely. */
  lemma CallChangeKeepsQueues(calls: map<int, Call>, id: int, c: Call, pending: map<int, PendingRow>,
                              drained: map<ShardKey, seq<PendingRow>>)
    requires QueuesOk(calls, pending, drained)
    requires id in calls ==> !calls[id].phase.Accepted?
    requires !c.phase.Accepted?
    ensures QueuesOk(calls[id := c], pending, drained)
  {
    hide PendingRowOf;
    var calls' := calls[id := c];
    forall i | i in pending ensures pending[i].id == i && FromCall(calls', pending[i]) {
      assert FromCall(calls, pending[i]);
    }
    forall sh | sh in drained ensures HistoryOk(calls', pending, sh, drained[sh]) {
      assert HistoryOk(calls, pending, sh, drained[sh]);
    }
  }

  /** Inserting the row of a call that becomes accepted. */
  lemma InsertKeepsQueues(calls: map<int, Call>, id: int, acceptedAt: int, pending: map<int, PendingRow>,
                          drained: map<ShardKey, seq<PendingRow>>)
    requires QueuesOk(calls, pending, drained)
    requires id in calls && !calls[id].phase.Accepted?
    ensures id !in pending
    ensures var c := calls[id];
            QueuesOk(calls[id := c.(phase := Accepted)], pending[id := PendingRowOf(id, c, acceptedAt)], drained)
  {
    var c := calls[id];
    assert id !in pending by {
      assert id in pending ==> FromCall(calls, pending[id]);
    }
    var calls', pending' := calls[id := c.(phase := Accepted)], pending[id := PendingRowOf(id, c, acceptedAt)];
    assert PendingRowOf(id, c, acceptedAt) == PendingRowOf(id, calls'[id], acceptedAt);
    hide PendingRowOf;
    forall i | i in pending' ensures pending'[i].id == i && FromCall(calls', pending'[i]) {
      if i != id {
        assert FromCall(calls, pending[i]);
      } else {
        RowIdentity(id, c, acceptedAt);
      }
    }
    forall sh | sh in drained ensures HistoryOk(calls', pending', sh, drained[sh]) {
      assert HistoryOk(calls, pending, sh, drained[sh]);
    }
    forall i | i in calls' && calls'[i].phase.Accepted?
      ensures i in pending' || HasId(DrainedOf(drained, CallShard(calls'[i])), i)
    {
      assert i != id ==> calls[i] == calls'[i];
    }
  }

  lemma RowIdentity(id: int, c: Call, acceptedAt: int)
    ensures PendingRowOf(id, c, acceptedAt).id == id && PendingRowOf(id, c, acceptedAt).acceptedAt == acceptedAt
  {
  }

  /** New rows in the queues do not disturb transactions in flight. */
  lemma GrowingQueueKeepsTxns(cfg: Config, chains: map<ShardKey, ChainRow>, pending: map<int, PendingRow>,
                              pending': map<int, PendingRow>, drained: map<ShardKey, seq<PendingRow>>, txns: map<int, Txn>)
    requires TxnsOk(cfg, chains, pending, drained, txns)
    requires forall id :: id in pending ==> id in pending' && pending'[id] == pending[id]
    ensures TxnsOk(cfg, chains, pending', drained, txns)
  {
    forall k | k in txns ensures StageOk(pending', drained, txns[k]) {
      assert StageOk(pending, drained, txns[k]);
    }
  }

  lemma TruncateTwice(t: int)
    ensures TruncateMilli(TruncateMilli(t)) == TruncateMilli(t)
  {
    ReceivedAtSurvives(t);
    var q := t / NANOS_PER_MILLI;
    assert TruncateMilli(t) == q * NANOS_PER_MILLI;
    assert (q * NANOS_PER_MILLI) % NANOS_PER_MILLI == 0;
  }

  lemma CallStepKeepsInv(cfg: Config, s: State, step: Step)
    requires Inv(cfg, s) && Enabled(cfg, s, step)
    requires step.Arrive? || step.Claim? || step.Replay? || step.Fail?
    ensures Inv(cfg, Apply(cfg, s, step))
  {
    hide QueuesOk, JournalOk, TxnsOk, ContentHash, RequestContent, ResponseBody, TruncateMilli;
    var s' := Apply(cfg, s, step);
    assert CallsOk(cfg, s'.calls) by {
      if step.Arrive? {
        TruncateTwice(step.now);
      }
      forall id | id in s'.calls ensures CallOk(cfg, s'.calls[id]) {
        assert id in s.calls ==> CallOk(cfg, s.calls[id]);
      }
    }
    CallChangeKeepsQueues(s.calls, step.id, s'.calls[step.id], s.tables.pending, s.drained);
    assert s'.calls == s.calls[step.id := s'.calls[step.id]];
  }

  lemma InsertStepKeepsInv(cfg: Config, s: State, id: int, acceptedAt: int)
    requires Inv(cfg, s) && Enabled(cfg, s, Insert(id, acceptedAt))
    ensures Inv(cfg, ApplyInsert(s, id, acceptedAt))
  {
    hide QueuesOk, JournalOk, TxnsOk, CallOk, PendingRowOf;
    var s' := ApplyInsert(s, id, acceptedAt);
    assert CallOk(cfg, s'.calls[id]) by {
      AcceptedCallOk(cfg, s.calls[id]);
    }
    InsertKeepsQueues(s.calls, id, acceptedAt, s.tables.pending, s.drained);
    GrowingQueueKeepsTxns(cfg, s.tables.chains, s.tables.pending, s'.tables.pending, s.drained, s.txns);
  }

  lemma AcceptedCallOk(cfg: Config, c: Call)
    requires CallOk(cfg, c)
    ensures CallOk(cfg, c.(phase := Accepted))
  {
  }

  // ----- taking and dropping a lock -----

  lemma LockStepKeepsInv(cfg: Config, s: State, k: int, key: ShardKey, chainId: string)
    requires Inv(cfg, s) && Enabled(cfg, s, Lock(k, key, chainId))
    ensures Inv(cfg, ApplyLock(cfg, s, k, key, chainId))
  {
    hide QueuesOk, JournalOk, CallsOk, StageOk;
    var s' := ApplyLock(cfg, s, k, key, chainId);
    assert s'.txns == s.txns[k := s'.txns[k]];
    forall j | j in s'.txns ensures TxnChainOk(cfg, s.tables.chains, s'.txns[j]) && StageOk(s.tables.pending, s.drained, s'.txns[j]) {
      if j == k {
        LockedStageOk(s.tables.pending, s.drained, s'.txns[k]);
      }
    }
    assert Exclusive(s'.txns);
  }

  lemma LockedStageOk(pending: map<int, PendingRow>, drained: map<ShardKey, seq<PendingRow>>, txn: Txn)
    requires txn.stage.Locked?
    ensures StageOk(pending, drained, txn)
  {
  }

  lemma AbortKeepsInv(cfg: Config, s: State, k: int)
    requires Inv(cfg, s) && k in s.txns
    ensures Inv(cfg, Close(s, k))
  {
    hide QueuesOk, JournalOk, CallsOk, StageOk, TxnChainOk;
  }

  // ----- draining and looking up -----

  /** A chain that a transaction holds is the log of its history, whether committed or new. */
  lemma TxnChainIsLog(cfg: Config, s: State, k: int)
    requires Inv(cfg, s) && k in s.txns
    ensures var txn := s.txns[k];
            ChainOk(cfg, txn.shard, txn.chain, ChainEvents(s.tables.events, txn.chain.id), DrainedOf(s.drained, txn.shard))
  {
    hide QueuesOk, CallsOk, StageOk, SealedLog, Exclusive;
    var txn := s.txns[k];
    var events := s.tables.events;
    assert TxnChainOk(cfg, s.tables.chains, txn);
    if txn.created {
      assert forall i :: 0 <= i < |events| ==> IsChainId(s.tables.chains, events[i].chainId);
      ChainEventsNone(events, txn.chain.id);
      assert DrainedOf(s.drained, txn.shard) == [];
      EmptyLog(cfg.digest, txn.chain.id, txn.chain.project);
    }
  }

  lemma EmptyLog(H: Digest, chainId: string, project: string)
    ensures SealedLog(H, chainId, project, []) == []
  {
  }

  /** Writing back a chain row, unchanged or new, keeps the journal in order. */
  lemma ChainRowWritten(cfg: Config, s: State, k: int)
    requires Inv(cfg, s) && k in s.txns
    ensures var txn := s.txns[k];
            JournalOk(cfg, s.tables.chains[txn.shard := txn.chain], s.tables.events, s.drained)
  {
    hide QueuesOk, CallsOk, StageOk, ChainOk, Exclusive;
    var txn := s.txns[k];
    var chains, chains' := s.tables.chains, s.tables.chains[txn.shard := txn.chain];
    assert TxnChainOk(cfg, chains, txn);
    TxnChainIsLog(cfg, s, k);
    assert ChainsOk(cfg, chains', s.tables.events, s.drained);
    hide ChainsOk;
    OwnersStay(chains, txn.shard, txn.chain, s.tables.events);
  }

  lemma OwnersStay(chains: map<ShardKey, ChainRow>, shard: ShardKey, row: ChainRow, events: seq<EventRow>)
    requires EventsOwned(chains, events) && (shard in chains ==> chains[shard].id == row.id)
    ensures EventsOwned(chains[shard := row], events)
  {
    var chains' := chains[shard := row];
    forall i | 0 <= i < |events| ensures IsChainId(chains', events[i].chainId) {
      assert IsChainId(chains, events[i].chainId);
      var sh :| sh in chains && chains[sh].id == events[i].chainId;
      assert sh in chains' && chains'[sh].id == chains[sh].id;
    }
  }

  /** The other transactions survive when one closes after writing its shard's chain row. */
  lemma OthersKeepChains(cfg: Config, chains: map<ShardKey, ChainRow>, txns: map<int, Txn>, k: int, row: ChainRow)
    requires k in txns && Exclusive(txns)
    requires forall j :: j in txns ==> TxnChainOk(cfg, chains, txns[j])
    requires row.id == txns[k].chain.id
    ensures forall j :: j in txns && j != k ==> TxnChainOk(cfg, chains[txns[k].shard := row], txns[j])
  {
    var chains' := chains[txns[k].shard := row];
    forall j | j in txns && j != k ensures TxnChainOk(cfg, chains', txns[j]) {
      assert TxnChainOk(cfg, chains, txns[j]) && TxnChainOk(cfg, chains, txns[k]);
      assert txns[j].shard != txns[k].shard;
    }
  }

  lemma DrainStepKeepsInv(cfg: Config, s: State, k: int, limit: nat, batch: seq<PendingRow>)
    requires Inv(cfg, s) && Enabled(cfg, s, Drain(k, limit, batch))
    ensures Inv(cfg, ApplyDrain(s, k, batch))
  {
    hide QueuesOk, JournalOk, CallsOk, ChainOk, TxnChainOk, StageOk;
    var s' := ApplyDrain(s, k, batch);
    if batch == [] {
      ChainRowWritten(cfg, s, k);
      OthersKeepChains(cfg, s.tables.chains, s.txns, k, s.txns[k].chain);
    } else {
      DrainedStageOk(s.tables.pending, s.drained, s'.txns[k], limit, batch);
      StageChangeKeepsChain(cfg, s.tables.chains, s.txns[k], s'.txns[k].stage);
      assert s'.txns == s.txns[k := s'.txns[k]];
    }
  }

  lemma DrainedStageOk(pending: map<int, PendingRow>, drained: map<ShardKey, seq<PendingRow>>, txn: Txn,
                       limit: nat, batch: seq<PendingRow>)
    requires IsDrain(pending, txn.shard, limit, batch) && txn.stage == Drained(batch)
    ensures StageOk(pending, drained, txn)
  {
  }

  lemma StageChangeKeepsChain(cfg: Config, chains: map<ShardKey, ChainRow>, txn: Txn, stage: Stage)
    requires TxnChainOk(cfg, chains, txn)
    ensures TxnChainOk(cfg, chains, txn.(stage := stage))
  {
  }

  lemma LookUpStepKeepsInv(cfg: Config, s: State, k: int)
    requires Inv(cfg, s) && Enabled(cfg, s, LookUp(k))
    ensures Inv(cfg, ApplyLookUp(s, k))
  {
    var txn := s.txns[k];
    var batch := txn.stage.batch;
    assert StageOk(s.tables.pending, s.drained, txn);
    LookUpIsOwnHistory(cfg, s, txn.shard, batch);
    hide QueuesOk, JournalOk, CallsOk, ExistingExternals, TxnChainOk;
    var s' := ApplyLookUp(s, k);
    StageChangeKeepsChain(cfg, s.tables.chains, txn, s'.txns[k].stage);
    assert StageOk(s.tables.pending, s.drained, s'.txns[k]);
    hide StageOk;
    assert s'.txns == s.txns[k := s'.txns[k]];
  }
}
