/** Safety of every run: the invariant is inductive, the journal's unique indexes always hold,
    and no batch ever fails on them. */
module Safety {
  import opened HashChain
  import opened Tables
  import opened Sealing
  import opened Protocol
  import opened Invariants
  import opened JournalFacts
  import opened Preservation
  import opened CommitStep

  // ----- the unique indexes follow from the invariant -----

  /** Where two rows of one chain stand in that chain's own list. */
  lemma {:induction false} ChainEventsOrder(events: seq<EventRow>, i: nat, j: nat) returns (a: nat, b: nat)
    requires i < j < |events| && events[i].chainId == events[j].chainId
    ensures var list := ChainEvents(events, events[i].chainId);
            a < b < |list| && list[a] == events[i] && list[b] == events[j]
  {
    var n := |events| - 1;
    var init := events[..n];
    if j < n {
      a, b := ChainEventsOrder(init, i, j);
    } else {
      ChainEventsComplete(init, events[i]);
      var list := ChainEvents(init, events[i].chainId);
      a :| 0 <= a < |list| && list[a] == events[i];
      b := |list|;
    }
  }

  lemma {:induction false} KeptDistinctIds(rows: seq<PendingRow>, seen: set<string>)
    requires DistinctIds(rows)
    ensures DistinctIds(FirstOccurrences(rows, seen))
  {
    if rows == [] {
    } else {
      var n := |rows| - 1;
      var init := rows[..n];
      var kept := FirstOccurrences(init, seen);
      KeptDistinctIds(init, seen);
      forall i | 0 <= i < |kept| ensures kept[i].id != rows[n].id {
        var j :| 0 <= j < |init| && init[j] == kept[i];
        assert rows[j] == kept[i];
      }
    }
  }

  /** A log's rows have distinct ids, and distinct external ids. */
  lemma LogUnique(H: Digest, calls: map<int, Call>, chainId: string, project: string, drained: seq<PendingRow>)
    requires DistinctIds(drained) && forall i :: 0 <= i < |drained| ==> FromCall(calls, drained[i])
    ensures var log := SealedLog(H, chainId, project, drained); UniqueIds(log) && UniqueExternals(log)
  {
    hide SealedFrom, FromCall, LinkRows, EnvelopeExternalId;
    var kept := FirstOccurrences(drained, {});
    var log := SealedLog(H, chainId, project, drained);
    KeptDistinctIds(drained, {});
    KeptAreDistinct(drained, {});
    forall i | 0 <= i < |log|
      ensures log[i].id == kept[i].id && log[i].externalId == kept[i].externalId
      ensures HasExternal(kept[i]) <==> kept[i].externalId.Some?
    {
      LinkRowsFrom(H, chainId, project, "", 1, kept, i);
      SealedFromFields(log[i], kept[i], chainId, project);
      var j :| 0 <= j < |drained| && drained[j] == kept[i];
      RowExternal(calls, kept[i]);
    }
  }

  lemma SealedFromFields(e: EventRow, p: PendingRow, chainId: string, project: string)
    requires SealedFrom(e, p, chainId, project)
    ensures e.id == p.id && e.env == p.env && e.externalId == NullIfEmpty(EnvelopeExternalId(p.data))
  {
  }

  lemma SameChainUnique(cfg: Config, s: State, i: nat, j: nat)
    requires Inv(cfg, s) && i < j < |s.tables.events| && s.tables.events[i].chainId == s.tables.events[j].chainId
    ensures s.tables.events[i].id != s.tables.events[j].id
    ensures s.tables.events[i].env == s.tables.events[j].env && s.tables.events[i].externalId.Some? ==>
              s.tables.events[i].externalId != s.tables.events[j].externalId
  {
    hide CallsOk, TxnsOk, FromCall, SealedLog, SealedFrom;
    var events := s.tables.events;
    var e := events[i];
    assert e in events;
    var home, p := EventChain(cfg, s, e);
    var chain := s.tables.chains[home];
    var history := DrainedOf(s.drained, home);
    assert HistoryOk(s.calls, s.tables.pending, home, history);
    LogUnique(cfg.digest, s.calls, chain.id, chain.project, history);
    assert ChainOk(cfg, home, chain, ChainEvents(events, chain.id), history);
    var a, b := ChainEventsOrder(events, i, j);
  }

  /** Two journal rows with one id, or one external id in one environment, are of one chain. */
  lemma SharedKeySameChain(cfg: Config, s: State, e: EventRow, f: EventRow)
    requires Inv(cfg, s) && e in s.tables.events && f in s.tables.events
    requires e.id == f.id || (e.env == f.env && e.externalId.Some? && e.externalId == f.externalId)
    ensures e.chainId == f.chainId
  {
    hide TxnsOk, QueuesOk, JournalOk, CallsOk, SealedLog, EnvelopeExternalId;
    var home, p := EventChain(cfg, s, e);
    var home', q := EventChain(cfg, s, f);
    if e.id == f.id {
      assert ShardOf(p) == CallShard(s.calls[p.id]) == ShardOf(q);
    } else {
      RowExternal(s.calls, p);
      RowExternal(s.calls, q);
      SameExternalSameShard(cfg, s.calls, p, q);
    }
  }

  lemma JournalUnique(cfg: Config, s: State)
    requires Inv(cfg, s)
    ensures UniqueIds(s.tables.events) && UniqueExternals(s.tables.events)
    ensures var events := s.tables.events;
            forall i, j :: 0 <= i < j < |events| ==>
              && events[i].id != events[j].id
              && (events[i].env == events[j].env && events[i].externalId.Some? ==> events[i].externalId != events[j].externalId)
  {
    hide Inv;
    var events := s.tables.events;
    forall i, j | 0 <= i < j < |events|
      ensures events[i].id != events[j].id
      ensures events[i].env == events[j].env && events[i].externalId.Some? ==> events[i].externalId != events[j].externalId
    {
      if events[i].chainId == events[j].chainId {
        SameChainUnique(cfg, s, i, j);
      } else if events[i].id == events[j].id
                || (events[i].env == events[j].env && events[i].externalId.Some? && events[i].externalId == events[j].externalId) {
        SharedKeySameChain(cfg, s, events[i], events[j]);
      }
    }
  }

  /** No shard wedges: whatever other sealers did since the look-up, the copy of a batch
      breaks no constraint. */
  lemma CopyAlwaysSucceeds(cfg: Config, s: State, k: int)
    requires Inv(cfg, s) && k in s.txns && s.txns[k].stage.LookedUp?
    ensures CopySucceeds(cfg.digest, s.tables, s.txns[k].chain, s.txns[k].stage.batch, s.txns[k].stage.already)
    ensures ApplyCommit(cfg, s, k) == Committed(cfg, s, k)
  {
    hide Inv, NewRows, SealedTables;
    var txn := s.txns[k];
    CommittedKeepsInv(cfg, s, k);
    JournalUnique(cfg, Committed(cfg, s, k));
    SealedTablesParts(cfg.digest, s.tables, txn.shard, txn.chain, txn.stage.batch, txn.stage.already);
  }

  // ----- every step, every run -----

  lemma StepKeepsInv(cfg: Config, s: State, step: Step)
    requires Inv(cfg, s) && Enabled(cfg, s, step)
    ensures Inv(cfg, Apply(cfg, s, step))
  {
    hide Inv, ApplyCommit, ApplyDrain, ApplyLookUp, ApplyLock, ApplyInsert, Close;
    match step
    case Arrive(_, _, _, _) => CallStepKeepsInv(cfg, s, step);
    case Claim(_) => CallStepKeepsInv(cfg, s, step);
    case Replay(_) => CallStepKeepsInv(cfg, s, step);
    case Insert(id, acceptedAt) => InsertStepKeepsInv(cfg, s, id, acceptedAt);
    case Fail(_) => CallStepKeepsInv(cfg, s, step);
    case Lock(k, key, chainId) => LockStepKeepsInv(cfg, s, k, key, chainId);
    case Drain(k, limit, batch) => DrainStepKeepsInv(cfg, s, k, limit, batch);
    case LookUp(k) => LookUpStepKeepsInv(cfg, s, k);
    case Commit(k) =>
      CopyAlwaysSucceeds(cfg, s, k);
      CommittedKeepsInv(cfg, s, k);
    case Abort(k) => AbortKeepsInv(cfg, s, k);
  }

  lemma {:induction false} RunKeepsInv(cfg: Config, s: State, steps: seq<Step>)
    requires Inv(cfg, s) && Executable(cfg, s, steps)
    ensures Inv(cfg, Exec(cfg, s, steps))
    decreases |steps|
  {
    hide Inv, Enabled, Apply;
    if steps == [] {
    } else {
      StepKeepsInv(cfg, s, steps[0]);
      RunKeepsInv(cfg, Apply(cfg, s, steps[0]), steps[1..]);
    }
  }

  lemma InvInit(cfg: Config)
    ensures Inv(cfg, INIT)
  {
  }

  lemma ReachableInv(cfg: Config, s: State)
    requires Reachable(cfg, s)
    ensures Inv(cfg, s)
  {
    hide Inv;
    var steps :| Executable(cfg, INIT, steps) && Exec(cfg, INIT, steps) == s;
    InvInit(cfg);
    RunKeepsInv(cfg, INIT, steps);
  }
}
