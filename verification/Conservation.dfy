/** Conservation: every accepted event is in exactly one of three places. */
module Conservation {
  import opened Wrappers
  import opened Content
  import opened Tables
  import opened Sealing
  import opened Protocol
  import opened Invariants
  import opened JournalFacts
  import opened Safety

  predicate IsPending(s: State, id: int) {
    id in s.tables.pending
  }

  predicate IsJournaled(s: State, id: int) {
    exists i :: 0 <= i < |s.tables.events| && s.tables.events[i].id == id
  }

  predicate HoldsExternal(e: EventRow, id: int, externalId: string, env: string) {
    e.id != id && e.env == env && e.externalId == Some(externalId)
  }

  /** Another event holds the external id, sealed in the same environment. */
  predicate IsSuperseded(s: State, id: int, e: EventInput, env: string) {
    && e.externalEventId != ""
    && exists i :: 0 <= i < |s.tables.events| && HoldsExternal(s.tables.events[i], id, e.externalEventId, env)
  }

  /** The row at j is kept and carries external id x. */
  predicate Keeps(rows: seq<PendingRow>, j: nat, x: Option<string>)
    requires j < |rows|
  {
    rows[j] in FirstOccurrences(rows, {}) && rows[j].externalId == x
  }

  lemma KeepsLonger(rows: seq<PendingRow>, n: nat, j: nat, x: Option<string>)
    requires j < n == |rows| - 1 && Keeps(rows[..n], j, x)
    ensures Keeps(rows, j, x)
  {
    assert rows[..n][j] == rows[j];
  }

  lemma KeptAt(rows: seq<PendingRow>, x: string) returns (j: nat)
    requires x in Externals(rows)
    ensures j < |rows| && Keeps(rows, j, Some(x))
  {
    var kept := FirstOccurrences(rows, {});
    KeptExternals(rows, {});
    assert x in Externals(kept);
    var a :| 0 <= a < |kept| && HasExternal(kept[a]) && kept[a].externalId.value == x;
    j :| 0 <= j < |rows| && rows[j] == kept[a];
  }

  /** A row is kept, or an earlier row with its external id is. */
  lemma {:induction false} KeptOrDuplicate(rows: seq<PendingRow>, i: nat)
    requires i < |rows|
    ensures Keeps(rows, i, rows[i].externalId)
            || (HasExternal(rows[i]) && exists j :: 0 <= j < i && Keeps(rows, j, rows[i].externalId))
  {
    hide Keeps, HasExternal;
    var n := |rows| - 1;
    var init := rows[..n];
    if i < n {
      KeptOrDuplicate(init, i);
      assert init[i] == rows[i];
      if Keeps(init, i, rows[i].externalId) {
        KeepsLonger(rows, n, i, rows[i].externalId);
      } else {
        var j :| 0 <= j < i && Keeps(init, j, rows[i].externalId);
        KeepsLonger(rows, n, j, rows[i].externalId);
      }
    } else {
      LastKeptOrDuplicate(rows);
    }
  }

  lemma LastKeptOrDuplicate(rows: seq<PendingRow>)
    requires |rows| > 0
    ensures var n := |rows| - 1;
            Keeps(rows, n, rows[n].externalId)
            || (HasExternal(rows[n]) && exists j :: 0 <= j < n && Keeps(rows, j, rows[n].externalId))
  {
    var n := |rows| - 1;
    var init := rows[..n];
    assert {} + Externals(init) == Externals(init);
    if IsDuplicate(rows[n], Externals(init)) {
      var j := KeptAt(init, rows[n].externalId.value);
      KeepsLonger(rows, n, j, rows[n].externalId);
    }
  }

  /** A kept row has a journal row. */
  lemma KeptIsJournaled(cfg: Config, s: State, shard: ShardKey, p: PendingRow) returns (e: EventRow)
    requires Inv(cfg, s) && p in FirstOccurrences(DrainedOf(s.drained, shard), {})
    ensures e in s.tables.events && e.id == p.id && e.env == p.env
    ensures e.externalId == p.externalId
    ensures FromCall(s.calls, p)
  {
    hide CallsOk, TxnsOk, PendingOk, NothingLost, FromCall, SealedFrom, EnvelopeExternalId;
    var history := DrainedOf(s.drained, shard);
    var kept := FirstOccurrences(history, {});
    var chain := s.tables.chains[shard];
    var a :| 0 <= a < |kept| && kept[a] == p;
    LinkRowsFrom(cfg.digest, chain.id, chain.project, "", 1, kept, a);
    var log := SealedLog(cfg.digest, chain.id, chain.project, history);
    e := log[a];
    SealedFromFields(e, p, chain.id, chain.project);
    assert ChainOk(cfg, shard, chain, ChainEvents(s.tables.events, chain.id), history);
    assert HistoryOk(s.calls, s.tables.pending, shard, history);
    RowExternal(s.calls, p);
  }

  /** A journal row comes from the kept row with its id. */
  lemma JournaledIsKept(cfg: Config, s: State, e: EventRow) returns (shard: ShardKey, p: PendingRow)
    requires Inv(cfg, s) && e in s.tables.events
    ensures p in FirstOccurrences(DrainedOf(s.drained, shard), {}) && p.id == e.id
    ensures FromCall(s.calls, p) && ShardOf(p) == shard && e.id !in s.tables.pending
  {
    hide CallsOk, TxnsOk, PendingOk, NothingLost, FromCall, SealedFrom, EnvelopeExternalId;
    var source;
    shard, source := EventChain(cfg, s, e);
    var history := DrainedOf(s.drained, shard);
    var kept := FirstOccurrences(history, {});
    var chain := s.tables.chains[shard];
    var log := SealedLog(cfg.digest, chain.id, chain.project, history);
    var a :| 0 <= a < |log| && log[a] == e;
    LinkRowsFrom(cfg.digest, chain.id, chain.project, "", 1, kept, a);
    p := kept[a];
    SealedFromFields(e, p, chain.id, chain.project);
    SealedFromFields(e, source, chain.id, chain.project);
    assert HistoryOk(s.calls, s.tables.pending, shard, history);
  }

  lemma PendingIsAccepted(cfg: Config, s: State, id: int)
    requires Inv(cfg, s) && id in s.tables.pending
    ensures id in s.calls && s.calls[id].phase.Accepted?
  {
    hide CallsOk, TxnsOk, JournalOk, DrainedOk, NothingLost;
    assert FromCall(s.calls, s.tables.pending[id]);
  }

  /** Pending rows and journal rows belong to accepted calls, and no id is in both or twice in
      the journal. */
  lemma PlacesAreExclusive(cfg: Config, s: State, id: int)
    requires Reachable(cfg, s)
    ensures IsPending(s, id) || IsJournaled(s, id) ==> id in s.calls && s.calls[id].phase.Accepted?
    ensures !(IsPending(s, id) && IsJournaled(s, id))
    ensures UniqueIds(s.tables.events)
  {
    hide Reachable, Inv, IsJournaled, UniqueIds, UniqueExternals;
    ReachableInv(cfg, s);
    JournalUnique(cfg, s);
    if IsPending(s, id) {
      PendingIsAccepted(cfg, s, id);
    }
    if IsJournaled(s, id) {
      JournaledIsAccepted(cfg, s, id);
    }
  }

  lemma JournaledIsAccepted(cfg: Config, s: State, id: int)
    requires Inv(cfg, s) && IsJournaled(s, id)
    ensures id in s.calls && s.calls[id].phase.Accepted? && id !in s.tables.pending
  {
    hide Inv, FirstOccurrences;
    var i :| 0 <= i < |s.tables.events| && s.tables.events[i].id == id;
    var shard, p := JournaledIsKept(cfg, s, s.tables.events[i]);
  }

  /** In every reachable state an accepted event is pending, or in the journal once, or was
      dropped because a sealed event of its environment holds its external id; never two of these. */
  lemma AcceptedIsConserved(cfg: Config, s: State, id: int)
    requires Reachable(cfg, s) && id in s.calls && s.calls[id].phase.Accepted?
    ensures var c := s.calls[id];
            || (IsPending(s, id) && !IsJournaled(s, id))
            || (!IsPending(s, id) && IsJournaled(s, id))
            || (!IsPending(s, id) && !IsJournaled(s, id) && IsSuperseded(s, id, c.request.event, c.request.env))
    ensures var r, events := s.calls[id].request, s.tables.events;
            id !in s.tables.pending && (forall e :: e in events ==> e.id != id) ==>
              && r.event.externalEventId != ""
              && exists e :: && e in events && e.id != id && e.env == r.env
                             && e.externalId == Some(r.event.externalEventId)
  {
    hide Reachable, Inv, UniqueIds;
    PlacesAreExclusive(cfg, s, id);
    ReachableInv(cfg, s);
    if !IsPending(s, id) && !IsJournaled(s, id) {
      DroppedIsSuperseded(cfg, s, id);
    }
  }

  lemma DroppedIsSuperseded(cfg: Config, s: State, id: int)
    requires Inv(cfg, s) && id in s.calls && s.calls[id].phase.Accepted?
    requires !IsPending(s, id) && !IsJournaled(s, id)
    ensures IsSuperseded(s, id, s.calls[id].request.event, s.calls[id].request.env)
  {
    hide CallsOk, TxnsOk, JournalOk, PendingOk;
    var home := CallShard(s.calls[id]);
    var history := DrainedOf(s.drained, home);
    var i :| 0 <= i < |history| && history[i].id == id;
    assert HistoryOk(s.calls, s.tables.pending, home, history);
    KeptOrDuplicate(history, i);
    SupersededByKept(cfg, s, home, i);
  }

  lemma SupersededByKept(cfg: Config, s: State, home: ShardKey, i: nat)
    requires Inv(cfg, s) && i < |DrainedOf(s.drained, home)|
    requires var history := DrainedOf(s.drained, home);
             && !IsJournaled(s, history[i].id)
             && (Keeps(history, i, history[i].externalId)
                 || (HasExternal(history[i]) && exists j :: 0 <= j < i && Keeps(history, j, history[i].externalId)))
    ensures var id := DrainedOf(s.drained, home)[i].id;
            id in s.calls && IsSuperseded(s, id, s.calls[id].request.event, s.calls[id].request.env)
  {
    hide CallsOk, TxnsOk, JournalOk, PendingOk, NothingLost;
    var history := DrainedOf(s.drained, home);
    assert HistoryOk(s.calls, s.tables.pending, home, history);
    assert FromCall(s.calls, history[i]);
    if Keeps(history, i, history[i].externalId) {
      var e := KeptIsJournaled(cfg, s, home, history[i]);
      assert false;
    } else {
      var j :| 0 <= j < i && Keeps(history, j, history[i].externalId);
      var e := KeptIsJournaled(cfg, s, home, history[j]);
      assert history[j].id != history[i].id;
      RowExternal(s.calls, history[i]);
      assert ShardOf(history[j]) == ShardOf(history[i]);
      var request := s.calls[history[i].id].request;
      assert HoldsExternal(e, history[i].id, request.event.externalEventId, request.env);
    }
  }
}
