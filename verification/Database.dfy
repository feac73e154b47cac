/** The tables behind one connection, with the queries of server/internal/queries as methods. */
module Database {
  import opened Wrappers
  import opened Tables
  import opened Protocol
  import opened Invariants
  import opened Sequences
  import opened Sorting

  /** ORDER BY accepted_at ASC, id ASC. */
  predicate DrainOrder(a: PendingRow, b: PendingRow) {
    a.acceptedAt < b.acceptedAt || (a.acceptedAt == b.acceptedAt && a.id <= b.id)
  }

  lemma DrainOrderIsTotal()
    ensures TotalOrder(DrainOrder)
  {
  }

  function ShardRows(pending: map<int, PendingRow>, shard: ShardKey): set<PendingRow> {
    set id | id in pending && ShardOf(pending[id]) == shard :: pending[id]
  }

  predicate KeyedById(pending: map<int, PendingRow>) {
    forall id :: id in pending ==> pending[id].id == id
  }

  /** The first rows of a sorted listing of the shard's rows are a drain. */
  lemma FirstRowsAreDrain(pending: map<int, PendingRow>, shard: ShardKey, limit: nat, rows: seq<PendingRow>)
    requires KeyedById(pending) && multiset(rows) == multiset(ShardRows(pending, shard)) && Sorted(rows, DrainOrder)
    ensures IsDrain(pending, shard, limit, if |rows| <= limit then rows else rows[..limit])
  {
    ListedSet(rows, ShardRows(pending, shard));
    forall i | 0 <= i < |rows| ensures PendingInShard(pending, shard, rows[i]) {
      assert rows[i] in ShardRows(pending, shard);
    }
    forall i, j | 0 <= i < j < |rows| ensures Before(rows[i], rows[j]) {
      assert DrainOrder(rows[i], rows[j]) && rows[i] != rows[j];
    }
    var batch := if |rows| <= limit then rows else rows[..limit];
    forall id | id in pending && ShardOf(pending[id]) == shard && pending[id] !in batch
      ensures |batch| == limit && forall i :: 0 <= i < |batch| ==> Before(batch[i], pending[id])
    {
      assert pending[id] in rows;
      var j :| 0 <= j < |rows| && rows[j] == pending[id];
      assert forall i :: 0 <= i < |batch| ==> batch[i] == rows[i];
    }
  }

  /** What the two unique indexes of the journal refuse: an id twice, or an external id twice in one
      environment. */
  lemma IndexesHold(events: seq<EventRow>)
    ensures UniqueIds(events) && UniqueExternals(events)
      <==> forall i, j :: 0 <= i < j < |events| ==>
             && events[i].id != events[j].id
             && (events[i].env == events[j].env && events[i].externalId.Some? ==> events[i].externalId != events[j].externalId)
  {
  }

  class Database {
    const envs: map<string, Tenant>
    var idempotency: map<(string, string), AcceptedResponse>
    var pending: map<int, PendingRow>
    var chains: map<ShardKey, ChainRow>
    var events: seq<EventRow>
    var checkpoints: seq<Checkpoint>

    /** Chain rows that other transactions hold FOR UPDATE. */
    var heldElsewhere: set<ShardKey>

    constructor (envs: map<string, Tenant>)
      ensures Valid() && this.envs == envs && heldElsewhere == {}
      ensures Snapshot() == Tables(map[], map[], map[], [], [])
    {
      this.envs := envs;
      idempotency, pending, chains, events, checkpoints := map[], map[], map[], [], [];
      heldElsewhere := {};
    }

    function Snapshot(): Tables
      reads this
    {
      Tables(idempotency, pending, chains, events, checkpoints)
    }

    /** Primary keys, and locks on existing rows only. */
    predicate Valid()
      reads this
    {
      KeyedById(pending) && ChainIdsUnique(chains) && heldElsewhere <= chains.Keys
    }

    predicate IsFreshChainId(id: string)
      reads this
    {
      forall sh :: sh in chains ==> chains[sh].id != id
    }

    /** ROLLBACK. */
    method Rollback(to: Tables)
      modifies this
      ensures Snapshot() == to && heldElsewhere == old(heldElsewhere)
    {
      idempotency, pending, chains, events, checkpoints :=
        to.idempotency, to.pending, to.chains, to.events, to.checkpoints;
    }

    // ----- chains.sql -----

    /** INSERT ... SELECT FROM environments ... ON CONFLICT DO NOTHING. */
    method EnsureShardChainFromEnv(shard: ShardKey, newId: string)
      requires Valid() && IsFreshChainId(newId)
      modifies this`chains
      ensures Valid()
      ensures chains == if shard !in old(chains) && shard.env in envs
                        then old(chains)[shard := ChainRow(newId, envs[shard.env].org, envs[shard.env].project, 0, None)]
                        else old(chains)
    {
      if shard.env in envs && shard !in chains {
        chains := chains[shard := ChainRow(newId, envs[shard.env].org, envs[shard.env].project, 0, None)];
      }
    }

    /** SELECT ... FOR UPDATE SKIP LOCKED. */
    method LockShardChain(shard: ShardKey) returns (row: Option<ChainRow>)
      ensures row == if shard in chains && shard !in heldElsewhere then Some(chains[shard]) else None
    {
      row := None;
      if shard in chains && shard !in heldElsewhere {
        row := Some(chains[shard]);
      }
    }

    /** UPDATE chains ... WHERE id = $1. */
    method UpdateShardTip(id: string, latestPosition: int, latestHash: string)
      requires Valid()
      modifies this`chains
      ensures Valid() && chains.Keys == old(chains).Keys
      ensures forall sh :: sh in chains ==>
                chains[sh] == if old(chains)[sh].id != id then old(chains)[sh]
                              else old(chains)[sh].(latestPosition := latestPosition, latestHash := Some(latestHash))
    {
      chains := map sh | sh in chains ::
        if chains[sh].id != id then chains[sh]
        else chains[sh].(latestPosition := latestPosition, latestHash := Some(latestHash));
    }

    method InsertChainCheckpoint(c: Checkpoint)
      modifies this`checkpoints
      ensures checkpoints == old(checkpoints) + [c]
    {
      checkpoints := checkpoints + [c];
    }

    // ----- pending.sql -----

    /** The shard's oldest rows, at most `limit`. */
    method DrainPendingForShard(shard: ShardKey, limit: nat) returns (batch: seq<PendingRow>)
      requires Valid()
      ensures IsDrain(pending, shard, limit, batch)
      ensures |batch| == (if |ShardRows(pending, shard)| <= limit then |ShardRows(pending, shard)| else limit)
      ensures forall i :: 0 <= i < |batch| ==>
                && batch[i].id in pending && pending[batch[i].id] == batch[i]
                && batch[i].env == shard.env && batch[i].shard == shard.shard
      ensures forall i, j :: 0 <= i < j < |batch| ==>
                || batch[i].acceptedAt < batch[j].acceptedAt
                || (batch[i].acceptedAt == batch[j].acceptedAt && batch[i].id < batch[j].id)
      ensures forall i, id :: && 0 <= i < |batch| && id in pending && pending[id] !in batch
                              && pending[id].env == shard.env && pending[id].shard == shard.shard ==>
                || batch[i].acceptedAt < pending[id].acceptedAt
                || (batch[i].acceptedAt == pending[id].acceptedAt && batch[i].id < id)
    {
      DrainOrderIsTotal();
      var rows := Elements(ShardRows(pending, shard));
      rows := Sort(rows, DrainOrder);
      FirstRowsAreDrain(pending, shard, limit, rows);
      assert |rows| == |multiset(rows)| == |multiset(ShardRows(pending, shard))| == |ShardRows(pending, shard)|;
      batch := if |rows| <= limit then rows else rows[..limit];
    }

    method InsertPendingEvent(row: PendingRow)
      requires Valid() && row.id !in pending
      modifies this`pending
      ensures Valid() && pending == old(pending)[row.id := row]
    {
      pending := pending[row.id := row];
    }

    method DeletePendingByIds(ids: seq<int>)
      requires Valid()
      modifies this`pending
      ensures Valid() && pending == old(pending) - (set i | 0 <= i < |ids| :: ids[i])
    {
      pending := pending - (set i | 0 <= i < |ids| :: ids[i]);
    }

    // ----- events.sql, and COPY events -----

    /** External ids of the environment's journal that are among the candidates. */
    method ExistingExternalEventIDs(env: string, candidates: seq<string>) returns (found: seq<string>)
      ensures forall x :: x in found <==> x in ExistingExternals(events, env, set i | 0 <= i < |candidates| :: candidates[i])
      ensures forall x :: x in found <==>
                exists k :: 0 <= k < |events| && events[k].env == env && events[k].externalId == Some(x) && x in candidates
    {
      found := [];
      for i := 0 to |events|
        invariant forall x :: x in found <==>
                    exists k :: 0 <= k < i && events[k].env == env && events[k].externalId == Some(x) && x in candidates
      {
        var e := events[i];
        if e.env == env && e.externalId.Some? && e.externalId.value in candidates {
          found := found + [e.externalId.value];
        }
      }
    }

    /** COPY: all rows, or none if a unique index refuses one. */
    method CopyEvents(rows: seq<EventRow>) returns (ok: bool)
      modifies this`events
      ensures ok <==> UniqueIds(old(events) + rows) && UniqueExternals(old(events) + rows)
      ensures events == if ok then old(events) + rows else old(events)
    {
      ok := UniqueIds(events + rows) && UniqueExternals(events + rows);
      if ok {
        events := events + rows;
      }
    }

    // ----- idempotency.sql -----

    /** INSERT ... ON CONFLICT DO NOTHING RETURNING id. */
    method ClaimIdempotencyKey(key: (string, string), body: AcceptedResponse) returns (won: bool)
      modifies this`idempotency
      ensures won <==> key !in old(idempotency)
      ensures idempotency == if won then old(idempotency)[key := body] else old(idempotency)
    {
      won := key !in idempotency;
      if won {
        idempotency := idempotency[key := body];
      }
    }

    method GetIdempotentResponse(key: (string, string)) returns (body: Option<AcceptedResponse>)
      ensures body == if key in idempotency then Some(idempotency[key]) else None
    {
      body := if key in idempotency then Some(idempotency[key]) else None;
    }
  }
}
