/** SealShard and its helpers (server/internal/sealer/sealer.go), statement by statement. */
module Sealer {
  import opened Wrappers
  import opened HashChain
  import opened Tables
  import opened Sealing
  import opened Protocol
  import opened Invariants
  import opened Sequences
  import opened Database
  import opened SealRuns

  // ----- dedupePending -----

  /** The ids of the rows that deduplication drops. */
  function DuplicateIds(rows: seq<PendingRow>, seen: set<string>): seq<int> {
    if rows == [] then []
    else
      var init, last := rows[..|rows| - 1], rows[|rows| - 1];
      DuplicateIds(init, seen) + (if IsDuplicate(last, seen + Externals(init)) then [last.id] else [])
  }

  /** The rows at the given indices. */
  function Select(rows: seq<PendingRow>, indices: seq<nat>): (r: seq<PendingRow>)
    requires forall i :: 0 <= i < |indices| ==> indices[i] < |rows|
    ensures |r| == |indices| && forall i :: 0 <= i < |r| ==> r[i] == rows[indices[i]]
  {
    seq(|indices|, i requires 0 <= i < |indices| => rows[indices[i]])
  }

  predicate IndicesBelow(indices: seq<nat>, n: nat) {
    forall i :: 0 <= i < |indices| ==> indices[i] < n
  }

  /** All non-empty external ids of the batch, in order. */
  method Candidates(rows: seq<PendingRow>) returns (candidates: seq<string>)
    ensures (set i | 0 <= i < |candidates| :: candidates[i]) == Externals(rows)
    ensures forall x :: x in candidates <==> x != "" && exists i :: 0 <= i < |rows| && rows[i].externalId == Some(x)
  {
    candidates := [];
    for i := 0 to |rows|
      invariant forall x :: x in candidates <==> exists k :: 0 <= k < i && HasExternal(rows[k]) && rows[k].externalId.value == x
    {
      if rows[i].externalId.Some? && rows[i].externalId.value != "" {
        candidates := candidates + [rows[i].externalId.value];
      }
    }
    forall x ensures x in candidates <==> x in Externals(rows) {
    }
  }

  lemma FirstOccurrencesStep(rows: seq<PendingRow>, seen: set<string>, i: nat)
    requires i < |rows|
    ensures var dropped := IsDuplicate(rows[i], seen + Externals(rows[..i]));
            && FirstOccurrences(rows[..i + 1], seen) == FirstOccurrences(rows[..i], seen) + (if dropped then [] else [rows[i]])
            && DuplicateIds(rows[..i + 1], seen) == DuplicateIds(rows[..i], seen) + (if dropped then [rows[i].id] else [])
    ensures Externals(rows[..i + 1]) == Externals(rows[..i]) + (if HasExternal(rows[i]) then {rows[i].externalId.value} else {})
  {
    assert rows[..i + 1][..i] == rows[..i];
    assert rows[..i + 1] == rows[..i] + [rows[i]];
    ExternalsAppend(rows[..i], [rows[i]]);
    ExternalsSingle(rows[i]);
  }

  lemma NewExactly(rows: seq<PendingRow>, i: nat, seen: set<string>)
    requires i < |rows|
    ensures IsNew(rows, i, seen) <==> !IsDuplicate(rows[i], seen + Externals(rows[..i]))
  {
    CarriedExternals(rows[..i]);
    hide Externals;
    if HasExternal(rows[i]) {
      var x := rows[i].externalId.value;
      if Carries(rows[..i], x) {
        var j :| 0 <= j < i && rows[..i][j].externalId == Some(x);
        assert rows[j].externalId == Some(x);
      } else {
        forall j | 0 <= j < i ensures rows[j].externalId != Some(x) {
          assert rows[..i][j] == rows[j];
        }
      }
    }
  }

  /** The dropped ids are those of the rows that are not new. */
  lemma {:induction false} DroppedExactly(rows: seq<PendingRow>, seen: set<string>, x: int)
    ensures x in DuplicateIds(rows, seen) <==> exists i :: 0 <= i < |rows| && !IsNew(rows, i, seen) && rows[i].id == x
  {
    if rows == [] {
    } else {
      var n := |rows| - 1;
      var init := rows[..n];
      DroppedExactly(init, seen, x);
      NewExactly(rows, n, seen);
      forall i | 0 <= i < n ensures IsNew(init, i, seen) <==> IsNew(rows, i, seen) {
        NewInPrefix(rows, n, i, seen);
      }
      hide IsNew, Externals;
      if x in DuplicateIds(init, seen) {
        var i :| 0 <= i < n && !IsNew(init, i, seen) && init[i].id == x;
        assert rows[i].id == x;
      }
      if i :| 0 <= i < n && !IsNew(rows, i, seen) && rows[i].id == x {
        assert init[i].id == x;
      }
    }
  }

  lemma NewInPrefix(rows: seq<PendingRow>, n: nat, i: nat, seen: set<string>)
    requires i < n <= |rows|
    ensures IsNew(rows[..n], i, seen) <==> IsNew(rows, i, seen)
  {
    assert rows[..n][i] == rows[i];
    forall j | 0 <= j < i ensures rows[..n][j] == rows[j] {
    }
  }

  /** Keeps the rows whose external id is new to the journal and to the batch. */
  method SelectFirstOccurrences(pending: seq<PendingRow>, already: set<string>)
    returns (keepIdx: seq<nat>, droppedIds: seq<int>)
    ensures IndicesBelow(keepIdx, |pending|) && Select(pending, keepIdx) == FirstOccurrences(pending, already)
    ensures droppedIds == DuplicateIds(pending, already)
    ensures forall k, l :: 0 <= k < l < |keepIdx| ==> keepIdx[k] < keepIdx[l]
    ensures forall i :: 0 <= i < |pending| ==> (i in keepIdx <==> IsNew(pending, i, already))
  {
    hide FirstOccurrences, DuplicateIds, Externals, IsNew;
    var seenInBatch: set<string> := {};
    keepIdx, droppedIds := [], [];
    NoRows(already);
    for i := 0 to |pending|
      invariant IndicesBelow(keepIdx, i) && Select(pending, keepIdx) == FirstOccurrences(pending[..i], already)
      invariant droppedIds == DuplicateIds(pending[..i], already)
      invariant already + seenInBatch == already + Externals(pending[..i])
      invariant forall k, l :: 0 <= k < l < |keepIdx| ==> keepIdx[k] < keepIdx[l]
      invariant forall k :: 0 <= k < i ==> (k in keepIdx <==> IsNew(pending, k, already))
    {
      FirstOccurrencesStep(pending, already, i);
      NewExactly(pending, i, already);
      var p := pending[i];
      if p.externalId.None? || p.externalId.value == "" {
        keepIdx := keepIdx + [i];
      } else if p.externalId.value in already {
        droppedIds := droppedIds + [p.id];
      } else if p.externalId.value in seenInBatch {
        droppedIds := droppedIds + [p.id];
      } else {
        seenInBatch := seenInBatch + {p.externalId.value};
        keepIdx := keepIdx + [i];
      }
    }
    assert pending[..|pending|] == pending;
  }

  lemma NoRows(seen: set<string>)
    ensures FirstOccurrences([], seen) == [] && DuplicateIds([], seen) == [] && Externals([]) == {}
  {
  }

  /** The external ids in the environment's journal. */
  function JournalExternals(events: seq<EventRow>, env: string): set<string> {
    set i | 0 <= i < |events| && events[i].env == env && events[i].externalId.Some? :: events[i].externalId.value
  }

  /** Of the journal's external ids only those among the candidates matter. */
  lemma OnlyCandidatesMatter(events: seq<EventRow>, env: string, pending: seq<PendingRow>, i: nat)
    requires i < |pending|
    ensures IsNew(pending, i, ExistingExternals(events, env, Externals(pending)))
      <==> IsNew(pending, i, JournalExternals(events, env))
  {
    if HasExternal(pending[i]) {
      ExternalsMember(pending, i);
    }
  }

  /** dedupePending: keeps first occurrences relative to the environment's journal. */
  method DedupePending(db: Database, env: string, pending: seq<PendingRow>)
    returns (keepIdx: seq<nat>, droppedIds: seq<int>)
    ensures var already := ExistingExternals(db.events, env, Externals(pending));
            && IndicesBelow(keepIdx, |pending|) && Select(pending, keepIdx) == FirstOccurrences(pending, already)
            && droppedIds == DuplicateIds(pending, already)
    ensures forall k, l :: 0 <= k < l < |keepIdx| ==> keepIdx[k] < keepIdx[l]
    ensures forall i :: 0 <= i < |pending| ==>
              (i in keepIdx <==> IsNew(pending, i, JournalExternals(db.events, env)))
  {
    hide FirstOccurrences, DuplicateIds, Externals;
    var candidates := Candidates(pending);
    var already: set<string> := {};
    if |candidates| > 0 {
      var existing := db.ExistingExternalEventIDs(env, candidates);
      for i := 0 to |existing|
        invariant forall x :: x in already <==> x in existing[..i]
      {
        already := already + {existing[i]};
      }
      assert existing[..|existing|] == existing;
    }
    assert already == ExistingExternals(db.events, env, Externals(pending));
    keepIdx, droppedIds := SelectFirstOccurrences(pending, already);
    hide IsNew, ExistingExternals, JournalExternals;
    forall i | 0 <= i < |pending|
      ensures IsNew(pending, i, already) <==> IsNew(pending, i, JournalExternals(db.events, env))
    {
      OnlyCandidatesMatter(db.events, env, pending, i);
    }
  }

  method PendingIds(rows: seq<PendingRow>) returns (ids: seq<int>)
    ensures ids == Map(rows, RowId)
  {
    ids := [];
    for i := 0 to |rows|
      invariant ids == Map(rows[..i], RowId)
    {
      ids := ids + [rows[i].id];
    }
  }

  function RowId(p: PendingRow): int {
    p.id
  }

  /** dedupeUUIDs: every id once, in order of first occurrence. */
  method DedupeUUIDs(ids: seq<int>) returns (out: seq<int>)
    ensures out == FirstWins(ids)
  {
    var seen: set<int> := {};
    out := [];
    for i := 0 to |ids|
      invariant seen == set k | 0 <= k < i :: ids[k]
      invariant out == FirstWins(ids[..i])
    {
      assert ids[..i + 1][..i] == ids[..i];
      if ids[i] !in seen {
        seen := seen + {ids[i]};
        out := out + [ids[i]];
      }
    }
    assert ids[..|ids|] == ids;
  }

  lemma {:induction false} DuplicatesAreRows(rows: seq<PendingRow>, seen: set<string>)
    ensures forall i :: 0 <= i < |DuplicateIds(rows, seen)| ==> HasId(rows, DuplicateIds(rows, seen)[i])
  {
    if rows == [] {
    } else {
      var init := rows[..|rows| - 1];
      DuplicatesAreRows(init, seen);
      forall id | HasId(init, id) ensures HasId(rows, id) {
        var k :| 0 <= k < |init| && init[k].id == id;
        assert rows[k].id == id;
      }
      assert HasId(rows, rows[|rows| - 1].id);
    }
  }

  /** Deleting the drained ids together with the dropped ones, in either order and without
      repetition, deletes the batch. */
  lemma DeletedIds(pending: map<int, PendingRow>, batch: seq<PendingRow>, seen: set<string>, all: seq<int>)
    requires forall x :: x in all <==> x in Map(batch, RowId) || x in DuplicateIds(batch, seen)
    ensures pending - (set i | 0 <= i < |FirstWins(all)| :: FirstWins(all)[i]) == Remove(pending, batch)
  {
    DuplicatesAreRows(batch, seen);
    var ids := FirstWins(all);
    var deleted, drained := set i | 0 <= i < |ids| :: ids[i], set i | 0 <= i < |batch| :: batch[i].id;
    forall x | x in drained ensures x in deleted {
      var i :| 0 <= i < |batch| && batch[i].id == x;
      assert Map(batch, RowId)[i] == x;
      assert x in all;
      var j :| 0 <= j < |all| && all[j] == x;
      assert all[j] in ids;
    }
    forall x | x in deleted ensures x in drained {
      var i :| 0 <= i < |ids| && ids[i] == x;
      assert ids[i] in all;
      IsBatchId(batch, seen, x);
    }
    assert deleted == drained;
  }

  lemma IsBatchId(batch: seq<PendingRow>, seen: set<string>, x: int)
    requires x in Map(batch, RowId) || x in DuplicateIds(batch, seen)
    ensures HasId(batch, x)
  {
    DuplicatesAreRows(batch, seen);
    if x in Map(batch, RowId) {
      var i :| 0 <= i < |Map(batch, RowId)| && Map(batch, RowId)[i] == x;
      assert batch[i].id == x;
    }
  }

  // ----- the link loop -----

  lemma LinkRowsStep(H: Digest, chainId: string, project: string, prev: string, start: int, rows: seq<PendingRow>,
                     i: nat)
    requires i < |rows|
    ensures var done := LinkRows(H, chainId, project, prev, start, rows[..i]);
            var tip := TipHash(prev, done);
            LinkRows(H, chainId, project, prev, start, rows[..i + 1])
            == done + [BuildEventRow(rows[i], chainId, project, start + i, tip, EventHash(H, tip, rows[i].payloadHash, start + i))]
  {
    hide EventHash, BuildEventRow;
    assert rows[..i + 1][..i] == rows[..i];
  }

  /** The loop over the kept rows: one journal row each, and the running hash and position. */
  method LinkKept(H: Digest, chain: ChainRow, kept: seq<PendingRow>)
    returns (rows: seq<EventRow>, prevHash: string, position: int)
    ensures rows == LinkRows(H, chain.id, chain.project, chain.latestHash.GetOr(""), chain.latestPosition + 1, kept)
    ensures prevHash == (if kept == [] then chain.latestHash.GetOr("") else rows[|kept| - 1].eventHash)
    ensures position == chain.latestPosition + 1 + |kept|
  {
    hide EventHash, BuildEventRow, LinkRows;
    prevHash := "";
    if chain.latestHash.Some? {
      prevHash := chain.latestHash.value;
    }
    ghost var first := prevHash;
    position := chain.latestPosition + 1;
    ghost var start := position;
    rows := [];
    NoLinks(H, chain.id, chain.project, first, start);
    for i := 0 to |kept|
      invariant rows == LinkRows(H, chain.id, chain.project, first, start, kept[..i])
      invariant prevHash == TipHash(first, rows) && position == start + i
    {
      LinkRowsStep(H, chain.id, chain.project, first, start, kept, i);
      var p := kept[i];
      var eventHash := EventHash(H, prevHash, p.payloadHash, position);
      var row := BuildEventRow(p, chain.id, chain.project, position, prevHash, eventHash);
      BuiltHash(p, chain.id, chain.project, position, prevHash, eventHash);
      rows := rows + [row];
      prevHash := eventHash;
      position := position + 1;
    }
    assert kept[..|kept|] == kept;
  }

  lemma NoLinks(H: Digest, chainId: string, project: string, prev: string, start: int)
    ensures LinkRows(H, chainId, project, prev, start, []) == []
  {
  }

  lemma BuiltHash(p: PendingRow, chainId: string, project: string, position: int, prevHash: string, eventHash: string)
    ensures BuildEventRow(p, chainId, project, position, prevHash, eventHash).eventHash == eventHash
  {
  }

  // ----- SealShard -----

  /** What one call does to the tables: nothing, if the chain row is missing or held; otherwise it
      seals some drain of the shard's queue; and a copy that the journal refuses undoes it all. */
  ghost predicate SealOutcome(cfg: Config, t: Tables, held: set<ShardKey>, shard: ShardKey, limit: nat, newId: string,
                              t': Tables, ok: bool)
  {
    if shard in held || (shard !in t.chains && shard.env !in cfg.envs) then ok && t' == t
    else LockedOutcome(cfg, t, shard, limit, newId, t', ok)
  }

  /** The outcome for some drain of the shard's queue. */
  ghost predicate LockedOutcome(cfg: Config, t: Tables, shard: ShardKey, limit: nat, newId: string, t': Tables,
                                ok: bool)
    requires shard in t.chains || shard.env in cfg.envs
  {
    exists batch :: IsDrain(t.pending, shard, limit, batch) && BatchOutcome(cfg, t, shard, newId, batch, t', ok)
  }

  predicate BatchOutcome(cfg: Config, t: Tables, shard: ShardKey, newId: string, batch: seq<PendingRow>, t': Tables,
                         ok: bool)
    requires shard in t.chains || shard.env in cfg.envs
  {
    var chain := LockedChain(cfg, t, shard, newId);
    if batch == [] then ok && t' == t.(chains := t.chains[shard := chain])
    else
      var already := ExistingExternals(t.events, shard.env, Externals(batch));
      if FirstOccurrences(batch, already) == [] || CopySucceeds(cfg.digest, t, chain, batch, already)
      then ok && t' == SealedTables(cfg.digest, t, shard, chain, batch, already)
      else !ok && t' == t
  }

  method KeptRows(pending: seq<PendingRow>, keepIdx: seq<nat>) returns (kept: seq<PendingRow>)
    requires IndicesBelow(keepIdx, |pending|)
    ensures kept == Select(pending, keepIdx)
  {
    kept := [];
    for i := 0 to |keepIdx|
      invariant kept == Select(pending, keepIdx[..i])
    {
      kept := kept + [pending[keepIdx[i]]];
    }
    assert keepIdx[..|keepIdx|] == keepIdx;
  }

  lemma UniqueTip(chains: map<ShardKey, ChainRow>, chains': map<ShardKey, ChainRow>, shard: ShardKey, row: ChainRow)
    requires ChainIdsUnique(chains) && shard in chains && chains'.Keys == chains.Keys
    requires forall sh :: sh in chains' ==> chains'[sh] == if chains[sh].id != chains[shard].id then chains[sh] else row
    ensures chains' == chains[shard := row]
  {
    forall sh | sh in chains' ensures chains'[sh] == chains[shard := row][sh] {
      assert sh != shard ==> chains[sh].id != chains[shard].id;
    }
  }

  lemma SealedTablesWithRows(H: Digest, t: Tables, shard: ShardKey, chain: ChainRow, batch: seq<PendingRow>, already: set<string>,
                             prevHash: string, last: int)
    requires var rows := NewRows(H, chain, batch, already);
             rows != [] && prevHash == TipHash("", rows) && last == chain.latestPosition + |rows|
    ensures var rows := NewRows(H, chain, batch, already);
            SealedTables(H, t, shard, chain, batch, already)
            == t.(pending := Remove(t.pending, batch), events := t.events + rows,
                  chains := t.chains[shard := chain.(latestPosition := last, latestHash := Some(prevHash))],
                  checkpoints := t.checkpoints + [Checkpoint(chain.org, chain.project, shard.env, chain.id,
                                                             chain.latestPosition + 1, last, prevHash, |rows|)])
  {
    hide NewRows, Remove;
  }

  /** Copy, tip, checkpoint and delete: all of it, or a rollback. */
  method WriteBatch(db: Database, shard: ShardKey, chain: ChainRow, rows: seq<EventRow>, prevHash: string, last: int,
                    ids: seq<int>, before: Tables) returns (ok: bool)
    requires db.Valid() && KeyedById(before.pending) && ChainIdsUnique(before.chains) && db.heldElsewhere <= before.chains.Keys
    requires db.Snapshot() == before.(chains := before.chains[shard := chain])
    modifies db
    ensures db.Valid() && db.heldElsewhere == old(db.heldElsewhere)
    ensures ok <==> UniqueIds(before.events + rows) && UniqueExternals(before.events + rows)
    ensures !ok ==> db.Snapshot() == before
    ensures ok ==> db.Snapshot() == before.(
              pending := before.pending - (set i | 0 <= i < |ids| :: ids[i]),
              events := before.events + rows,
              chains := before.chains[shard := chain.(latestPosition := last, latestHash := Some(prevHash))],
              checkpoints := before.checkpoints + [Checkpoint(chain.org, chain.project, shard.env, chain.id,
                                                              chain.latestPosition + 1, last, prevHash, |rows|)])
  {
    hide KeyedById, UniqueIds, UniqueExternals;
    ok := db.CopyEvents(rows);
    if !ok {
      db.Rollback(before);
      return;
    }
    ghost var chains := db.chains;
    db.UpdateShardTip(chain.id, last, prevHash);
    UniqueTip(chains, db.chains, shard, chain.(latestPosition := last, latestHash := Some(prevHash)));
    assert chains[shard := db.chains[shard]] == before.chains[shard := db.chains[shard]];
    db.InsertChainCheckpoint(Checkpoint(chain.org, chain.project, shard.env, chain.id, chain.latestPosition + 1, last,
                                        prevHash, |rows|));
    hide ChainIdsUnique;
    db.DeletePendingByIds(ids);
  }

  lemma NewRowsAre(H: Digest, chain: ChainRow, batch: seq<PendingRow>, already: set<string>)
    ensures NewRows(H, chain, batch, already)
            == LinkRows(H, chain.id, chain.project, chain.latestHash.GetOr(""), chain.latestPosition + 1,
                        FirstOccurrences(batch, already))
  {
    hide LinkRows, FirstOccurrences, EventHash;
  }

  lemma CopyNeeds(H: Digest, t: Tables, chain: ChainRow, batch: seq<PendingRow>, already: set<string>)
    ensures var events := t.events + NewRows(H, chain, batch, already);
            CopySucceeds(H, t, chain, batch, already) <==> UniqueIds(events) && UniqueExternals(events)
  {
    hide NewRows, UniqueIds, UniqueExternals;
  }

  /** The rest of a transaction that keeps at least one row. */
  method SealKept(cfg: Config, db: Database, shard: ShardKey, chain: ChainRow, batch: seq<PendingRow>, kept: seq<PendingRow>,
                  droppedIds: seq<int>, before: Tables, ghost already: set<string>) returns (ok: bool)
    requires db.Valid() && KeyedById(before.pending) && ChainIdsUnique(before.chains) && db.heldElsewhere <= before.chains.Keys
    requires db.Snapshot() == before.(chains := before.chains[shard := chain])
    requires kept == FirstOccurrences(batch, already) != [] && droppedIds == DuplicateIds(batch, already)
    modifies db
    ensures db.Valid() && db.heldElsewhere == old(db.heldElsewhere)
    ensures ok <==> CopySucceeds(cfg.digest, before, chain, batch, already)
    ensures db.Snapshot() == if ok then SealedTables(cfg.digest, before, shard, chain, batch, already) else before
  {
    hide KeyedById, ChainIdsUnique, FirstOccurrences, DuplicateIds, Externals, LinkRows, NewRows, Remove, UniqueIds,
         UniqueExternals, SealedTables;
    hide EventHash, CopySucceeds;
    var rows, prevHash, position := LinkKept(cfg.digest, chain, kept);
    NewRowsAre(cfg.digest, chain, batch, already);
    assert rows == NewRows(cfg.digest, chain, batch, already);
    SealedTablesWithRows(cfg.digest, before, shard, chain, batch, already, prevHash, position - 1);
    var ids := PendingIds(batch);
    var allIds := DedupeUUIDs(ids + droppedIds);
    DeletedIds(before.pending, batch, already, ids + droppedIds);
    CopyNeeds(cfg.digest, before, chain, batch, already);
    ok := WriteBatch(db, shard, chain, rows, prevHash, position - 1, allIds, before);
  }

  method SealLocked(cfg: Config, db: Database, shard: ShardKey, batchSize: nat, chain: ChainRow, newId: string,
                    before: Tables)
    returns (ok: bool)
    requires db.Valid() && KeyedById(before.pending) && ChainIdsUnique(before.chains) && db.heldElsewhere <= before.chains.Keys
    requires shard in before.chains || shard.env in cfg.envs
    requires chain == LockedChain(cfg, before, shard, newId)
    requires db.Snapshot() == before.(chains := before.chains[shard := chain])
    modifies db
    ensures db.Valid() && db.heldElsewhere == old(db.heldElsewhere)
    ensures LockedOutcome(cfg, before, shard, batchSize, newId, db.Snapshot(), ok)
  {
    hide SealedTables, CopySucceeds, IsDrain, ChainIdsUnique, KeyedById, FirstOccurrences, DuplicateIds, Externals,
         ExistingExternals,
         LinkRows, Remove;
    var pending := db.DrainPendingForShard(shard, batchSize);
    if |pending| == 0 {
      assert BatchOutcome(cfg, before, shard, newId, pending, db.Snapshot(), true);
      return true;
    }
    var keepIdx, droppedIds := DedupePending(db, shard.env, pending);
    ghost var already := ExistingExternals(before.events, shard.env, Externals(pending));
    var kept := KeptRows(pending, keepIdx);
    if |kept| == 0 {
      var ids := PendingIds(pending);
      var allIds := DedupeUUIDs(droppedIds + ids);
      DeletedIds(db.pending, pending, already, droppedIds + ids);
      db.DeletePendingByIds(allIds);
      DuplicatesSealed(cfg.digest, before, shard, chain, pending, already);
      assert BatchOutcome(cfg, before, shard, newId, pending, db.Snapshot(), true);
      return true;
    }
    ok := SealKept(cfg, db, shard, chain, pending, kept, droppedIds, before, already);
    assert BatchOutcome(cfg, before, shard, newId, pending, db.Snapshot(), ok);
  }

  /** A batch of duplicates only deletes its rows. */
  lemma DuplicatesSealed(H: Digest, t: Tables, shard: ShardKey, chain: ChainRow, batch: seq<PendingRow>,
                         already: set<string>)
    requires FirstOccurrences(batch, already) == []
    ensures SealedTables(H, t, shard, chain, batch, already)
            == t.(pending := Remove(t.pending, batch), chains := t.chains[shard := chain])
  {
    hide FirstOccurrences, Remove;
  }

  method SealShard(cfg: Config, db: Database, env: string, shardIdx: int, batchSize: nat, newId: string)
    returns (ok: bool)
    requires db.Valid() && db.envs == cfg.envs && db.IsFreshChainId(newId)
    modifies db
    ensures db.Valid() && db.heldElsewhere == old(db.heldElsewhere)
    ensures SealOutcome(cfg, old(db.Snapshot()), old(db.heldElsewhere), ShardKey(env, shardIdx), batchSize, newId, db.Snapshot(), ok)
  {
    hide LockedOutcome, KeyedById;
    var before := db.Snapshot();
    var shard := ShardKey(env, shardIdx);
    db.EnsureShardChainFromEnv(shard, newId);
    var locked := db.LockShardChain(shard);
    if locked.None? {
      return true;
    }
    var chain := locked.value;
    ok := SealLocked(cfg, db, shard, batchSize, chain, newId, before);
  }
}
