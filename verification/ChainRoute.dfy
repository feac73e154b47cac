/** The server's own chain check (server/internal/routes/chains.go). */
module ChainRoute {
  import opened Wrappers
  import opened HashChain
  import opened Verification
  import opened TamperEvidence
  import opened Tables
  import opened Protocol
  import opened ServerChains
  import opened Reads
  import opened Sorting

  const CHAIN_VERIFY_SYNC_LIMIT := 10_000

  datatype RouteBreak = RouteBreak(eventId: int, position: int, reason: BreakReason, expected: string, stored: string)

  datatype RouteVerdict =
    | TooLarge(latestPosition: int)
    | Walked(valid: bool, eventsVerified: nat, latestPosition: int, tipMatches: bool, broken: Option<RouteBreak>)

  function RowTip(rows: seq<EventRow>, i: nat): string
    requires i <= |rows|
  {
    if i == 0 then "" else rows[i - 1].eventHash
  }

  /** The walk insists on the stored previous hash, reading null as empty. */
  function RouteFault(H: Digest, tip: string, e: EventRow): Option<RouteBreak> {
    var expectPrev := e.previousHash.GetOr("");
    var recomputed := EventHash(H, tip, e.payloadHash, e.position);
    if expectPrev != tip then Some(RouteBreak(e.id, e.position, LinkMismatch, tip, expectPrev))
    else if recomputed != e.eventHash then Some(RouteBreak(e.id, e.position, EventHashMismatch, recomputed, e.eventHash))
    else None
  }

  predicate RouteFaultFree(H: Digest, rows: seq<EventRow>, n: nat)
    requires n <= |rows|
  {
    forall i :: 0 <= i < n ==> RouteFault(H, RowTip(rows, i), rows[i]).None?
  }

  /** The walk stops at the first faulty row, and says which fault it is. */
  predicate IsWalkResult(H: Digest, rows: seq<EventRow>, verified: nat, brokenAt: Option<RouteBreak>) {
    && verified <= |rows| && RouteFaultFree(H, rows, verified)
    && (brokenAt.None? <==> verified == |rows|)
    && (brokenAt.Some? ==> brokenAt == RouteFault(H, RowTip(rows, verified), rows[verified]))
  }

  lemma FaultFreeStarts(H: Digest, rows: seq<EventRow>)
    ensures RouteFaultFree(H, rows, 0)
  {
  }

  lemma FaultFreeExtends(H: Digest, rows: seq<EventRow>, n: nat)
    requires n < |rows| && RouteFaultFree(H, rows, n) && RouteFault(H, RowTip(rows, n), rows[n]).None?
    ensures RouteFaultFree(H, rows, n + 1)
  {
  }

  /** Row i continues the chain: its previous hash, null read as empty, is its predecessor's event hash,
      empty at the start, and its event hash is that of this link, the payload hash and the position. */
  predicate RowContinues(H: Digest, rows: seq<EventRow>, i: nat)
    requires i < |rows|
  {
    var e, tip := rows[i], if i == 0 then "" else rows[i - 1].eventHash;
    e.previousHash.GetOr("") == tip && e.eventHash == EventHash(H, tip, e.payloadHash, e.position)
  }

  /** What a break tells about the row that the walk stops at. */
  predicate RouteBreakTells(H: Digest, rows: seq<EventRow>, i: nat, b: RouteBreak)
    requires i < |rows|
  {
    var e, tip := rows[i], if i == 0 then "" else rows[i - 1].eventHash;
    && b.eventId == e.id && b.position == e.position && b.expected != b.stored
    && match b.reason
       case LinkMismatch => b.expected == tip && b.stored == e.previousHash.GetOr("")
       case EventHashMismatch =>
         && e.previousHash.GetOr("") == tip
         && b.expected == EventHash(H, tip, e.payloadHash, e.position) && b.stored == e.eventHash
       case PayloadHashMismatch => false
  }

  lemma RouteFaultTells(H: Digest, rows: seq<EventRow>, i: nat)
    requires i < |rows|
    ensures match RouteFault(H, RowTip(rows, i), rows[i])
            case None => RowContinues(H, rows, i)
            case Some(b) => !RowContinues(H, rows, i) && RouteBreakTells(H, rows, i, b)
  {
    hide EventHash;
  }

  /** A walk in terms of the rows. */
  lemma WalkTells(H: Digest, rows: seq<EventRow>, verified: nat, brokenAt: Option<RouteBreak>)
    requires IsWalkResult(H, rows, verified, brokenAt)
    ensures brokenAt.None? <==> forall i :: 0 <= i < |rows| ==> RowContinues(H, rows, i)
    ensures forall i :: 0 <= i < verified ==> RowContinues(H, rows, i)
    ensures brokenAt.Some? ==>
              && verified < |rows| && !RowContinues(H, rows, verified)
              && RouteBreakTells(H, rows, verified, brokenAt.value)
  {
    hide RouteFault, RowContinues, RouteBreakTells;
    forall i | 0 <= i < verified ensures RowContinues(H, rows, i) {
      assert RouteFault(H, RowTip(rows, i), rows[i]).None?;
      RouteFaultTells(H, rows, i);
    }
    if verified < |rows| {
      RouteFaultTells(H, rows, verified);
    }
  }

  method WalkRows(H: Digest, rows: seq<EventRow>) returns (verified: nat, brokenAt: Option<RouteBreak>)
    ensures IsWalkResult(H, rows, verified, brokenAt)
    ensures brokenAt.None? <==> forall i :: 0 <= i < |rows| ==> RowContinues(H, rows, i)
    ensures forall i :: 0 <= i < verified ==> RowContinues(H, rows, i)
    ensures brokenAt.Some? ==>
              && verified < |rows| && !RowContinues(H, rows, verified)
              && RouteBreakTells(H, rows, verified, brokenAt.value)
  {
    hide EventHash, RouteFaultFree, RowContinues, RouteBreakTells;
    FaultFreeStarts(H, rows);
    var prev := "";
    verified, brokenAt := 0, None;
    while verified < |rows|
      invariant verified <= |rows| && brokenAt.None?
      invariant prev == RowTip(rows, verified)
      invariant RouteFaultFree(H, rows, verified)
    {
      var e := rows[verified];
      ghost var fault := RouteFault(H, prev, e);
      var expectPrev := e.previousHash.GetOr("");
      if expectPrev != prev {
        brokenAt := Some(RouteBreak(e.id, e.position, LinkMismatch, prev, expectPrev));
        assert brokenAt == fault;
        WalkTells(H, rows, verified, brokenAt);
        return;
      }
      var recomputed := EventHash(H, prev, e.payloadHash, e.position);
      if recomputed != e.eventHash {
        brokenAt := Some(RouteBreak(e.id, e.position, EventHashMismatch, recomputed, e.eventHash));
        assert brokenAt == fault;
        WalkTells(H, rows, verified, brokenAt);
        return;
      }
      assert fault.None?;
      FaultFreeExtends(H, rows, verified);
      prev := e.eventHash;
      verified := verified + 1;
    }
    WalkTells(H, rows, verified, brokenAt);
  }

  predicate TipHolds(chain: ChainRow, rows: seq<EventRow>) {
    rows != [] && chain.latestHash == Some(rows[|rows| - 1].eventHash)
  }

  predicate ConsistentlyEmpty(chain: ChainRow, rows: seq<EventRow>) {
    rows == [] && chain.latestPosition == 0 && chain.latestHash == None
  }

  /** What the route answers: it declines long chains, and otherwise reports the walk; only a
      full walk up to the stored tip, or a chain that is empty everywhere, is valid. */
  predicate IsRouteVerdict(H: Digest, chain: ChainRow, rows: seq<EventRow>, r: RouteVerdict) {
    && r.latestPosition == chain.latestPosition
    && (r.TooLarge? <==> chain.latestPosition > CHAIN_VERIFY_SYNC_LIMIT)
    && (r.Walked? ==>
          && IsWalkResult(H, rows, r.eventsVerified, r.broken)
          && (r.tipMatches <==> r.broken.None? && TipHolds(chain, rows))
          && (r.valid <==> r.tipMatches || ConsistentlyEmpty(chain, rows)))
  }

  /** Chains.Verify, given the chain row and the rows of WalkChainForVerify. */
  method VerifyRoute(H: Digest, chain: ChainRow, rows: seq<EventRow>) returns (r: RouteVerdict)
    ensures IsRouteVerdict(H, chain, rows, r)
    ensures r.latestPosition == chain.latestPosition && (r.TooLarge? <==> chain.latestPosition > 10_000)
    ensures r.Walked? ==>
              (r.valid <==>
                 && (forall i :: 0 <= i < |rows| ==> RowContinues(H, rows, i))
                 && (if rows == [] then chain.latestPosition == 0 && chain.latestHash == None
                     else chain.latestHash == Some(rows[|rows| - 1].eventHash)))
    ensures r.Walked? ==>
              && r.eventsVerified <= |rows| && (forall i :: 0 <= i < r.eventsVerified ==> RowContinues(H, rows, i))
              && (r.broken.None? <==> r.eventsVerified == |rows|)
              && (r.tipMatches <==> r.broken.None? && rows != [] && chain.latestHash == Some(rows[|rows| - 1].eventHash))
    ensures r.Walked? && r.broken.Some? ==>
              !RowContinues(H, rows, r.eventsVerified) && RouteBreakTells(H, rows, r.eventsVerified, r.broken.value)
  {
    hide RouteFault, RouteFaultFree, RowContinues, RouteBreakTells;
    if chain.latestPosition > CHAIN_VERIFY_SYNC_LIMIT {
      return TooLarge(chain.latestPosition);
    }
    var verified, brokenAt := WalkRows(H, rows);
    var tipOK := false;
    if brokenAt.None? && |rows| > 0 {
      tipOK := chain.latestHash.Some? && chain.latestHash.value == rows[|rows| - 1].eventHash;
    }
    var emptyChainConsistent := |rows| == 0 && chain.latestPosition == 0 && chain.latestHash.None?;
    r := Walked(brokenAt.None? && (emptyChainConsistent || (|rows| > 0 && tipOK)),
                verified, chain.latestPosition, tipOK, brokenAt);
  }

  // ----- agreement with the public verifier -----

  /** At one row the two walks differ only in reading a missing previous hash. */
  lemma RouteStep<C>(h: Hasher<C>, rows: seq<EventRow>, i: nat)
    requires i < |rows|
    ensures RouteFault(h.digest, RowTip(rows, i), rows[i]).None?
      <==> Fault(h, JournalRecords(rows), i).None? && (rows[i].previousHash.None? ==> RowTip(rows, i) == "")
  {
    hide EventHash;
    assert TipBefore(JournalRecords<C>(rows), i) == RowTip(rows, i);
  }

  /** After a faultless row the tip is not empty. */
  lemma TipNotEmpty<C>(h: Hasher<C>, rows: seq<EventRow>, i: nat)
    requires 0 < i <= |rows| && Fault(h, JournalRecords(rows), i - 1).None?
    ensures RowTip(rows, i) != ""
  {
    hide EventHash;
    EventHashIsTagged(h.digest, TipBefore(JournalRecords<C>(rows), i - 1), rows[i - 1].payloadHash, rows[i - 1].position);
  }

  /** The route verifies exactly those prefixes that the core verifier does and that, after the
      first row, never leave out the previous hash. */
  lemma RouteAgainstCore<C>(h: Hasher<C>, rows: seq<EventRow>, n: nat)
    requires n <= |rows|
    ensures RouteFaultFree(h.digest, rows, n)
      <==> FaultFree(h, JournalRecords(rows), n) && forall i :: 0 < i < n ==> rows[i].previousHash.Some?
  {
    hide Fault, RouteFault;
    forall i | 0 <= i < n
      ensures RouteFault(h.digest, RowTip(rows, i), rows[i]).None?
        <==> Fault(h, JournalRecords(rows), i).None? && (rows[i].previousHash.None? ==> RowTip(rows, i) == "")
    {
      RouteStep(h, rows, i);
    }
    forall i | 0 < i < n && Fault(h, JournalRecords(rows), i - 1).None? ensures RowTip(rows, i) != "" {
      TipNotEmpty(h, rows, i);
    }
    if RouteFaultFree(h.digest, rows, n) {
      forall i | 0 < i < n ensures rows[i].previousHash.Some? {
        assert RouteFault(h.digest, RowTip(rows, i), rows[i]).None?;
        assert RouteFault(h.digest, RowTip(rows, i - 1), rows[i - 1]).None?;
        assert Fault(h, JournalRecords(rows), i - 1).None?;
      }
    }
  }

  /** The route never verifies more events than the core verifier, and as many when only the
      first row may lack its previous hash. */
  lemma RouteCountAtMostCore<C>(h: Hasher<C>, rows: seq<EventRow>, chain: ChainRow, r: RouteVerdict, v: ChainVerdict)
    requires IsVerdict(h, JournalRecords(rows), v)
    requires IsRouteVerdict(h.digest, chain, rows, r) && r.Walked?
    ensures r.eventsVerified <= v.eventsVerified
    ensures (forall i :: 0 < i < |rows| ==> rows[i].previousHash.Some?) ==> r.eventsVerified == v.eventsVerified
  {
    hide Fault, RouteFault;
    RouteAgainstCore(h, rows, r.eventsVerified);
    if v.eventsVerified < |rows| {
      assert Fault(h, JournalRecords(rows), v.eventsVerified).Some?;
    }
    if r.eventsVerified < |rows| {
      assert RouteFault(h.digest, RowTip(rows, r.eventsVerified), rows[r.eventsVerified]).Some?;
      RouteAgainstCore(h, rows, r.eventsVerified + 1);
    }
    if r.eventsVerified < v.eventsVerified {
      assert FaultFree(h, JournalRecords<C>(rows), r.eventsVerified + 1);
    }
  }

  // ----- the route on the server's own tables -----

  predicate IsFirst(all: seq<EventRow>, limit: nat, rows: seq<EventRow>) {
    rows == if |all| <= limit then all else all[..limit]
  }

  /** What WalkChainForVerify may return: the chain's first `limit` rows by position. */
  ghost predicate IsWalk(events: seq<EventRow>, chainId: string, limit: nat, rows: seq<EventRow>) {
    exists all :: IsSorting(ChainEvents(events, chainId), all, WalkOrder) && IsFirst(all, limit, rows)
  }

  /** The walk query returns the beginning of the chain, in order. */
  lemma WalkReturnsFirst(cfg: Config, s: State, shard: ShardKey, limit: nat, rows: seq<EventRow>)
    requires Reachable(cfg, s) && shard in s.tables.chains
    requires IsWalk(s.tables.events, s.tables.chains[shard].id, limit, rows)
    ensures IsFirst(ServerChain(s, shard), limit, rows)
  {
    hide Reachable;
    var chain := ServerChain(s, shard);
    ServerChainPositions(cfg, s, shard);
    hide Sorted, NoTies, ChainEvents;
    var all :| IsSorting(chain, all, WalkOrder) && IsFirst(all, limit, rows);
    SortingUnique(chain, all, WalkOrder);
  }

  /** On one committed snapshot of any reachable state the route answers that the chain is
      valid, all of it, unless it declines because of length. */
  lemma RouteAcceptsServerChains(cfg: Config, s: State, shard: ShardKey, rows: seq<EventRow>, r: RouteVerdict)
    requires Reachable(cfg, s) && shard in s.tables.chains
    requires IsWalk(s.tables.events, s.tables.chains[shard].id, CHAIN_VERIFY_SYNC_LIMIT, rows)
    requires IsRouteVerdict(cfg.digest, s.tables.chains[shard], rows, r)
    ensures r.TooLarge? || (r.valid && r.eventsVerified == s.tables.chains[shard].latestPosition && r.broken.None?)
  {
    hide Reachable, RouteFault, RowLinks, IsWalk, ServerChain;
    ChainsAreWellLinked(cfg, s, shard);
    if r.Walked? {
      WalkReturnsFirst(cfg, s, shard, CHAIN_VERIFY_SYNC_LIMIT, rows);
      LinkedRowsFaultFree(cfg.digest, rows);
    }
  }

  lemma LinkedRowsFaultFree(H: Digest, rows: seq<EventRow>)
    requires forall i :: 0 <= i < |rows| ==> RowLinks(H, rows, i)
    ensures RouteFaultFree(H, rows, |rows|)
  {
    hide EventHash;
    forall i | 0 <= i < |rows| ensures RouteFault(H, RowTip(rows, i), rows[i]).None? {
      assert RowLinks(H, rows, i);
    }
  }

  /** Whatever rows are presented: if the route accepts them under the chain row of a reachable
      state, they are that chain, or a collision is at hand. */
  lemma RouteTamperEvident<C>(cfg: Config, s: State, shard: ShardKey, h: Hasher<C>, rows: seq<EventRow>,
                              r: RouteVerdict)
    requires Reachable(cfg, s) && shard in s.tables.chains && h.digest == cfg.digest
    requires IsRouteVerdict(h.digest, s.tables.chains[shard], rows, r) && r.Walked? && r.valid
    ensures SameOrCollision(h, JournalRecords(rows), JournalRecords(ServerChain(s, shard)))
  {
    hide Reachable, Walks, SameOrCollision, RowLinks, RouteFaultFree, ServerChain;
    ChainsAreWellLinked(cfg, s, shard);
    var mine, theirs := JournalRecords<C>(rows), JournalRecords<C>(ServerChain(s, shard));
    if rows == [] {
      NothingIsSame(h, mine, theirs);
    } else {
      CoreWalks(h, rows);
      ServerChainWalks(cfg, s, shard, h);
      SameTipSameChain(h, mine, theirs);
    }
  }

  // ----- two reads -----

  /** The beginning of a linked chain is linked. */
  lemma FirstRowsLink(H: Digest, all: seq<EventRow>, limit: nat, rows: seq<EventRow>)
    requires forall i :: 0 <= i < |all| ==> RowLinks(H, all, i)
    requires IsFirst(all, limit, rows)
    ensures forall i :: 0 <= i < |rows| ==> RowLinks(H, rows, i)
  {
    hide EventHash;
    forall i | 0 <= i < |rows| ensures RowLinks(H, rows, i) {
      assert RowLinks(H, all, i);
    }
  }

  /** When the rows are the chain's later beginning, they are the earlier chain exactly when nothing
      was added, or when the limit hides what was. */
  lemma FirstOfLonger(before: seq<EventRow>, after: seq<EventRow>, limit: nat, rows: seq<EventRow>)
    requires before <= after && |before| <= limit && IsFirst(after, limit, rows)
    ensures rows == before <==> after == before || |before| == limit
    ensures |rows| == |before| ==> rows == before
  {
    assert before == after[..|before|];
    assert after == after[..|after|];
  }

  /** The route reads the chain row first and the events later, when the chain may have moved on.
      Every row that it walks then still holds; and its answer is valid exactly when the rows are the
      chain as it was, that is when it did not move, or was as long as the limit, or a collision is
      at hand. */
  lemma RouteAcrossReads<C>(cfg: Config, s: State, t: State, shard: ShardKey, h: Hasher<C>, rows: seq<EventRow>,
                            r: RouteVerdict)
    requires Reachable(cfg, s) && Later(cfg, s, t) && shard in s.tables.chains && h.digest == cfg.digest
    requires IsWalk(t.tables.events, s.tables.chains[shard].id, CHAIN_VERIFY_SYNC_LIMIT, rows)
    requires IsRouteVerdict(h.digest, s.tables.chains[shard], rows, r) && r.Walked?
    ensures r.broken.None? && r.eventsVerified == |rows|
    ensures rows == ServerChain(s, shard)
      <==> Unmoved(s, t, shard) || |ServerChain(s, shard)| == CHAIN_VERIFY_SYNC_LIMIT
    ensures rows == ServerChain(s, shard) ==> r.valid
    ensures r.valid ==>
              || rows == ServerChain(s, shard)
              || CollisionShown(h, JournalRecords(rows), JournalRecords(ServerChain(s, shard)))
  {
    hide Reachable, Later, RouteFault, RowLinks, IsWalk, ServerChain, SameOrCollision, CollisionShown;
    LaterChain(cfg, s, t, shard);
    ChainsAreWellLinked(cfg, s, shard);
    ChainsAreWellLinked(cfg, t, shard);
    WalkReturnsFirst(cfg, t, shard, CHAIN_VERIFY_SYNC_LIMIT, rows);
    FirstRowsLink(cfg.digest, ServerChain(t, shard), CHAIN_VERIFY_SYNC_LIMIT, rows);
    LinkedRowsFaultFree(cfg.digest, rows);
    FirstOfLonger(ServerChain(s, shard), ServerChain(t, shard), CHAIN_VERIFY_SYNC_LIMIT, rows);
    if r.valid {
      RouteTamperEvident(cfg, s, shard, h, rows, r);
      if |rows| != |ServerChain(s, shard)| {
        DifferentLengthsCollide(h, JournalRecords(rows), JournalRecords(ServerChain(s, shard)));
      }
    }
  }

  lemma NothingIsSame<C>(h: Hasher<C>, a: seq<Record<C>>, b: seq<Record<C>>)
    requires a == [] && b == []
    ensures SameOrCollision(h, a, b)
  {
  }

  lemma CoreWalks<C>(h: Hasher<C>, rows: seq<EventRow>)
    requires RouteFaultFree(h.digest, rows, |rows|)
    ensures Walks(h, JournalRecords(rows))
  {
    RouteAgainstCore(h, rows, |rows|);
  }
}
