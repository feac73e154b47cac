/** From the sealer's journal to the auditor's report: what a valid bundle proves about the
    server, and when an export of the server's tables is valid. */
module EndToEnd {
  import opened Wrappers
  import opened HashChain
  import opened Verification
  import opened TamperEvidence
  import opened Tables
  import opened Sealing
  import opened Protocol
  import opened Invariants
  import opened JournalFacts
  import opened Safety
  import opened StoredVerification
  import opened ServerChains
  import opened Sequences
  import opened Sorting
  import opened Bundle
  import opened BundleOrder
  import opened BundleProperties
  import opened Export
  import opened Reads

  // ----- soundness: any bundle against any reachable state -----

  /** If a bundle is reported valid and publishes, for a chain with events in it, the tip that the
      server's chain has in a reachable state, then the bundle carries exactly the server's
      sequence for that chain, or comparing the two yields a collision. */
  lemma ValidBundleIsServerChain<C>(cfg: Config, s: State, shard: ShardKey, h: Hasher<C>, b: Bundle, rep: Report)
    returns (sorted: seq<BundleEvent>)
    requires Reachable(cfg, s) && shard in s.tables.chains && h.digest == cfg.digest
    requires IsReport(h, b, rep) && rep.valid
    requires s.tables.chains[shard].id in ChainIds(b.events)
    requires TipOf(b.chains, s.tables.chains[shard].id) == s.tables.chains[shard].latestHash
    ensures IsSorting(EventsOf(b.events, s.tables.chains[shard].id), sorted, PositionAtMost)
    ensures SameOrCollision(h, BundleRecords(sorted), JournalRecords(ServerChain(s, shard)))
  {
    hide Reachable, IsReport, Walks, IsSorting, SameOrCollision, TipOf, ServerChain, RowLinks;
    var id := s.tables.chains[shard].id;
    ValidExactly(h, b, rep);
    assert ChainHolds(h, b, id);
    sorted :| IsSorting(EventsOf(b.events, id), sorted, PositionAtMost) && ReachesTip(h, TipOf(b.chains, id), sorted);
    ServerChainWalks(cfg, s, shard, h);
    ChainsAreWellLinked(cfg, s, shard);
    SameTipSameChain(h, BundleRecords(sorted), JournalRecords(ServerChain(s, shard)));
  }

  // ----- what an export publishes -----

  lemma {:induction false} TipOfUnique(chains: seq<BundleChain>, id: string, tip: Option<string>)
    requires forall i :: 0 <= i < |chains| && chains[i].id == id ==> chains[i].latestEventHash == tip
    ensures TipOf(chains, id) == if exists i :: 0 <= i < |chains| && chains[i].id == id then tip else None
  {
    if chains == [] {
    } else {
      TipOfUnique(chains[..|chains| - 1], id, tip);
    }
  }

  lemma ChainIdNames(cfg: Config, s: State, a: ShardKey, b: ShardKey)
    requires Inv(cfg, s) && a in s.tables.chains && b in s.tables.chains
    requires s.tables.chains[a].id == s.tables.chains[b].id
    ensures a == b
  {
    hide CallsOk, QueuesOk, ChainsOk, TxnsOk, EventsOwned;
  }

  /** An export publishes the tip that every chain of its project has when the chains are read. */
  lemma PublishedTip(cfg: Config, s: State, t: State, shard: ShardKey, scope: Scope, b: Bundle)
    requires Reachable(cfg, t) && shard in t.tables.chains && IsExport(s, t, scope, b)
    requires ChainInScope(scope, t.tables.chains[shard])
    ensures TipOf(b.chains, t.tables.chains[shard].id) == t.tables.chains[shard].latestHash
  {
    ReachableInv(cfg, t);
    hide Reachable, Inv, IsEventList, IsChainList;
    var chain := t.tables.chains[shard];
    var events, chains :| IsEventList(s.tables.events, scope, events) && IsChainList(t.tables.chains, scope, chains)
                          && b == Bundle(Map(chains, ToBundleChain), Map(events, ToBundleEvent));
    hide Map;
    forall i | 0 <= i < |b.chains| && b.chains[i].id == chain.id ensures b.chains[i].latestEventHash == chain.latestHash {
      var sh := ListedChain(t.tables.chains, scope, chains, i);
      ChainIdNames(cfg, t, sh, shard);
    }
    TipOfUnique(b.chains, chain.id, chain.latestHash);
    var i := ChainListed(t.tables.chains, scope, chains, shard);
    assert b.chains[i].id == chain.id;
  }

  lemma ListedChain(chains: map<ShardKey, ChainRow>, scope: Scope, list: seq<ChainRow>, i: nat) returns (sh: ShardKey)
    requires IsChainList(chains, scope, list) && i < |list|
    ensures sh in chains && chains[sh] == list[i]
  {
    assert IsChainRow(chains, list[i]);
    sh :| sh in chains && chains[sh] == list[i];
  }

  lemma ChainListed(chains: map<ShardKey, ChainRow>, scope: Scope, list: seq<ChainRow>, sh: ShardKey) returns (i: nat)
    requires IsChainList(chains, scope, list) && sh in chains && ChainInScope(scope, chains[sh])
    ensures i < |list| && list[i] == chains[sh]
  {
    i :| 0 <= i < |list| && list[i] == chains[sh];
  }

  /** Under tenancy a journal row belongs to its chain's organization and project. */
  lemma JournalTenant(cfg: Config, s: State, shard: ShardKey, e: EventRow)
    requires Reachable(cfg, s) && Tenancy(cfg, s) && shard in s.tables.chains && e in ServerChain(s, shard)
    ensures e in s.tables.events
    ensures e.org == s.tables.chains[shard].org && e.project == s.tables.chains[shard].project
  {
    ReachableInv(cfg, s);
    var home, p := EventChain(cfg, s, e);
    hide Reachable, CallsOk, QueuesOk, ChainsOk, TxnsOk, SealedLog;
    assert home == shard;
    ChainProject(cfg, s, shard);
    assert p.org == s.calls[p.id].request.org;
  }

  /** Every row of the chain is in the export's scope. */
  predicate Covered(s: State, shard: ShardKey, scope: Scope)
    requires shard in s.tables.chains
  {
    forall i :: 0 <= i < |ServerChain(s, shard)| ==> InScope(scope)(ServerChain(s, shard)[i])
  }

  lemma CoveredExactly(s: State, shard: ShardKey, scope: Scope)
    requires shard in s.tables.chains
    ensures Covered(s, shard, scope) <==> |ExportedPart(s, shard, scope)| == |ServerChain(s, shard)|
    ensures Covered(s, shard, scope) ==> ExportedPart(s, shard, scope) == ServerChain(s, shard)
  {
    hide InScope, ServerChain;
    var rows := ServerChain(s, shard);
    if Covered(s, shard, scope) {
      FilterAll(rows, InScope(scope));
    } else {
      var i :| 0 <= i < |rows| && !InScope(scope)(rows[i]);
      FilterDrops(rows, InScope(scope), i);
    }
  }

  /** An event in scope puts its chain in scope. */
  lemma EventScopesChain(cfg: Config, s: State, shard: ShardKey, scope: Scope)
    requires Reachable(cfg, s) && Tenancy(cfg, s) && shard in s.tables.chains
    requires ExportedPart(s, shard, scope) != []
    ensures ChainInScope(scope, s.tables.chains[shard])
  {
    hide Reachable, Tenancy, ServerChain;
    var e := ExportedPart(s, shard, scope)[0];
    assert InScope(scope)(e);
    JournalTenant(cfg, s, shard, e);
  }

  // ----- completeness: exports of reachable states -----

  /** A chain that is exported whole, and did not move before its tip was read, holds in the
      bundle. */
  lemma WholeChainHolds<C>(cfg: Config, s: State, t: State, shard: ShardKey, scope: Scope, h: Hasher<C>, b: Bundle)
    requires Reachable(cfg, s) && Later(cfg, s, t) && IsExport(s, t, scope, b) && h.digest == cfg.digest
    requires shard in s.tables.chains && shard in t.tables.chains && ChainInScope(scope, t.tables.chains[shard])
    requires Unmoved(s, t, shard) && ServerChain(s, shard) != []
    ensures ReachesTip(h, TipOf(b.chains, s.tables.chains[shard].id), Map(ServerChain(s, shard), ToBundleEvent))
  {
    hide Reachable, Later, IsExport, ServerChain, EventHash, Walks, TipOf, RowLinks;
    LaterChain(cfg, s, t, shard);
    var rows := ServerChain(t, shard);
    PublishedTip(cfg, s, t, shard, scope, b);
    ChainsAreWellLinked(cfg, t, shard);
    RepeatedChainWalks(h, rows, BundleRecords(Map(rows, ToBundleEvent)));
  }

  lemma ListedEvent(events: seq<EventRow>, scope: Scope, list: seq<EventRow>, i: nat)
    requires IsEventList(events, scope, list) && i < |list|
    ensures list[i] in events && InScope(scope)(list[i])
  {
    hide InScope, ExportOrder;
    assert list[i] in multiset(list);
    var j := MemberIndex(Filter(events, InScope(scope)), list[i]);
  }

  lemma EventShard(cfg: Config, s: State, e: EventRow) returns (shard: ShardKey)
    requires Inv(cfg, s) && e in s.tables.events
    ensures shard in s.tables.chains && s.tables.chains[shard].id == e.chainId && e in ServerChain(s, shard)
  {
    hide Inv, SealedLog, SealedFrom, FromCall;
    var p;
    shard, p := EventChain(cfg, s, e);
    ChainEventsComplete(s.tables.events, e);
  }

  /** A journal row behind a chain id of the bundle. */
  lemma ExportedRow(s: State, t: State, scope: Scope, b: Bundle, id: string) returns (e: EventRow)
    requires IsExport(s, t, scope, b) && id in ChainIds(b.events)
    ensures e in s.tables.events && InScope(scope)(e) && e.chainId == id
  {
    hide IsChainList, IsEventList, InScope;
    var events, chains :| IsEventList(s.tables.events, scope, events) && IsChainList(t.tables.chains, scope, chains)
                          && b == Bundle(Map(chains, ToBundleChain), Map(events, ToBundleEvent));
    hide Map;
    var i :| 0 <= i < |b.events| && b.events[i].chainId == id;
    e := events[i];
    ListedEvent(s.tables.events, scope, events, i);
  }

  /** The chain behind a chain id of the bundle. */
  lemma ExportedIds(cfg: Config, s: State, t: State, scope: Scope, b: Bundle, id: string) returns (shard: ShardKey)
    requires Reachable(cfg, s) && IsExport(s, t, scope, b) && id in ChainIds(b.events)
    ensures shard in s.tables.chains && s.tables.chains[shard].id == id
    ensures ExportedPart(s, shard, scope) != []
  {
    hide Reachable, IsExport, InScope, Inv, ServerChain, ChainIds;
    ReachableInv(cfg, s);
    var e := ExportedRow(s, t, scope, b, id);
    shard := EventShard(cfg, s, e);
    FilterMember(ServerChain(s, shard), InScope(scope), e);
  }

  /** All events of the chain are exported, and no more were sealed before its tip was read. */
  predicate ExportedWhole(s: State, t: State, shard: ShardKey, scope: Scope)
    requires shard in s.tables.chains
  {
    Covered(s, shard, scope) && Unmoved(s, t, shard)
  }

  /** Then the exported part is the chain whose tip is published; and only then is it as long. */
  lemma WholeExactly(cfg: Config, s: State, t: State, shard: ShardKey, scope: Scope)
    requires Reachable(cfg, s) && Later(cfg, s, t) && shard in s.tables.chains
    ensures shard in t.tables.chains
    ensures ExportedWhole(s, t, shard, scope) <==> |ExportedPart(s, shard, scope)| == |ServerChain(t, shard)|
    ensures ExportedWhole(s, t, shard, scope) ==> ExportedPart(s, shard, scope) == ServerChain(t, shard)
  {
    hide Reachable, Later, InScope, ServerChain, Covered;
    LaterChain(cfg, s, t, shard);
    CoveredExactly(s, shard, scope);
    var before, after := ServerChain(s, shard), ServerChain(t, shard);
    assert |ExportedPart(s, shard, scope)| <= |before| <= |after|;
    assert before == after[..|before|];
    assert after[..|after|] == after;
  }

  /** Every chain with an exported event is exported whole. */
  predicate AllOrNothing(s: State, t: State, scope: Scope) {
    forall sh :: sh in s.tables.chains ==> ExportedPart(s, sh, scope) == [] || ExportedWhole(s, t, sh, scope)
  }

  /** If each chain is exported whole or not at all, the bundle is valid. */
  lemma WholeExportIsValid<C>(cfg: Config, s: State, t: State, scope: Scope, h: Hasher<C>, b: Bundle, rep: Report)
    requires Reachable(cfg, s) && Later(cfg, s, t) && Tenancy(cfg, s) && IsExport(s, t, scope, b) && h.digest == cfg.digest
    requires IsReport(h, b, rep) && AllOrNothing(s, t, scope)
    ensures rep.valid
  {
    hide Reachable, Later, Tenancy, IsExport, AllOrNothing, IsChainReport, ChainIds;
    forall i | 0 <= i < |rep.chains| ensures rep.chains[i].valid {
      WholeChainReport(cfg, s, t, scope, h, b, rep, i);
    }
  }

  lemma WholeChainReport<C>(cfg: Config, s: State, t: State, scope: Scope, h: Hasher<C>, b: Bundle, rep: Report, i: nat)
    requires Reachable(cfg, s) && Later(cfg, s, t) && Tenancy(cfg, s) && IsExport(s, t, scope, b) && h.digest == cfg.digest
    requires IsReport(h, b, rep) && i < |rep.chains| && AllOrNothing(s, t, scope)
    ensures rep.chains[i].valid
  {
    hide Reachable, Later, Tenancy, IsExport, ServerChain, TipOf, Covered, Unmoved, ReachesTip, ChainIds, IsReport,
         IsSorting, ReportsOn, ExportedPart;
    var r := rep.chains[i];
    ReportedId(h, b, rep, i);
    var shard := ExportedIds(cfg, s, t, scope, b, r.chainId);
    EventScopesChain(cfg, s, shard, scope);
    LaterChain(cfg, s, t, shard);
    CoveredExactly(s, shard, scope);
    WholeChainHolds(cfg, s, t, shard, scope, h, b);
    var sorted :| IsSorting(EventsOf(b.events, r.chainId), sorted, PositionAtMost)
                  && ReportsOn(h, TipOf(b.chains, r.chainId), r.chainId, sorted, r);
    ExportedSorted(cfg, s, t, shard, scope, b, sorted);
    ReportsOnExactly(h, TipOf(b.chains, r.chainId), r.chainId, sorted, r);
  }

  /** Conversely a chain of which the window left out a part, or that moved between the two queries,
      makes the bundle invalid, or yields a collision. */
  lemma PartialExportIsInvalid<C>(cfg: Config, s: State, t: State, shard: ShardKey, scope: Scope, h: Hasher<C>, b: Bundle,
                                  rep: Report)
    requires Reachable(cfg, s) && Later(cfg, s, t) && Tenancy(cfg, s) && IsExport(s, t, scope, b) && h.digest == cfg.digest
    requires IsReport(h, b, rep) && shard in s.tables.chains
    requires ExportedPart(s, shard, scope) != [] && !ExportedWhole(s, t, shard, scope)
    ensures shard in t.tables.chains
    ensures || !rep.valid
            || CollisionShown(h, BundleRecords(Map(ExportedPart(s, shard, scope), ToBundleEvent)),
                              JournalRecords(ServerChain(t, shard)))
  {
    hide Reachable, Later;
    LaterChain(cfg, s, t, shard);
    if rep.valid {
      hide Tenancy, IsExport, ServerChain, TipOf, ExportedWhole, ChainIds, IsReport, IsSorting,
           ExportedPart, SameOrCollision, CollisionShown;
      PartIsNamed(cfg, s, t, shard, scope, b);
      EventScopesChain(cfg, s, shard, scope);
      PublishedTip(cfg, s, t, shard, scope, b);
      var sorted := ValidBundleIsServerChain(cfg, t, shard, h, b, rep);
      ExportedSorted(cfg, s, t, shard, scope, b, sorted);
      WholeExactly(cfg, s, t, shard, scope);
      DifferentLengthsCollide(h, BundleRecords(sorted), JournalRecords(ServerChain(t, shard)));
    }
  }

  /** An exported event puts its chain's id among the bundle's ids. */
  lemma PartIsNamed(cfg: Config, s: State, t: State, shard: ShardKey, scope: Scope, b: Bundle)
    requires Reachable(cfg, s) && IsExport(s, t, scope, b) && shard in s.tables.chains
    requires ExportedPart(s, shard, scope) != []
    ensures s.tables.chains[shard].id in ChainIds(b.events)
  {
    hide Reachable, IsChainList, InScope, ExportOrder, ServerChain;
    var events, chains :| IsEventList(s.tables.events, scope, events) && IsChainList(t.tables.chains, scope, chains)
                          && b == Bundle(Map(chains, ToBundleChain), Map(events, ToBundleEvent));
    var e := ExportedPart(s, shard, scope)[0];
    assert InScope(scope)(e);
    ServerChainIs(s, shard);
    var listed := Filter(s.tables.events, InScope(scope));
    FilterMember(s.tables.events, InScope(scope), e);
    assert e in multiset(listed);
    var i := MemberIndex(events, e);
    assert b.events[i].chainId == s.tables.chains[shard].id;
  }

  // ----- a window that covers the project -----

  predicate OfProject(scope: Scope, e: EventRow) {
    e.org == scope.org && e.project == scope.project
  }

  /** The window contains every event of the project. */
  predicate CoversProject(s: State, scope: Scope) {
    forall i :: 0 <= i < |s.tables.events| && OfProject(scope, s.tables.events[i]) ==>
      scope.from <= s.tables.events[i].receivedAt < scope.to
  }

  lemma CoveringCoversChains(cfg: Config, s: State, scope: Scope)
    requires Reachable(cfg, s) && Tenancy(cfg, s) && CoversProject(s, scope)
    ensures forall sh :: sh in s.tables.chains && ChainInScope(scope, s.tables.chains[sh]) ==> Covered(s, sh, scope)
  {
    hide Reachable, Tenancy, ServerChain;
    forall sh | sh in s.tables.chains && ChainInScope(scope, s.tables.chains[sh]) ensures Covered(s, sh, scope) {
      forall i | 0 <= i < |ServerChain(s, sh)| ensures InScope(scope)(ServerChain(s, sh)[i]) {
        JournalTenant(cfg, s, sh, ServerChain(s, sh)[i]);
      }
    }
  }

  /** No non-empty chain of the project moved between the two queries. */
  predicate ProjectUnmoved(s: State, t: State, scope: Scope) {
    forall sh :: sh in s.tables.chains && NonEmptyInScope(scope, s.tables.chains[sh]) ==> Unmoved(s, t, sh)
  }

  lemma UnmovedIsAllOrNothing(cfg: Config, s: State, t: State, scope: Scope)
    requires Reachable(cfg, s) && Later(cfg, s, t) && Tenancy(cfg, s) && CoversProject(s, scope)
    requires ProjectUnmoved(s, t, scope)
    ensures AllOrNothing(s, t, scope)
  {
    hide Reachable, Later, Tenancy, CoversProject, ServerChain, Covered, Unmoved, ExportedPart, RowLinks;
    CoveringCoversChains(cfg, s, scope);
    forall sh | sh in s.tables.chains && ExportedPart(s, sh, scope) != [] ensures ExportedWhole(s, t, sh, scope) {
      EventScopesChain(cfg, s, sh, scope);
      CoveredExactly(s, sh, scope);
      ChainsAreWellLinked(cfg, s, sh);
    }
  }

  /** Export completeness: a bundle whose window covers the project is valid if no non-empty chain of
      the project moved between the two queries, and then every such chain is in the report, verified
      to its end. */
  lemma FullExportVerifies<C>(cfg: Config, s: State, t: State, scope: Scope, h: Hasher<C>, b: Bundle, rep: Report)
    requires Reachable(cfg, s) && Later(cfg, s, t) && Tenancy(cfg, s) && IsExport(s, t, scope, b) && h.digest == cfg.digest
    requires IsReport(h, b, rep) && CoversProject(s, scope)
    requires ProjectUnmoved(s, t, scope)
    ensures rep.valid
    ensures forall sh :: sh in s.tables.chains && NonEmptyInScope(scope, s.tables.chains[sh]) ==>
              exists i :: 0 <= i < |rep.chains| && FullyVerified(s.tables.chains[sh], rep.chains[i])
  {
    hide Reachable, Later, Tenancy, IsExport, IsReport, AllOrNothing, CoversProject, ProjectUnmoved;
    UnmovedIsAllOrNothing(cfg, s, t, scope);
    WholeExportIsValid(cfg, s, t, scope, h, b, rep);
    CoveringCoversChains(cfg, s, scope);
    forall sh | sh in s.tables.chains && NonEmptyInScope(scope, s.tables.chains[sh])
      ensures exists i :: 0 <= i < |rep.chains| && FullyVerified(s.tables.chains[sh], rep.chains[i])
    {
      var i := CoveredChainReported(cfg, s, t, sh, scope, h, b, rep);
    }
  }

  /** In particular an export from one snapshot is valid. */
  lemma SnapshotExportVerifies<C>(cfg: Config, s: State, scope: Scope, h: Hasher<C>, b: Bundle, rep: Report)
    requires Reachable(cfg, s) && Tenancy(cfg, s) && IsExport(s, s, scope, b) && h.digest == cfg.digest
    requires IsReport(h, b, rep) && CoversProject(s, scope)
    ensures rep.valid
    ensures forall sh :: sh in s.tables.chains && NonEmptyInScope(scope, s.tables.chains[sh]) ==>
              exists i :: 0 <= i < |rep.chains| && FullyVerified(s.tables.chains[sh], rep.chains[i])
  {
    hide Reachable, Later, Tenancy, IsExport, IsReport, CoversProject, ServerChain;
    SameIsLater(cfg, s);
    FullExportVerifies(cfg, s, s, scope, h, b, rep);
  }

  /** Conversely, when the window covers the project, a non-empty chain of the project that moved
      between the two queries makes the bundle invalid, or yields a collision. */
  lemma MovedChainIsInvalid<C>(cfg: Config, s: State, t: State, shard: ShardKey, scope: Scope, h: Hasher<C>, b: Bundle,
                               rep: Report)
    requires Reachable(cfg, s) && Later(cfg, s, t) && Tenancy(cfg, s) && IsExport(s, t, scope, b) && h.digest == cfg.digest
    requires IsReport(h, b, rep) && CoversProject(s, scope) && shard in s.tables.chains
    requires NonEmptyInScope(scope, s.tables.chains[shard]) && !Unmoved(s, t, shard)
    ensures shard in t.tables.chains
    ensures || !rep.valid
            || CollisionShown(h, BundleRecords(Map(ServerChain(s, shard), ToBundleEvent)),
                              JournalRecords(ServerChain(t, shard)))
  {
    hide Reachable, Later, Tenancy, IsExport, IsReport, CoversProject, ServerChain, Unmoved, Covered, ExportedPart,
         CollisionShown, RowLinks;
    CoveringCoversChains(cfg, s, scope);
    CoveredExactly(s, shard, scope);
    ChainsAreWellLinked(cfg, s, shard);
    PartialExportIsInvalid(cfg, s, t, shard, scope, h, b, rep);
  }

  predicate NonEmptyInScope(scope: Scope, chain: ChainRow) {
    ChainInScope(scope, chain) && chain.latestPosition > 0
  }

  predicate FullyVerified(chain: ChainRow, r: ChainReport) {
    && r.chainId == chain.id && r.valid && r.tipMatches && r.broken.None?
    && r.eventsVerified == r.eventCount == chain.latestPosition
  }

  lemma ReportOfId<C>(h: Hasher<C>, b: Bundle, rep: Report, id: string) returns (i: nat)
    requires IsReport(h, b, rep) && id in ChainIds(b.events)
    ensures i < |rep.chains| && rep.chains[i].chainId == id && IsChainReport(h, b, rep.chains[i])
    ensures rep.valid ==> rep.chains[i].valid
  {
    hide ChainIds, IsChainReport, Sorted;
    ListedSet(ReportedIds(rep.chains), ChainIds(b.events));
    i :| 0 <= i < |rep.chains| && ReportedIds(rep.chains)[i] == id;
  }

  lemma CoveredChainReported<C>(cfg: Config, s: State, t: State, shard: ShardKey, scope: Scope, h: Hasher<C>, b: Bundle,
                                rep: Report)
    returns (i: nat)
    requires Reachable(cfg, s) && IsExport(s, t, scope, b)
    requires IsReport(h, b, rep) && rep.valid && shard in s.tables.chains
    requires Covered(s, shard, scope) && s.tables.chains[shard].latestPosition > 0
    ensures i < |rep.chains| && FullyVerified(s.tables.chains[shard], rep.chains[i])
  {
    hide Reachable, IsExport, IsReport, ServerChain, TipOf, Covered, RowLinks, IsSorting, ChainIds;
    ChainsAreWellLinked(cfg, s, shard);
    CoveredExactly(s, shard, scope);
    PartIsNamed(cfg, s, t, shard, scope, b);
    i := ReportOfId(h, b, rep, s.tables.chains[shard].id);
    var r := rep.chains[i];
    var sorted :| IsSorting(EventsOf(b.events, r.chainId), sorted, PositionAtMost)
                  && ReportsOn(h, TipOf(b.chains, r.chainId), r.chainId, sorted, r);
    ExportedSorted(cfg, s, t, shard, scope, b, sorted);
  }
}
