/** Evidence exports (server/internal/workers/generate_export.go): the projection of the
    journal's events and of the chains, each as its query sees it, to a bundle. */
module Export {
  import opened HashChain
  import opened Tables
  import opened Protocol
  import opened ServerChains
  import opened Sequences
  import opened Sorting
  import opened Bundle

  /** An export job: whose events, received when. */
  datatype Scope = Scope(org: string, project: string, from: int, to: int)

  function InScope(scope: Scope): EventRow -> bool {
    (e: EventRow) => e.org == scope.org && e.project == scope.project && scope.from <= e.receivedAt < scope.to
  }

  predicate ChainInScope(scope: Scope, c: ChainRow) {
    c.org == scope.org && c.project == scope.project
  }

  /** ORDER BY chain_id, chain_position. */
  predicate ExportOrder(e: EventRow, f: EventRow) {
    if e.chainId == f.chainId then e.position <= f.position else StringAtMost(e.chainId, f.chainId)
  }

  /** ListEventsForExport. */
  predicate IsEventList(events: seq<EventRow>, scope: Scope, list: seq<EventRow>) {
    IsSorting(Filter(events, InScope(scope)), list, ExportOrder)
  }

  predicate IsChainRow(chains: map<ShardKey, ChainRow>, c: ChainRow) {
    exists sh :: sh in chains && chains[sh] == c
  }

  /** ListChainSummariesForOrg, in no particular order. */
  predicate IsChainList(chains: map<ShardKey, ChainRow>, scope: Scope, list: seq<ChainRow>) {
    && (forall i :: 0 <= i < |list| ==> ChainInScope(scope, list[i]) && IsChainRow(chains, list[i]))
    && (forall sh :: sh in chains && ChainInScope(scope, chains[sh]) ==> chains[sh] in list)
  }

  function ToBundleEvent(e: EventRow): BundleEvent {
    BundleEvent(e.id, e.chainId, e.position, e.payloadHash, e.eventHash)
  }

  function ToBundleChain(c: ChainRow): BundleChain {
    BundleChain(c.id, c.latestPosition, c.latestHash)
  }

  /** buildAndCommit: the chain summaries and the events, one by one. */
  method BuildBundle(events: seq<EventRow>, chains: seq<ChainRow>) returns (b: Bundle)
    ensures b == Bundle(Map(chains, ToBundleChain), Map(events, ToBundleEvent))
    ensures |b.chains| == |chains| && |b.events| == |events|
    ensures forall i :: 0 <= i < |chains| ==>
              b.chains[i] == BundleChain(chains[i].id, chains[i].latestPosition, chains[i].latestHash)
    ensures forall i :: 0 <= i < |events| ==>
              b.events[i] == BundleEvent(events[i].id, events[i].chainId, events[i].position, events[i].payloadHash,
                                         events[i].eventHash)
  {
    b := Bundle([], []);
    for i := 0 to |chains|
      invariant b == Bundle(Map(chains[..i], ToBundleChain), [])
    {
      b := b.(chains := b.chains + [ToBundleChain(chains[i])]);
    }
    for i := 0 to |events|
      invariant b == Bundle(Map(chains, ToBundleChain), Map(events[..i], ToBundleEvent))
    {
      b := b.(events := b.events + [ToBundleEvent(events[i])]);
    }
  }

  /** The bundle is what an export of the scope builds when its first query, for the events, sees
      state s and its second, for the chains, sees state t. */
  ghost predicate IsExport(s: State, t: State, scope: Scope, b: Bundle) {
    exists events, chains ::
      && IsEventList(s.tables.events, scope, events) && IsChainList(t.tables.chains, scope, chains)
      && b == Bundle(Map(chains, ToBundleChain), Map(events, ToBundleEvent))
  }

  /** An export holds exactly the project's events in the window, received at or after its start and
      before its end, each with its own columns, and exactly the project's chains. */
  lemma ExportHolds(s: State, t: State, scope: Scope, b: Bundle)
    requires IsExport(s, t, scope, b)
    ensures forall f :: f in b.events <==>
              exists e :: && e in s.tables.events && e.org == scope.org && e.project == scope.project
                          && scope.from <= e.receivedAt && e.receivedAt < scope.to
                          && f == BundleEvent(e.id, e.chainId, e.position, e.payloadHash, e.eventHash)
    ensures forall c :: c in b.chains <==>
              exists sh :: && sh in t.tables.chains && t.tables.chains[sh].org == scope.org
                           && t.tables.chains[sh].project == scope.project
                           && c == BundleChain(t.tables.chains[sh].id, t.tables.chains[sh].latestPosition,
                                               t.tables.chains[sh].latestHash)
    ensures forall i, j :: 0 <= i < j < |b.events| && b.events[i].chainId == b.events[j].chainId ==>
              b.events[i].position <= b.events[j].position
    ensures forall i, j :: 0 <= i < j < |b.events| ==> StringAtMost(b.events[i].chainId, b.events[j].chainId)
  {
    var events: seq<EventRow>, chains: seq<ChainRow> :|
      IsEventList(s.tables.events, scope, events) && IsChainList(t.tables.chains, scope, chains)
      && b == Bundle(Map(chains, ToBundleChain), Map(events, ToBundleEvent));
    EventsHeld(s.tables.events, scope, events);
    ChainsHeld(t.tables.chains, scope, chains);
    hide StringAtMost;
    forall i, j | 0 <= i < j < |events|
      ensures events[i].chainId == events[j].chainId ==> events[i].position <= events[j].position
      ensures StringAtMost(events[i].chainId, events[j].chainId)
    {
      assert ExportOrder(events[i], events[j]);
      StringsTotal(events[i].chainId, events[i].chainId);
    }
  }

  lemma EventsHeld(journal: seq<EventRow>, scope: Scope, list: seq<EventRow>)
    requires IsEventList(journal, scope, list)
    ensures forall f :: f in Map(list, ToBundleEvent) <==>
              exists e :: && e in journal && e.org == scope.org && e.project == scope.project
                          && scope.from <= e.receivedAt && e.receivedAt < scope.to
                          && f == BundleEvent(e.id, e.chainId, e.position, e.payloadHash, e.eventHash)
  {
    hide Filter, IsEventList;
    forall e ensures e in list <==> e in journal && InScope(scope)(e) {
      EventHeld(journal, scope, list, e);
    }
    var b := Map(list, ToBundleEvent);
    forall e | e in list ensures ToBundleEvent(e) in b {
      var i :| 0 <= i < |list| && list[i] == e;
      assert b[i] == ToBundleEvent(e);
    }
    forall f | f in b ensures exists e :: e in list && f == ToBundleEvent(e) {
      var i :| 0 <= i < |b| && b[i] == f;
      assert list[i] in list;
    }
  }

  lemma EventHeld(journal: seq<EventRow>, scope: Scope, list: seq<EventRow>, e: EventRow)
    requires IsEventList(journal, scope, list)
    ensures e in list <==> e in journal && InScope(scope)(e)
  {
    hide InScope, ExportOrder;
    var inScope := Filter(journal, InScope(scope));
    assert e in list <==> e in multiset(list);
    assert e in inScope <==> e in multiset(inScope);
    if e in journal && InScope(scope)(e) {
      FilterMember(journal, InScope(scope), e);
    }
  }

  lemma ChainsHeld(chains: map<ShardKey, ChainRow>, scope: Scope, list: seq<ChainRow>)
    requires IsChainList(chains, scope, list)
    ensures forall c :: c in Map(list, ToBundleChain) <==>
              exists sh :: && sh in chains && chains[sh].org == scope.org && chains[sh].project == scope.project
                           && c == BundleChain(chains[sh].id, chains[sh].latestPosition, chains[sh].latestHash)
  {
    var b := Map(list, ToBundleChain);
    forall sh | sh in chains && ChainInScope(scope, chains[sh]) ensures ToBundleChain(chains[sh]) in b {
      var i :| 0 <= i < |list| && list[i] == chains[sh];
      assert b[i] == ToBundleChain(chains[sh]);
    }
    forall c | c in b
      ensures exists sh :: sh in chains && ChainInScope(scope, chains[sh]) && c == ToBundleChain(chains[sh])
    {
      var i :| 0 <= i < |b| && b[i] == c;
      assert IsChainRow(chains, list[i]);
    }
  }

  /** Every caller acts for the organization and project that own the environment. */
  predicate Tenancy(cfg: Config, s: State) {
    forall id :: id in s.calls ==>
      var r := s.calls[id].request; r.env in cfg.envs && cfg.envs[r.env] == Tenant(r.org, r.project)
  }

  // ----- the events of one chain -----

  function InChain(id: string): EventRow -> bool {
    (e: EventRow) => e.chainId == id
  }

  lemma {:induction false} ChainEventsIsFilter(events: seq<EventRow>, id: string)
    ensures ChainEvents(events, id) == Filter(events, InChain(id))
  {
    if events == [] {
    } else {
      ChainEventsIsFilter(events[..|events| - 1], id);
    }
  }

  /** The bundle's events of a chain are the exported part of the chain. */
  lemma ExportedGroup(events: seq<EventRow>, scope: Scope, list: seq<EventRow>, id: string)
    requires IsEventList(events, scope, list)
    ensures multiset(EventsOf(Map(list, ToBundleEvent), id))
            == multiset(Map(Filter(ChainEvents(events, id), InScope(scope)), ToBundleEvent))
  {
    hide InScope, ExportOrder;
    FilterMap(list, ToBundleEvent, OfChain(id), InChain(id));
    FilterRearranged(list, Filter(events, InScope(scope)), InChain(id));
    FilterCommutes(events, InScope(scope), InChain(id));
    ChainEventsIsFilter(events, id);
    MapRearranged(Filter(list, InChain(id)), Filter(ChainEvents(events, id), InScope(scope)), ToBundleEvent);
  }

  /** The exported part of a server chain, in position order. */
  function ExportedPart(s: State, shard: ShardKey, scope: Scope): seq<EventRow>
    requires shard in s.tables.chains
  {
    Filter(ServerChain(s, shard), InScope(scope))
  }

  predicate Ascending(rows: seq<EventRow>) {
    forall i, j :: 0 <= i < j < |rows| ==> rows[i].position < rows[j].position
  }

  lemma AscendingSnoc(rows: seq<EventRow>, e: EventRow)
    requires Ascending(rows) && forall i :: 0 <= i < |rows| ==> rows[i].position < e.position
    ensures Ascending(rows + [e])
  {
  }

  lemma {:induction false} FilterKeepsOrder(rows: seq<EventRow>, keep: EventRow -> bool)
    requires Ascending(rows)
    ensures Ascending(Filter(rows, keep))
  {
    if rows == [] {
    } else {
      var n := |rows| - 1;
      assert Ascending(rows[..n]);
      FilterKeepsOrder(rows[..n], keep);
      var kept := Filter(rows[..n], keep);
      forall i | 0 <= i < |kept| ensures kept[i].position < rows[n].position {
        var j :| 0 <= j < n && rows[..n][j] == kept[i];
        assert rows[j].position < rows[n].position;
      }
      hide Ascending;
      AscendingSnoc(kept, rows[n]);
      assert kept + [] == kept;
    }
  }

  /** Whatever arrangement the verifier's sort leaves, it is the exported part in order. */
  lemma ExportedSorted(cfg: Config, s: State, t: State, shard: ShardKey, scope: Scope, b: Bundle, sorted: seq<BundleEvent>)
    requires Reachable(cfg, s) && IsExport(s, t, scope, b) && shard in s.tables.chains
    requires IsSorting(EventsOf(b.events, s.tables.chains[shard].id), sorted, PositionAtMost)
    ensures sorted == Map(ExportedPart(s, shard, scope), ToBundleEvent)
  {
    hide Reachable, InScope, IsChainList, ServerChain, RowLinks, EventHash, Ascending;
    var events, chains :| IsEventList(s.tables.events, scope, events) && IsChainList(t.tables.chains, scope, chains)
                          && b == Bundle(Map(chains, ToBundleChain), Map(events, ToBundleEvent));
    var id := s.tables.chains[shard].id;
    ExportedGroup(s.tables.events, scope, events, id);
    ServerChainIs(s, shard);
    StrictPositions(cfg, s, shard);
    FilterKeepsOrder(ServerChain(s, shard), InScope(scope));
    OnlySorting(ExportedPart(s, shard, scope), sorted);
  }

  lemma ServerChainIs(s: State, shard: ShardKey)
    requires shard in s.tables.chains
    ensures ServerChain(s, shard) == ChainEvents(s.tables.events, s.tables.chains[shard].id)
  {
  }

  lemma StrictPositions(cfg: Config, s: State, shard: ShardKey)
    requires Reachable(cfg, s) && shard in s.tables.chains
    ensures Ascending(ServerChain(s, shard))
  {
    hide Reachable, ServerChain, EventHash;
    ChainsAreWellLinked(cfg, s, shard);
    var rows := ServerChain(s, shard);
    forall i | 0 <= i < |rows| ensures rows[i].position == i + 1 {
      assert RowLinks(cfg.digest, rows, i);
    }
  }

  lemma OnlySorting(rows: seq<EventRow>, sorted: seq<BundleEvent>)
    requires Ascending(rows)
    requires multiset(sorted) == multiset(Map(rows, ToBundleEvent)) && Sorted(sorted, PositionAtMost)
    ensures sorted == Map(rows, ToBundleEvent)
  {
    SortingUnique(Map(rows, ToBundleEvent), sorted, PositionAtMost);
  }
}
