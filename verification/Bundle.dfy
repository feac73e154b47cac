/** The offline bundle verifier (cmd/verify/main.go). */
module Bundle {
  import opened Wrappers
  import opened Verification
  import opened Sequences
  import opened Sorting

  datatype BundleChain = BundleChain(id: string, latestPosition: int, latestEventHash: Option<string>)

  datatype BundleEvent = BundleEvent(id: int, chainId: string, position: int, payloadHash: string, eventHash: string)

  datatype Bundle = Bundle(chains: seq<BundleChain>, events: seq<BundleEvent>)

  datatype ChainReport = ChainReport(chainId: string, valid: bool, eventsVerified: nat, eventCount: nat,
                                     tipMatches: bool, broken: Option<ChainBreak>)

  datatype Report = Report(valid: bool, chainCount: nat, eventCount: nat, chains: seq<ChainReport>)

  // ----- what a report means -----

  /** The published tip of a chain: the last entry for the id counts; none if there is no entry. */
  function TipOf(chains: seq<BundleChain>, id: string): Option<string> {
    if chains == [] then None
    else
      var last := chains[|chains| - 1];
      if last.id == id then last.latestEventHash else TipOf(chains[..|chains| - 1], id)
  }

  function OfChain(id: string): BundleEvent -> bool {
    (e: BundleEvent) => e.chainId == id
  }

  function EventsOf(events: seq<BundleEvent>, id: string): seq<BundleEvent> {
    Filter(events, OfChain(id))
  }

  /** The chains that the events name. */
  function ChainIds(events: seq<BundleEvent>): set<string> {
    set i | 0 <= i < |events| :: events[i].chainId
  }

  predicate PositionAtMost(a: BundleEvent, b: BundleEvent) {
    a.position <= b.position
  }

  /** Bundles carry no content and no previous hashes. */
  function ToRecord<C>(e: BundleEvent): Record<C> {
    Record(None, e.payloadHash, e.eventHash, e.position, None)
  }

  function BundleRecords<C>(events: seq<BundleEvent>): (r: seq<Record<C>>)
    ensures |r| == |events| && forall i :: 0 <= i < |r| ==> r[i] == ToRecord(events[i])
  {
    seq(|events|, i requires 0 <= i < |events| => ToRecord(events[i]))
  }

  /** The part of a report that the core verifier supplies. */
  function VerdictOf(r: ChainReport): ChainVerdict {
    ChainVerdict(r.broken.None?, r.eventsVerified, r.eventCount, r.broken)
  }

  /** The report on one chain whose events were arranged as `sorted`. */
  predicate ReportsOn<C>(h: Hasher<C>, tip: Option<string>, id: string, sorted: seq<BundleEvent>, r: ChainReport) {
    && r.chainId == id
    && IsVerdict(h, BundleRecords(sorted), VerdictOf(r))
    && (r.tipMatches <==> r.broken.None? && sorted != [] && tip == Some(sorted[|sorted| - 1].eventHash))
    && r.valid == r.tipMatches
  }

  /** The report on a group of events under some arrangement that the sort by position may leave. */
  ghost predicate IsGroupReport<C>(h: Hasher<C>, tip: Option<string>, id: string, events: seq<BundleEvent>,
                                   r: ChainReport) {
    exists sorted :: IsSorting(events, sorted, PositionAtMost) && ReportsOn(h, tip, id, sorted, r)
  }

  /** The report on one chain of the bundle. */
  ghost predicate IsChainReport<C>(h: Hasher<C>, b: Bundle, r: ChainReport) {
    IsGroupReport(h, TipOf(b.chains, r.chainId), r.chainId, EventsOf(b.events, r.chainId), r)
  }

  function ReportedIds(chains: seq<ChainReport>): (ids: seq<string>)
    ensures |ids| == |chains| && forall i :: 0 <= i < |ids| ==> ids[i] == chains[i].chainId
  {
    seq(|chains|, i requires 0 <= i < |chains| => chains[i].chainId)
  }

  /** One chain report for every chain that has events, in the order of the ids. */
  ghost predicate IsReport<C>(h: Hasher<C>, b: Bundle, rep: Report) {
    && rep.eventCount == |b.events|
    && rep.chainCount == |rep.chains|
    && multiset(ReportedIds(rep.chains)) == multiset(ChainIds(b.events))
    && Sorted(ReportedIds(rep.chains), StringAtMost)
    && (forall i :: 0 <= i < |rep.chains| ==> IsChainReport(h, b, rep.chains[i]))
    && rep.valid == AllValid(rep.chains)
  }

  // ----- verifyBundle -----


  /** Go's tips[id]: nil when there is no entry. */
  function TipIn(tips: map<string, Option<string>>, id: string): Option<string> {
    if id in tips then tips[id] else None
  }

  ghost predicate IsTipIndex(tips: map<string, Option<string>>, chains: seq<BundleChain>) {
    forall id :: TipIn(tips, id) == TipOf(chains, id)
  }

  /** The published tip of a chain is that of its last entry, and there is none without an entry. */
  lemma {:induction false} TipIsLast(chains: seq<BundleChain>, id: string, i: int)
    requires -1 <= i < |chains| && (i >= 0 ==> chains[i].id == id)
    requires forall j :: i < j < |chains| ==> chains[j].id != id
    ensures TipOf(chains, id) == if i < 0 then None else chains[i].latestEventHash
  {
    if i < |chains| - 1 {
      var n := |chains| - 1;
      assert forall j :: i < j < n ==> chains[..n][j] == chains[j];
      TipIsLast(chains[..n], id, i);
    }
  }

  method IndexTips(chains: seq<BundleChain>) returns (tips: map<string, Option<string>>)
    ensures IsTipIndex(tips, chains)
  {
    tips := map[];
    for i := 0 to |chains|
      invariant IsTipIndex(tips, chains[..i])
    {
      assert chains[..i + 1][..i] == chains[..i];
      assert forall id :: TipIn(tips, id) == TipOf(chains[..i], id);
      tips := tips[chains[i].id := chains[i].latestEventHash];
    }
    assert chains[..|chains|] == chains;
  }

  lemma EventsOfStep(events: seq<BundleEvent>, i: nat, id: string)
    requires i < |events|
    ensures EventsOf(events[..i + 1], id)
            == EventsOf(events[..i], id) + (if events[i].chainId == id then [events[i]] else [])
  {
    assert events[..i + 1][..i] == events[..i];
  }

  lemma NoEventsOf(events: seq<BundleEvent>, id: string)
    requires id !in ChainIds(events)
    ensures EventsOf(events, id) == []
  {
    forall i | 0 <= i < |events| ensures !OfChain(id)(events[i]) {
      assert events[i].chainId in ChainIds(events);
    }
    FilterNone(events, OfChain(id));
  }

  lemma ChainIdsStep(events: seq<BundleEvent>, i: nat)
    requires i < |events|
    ensures ChainIds(events[..i + 1]) == ChainIds(events[..i]) + {events[i].chainId}
  {
    assert events[..i + 1][i] == events[i];
    forall k | 0 <= k < i ensures events[..i + 1][k] == events[..i][k] {
    }
    assert forall k :: 0 <= k < i ==> events[..i][k].chainId in ChainIds(events[..i + 1]);
  }

  predicate IsGrouping(byChain: map<string, seq<BundleEvent>>, events: seq<BundleEvent>) {
    byChain.Keys == ChainIds(events) && forall id :: id in byChain ==> byChain[id] == EventsOf(events, id)
  }

  function Appended(byChain: map<string, seq<BundleEvent>>, e: BundleEvent): map<string, seq<BundleEvent>> {
    byChain[e.chainId := (if e.chainId in byChain then byChain[e.chainId] else []) + [e]]
  }

  lemma GroupingGrows(byChain: map<string, seq<BundleEvent>>, events: seq<BundleEvent>, i: nat)
    requires i < |events| && IsGrouping(byChain, events[..i])
    ensures IsGrouping(Appended(byChain, events[i]), events[..i + 1])
  {
    hide EventsOf, ChainIds;
    var e := events[i];
    ChainIdsStep(events, i);
    if e.chainId !in byChain {
      NoEventsOf(events[..i], e.chainId);
    }
    forall id | id in Appended(byChain, e) ensures Appended(byChain, e)[id] == EventsOf(events[..i + 1], id) {
      EventsOfStep(events, i, id);
    }
  }

  lemma NothingGrouped()
    ensures IsGrouping(map[], [])
  {
  }

  method GroupByChain(events: seq<BundleEvent>) returns (byChain: map<string, seq<BundleEvent>>)
    ensures IsGrouping(byChain, events)
  {
    hide IsGrouping;
    NothingGrouped();
    byChain := map[];
    for i := 0 to |events|
      invariant IsGrouping(byChain, events[..i])
    {
      var e := events[i];
      GroupingGrows(byChain, events, i);
      byChain := byChain[e.chainId := (if e.chainId in byChain then byChain[e.chainId] else []) + [e]];
    }
    assert events[..|events|] == events;
  }

  method VerifyGroup<C>(h: Hasher<C>, tip: Option<string>, id: string, events: seq<BundleEvent>)
    returns (r: ChainReport)
    ensures IsGroupReport(h, tip, id, events, r) && r.chainId == id
  {
    hide IsVerdict;
    var ordered := Sort(events, PositionAtMost);
    var records: seq<Record<C>> := [];
    for i := 0 to |ordered|
      invariant |records| == i && forall k :: 0 <= k < i ==> records[k] == ToRecord(ordered[k])
    {
      records := records + [ToRecord(ordered[i])];
    }
    assert records == BundleRecords(ordered);
    var v := VerifyChain(h, records);
    VerdictParts(h, records, v);
    var tipMatches := false;
    if v.valid && |ordered| > 0 {
      tipMatches := tip.Some? && tip.value == ordered[|ordered| - 1].eventHash;
    }
    r := ChainReport(id, v.valid && tipMatches, v.eventsVerified, |ordered|, tipMatches, v.broken);
    assert ReportsOn(h, tip, id, ordered, r);
  }

  lemma VerdictParts<C>(h: Hasher<C>, records: seq<Record<C>>, v: ChainVerdict)
    requires IsVerdict(h, records, v)
    ensures v == ChainVerdict(v.broken.None?, v.eventsVerified, |records|, v.broken)
  {
  }

  /** The reports on the first chains, one per id. */
  ghost predicate ReportsSoFar<C>(h: Hasher<C>, b: Bundle, ids: seq<string>, chains: seq<ChainReport>) {
    ReportedIds(chains) == ids && forall i :: 0 <= i < |chains| ==> IsChainReport(h, b, chains[i])
  }

  lemma OneMoreReport<C>(h: Hasher<C>, b: Bundle, ids: seq<string>, chains: seq<ChainReport>, r: ChainReport)
    requires ReportsSoFar(h, b, ids, chains)
    requires IsGroupReport(h, TipOf(b.chains, r.chainId), r.chainId, EventsOf(b.events, r.chainId), r)
    ensures ReportsSoFar(h, b, ids + [r.chainId], chains + [r])
  {
    hide IsGroupReport, TipOf, EventsOf;
    assert IsChainReport(h, b, r);
  }

  predicate AllValid(chains: seq<ChainReport>) {
    forall i :: 0 <= i < |chains| ==> chains[i].valid
  }

  lemma AllValidSnoc(chains: seq<ChainReport>, r: ChainReport)
    ensures AllValid(chains + [r]) <==> AllValid(chains) && r.valid
  {
    assert (chains + [r])[|chains|] == r;
    assert AllValid(chains + [r]) ==> forall i :: 0 <= i < |chains| ==> (chains + [r])[i] == chains[i] && chains[i].valid;
  }

  lemma GroupOf(byChain: map<string, seq<BundleEvent>>, events: seq<BundleEvent>, id: string)
    requires IsGrouping(byChain, events) && id in byChain
    ensures byChain[id] == EventsOf(events, id)
  {
  }

  lemma IndexedTip(tips: map<string, Option<string>>, chains: seq<BundleChain>, id: string)
    requires IsTipIndex(tips, chains)
    ensures TipIn(tips, id) == TipOf(chains, id)
  {
  }

  lemma NoReports<C>(h: Hasher<C>, b: Bundle)
    ensures ReportsSoFar(h, b, [], []) && AllValid([])
  {
  }

  method VerifyGroups<C>(h: Hasher<C>, b: Bundle, tips: map<string, Option<string>>, byChain: map<string, seq<BundleEvent>>,
                         chainIds: seq<string>) returns (chains: seq<ChainReport>, valid: bool)
    requires IsTipIndex(tips, b.chains) && IsGrouping(byChain, b.events)
    requires forall i :: 0 <= i < |chainIds| ==> chainIds[i] in byChain
    ensures ReportsSoFar(h, b, chainIds, chains) && valid == AllValid(chains)
  {
    hide ReportsSoFar, AllValid, IsGroupReport, TipOf, TipIn, IsTipIndex, IsGrouping, EventsOf;
    chains, valid := [], true;
    NoReports(h, b);
    for i := 0 to |chainIds|
      invariant ReportsSoFar(h, b, chainIds[..i], chains) && valid == AllValid(chains)
    {
      var id := chainIds[i];
      IndexedTip(tips, b.chains, id);
      GroupOf(byChain, b.events, id);
      var r := VerifyGroup(h, TipIn(tips, id), id, byChain[id]);
      OneMoreReport(h, b, chainIds[..i], chains, r);
      AllValidSnoc(chains, r);
      assert chainIds[..i + 1] == chainIds[..i] + [id];
      chains := chains + [r];
      if !r.valid {
        valid := false;
      }
    }
    assert chainIds[..|chainIds|] == chainIds;
  }

  method VerifyBundle<C>(h: Hasher<C>, b: Bundle) returns (rep: Report)
    ensures IsReport(h, b, rep)
    ensures rep.valid <==> forall i :: 0 <= i < |rep.chains| ==> rep.chains[i].valid
    ensures rep.chainCount == |rep.chains| && rep.eventCount == |b.events|
  {
    hide ChainIds, IsTipIndex, EventsOf, IsChainReport, Sorted, StringAtMost;
    var tips := IndexTips(b.chains);
    var byChain := GroupByChain(b.events);
    var ids := Elements(byChain.Keys);
    var chainIds := SortStrings(ids);
    forall i | 0 <= i < |chainIds| ensures chainIds[i] in byChain {
      assert chainIds[i] in multiset(chainIds);
    }
    var chains, valid := VerifyGroups(h, b, tips, byChain, chainIds);
    rep := Report(valid, |chains|, |b.events|, chains);
  }

  /** sort.Strings. */
  method SortStrings(s: seq<string>) returns (r: seq<string>)
    ensures multiset(r) == multiset(s) && Sorted(r, StringAtMost)
  {
    StringOrder();
    r := Sort(s, StringAtMost);
  }
}
