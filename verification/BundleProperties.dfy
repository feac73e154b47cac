/** What a bundle report tells, and what it does not. */
module BundleProperties {
  import opened Wrappers
  import opened HashChain
  import opened Verification
  import opened Sequences
  import opened Sorting
  import opened Bundle
  import opened BundleOrder

  // ----- partition -----

  function CountSum(chains: seq<ChainReport>): nat {
    if chains == [] then 0 else CountSum(chains[..|chains| - 1]) + chains[|chains| - 1].eventCount
  }

  /** The events of some chains, counted chain by chain. */
  function SizeSum(events: seq<BundleEvent>, ids: seq<string>): nat {
    if ids == [] then 0 else SizeSum(events, ids[..|ids| - 1]) + |EventsOf(events, ids[|ids| - 1])|
  }

  lemma {:induction false} OneMoreEvent(events: seq<BundleEvent>, e: BundleEvent, ids: seq<string>)
    requires Distinct(ids)
    ensures SizeSum(events + [e], ids) == SizeSum(events, ids) + (if e.chainId in ids then 1 else 0)
  {
    if ids == [] {
    } else {
      var n := |ids| - 1;
      OneMoreEvent(events, e, ids[..n]);
      FilterSnoc(events, e, OfChain(ids[n]));
    }
  }

  lemma {:induction false} NoEventsNoSize(ids: seq<string>)
    ensures SizeSum([], ids) == 0
  {
    if ids == [] {
    } else {
      NoEventsNoSize(ids[..|ids| - 1]);
    }
  }

  /** Distinct chain ids that cover the events split them completely. */
  lemma {:induction false} SizesAddUp(events: seq<BundleEvent>, ids: seq<string>)
    requires Distinct(ids)
    requires forall i :: 0 <= i < |events| ==> events[i].chainId in ids
    ensures SizeSum(events, ids) == |events|
  {
    if events == [] {
      NoEventsNoSize(ids);
    } else {
      var n := |events| - 1;
      SizesAddUp(events[..n], ids);
      assert events == events[..n] + [events[n]];
      OneMoreEvent(events[..n], events[n], ids);
    }
  }

  lemma {:induction false} CountsAreSizes(events: seq<BundleEvent>, chains: seq<ChainReport>)
    requires forall i :: 0 <= i < |chains| ==> chains[i].eventCount == |EventsOf(events, chains[i].chainId)|
    ensures CountSum(chains) == SizeSum(events, ReportedIds(chains))
  {
    if chains == [] {
    } else {
      var n := |chains| - 1;
      CountsAreSizes(events, chains[..n]);
      assert ReportedIds(chains)[..n] == ReportedIds(chains[..n]);
    }
  }

  lemma ReportCounts<C>(h: Hasher<C>, b: Bundle, r: ChainReport)
    requires IsChainReport(h, b, r)
    ensures r.eventCount == |EventsOf(b.events, r.chainId)|
  {
    hide TipOf;
    var sorted :| IsSorting(EventsOf(b.events, r.chainId), sorted, PositionAtMost)
                  && ReportsOn(h, TipOf(b.chains, r.chainId), r.chainId, sorted, r);
    assert |sorted| == |multiset(sorted)| == |multiset(EventsOf(b.events, r.chainId))|;
  }

  /** A report has one entry per distinct chain id of the events, and the entries' event counts
      add up to all events. */
  lemma ReportPartitions<C>(h: Hasher<C>, b: Bundle, rep: Report)
    requires IsReport(h, b, rep)
    ensures Distinct(ReportedIds(rep.chains))
    ensures forall id :: id in ReportedIds(rep.chains) <==> id in ChainIds(b.events)
    ensures CountSum(rep.chains) == rep.eventCount == |b.events|
  {
    hide IsChainReport, EventsOf, Sorted;
    var ids := ReportedIds(rep.chains);
    ListedSet(ids, ChainIds(b.events));
    forall i | 0 <= i < |rep.chains|
      ensures rep.chains[i].eventCount == |EventsOf(b.events, rep.chains[i].chainId)|
    {
      ReportCounts(h, b, rep.chains[i]);
    }
    forall i | 0 <= i < |b.events| ensures b.events[i].chainId in ids {
      assert b.events[i].chainId in ChainIds(b.events);
    }
    SizesAddUp(b.events, ids);
    CountsAreSizes(b.events, rep.chains);
  }

  // ----- what a valid report means -----

  /** The events of a chain, in some order by position, are a chain up to its published tip. */
  predicate ReachesTip<C>(h: Hasher<C>, tip: Option<string>, sorted: seq<BundleEvent>) {
    Walks(h, BundleRecords(sorted)) && sorted != [] && tip == Some(sorted[|sorted| - 1].eventHash)
  }

  ghost predicate ChainHolds<C>(h: Hasher<C>, b: Bundle, id: string) {
    exists sorted :: IsSorting(EventsOf(b.events, id), sorted, PositionAtMost) && ReachesTip(h, TipOf(b.chains, id), sorted)
  }

  lemma ReportsOnExactly<C>(h: Hasher<C>, tip: Option<string>, id: string, sorted: seq<BundleEvent>, r: ChainReport)
    requires ReportsOn(h, tip, id, sorted, r)
    ensures r.valid <==> ReachesTip(h, tip, sorted)
  {
    hide IsVerdict, Walks;
    VerdictUnique(h, BundleRecords(sorted), VerdictOf(r), VerdictOf(r));
  }

  lemma ChainReportExactly<C>(h: Hasher<C>, b: Bundle, r: ChainReport)
    requires IsChainReport(h, b, r)
    ensures r.valid ==> ChainHolds(h, b, r.chainId)
    ensures !Undecided(h, EventsOf(b.events, r.chainId)) && ChainHolds(h, b, r.chainId) ==> r.valid
  {
    hide ReportsOn, ReachesTip, TipOf, Undecided, EventsOf;
    var id := r.chainId;
    var tip, group := TipOf(b.chains, id), EventsOf(b.events, id);
    var x :| IsSorting(group, x, PositionAtMost) && ReportsOn(h, tip, id, x, r);
    ReportsOnExactly(h, tip, id, x, r);
    if !Undecided(h, group) && ChainHolds(h, b, id) {
      var y :| IsSorting(group, y, PositionAtMost) && ReachesTip(h, tip, y);
      var r' := ReportExists(h, tip, id, y);
      ReportsOnExactly(h, tip, id, y, r');
      DecidedGroupHasOneReport(h, tip, id, group, group, r, r');
    }
  }

  /** A bundle is valid only if every chain that has events in it holds; and if no chain is
      undecided, exactly then. */
  lemma ValidExactly<C>(h: Hasher<C>, b: Bundle, rep: Report)
    requires IsReport(h, b, rep)
    ensures rep.valid ==> forall id :: id in ChainIds(b.events) ==> ChainHolds(h, b, id)
    ensures Decided(h, b.events) ==>
              (rep.valid <==> forall id :: id in ChainIds(b.events) ==> ChainHolds(h, b, id))
  {
    hide IsChainReport, ChainHolds, ChainIds, Undecided, Sorted, EventsOf;
    var ids := ReportedIds(rep.chains);
    ListedSet(ids, ChainIds(b.events));
    forall i | 0 <= i < |rep.chains|
      ensures rep.chains[i].valid ==> ChainHolds(h, b, ids[i])
      ensures Decided(h, b.events) && ChainHolds(h, b, ids[i]) ==> rep.chains[i].valid
    {
      assert ids[i] in ids;
      ChainReportExactly(h, b, rep.chains[i]);
    }
    forall i | 0 <= i < |ids| ensures ids[i] in ChainIds(b.events) {
      assert ids[i] in ids;
    }
    forall id | id in ChainIds(b.events) ensures exists i :: 0 <= i < |ids| && ids[i] == id {
      assert id in ids;
    }
  }

  // ----- when validity itself is at stake -----

  ghost predicate AllChainsHold<C>(h: Hasher<C>, b: Bundle) {
    forall id :: id in ChainIds(b.events) ==> ChainHolds(h, b, id)
  }

  /** A chain that holds has a valid report. */
  lemma ValidChainReport<C>(h: Hasher<C>, b: Bundle, id: string) returns (r: ChainReport)
    requires ChainHolds(h, b, id)
    ensures r.chainId == id && r.valid && IsChainReport(h, b, r)
  {
    hide ReportsOn, ReachesTip, TipOf, EventsOf;
    var tip := TipOf(b.chains, id);
    var sorted :| IsSorting(EventsOf(b.events, id), sorted, PositionAtMost) && ReachesTip(h, tip, sorted);
    r := ReportExists(h, tip, id, sorted);
    ReportNames(h, tip, id, sorted, r);
    ReportsOnExactly(h, tip, id, sorted, r);
  }

  lemma {:induction false} ValidReportsExist<C>(h: Hasher<C>, b: Bundle, ids: seq<string>) returns (chains: seq<ChainReport>)
    requires forall i :: 0 <= i < |ids| ==> ChainHolds(h, b, ids[i])
    ensures ReportsSoFar(h, b, ids, chains) && AllValid(chains)
  {
    hide ReportsSoFar, ChainHolds, IsGroupReport, TipOf, EventsOf, AllValid;
    if ids == [] {
      chains := [];
      NoReports(h, b);
    } else {
      var n := |ids| - 1;
      var done := ValidReportsExist(h, b, ids[..n]);
      var last := ValidChainReport(h, b, ids[n]);
      assert ids == ids[..n] + [last.chainId];
      OneMoreReport(h, b, ids[..n], done, last);
      AllValidSnoc(done, last);
      chains := done + [last];
    }
  }

  lemma HoldingBundleCanPass<C>(h: Hasher<C>, b: Bundle) returns (rep: Report)
    requires AllChainsHold(h, b)
    ensures IsReport(h, b, rep) && rep.valid
  {
    hide IsChainReport, ChainIds, ChainHolds, StringAtMost, AllValid;
    StringOrder();
    var listed := ListingExists(ChainIds(b.events));
    var ids := SortingExists(listed, StringAtMost);
    forall i | 0 <= i < |ids| ensures ChainHolds(h, b, ids[i]) {
      assert ids[i] in multiset(ids);
    }
    var chains := ValidReportsExist(h, b, ids);
    rep := Report(true, |chains|, |b.events|, chains);
  }

  /** A bundle can be reported valid exactly when every chain with events holds in some order. */
  lemma CanPassExactly<C>(h: Hasher<C>, b: Bundle)
    ensures (exists rep :: IsReport(h, b, rep) && rep.valid) <==> AllChainsHold(h, b)
  {
    hide IsReport, ChainHolds, ChainIds;
    if rep :| IsReport(h, b, rep) && rep.valid {
      ValidExactly(h, b, rep);
    } else if AllChainsHold(h, b) {
      var rep := HoldingBundleCanPass(h, b);
    }
  }

  /** A conflict in a chain that holds is reached by the walk. */
  lemma ConflictUndecides<C>(h: Hasher<C>, b: Bundle, id: string)
    requires ChainHolds(h, b, id)
    ensures Undecided(h, EventsOf(b.events, id)) <==> HasConflict(EventsOf(b.events, id))
  {
    hide TipOf, EventsOf, Walks;
    var group := EventsOf(b.events, id);
    var sorted :| IsSorting(group, sorted, PositionAtMost) && ReachesTip(h, TipOf(b.chains, id), sorted);
    if HasConflict(group) {
      hide HasConflict, FirstConflict;
      var p := FirstConflictExists(group);
      WalksToConflict(h, group, sorted, p);
      assert FirstConflict(group, p) && WalksBelow(h, group, p);
    }
  }

  lemma WalksToConflict<C>(h: Hasher<C>, group: seq<BundleEvent>, sorted: seq<BundleEvent>, p: int)
    requires IsSorting(group, sorted, PositionAtMost) && Walks(h, BundleRecords(sorted))
    ensures WalksBelow(h, group, p)
  {
    hide Walks;
    var lo := Filter(sorted, Below(p));
    var k := |lo|;
    BelowIsPrefix(sorted, p);
    FilterRearranged(sorted, group, Below(p));
    SortedTake(sorted, k);
    WalksBegin(h, BundleRecords(sorted), k);
    assert BundleRecords<C>(sorted)[..k] == BundleRecords<C>(lo);
  }

  lemma WalksBegin<C>(h: Hasher<C>, records: seq<Record<C>>, n: nat)
    requires n <= |records| && Walks(h, records)
    ensures Walks(h, records[..n])
  {
    WalksTake(h, records, n);
  }

  /** Two valid reports on one chain are equal. */
  lemma ValidReportsEqual<C>(h: Hasher<C>, tip: Option<string>, id: string, x: seq<BundleEvent>, y: seq<BundleEvent>,
                             r: ChainReport, r': ChainReport)
    requires ReportsOn(h, tip, id, x, r) && ReportsOn(h, tip, id, y, r') && |x| == |y|
    ensures r.valid && r'.valid ==> r == r'
  {
    hide FaultFree;
  }

  /** A bundle whose chains all hold, in some order each, is reported valid whatever the order if no
      chain has a conflict. */
  lemma HoldingBundleIsValid<C>(h: Hasher<C>, b: Bundle, rep: Report)
    requires AllChainsHold(h, b) && IsReport(h, b, rep)
    requires forall id :: id in ChainIds(b.events) ==> !HasConflict(EventsOf(b.events, id))
    ensures rep.valid
  {
    hide ChainHolds, ChainIds, HasConflict, Undecided, EventsOf, IsReport;
    forall id | id in ChainIds(b.events) ensures !Undecided(h, EventsOf(b.events, id)) {
      ConflictUndecides(h, b, id);
    }
    ValidExactly(h, b, rep);
  }

  /** Conversely a conflict in any chain leaves such a bundle with a report that it is invalid, or the
      two orders behind it show a collision. */
  lemma HoldingBundleCanFail<C>(h: Hasher<C>, b: Bundle, id: string)
    returns (rep: Report, x: seq<BundleEvent>, y: seq<BundleEvent>, pair: (string, string))
    requires AllChainsHold(h, b) && id in ChainIds(b.events) && HasConflict(EventsOf(b.events, id))
    ensures IsReport(h, b, rep)
    ensures IsSorting(EventsOf(b.events, id), x, PositionAtMost) && IsSorting(EventsOf(b.events, id), y, PositionAtMost)
    ensures !rep.valid || CollisionAmong(h, BundleRecords(x), BundleRecords(y), pair)
  {
    hide ChainHolds, Undecided, HasConflict, ReportsOn, IsReport, CollisionAmong, ChainIds, TipOf, EventsOf, Sorted;
    ConflictUndecides(h, b, id);
    var group, tip := EventsOf(b.events, id), TipOf(b.chains, id);
    var r, r';
    x, y, r, r', pair := UndecidedGroupHasTwoReports(h, tip, id, group);
    assert |x| == |multiset(x)| == |multiset(y)| == |y|;
    ValidReportsEqual(h, tip, id, x, y, r, r');
    ReportNames(h, tip, id, x, r);
    ReportNames(h, tip, id, y, r');
    var chosen := if r.valid then r' else r;
    assert IsChainReport(h, b, r) && IsChainReport(h, b, r');
    rep := ReportWith(h, b, chosen);
    ReportIsItsChains(h, b, rep);
  }

  // ----- a chain whose events are all missing -----

  /** Every published tip is reached by the chain's events. */
  ghost predicate AllTipsReached<C>(h: Hasher<C>, b: Bundle) {
    forall i :: 0 <= i < |b.chains| && TipOf(b.chains, b.chains[i].id).Some? ==> ChainHolds(h, b, b.chains[i].id)
  }

  predicate AllTipsHaveEvents(b: Bundle) {
    forall i :: 0 <= i < |b.chains| && TipOf(b.chains, b.chains[i].id).Some? ==> b.chains[i].id in ChainIds(b.events)
  }

  /** A chain is compared with its published tip only if at least one of its events is in the
      bundle: a valid report backs all published tips exactly when each such chain has one. */
  lemma TipsReachedExactly<C>(h: Hasher<C>, b: Bundle, rep: Report)
    requires IsReport(h, b, rep) && rep.valid
    ensures AllTipsReached(h, b) <==> AllTipsHaveEvents(b)
  {
    hide IsReport, ReachesTip, TipOf;
    ValidExactly(h, b, rep);
    forall i | 0 <= i < |b.chains| && b.chains[i].id !in ChainIds(b.events)
      ensures !ChainHolds(h, b, b.chains[i].id)
    {
      NoEventsNoTip(h, b, b.chains[i].id);
    }
  }

  lemma NoEventsNoTip<C>(h: Hasher<C>, b: Bundle, id: string)
    requires id !in ChainIds(b.events)
    ensures !ChainHolds(h, b, id)
  {
    hide Walks, TipOf;
    NoEventsOf(b.events, id);
    forall sorted | IsSorting(EventsOf(b.events, id), sorted, PositionAtMost) ensures sorted == [] {
      assert |sorted| == |multiset(sorted)| == 0;
    }
  }

  function NotOfChain(id: string): BundleEvent -> bool {
    (e: BundleEvent) => e.chainId != id
  }

  /** The bundle with all events of one chain taken out. */
  function Without(b: Bundle, id: string): Bundle {
    b.(events := Filter(b.events, NotOfChain(id)))
  }

  lemma OtherGroupsStay(events: seq<BundleEvent>, id: string, other: string)
    requires other != id
    ensures EventsOf(Filter(events, NotOfChain(id)), other) == EventsOf(events, other)
  {
    FilterCommutes(events, NotOfChain(id), OfChain(other));
    FilterAll(EventsOf(events, other), NotOfChain(id));
  }

  lemma IdsWithout(events: seq<BundleEvent>, id: string)
    ensures ChainIds(Filter(events, NotOfChain(id))) == ChainIds(events) - {id}
  {
    var rest := Filter(events, NotOfChain(id));
    forall i | 0 <= i < |rest| ensures rest[i].chainId in ChainIds(events) - {id} {
      assert NotOfChain(id)(rest[i]);
      var j :| 0 <= j < |events| && events[j] == rest[i];
    }
    forall x | x in ChainIds(events) - {id} ensures x in ChainIds(rest) {
      var i :| 0 <= i < |events| && events[i].chainId == x;
      FilterMember(events, NotOfChain(id), events[i]);
      var j :| 0 <= j < |rest| && rest[j] == events[i];
    }
  }

  lemma OthersStayDecided<C>(h: Hasher<C>, events: seq<BundleEvent>, id: string)
    requires Decided(h, events)
    ensures Decided(h, Filter(events, NotOfChain(id)))
  {
    hide Undecided, EventsOf, ChainIds;
    IdsWithout(events, id);
    forall other | other != id ensures EventsOf(Filter(events, NotOfChain(id)), other) == EventsOf(events, other) {
      OtherGroupsStay(events, id, other);
    }
  }

  /** Taking out every event of a chain leaves a bundle that is valid exactly when the other
      chains hold; the erased chain's published tip is not missed. */
  lemma ErasedChainUnnoticed<C>(h: Hasher<C>, b: Bundle, id: string, rep: Report, rep': Report)
    requires Decided(h, b.events)
    requires IsReport(h, b, rep) && IsReport(h, Without(b, id), rep')
    ensures rep'.valid <==> forall other :: other in ChainIds(b.events) && other != id ==> ChainHolds(h, b, other)
    ensures rep.valid ==> rep'.valid
  {
    hide IsReport, Decided, ReachesTip, TipOf, IsSorting, ChainIds, EventsOf;
    ValidExactly(h, b, rep);
    OthersStayDecided(h, b.events, id);
    ValidExactly(h, Without(b, id), rep');
    IdsWithout(b.events, id);
    forall other | other != id ensures ChainHolds(h, Without(b, id), other) <==> ChainHolds(h, b, other) {
      OtherGroupsStay(b.events, id, other);
    }
  }

  // ----- tied positions -----

  /** Two linked events of chain "c" that both claim position 1. */
  function TiedEvents(H: Digest): (BundleEvent, BundleEvent) {
    var first := EventHash(H, "", "p", 1);
    (BundleEvent(1, "c", 1, "p", first), BundleEvent(2, "c", 1, "q", EventHash(H, first, "q", 1)))
  }

  function TiedBundle(H: Digest): Bundle {
    var (a, b) := TiedEvents(H);
    Bundle([BundleChain("c", 1, Some(b.eventHash))], [a, b])
  }

  lemma TiedGroup(H: Digest)
    ensures EventsOf(TiedBundle(H).events, "c") == TiedBundle(H).events
  {
    hide EventHash;
    FilterAll(TiedBundle(H).events, OfChain("c"));
  }

  /** The order that the unstable sort happens to leave can decide the verdict: this bundle may be
      reported valid, and it may be reported invalid, unless two different pre-images collide. */
  lemma TiesAreAmbiguous<C>(h: Hasher<C>) returns (good: ChainReport, bad: ChainReport)
    ensures IsChainReport(h, TiedBundle(h.digest), good) && good.valid
    ensures var (a, b) := TiedEvents(h.digest);
            || (IsChainReport(h, TiedBundle(h.digest), bad) && !bad.valid)
            || Collides(h.digest, (Preimage("", "q", 1), Preimage(a.eventHash, "q", 1)))
  {
    hide EventHash, Preimage;
    var bundle := TiedBundle(h.digest);
    var (a, b) := TiedEvents(h.digest);
    TiedGroup(h.digest);
    TiedTip(h.digest);
    TiedSortings(h.digest);
    hide TiedBundle, TipOf, EventsOf, IsSorting, ReportsOn;
    good := ChainReport("c", true, 2, 2, true, None);
    TiedInOrder(h);
    var fault := Some(ChainBreak(1, EventHashMismatch, EventHash(h.digest, "", "q", 1), b.eventHash));
    bad := ChainReport("c", false, 0, 2, false, fault);
    TiedOutOfOrder(h, bad);
  }

  lemma TiedTip(H: Digest)
    ensures TipOf(TiedBundle(H).chains, "c") == Some(TiedEvents(H).1.eventHash)
  {
    hide EventHash;
  }

  /** Both arrangements of the tied events are sorted by position. */
  lemma TiedSortings(H: Digest)
    ensures var (a, b) := TiedEvents(H);
            IsSorting([a, b], [a, b], PositionAtMost) && IsSorting([a, b], [b, a], PositionAtMost)
    ensures TiedBundle(H).events == [TiedEvents(H).0, TiedEvents(H).1]
  {
    hide EventHash;
    var (a, b) := TiedEvents(H);
    assert multiset([b, a]) == multiset([a, b]);
  }

  lemma TiedInOrder<C>(h: Hasher<C>)
    ensures var (a, b) := TiedEvents(h.digest);
            ReportsOn(h, Some(b.eventHash), "c", [a, b], ChainReport("c", true, 2, 2, true, None))
  {
    hide EventHash;
    var (a, b) := TiedEvents(h.digest);
    var records: seq<Record<C>> := BundleRecords([a, b]);
    assert Fault(h, records, 0).None? && Fault(h, records, 1).None?;
  }

  lemma TiedOutOfOrder<C>(h: Hasher<C>, bad: ChainReport)
    requires var (a, b) := TiedEvents(h.digest);
             bad == ChainReport("c", false, 0, 2, false,
                                Some(ChainBreak(1, EventHashMismatch, EventHash(h.digest, "", "q", 1), b.eventHash)))
    ensures var (a, b) := TiedEvents(h.digest);
            || ReportsOn(h, Some(b.eventHash), "c", [b, a], bad)
            || Collides(h.digest, (Preimage("", "q", 1), Preimage(a.eventHash, "q", 1)))
  {
    var (a, b) := TiedEvents(h.digest);
    var records: seq<Record<C>> := BundleRecords([b, a]);
    var p, q := Preimage("", "q", 1), Preimage(a.eventHash, "q", 1);
    EventHashIsTagged(h.digest, "", "p", 1);
    if p == q {
      PreimageUnambiguous("", "q", 1, a.eventHash, "q", 1);
    }
    assert p != q;
    if EventHash(h.digest, "", "q", 1) == b.eventHash {
      EqualEventHashesEqualDigests(h.digest, p, q);
    } else {
      assert Fault(h, records, 0) == bad.broken;
    }
  }
}
