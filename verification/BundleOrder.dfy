/** When the bundle verifier's answer depends on the order that its unstable sort leaves.

    It does exactly when some chain has, at its least disputed position, two events that differ in
    what the verifier reads, and the events below that position walk. */
module BundleOrder {
  import opened Wrappers
  import opened HashChain
  import opened Verification
  import opened TamperEvidence
  import opened Sequences
  import opened Sorting
  import opened Bundle

  /** One position, two different payload hashes or event hashes. */
  predicate Conflict(x: BundleEvent, y: BundleEvent) {
    x.position == y.position && (x.payloadHash != y.payloadHash || x.eventHash != y.eventHash)
  }

  /** Some event disputes event i. */
  predicate Disputed(events: seq<BundleEvent>, i: nat)
    requires i < |events|
  {
    exists j :: 0 <= j < |events| && Conflict(events[i], events[j])
  }

  predicate HasConflict(events: seq<BundleEvent>) {
    exists i :: 0 <= i < |events| && Disputed(events, i)
  }

  /** The least position with a conflict. */
  predicate FirstConflict(events: seq<BundleEvent>, p: int) {
    && (exists i :: 0 <= i < |events| && Disputed(events, i) && events[i].position == p)
    && (forall i :: 0 <= i < |events| && Disputed(events, i) ==> p <= events[i].position)
  }

  function Below(p: int): BundleEvent -> bool {
    (e: BundleEvent) => e.position < p
  }

  function From(p: int): BundleEvent -> bool {
    (e: BundleEvent) => e.position >= p
  }

  /** The events below position p, in order, are a faultless chain. */
  ghost predicate WalksBelow<C>(h: Hasher<C>, events: seq<BundleEvent>, p: int) {
    exists sorted :: IsSorting(Filter(events, Below(p)), sorted, PositionAtMost) && Walks(h, BundleRecords(sorted))
  }

  /** The walk reaches a disputed position. */
  ghost predicate Undecided<C>(h: Hasher<C>, events: seq<BundleEvent>) {
    exists p :: FirstConflict(events, p) && WalksBelow(h, events, p)
  }

  // ----- the least conflict -----

  lemma FirstConflictExists(events: seq<BundleEvent>) returns (p: int)
    requires HasConflict(events)
    ensures FirstConflict(events, p)
  {
    hide Disputed;
    var least :| 0 <= least < |events| && Disputed(events, least);
    for i := 0 to |events|
      invariant 0 <= least < |events| && Disputed(events, least)
      invariant forall k :: 0 <= k < i && Disputed(events, k) ==> events[least].position <= events[k].position
    {
      if Disputed(events, i) && events[i].position < events[least].position {
        least := i;
      }
    }
    p := events[least].position;
  }

  // ----- arrangements without conflict -----

  predicate RecordAtMost<C>(r: Record<C>, s: Record<C>) {
    r.position <= s.position
  }

  lemma ConflictRearranged(a: seq<BundleEvent>, b: seq<BundleEvent>)
    requires multiset(a) == multiset(b) && HasConflict(a)
    ensures HasConflict(b)
  {
    var i :| 0 <= i < |a| && Disputed(a, i);
    var j :| 0 <= j < |a| && Conflict(a[i], a[j]);
    assert a[i] in multiset(a) && a[j] in multiset(a);
    var i' := MemberIndex(b, a[i]);
    var j' := MemberIndex(b, a[j]);
    assert Disputed(b, i');
  }

  /** Without a conflict all arrangements by position have the same records. */
  lemma SameRecords<C>(a: seq<BundleEvent>, b: seq<BundleEvent>)
    requires multiset(a) == multiset(b) && Sorted(a, PositionAtMost) && Sorted(b, PositionAtMost)
    requires !HasConflict(a)
    ensures BundleRecords<C>(a) == BundleRecords<C>(b)
  {
    var x, y: seq<Record<C>> := Map(a, ToRecord), Map(b, ToRecord);
    assert x == BundleRecords<C>(a) && y == BundleRecords<C>(b);
    MapRearranged(a, b, ToRecord<C>);
    forall i, j | 0 <= i < |x| && 0 <= j < |x| && x[i].position == x[j].position ensures x[i] == x[j] {
      assert !Disputed(a, i);
    }
    forall i, j | 0 <= i < j < |x| ensures RecordAtMost(x[i], x[j]) {
      assert PositionAtMost(a[i], a[j]);
    }
    forall i, j | 0 <= i < j < |y| ensures RecordAtMost(y[i], y[j]) {
      assert PositionAtMost(b[i], b[j]);
    }
    SortingUnique(x, y, RecordAtMost);
  }

  /** Sorted events below p come first. */
  lemma {:induction false} BelowIsPrefix(s: seq<BundleEvent>, p: int)
    requires Sorted(s, PositionAtMost)
    ensures Filter(s, Below(p)) == s[..|Filter(s, Below(p))|]
  {
    if s == [] {
    } else {
      var init, last := s[..|s| - 1], s[|s| - 1];
      assert s == init + [last];
      hide Sorted, Filter;
      LastIsGreatest(init, last);
      BelowIsPrefix(init, p);
      FilterSnoc(init, last, Below(p));
      if last.position < p {
        FilterAll(init, Below(p));
      }
    }
  }

  lemma LastIsGreatest(init: seq<BundleEvent>, last: BundleEvent)
    requires Sorted(init + [last], PositionAtMost)
    ensures Sorted(init, PositionAtMost)
    ensures forall i :: 0 <= i < |init| ==> init[i].position <= last.position
  {
    var s := init + [last];
    forall i, j | 0 <= i < j < |init| ensures PositionAtMost(init[i], init[j]) {
      assert PositionAtMost(s[i], s[j]);
    }
    forall i | 0 <= i < |init| ensures init[i].position <= last.position {
      assert PositionAtMost(s[i], s[|init|]);
    }
  }

  lemma SortedTake(s: seq<BundleEvent>, n: nat)
    requires n <= |s| && Sorted(s, PositionAtMost)
    ensures Sorted(s[..n], PositionAtMost)
  {
  }

  // ----- decided groups have one report -----

  /** A report follows from the records. */
  lemma ReportsUnique<C>(h: Hasher<C>, tip: Option<string>, id: string, a: seq<BundleEvent>, b: seq<BundleEvent>,
                         r: ChainReport, r': ChainReport)
    requires BundleRecords<C>(a) == BundleRecords<C>(b)
    requires ReportsOn(h, tip, id, a, r) && ReportsOn(h, tip, id, b, r')
    ensures r == r'
  {
    hide IsVerdict;
    assert |a| == |BundleRecords<C>(a)| == |b|;
    assert a != [] ==> a[|a| - 1].eventHash == BundleRecords<C>(a)[|a| - 1].eventHash == b[|b| - 1].eventHash;
    VerdictUnique(h, BundleRecords(a), VerdictOf(r), VerdictOf(r'));
  }

  /** Chains with a common beginning that does not walk have the same verdict. */
  lemma BrokenPrefix<C>(h: Hasher<C>, x: seq<Record<C>>, y: seq<Record<C>>, k: nat, v: ChainVerdict, w: ChainVerdict)
    requires |x| == |y| && k <= |x| && x[..k] == y[..k] && !Walks(h, x[..k])
    requires IsVerdict(h, x, v) && IsVerdict(h, y, w)
    ensures v == w && v.broken.Some?
  {
    hide Fault;
    forall i | 0 <= i < k ensures Fault(h, x, i) == Fault(h, x[..k], i) == Fault(h, y, i) {
      PrefixFault(h, x, k, i);
      PrefixFault(h, y, k, i);
    }
    var i :| 0 <= i < k && Fault(h, x[..k], i).Some?;
    assert v.eventsVerified <= i && w.eventsVerified <= i;
  }

  lemma BrokenReports<C>(h: Hasher<C>, tip: Option<string>, id: string, a: seq<BundleEvent>, b: seq<BundleEvent>, k: nat,
                         r: ChainReport, r': ChainReport)
    requires |a| == |b| && k <= |a| && BundleRecords<C>(a[..k]) == BundleRecords<C>(b[..k])
    requires !Walks(h, BundleRecords(a[..k]))
    requires ReportsOn(h, tip, id, a, r) && ReportsOn(h, tip, id, b, r')
    ensures r == r'
  {
    hide IsVerdict, Walks;
    var x, y := BundleRecords<C>(a), BundleRecords<C>(b);
    assert x[..k] == BundleRecords<C>(a[..k]) && y[..k] == BundleRecords<C>(b[..k]);
    BrokenPrefix(h, x, y, k, VerdictOf(r), VerdictOf(r'));
  }

  /** A group that is not undecided has one report. */
  lemma DecidedGroupHasOneReport<C>(h: Hasher<C>, tip: Option<string>, id: string, events: seq<BundleEvent>,
                                    events': seq<BundleEvent>, r: ChainReport, r': ChainReport)
    requires !Undecided(h, events) && multiset(events) == multiset(events')
    requires IsGroupReport(h, tip, id, events, r) && IsGroupReport(h, tip, id, events', r')
    ensures r == r'
  {
    hide ReportsOn, Walks, FirstConflict, HasConflict, Sorted;
    var a :| IsSorting(events, a, PositionAtMost) && ReportsOn(h, tip, id, a, r);
    var b :| IsSorting(events', b, PositionAtMost) && ReportsOn(h, tip, id, b, r');
    if HasConflict(events) {
      var p := FirstConflictExists(events);
      var k := PrefixBelow(h, events, a, b, p);
      BrokenReports(h, tip, id, a, b, k, r, r');
    } else {
      if HasConflict(a) {
        ConflictRearranged(a, events);
      }
      SameRecords<C>(a, b);
      ReportsUnique(h, tip, id, a, b, r, r');
    }
  }

  /** The records below the first conflict are the same in every arrangement. */
  lemma PrefixBelow<C>(h: Hasher<C>, events: seq<BundleEvent>, a: seq<BundleEvent>, b: seq<BundleEvent>, p: int)
    returns (k: nat)
    requires multiset(a) == multiset(events) == multiset(b)
    requires Sorted(a, PositionAtMost) && Sorted(b, PositionAtMost) && FirstConflict(events, p)
    ensures |a| == |b| && k <= |a| && BundleRecords<C>(a[..k]) == BundleRecords<C>(b[..k])
    ensures Walks(h, BundleRecords(a[..k])) ==> WalksBelow(h, events, p)
  {
    hide Walks;
    BelowIsPrefix(a, p);
    BelowIsPrefix(b, p);
    FilterRearranged(a, events, Below(p));
    FilterRearranged(b, events, Below(p));
    var lo, lo' := Filter(a, Below(p)), Filter(b, Below(p));
    assert |a| == |multiset(a)| == |b|;
    assert |lo| == |multiset(lo)| == |lo'|;
    k := |lo|;
    SortedTake(a, k);
    SortedTake(b, k);
    hide Sorted;
    NoConflictBelow(events, p);
    if HasConflict(lo) {
      ConflictRearranged(lo, Filter(events, Below(p)));
    }
    SameRecords<C>(lo, lo');
  }

  lemma NoConflictBelow(events: seq<BundleEvent>, p: int)
    requires FirstConflict(events, p)
    ensures !HasConflict(Filter(events, Below(p)))
  {
    var lo := Filter(events, Below(p));
    forall i, j | 0 <= i < |lo| && 0 <= j < |lo| ensures !Conflict(lo[i], lo[j]) {
      assert Below(p)(lo[i]);
      var i' :| 0 <= i' < |events| && events[i'] == lo[i];
      var j' :| 0 <= j' < |events| && events[j'] == lo[j];
      assert !Disputed(events, i');
    }
  }

  // ----- undecided groups have two -----

  /** The string was hashed while walking one of two chains: at a record that the walk came to. */
  ghost predicate HashedIn<C>(h: Hasher<C>, a: seq<Record<C>>, b: seq<Record<C>>, s: string) {
    || (exists i :: 0 <= i < |a| && FaultFree(h, a, i) && s == StepPreimage(a, i))
    || (exists i :: 0 <= i < |b| && FaultFree(h, b, i) && s == StepPreimage(b, i))
  }

  /** The pair collides, and each half was hashed while walking one of two chains. */
  ghost predicate CollisionAmong<C>(h: Hasher<C>, a: seq<Record<C>>, b: seq<Record<C>>, pair: (string, string)) {
    Collides(h.digest, pair) && HashedIn(h, a, b, pair.0) && HashedIn(h, a, b, pair.1)
  }

  /** A record of a bundle: neither a previous hash nor content. */
  predicate IsBare<C>(r: Record<C>) {
    r.previousHash.None? && r.content.None?
  }

  function Pre<C>(tip: string, r: Record<C>): string {
    Preimage(tip, r.payloadHash, r.position)
  }

  /** A bare record is faulty exactly when its hash does not recompute. */
  lemma BareFault<C>(h: Hasher<C>, tip: string, r: Record<C>)
    requires IsBare(r)
    ensures var hash := HASH_PREFIX + h.digest(Pre(tip, r));
            StepFault(h, tip, r) == if hash == r.eventHash then None
                                    else Some(ChainBreak(r.position, EventHashMismatch, hash, r.eventHash))
  {
  }

  /** Two bare records tried at one place: both faults, or none, only with different hashes. */
  lemma DisputedStep<C>(h: Hasher<C>, tip: string, x: Record<C>, y: Record<C>)
    requires IsBare(x) && IsBare(y) && x.position == y.position && IsLink(tip)
    requires x.payloadHash != y.payloadHash || x.eventHash != y.eventHash
    requires StepFault(h, tip, x) == StepFault(h, tip, y)
    ensures || Collides(h.digest, (Pre(tip, x), Pre(tip, y)))
            || (x.eventHash != y.eventHash && StepFault(h, tip, x).None?)
  {
    hide Preimage, IsLink;
    BareFault(h, tip, x);
    BareFault(h, tip, y);
    if HASH_PREFIX + h.digest(Pre(tip, x)) == HASH_PREFIX + h.digest(Pre(tip, y)) {
      EqualEventHashesEqualDigests(h.digest, Pre(tip, x), Pre(tip, y));
    }
    if Pre(tip, x) == Pre(tip, y) {
      PreimageUnambiguous(tip, x.payloadHash, x.position, tip, y.payloadHash, y.position);
    }
  }

  /** A tip that a record's hash merely repeats: the hash before it, over a smaller position, and
      the record's own collide. */
  lemma RepeatedTip<C>(h: Hasher<C>, a: seq<Record<C>>, k: nat)
    requires k < |a| && FaultFree(h, a, k + 1) && IsBare(a[k])
    requires forall i :: 0 <= i < k ==> a[i].position < a[k].position
    requires Normalize(a[k].eventHash) == Normalize(TipBefore(a, k))
    ensures k > 0 && Collides(h.digest, (StepPreimage(a, k - 1), StepPreimage(a, k)))
  {
    hide Preimage, IsLink;
    WalksTake(h, a, k + 1);
    assert a[..k + 1][k] == a[k] && TipBefore(a[..k + 1], k) == TipBefore(a, k);
    assert TipBefore(a[..k + 1], k + 1) == a[k].eventHash;
    TipShape(h, a[..k + 1], k);
    TipShape(h, a[..k + 1], k + 1);
    assert Fault(h, a, k).None? && Fault(h, a, k - 1).None?;
    EqualEventHashesEqualDigests(h.digest, StepPreimage(a, k - 1), StepPreimage(a, k));
    DifferentPositions(TipBefore(a, k - 1), a[k - 1].payloadHash, a[k - 1].position,
                       TipBefore(a, k), a[k].payloadHash, a[k].position);
  }

  lemma DifferentPositions(p: string, x: string, n: int, q: string, y: string, m: int)
    requires n != m
    ensures Preimage(p, x, n) != Preimage(q, y, m)
  {
    if Preimage(p, x, n) == Preimage(q, y, m) {
      LastColonSplit(Normalize(p) + ":" + x, Normalize(q) + ":" + y, Decimal(n), Decimal(m));
      DecimalInjective(n, m);
    }
  }

  /** One order of two disputed records: a common beginning, then x, then y. */
  ghost predicate DisputedOrder<C>(lo: seq<Record<C>>, x: Record<C>, y: Record<C>, a: seq<Record<C>>) {
    |a| >= |lo| + 2 && a[..|lo|] == lo && a[|lo|] == x && a[|lo| + 1] == y
  }

  lemma DisputedPlaces<C>(h: Hasher<C>, lo: seq<Record<C>>, x: Record<C>, y: Record<C>, a: seq<Record<C>>,
                          v: ChainVerdict)
    requires Walks(h, lo) && DisputedOrder(lo, x, y, a) && IsVerdict(h, a, v)
    ensures var k, tip := |lo|, TipBefore(lo, |lo|);
            && TipBefore(a, k) == tip && IsLink(tip) && StepPreimage(a, k) == Pre(tip, x)
            && StepPreimage(a, k + 1) == Pre(x.eventHash, y)
            && v.eventsVerified >= k && FaultFree(h, a, k)
            && (StepFault(h, tip, x).Some? ==> v.eventsVerified == k && v.broken == StepFault(h, tip, x))
            && (StepFault(h, tip, x).None? ==> v.eventsVerified > k && FaultFree(h, a, k + 1))
            && (StepFault(h, tip, x).None? && StepFault(h, x.eventHash, y).Some? ==>
                  v.eventsVerified == k + 1 && v.broken == StepFault(h, x.eventHash, y))
  {
    hide StepFault, Preimage, IsLink;
    var k := |lo|;
    TipShape(h, lo, k);
    assert TipBefore(a, k) == TipBefore(lo, k) by {
      assert k > 0 ==> a[..k][k - 1] == lo[k - 1];
    }
    forall i | 0 <= i < k ensures Fault(h, a, i).None? {
      PrefixFault(h, a, k, i);
    }
    assert Fault(h, a, k) == StepFault(h, TipBefore(a, k), x);
    assert Fault(h, a, k + 1) == StepFault(h, x.eventHash, y);
  }

  /** x is accepted at the disputed place; if y after it is accepted too, its hash was already used
      on another string. */
  lemma SecondAccepted<C>(h: Hasher<C>, lo: seq<Record<C>>, x: Record<C>, y: Record<C>, a: seq<Record<C>>, b: seq<Record<C>>,
                          v: ChainVerdict, w: ChainVerdict) returns (pair: (string, string))
    requires Walks(h, lo) && DisputedOrder(lo, x, y, a) && DisputedOrder(lo, y, x, b)
    requires IsVerdict(h, a, v) && IsVerdict(h, b, w)
    requires IsBare(x) && IsBare(y) && x.position == y.position
    requires forall i :: 0 <= i < |lo| ==> lo[i].position < x.position
    requires var tip := TipBefore(lo, |lo|); StepFault(h, tip, x).None? && StepFault(h, tip, y).None?
    requires StepFault(h, x.eventHash, y).None?
    ensures CollisionAmong(h, a, b, pair)
  {
    hide StepFault, Preimage, IsLink, IsVerdict, DisputedOrder;
    var k, tip := |lo|, TipBefore(lo, |lo|);
    DisputedPlaces(h, lo, x, y, a, v);
    DisputedPlaces(h, lo, y, x, b, w);
    OrderFacts(lo, x, y, a);
    OrderFacts(lo, y, x, b);
    BareFault(h, tip, y);
    BareFault(h, x.eventHash, y);
    if Pre(x.eventHash, y) != Pre(tip, y) {
      pair := (StepPreimage(a, k + 1), StepPreimage(b, k));
      EqualEventHashesEqualDigests(h.digest, pair.0, pair.1);
    } else {
      SamePreSameTip(x.eventHash, tip, y);
      RepeatedTip(h, a, k);
      pair := (StepPreimage(a, k - 1), StepPreimage(a, k));
    }
  }

  lemma OrderFacts<C>(lo: seq<Record<C>>, x: Record<C>, y: Record<C>, a: seq<Record<C>>)
    requires DisputedOrder(lo, x, y, a)
    ensures |a| >= |lo| + 2 && a[|lo|] == x && a[|lo| + 1] == y
    ensures forall i :: 0 <= i < |lo| ==> a[i] == lo[i]
  {
    assert forall i :: 0 <= i < |lo| ==> a[..|lo|][i] == a[i];
  }

  lemma SamePreSameTip<C>(p: string, q: string, r: Record<C>)
    requires Pre(p, r) == Pre(q, r)
    ensures Normalize(p) == Normalize(q)
  {
    LastColonSplit(Normalize(p) + ":" + r.payloadHash, Normalize(q) + ":" + r.payloadHash,
                   Decimal(r.position), Decimal(r.position));
    var s, t := Normalize(p) + ":" + r.payloadHash, Normalize(q) + ":" + r.payloadHash;
    assert |Normalize(p)| == |Normalize(q)|;
    assert Normalize(p) == s[..|Normalize(p)|] && Normalize(q) == t[..|Normalize(q)|];
  }

  /** Trying two disputed records in either order gives different verdicts, or a collision. */
  lemma DisputedOrdersDiffer<C>(h: Hasher<C>, lo: seq<Record<C>>, x: Record<C>, y: Record<C>, a: seq<Record<C>>, b: seq<Record<C>>,
                                v: ChainVerdict, w: ChainVerdict) returns (pair: (string, string))
    requires Walks(h, lo) && DisputedOrder(lo, x, y, a) && DisputedOrder(lo, y, x, b)
    requires IsVerdict(h, a, v) && IsVerdict(h, b, w)
    requires IsBare(x) && IsBare(y) && x.position == y.position
    requires forall i :: 0 <= i < |lo| ==> lo[i].position < x.position
    requires x.payloadHash != y.payloadHash || x.eventHash != y.eventHash
    ensures v != w || CollisionAmong(h, a, b, pair)
  {
    hide StepFault, Preimage, IsLink, IsVerdict, DisputedOrder, Walks, CollisionAmong;
    var k, tip := |lo|, TipBefore(lo, |lo|);
    DisputedPlaces(h, lo, x, y, a, v);
    DisputedPlaces(h, lo, y, x, b, w);
    OrderFacts(lo, x, y, a);
    OrderFacts(lo, y, x, b);
    pair := (StepPreimage(a, k), StepPreimage(b, k));
    if StepFault(h, tip, x) == StepFault(h, tip, y) {
      DisputedStep(h, tip, x, y);
      if Collides(h.digest, pair) {
        FirstCollides(h, lo, x, y, a, b, pair);
      } else if StepFault(h, x.eventHash, y).None? {
        pair := SecondAccepted(h, lo, x, y, a, b, v, w);
      } else if StepFault(h, y.eventHash, x).None? {
        pair := SecondAccepted(h, lo, y, x, b, a, w, v);
        CollisionSwaps(h, b, a, pair);
      } else {
        BareFault(h, x.eventHash, y);
        BareFault(h, y.eventHash, x);
      }
    }
  }

  lemma FirstCollides<C>(h: Hasher<C>, lo: seq<Record<C>>, x: Record<C>, y: Record<C>, a: seq<Record<C>>, b: seq<Record<C>>,
                         pair: (string, string))
    requires DisputedOrder(lo, x, y, a) && DisputedOrder(lo, y, x, b) && Collides(h.digest, pair)
    requires pair == (StepPreimage(a, |lo|), StepPreimage(b, |lo|))
    requires FaultFree(h, a, |lo|) && FaultFree(h, b, |lo|)
    ensures CollisionAmong(h, a, b, pair)
  {
    hide Preimage;
  }

  lemma CollisionSwaps<C>(h: Hasher<C>, a: seq<Record<C>>, b: seq<Record<C>>, pair: (string, string))
    requires CollisionAmong(h, a, b, pair)
    ensures CollisionAmong(h, b, a, pair)
  {
  }

  // ----- undecided groups of events -----

  lemma PositionsAreOrdered()
    ensures TotalOrder(PositionAtMost)
  {
  }

  lemma SamePosition(events: seq<BundleEvent>, p: int) returns (x: BundleEvent, y: BundleEvent)
    requires FirstConflict(events, p)
    ensures x in events && y in events && Conflict(x, y) && x.position == p
  {
    var i :| 0 <= i < |events| && Disputed(events, i) && events[i].position == p;
    var j :| 0 <= j < |events| && Conflict(events[i], events[j]);
    x, y := events[i], events[j];
  }

  lemma {:induction false} FilterSplits(s: seq<BundleEvent>, p: int)
    ensures multiset(s) == multiset(Filter(s, Below(p))) + multiset(Filter(s, From(p)))
  {
    forall e ensures multiset(s)[e] == multiset(Filter(s, Below(p)))[e] + multiset(Filter(s, From(p)))[e] {
      FilterCount(s, Below(p), e);
      FilterCount(s, From(p), e);
    }
  }

  /** Two disputed events can come first at their position, and the rest after them. */
  lemma DisputedRest(events: seq<BundleEvent>, p: int, x: BundleEvent, y: BundleEvent) returns (hi: seq<BundleEvent>)
    requires x in events && y in events && Conflict(x, y) && x.position == p
    ensures Sorted(hi, PositionAtMost) && forall i :: 0 <= i < |hi| ==> hi[i].position >= p
    ensures multiset(events) == multiset(Filter(events, Below(p))) + multiset{x} + multiset{y} + multiset(hi)
  {
    var upper := Filter(events, From(p));
    FilterMember(events, From(p), x);
    FilterMember(events, From(p), y);
    var rest := TakeOut(upper, x);
    assert y in multiset(upper) && x != y;
    assert y in multiset(rest);
    var rest' := TakeOut(rest, y);
    PositionsAreOrdered();
    hi := SortingExists(rest', PositionAtMost);
    forall i | 0 <= i < |hi| ensures hi[i].position >= p {
      assert hi[i] in multiset(hi) && hi[i] in multiset(upper);
      var j := MemberIndex(upper, hi[i]);
      assert From(p)(upper[j]);
    }
    FilterSplits(events, p);
  }

  lemma DisputedArrangement(events: seq<BundleEvent>, p: int, lo: seq<BundleEvent>, x: BundleEvent, y: BundleEvent,
                            hi: seq<BundleEvent>)
    requires IsSorting(Filter(events, Below(p)), lo, PositionAtMost) && Sorted(hi, PositionAtMost)
    requires x.position == y.position == p && forall i :: 0 <= i < |hi| ==> hi[i].position >= p
    requires multiset(events) == multiset(lo) + multiset{x} + multiset{y} + multiset(hi)
    ensures IsSorting(events, lo + [x, y] + hi, PositionAtMost)
    ensures forall i :: 0 <= i < |lo| ==> lo[i].position < p
  {
    AllBelow(events, p, lo);
    hide Filter;
    DisputedInOrder(p, lo, x, y, hi);
    assert multiset([x, y]) == multiset{x} + multiset{y};
  }

  lemma AllBelow(events: seq<BundleEvent>, p: int, lo: seq<BundleEvent>)
    requires multiset(lo) == multiset(Filter(events, Below(p)))
    ensures forall i :: 0 <= i < |lo| ==> lo[i].position < p
  {
    forall i | 0 <= i < |lo| ensures lo[i].position < p {
      assert lo[i] in multiset(lo);
      var j := MemberIndex(Filter(events, Below(p)), lo[i]);
      assert Below(p)(Filter(events, Below(p))[j]);
    }
  }

  lemma DisputedInOrder(p: int, lo: seq<BundleEvent>, x: BundleEvent, y: BundleEvent, hi: seq<BundleEvent>)
    requires Sorted(lo, PositionAtMost) && Sorted(hi, PositionAtMost) && x.position == y.position == p
    requires forall i :: 0 <= i < |lo| ==> lo[i].position < p
    requires forall i :: 0 <= i < |hi| ==> hi[i].position >= p
    ensures Sorted(lo + [x, y] + hi, PositionAtMost)
  {
    SortedConcat(lo, [x, y], PositionAtMost);
    SortedConcat(lo + [x, y], hi, PositionAtMost);
  }

  /** Every record list has a verdict. */
  lemma {:induction false} VerdictExists<C>(h: Hasher<C>, records: seq<Record<C>>, n: nat) returns (v: ChainVerdict)
    requires n <= |records| && FaultFree(h, records, n)
    ensures IsVerdict(h, records, v)
    decreases |records| - n
  {
    hide Fault;
    if n == |records| {
      v := ChainVerdict(true, n, n, None);
    } else if Fault(h, records, n).Some? {
      v := ChainVerdict(false, n, |records|, Fault(h, records, n));
    } else {
      v := VerdictExists(h, records, n + 1);
    }
  }

  lemma ReportExists<C>(h: Hasher<C>, tip: Option<string>, id: string, sorted: seq<BundleEvent>)
    returns (r: ChainReport)
    ensures ReportsOn(h, tip, id, sorted, r)
  {
    hide Fault;
    var v := VerdictExists(h, BundleRecords(sorted), 0);
    var tipMatches := v.valid && sorted != [] && tip == Some(sorted[|sorted| - 1].eventHash);
    r := ChainReport(id, tipMatches, v.eventsVerified, v.count, tipMatches, v.broken);
    assert VerdictOf(r) == v;
  }

  /** The records of two arrangements that put disputed events in either order. */
  lemma DisputedRecords<C>(lo: seq<BundleEvent>, x: BundleEvent, y: BundleEvent, hi: seq<BundleEvent>)
    ensures DisputedOrder(BundleRecords<C>(lo), ToRecord(x), ToRecord(y), BundleRecords(lo + [x, y] + hi))
  {
    var a := lo + [x, y] + hi;
    assert a[|lo|] == x && a[|lo| + 1] == y;
    assert BundleRecords<C>(a)[..|lo|] == BundleRecords<C>(lo);
  }

  /** An undecided group has two reports, or the two arrangements behind them show a collision. */
  lemma UndecidedGroupHasTwoReports<C>(h: Hasher<C>, tip: Option<string>, id: string, events: seq<BundleEvent>)
    returns (a: seq<BundleEvent>, b: seq<BundleEvent>, r: ChainReport, r': ChainReport, pair: (string, string))
    requires Undecided(h, events)
    ensures IsSorting(events, a, PositionAtMost) && ReportsOn(h, tip, id, a, r)
    ensures IsSorting(events, b, PositionAtMost) && ReportsOn(h, tip, id, b, r')
    ensures r != r' || CollisionAmong(h, BundleRecords(a), BundleRecords(b), pair)
  {
    hide FirstConflict, Walks, ReportsOn, IsVerdict, CollisionAmong, Sorted;
    var p :| FirstConflict(events, p) && WalksBelow(h, events, p);
    var lo :| IsSorting(Filter(events, Below(p)), lo, PositionAtMost) && Walks(h, BundleRecords(lo));
    var x, y := SamePosition(events, p);
    var hi := DisputedRest(events, p, x, y);
    a, b := lo + [x, y] + hi, lo + [y, x] + hi;
    DisputedArrangement(events, p, lo, x, y, hi);
    DisputedArrangement(events, p, lo, y, x, hi);
    r := ReportExists(h, tip, id, a);
    r' := ReportExists(h, tip, id, b);
    pair := DisputedReports(h, tip, id, lo, x, y, hi, r, r');
  }

  lemma DisputedReports<C>(h: Hasher<C>, tip: Option<string>, id: string, lo: seq<BundleEvent>, x: BundleEvent, y: BundleEvent,
                           hi: seq<BundleEvent>, r: ChainReport, r': ChainReport) returns (pair: (string, string))
    requires Walks(h, BundleRecords(lo)) && Conflict(x, y)
    requires forall i :: 0 <= i < |lo| ==> lo[i].position < x.position
    requires ReportsOn(h, tip, id, lo + [x, y] + hi, r) && ReportsOn(h, tip, id, lo + [y, x] + hi, r')
    ensures r != r' || CollisionAmong(h, BundleRecords(lo + [x, y] + hi), BundleRecords(lo + [y, x] + hi), pair)
  {
    hide Walks, IsVerdict, CollisionAmong, DisputedOrder;
    DisputedRecords<C>(lo, x, y, hi);
    DisputedRecords<C>(lo, y, x, hi);
    pair := DisputedOrdersDiffer(h, BundleRecords(lo), ToRecord(x), ToRecord(y), BundleRecords(lo + [x, y] + hi),
                                 BundleRecords(lo + [y, x] + hi), VerdictOf(r), VerdictOf(r'));
  }

  // ----- whole bundles -----

  /** No chain of the bundle is undecided: its verdicts break before the first conflict, or it has
      none. */
  ghost predicate Decided<C>(h: Hasher<C>, events: seq<BundleEvent>) {
    forall id :: id in ChainIds(events) ==> !Undecided(h, EventsOf(events, id))
  }

  lemma ChainIdsRearranged(a: seq<BundleEvent>, b: seq<BundleEvent>)
    requires multiset(a) == multiset(b)
    ensures ChainIds(a) == ChainIds(b)
  {
    forall i | 0 <= i < |a| ensures a[i].chainId in ChainIds(b) {
      assert a[i] in multiset(b);
      var j := MemberIndex(b, a[i]);
    }
    forall i | 0 <= i < |b| ensures b[i].chainId in ChainIds(a) {
      assert b[i] in multiset(a);
      var j := MemberIndex(a, b[i]);
    }
  }

  lemma SameIds<C>(h: Hasher<C>, b: Bundle, b': Bundle, rep: Report, rep': Report)
    requires multiset(b.events) == multiset(b'.events)
    requires IsReport(h, b, rep) && IsReport(h, b', rep')
    ensures ReportedIds(rep.chains) == ReportedIds(rep'.chains)
  {
    hide IsChainReport, ChainIds, StringAtMost;
    ChainIdsRearranged(b.events, b'.events);
    StringsNoTies(ReportedIds(rep.chains));
    SortingUnique(ReportedIds(rep.chains), ReportedIds(rep'.chains), StringAtMost);
  }

  lemma ReportedId<C>(h: Hasher<C>, b: Bundle, rep: Report, i: nat)
    requires IsReport(h, b, rep) && i < |rep.chains|
    ensures rep.chains[i].chainId in ChainIds(b.events) && IsChainReport(h, b, rep.chains[i])
  {
    hide ChainIds, IsChainReport, Sorted;
    assert ReportedIds(rep.chains)[i] in multiset(ReportedIds(rep.chains));
  }

  lemma ChainReportDetermined<C>(h: Hasher<C>, b: Bundle, b': Bundle, r: ChainReport, r': ChainReport)
    requires multiset(b.events) == multiset(b'.events) && !Undecided(h, EventsOf(b.events, r.chainId))
    requires r.chainId == r'.chainId && TipOf(b.chains, r.chainId) == TipOf(b'.chains, r.chainId)
    requires IsChainReport(h, b, r) && IsChainReport(h, b', r')
    ensures r == r'
  {
    hide IsGroupReport, TipOf, Undecided;
    var id := r.chainId;
    FilterRearranged(b.events, b'.events, OfChain(id));
    DecidedGroupHasOneReport(h, TipOf(b.chains, id), id, EventsOf(b.events, id), EventsOf(b'.events, id), r, r');
  }

  /** If no chain is undecided the report depends neither on the order of the events nor on how the
      tips are listed. */
  lemma ReportOrderIndependent<C>(h: Hasher<C>, b: Bundle, b': Bundle, rep: Report, rep': Report)
    requires multiset(b.events) == multiset(b'.events) && Decided(h, b.events)
    requires forall id :: TipOf(b.chains, id) == TipOf(b'.chains, id)
    requires IsReport(h, b, rep) && IsReport(h, b', rep')
    ensures rep == rep'
  {
    hide IsChainReport, ChainIds, Undecided, TipOf, Sorted, IsReport, EventsOf;
    SameIds(h, b, b', rep, rep');
    assert |b.events| == |multiset(b.events)| == |b'.events|;
    assert |rep.chains| == |ReportedIds(rep.chains)| == |rep'.chains|;
    forall i | 0 <= i < |rep.chains| ensures rep.chains[i] == rep'.chains[i] {
      assert ReportedIds(rep.chains)[i] == ReportedIds(rep'.chains)[i];
      ReportedId(h, b, rep, i);
      ReportedId(h, b', rep', i);
      ChainReportDetermined(h, b, b', rep.chains[i], rep'.chains[i]);
    }
    assert rep.chains == rep'.chains;
    ReportIsItsChains(h, b, rep);
    ReportIsItsChains(h, b', rep');
  }

  lemma ReportIsItsChains<C>(h: Hasher<C>, b: Bundle, rep: Report)
    requires IsReport(h, b, rep)
    ensures rep == Report(AllValid(rep.chains), |rep.chains|, |b.events|, rep.chains)
  {
    hide IsChainReport;
  }

  /** Reports on the given chains, with a chosen one where its id is among them. */
  lemma {:induction false} ReportsExist<C>(h: Hasher<C>, b: Bundle, ids: seq<string>, r: ChainReport)
    returns (chains: seq<ChainReport>)
    requires IsChainReport(h, b, r)
    ensures ReportsSoFar(h, b, ids, chains)
    ensures forall i :: 0 <= i < |chains| && chains[i].chainId == r.chainId ==> chains[i] == r
  {
    if ids == [] {
      chains := [];
      NoReports(h, b);
    } else {
      hide ReportsSoFar, IsGroupReport, TipOf, EventsOf;
      var n := |ids| - 1;
      var done := ReportsExist(h, b, ids[..n], r);
      var last := r;
      if ids[n] != r.chainId {
        last := GroupReportExists(h, TipOf(b.chains, ids[n]), ids[n], EventsOf(b.events, ids[n]));
      }
      assert ids == ids[..n] + [last.chainId];
      OneMoreReport(h, b, ids[..n], done, last);
      chains := done + [last];
    }
  }

  lemma GroupReportExists<C>(h: Hasher<C>, tip: Option<string>, id: string, events: seq<BundleEvent>)
    returns (r: ChainReport)
    ensures IsGroupReport(h, tip, id, events, r) && r.chainId == id
  {
    PositionsAreOrdered();
    var sorted := SortingExists(events, PositionAtMost);
    r := ReportExists(h, tip, id, sorted);
  }

  /** Any report on one chain is part of a report on the bundle. */
  lemma ReportWith<C>(h: Hasher<C>, b: Bundle, r: ChainReport) returns (rep: Report)
    requires IsChainReport(h, b, r) && r.chainId in ChainIds(b.events)
    ensures IsReport(h, b, rep) && r in rep.chains
    ensures forall i :: 0 <= i < |rep.chains| && rep.chains[i].chainId == r.chainId ==> rep.chains[i] == r
  {
    hide IsChainReport, ChainIds, StringAtMost;
    StringOrder();
    var listed := ListingExists(ChainIds(b.events));
    var ids := SortingExists(listed, StringAtMost);
    var chains := ReportsExist(h, b, ids, r);
    rep := Report(AllValid(chains), |chains|, |b.events|, chains);
    assert r.chainId in multiset(ids);
    var i := MemberIndex(ids, r.chainId);
    assert ReportedIds(chains)[i] == chains[i].chainId;
  }

  /** Conversely an undecided chain leaves the bundle with two different reports, one for each of
      two orders of the same events, or these orders show a collision. */
  lemma UndecidedBundleHasTwoReports<C>(h: Hasher<C>, b: Bundle, id: string)
    returns (rep: Report, rep': Report, x: seq<BundleEvent>, y: seq<BundleEvent>, pair: (string, string))
    requires id in ChainIds(b.events) && Undecided(h, EventsOf(b.events, id))
    ensures IsReport(h, b, rep) && IsReport(h, b, rep')
    ensures IsSorting(EventsOf(b.events, id), x, PositionAtMost) && IsSorting(EventsOf(b.events, id), y, PositionAtMost)
    ensures rep != rep' || CollisionAmong(h, BundleRecords(x), BundleRecords(y), pair)
  {
    hide Undecided, ReportsOn, IsReport, CollisionAmong, ChainIds, TipOf, EventsOf;
    var r, r';
    x, y, r, r', pair := UndecidedGroupHasTwoReports(h, TipOf(b.chains, id), id, EventsOf(b.events, id));
    ReportNames(h, TipOf(b.chains, id), id, x, r);
    ReportNames(h, TipOf(b.chains, id), id, y, r');
    assert IsChainReport(h, b, r) && IsChainReport(h, b, r');
    rep := ReportWith(h, b, r);
    rep' := ReportWith(h, b, r');
    if rep == rep' {
      var i :| 0 <= i < |rep.chains| && rep.chains[i] == r;
      assert rep'.chains[i].chainId == r'.chainId;
    }
  }

  lemma ReportNames<C>(h: Hasher<C>, tip: Option<string>, id: string, sorted: seq<BundleEvent>, r: ChainReport)
    requires ReportsOn(h, tip, id, sorted, r)
    ensures r.chainId == id
  {
  }
}
