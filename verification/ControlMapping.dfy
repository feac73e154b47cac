/** From events to proposed control mappings (classify/packs.go, classify/mapcontrols.go). */
module ControlMapping {
  import opened Wrappers
  import opened Sequences

  datatype Match = Match(eventTypeExact: seq<string>, eventTypePrefix: seq<string>, dataClassesAny: seq<string>,
                         actorTypeAny: seq<string>, actionResultAny: seq<string>)

  datatype Rule = Rule(id: string, match': Match, controls: seq<string>, reason: string)

  datatype Pack = Pack(id: string, rules: seq<Rule>)

  datatype Subject = Subject(eventType: string, dataClasses: seq<string>, actorType: string, actionResult: string)

  datatype Mapping = Mapping(framework: string, controlId: string, reason: string)

  // ----- which rules match -----

  /** Exact names or prefixes, when either list is populated. */
  predicate TypeSatisfied(m: Match, s: Subject) {
    || (m.eventTypeExact == [] && m.eventTypePrefix == [])
    || s.eventType in m.eventTypeExact
    || exists p :: p in m.eventTypePrefix && p <= s.eventType
  }

  predicate ListSatisfied(list: seq<string>, v: string) {
    list == [] || v in list
  }

  predicate ClassesSatisfied(m: Match, s: Subject) {
    m.dataClassesAny == [] || exists c :: c in m.dataClassesAny && c in s.dataClasses
  }

  /** Every populated dimension is satisfied. */
  predicate Satisfies(m: Match, s: Subject) {
    && TypeSatisfied(m, s) && ClassesSatisfied(m, s)
    && ListSatisfied(m.actorTypeAny, s.actorType) && ListSatisfied(m.actionResultAny, s.actionResult)
  }

  method Contains(list: seq<string>, v: string) returns (found: bool)
    ensures found <==> v in list
  {
    for i := 0 to |list|
      invariant v !in list[..i]
    {
      if list[i] == v {
        return true;
      }
    }
    found := false;
  }

  method Intersects(a: seq<string>, b: seq<string>) returns (found: bool)
    ensures found <==> exists x :: x in a && x in b
  {
    for i := 0 to |a|
      invariant forall k :: 0 <= k < i ==> a[k] !in b
    {
      var hit := Contains(b, a[i]);
      if hit {
        assert a[i] in a && a[i] in b;
        return true;
      }
    }
    found := false;
  }

  method Matches(m: Match, s: Subject) returns (ok: bool)
    ensures ok <==> Satisfies(m, s)
    ensures ok
      <==> && (|| (m.eventTypeExact == [] && m.eventTypePrefix == []) || s.eventType in m.eventTypeExact
               || exists p :: p in m.eventTypePrefix && p <= s.eventType)
           && (m.dataClassesAny == [] || exists c :: c in m.dataClassesAny && c in s.dataClasses)
           && (m.actorTypeAny == [] || s.actorType in m.actorTypeAny)
           && (m.actionResultAny == [] || s.actionResult in m.actionResultAny)
  {
    if |m.eventTypeExact| > 0 || |m.eventTypePrefix| > 0 {
      var typeOk := Contains(m.eventTypeExact, s.eventType);
      if !typeOk {
        for i := 0 to |m.eventTypePrefix|
          invariant !typeOk && forall k :: 0 <= k < i ==> !(m.eventTypePrefix[k] <= s.eventType)
        {
          if m.eventTypePrefix[i] <= s.eventType {
            typeOk := true;
            assert m.eventTypePrefix[i] in m.eventTypePrefix;
            assert TypeSatisfied(m, s);
            break;
          }
        }
      }
      assert typeOk <==> TypeSatisfied(m, s);
      if !typeOk {
        return false;
      }
    }
    if |m.dataClassesAny| > 0 {
      var any := Intersects(s.dataClasses, m.dataClassesAny);
      if !any {
        return false;
      }
    }
    if |m.actorTypeAny| > 0 {
      var any := Contains(m.actorTypeAny, s.actorType);
      if !any {
        return false;
      }
    }
    if |m.actionResultAny| > 0 {
      var any := Contains(m.actionResultAny, s.actionResult);
      if !any {
        return false;
      }
    }
    return true;
  }

  /** Every rule of every pack, in pack order and then in file order. */
  function AllRules(packs: seq<Pack>): seq<Rule> {
    if packs == [] then [] else AllRules(packs[..|packs| - 1]) + packs[|packs| - 1].rules
  }

  /** The rules of one pack are its own, and those of more packs follow. */
  lemma {:induction false} AllRulesAppend(a: seq<Pack>, p: Pack, b: seq<Pack>)
    ensures AllRules(a + [p] + b) == AllRules(a) + p.rules + AllRules(b)
  {
    if b == [] {
      assert (a + [p] + b)[..|a|] == a;
    } else {
      var n := |b| - 1;
      assert (a + [p] + b)[..|a| + 1 + n] == a + [p] + b[..n];
      AllRulesAppend(a, p, b[..n]);
    }
  }

  method Rules(packs: seq<Pack>) returns (rules: seq<Rule>)
    ensures rules == AllRules(packs)
  {
    rules := [];
    for i := 0 to |packs|
      invariant rules == AllRules(packs[..i])
    {
      assert packs[..i + 1][..i] == packs[..i];
      rules := rules + packs[i].rules;
    }
    assert packs[..|packs|] == packs;
  }

  // ----- splitting a reference at its first colon -----

  /** strings.Index(ref, ":"), or the length where Go answers -1. */
  function FirstColon(ref: string): (i: nat)
    ensures i <= |ref| && (i < |ref| ==> ref[i] == ':')
    ensures forall k :: 0 <= k < i ==> ref[k] != ':'
  {
    if ref == "" || ref[0] == ':' then 0 else 1 + FirstColon(ref[1..])
  }

  predicate HasColon(s: string) {
    ':' in s
  }

  lemma FirstColonFound(ref: string)
    ensures HasColon(ref) <==> FirstColon(ref) < |ref|
  {
    if HasColon(ref) {
      var k :| 0 <= k < |ref| && ref[k] == ':';
    }
  }

  function SplitRef(ref: string, reason: string): Mapping
    requires HasColon(ref)
  {
    FirstColonFound(ref);
    var i := FirstColon(ref);
    Mapping(ref[..i], ref[i + 1..], reason)
  }

  /** framework ":" control_id. */
  function Joined(m: Mapping): string {
    m.framework + ":" + m.controlId
  }

  /** A reference splits into a framework without a colon, and joins back to itself. */
  lemma SplitRejoins(ref: string, reason: string)
    requires HasColon(ref)
    ensures Joined(SplitRef(ref, reason)) == ref && !HasColon(SplitRef(ref, reason).framework)
  {
    FirstColonFound(ref);
    var i := FirstColon(ref);
    assert ref == ref[..i] + [ref[i]] + ref[i + 1..];
  }

  /** Pairs whose frameworks hold no colon join differently. */
  lemma JoinUnambiguous(a: Mapping, b: Mapping)
    requires Joined(a) == Joined(b) && !HasColon(a.framework) && !HasColon(b.framework)
    ensures a.framework == b.framework && a.controlId == b.controlId
  {
    var s, t := Joined(a), Joined(b);
    assert s[|a.framework|] == ':' && t[|b.framework|] == ':';
    assert forall k :: 0 <= k < |a.framework| ==> s[k] == a.framework[k];
    assert forall k :: 0 <= k < |b.framework| ==> t[k] == b.framework[k];
    assert |a.framework| == |b.framework|;
    assert a.framework == s[..|a.framework|] && b.framework == t[..|b.framework|];
    assert a.controlId == s[|a.framework| + 1..] && b.controlId == t[|b.framework| + 1..];
  }

  // ----- Compute -----

  datatype Hit = Hit(ref: string, reason: string)

  /** The rules' reference lists, one hit each. */
  function HitsOf(refs: seq<string>, reason: string): (hits: seq<Hit>)
    ensures |hits| == |refs| && forall i :: 0 <= i < |hits| ==> hits[i] == Hit(refs[i], reason)
  {
    seq(|refs|, i requires 0 <= i < |refs| => Hit(refs[i], reason))
  }

  /** Everything that matched rules propose, in order. */
  function RuleHits(rules: seq<Rule>, s: Subject): seq<Hit> {
    if rules == [] then []
    else
      var last := rules[|rules| - 1];
      RuleHits(rules[..|rules| - 1], s) + (if Satisfies(last.match', s) then HitsOf(last.controls, last.reason) else [])
  }

  const CUSTOMER_DECLARED := "customer_declared"

  /** Rule references first, then the customer's references that have a colon. */
  function AllHits(rules: seq<Rule>, s: Subject, customer: seq<string>): seq<Hit> {
    RuleHits(rules, s) + HitsOf(Filter(customer, HasColon), CUSTOMER_DECLARED)
  }

  predicate RefIn(hits: seq<Hit>, ref: string) {
    exists i :: 0 <= i < |hits| && hits[i].ref == ref
  }

  /** The hits whose reference no earlier hit has. */
  function FirstHits(hits: seq<Hit>): (r: seq<Hit>)
    ensures |r| <= |hits|
  {
    if hits == [] then []
    else
      var init, last := hits[..|hits| - 1], hits[|hits| - 1];
      FirstHits(init) + (if RefIn(init, last.ref) then [] else [last])
  }

  /** Appending a reference that is already there changes nothing; a new one comes last. */
  lemma FirstHitsSnoc(hits: seq<Hit>, h: Hit)
    ensures FirstHits(hits + [h]) == FirstHits(hits) + (if RefIn(hits, h.ref) then [] else [h])
  {
    assert (hits + [h])[..|hits|] == hits;
  }

  lemma RefInSnoc(hits: seq<Hit>, h: Hit, ref: string)
    ensures RefIn(hits + [h], ref) <==> RefIn(hits, ref) || h.ref == ref
  {
    var all := hits + [h];
    if RefIn(hits, ref) {
      var i :| 0 <= i < |hits| && hits[i].ref == ref;
      assert all[i].ref == ref;
    }
    assert all[|hits|] == h;
  }

  /** The first hit for each reference: distinct references, all of them, each with the reason of
      the hit that contributed it first. */
  predicate OwnsRef(hits: seq<Hit>, j: int, h: Hit) {
    0 <= j < |hits| && hits[j] == h && !RefIn(hits[..j], h.ref)
  }

  ghost predicate IsOwned(hits: seq<Hit>, h: Hit) {
    exists j :: OwnsRef(hits, j, h)
  }

  lemma {:induction false} FirstHitsOwn(hits: seq<Hit>)
    ensures forall i, j :: 0 <= i < j < |FirstHits(hits)| ==> FirstHits(hits)[i].ref != FirstHits(hits)[j].ref
    ensures forall ref :: RefIn(FirstHits(hits), ref) <==> RefIn(hits, ref)
    ensures forall i :: 0 <= i < |FirstHits(hits)| ==> IsOwned(hits, FirstHits(hits)[i])
  {
    if hits == [] {
      NoHits();
    } else {
      var n := |hits| - 1;
      var init, last := hits[..n], hits[n];
      var before, after := FirstHits(init), FirstHits(hits);
      FirstHitsOwn(init);
      assert hits == init + [last];
      forall ref ensures RefIn(after, ref) <==> RefIn(hits, ref) {
        RefInSnoc(init, last, ref);
        RefInSnoc(before, last, ref);
        assert before + [] == before;
      }
      forall i | 0 <= i < |before| ensures before[i].ref == last.ref ==> RefIn(init, last.ref) {
        assert RefIn(before, before[i].ref);
      }
      forall i | 0 <= i < |after| ensures IsOwned(hits, after[i]) {
        if i < |before| {
          assert IsOwned(init, before[i]);
          var j :| OwnsRef(init, j, before[i]);
          assert hits[..j] == init[..j];
          assert OwnsRef(hits, j, after[i]);
        } else {
          assert OwnsRef(hits, n, after[i]);
        }
      }
    }
  }

  /** Every reference that a matched rule contributes has a colon. */
  predicate Splittable(hits: seq<Hit>) {
    forall i :: 0 <= i < |hits| ==> HasColon(hits[i].ref)
  }

  function MappingsOf(hits: seq<Hit>): (r: seq<Mapping>)
    requires Splittable(hits)
    ensures |r| == |hits| && forall i :: 0 <= i < |r| ==> r[i] == SplitRef(hits[i].ref, hits[i].reason)
  {
    seq(|hits|, i requires 0 <= i < |hits| => SplitRef(hits[i].ref, hits[i].reason))
  }


  ghost predicate SeenExactly(hits: seq<Hit>, seen: set<string>) {
    forall ref :: ref in seen <==> RefIn(hits, ref)
  }

  /** One reference: skipped when seen, otherwise appended. */
  method AddRef(ghost hits: seq<Hit>, order: seq<Hit>, seen: set<string>, h: Hit)
    returns (order': seq<Hit>, seen': set<string>)
    requires order == FirstHits(hits) && SeenExactly(hits, seen)
    ensures order' == FirstHits(hits + [h]) && SeenExactly(hits + [h], seen')
  {
    FirstHitsSnoc(hits, h);
    forall ref ensures RefIn(hits + [h], ref) <==> RefIn(hits, ref) || h.ref == ref {
      RefInSnoc(hits, h, ref);
    }
    hide FirstHits, RefIn;
    order', seen' := order, seen;
    if h.ref !in seen {
      seen' := seen + {h.ref};
      order' := order + [h];
    }
  }

  lemma HitsStep(refs: seq<string>, reason: string, i: nat)
    requires i < |refs|
    ensures HitsOf(refs[..i + 1], reason) == HitsOf(refs[..i], reason) + [Hit(refs[i], reason)]
  {
  }

  method AddRule(ghost hits: seq<Hit>, order: seq<Hit>, seen: set<string>, r: Rule)
    returns (order': seq<Hit>, seen': set<string>)
    requires order == FirstHits(hits) && SeenExactly(hits, seen)
    ensures order' == FirstHits(hits + HitsOf(r.controls, r.reason)) && SeenExactly(hits + HitsOf(r.controls, r.reason), seen')
  {
    hide FirstHits, RefIn, SeenExactly;
    order', seen' := order, seen;
    assert hits + HitsOf(r.controls[..0], r.reason) == hits;
    for i := 0 to |r.controls|
      invariant order' == FirstHits(hits + HitsOf(r.controls[..i], r.reason))
      invariant SeenExactly(hits + HitsOf(r.controls[..i], r.reason), seen')
    {
      ghost var done := hits + HitsOf(r.controls[..i], r.reason);
      var h := Hit(r.controls[i], r.reason);
      order', seen' := AddRef(done, order', seen', h);
      HitsStep(r.controls, r.reason, i);
      assert done + [h] == hits + HitsOf(r.controls[..i + 1], r.reason);
    }
    assert r.controls[..|r.controls|] == r.controls;
  }

  method CollectRules(rules: seq<Rule>, s: Subject) returns (order: seq<Hit>, seen: set<string>)
    ensures order == FirstHits(RuleHits(rules, s)) && SeenExactly(RuleHits(rules, s), seen)
  {
    order, seen := [], {};
    assert SeenExactly([], {});
    hide FirstHits, RefIn, SeenExactly, Satisfies;
    assert FirstHits([]) == [] by {
      NoHits();
    }
    for i := 0 to |rules|
      invariant order == FirstHits(RuleHits(rules[..i], s)) && SeenExactly(RuleHits(rules[..i], s), seen)
    {
      assert rules[..i + 1][..i] == rules[..i];
      var r := rules[i];
      ghost var done := RuleHits(rules[..i], s);
      var matched := Matches(r.match', s);
      if !matched {
        assert done + [] == done;
        continue;
      }
      order, seen := AddRule(done, order, seen, r);
    }
    assert rules[..|rules|] == rules;
  }

  lemma NoHits()
    ensures FirstHits([]) == []
  {
  }

  lemma CustomerStep(customer: seq<string>, i: nat)
    requires i < |customer|
    ensures HitsOf(Filter(customer[..i + 1], HasColon), CUSTOMER_DECLARED)
            == HitsOf(Filter(customer[..i], HasColon), CUSTOMER_DECLARED)
               + (if HasColon(customer[i]) then [Hit(customer[i], CUSTOMER_DECLARED)] else [])
  {
    assert customer[..i + 1] == customer[..i] + [customer[i]];
    FilterSnoc(customer[..i], customer[i], HasColon);
  }

  method CollectHits(rules: seq<Rule>, s: Subject, customer: seq<string>) returns (order: seq<Hit>)
    ensures order == FirstHits(AllHits(rules, s, customer))
  {
    hide FirstHits, RefIn, SeenExactly, RuleHits, HasColon;
    var seen;
    order, seen := CollectRules(rules, s);
    ghost var fromRules := RuleHits(rules, s);
    assert fromRules + HitsOf(Filter(customer[..0], HasColon), CUSTOMER_DECLARED) == fromRules;
    for i := 0 to |customer|
      invariant order == FirstHits(fromRules + HitsOf(Filter(customer[..i], HasColon), CUSTOMER_DECLARED))
      invariant SeenExactly(fromRules + HitsOf(Filter(customer[..i], HasColon), CUSTOMER_DECLARED), seen)
    {
      CustomerStep(customer, i);
      ghost var done := fromRules + HitsOf(Filter(customer[..i], HasColon), CUSTOMER_DECLARED);
      if !HasColon(customer[i]) {
        assert fromRules + HitsOf(Filter(customer[..i + 1], HasColon), CUSTOMER_DECLARED) == done;
        continue;
      }
      var h := Hit(customer[i], CUSTOMER_DECLARED);
      assert fromRules + HitsOf(Filter(customer[..i + 1], HasColon), CUSTOMER_DECLARED) == done + [h];
      order, seen := AddRef(done, order, seen, h);
    }
    assert customer[..|customer|] == customer;
  }

  /** Compute: the mappings, or None where slicing a reference without a colon panics. */
  method Compute(packs: seq<Pack>, s: Subject, customer: seq<string>) returns (out: Option<seq<Mapping>>)
    ensures out.Some? <==> Splittable(FirstHits(AllHits(AllRules(packs), s, customer)))
    ensures out.Some? ==> out.value == MappingsOf(FirstHits(AllHits(AllRules(packs), s, customer)))
    ensures var rules := AllRules(packs);
            out.None? <==> exists k, m :: && 0 <= k < |rules| && Satisfies(rules[k].match', s)
                                          && 0 <= m < |rules[k].controls| && ':' !in rules[k].controls[m]
  {
    PanicsExactly(AllRules(packs), s, customer);
    hide FirstHits, AllHits, HasColon, AllRules;
    var rules := Rules(packs);
    var order := CollectHits(rules, s, customer);
    var mappings: seq<Mapping> := [];
    for i := 0 to |order|
      invariant Splittable(order[..i]) && mappings == MappingsOf(order[..i])
    {
      FirstColonFound(order[i].ref);
      var idx := FirstColon(order[i].ref);
      if idx == |order[i].ref| {
        return None;
      }
      mappings := mappings + [Mapping(order[i].ref[..idx], order[i].ref[idx + 1..], order[i].reason)];
    }
    assert order[..|order|] == order;
    out := Some(mappings);
  }

  // ----- where the hits come from -----

  /** The place of a proposed reference: which rule, and where in its list.  The customer's list counts
      as that of one more rule, after all others. */
  datatype Place = Place(rule: nat, index: nat)

  predicate IsRulePlace(rules: seq<Rule>, s: Subject, p: Place) {
    p.rule < |rules| && Satisfies(rules[p.rule].match', s) && p.index < |rules[p.rule].controls|
  }

  predicate IsCustomerPlace(rules: seq<Rule>, customer: seq<string>, p: Place) {
    p.rule == |rules| && p.index < |customer| && ':' in customer[p.index]
  }

  predicate IsPlace(rules: seq<Rule>, s: Subject, customer: seq<string>, p: Place) {
    IsRulePlace(rules, s, p) || IsCustomerPlace(rules, customer, p)
  }

  /** The proposal at a place: the reference and its reason. */
  function HitAt(rules: seq<Rule>, s: Subject, customer: seq<string>, p: Place): Hit
    requires IsPlace(rules, s, customer, p)
  {
    if p.rule < |rules| then Hit(rules[p.rule].controls[p.index], rules[p.rule].reason)
    else Hit(customer[p.index], "customer_declared")
  }

  predicate Precedes(p: Place, q: Place) {
    p.rule < q.rule || (p.rule == q.rule && p.index < q.index)
  }

  predicate Ascending(at: seq<Place>) {
    forall i, j :: 0 <= i < j < |at| ==> Precedes(at[i], at[j])
  }

  /** The places in one list. */
  function ListPlaces(rule: nat, n: nat): (at: seq<Place>)
    ensures |at| == n && forall i :: 0 <= i < n ==> at[i] == Place(rule, i)
  {
    seq(n, i requires 0 <= i < n => Place(rule, i))
  }

  lemma PlaceInPrefix(rules: seq<Rule>, s: Subject, n: nat, p: Place)
    requires n <= |rules|
    ensures IsRulePlace(rules[..n], s, p) <==> IsRulePlace(rules, s, p) && p.rule < n
  {
    hide Satisfies;
  }

  lemma AscendingAppend(a: seq<Place>, b: seq<Place>)
    requires Ascending(a) && Ascending(b)
    requires forall i, j :: 0 <= i < |a| && 0 <= j < |b| ==> a[i].rule < b[j].rule
    ensures Ascending(a + b)
  {
  }

  /** The hits of the rules stand for the places in the rules, in order. */
  lemma {:induction false} RulePlaces(rules: seq<Rule>, s: Subject) returns (at: seq<Place>)
    ensures |at| == |RuleHits(rules, s)| && Ascending(at)
    ensures forall i :: 0 <= i < |at| ==>
              && IsRulePlace(rules, s, at[i])
              && RuleHits(rules, s)[i] == Hit(rules[at[i].rule].controls[at[i].index], rules[at[i].rule].reason)
    ensures forall p :: IsRulePlace(rules, s, p) ==> p in at
  {
    if rules == [] {
      at := [];
    } else {
      var n := |rules| - 1;
      var init, last := rules[..n], rules[n];
      var before := RulePlaces(init, s);
      forall p ensures IsRulePlace(init, s, p) <==> IsRulePlace(rules, s, p) && p.rule < n {
        PlaceInPrefix(rules, s, n, p);
      }
      hide Satisfies;
      var own := if Satisfies(last.match', s) then ListPlaces(n, |last.controls|) else [];
      forall p | IsRulePlace(rules, s, p) && p.rule == n ensures p in own {
        assert own[p.index] == p;
      }
      at := before + own;
      hide Precedes;
      OwnAscends(n, |own|);
      assert own == ListPlaces(n, |own|);
      hide Ascending;
      forall i | 0 <= i < |before| ensures before[i].rule < n {
        assert IsRulePlace(init, s, before[i]);
      }
      AscendingAppend(before, own);
    }
  }

  lemma OwnAscends(rule: nat, n: nat)
    ensures Ascending(ListPlaces(rule, n))
  {
  }

  /** The customer's references with a colon, and their places. */
  lemma {:induction false} CustomerPlaces(rule: nat, customer: seq<string>) returns (at: seq<Place>)
    ensures |at| == |Filter(customer, HasColon)| && Ascending(at)
    ensures forall i :: 0 <= i < |at| ==>
              && at[i].rule == rule && at[i].index < |customer|
              && Filter(customer, HasColon)[i] == customer[at[i].index] && HasColon(customer[at[i].index])
    ensures forall m: nat :: m < |customer| && HasColon(customer[m]) ==> Place(rule, m) in at
  {
    hide HasColon;
    if customer == [] {
      at := [];
    } else {
      var n := |customer| - 1;
      var before := CustomerPlaces(rule, customer[..n]);
      at := before + (if HasColon(customer[n]) then [Place(rule, n)] else []);
    }
  }

  lemma HitPlaces(rules: seq<Rule>, s: Subject, customer: seq<string>) returns (at: seq<Place>)
    ensures |at| == |AllHits(rules, s, customer)| && Ascending(at)
    ensures forall i :: 0 <= i < |at| ==>
              IsPlace(rules, s, customer, at[i]) && AllHits(rules, s, customer)[i] == HitAt(rules, s, customer, at[i])
    ensures forall p :: IsPlace(rules, s, customer, p) ==> p in at
  {
    hide Satisfies, RuleHits, Ascending;
    var a := RulePlaces(rules, s);
    var b := CustomerPlaces(|rules|, customer);
    at := a + b;
    AscendingAppend(a, b);
    forall i | 0 <= i < |b| ensures IsCustomerPlace(rules, customer, b[i]) {
    }
    forall p | IsCustomerPlace(rules, customer, p) ensures p in b {
      assert p == Place(|rules|, p.index) && HasColon(customer[p.index]);
    }
  }

  lemma NotRefIn(hits: seq<Hit>, ref: string)
    ensures !RefIn(hits, ref) ==> forall j :: 0 <= j < |hits| ==> hits[j].ref != ref
  {
  }

  /** Which hits are the first for their reference. */
  lemma {:induction false} FirstHitsAt(hits: seq<Hit>) returns (own: seq<nat>)
    ensures |own| == |FirstHits(hits)|
    ensures forall i :: 0 <= i < |own| ==> own[i] < |hits| && hits[own[i]] == FirstHits(hits)[i]
    ensures forall i, j :: 0 <= i < j < |own| ==> own[i] < own[j]
    ensures forall i, j :: 0 <= i < |own| && 0 <= j < own[i] ==> hits[j].ref != hits[own[i]].ref
  {
    hide FirstHits;
    if hits == [] {
      own := [];
      NoHits();
    } else {
      var n := |hits| - 1;
      var init, last := hits[..n], hits[n];
      var before := FirstHitsAt(init);
      assert hits == init + [last];
      FirstHitsSnoc(init, last);
      NotRefIn(init, last.ref);
      hide RefIn;
      own := before + (if RefIn(init, last.ref) then [] else [n]);
    }
  }

  /** Compute panics exactly on a colon-free reference of a rule that matches. */
  lemma PanicsExactly(rules: seq<Rule>, s: Subject, customer: seq<string>)
    ensures Splittable(FirstHits(AllHits(rules, s, customer)))
      <==> !exists k, m :: && 0 <= k < |rules| && Satisfies(rules[k].match', s)
                           && 0 <= m < |rules[k].controls| && ':' !in rules[k].controls[m]
  {
    var hits := AllHits(rules, s, customer);
    var at := HitPlaces(rules, s, customer);
    FirstHitsOwn(hits);
    var first := FirstHits(hits);
    hide FirstHits, AllHits, Satisfies, Ascending;
    if k, m :| && 0 <= k < |rules| && Satisfies(rules[k].match', s)
               && 0 <= m < |rules[k].controls| && ':' !in rules[k].controls[m] {
      assert IsPlace(rules, s, customer, Place(k, m));
      var i :| 0 <= i < |at| && at[i] == Place(k, m);
      assert RefIn(hits, hits[i].ref);
      var j :| 0 <= j < |first| && first[j].ref == hits[i].ref;
      assert !HasColon(first[j].ref);
    } else {
      forall j | 0 <= j < |first| ensures HasColon(first[j].ref) {
        assert IsOwned(hits, first[j]);
        var i :| OwnsRef(hits, i, first[j]);
        assert IsPlace(rules, s, customer, at[i]);
      }
    }
  }

  /** The first hits stand for the places whose reference no earlier place has, in order. */
  lemma FirstPlaces(rules: seq<Rule>, s: Subject, customer: seq<string>) returns (at: seq<Place>)
    ensures |at| == |FirstHits(AllHits(rules, s, customer))| && Ascending(at)
    ensures forall i :: 0 <= i < |at| ==>
              && IsPlace(rules, s, customer, at[i])
              && FirstHits(AllHits(rules, s, customer))[i] == HitAt(rules, s, customer, at[i])
    ensures forall i, p :: 0 <= i < |at| && IsPlace(rules, s, customer, p) && Precedes(p, at[i]) ==>
              HitAt(rules, s, customer, p).ref != HitAt(rules, s, customer, at[i]).ref
    ensures forall p :: IsPlace(rules, s, customer, p) ==>
              exists i :: 0 <= i < |at| && HitAt(rules, s, customer, at[i]).ref == HitAt(rules, s, customer, p).ref
  {
    var hits := AllHits(rules, s, customer);
    var all := HitPlaces(rules, s, customer);
    FirstHitsOwn(hits);
    var own := FirstHitsAt(hits);
    var first := FirstHits(hits);
    hide FirstHits, AllHits, IsPlace, HitAt, IsOwned, Precedes;
    at := seq(|own|, i requires 0 <= i < |own| => all[own[i]]);
    forall p | IsPlace(rules, s, customer, p)
      ensures exists i :: 0 <= i < |at| && HitAt(rules, s, customer, at[i]).ref == HitAt(rules, s, customer, p).ref
    {
      var j :| 0 <= j < |all| && all[j] == p;
      assert RefIn(hits, hits[j].ref);
      var i :| 0 <= i < |first| && first[i].ref == hits[j].ref;
      assert at[i] == all[own[i]];
    }
    forall i, p | 0 <= i < |at| && IsPlace(rules, s, customer, p) && Precedes(p, at[i])
      ensures HitAt(rules, s, customer, p).ref != HitAt(rules, s, customer, at[i]).ref
    {
      var j :| 0 <= j < |all| && all[j] == p;
      PlaceBefore(all, j, own[i]);
    }
  }

  /** What comes out of Compute, in terms of the rules and the customer's list: the places whose
      reference no earlier place has, in order, each split at its first colon and with the reason of
      its own rule. */
  lemma ComputedFrom(rules: seq<Rule>, s: Subject, customer: seq<string>) returns (at: seq<Place>)
    requires Splittable(FirstHits(AllHits(rules, s, customer)))
    ensures |at| == |MappingsOf(FirstHits(AllHits(rules, s, customer)))| && Ascending(at)
    ensures forall i :: 0 <= i < |at| ==>
              var m := MappingsOf(FirstHits(AllHits(rules, s, customer)))[i];
              && IsPlace(rules, s, customer, at[i])
              && Hit(m.framework + ":" + m.controlId, m.reason) == HitAt(rules, s, customer, at[i])
              && ':' !in m.framework
    ensures forall i, p :: 0 <= i < |at| && IsPlace(rules, s, customer, p) && Precedes(p, at[i]) ==>
              HitAt(rules, s, customer, p).ref != HitAt(rules, s, customer, at[i]).ref
    ensures forall p :: IsPlace(rules, s, customer, p) ==>
              exists i :: 0 <= i < |at| && HitAt(rules, s, customer, at[i]).ref == HitAt(rules, s, customer, p).ref
  {
    at := FirstPlaces(rules, s, customer);
    var first := FirstHits(AllHits(rules, s, customer));
    hide FirstHits, AllHits, IsPlace, HasColon, HitAt, SplitRef, Ascending, Precedes;
    forall i | 0 <= i < |at|
      ensures var m := SplitRef(first[i].ref, first[i].reason);
              Hit(m.framework + ":" + m.controlId, m.reason) == first[i] && ':' !in m.framework
    {
      SplitRejoins(first[i].ref, first[i].reason);
      SplitReason(first[i].ref, first[i].reason);
    }
  }

  lemma SplitReason(ref: string, reason: string)
    requires HasColon(ref)
    ensures SplitRef(ref, reason).reason == reason
    ensures !HasColon(SplitRef(ref, reason).framework) ==> ':' !in SplitRef(ref, reason).framework
  {
  }

  lemma PlaceBefore(all: seq<Place>, j: nat, k: nat)
    requires Ascending(all) && j < |all| && k < |all| && Precedes(all[j], all[k])
    ensures j < k
  {
  }

  // ----- what Compute promises -----

  /** Every reference of every rule has a colon. */
  predicate WellFormedRules(rules: seq<Rule>) {
    forall i, k :: 0 <= i < |rules| && 0 <= k < |rules[i].controls| ==> HasColon(rules[i].controls[k])
  }

  lemma {:induction false} RuleHitsSplittable(rules: seq<Rule>, s: Subject)
    requires WellFormedRules(rules)
    ensures Splittable(RuleHits(rules, s))
  {
    hide HasColon, Satisfies;
    if rules == [] {
    } else {
      var n := |rules| - 1;
      forall i, k | 0 <= i < n && 0 <= k < |rules[..n][i].controls| ensures HasColon(rules[..n][i].controls[k]) {
        assert rules[..n][i] == rules[i];
      }
      RuleHitsSplittable(rules[..n], s);
    }
  }

  /** With well-formed rules nothing panics, whatever the customer declares. */
  lemma ComputeTotal(rules: seq<Rule>, s: Subject, customer: seq<string>)
    requires WellFormedRules(rules)
    ensures Splittable(AllHits(rules, s, customer)) && Splittable(FirstHits(AllHits(rules, s, customer)))
  {
    RuleHitsSplittable(rules, s);
    var hits := AllHits(rules, s, customer);
    FirstHitsOwn(hits);
    hide HasColon, RuleHits, FirstHits;
    forall i | 0 <= i < |FirstHits(hits)| ensures HasColon(FirstHits(hits)[i].ref) {
      assert IsOwned(hits, FirstHits(hits)[i]);
      var j :| OwnsRef(hits, j, FirstHits(hits)[i]);
    }
  }

  /** Different references give different (framework, control) pairs, and each mapping joins back
      to the reference that proposed it. */
  lemma MappingsDistinct(hits: seq<Hit>, i: nat, j: nat)
    requires Splittable(FirstHits(hits)) && i < j < |FirstHits(hits)|
    ensures var m := MappingsOf(FirstHits(hits));
            && Joined(m[i]) == FirstHits(hits)[i].ref && !HasColon(m[i].framework)
            && (m[i].framework != m[j].framework || m[i].controlId != m[j].controlId)
  {
    hide HasColon;
    FirstHitsOwn(hits);
    SplitRejoins(FirstHits(hits)[i].ref, FirstHits(hits)[i].reason);
    SplitRejoins(FirstHits(hits)[j].ref, FirstHits(hits)[j].reason);
  }
}
