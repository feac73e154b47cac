/** Filtering proposed mappings against the controls catalog
    (server/internal/resolvecontrols/resolve.go). */
module Catalog {
  import opened Sequences
  import opened ControlMapping

  /** The primary key of the controls table. */
  type Catalog = set<(string, string)>

  function Pair(m: Mapping): (string, string) {
    (m.framework, m.controlId)
  }

  function InCatalog(catalog: Catalog): Mapping -> bool {
    (m: Mapping) => Pair(m) in catalog
  }

  predicate IsProposed(proposed: seq<Mapping>, pair: (string, string)) {
    exists k :: 0 <= k < |proposed| && Pair(proposed[k]) == pair
  }

  /** ResolveControlReferences: the catalog rows that some proposed mapping names. */
  predicate IsResolved(catalog: Catalog, proposed: seq<Mapping>, resolved: seq<(string, string)>) {
    && (forall i :: 0 <= i < |resolved| ==> resolved[i] in catalog && IsProposed(proposed, resolved[i]))
    && (forall k :: 0 <= k < |proposed| && Pair(proposed[k]) in catalog ==> Pair(proposed[k]) in resolved)
  }

  function JoinedPair(p: (string, string)): string {
    p.0 + ":" + p.1
  }

  function JoinsIn(allowed: set<string>): Mapping -> bool {
    (m: Mapping) => Joined(m) in allowed
  }

  function AllowedKeys(resolved: seq<(string, string)>): set<string> {
    set i | 0 <= i < |resolved| :: JoinedPair(resolved[i])
  }

  lemma NothingAllowed()
    ensures AllowedKeys([]) == {}
  {
  }

  lemma AllowedStep(resolved: seq<(string, string)>, i: nat)
    requires i < |resolved|
    ensures AllowedKeys(resolved[..i + 1]) == AllowedKeys(resolved[..i]) + {JoinedPair(resolved[i])}
  {
    assert resolved[..i + 1][i] == resolved[i];
    assert forall k :: 0 <= k < i ==> resolved[..i + 1][k] == resolved[..i][k];
  }

  lemma JoinsInMeans(allowed: set<string>, m: Mapping)
    ensures JoinsIn(allowed)(m) <==> m.framework + ":" + m.controlId in allowed
  {
  }

  method AllowedFrom(resolved: seq<(string, string)>) returns (allowed: set<string>)
    ensures allowed == AllowedKeys(resolved)
  {
    hide AllowedKeys;
    NothingAllowed();
    allowed := {};
    for i := 0 to |resolved|
      invariant allowed == AllowedKeys(resolved[..i])
    {
      AllowedStep(resolved, i);
      allowed := allowed + {resolved[i].0 + ":" + resolved[i].1};
    }
    assert resolved[..|resolved|] == resolved;
  }

  /** Keeps, in place and in order, the mappings whose joined key is allowed; the caller's slice is
      the first n elements, and the rest of the array stays as it was. */
  method ResolveAgainstCatalog(resolved: seq<(string, string)>, proposed: array<Mapping>) returns (n: nat)
    modifies proposed
    ensures n <= proposed.Length
    ensures proposed[..n] == Filter(old(proposed[..]), JoinsIn(AllowedKeys(resolved)))
    ensures proposed[n..] == old(proposed[n..])
    ensures forall m :: m in proposed[..n] <==>
              && m in old(proposed[..])
              && exists k :: 0 <= k < |resolved| && m.framework + ":" + m.controlId == resolved[k].0 + ":" + resolved[k].1
  {
    hide Filter, AllowedKeys, JoinsIn;
    n := 0;
    FilterAll([], JoinsIn(AllowedKeys(resolved)));
    if proposed.Length == 0 {
      assert proposed[..] == [];
      return;
    }
    var allowed := AllowedFrom(resolved);
    ghost var was := proposed[..];
    FilterAll([], JoinsIn(allowed));
    for i := 0 to proposed.Length
      invariant n <= i && proposed[..n] == Filter(was[..i], JoinsIn(allowed))
      invariant forall k :: n <= k < proposed.Length ==> proposed[k] == was[k]
    {
      var m := proposed[i];
      assert was[..i + 1] == was[..i] + [was[i]];
      FilterSnoc(was[..i], was[i], JoinsIn(allowed));
      JoinsInMeans(allowed, m);
      if m.framework + ":" + m.controlId in allowed {
        proposed[n] := m;
        n := n + 1;
      }
    }
    assert was[..proposed.Length] == was;
    forall m ensures m in proposed[..n] <==>
        && m in was
        && exists k :: 0 <= k < |resolved| && m.framework + ":" + m.controlId == resolved[k].0 + ":" + resolved[k].1
    {
      KeptMappings(resolved, was, m);
    }
  }

  /** A mapping is kept exactly when its key is that of a resolved pair. */
  lemma KeptMappings(resolved: seq<(string, string)>, proposed: seq<Mapping>, m: Mapping)
    ensures m in Filter(proposed, JoinsIn(AllowedKeys(resolved))) <==>
        && m in proposed
        && exists k :: 0 <= k < |resolved| && m.framework + ":" + m.controlId == resolved[k].0 + ":" + resolved[k].1
  {
    var keep := JoinsIn(AllowedKeys(resolved));
    if m in proposed && keep(m) {
      FilterMember(proposed, keep, m);
    }
  }

  predicate FrameworksColonFree(ms: seq<Mapping>) {
    forall i :: 0 <= i < |ms| ==> !HasColon(ms[i].framework)
  }

  lemma {:induction false} FiltersAgree(s: seq<Mapping>, p: Mapping -> bool, q: Mapping -> bool)
    requires forall i :: 0 <= i < |s| ==> (p(s[i]) <==> q(s[i]))
    ensures Filter(s, p) == Filter(s, q)
  {
    if s == [] {
    } else {
      FiltersAgree(s[..|s| - 1], p, q);
    }
  }

  /** A mapping outside the catalog that joins to the key of a resolved pair. */
  predicate Impostor(catalog: Catalog, resolved: seq<(string, string)>, m: Mapping) {
    Pair(m) !in catalog && Joined(m) in AllowedKeys(resolved)
  }

  lemma CatalogPairsAllowed(catalog: Catalog, proposed: seq<Mapping>, resolved: seq<(string, string)>, m: Mapping)
    requires IsResolved(catalog, proposed, resolved) && m in proposed && Pair(m) in catalog
    ensures Joined(m) in AllowedKeys(resolved)
  {
    var k :| 0 <= k < |proposed| && proposed[k] == m;
    var r :| 0 <= r < |resolved| && resolved[r] == Pair(m);
    assert JoinedPair(resolved[r]) == Joined(m);
  }

  /** The filter keeps exactly the mappings whose pair is in the catalog if and only if no proposed
      mapping is an impostor. */
  lemma KeepsCatalogPairsExactly(catalog: Catalog, proposed: seq<Mapping>, resolved: seq<(string, string)>)
    requires IsResolved(catalog, proposed, resolved)
    ensures Filter(proposed, JoinsIn(AllowedKeys(resolved))) == Filter(proposed, InCatalog(catalog))
      <==> forall i :: 0 <= i < |proposed| ==> !Impostor(catalog, resolved, proposed[i])
  {
    hide IsResolved, AllowedKeys;
    var byKey, byPair := JoinsIn(AllowedKeys(resolved)), InCatalog(catalog);
    forall i | 0 <= i < |proposed| ensures byPair(proposed[i]) ==> byKey(proposed[i]) {
      if Pair(proposed[i]) in catalog {
        CatalogPairsAllowed(catalog, proposed, resolved, proposed[i]);
      }
    }
    if forall i :: 0 <= i < |proposed| ==> !Impostor(catalog, resolved, proposed[i]) {
      FiltersAgree(proposed, byKey, byPair);
    } else {
      var i :| 0 <= i < |proposed| && Impostor(catalog, resolved, proposed[i]);
      FilterCount(proposed, byKey, proposed[i]);
      FilterCount(proposed, byPair, proposed[i]);
      assert proposed[i] in multiset(proposed);
    }
  }

  /** When frameworks hold no colon there are no impostors: the joined key stands for the pair. */
  lemma KeysAreUnambiguous(catalog: Catalog, proposed: seq<Mapping>, resolved: seq<(string, string)>)
    requires IsResolved(catalog, proposed, resolved) && FrameworksColonFree(proposed)
    ensures Filter(proposed, JoinsIn(AllowedKeys(resolved))) == Filter(proposed, InCatalog(catalog))
  {
    hide HasColon;
    forall i | 0 <= i < |proposed| ensures !Impostor(catalog, resolved, proposed[i]) {
      if Joined(proposed[i]) in AllowedKeys(resolved) {
        var r :| 0 <= r < |resolved| && JoinedPair(resolved[r]) == Joined(proposed[i]);
        assert IsProposed(proposed, resolved[r]);
        var k :| 0 <= k < |proposed| && Pair(proposed[k]) == resolved[r];
        JoinUnambiguous(proposed[i], proposed[k]);
      }
    }
    KeepsCatalogPairsExactly(catalog, proposed, resolved);
  }

  /** With a colon in a framework there can be an impostor.  Compute proposes none. */
  lemma ColonAdmitsImpostor(catalog: Catalog, proposed: seq<Mapping>, resolved: seq<(string, string)>)
    requires catalog == {("A", "B:C")} && resolved == [("A", "B:C")]
    requires proposed == [Mapping("A", "B:C", "x"), Mapping("A:B", "C", "y")]
    ensures IsResolved(catalog, proposed, resolved) && Impostor(catalog, resolved, proposed[1])
  {
    assert "A:B" + ":" + "C" == "A" + ":" + "B:C" == JoinedPair(resolved[0]);
    assert Pair(proposed[0]) == resolved[0];
    assert Pair(proposed[1]).0 != resolved[0].0;
  }

  /** The mapping pipeline: what Compute proposes and the filter keeps are, in order, the first
      hits whose pair is in the catalog, each joining back to its reference. */
  lemma PipelineKeepsCatalogPairs(rules: seq<Rule>, s: Subject, customer: seq<string>, catalog: Catalog,
                                  resolved: seq<(string, string)>)
    requires Splittable(FirstHits(AllHits(rules, s, customer)))
    requires IsResolved(catalog, MappingsOf(FirstHits(AllHits(rules, s, customer))), resolved)
    ensures var proposed := MappingsOf(FirstHits(AllHits(rules, s, customer)));
            && Filter(proposed, JoinsIn(AllowedKeys(resolved))) == Filter(proposed, InCatalog(catalog))
            && forall i :: 0 <= i < |proposed| ==> Joined(proposed[i]) == FirstHits(AllHits(rules, s, customer))[i].ref
  {
    hide HasColon, IsResolved, AllHits, FirstHits;
    var hits := FirstHits(AllHits(rules, s, customer));
    var proposed := MappingsOf(hits);
    forall i | 0 <= i < |proposed| ensures !HasColon(proposed[i].framework) && Joined(proposed[i]) == hits[i].ref {
      SplitRejoins(hits[i].ref, hits[i].reason);
    }
    KeysAreUnambiguous(catalog, proposed, resolved);
  }
}
