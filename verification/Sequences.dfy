/** Filtering and mapping sequences, and what they do to multisets. */
module Sequences {

  function Filter<T>(s: seq<T>, keep: T -> bool): (r: seq<T>)
    ensures |r| <= |s|
    ensures forall i :: 0 <= i < |r| ==> keep(r[i]) && r[i] in s
  {
    if s == [] then []
    else
      var last := s[|s| - 1];
      Filter(s[..|s| - 1], keep) + (if keep(last) then [last] else [])
  }

  function Map<T, U>(s: seq<T>, f: T -> U): (r: seq<U>)
    ensures |r| == |s| && forall i :: 0 <= i < |r| ==> r[i] == f(s[i])
  {
    seq(|s|, i requires 0 <= i < |s| => f(s[i]))
  }

  lemma SnocMultiset<T>(s: seq<T>)
    requires s != []
    ensures multiset(s) == multiset(s[..|s| - 1]) + multiset{s[|s| - 1]}
  {
    assert s == s[..|s| - 1] + [s[|s| - 1]];
  }

  /** Filtering keeps the multiplicity of what it keeps. */
  lemma {:induction false} FilterCount<T>(s: seq<T>, keep: T -> bool, x: T)
    ensures multiset(Filter(s, keep))[x] == if keep(x) then multiset(s)[x] else 0
  {
    if s == [] {
    } else {
      FilterCount(s[..|s| - 1], keep, x);
      SnocMultiset(s);
    }
  }

  lemma FilterRearranged<T>(s: seq<T>, t: seq<T>, keep: T -> bool)
    requires multiset(s) == multiset(t)
    ensures multiset(Filter(s, keep)) == multiset(Filter(t, keep))
  {
    forall x ensures multiset(Filter(s, keep))[x] == multiset(Filter(t, keep))[x] {
      FilterCount(s, keep, x);
      FilterCount(t, keep, x);
    }
  }

  lemma MapSplit<T, U>(s: seq<T>, f: T -> U, i: nat)
    requires i < |s|
    ensures multiset(s) == multiset(s[..i] + s[i + 1..]) + multiset{s[i]}
    ensures multiset(Map(s, f)) == multiset(Map(s[..i] + s[i + 1..], f)) + multiset{f(s[i])}
  {
    assert s == s[..i] + [s[i]] + s[i + 1..];
    var m := Map(s, f);
    assert m == m[..i] + [m[i]] + m[i + 1..];
    assert Map(s[..i] + s[i + 1..], f) == m[..i] + m[i + 1..];
  }

  lemma WithoutSame<T>(s: seq<T>, t: seq<T>, i: nat)
    requires multiset(s) == multiset(t) && |s| > 0 && i < |t| && t[i] == s[0]
    ensures multiset(s[1..]) == multiset(t[..i] + t[i + 1..])
  {
    assert s == [s[0]] + s[1..];
    assert t == t[..i] + [t[i]] + t[i + 1..];
    assert multiset(s[1..]) == multiset(s) - multiset{s[0]};
    assert multiset(t[..i] + t[i + 1..]) == multiset(t) - multiset{s[0]};
  }

  lemma FindFirst<T>(s: seq<T>, t: seq<T>) returns (i: nat)
    requires multiset(s) == multiset(t) && s != []
    ensures i < |t| && t[i] == s[0]
  {
    assert s[0] in multiset(t);
    i :| 0 <= i < |t| && t[i] == s[0];
  }

  lemma {:induction false} MapRearranged<T, U>(s: seq<T>, t: seq<T>, f: T -> U)
    requires multiset(s) == multiset(t)
    ensures multiset(Map(s, f)) == multiset(Map(t, f))
  {
    hide Map;
    if s == [] {
      assert |t| == |multiset(t)| == 0;
      assert t == [];
    } else {
      var i := FindFirst(s, t);
      var t' := t[..i] + t[i + 1..];
      WithoutSame(s, t, i);
      MapRearranged(s[1..], t', f);
      assert multiset(Map(s, f)) == multiset(Map(s[1..], f)) + multiset{f(s[0])} by {
        MapSplit(s, f, 0);
        assert s[..0] + s[1..] == s[1..];
      }
      MapSplit(t, f, i);
    }
  }

  /** Filtering after mapping is mapping after filtering. */
  lemma {:induction false} FilterMap<T, U>(s: seq<T>, f: T -> U, keep: U -> bool, keep': T -> bool)
    requires forall i :: 0 <= i < |s| ==> (keep(f(s[i])) <==> keep'(s[i]))
    ensures Filter(Map(s, f), keep) == Map(Filter(s, keep'), f)
  {
    if s == [] {
    } else {
      var n := |s| - 1;
      FilterMap(s[..n], f, keep, keep');
      assert Map(s, f)[..n] == Map(s[..n], f);
    }
  }

  lemma {:induction false} FilterCommutes<T>(s: seq<T>, p: T -> bool, q: T -> bool)
    ensures Filter(Filter(s, p), q) == Filter(Filter(s, q), p)
  {
    if s == [] {
    } else {
      var n := |s| - 1;
      FilterCommutes(s[..n], p, q);
      FilterSnoc(Filter(s[..n], p), s[n], q);
      FilterSnoc(Filter(s[..n], q), s[n], p);
      assert Filter(s[..n], p) + [] == Filter(s[..n], p) && Filter(s[..n], q) + [] == Filter(s[..n], q);
    }
  }

  lemma FilterSnoc<T>(s: seq<T>, x: T, keep: T -> bool)
    ensures Filter(s + [x], keep) == Filter(s, keep) + (if keep(x) then [x] else [])
  {
    assert (s + [x])[..|s|] == s;
  }

  lemma {:induction false} FilterAll<T>(s: seq<T>, keep: T -> bool)
    requires forall i :: 0 <= i < |s| ==> keep(s[i])
    ensures Filter(s, keep) == s
  {
    if s == [] {
    } else {
      FilterAll(s[..|s| - 1], keep);
    }
  }

  lemma {:induction false} FilterNone<T>(s: seq<T>, keep: T -> bool)
    requires forall i :: 0 <= i < |s| ==> !keep(s[i])
    ensures Filter(s, keep) == []
  {
    if s == [] {
    } else {
      FilterNone(s[..|s| - 1], keep);
    }
  }

  /** A filter that drops something is shorter. */
  lemma {:induction false} FilterDrops<T>(s: seq<T>, keep: T -> bool, i: nat)
    requires i < |s| && !keep(s[i])
    ensures |Filter(s, keep)| < |s|
  {
    if i < |s| - 1 {
      FilterDrops(s[..|s| - 1], keep, i);
    }
  }

  lemma {:induction false} FilterMember<T>(s: seq<T>, keep: T -> bool, x: T)
    requires x in s && keep(x)
    ensures x in Filter(s, keep)
  {
    if x != s[|s| - 1] {
      FilterMember(s[..|s| - 1], keep, x);
    }
  }

  predicate Distinct<T(==)>(s: seq<T>) {
    forall i, j :: 0 <= i < j < |s| ==> s[i] != s[j]
  }

  /** The elements of a set, listed in some order. */
  lemma ListedSet<T>(s: seq<T>, all: set<T>)
    requires multiset(s) == multiset(all)
    ensures Distinct(s)
    ensures forall x :: x in s <==> x in all
  {
    forall i, j | 0 <= i < j < |s| ensures s[i] != s[j] {
      assert s == s[..j] + [s[j]] + s[j + 1..];
      assert s[i] == s[..j][i] && s[i] in multiset(s[..j]);
      assert multiset(s) == multiset(s[..j]) + multiset{s[j]} + multiset(s[j + 1..]);
      assert multiset(all)[s[j]] <= 1;
    }
    forall x ensures x in s <==> x in all {
      assert x in s <==> x in multiset(s);
    }
  }

  lemma DistinctCount<T>(s: seq<T>, x: T)
    requires Distinct(s)
    ensures multiset(s)[x] == if x in s then 1 else 0
  {
    if x in s {
      var i :| 0 <= i < |s| && s[i] == x;
      assert s == s[..i] + [x] + s[i + 1..];
      assert multiset(s) == multiset(s[..i]) + multiset{x} + multiset(s[i + 1..]);
      assert x !in s[..i] && x !in s[i + 1..];
    }
  }

  /** Distinct listings of the same elements are rearrangements. */
  lemma SameElements<T>(s: seq<T>, t: seq<T>)
    requires Distinct(s) && Distinct(t) && forall x :: x in s <==> x in t
    ensures multiset(s) == multiset(t)
  {
    forall x ensures multiset(s)[x] == multiset(t)[x] {
      DistinctCount(s, x);
      DistinctCount(t, x);
    }
  }

  lemma {:induction false} ListingExists<T>(all: set<T>) returns (s: seq<T>)
    ensures multiset(s) == multiset(all)
    decreases |all|
  {
    if all == {} {
      s := [];
    } else {
      var x :| x in all;
      var rest := ListingExists(all - {x});
      s := rest + [x];
      assert all == (all - {x}) + {x};
    }
  }

  /** One occurrence of an element taken out. */
  lemma TakeOut<T>(s: seq<T>, x: T) returns (rest: seq<T>)
    requires x in s
    ensures multiset(s) == multiset(rest) + multiset{x}
  {
    var i :| 0 <= i < |s| && s[i] == x;
    rest := s[..i] + s[i + 1..];
    assert s == s[..i] + [x] + s[i + 1..];
  }

  /** Iteration over a set or over the keys of a map, in whatever order it happens. */
  method Elements<T(==)>(all: set<T>) returns (s: seq<T>)
    ensures multiset(s) == multiset(all)
  {
    s := [];
    var rest := all;
    while rest != {}
      invariant rest <= all
      invariant multiset(s) + multiset(rest) == multiset(all)
      decreases |rest|
    {
      var x :| x in rest;
      s := s + [x];
      rest := rest - {x};
    }
  }

  /** Each element once, where it first occurs. */
  function FirstWins<T(==)>(s: seq<T>): (r: seq<T>)
    ensures forall i :: 0 <= i < |r| ==> r[i] in s
    ensures forall i :: 0 <= i < |s| ==> s[i] in r
    ensures Distinct(r)
  {
    if s == [] then []
    else
      var last := s[|s| - 1];
      FirstWins(s[..|s| - 1]) + (if last in s[..|s| - 1] then [] else [last])
  }
}
