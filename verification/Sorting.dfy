/** Sorted arrangements of sequences, as ORDER BY, sort.Slice and sort.Strings leave them.
    None of these promises an order between elements that compare equal. */
module Sorting {

  predicate Sorted<T>(s: seq<T>, atMost: (T, T) -> bool) {
    forall i, j :: 0 <= i < j < |s| ==> atMost(s[i], s[j])
  }

  /** Elements that compare equal are equal. */
  predicate NoTies<T(==)>(s: seq<T>, atMost: (T, T) -> bool) {
    forall i, j :: 0 <= i < |s| && 0 <= j < |s| && atMost(s[i], s[j]) && atMost(s[j], s[i]) ==> s[i] == s[j]
  }

  /** A sorted arrangement of the same elements. */
  predicate IsSorting<T(==)>(s: seq<T>, r: seq<T>, atMost: (T, T) -> bool) {
    multiset(r) == multiset(s) && Sorted(r, atMost)
  }

  ghost predicate TotalOrder<T(!new)>(atMost: (T, T) -> bool) {
    && (forall x, y :: atMost(x, y) || atMost(y, x))
    && (forall x, y, z :: atMost(x, y) && atMost(y, z) ==> atMost(x, z))
  }

  lemma MemberIndex<T>(s: seq<T>, x: T) returns (i: nat)
    requires x in multiset(s)
    ensures i < |s| && s[i] == x
  {
    assert x in s;
    i :| 0 <= i < |s| && s[i] == x;
  }

  lemma DropFirst<T>(s: seq<T>)
    requires |s| > 0
    ensures multiset(s[1..]) == multiset(s) - multiset{s[0]}
  {
    assert s == [s[0]] + s[1..];
    assert multiset(s) == multiset([s[0]]) + multiset(s[1..]);
  }

  /** Without ties there is only one sorted arrangement. */
  lemma {:induction false} SortingUnique<T>(a: seq<T>, b: seq<T>, atMost: (T, T) -> bool)
    requires multiset(a) == multiset(b)
    requires Sorted(a, atMost) && Sorted(b, atMost) && NoTies(a, atMost)
    ensures a == b
  {
    assert |a| == |multiset(a)| == |multiset(b)| == |b|;
    if |a| > 0 {
      assert a[0] in multiset(a) && b[0] in multiset(b);
      var i := MemberIndex(a, b[0]);
      var j := MemberIndex(b, a[0]);
      assert i > 0 ==> atMost(a[0], a[i]);
      assert j > 0 ==> atMost(b[0], b[j]);
      DropFirst(a);
      DropFirst(b);
      SortingUnique(a[1..], b[1..], atMost);
    }
  }

  lemma InsertionKeepsElements<T>(s: seq<T>, x: T, k: nat)
    requires k <= |s|
    ensures multiset(s[..k] + [x] + s[k..]) == multiset(s + [x])
  {
    assert s == s[..k] + s[k..];
  }

  lemma SortedConcat<T>(a: seq<T>, b: seq<T>, atMost: (T, T) -> bool)
    requires Sorted(a, atMost) && Sorted(b, atMost)
    requires forall i, j :: 0 <= i < |a| && 0 <= j < |b| ==> atMost(a[i], b[j])
    ensures Sorted(a + b, atMost)
  {
    var r := a + b;
    forall i, j | 0 <= i < j < |r| ensures atMost(r[i], r[j]) {
      assert j >= |a| ==> r[j] == b[j - |a|];
      assert i >= |a| ==> r[i] == b[i - |a|];
    }
  }

  lemma InsertionKeepsOrder<T(!new)>(s: seq<T>, x: T, k: nat, atMost: (T, T) -> bool)
    requires TotalOrder(atMost) && Sorted(s, atMost) && k <= |s|
    requires k > 0 ==> atMost(s[k - 1], x)
    requires forall i :: k <= i < |s| ==> atMost(x, s[i])
    ensures Sorted(s[..k] + [x] + s[k..], atMost)
  {
    var a, c := s[..k], s[k..];
    forall i | 0 <= i < k ensures atMost(s[i], x) {
      assert i < k - 1 ==> atMost(s[i], s[k - 1]);
    }
    SortedConcat(a, [x], atMost);
    forall i, j | 0 <= i < |a + [x]| && 0 <= j < |c| ensures atMost((a + [x])[i], c[j]) {
      assert c[j] == s[k + j];
    }
    SortedConcat(a + [x], c, atMost);
  }

  /** x goes after everything that is at most x. */
  method InsertInOrder<T(==, !new)>(s: seq<T>, x: T, atMost: (T, T) -> bool) returns (r: seq<T>)
    requires TotalOrder(atMost) && Sorted(s, atMost)
    ensures IsSorting(s + [x], r, atMost)
  {
    var k := |s|;
    while k > 0 && !atMost(s[k - 1], x)
      invariant 0 <= k <= |s|
      invariant forall i :: k <= i < |s| ==> atMost(x, s[i])
    {
      assert atMost(x, s[k - 1]);
      k := k - 1;
    }
    InsertionKeepsElements(s, x, k);
    InsertionKeepsOrder(s, x, k, atMost);
    r := s[..k] + [x] + s[k..];
  }

  /** Some sorted arrangement. */
  method Sort<T(==, !new)>(s: seq<T>, atMost: (T, T) -> bool) returns (r: seq<T>)
    requires TotalOrder(atMost)
    ensures IsSorting(s, r, atMost)
  {
    r := [];
    for i := 0 to |s|
      invariant IsSorting(s[..i], r, atMost)
    {
      r := InsertInOrder(r, s[i], atMost);
      assert s[..i + 1] == s[..i] + [s[i]];
    }
    assert s[..|s|] == s;
  }

  lemma {:induction false} SortingExists<T(!new)>(s: seq<T>, atMost: (T, T) -> bool) returns (r: seq<T>)
    requires TotalOrder(atMost)
    ensures IsSorting(s, r, atMost)
  {
    if s == [] {
      r := [];
    } else {
      var n := |s| - 1;
      var done := SortingExists(s[..n], atMost);
      assert s == s[..n] + [s[n]];
      var k := |done|;
      while k > 0 && !atMost(done[k - 1], s[n])
        invariant 0 <= k <= |done|
        invariant forall i :: k <= i < |done| ==> atMost(s[n], done[i])
      {
        assert atMost(s[n], done[k - 1]);
        k := k - 1;
      }
      InsertionKeepsElements(done, s[n], k);
      InsertionKeepsOrder(done, s[n], k, atMost);
      r := done[..k] + [s[n]] + done[k..];
    }
  }

  // ----- the byte order of strings -----

  predicate StringAtMost(a: string, b: string) {
    a == "" || (b != "" && (a[0] < b[0] || (a[0] == b[0] && StringAtMost(a[1..], b[1..]))))
  }

  /** The order of strings: a prefix comes first, and otherwise the first difference decides. */
  lemma {:induction false} StringAtMostExactly(a: string, b: string)
    ensures StringAtMost(a, b)
      <==> a <= b || exists k :: 0 <= k < |a| && k < |b| && a[..k] == b[..k] && a[k] < b[k]
  {
    if a != "" && b != "" {
      if a[0] == b[0] {
        var x, y := a[1..], b[1..];
        StringAtMostExactly(x, y);
        assert a == [a[0]] + x && b == [b[0]] + y;
        if k :| 0 <= k < |x| && k < |y| && x[..k] == y[..k] && x[k] < y[k] {
          assert a[..k + 1] == [a[0]] + x[..k] && b[..k + 1] == [b[0]] + y[..k];
          assert a[..k + 1] == b[..k + 1] && a[k + 1] < b[k + 1];
        }
        if k :| 0 <= k < |a| && k < |b| && a[..k] == b[..k] && a[k] < b[k] {
          assert x[..k - 1] == a[..k][1..] && y[..k - 1] == b[..k][1..];
          assert x[k - 1] < y[k - 1];
        }
      } else {
        assert a[..0] == b[..0];
        forall k | 0 < k < |a| && k < |b| ensures a[..k] != b[..k] {
          assert a[..k][0] == a[0] && b[..k][0] == b[0];
        }
      }
    }
  }

  lemma {:induction false} StringsTotal(a: string, b: string)
    ensures StringAtMost(a, b) || StringAtMost(b, a)
  {
    if a != "" && b != "" && a[0] == b[0] {
      StringsTotal(a[1..], b[1..]);
    }
  }

  lemma {:induction false} StringsTransitive(a: string, b: string, c: string)
    requires StringAtMost(a, b) && StringAtMost(b, c)
    ensures StringAtMost(a, c)
  {
    if a != "" && a[0] == b[0] == c[0] {
      StringsTransitive(a[1..], b[1..], c[1..]);
    }
  }

  lemma {:induction false} StringsAntisymmetric(a: string, b: string)
    requires StringAtMost(a, b) && StringAtMost(b, a)
    ensures a == b
  {
    if a == "" {
    } else {
      StringsAntisymmetric(a[1..], b[1..]);
      assert a == [a[0]] + a[1..] && b == [b[0]] + b[1..];
    }
  }

  lemma StringOrder()
    ensures TotalOrder(StringAtMost)
  {
    forall x, y ensures StringAtMost(x, y) || StringAtMost(y, x) {
      StringsTotal(x, y);
    }
    forall x, y, z | StringAtMost(x, y) && StringAtMost(y, z) ensures StringAtMost(x, z) {
      StringsTransitive(x, y, z);
    }
  }

  lemma StringsNoTies(s: seq<string>)
    ensures NoTies(s, StringAtMost)
  {
    forall i, j | 0 <= i < |s| && 0 <= j < |s| && StringAtMost(s[i], s[j]) && StringAtMost(s[j], s[i]) ensures s[i] == s[j] {
      StringsAntisymmetric(s[i], s[j]);
    }
  }
}
