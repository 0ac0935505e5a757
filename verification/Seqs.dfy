/** Small lemmas about filtering and stable sorting, shared by the components whose
    original code leans on SQL `ORDER BY`, `sorted` and `list.sort`. */
module Seqs {

  function Filter<T(!new)>(s: seq<T>, p: T -> bool): (r: seq<T>)
    ensures forall x :: x in r <==> x in s && p(x)
    ensures |r| <= |s|
  {
    if s == [] then []
    else Filter(s[..|s| - 1], p) + if p(s[|s| - 1]) then [s[|s| - 1]] else []
  }

  lemma {:induction false} FilterConcat<T(!new)>(a: seq<T>, b: seq<T>, p: T -> bool)
    ensures Filter(a + b, p) == Filter(a, p) + Filter(b, p)
  {
    if b == [] {
      assert a + b == a;
    } else {
      assert (a + b)[..|a + b| - 1] == a + b[..|b| - 1];
      FilterConcat(a, b[..|b| - 1], p);
    }
  }

  lemma {:induction false} FilterNone<T(!new)>(s: seq<T>, p: T -> bool)
    requires forall i :: 0 <= i < |s| ==> !p(s[i])
    ensures Filter(s, p) == []
  {
    if s != [] {
      FilterNone(s[..|s| - 1], p);
    }
  }

  /** A sequence is split by a property and its opposite. */
  lemma {:induction false} FilterPartition<T(!new)>(s: seq<T>, p: T -> bool, q: T -> bool)
    requires forall x :: x in s ==> q(x) == !p(x)
    ensures multiset(Filter(s, p)) + multiset(Filter(s, q)) == multiset(s)
  {
    if s != [] {
      var init, last := s[..|s| - 1], s[|s| - 1];
      assert s == init + [last] && last in s;
      FilterPartition(init, p, q);
      var f, g := multiset(Filter(init, p)), multiset(Filter(init, q));
      assert multiset(s) == multiset(init) + multiset{last};
      assert multiset(Filter(s, p)) == if p(last) then f + multiset{last} else f;
      assert multiset(Filter(s, q)) == if p(last) then g else g + multiset{last};
    }
  }

  /** Elements are pairwise different. */
  ghost predicate NoDup<T(!new)>(s: seq<T>) {
    forall i, j :: 0 <= i < j < |s| ==> s[i] != s[j]
  }

  /** Keys of the elements are pairwise different. */
  ghost predicate DistinctBy<T(!new), K>(s: seq<T>, key: T -> K) {
    forall i, j :: 0 <= i < j < |s| ==> key(s[i]) != key(s[j])
  }

  lemma {:induction false} FilterDistinct<T(!new), K>(s: seq<T>, p: T -> bool, key: T -> K)
    requires DistinctBy(s, key)
    ensures DistinctBy(Filter(s, p), key)
  {
    if s != [] {
      var init, last := s[..|s| - 1], s[|s| - 1];
      FilterDistinct(init, p, key);
      forall x | x in Filter(init, p)
        ensures key(x) != key(last)
      {
        var k :| 0 <= k < |init| && init[k] == x;
        assert s[k] == x;
      }
    }
  }

  /** Two duplicate-free sequences with the same elements are permutations of each other. */
  lemma SameElementsSameMultiset<T(!new)>(a: seq<T>, b: seq<T>)
    requires NoDup(a) && NoDup(b)
    requires Within(a, b) && Within(b, a)
    ensures multiset(a) == multiset(b)
  {
    forall x
      ensures multiset(a)[x] == multiset(b)[x]
    {
      NoDupCount(a, x);
      NoDupCount(b, x);
    }
  }

  lemma {:induction false} NoDupCount<T(!new)>(a: seq<T>, x: T)
    requires NoDup(a)
    ensures multiset(a)[x] == if x in a then 1 else 0
  {
    if a != [] {
      var b := a[..|a| - 1];
      assert a == b + [a[|a| - 1]];
      NoDupCount(b, x);
    }
  }

  lemma TwiceIn<T>(s: seq<T>, i: nat, j: nat)
    requires i < j < |s| && s[i] == s[j]
    ensures multiset(s)[s[i]] >= 2
  {
    assert s == s[..j] + s[j..];
    assert s[..j][i] == s[i] && s[j..][0] == s[i];
    assert s[i] in s[..j] && s[i] in s[j..];
  }

  function Reverse<T>(s: seq<T>): (r: seq<T>)
    ensures |r| == |s|
    ensures forall i :: 0 <= i < |s| ==> r[i] == s[|s| - 1 - i]
  {
    seq(|s|, i requires 0 <= i < |s| => s[|s| - 1 - i])
  }

  lemma FilterOne<T(!new)>(x: T, p: T -> bool)
    ensures Filter([x], p) == if p(x) then [x] else []
  {
    assert [x][..0] == [];
  }

  lemma {:induction false} FilterReverse<T(!new)>(s: seq<T>, p: T -> bool)
    ensures Filter(Reverse(s), p) == Reverse(Filter(s, p))
  {
    if s == [] {
      assert Reverse(s) == [];
    } else {
      var init, last := s[..|s| - 1], s[|s| - 1];
      FilterReverse(init, p);
      assert Reverse(s) == [last] + Reverse(init);
      FilterConcat([last], Reverse(init), p);
      FilterOne(last, p);
      ReverseAppend(Filter(init, p), last);
      assert p(last) ==> Filter(s, p) == Filter(init, p) + [last];
      assert !p(last) ==> Filter(s, p) == Filter(init, p);
    }
  }

  lemma ReverseAppend<T>(s: seq<T>, x: T)
    ensures Reverse(s + [x]) == [x] + Reverse(s)
  {
  }

  /** The first match of a scan is the head of the filtered list. */
  lemma {:induction false} FirstMatch<T(!new)>(s: seq<T>, p: T -> bool, i: nat)
    requires i < |s| && p(s[i]) && forall j :: 0 <= j < i ==> !p(s[j])
    ensures Filter(s, p) != [] && Filter(s, p)[0] == s[i]
  {
    FilterNone(s[..i], p);
    assert s == s[..i] + ([s[i]] + s[i + 1..]);
    HeadMatches(s, s[..i], s[i], s[i + 1..], p);
  }

  lemma HeadMatches<T(!new)>(s: seq<T>, a: seq<T>, x: T, b: seq<T>, p: T -> bool)
    requires s == a + ([x] + b) && Filter(a, p) == [] && p(x)
    ensures Filter(s, p) == [x] + Filter(b, p)
  {
    FilterConcat(a, [x] + b, p);
    FilterConcat([x], b, p);
    FilterOne(x, p);
  }

  // ---------------------------------------------------------------- sorting

  predicate SortedBy<T(!new)>(s: seq<T>, key: T -> int) {
    forall i, j :: 0 <= i < j < |s| ==> key(s[i]) <= key(s[j])
  }

  ghost predicate StrictlySortedBy<T(!new)>(s: seq<T>, key: T -> int) {
    forall i, j :: 0 <= i < j < |s| ==> key(s[i]) < key(s[j])
  }

  /** Places `x` after every element whose key is not greater: a stable insertion. */
  function Insert<T(!new)>(s: seq<T>, x: T, key: T -> int): (r: seq<T>)
    requires SortedBy(s, key)
    ensures SortedBy(r, key)
    ensures multiset(r) == multiset(s) + multiset{x}
    ensures |r| == |s| + 1
    ensures forall y :: y in r <==> y in s || y == x
  {
    if s == [] || key(s[|s| - 1]) <= key(x) then s + [x]
    else
      var t := Insert(s[..|s| - 1], x, key);
      assert forall i :: 0 <= i < |t| ==> t[i] in t;
      assert s == s[..|s| - 1] + [s[|s| - 1]];
      t + [s[|s| - 1]]
  }

  /** Stable ascending sort. A descending sort uses the negated key, which keeps the order
      of equal keys exactly as Python's `reverse=True` does. */
  function SortBy<T(!new)>(s: seq<T>, key: T -> int): (r: seq<T>)
    ensures SortedBy(r, key)
    ensures multiset(r) == multiset(s)
    ensures |r| == |s|
    ensures forall x :: x in r <==> x in s
  {
    if s == [] then []
    else
      var r := Insert(SortBy(s[..|s| - 1], key), s[|s| - 1], key);
      assert s == s[..|s| - 1] + [s[|s| - 1]];
      MultisetMembership(r, s);
      r
  }

  lemma MultisetMembership<T(!new)>(a: seq<T>, b: seq<T>)
    requires multiset(a) == multiset(b)
    ensures forall x :: x in a <==> x in b
  {
    assert forall x :: x in a <==> x in multiset(a);
    assert forall x :: x in b <==> x in multiset(b);
  }

  /** Every element of `a` occurs in `b`. */
  ghost predicate Within<T>(a: seq<T>, b: seq<T>) {
    forall i :: 0 <= i < |a| ==> a[i] in b
  }

  /** A sorted sequence is determined by its elements when keys identify them. */
  lemma {:induction false} StrictlySortedUnique<T(!new)>(a: seq<T>, b: seq<T>, key: T -> int)
    requires StrictlySortedBy(a, key) && StrictlySortedBy(b, key)
    requires Within(a, b) && Within(b, a)
    ensures a == b
  {
    SameLength(a, b, key);
    if a != [] {
      var n := |a| - 1;
      LastIsGreatest(a, b, key);
      LastIsGreatest(b, a, key);
      StrictlySortedUnique(a[..n], b[..n], key);
      assert a == a[..n] + [a[n]] && b == b[..n] + [b[n]];
    }
  }

  lemma SameLength<T(!new)>(a: seq<T>, b: seq<T>, key: T -> int)
    requires StrictlySortedBy(a, key) && StrictlySortedBy(b, key)
    requires Within(a, b) && Within(b, a)
    ensures |a| == |b|
  {
    SameElementsSameMultiset(a, b);
    assert |a| == |multiset(a)| == |multiset(b)| == |b|;
  }

  lemma LastIsGreatest<T(!new)>(a: seq<T>, b: seq<T>, key: T -> int)
    requires StrictlySortedBy(a, key) && StrictlySortedBy(b, key)
    requires Within(a, b) && Within(b, a) && |a| == |b| > 0
    ensures a[|a| - 1] == b[|b| - 1]
    ensures Within(a[..|a| - 1], b[..|b| - 1])
  {
    var n := |a| - 1;
    var k :| 0 <= k < |b| && b[k] == a[n];
    var l :| 0 <= l < |a| && a[l] == b[n];
    forall i | 0 <= i < n
      ensures a[..n][i] in b[..n]
    {
      var j :| 0 <= j < |b| && b[j] == a[i];
      assert b[..n][j] == a[i];
    }
  }

  /** Sorting a sequence with pairwise different keys gives a strictly sorted one. */
  lemma {:induction false} SortByDistinct<T(!new)>(s: seq<T>, key: T -> int)
    requires DistinctBy(s, key)
    ensures StrictlySortedBy(SortBy(s, key), key)
  {
    if s != [] {
      var init, last := s[..|s| - 1], s[|s| - 1];
      SortByDistinct(init, key);
      forall x | x in SortBy(init, key)
        ensures key(x) != key(last)
      {
        var k :| 0 <= k < |init| && init[k] == x;
        assert s[k] == x;
      }
      InsertStrict(SortBy(init, key), last, key);
    }
  }

  lemma {:induction false} InsertStrict<T(!new)>(s: seq<T>, x: T, key: T -> int)
    requires StrictlySortedBy(s, key)
    requires forall y :: y in s ==> key(y) != key(x)
    ensures StrictlySortedBy(Insert(s, x, key), key)
  {
    if s != [] && key(x) < key(s[|s| - 1]) {
      var t := Insert(s[..|s| - 1], x, key);
      InsertStrict(s[..|s| - 1], x, key);
      forall i | 0 <= i < |t|
        ensures key(t[i]) < key(s[|s| - 1])
      {
        assert t[i] in t;
      }
      assert Insert(s, x, key) == t + [s[|s| - 1]];
    }
  }

  /** Different keys among the elements that satisfy `p`. */
  ghost predicate DistinctWhere<T, K>(s: seq<T>, p: T -> bool, key: T -> K) {
    forall i, j :: 0 <= i < j < |s| && p(s[i]) && p(s[j]) ==> key(s[i]) != key(s[j])
  }

  lemma {:induction false} FilterDistinctWhere<T(!new), K>(s: seq<T>, p: T -> bool, key: T -> K)
    requires DistinctWhere(s, p, key)
    ensures DistinctBy(Filter(s, p), key)
  {
    if s != [] {
      var init, last := s[..|s| - 1], s[|s| - 1];
      FilterDistinctWhere(init, p, key);
      if p(last) {
        forall x | x in Filter(init, p)
          ensures key(x) != key(last)
        {
          var k :| 0 <= k < |init| && init[k] == x;
          assert p(s[k]);
        }
      }
    }
  }

  /** How `SELECT … WHERE p ORDER BY key` is recognised: sorted, and exactly the rows of `p`. */
  lemma SelectionIs<T(!new)>(s: seq<T>, p: T -> bool, key: T -> int, r: seq<T>)
    requires DistinctWhere(s, p, key) && StrictlySortedBy(r, key)
    requires forall i :: 0 <= i < |r| ==> r[i] in s && p(r[i])
    requires forall i :: 0 <= i < |s| && p(s[i]) ==> s[i] in r
    ensures SortBy(Filter(s, p), key) == r
  {
    FilterDistinctWhere(s, p, key);
    SortByDistinct(Filter(s, p), key);
    var q := SortBy(Filter(s, p), key);
    forall i | 0 <= i < |q|
      ensures q[i] in r
    {
      assert q[i] in q && q[i] in s && p(q[i]);
      var k :| 0 <= k < |s| && s[k] == q[i];
    }
    forall i | 0 <= i < |r|
      ensures r[i] in q
    {
      assert r[i] in Filter(s, p);
    }
    StrictlySortedUnique(q, r, key);
  }

  // ---------------------------------------------------------------- finite sets and maps

  lemma PickOne<T>(s: set<T>) returns (x: T)
    requires s != {}
    ensures x in s
  {
    x :| x in s;
  }

  lemma KeyOf<K, V>(m: map<K, V>, v: V) returns (k: K)
    requires v in m.Values
    ensures k in m && m[k] == v
  {
    k :| k in m && m[k] == v;
  }

  lemma {:induction false} SubsetCardinality<T>(a: set<T>, b: set<T>)
    requires a <= b
    ensures |a| <= |b|
  {
    assert b == a + (b - a);
  }

  lemma {:induction false} MaxOf(s: set<int>) returns (m: int)
    requires s != {}
    ensures m in s && forall x :: x in s ==> x <= m
  {
    var y := PickOne(s);
    m := y;
    var rest := s - {y};
    if rest != {} {
      var n := MaxOf(rest);
      if n > m { m := n; }
      assert forall x :: x in s ==> x == y || x in rest;
    } else {
      assert s == {y};
    }
  }
}
