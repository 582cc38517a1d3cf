/**
 Stable insertion sort by an order given as a parameter. It stands for the library sorts that the
 program calls; `SortedUnique` shows that under a total order every correct sort returns the same.
 */
module Sorting {

  ghost predicate TotalPreorder<T(!new)>(leq: (T, T) -> bool) {
    && (forall x, y :: leq(x, y) || leq(y, x))
    && (forall x, y, z :: leq(x, y) && leq(y, z) ==> leq(x, z))
  }

  ghost predicate Antisymmetric<T(!new)>(leq: (T, T) -> bool) {
    forall x, y :: leq(x, y) && leq(y, x) ==> x == y
  }

  ghost predicate Sorted<T>(s: seq<T>, leq: (T, T) -> bool) {
    forall i, j | 0 <= i < j < |s| :: leq(s[i], s[j])
  }

  function Insert<T>(x: T, s: seq<T>, leq: (T, T) -> bool): (r: seq<T>)
    ensures |r| == |s| + 1
    ensures multiset(r) == multiset(s)[x := multiset(s)[x] + 1]
  {
    if s == [] || leq(x, s[0]) then
      [x] + s
    else
      assert s == [s[0]] + s[1..];
      [s[0]] + Insert(x, s[1..], leq)
  }

  function Sort<T>(s: seq<T>, leq: (T, T) -> bool): (r: seq<T>)
    ensures |r| == |s|
    ensures multiset(r) == multiset(s)
  {
    if s == [] then
      []
    else
      assert s == [s[0]] + s[1..];
      Insert(s[0], Sort(s[1..], leq), leq)
  }

  lemma {:induction false} InsertSorted<T(!new)>(x: T, s: seq<T>, leq: (T, T) -> bool)
    requires TotalPreorder(leq) && Sorted(s, leq)
    ensures Sorted(Insert(x, s, leq), leq)
  {
    if s != [] && !leq(x, s[0]) {
      InsertSorted(x, s[1..], leq);
      var r := Insert(x, s[1..], leq);
      forall i | 0 <= i < |r| ensures leq(s[0], r[i]) {
        assert r[i] in multiset(r);
        assert r[i] == x || r[i] in multiset(s[1..]);
      }
    }
  }

  lemma {:induction false} SortSorted<T(!new)>(s: seq<T>, leq: (T, T) -> bool)
    requires TotalPreorder(leq)
    ensures Sorted(Sort(s, leq), leq)
  {
    if s != [] {
      SortSorted(s[1..], leq);
      InsertSorted(s[0], Sort(s[1..], leq), leq);
    }
  }

  lemma SameElements<T>(a: seq<T>, b: seq<T>)
    requires multiset(a) == multiset(b)
    ensures forall x :: x in a <==> x in b
  {
    forall x ensures x in a <==> x in b {
      assert x in a <==> x in multiset(a);
      assert x in b <==> x in multiset(b);
    }
  }

  lemma RestElements<T>(s: seq<T>)
    requires s != []
    ensures multiset(s[1..]) == multiset(s) - multiset{s[0]}
  {
    assert s == [s[0]] + s[1..];
  }

  lemma SortedFirst<T(!new)>(a: seq<T>, b: seq<T>, leq: (T, T) -> bool)
    requires TotalPreorder(leq) && Sorted(a, leq) && a != [] && b != []
    requires forall x :: x in a <==> x in b
    ensures leq(a[0], b[0])
  {
    assert b[0] in a;
    var j :| 0 <= j < |a| && a[j] == b[0];
  }

  /** Two sorted arrangements of the same elements are the same sequence. */
  lemma {:induction false} SortedUnique<T(!new)>(a: seq<T>, b: seq<T>, leq: (T, T) -> bool)
    requires TotalPreorder(leq) && Antisymmetric(leq)
    requires Sorted(a, leq) && Sorted(b, leq) && multiset(a) == multiset(b)
    ensures a == b
  {
    assert |a| == |multiset(a)| == |multiset(b)| == |b|;
    if a != [] {
      SameElements(a, b);
      SortedFirst(a, b, leq);
      SortedFirst(b, a, leq);
      RestElements(a);
      RestElements(b);
      SortedUnique(a[1..], b[1..], leq);
      assert a == [a[0]] + a[1..] && b == [b[0]] + b[1..];
    }
  }

  /** A property of all pairs of positions, when it is symmetric, does not see the order. */
  ghost predicate Pairwise<T>(s: seq<T>, rel: (T, T) -> bool) {
    forall i, j | 0 <= i < |s| && 0 <= j < |s| && i != j :: rel(s[i], s[j])
  }

  ghost predicate Related<T(!new)>(x: T, s: seq<T>, rel: (T, T) -> bool) {
    forall y | y in s :: rel(x, y) && rel(y, x)
  }

  lemma PairwiseFirst<T(!new)>(x: T, s: seq<T>, rel: (T, T) -> bool)
    ensures Pairwise([x] + s, rel) <==> Pairwise(s, rel) && Related(x, s, rel)
  {
    var all := [x] + s;
    assert all[0] == x && forall k | 0 <= k < |s| :: s[k] == all[k + 1];
    if Pairwise(s, rel) && Related(x, s, rel) {
      forall i, j | 0 <= i < |all| && 0 <= j < |all| && i != j ensures rel(all[i], all[j]) {
        assert i > 0 ==> all[i] == s[i - 1] && s[i - 1] in s;
        assert j > 0 ==> all[j] == s[j - 1] && s[j - 1] in s;
      }
    }
  }

  lemma InsertElements<T(!new)>(x: T, s: seq<T>, leq: (T, T) -> bool)
    ensures forall y :: y in Insert(x, s, leq) ==> y == x || y in s
  {
    forall y | y in Insert(x, s, leq) ensures y == x || y in s {
      assert y in multiset(Insert(x, s, leq));
      assert y == x || y in multiset(s);
    }
  }

  lemma {:induction false} InsertPairwise<T(!new)>(x: T, s: seq<T>, leq: (T, T) -> bool, rel: (T, T) -> bool)
    requires Pairwise(s, rel) && Related(x, s, rel)
    ensures Pairwise(Insert(x, s, leq), rel)
  {
    if s == [] || leq(x, s[0]) {
      PairwiseFirst(x, s, rel);
    } else {
      assert s == [s[0]] + s[1..];
      PairwiseFirst(s[0], s[1..], rel);
      InsertPairwise(x, s[1..], leq, rel);
      InsertElements(x, s[1..], leq);
      assert s[0] in s;
      PairwiseFirst(s[0], Insert(x, s[1..], leq), rel);
    }
  }

  lemma {:induction false} SortPairwise<T(!new)>(s: seq<T>, leq: (T, T) -> bool, rel: (T, T) -> bool)
    requires Pairwise(s, rel)
    ensures Pairwise(Sort(s, leq), rel)
  {
    if s != [] {
      assert s == [s[0]] + s[1..];
      PairwiseFirst(s[0], s[1..], rel);
      SortPairwise(s[1..], leq, rel);
      SameElements(Sort(s[1..], leq), s[1..]);
      InsertPairwise(s[0], Sort(s[1..], leq), leq, rel);
    }
  }

  ghost predicate Ascending(s: seq<nat>) {
    forall i, j | 0 <= i < j < |s| :: s[i] < s[j]
  }

  lemma {:induction false} AscendingUnique(a: seq<nat>, b: seq<nat>)
    requires Ascending(a) && Ascending(b) && forall id :: id in a <==> id in b
    ensures a == b
  {
    assert (|a| > 0 ==> a[0] in b) && (|b| > 0 ==> b[0] in a);
    if a != [] && b != [] {
      assert a[0] == b[0];
      forall id ensures id in a[1..] <==> id in b[1..] {
        assert id in a[1..] <==> id in a && id != a[0];
        assert id in b[1..] <==> id in b && id != b[0];
      }
      AscendingUnique(a[1..], b[1..]);
      assert a == [a[0]] + a[1..] && b == [b[0]] + b[1..];
    }
  }
}
