/**
 * The `ORDER BY ... DESC` of the store's queries, as an insertion sort
 * parameterised by the relation "may come before". The database leaves the
 * order of ties open; this sort is stable, which is one of the allowed
 * outcomes, and its contract promises only what `ORDER BY` promises.
 */
module Sorting {

  ghost predicate Total<T(!new)>(before: (T, T) -> bool) {
    forall a, b :: before(a, b) || before(b, a)
  }

  ghost predicate Transitive<T(!new)>(before: (T, T) -> bool) {
    forall a, b, c :: before(a, b) && before(b, c) ==> before(a, c)
  }

  /** Every element may come before every later one. */
  ghost predicate Ordered<T>(s: seq<T>, before: (T, T) -> bool) {
    forall i, j :: 0 <= i < j < |s| ==> before(s[i], s[j])
  }

  function Insert<T>(x: T, s: seq<T>, before: (T, T) -> bool): (r: seq<T>)
    ensures |r| == |s| + 1
    ensures multiset(r) == multiset(s) + multiset{x}
  {
    if s == [] then [x]
    else if before(x, s[0]) then [x] + s
    else
      assert s == [s[0]] + s[1..];
      [s[0]] + Insert(x, s[1..], before)
  }

  function Sort<T>(s: seq<T>, before: (T, T) -> bool): (r: seq<T>)
    ensures |r| == |s|
    ensures multiset(r) == multiset(s)
  {
    if s == [] then []
    else
      assert s == [s[0]] + s[1..];
      Insert(s[0], Sort(s[1..], before), before)
  }

  lemma {:induction false} InsertOrdered<T(!new)>(x: T, s: seq<T>, before: (T, T) -> bool)
    requires Total(before) && Transitive(before)
    requires Ordered(s, before)
    ensures Ordered(Insert(x, s, before), before)
  {
    if s != [] && !before(x, s[0]) {
      InsertOrdered(x, s[1..], before);
      var r := Insert(x, s[1..], before);
      forall k | 0 <= k < |r|
        ensures before(s[0], r[k])
      {
        assert r[k] in multiset(r);
        assert r[k] in multiset(s[1..]) + multiset{x};
        if r[k] == x {
          assert before(s[0], x);
        } else {
          assert r[k] in s[1..];
        }
      }
    }
  }

  /** The sort of a total, transitive relation is ordered by it. */
  lemma {:induction false} SortOrdered<T(!new)>(s: seq<T>, before: (T, T) -> bool)
    requires Total(before) && Transitive(before)
    ensures Ordered(Sort(s, before), before)
  {
    if s != [] {
      SortOrdered(s[1..], before);
      InsertOrdered(s[0], Sort(s[1..], before), before);
    }
  }

  /** The sort keeps exactly the elements it was given. */
  lemma SortMembers<T>(s: seq<T>, before: (T, T) -> bool, x: T)
    ensures x in Sort(s, before) <==> x in s
  {
    var r := Sort(s, before);
    assert x in r <==> x in multiset(r);
    assert x in s <==> x in multiset(s);
  }
}
