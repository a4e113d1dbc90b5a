/**
 * `ORDER BY`: a stable insertion sort under a total preorder. The database
 * leaves the order of ties open; the model fixes it to table order, and every
 * contract below speaks only of sortedness and of the multiset of rows, which
 * any order the database picks also satisfies.
 */
module Sorting {

  ghost predicate TotalPreorder<T(!new)>(le: (T, T) -> bool)
  {
    && (forall a, b :: le(a, b) || le(b, a))
    && (forall a, b, c :: le(a, b) && le(b, c) ==> le(a, c))
  }

  predicate SortedBy<T>(s: seq<T>, le: (T, T) -> bool)
  {
    forall i, j :: 0 <= i < j < |s| ==> le(s[i], s[j])
  }

  /** Every element of `s` is at least `x`. */
  ghost predicate AllAbove<T>(x: T, s: seq<T>, le: (T, T) -> bool)
  {
    forall k :: 0 <= k < |s| ==> le(x, s[k])
  }

  lemma AllAboveFromMultiset<T>(x: T, s: seq<T>, t: seq<T>, le: (T, T) -> bool)
    requires multiset(s) <= multiset(t)
    requires AllAbove(x, t, le)
    ensures AllAbove(x, s, le)
  {
    forall k | 0 <= k < |s|
      ensures le(x, s[k])
    {
      assert s[k] in multiset(s);
      assert s[k] in multiset(t);
      var j :| 0 <= j < |t| && t[j] == s[k];
    }
  }

  function Insert<T(!new)>(x: T, s: seq<T>, le: (T, T) -> bool): (r: seq<T>)
    requires TotalPreorder(le)
    requires SortedBy(s, le)
    ensures SortedBy(r, le)
    ensures multiset(r) == multiset(s) + multiset{x}
    ensures |r| == |s| + 1
  {
    if s == [] then [x]
    else if le(x, s[0]) then [x] + s
    else
      var rest := Insert(x, s[1..], le);
      assert le(s[0], x);
      assert s == [s[0]] + s[1..];
      assert AllAbove(s[0], s[1..] + [x], le);
      AllAboveFromMultiset(s[0], rest, s[1..] + [x], le);
      [s[0]] + rest
  }

  /** The rows of `s` in `le` order, ties kept in their original order. */
  function Sort<T(!new)>(s: seq<T>, le: (T, T) -> bool): (r: seq<T>)
    requires TotalPreorder(le)
    ensures SortedBy(r, le)
    ensures multiset(r) == multiset(s)
    ensures |r| == |s|
  {
    if s == [] then []
    else
      assert s == [s[0]] + s[1..];
      Insert(s[0], Sort(s[1..], le), le)
  }

  lemma SameElements<T>(s: seq<T>, t: seq<T>, x: T)
    requires multiset(s) == multiset(t)
    ensures x in s <==> x in t
  {
    assert x in s <==> x in multiset(s);
    assert x in t <==> x in multiset(t);
  }
}
