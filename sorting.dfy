/**
 * `Array.prototype.sort` with a comparator, as a stable insertion sort: an
 * element is placed before the first element it may precede, so elements the
 * comparator calls equal keep their input order.
 */
module Sorting {

  /** `le` orders any two values one way or the other. */
  ghost predicate Total<T(!new)>(le: (T, T) -> bool) {
    forall a, b :: le(a, b) || le(b, a)
  }

  ghost predicate Transitive<T(!new)>(le: (T, T) -> bool) {
    forall a, b, c :: le(a, b) && le(b, c) ==> le(a, c)
  }

  /** Each element may precede the next one. */
  ghost predicate Sorted<T>(s: seq<T>, le: (T, T) -> bool) {
    forall i :: 0 < i < |s| ==> le(s[i - 1], s[i])
  }

  function Insert<T(!new)>(x: T, s: seq<T>, le: (T, T) -> bool): (r: seq<T>)
    requires Total(le)
    requires Sorted(s, le)
    ensures Sorted(r, le)
    ensures multiset(r) == multiset(s) + multiset{x}
    ensures r[0] == x || (s != [] && r[0] == s[0])
  {
    if s == [] || le(x, s[0]) then [x] + s
    else
      var tail := Insert(x, s[1..], le);
      assert le(s[0], tail[0]);
      assert s == [s[0]] + s[1..];
      [s[0]] + tail
  }

  /** The sorted arrangement of `s`. */
  function SortBy<T(!new)>(s: seq<T>, le: (T, T) -> bool): (r: seq<T>)
    requires Total(le)
    ensures Sorted(r, le)
    ensures multiset(r) == multiset(s)
    ensures |r| == |s|
  {
    if s == [] then []
    else
      assert s == [s[0]] + s[1..];
      Insert(s[0], SortBy(s[1..], le), le)
  }

  /** Under a transitive order, "each element may precede the next" gives
    * "each element may precede every later one". */
  lemma {:induction false} SortedPairwise<T(!new)>(s: seq<T>, le: (T, T) -> bool, i: int, j: int)
    requires Transitive(le) && Sorted(s, le)
    requires 0 <= i < j < |s|
    ensures le(s[i], s[j])
    decreases j - i
  {
    if i + 1 < j {
      SortedPairwise(s, le, i, j - 1);
    }
  }

  /** Sorting a sequence that is already in order changes nothing: equal
    * elements are never reordered. */
  lemma {:induction false} SortBySorted<T(!new)>(s: seq<T>, le: (T, T) -> bool)
    requires Total(le) && Sorted(s, le)
    ensures SortBy(s, le) == s
  {
    if s != [] {
      assert Sorted(s[1..], le);
      SortBySorted(s[1..], le);
      assert s == [s[0]] + s[1..];
    }
  }
}
