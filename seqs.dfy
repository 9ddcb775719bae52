/**
 * The JavaScript array operations the dashboard chains together:
 * `filter`, `find`, `reverse` (on a fresh array) and `slice(0, end)`.
 */
module Seqs {
  import opened Wrappers

  /** `s.filter(p)`. */
  function Filter<T(!new)>(s: seq<T>, p: T -> bool): (r: seq<T>)
    ensures |r| <= |s|
    ensures forall i :: 0 <= i < |r| ==> p(r[i])
  {
    if s == [] then []
    else if p(s[0]) then [s[0]] + Filter(s[1..], p)
    else Filter(s[1..], p)
  }

  /** `filter` keeps exactly the elements that satisfy `p`. */
  lemma {:induction false} FilterMembers<T(!new)>(s: seq<T>, p: T -> bool)
    ensures forall x :: x in Filter(s, p) <==> x in s && p(x)
  {
    if s != [] {
      FilterMembers(s[1..], p);
      assert s == [s[0]] + s[1..];
    }
  }

  lemma {:induction false} FilterAppend<T(!new)>(s: seq<T>, t: seq<T>, p: T -> bool)
    ensures Filter(s + t, p) == Filter(s, p) + Filter(t, p)
  {
    if s == [] {
      assert s + t == t;
    } else {
      var u := s + t;
      assert u[0] == s[0];
      assert u[1..] == s[1..] + t;
      FilterAppend(s[1..], t, p);
      var rest := Filter(s[1..], p);
      if p(s[0]) {
        assert Filter(u, p) == [s[0]] + (rest + Filter(t, p));
        assert Filter(s, p) == [s[0]] + rest;
        assert [s[0]] + (rest + Filter(t, p)) == ([s[0]] + rest) + Filter(t, p);
      } else {
        assert Filter(u, p) == rest + Filter(t, p);
        assert Filter(s, p) == rest;
      }
    }
  }

  /** The first element `filter` keeps is the first element of `s` that
    * satisfies `p`. */
  lemma {:induction false} FilterFirst<T(!new)>(s: seq<T>, p: T -> bool)
    requires Filter(s, p) != []
    ensures exists k :: 0 <= k < |s| && s[k] == Filter(s, p)[0] && p(s[k])
                        && forall j :: 0 <= j < k ==> !p(s[j])
  {
    if p(s[0]) {
      assert s[0] == Filter(s, p)[0];
    } else {
      FilterFirst(s[1..], p);
      var k :| 0 <= k < |s| - 1 && s[1..][k] == Filter(s[1..], p)[0] && p(s[1..][k])
               && forall j :: 0 <= j < k ==> !p(s[1..][j]);
      assert s[k + 1] == Filter(s, p)[0];
      assert forall j :: 0 <= j < k + 1 ==> !p(s[j]) by {
        forall j | 0 <= j < k + 1 ensures !p(s[j]) {
          if j > 0 { assert s[j] == s[1..][j - 1]; }
        }
      }
    }
  }

  /** The last element `filter` keeps is the last element of `s` that
    * satisfies `p`. */
  lemma {:induction false} FilterLast<T(!new)>(s: seq<T>, p: T -> bool)
    requires Filter(s, p) != []
    ensures exists k :: 0 <= k < |s| && s[k] == Filter(s, p)[|Filter(s, p)| - 1] && p(s[k])
                        && forall j :: k < j < |s| ==> !p(s[j])
  {
    var tail := s[1..];
    var rest := Filter(tail, p);
    if rest == [] {
      FilterMembers(tail, p);
      forall j | 0 < j < |s| ensures !p(s[j]) {
        assert s[j] == tail[j - 1];
        assert s[j] in tail;
      }
      assert Filter(s, p) == [s[0]];
      assert 0 <= 0 < |s| && s[0] == Filter(s, p)[|Filter(s, p)| - 1] && p(s[0]);
    } else {
      FilterLast(tail, p);
      var k :| 0 <= k < |tail| && tail[k] == rest[|rest| - 1] && p(tail[k])
               && forall j :: k < j < |tail| ==> !p(tail[j]);
      var f := Filter(s, p);
      assert f == (if p(s[0]) then [s[0]] + rest else rest);
      assert f[|f| - 1] == rest[|rest| - 1];
      assert s[k + 1] == tail[k];
      forall j | k + 1 < j < |s| ensures !p(s[j]) {
        assert s[j] == tail[j - 1];
      }
      assert 0 <= k + 1 < |s| && s[k + 1] == f[|f| - 1] && p(s[k + 1]);
    }
  }

  /** In a sequence ordered by `key`, the first element `filter` keeps has the
    * smallest key among the elements satisfying `p`. */
  lemma FilterFirstHasSmallestKey<T(!new)>(s: seq<T>, p: T -> bool, key: T -> int)
    requires forall i, j :: 0 <= i < j < |s| ==> key(s[i]) <= key(s[j])
    requires Filter(s, p) != []
    ensures forall x :: x in s && p(x) ==> key(Filter(s, p)[0]) <= key(x)
  {
    FilterFirst(s, p);
    var k :| 0 <= k < |s| && s[k] == Filter(s, p)[0] && p(s[k])
             && forall j :: 0 <= j < k ==> !p(s[j]);
    forall x | x in s && p(x) ensures key(s[k]) <= key(x) {
      var j :| 0 <= j < |s| && s[j] == x;
      assert !(j < k);
    }
  }

  /** In a sequence ordered by `key`, the last element `filter` keeps has the
    * largest key among the elements satisfying `p`. */
  lemma FilterLastHasLargestKey<T(!new)>(s: seq<T>, p: T -> bool, key: T -> int)
    requires forall i, j :: 0 <= i < j < |s| ==> key(s[i]) <= key(s[j])
    requires Filter(s, p) != []
    ensures forall x :: x in s && p(x) ==> key(x) <= key(Filter(s, p)[|Filter(s, p)| - 1])
  {
    var f := Filter(s, p);
    FilterLast(s, p);
    var k :| 0 <= k < |s| && s[k] == f[|f| - 1] && p(s[k])
             && forall j :: k < j < |s| ==> !p(s[j]);
    forall x | x in s && p(x) ensures key(x) <= key(s[k]) {
      var j :| 0 <= j < |s| && s[j] == x;
      assert !(k < j);
    }
  }

  /** `s.find(p)`: the first element satisfying `p`. */
  function Find<T>(s: seq<T>, p: T -> bool): (r: Option<T>)
    ensures r.None? <==> forall i :: 0 <= i < |s| ==> !p(s[i])
    ensures r.Some? ==> exists k :: 0 <= k < |s| && s[k] == r.value && p(s[k])
                                    && forall j :: 0 <= j < k ==> !p(s[j])
  {
    if s == [] then None
    else if p(s[0]) then Some(s[0])
    else
      var r := Find(s[1..], p);
      assert r.Some? ==> exists k :: 0 <= k < |s| && s[k] == r.value && p(s[k])
                                    && forall j :: 0 <= j < k ==> !p(s[j]) by {
        if r.Some? {
          var k :| 0 <= k < |s| - 1 && s[1..][k] == r.value && p(s[1..][k])
                   && forall j :: 0 <= j < k ==> !p(s[1..][j]);
          assert s[k + 1] == r.value;
          assert forall j :: 0 <= j < k + 1 ==> !p(s[j]) by {
            forall j | 0 <= j < k + 1 ensures !p(s[j]) {
              if j > 0 { assert s[j] == s[1..][j - 1]; }
            }
          }
        }
      }
      r
  }

  /** `find` returns the element at the first index satisfying `p`. */
  lemma {:induction false} FindFirstMatch<T>(s: seq<T>, p: T -> bool, k: nat)
    requires k < |s| && p(s[k])
    requires forall j :: 0 <= j < k ==> !p(s[j])
    ensures Find(s, p) == Some(s[k])
  {
    if k > 0 {
      assert !p(s[0]);
      assert s[1..][k - 1] == s[k];
      forall j | 0 <= j < k - 1 ensures !p(s[1..][j]) {
        assert s[1..][j] == s[j + 1];
      }
      FindFirstMatch(s[1..], p, k - 1);
    }
  }

  /** `find` returns the head of what `filter` keeps. */
  lemma {:induction false} FindIsFilterHead<T(!new)>(s: seq<T>, p: T -> bool)
    ensures Find(s, p) == (if Filter(s, p) == [] then None else Some(Filter(s, p)[0]))
  {
    if s != [] && !p(s[0]) {
      FindIsFilterHead(s[1..], p);
    }
  }

  /** `[...s].reverse()`. */
  function Reverse<T>(s: seq<T>): (r: seq<T>)
    ensures |r| == |s|
    ensures forall i :: 0 <= i < |s| ==> r[i] == s[|s| - 1 - i]
  {
    seq(|s|, i requires 0 <= i < |s| => s[|s| - 1 - i])
  }

  lemma ReverseReverse<T>(s: seq<T>)
    ensures Reverse(Reverse(s)) == s
  {
    assert forall i :: 0 <= i < |s| ==> Reverse(Reverse(s))[i] == s[i];
  }

  /** The end index `slice(0, end)` uses on an array of length `n`: a negative
    * end counts from the back, and the index is clamped to `[0, n]`. */
  function SliceEnd(n: nat, end: int): (k: nat)
    ensures k <= n
    ensures 0 <= end ==> k == if end < n then end else n
    ensures end < 0 ==> k == if n + end < 0 then 0 else n + end
  {
    if end < 0 then (if n + end < 0 then 0 else n + end)
    else if end < n then end else n
  }

  /** `s.slice(0, end)`. */
  function Take<T>(s: seq<T>, end: int): (r: seq<T>)
    ensures r == s[..SliceEnd(|s|, end)]
  {
    s[..SliceEnd(|s|, end)]
  }

  /** Reversing, keeping the first `end` and reversing back keeps the last
    * elements of `s`, oldest first. */
  lemma LastWindow<T>(s: seq<T>, end: int)
    ensures Reverse(Take(Reverse(s), end)) == s[|s| - SliceEnd(|s|, end)..]
  {
    var k := SliceEnd(|s|, end);
    var r := Reverse(s);
    var t := r[..k];
    assert Take(r, end) == t;
    var w := Reverse(t);
    forall i | 0 <= i < k ensures w[i] == s[|s| - k + i] {
      assert w[i] == t[k - 1 - i] == r[k - 1 - i];
    }
    assert w == s[|s| - k..];
  }

  // ---------------------------------------------------------------- slicing facts

  /** A non-empty sequence is its front followed by its last element. */
  lemma InitLast<T>(s: seq<T>)
    requires s != []
    ensures s[..|s| - 1] + [s[|s| - 1]] == s
  {
  }

  /** A prefix of a prefix is a prefix. */
  lemma PrefixOfPrefix<T>(s: seq<T>, i: nat, j: nat)
    requires i <= j <= |s|
    ensures s[..j][..i] == s[..i]
  {
  }

  /** Appending an element leaves the old sequence as the prefix. */
  lemma SnocPrefix<T>(s: seq<T>, x: T)
    ensures (s + [x])[..|s|] == s
  {
  }
}
