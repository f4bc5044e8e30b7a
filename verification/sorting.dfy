/** A stable sort by a total preorder, the model of `Array.prototype.sort`
    with a comparator (which has been stable since ECMAScript 2019). */
module Sorting {

  /** `le` is total and transitive: what a consistent comparator provides. */
  ghost predicate TotalPreorder<T(!new)>(le: (T, T) -> bool) {
    && (forall a, b :: le(a, b) || le(b, a))
    && (forall a, b, c :: le(a, b) && le(b, c) ==> le(a, c))
  }

  predicate SortedBy<T>(s: seq<T>, le: (T, T) -> bool) {
    forall i, j :: 0 <= i < j < |s| ==> le(s[i], s[j])
  }

  /** Inserts `x` after every element that may precede it, so that equal
      elements keep their arrival order. */
  function Insert<T(!new)>(s: seq<T>, x: T, le: (T, T) -> bool): (r: seq<T>)
    requires TotalPreorder(le)
    requires SortedBy(s, le)
    ensures multiset(r) == multiset(s) + multiset{x}
    ensures |r| == |s| + 1
    ensures SortedBy(r, le)
    decreases |s|
  {
    if |s| == 0 then [x]
    else if le(s[0], x) then
      var tail := Insert(s[1..], x, le);
      LowerBoundKept(s[0], tail, s[1..] + [x], le);
      ConsSorted(s[0], tail, le);
      assert s == [s[0]] + s[1..];
      [s[0]] + tail
    else
      assert forall k :: 0 <= k < |s| ==> le(x, s[k]) by {
        assert le(x, s[0]);
      }
      ConsSorted(x, s, le);
      [x] + s
  }

  /** A sorted sequence stays sorted behind a lower bound of all of it. */
  lemma ConsSorted<T>(h: T, t: seq<T>, le: (T, T) -> bool)
    requires SortedBy(t, le)
    requires forall k :: 0 <= k < |t| ==> le(h, t[k])
    ensures SortedBy([h] + t, le)
  {
    forall i, j | 0 <= i < j < |t| + 1
      ensures le(([h] + t)[i], ([h] + t)[j])
    {
      if i > 0 {
        assert ([h] + t)[i] == t[i - 1];
      }
    }
  }

  /** A bound on every element of a sequence bounds every element of its
      permutations. */
  lemma LowerBoundKept<T>(lo: T, a: seq<T>, b: seq<T>, le: (T, T) -> bool)
    requires multiset(a) == multiset(b)
    requires forall k :: 0 <= k < |b| ==> le(lo, b[k])
    ensures forall k :: 0 <= k < |a| ==> le(lo, a[k])
  {
    forall k | 0 <= k < |a|
      ensures le(lo, a[k])
    {
      assert a[k] in multiset(b);
    }
  }

  /** Stable insertion sort. */
  function SortBy<T(!new)>(s: seq<T>, le: (T, T) -> bool): (r: seq<T>)
    requires TotalPreorder(le)
    ensures multiset(r) == multiset(s)
    ensures |r| == |s|
    ensures SortedBy(r, le)
    decreases |s|
  {
    if |s| == 0 then []
    else
      assert s == s[..|s| - 1] + [s[|s| - 1]];
      Insert(SortBy(s[..|s| - 1], le), s[|s| - 1], le)
  }

  /** Elements of a sequence that is a permutation of a distinct sequence
      are distinct too: a permutation neither duplicates nor drops. */
  lemma PermutationKeepsDistinct<T>(a: seq<T>, b: seq<T>)
    requires multiset(a) == multiset(b)
    requires forall i, j :: 0 <= i < j < |b| ==> b[i] != b[j]
    ensures forall i, j :: 0 <= i < j < |a| ==> a[i] != a[j]
  {
    forall i, j | 0 <= i < j < |a|
      ensures a[i] != a[j]
    {
      if a[i] == a[j] {
        assert a == a[..j] + [a[j]] + a[j + 1..];
        assert a[i] in multiset(a[..j]);
        assert multiset(a)[a[i]] >= 2;
        DistinctCountsOne(b, a[i]);
      }
    }
  }

  /** In a sequence without repetition, each element occurs at most once. */
  lemma {:induction false} DistinctCountsOne<T>(b: seq<T>, x: T)
    requires forall i, j :: 0 <= i < j < |b| ==> b[i] != b[j]
    ensures multiset(b)[x] <= 1
    decreases |b|
  {
    if |b| > 0 {
      assert b == [b[0]] + b[1..];
      DistinctCountsOne(b[1..], x);
      if b[0] == x {
        assert x !in b[1..];
      }
    }
  }

  /** Taking element `i` out of a sequence takes one copy of it out of the
      multiset. */
  lemma MultisetWithout<T>(b: seq<T>, i: nat)
    requires i < |b|
    ensures multiset(b[..i] + b[i + 1..]) == multiset(b) - multiset{b[i]}
  {
    assert b == b[..i] + [b[i]] + b[i + 1..];
  }
}
