/**
 * Ascending order of timestamps. The service sorts its `times` array in place with the
 * runtime's `Array.prototype.sort` and a numeric comparator; the model specifies that sort by
 * a functional insertion sort and implements it by an in-place insertion sort on an array.
 */
module Sorting {

  predicate Sorted(s: seq<int>)
  {
    forall i, j :: 0 <= i < j < |s| ==> s[i] <= s[j]
  }

  /** The first `n` elements of `s` are ascending. */
  predicate SortedUpTo(s: seq<int>, n: int)
    requires 0 <= n <= |s|
  {
    forall p, q :: 0 <= p < q < n ==> s[p] <= s[q]
  }

  /** `x` placed before the first element not smaller than it. */
  function Insert(x: int, s: seq<int>): (r: seq<int>)
    ensures |r| == |s| + 1
    ensures multiset(r) == multiset(s) + multiset{x}
  {
    if s == [] || x <= s[0] then [x] + s
    else
      assert s == [s[0]] + s[1..];
      [s[0]] + Insert(x, s[1..])
  }

  /** Inserting into a sorted sequence keeps it sorted. */
  lemma {:induction false} InsertSorted(x: int, s: seq<int>)
    requires Sorted(s)
    ensures Sorted(Insert(x, s))
    decreases |s|
  {
    if s != [] && x > s[0] {
      var t := Insert(x, s[1..]);
      InsertSorted(x, s[1..]);
      forall k | 0 <= k < |t| ensures s[0] <= t[k] {
        assert t[k] in multiset(s[1..]) + multiset{x};
        if t[k] != x {
          assert t[k] in s[1..];
        }
      }
      ConsSorted(s[0], t);
    }
  }

  lemma ConsSorted(h: int, t: seq<int>)
    requires Sorted(t)
    requires forall k :: 0 <= k < |t| ==> h <= t[k]
    ensures Sorted([h] + t)
  {
  }

  /** The ascending arrangement of `s`: sorted, and a permutation of `s`. */
  function SortedTimes(s: seq<int>): (r: seq<int>)
    ensures Sorted(r)
    ensures multiset(r) == multiset(s)
  {
    if s == [] then []
    else
      assert s == [s[0]] + s[1..];
      InsertSorted(s[0], SortedTimes(s[1..]));
      Insert(s[0], SortedTimes(s[1..]))
  }

  /** There is only one sorted permutation of a sequence. */
  lemma {:induction false} SortedUnique(a: seq<int>, b: seq<int>)
    requires Sorted(a) && Sorted(b)
    requires multiset(a) == multiset(b)
    ensures a == b
    decreases |a|
  {
    SameLength(a, b);
    if |a| > 0 {
      LeastOfSorted(a, b[0]);
      LeastOfSorted(b, a[0]);
      SameTails(a, b);
      SortedTail(a);
      SortedTail(b);
      SortedUnique(a[1..], b[1..]);
      assert a == [a[0]] + a[1..];
      assert b == [b[0]] + b[1..];
    }
  }

  lemma SameLength(a: seq<int>, b: seq<int>)
    requires multiset(a) == multiset(b)
    ensures |a| == |b|
  {
    assert |a| == |multiset(a)| && |b| == |multiset(b)|;
  }

  lemma SameTails(a: seq<int>, b: seq<int>)
    requires |a| > 0 && |b| > 0 && a[0] == b[0]
    requires multiset(a) == multiset(b)
    ensures multiset(a[1..]) == multiset(b[1..])
  {
    assert a == [a[0]] + a[1..];
    assert b == [b[0]] + b[1..];
    assert multiset(a) == multiset{a[0]} + multiset(a[1..]);
    assert multiset(b) == multiset{b[0]} + multiset(b[1..]);
    assert multiset(a[1..]) == multiset(a) - multiset{a[0]};
    assert multiset(b[1..]) == multiset(b) - multiset{b[0]};
  }

  lemma SortedTail(s: seq<int>)
    requires Sorted(s) && |s| > 0
    ensures Sorted(s[1..])
  {
  }

  /** The first element of a sorted sequence is at most any element of it. */
  lemma LeastOfSorted(s: seq<int>, x: int)
    requires Sorted(s) && |s| > 0
    requires x in multiset(s)
    ensures s[0] <= x
  {
    assert x in s;
    var i :| 0 <= i < |s| && s[i] == x;
  }

  /** Sorts `a` in place; the result is exactly the ascending arrangement of the old contents. */
  method SortInPlace(a: array<int>)
    modifies a
    ensures a[..] == SortedTimes(old(a[..]))
  {
    var i := 0;
    while i < a.Length
      invariant 0 <= i <= a.Length
      invariant SortedUpTo(a[..], i)
      invariant multiset(a[..]) == multiset(old(a[..]))
    {
      InsertAt(a, i);
      i := i + 1;
    }
    SortedUnique(a[..], SortedTimes(old(a[..])));
  }

  /**
   * The state of the left move of the element at `i`, now at `j`: apart from position `j`,
   * `s[..i + 1]` is ascending, and the moved element is below everything behind it.
   */
  ghost predicate Inserting(s: seq<int>, i: int, j: int)
    requires 0 <= j <= i < |s|
  {
    && (forall p, q :: 0 <= p < q <= i && p != j && q != j ==> s[p] <= s[q])
    && (forall q :: j < q <= i ==> s[j] < s[q])
  }

  /**
   * Swapping the moved element with a larger left neighbour keeps the state, permutes the
   * sequence and touches nothing behind position `i`.
   */
  lemma SwapStep(s: seq<int>, i: int, j: int)
    requires 0 < j <= i < |s| && Inserting(s, i, j) && s[j - 1] > s[j]
    ensures var t := s[j - 1 := s[j]][j := s[j - 1]];
      && Inserting(t, i, j - 1)
      && multiset(t) == multiset(s)
      && forall k :: i < k < |s| ==> t[k] == s[k]
  {
  }

  /** Once the left neighbour is not larger, the whole of `s[..i + 1]` is ascending. */
  lemma InsertDone(s: seq<int>, i: int, j: int)
    requires 0 <= j <= i < |s| && Inserting(s, i, j) && (j == 0 || s[j - 1] <= s[j])
    ensures SortedUpTo(s, i + 1)
  {
  }

  /** Moves `a[i]` left into the sorted prefix `a[..i]` by adjacent swaps. */
  method InsertAt(a: array<int>, i: int)
    requires 0 <= i < a.Length
    requires SortedUpTo(a[..], i)
    modifies a
    ensures SortedUpTo(a[..], i + 1)
    ensures multiset(a[..]) == multiset(old(a[..]))
    ensures forall k :: i < k < a.Length ==> a[k] == old(a[k])
  {
    ghost var a0 := a[..];
    var j := i;
    while j > 0 && a[j - 1] > a[j]
      invariant 0 <= j <= i
      invariant Inserting(a[..], i, j)
      invariant multiset(a[..]) == multiset(a0)
      invariant forall k :: i < k < |a0| ==> a[..][k] == a0[k]
    {
      ghost var s := a[..];
      SwapStep(s, i, j);
      SwapLeft(a, j);
      j := j - 1;
    }
    InsertDone(a[..], i, j);
    assert forall k :: i < k < a.Length ==> a[k] == a[..][k];
  }

  /** Exchanges `a[j]` with its left neighbour. */
  method SwapLeft(a: array<int>, j: int)
    requires 0 < j < a.Length
    modifies a
    ensures a[..] == old(a[..])[j - 1 := old(a[j])][j := old(a[j - 1])]
  {
    a[j - 1], a[j] := a[j], a[j - 1];
  }
}
