/** Ordering by a key, as the queries' `OrderBy` clauses do. The model sorts by
    insertion. The order among elements that tie is not specified by the database,
    and no contract here depends on it. */
module Sorting {

  /** `le` compares every pair of values and is transitive. */
  ghost predicate IsTotalPreorder<T(!new)>(le: (T, T) -> bool) {
    && (forall a, b :: le(a, b) || le(b, a))
    && (forall a, b, c :: le(a, b) && le(b, c) ==> le(a, c))
  }

  predicate SortedBy<T>(s: seq<T>, le: (T, T) -> bool) {
    forall i, j :: 0 <= i < j < |s| ==> le(s[i], s[j])
  }

  /** Inserts `x` before the first element it sorts at or before. */
  function Insert<T(!new)>(x: T, s: seq<T>, le: (T, T) -> bool): (r: seq<T>)
    requires IsTotalPreorder(le)
    requires SortedBy(s, le)
    ensures SortedBy(r, le)
    ensures multiset(r) == multiset(s) + multiset{x}
  {
    if s == [] then [x]
    else if le(x, s[0]) then [x] + s
    else
      var tail := Insert(x, s[1..], le);
      FirstThenRest(s);
      LowerBoundOfInsert(s[0], x, s[1..], tail, le);
      PrependSorted(s[0], tail, le);
      [s[0]] + tail
  }

  /** An element that sorts at or before `x` and everything in `s` sorts at or
      before everything in a rearrangement of `s` plus `x`. */
  lemma {:induction false} LowerBoundOfInsert<T(!new)>(h: T, x: T, s: seq<T>, tail: seq<T>, le: (T, T) -> bool)
    requires le(h, x)
    requires forall j :: 0 <= j < |s| ==> le(h, s[j])
    requires multiset(tail) == multiset(s) + multiset{x}
    ensures forall j :: 0 <= j < |tail| ==> le(h, tail[j])
  {
    forall j | 0 <= j < |tail|
      ensures le(h, tail[j])
    {
      assert tail[j] in multiset(tail);
      if tail[j] != x {
        assert tail[j] in multiset(s);
        var k :| 0 <= k < |s| && s[k] == tail[j];
      }
    }
  }

  lemma {:induction false} PrependSorted<T>(h: T, s: seq<T>, le: (T, T) -> bool)
    requires SortedBy(s, le)
    requires forall j :: 0 <= j < |s| ==> le(h, s[j])
    ensures SortedBy([h] + s, le)
  {
    var r := [h] + s;
    forall i, j | 0 <= i < j < |r|
      ensures le(r[i], r[j])
    {
      if i > 0 {
        assert r[i] == s[i - 1] && r[j] == s[j - 1];
      } else {
        assert r[j] == s[j - 1];
      }
    }
  }

  /** The elements of `s`, ordered by `le`. */
  function SortBy<T(!new)>(s: seq<T>, le: (T, T) -> bool): (r: seq<T>)
    requires IsTotalPreorder(le)
    ensures SortedBy(r, le)
    ensures multiset(r) == multiset(s)
    ensures |r| == |s|
  {
    if s == [] then []
    else
      assert s == [s[0]] + s[1..];
      Insert(s[0], SortBy(s[1..], le), le)
  }

  // ---------------------------------------------------------------------
  // Where, and rearrangements

  /** The elements of `s` that satisfy `p`, in the order of `s` (a `Where` clause). */
  function Filter<T(!new)>(s: seq<T>, p: T -> bool): (r: seq<T>)
    ensures |r| <= |s|
    ensures forall x :: multiset(r)[x] == if p(x) then multiset(s)[x] else 0
    ensures forall i :: 0 <= i < |r| ==> p(r[i])
  {
    if |s| == 0 then []
    else
      var rest := Filter(s[..|s| - 1], p);
      InitThenLast(s);
      if p(s[|s| - 1]) then rest + [s[|s| - 1]] else rest
  }

  /** Filtering keeps the relation between every element and the ones after it. */
  lemma {:induction false} FilterSorted<T(!new)>(s: seq<T>, p: T -> bool, le: (T, T) -> bool)
    requires SortedBy(s, le)
    ensures SortedBy(Filter(s, p), le)
  {
    if |s| > 0 {
      var init, x := s[..|s| - 1], s[|s| - 1];
      assert SortedBy(init, le) by {
        forall i, j | 0 <= i < j < |init|
          ensures le(init[i], init[j])
        {
          assert init[i] == s[i] && init[j] == s[j];
        }
      }
      FilterSorted(init, p, le);
      var f := Filter(init, p);
      if p(x) {
        forall i | 0 <= i < |f|
          ensures le(f[i], x)
        {
          assert f[i] in multiset(init);
          var k :| 0 <= k < |init| && init[k] == f[i];
          assert s[k] == f[i];
        }
        PrependSortedAfter(f, x, le);
      }
    }
  }

  lemma {:induction false} PrependSortedAfter<T>(s: seq<T>, x: T, le: (T, T) -> bool)
    requires SortedBy(s, le)
    requires forall i :: 0 <= i < |s| ==> le(s[i], x)
    ensures SortedBy(s + [x], le)
  {
    var r := s + [x];
    forall i, j | 0 <= i < j < |r|
      ensures le(r[i], r[j])
    {
      assert r[i] == s[i];
      if j < |s| {
        assert r[j] == s[j];
      }
    }
  }

  /** Filtering with a test every element passes changes nothing. */
  lemma {:induction false} FilterAll<T(!new)>(s: seq<T>, p: T -> bool)
    requires forall i :: 0 <= i < |s| ==> p(s[i])
    ensures Filter(s, p) == s
  {
    if |s| > 0 {
      var init := s[..|s| - 1];
      FilterKeepsLast(s, p);
      FilterAll(init, p);
      InitThenLast(s);
    }
  }

  /** A non-empty sequence is its first element followed by the rest. */
  lemma FirstThenRest<T>(s: seq<T>)
    requires |s| > 0
    ensures [s[0]] + s[1..] == s
  {
  }

  /** Leaving out the first element leaves the rest. */
  lemma WithoutFirst<T>(s: seq<T>)
    requires |s| > 0
    ensures s[..0] + s[1..] == s[1..]
  {
  }

  /** Leaving out a later element is leaving it out of the rest, behind the first. */
  lemma WithoutLater<T>(s: seq<T>, i: nat)
    requires 0 < i < |s|
    ensures s[..i] + s[i + 1..] == [s[0]] + (s[1..][..i - 1] + s[1..][i..])
  {
    assert s[1..][..i - 1] == s[1..i];
    assert s[1..][i..] == s[i + 1..];
    assert s[..i] == [s[0]] + s[1..i];
  }

  /** A non-empty sequence is its front followed by its last element. */
  lemma InitThenLast<T>(s: seq<T>)
    requires |s| > 0
    ensures s[..|s| - 1] + [s[|s| - 1]] == s
  {
  }

  /** A last element that passes the test ends the filtered sequence. */
  lemma FilterKeepsLast<T(!new)>(s: seq<T>, p: T -> bool)
    requires |s| > 0 && p(s[|s| - 1])
    ensures Filter(s, p) == Filter(s[..|s| - 1], p) + [s[|s| - 1]]
  {
  }

  /** An element of the multiset of `s` stands at some position of `s`. */
  lemma Position<T>(s: seq<T>, x: T) returns (i: nat)
    requires x in multiset(s)
    ensures i < |s| && s[i] == x
  {
    assert x in s;
    i :| 0 <= i < |s| && s[i] == x;
  }

  /** Taking the first element of `a` and an equal element of `b` out leaves two permutations. */
  lemma {:induction false} RemovedPermutation<T>(a: seq<T>, b: seq<T>, i: nat) returns (rest: seq<T>)
    requires multiset(a) == multiset(b) && |a| > 0 && i < |b| && b[i] == a[0]
    ensures rest == b[..i] + b[i + 1..]
    ensures multiset(a[1..]) == multiset(rest)
  {
    rest := b[..i] + b[i + 1..];
    assert b == b[..i] + [b[i]] + b[i + 1..];
    assert a == [a[0]] + a[1..];
    calc {
      multiset(a[1..]);
      multiset(a) - multiset{a[0]};
      multiset(b) - multiset{b[i]};
      multiset(rest);
    }
  }

  /** No two positions of `s` hold the same element. */
  predicate Distinct<T(==)>(s: seq<T>) {
    forall i, j :: 0 <= i < j < |s| ==> s[i] != s[j]
  }

  /** An element occurs at most once in a sequence without repetitions. */
  lemma {:induction false} DistinctOnce<T>(s: seq<T>, x: T)
    requires Distinct(s)
    ensures multiset(s)[x] <= 1
  {
    if |s| > 0 {
      var init := s[..|s| - 1];
      assert s == init + [s[|s| - 1]];
      DistinctOnce(init, x);
      if s[|s| - 1] == x {
        assert forall k :: 0 <= k < |init| ==> init[k] == s[k];
        assert x !in init;
      }
    }
  }

  /** A sequence in which no element occurs twice has no repetitions. */
  lemma {:induction false} DistinctOfOnce<T>(s: seq<T>)
    requires forall x :: multiset(s)[x] <= 1
    ensures Distinct(s)
  {
    forall i, j | 0 <= i < j < |s|
      ensures s[i] != s[j]
    {
      assert s == s[..j] + s[j..];
      assert s[i] in s[..j] && s[j] in s[j..];
      assert multiset(s)[s[j]] == multiset(s[..j])[s[j]] + multiset(s[j..])[s[j]];
    }
  }

  /** A rearrangement of a sequence without repetitions has none either. */
  lemma {:induction false} DistinctPermutation<T>(a: seq<T>, b: seq<T>)
    requires multiset(a) == multiset(b) && Distinct(a)
    ensures Distinct(b)
  {
    forall x
      ensures multiset(b)[x] <= 1
    {
      DistinctOnce(a, x);
    }
    DistinctOfOnce(b);
  }
}
