/** Ordering helpers over real-valued samples: Python's `sorted(...)` and
    the sorted distinct values `sorted(set(...))` / `sorted(s.unique())`. */
module Sorting {

  predicate Sorted(xs: seq<real>) {
    forall i, j | 0 <= i < j < |xs| :: xs[i] <= xs[j]
  }

  predicate StrictlyIncreasing(xs: seq<real>) {
    forall i, j | 0 <= i < j < |xs| :: xs[i] < xs[j]
  }

  function Insert(x: real, xs: seq<real>): (r: seq<real>)
    requires Sorted(xs)
    ensures Sorted(r) && multiset(r) == multiset(xs) + multiset{x} && |r| == |xs| + 1
    decreases |xs|
  {
    if xs == [] || x <= xs[0] then [x] + xs
    else
      var rest := Insert(x, xs[1..]);
      InsertBehindHead(x, xs, rest);
      [xs[0]] + rest
  }

  lemma InsertBehindHead(x: real, xs: seq<real>, rest: seq<real>)
    requires Sorted(xs) && |xs| > 0 && xs[0] < x
    requires Sorted(rest) && multiset(rest) == multiset(xs[1..]) + multiset{x}
    ensures Sorted([xs[0]] + rest) && multiset([xs[0]] + rest) == multiset(xs) + multiset{x}
  {
    assert xs == [xs[0]] + xs[1..];
    forall k | 0 <= k < |rest| ensures xs[0] <= rest[k] {
      assert rest[k] in multiset(rest);
    }
  }

  /** A sorted permutation of the sample. */
  function Sort(xs: seq<real>): (r: seq<real>)
    ensures Sorted(r) && multiset(r) == multiset(xs) && |r| == |xs|
    decreases |xs|
  {
    if xs == [] then []
    else
      assert xs == xs[..|xs| - 1] + [xs[|xs| - 1]];
      Insert(xs[|xs| - 1], Sort(xs[..|xs| - 1]))
  }

  function InsertDistinct(x: real, xs: seq<real>): (r: seq<real>)
    requires StrictlyIncreasing(xs)
    ensures StrictlyIncreasing(r)
    ensures forall y :: y in r <==> y == x || y in xs
    decreases |xs|
  {
    if xs == [] || x < xs[0] then [x] + xs
    else if x == xs[0] then xs
    else
      var rest := InsertDistinct(x, xs[1..]);
      assert forall k | 0 <= k < |rest| :: xs[0] < rest[k] by {
        forall k | 0 <= k < |rest| ensures xs[0] < rest[k] {
          assert rest[k] in rest;
        }
      }
      [xs[0]] + rest
  }

  /** The distinct values of the sample in ascending order. */
  function SortedDistinct(xs: seq<real>): (r: seq<real>)
    ensures StrictlyIncreasing(r)
    ensures forall y :: y in r <==> y in xs
    decreases |xs|
  {
    if xs == [] then []
    else InsertDistinct(xs[|xs| - 1], SortedDistinct(xs[..|xs| - 1]))
  }

  lemma LeastFirst(xs: seq<real>, y: real)
    requires StrictlyIncreasing(xs) && y in xs
    ensures xs[0] <= y
  {
  }

  /** A strictly increasing sequence is determined by its set of elements. */
  lemma {:induction false} IncreasingUnique(a: seq<real>, b: seq<real>)
    requires StrictlyIncreasing(a) && StrictlyIncreasing(b)
    requires forall y :: y in a <==> y in b
    ensures a == b
    decreases |a|
  {
    assert a != [] <==> b != [] by {
      if a != [] {
        assert a[0] in a;
      }
      if b != [] {
        assert b[0] in b;
      }
    }
    if a != [] {
      assert a[0] in a;
      LeastFirst(b, a[0]);
      assert b[0] in b;
      LeastFirst(a, b[0]);
      forall y ensures y in a[1..] <==> y in b[1..] {
        if y in a[1..] {
          assert y in b && y != b[0];
        }
        if y in b[1..] {
          assert y in a && y != a[0];
        }
      }
      IncreasingUnique(a[1..], b[1..]);
      assert a == [a[0]] + a[1..] && b == [b[0]] + b[1..];
    }
  }

  /** Sorting distinct values that are already ascending changes nothing. */
  lemma SortedDistinctFixpoint(xs: seq<real>)
    requires StrictlyIncreasing(xs)
    ensures SortedDistinct(xs) == xs
  {
    IncreasingUnique(SortedDistinct(xs), xs);
  }

  /** Sorting keeps the least and the greatest element at the ends. */
  lemma SortBounds(xs: seq<real>)
    requires |xs| > 0
    ensures |Sort(xs)| == |xs|
    ensures forall x | x in xs :: Sort(xs)[0] <= x <= Sort(xs)[|xs| - 1]
    ensures Sort(xs)[0] in xs && Sort(xs)[|xs| - 1] in xs
  {
    SortElements(xs);
    var s := Sort(xs);
    forall x | x in xs ensures s[0] <= x <= s[|xs| - 1] {
      var k :| 0 <= k < |s| && s[k] == x;
    }
    assert s[0] in s && s[|xs| - 1] in s;
  }

  /** Sorting keeps the length and the elements. */
  lemma SortElements(xs: seq<real>)
    ensures |Sort(xs)| == |xs|
    ensures forall x :: x in Sort(xs) <==> x in xs
  {
    var s := Sort(xs);
    assert |s| == |multiset(s)| == |multiset(xs)| == |xs|;
    forall x ensures x in s <==> x in xs {
      assert x in s <==> x in multiset(s);
      assert x in xs <==> x in multiset(xs);
    }
  }

  function MinOf(xs: seq<real>): (m: real)
    requires |xs| > 0
    ensures m in xs && forall x | x in xs :: m <= x
    decreases |xs|
  {
    if |xs| == 1 then xs[0]
    else
      var m := MinOf(xs[1..]);
      assert forall x | x in xs :: x == xs[0] || x in xs[1..];
      if xs[0] < m then xs[0] else m
  }

  function MaxOf(xs: seq<real>): (m: real)
    requires |xs| > 0
    ensures m in xs && forall x | x in xs :: x <= m
    decreases |xs|
  {
    if |xs| == 1 then xs[0]
    else
      var m := MaxOf(xs[1..]);
      assert forall x | x in xs :: x == xs[0] || x in xs[1..];
      if xs[0] > m then xs[0] else m
  }
}
