/** `Stream.distinct()` and the order it keeps. */
module Streams {

  predicate NoDuplicates<T(==)>(s: seq<T>) {
    forall i, j :: 0 <= i < j < |s| ==> s[i] != s[j]
  }

  /** The position of the first occurrence of `x` in `xs`. */
  function FirstIndex<T(==)>(xs: seq<T>, x: T): (n: nat)
    requires x in xs
    ensures n < |xs| && xs[n] == x
    ensures forall k :: 0 <= k < n ==> xs[k] != x
  {
    if xs[0] == x then 0 else 1 + FirstIndex(xs[1..], x)
  }

  /**
   * `Stream.distinct()` on an ordered stream: the first occurrence of every
   * element, in encounter order. It holds exactly the elements of `xs`, each once.
   */
  function Distinct<T(==)>(xs: seq<T>): (r: seq<T>)
    ensures forall k :: 0 <= k < |r| ==> r[k] in xs
    ensures NoDuplicates(r)
    ensures |r| <= |xs|
    decreases |xs|
  {
    if xs == [] then []
    else
      var d := Distinct(xs[..|xs| - 1]);
      var x := xs[|xs| - 1];
      assert xs == xs[..|xs| - 1] + [x];
      if x in d then d else d + [x]
  }

  /** Every element of `xs` survives `Distinct`. */
  lemma {:induction false} DistinctCovers<T>(xs: seq<T>)
    ensures forall k :: 0 <= k < |xs| ==> xs[k] in Distinct(xs)
  {
    if xs != [] {
      var p := xs[..|xs| - 1];
      DistinctCovers(p);
      forall k | 0 <= k < |xs|
        ensures xs[k] in Distinct(xs)
      {
        if k < |p| {
          assert xs[k] == p[k];
        }
      }
    }
  }

  lemma FirstIndexInPrefix<T>(xs: seq<T>, n: nat, x: T)
    requires n <= |xs| && x in xs[..n]
    ensures FirstIndex(xs, x) == FirstIndex(xs[..n], x)
  {
    var a, b := FirstIndex(xs, x), FirstIndex(xs[..n], x);
    assert xs[b] == xs[..n][b] == x;
    assert a <= b;
    assert xs[..n][a] == xs[a] == x;
  }

  /** Those elements of `r` that occur in `xs` have their first occurrences there in the order of `r`. */
  predicate InFirstOccurrenceOrder<T(==)>(r: seq<T>, xs: seq<T>) {
    forall i, j :: 0 <= i < j < |r| && r[i] in xs && r[j] in xs ==> FirstIndex(xs, r[i]) < FirstIndex(xs, r[j])
  }

  /** `Distinct` lists its elements in the order of their first occurrences in `xs`. */
  lemma {:induction false} DistinctKeepsFirstOccurrenceOrder<T>(xs: seq<T>)
    ensures InFirstOccurrenceOrder(Distinct(xs), xs)
  {
    if xs != [] {
      var p, x := xs[..|xs| - 1], xs[|xs| - 1];
      assert xs == p + [x];
      DistinctKeepsFirstOccurrenceOrder(p);
      DistinctCovers(p);
      var d, r := Distinct(p), Distinct(xs);
      assert r == if x in d then d else d + [x];
      forall i, j | 0 <= i < j < |r|
        ensures FirstIndex(xs, r[i]) < FirstIndex(xs, r[j])
      {
        OrderStep(p, x, d, r, i, j);
      }
    }
  }

  /**
   * One step of the induction above: if `d` lists elements of `p` by first
   * occurrence, then so does `d` (or `d` followed by a new last element) in `p + [x]`.
   */
  lemma OrderStep<T>(p: seq<T>, x: T, d: seq<T>, r: seq<T>, i: nat, j: nat)
    requires forall k :: 0 <= k < |d| ==> d[k] in p
    requires InFirstOccurrenceOrder(d, p)
    requires r == d || (x !in p && r == d + [x])
    requires i < j < |r|
    ensures FirstIndex(p + [x], r[i]) < FirstIndex(p + [x], r[j])
  {
    var xs := p + [x];
    assert xs[..|p|] == p;
    assert r[i] == d[i];
    FirstIndexInPrefix(xs, |p|, d[i]);
    if j < |d| {
      assert r[j] == d[j];
      FirstIndexInPrefix(xs, |p|, d[j]);
    } else {
      LastNewElement(xs);
    }
  }

  /** An element that only occurs last has its first occurrence there. */
  lemma LastNewElement<T>(xs: seq<T>)
    requires xs != [] && xs[|xs| - 1] !in xs[..|xs| - 1]
    ensures FirstIndex(xs, xs[|xs| - 1]) == |xs| - 1
  {
  }

  /** A sequence without duplicates is its own `Distinct`. */
  lemma {:induction false} DistinctOfDistinct<T>(xs: seq<T>)
    requires NoDuplicates(xs)
    ensures Distinct(xs) == xs
  {
    if xs != [] {
      var p := xs[..|xs| - 1];
      DistinctOfDistinct(p);
      assert xs[|xs| - 1] !in p;
    }
  }
}
