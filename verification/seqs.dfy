/**
 Sequence operations the dashboard relies on: keeping the elements a boolean
 mask selects (what indexing a data frame with a mask does), the distinct
 values of a column in first-occurrence order (what `unique()` returns), and
 the relation "is obtained by deleting elements from" used to say that a
 filter neither fabricates, duplicates nor reorders rows.
 */
module Seqs {

  /** True iff `xs` can be obtained from `ys` by deleting zero or more elements. */
  ghost predicate IsSubsequence<T>(xs: seq<T>, ys: seq<T>)
    decreases |ys|
  {
    if ys == [] then xs == []
    else
      || (xs != [] && xs[0] == ys[0] && IsSubsequence(xs[1..], ys[1..]))
      || IsSubsequence(xs, ys[1..])
  }

  /** Every sequence is a subsequence of itself. */
  lemma {:induction false} SubsequenceReflexive<T>(xs: seq<T>)
    ensures IsSubsequence(xs, xs)
    decreases |xs|
  {
    if xs != [] {
      SubsequenceReflexive(xs[1..]);
    }
  }

  /**
   The elements of `xs` for which `keep` holds, in their original order.
   This is the row selection a boolean mask performs.
   */
  function Where<T(!new)>(xs: seq<T>, keep: T -> bool): (r: seq<T>)
    ensures IsSubsequence(r, xs)
    ensures forall i :: 0 <= i < |r| ==> keep(r[i])
    ensures forall x :: x in r <==> x in xs && keep(x)
    ensures forall x :: multiset(r)[x] == if keep(x) then multiset(xs)[x] else 0
    decreases |xs|
  {
    if xs == [] then []
    else
      assert xs == [xs[0]] + xs[1..];
      if keep(xs[0]) then
        var rest := Where(xs[1..], keep);
        assert ([xs[0]] + rest)[1..] == rest;
        [xs[0]] + rest
      else
        Where(xs[1..], keep)
  }

  /** A mask that agrees with another on every element selects the same elements. */
  lemma {:induction false} WhereAgrees<T(!new)>(xs: seq<T>, f: T -> bool, g: T -> bool)
    requires forall x :: x in xs ==> f(x) == g(x)
    ensures Where(xs, f) == Where(xs, g)
    decreases |xs|
  {
    if xs != [] {
      WhereAgrees(xs[1..], f, g);
    }
  }

  /** A mask that holds of every element selects the whole sequence. */
  lemma {:induction false} WhereKeepsAll<T(!new)>(xs: seq<T>, keep: T -> bool)
    requires forall x :: x in xs ==> keep(x)
    ensures Where(xs, keep) == xs
    decreases |xs|
  {
    if xs != [] {
      WhereKeepsAll(xs[1..], keep);
      assert xs == [xs[0]] + xs[1..];
    }
  }

  /** The position of the first occurrence of `v` in `xs`. */
  function FirstIndex<T(==)>(xs: seq<T>, v: T): (i: nat)
    requires v in xs
    ensures i < |xs| && xs[i] == v
    ensures forall j :: 0 <= j < i ==> xs[j] != v
  {
    if xs[0] == v then 0 else 1 + FirstIndex(xs[1..], v)
  }

  /** Appending an element does not move the first occurrence of a value already present. */
  lemma FirstIndexOfPrefix<T>(xs: seq<T>, v: T)
    requires xs != [] && v in xs[..|xs| - 1]
    ensures FirstIndex(xs, v) == FirstIndex(xs[..|xs| - 1], v)
  {
    var init := xs[..|xs| - 1];
    var k := FirstIndex(init, v);
    assert xs[k] == init[k] == v;
    assert forall j :: 0 <= j < k ==> xs[j] == init[j] != v;
  }

  /** The value at the end of `xs`, when it does not occur before, first occurs there. */
  lemma FirstIndexOfLast<T>(xs: seq<T>)
    requires xs != [] && xs[|xs| - 1] !in xs[..|xs| - 1]
    ensures FirstIndex(xs, xs[|xs| - 1]) == |xs| - 1
  {
  }

  /**
   The distinct values of `xs`, each once, ordered by where they first occur
   in `xs`. These three facts determine the result uniquely.
   */
  function Unique<T(==,!new)>(xs: seq<T>): (u: seq<T>)
    ensures forall x :: x in u <==> x in xs
    ensures forall i, j :: 0 <= i < j < |u| ==> u[i] != u[j]
    ensures forall i, j :: 0 <= i < j < |u| ==> FirstIndex(xs, u[i]) < FirstIndex(xs, u[j])
    decreases |xs|
  {
    if xs == [] then []
    else
      var init := xs[..|xs| - 1];
      var last := xs[|xs| - 1];
      assert xs == init + [last];
      var u := Unique(init);
      forall x | x in u
        ensures FirstIndex(xs, x) == FirstIndex(init, x)
      {
        FirstIndexOfPrefix(xs, x);
      }
      if last in u then
        u
      else
        FirstIndexOfLast(xs);
        u + [last]
  }
}
