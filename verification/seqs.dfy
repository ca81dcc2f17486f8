/** `Array.prototype.filter` and the order it keeps. */
module Seqs {

  /** Concatenation regroups freely. */
  lemma AppendAssociative<T>(a: seq<T>, b: seq<T>, c: seq<T>)
    ensures (a + b) + c == a + (b + c)
  {
  }

  /** A prefix of a prefix is a prefix. */
  lemma PrefixOfPrefix<T>(a: seq<T>, b: seq<T>, c: seq<T>)
    requires a <= b && b <= c
    ensures a <= c
  {
    assert c[..|a|] == b[..|a|];
  }

  /** `r` is `xs` with some elements deleted, the rest in their original order. */
  predicate IsSubsequence<T(==)>(r: seq<T>, xs: seq<T>)
    decreases |xs|
  {
    if r == [] then true
    else if xs == [] then false
    else (r[0] == xs[0] && IsSubsequence(r[1..], xs[1..])) || IsSubsequence(r, xs[1..])
  }

  /** `xs.filter(p)`: exactly the elements satisfying `p`, in their original order. */
  function Filter<T(==, !new)>(xs: seq<T>, p: T -> bool): (r: seq<T>)
    ensures |r| <= |xs|
    ensures forall x :: x in r <==> x in xs && p(x)
    ensures forall x :: multiset(r)[x] == if p(x) then multiset(xs)[x] else 0
    ensures IsSubsequence(r, xs)
  {
    if xs == [] then []
    else
      assert xs == [xs[0]] + xs[1..];
      if p(xs[0]) then [xs[0]] + Filter(xs[1..], p) else Filter(xs[1..], p)
  }

  /** A filter whose predicate holds everywhere keeps the whole sequence. */
  lemma {:induction false} FilterKeepsAll<T(!new)>(xs: seq<T>, p: T -> bool)
    requires forall x :: x in xs ==> p(x)
    ensures Filter(xs, p) == xs
  {
    if xs != [] {
      assert xs[0] in xs;
      forall x | x in xs[1..] ensures p(x) {
        assert x in xs;
      }
      FilterKeepsAll(xs[1..], p);
      assert xs == [xs[0]] + xs[1..];
    }
  }

  /** The filter of a non-empty sequence: its head if kept, then the filter of the rest. */
  lemma FilterOfNonEmpty<T(!new)>(xs: seq<T>, p: T -> bool)
    requires xs != []
    ensures Filter(xs, p) == (if p(xs[0]) then [xs[0]] else []) + Filter(xs[1..], p)
  {
  }

  /** Filtering distributes over concatenation. */
  lemma {:induction false} FilterAppend<T(!new)>(xs: seq<T>, ys: seq<T>, p: T -> bool)
    ensures Filter(xs + ys, p) == Filter(xs, p) + Filter(ys, p)
  {
    if xs == [] {
      assert xs + ys == ys;
    } else {
      var x := xs[0];
      assert (xs + ys)[0] == x;
      assert (xs + ys)[1..] == xs[1..] + ys;
      FilterAppend(xs[1..], ys, p);
      FilterOfNonEmpty(xs + ys, p);
      FilterOfNonEmpty(xs, p);
      AppendAssociative(if p(x) then [x] else [], Filter(xs[1..], p), Filter(ys, p));
    }
  }

  /** Text without `stop` followed by text that starts with it can be split back at the first `stop`. */
  lemma SplitAtStop<T>(x1: seq<T>, t1: seq<T>, x2: seq<T>, t2: seq<T>, stop: T)
    requires x1 + t1 == x2 + t2
    requires forall i :: 0 <= i < |x1| ==> x1[i] != stop
    requires forall i :: 0 <= i < |x2| ==> x2[i] != stop
    requires t1 != [] && t1[0] == stop && t2 != [] && t2[0] == stop
    ensures x1 == x2 && t1 == t2
  {
    FirstStop(x1, t1, stop);
    FirstStop(x2, t2, stop);
    assert x1 == (x1 + t1)[..|x1|];
    assert x2 == (x2 + t2)[..|x2|];
  }

  /** In text without `stop` followed by text that starts with it, the first `stop` is where the first part ends. */
  lemma FirstStop<T>(x: seq<T>, t: seq<T>, stop: T)
    requires forall i :: 0 <= i < |x| ==> x[i] != stop
    requires t != [] && t[0] == stop
    ensures (x + t)[|x|] == stop
    ensures forall i :: 0 <= i < |x| ==> (x + t)[i] != stop
  {
  }

  /** A common prefix can be dropped from both sides of an equation. */
  lemma DropCommonPrefix<T>(p: seq<T>, x: seq<T>, y: seq<T>)
    requires p + x == p + y
    ensures x == y
  {
    assert x == (p + x)[|p|..];
    assert y == (p + y)[|p|..];
  }
}
