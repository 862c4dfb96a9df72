/** Sequence helpers: `Array.prototype.flatMap` with the identity, and
    order-preserving sub-sequences. */
module Seqs {

  /** Concatenates the lists in order, as `flatMap(x => x)` does. */
  function Flatten<T(==,!new)>(xss: seq<seq<T>>): (r: seq<T>)
    ensures forall x :: x in r <==> exists i :: 0 <= i < |xss| && x in xss[i]
    decreases xss
  {
    if xss == [] then [] else xss[0] + Flatten(xss[1..])
  }

  /** Flattening a concatenation is concatenating the flattenings. */
  lemma {:induction false} FlattenAppend<T(!new)>(a: seq<seq<T>>, b: seq<seq<T>>)
    ensures Flatten(a + b) == Flatten(a) + Flatten(b)
    decreases a
  {
    if a == [] {
      assert a + b == b;
    } else {
      assert (a + b)[1..] == a[1..] + b;
      FlattenAppend(a[1..], b);
    }
  }

  /** Element `i`'s items sit between those before it and those after it. */
  lemma {:induction false} FlattenAround<T(!new)>(xss: seq<seq<T>>, i: nat)
    requires i < |xss|
    ensures Flatten(xss) == Flatten(xss[..i]) + xss[i] + Flatten(xss[i + 1..])
    decreases i
  {
    if i == 0 {
      assert xss[..0] == [];
    } else {
      var tl := xss[1..];
      FlattenAround(tl, i - 1);
      assert tl[..i - 1] == xss[..i][1..];
      assert tl[i - 1] == xss[i] && tl[i..] == xss[i + 1..];
      assert xss[..i][0] == xss[0];
    }
  }

  /** `xs` is obtained from `ys` by deleting elements, keeping the order. */
  predicate IsSubsequence<T(==)>(xs: seq<T>, ys: seq<T>)
    decreases ys
  {
    if xs == [] then true
    else if ys == [] then false
    else if xs[0] == ys[0] then IsSubsequence(xs[1..], ys[1..])
    else IsSubsequence(xs, ys[1..])
  }

  /** Dropping the first element of a sub-sequence keeps it a sub-sequence. */
  lemma {:induction false} SubsequenceTail<T>(xs: seq<T>, ys: seq<T>)
    requires xs != [] && IsSubsequence(xs, ys)
    ensures IsSubsequence(xs[1..], ys)
    decreases ys, 0
  {
    if xs[0] != ys[0] {
      SubsequenceTail(xs, ys[1..]);
      SubsequenceCons(xs[1..], ys[0], ys[1..]);
      assert [ys[0]] + ys[1..] == ys;
    } else {
      SubsequenceCons(xs[1..], ys[0], ys[1..]);
      assert [ys[0]] + ys[1..] == ys;
    }
  }

  /** A sub-sequence of `ys` is one of any extension of `ys` at the front. */
  lemma {:induction false} SubsequenceCons<T>(xs: seq<T>, y: T, ys: seq<T>)
    requires IsSubsequence(xs, ys)
    ensures IsSubsequence(xs, [y] + ys)
    decreases ys, 1
  {
    assert ([y] + ys)[1..] == ys;
    if xs != [] && xs[0] == y {
      SubsequenceTail(xs, ys);
    }
  }
}
