/** Sums over sequences, and how they change when one place does. */
module Counting {

  function Sum<T>(f: T -> nat, xs: seq<T>): (n: nat) {
    if xs == [] then 0 else Sum(f, xs[..|xs| - 1]) + f(xs[|xs| - 1])
  }

  lemma {:induction false} SumUpdate<T>(f: T -> nat, xs: seq<T>, i: nat, x: T)
    requires i < |xs|
    ensures Sum(f, xs[i := x]) == Sum(f, xs) + f(x) - f(xs[i])
  {
    var last := |xs| - 1;
    if i < last {
      SumUpdate(f, xs[..last], i, x);
      assert xs[i := x][..last] == xs[..last][i := x];
    } else {
      assert xs[i := x][..last] == xs[..last];
    }
  }

  lemma SumAppend<T>(f: T -> nat, xs: seq<T>, x: T)
    ensures Sum(f, xs + [x]) == Sum(f, xs) + f(x)
  {
    assert (xs + [x])[..|xs|] == xs;
  }

  /** A place counts no more than the whole. */
  lemma {:induction false} SumAtLeast<T>(f: T -> nat, xs: seq<T>, i: nat)
    requires i < |xs|
    ensures f(xs[i]) <= Sum(f, xs)
  {
    if i < |xs| - 1 {
      SumAtLeast(f, xs[..|xs| - 1], i);
    }
  }

  lemma {:induction false} SumWitness<T>(f: T -> nat, xs: seq<T>) returns (i: nat)
    requires Sum(f, xs) > 0
    ensures i < |xs| && f(xs[i]) > 0
  {
    i := |xs| - 1;
    if f(xs[i]) == 0 {
      i := SumWitness(f, xs[..i]);
    }
  }

  lemma {:induction false} SumZero<T>(f: T -> nat, xs: seq<T>)
    requires forall i | 0 <= i < |xs| :: f(xs[i]) == 0
    ensures Sum(f, xs) == 0
  {
    if xs != [] {
      SumZero(f, xs[..|xs| - 1]);
    }
  }

  lemma {:induction false} SumMonotone<T>(f: T -> nat, xs: seq<T>, ys: seq<T>)
    requires |xs| == |ys| && forall i | 0 <= i < |xs| :: f(xs[i]) <= f(ys[i])
    ensures Sum(f, xs) <= Sum(f, ys)
  {
    if xs != [] {
      SumMonotone(f, xs[..|xs| - 1], ys[..|ys| - 1]);
    }
  }

  /** Places that each count at most one are no fewer than what they count together. */
  lemma {:induction false} SumBounded<T>(f: T -> nat, xs: seq<T>)
    requires forall x :: f(x) <= 1
    ensures Sum(f, xs) <= |xs|
  {
    if xs != [] {
      SumBounded(f, xs[..|xs| - 1]);
    }
  }

  /** The union of what the places hold. */
  function Union<T, U>(f: T -> multiset<U>, xs: seq<T>): multiset<U> {
    if xs == [] then multiset{} else Union(f, xs[..|xs| - 1]) + f(xs[|xs| - 1])
  }

  lemma {:induction false} UnionUpdate<T, U>(f: T -> multiset<U>, xs: seq<T>, i: nat, x: T)
    requires i < |xs|
    ensures Union(f, xs[i := x]) + f(xs[i]) == Union(f, xs) + f(x)
  {
    var last := |xs| - 1;
    if i < last {
      UnionUpdate(f, xs[..last], i, x);
      assert xs[i := x][..last] == xs[..last][i := x];
      var a, b, c, d, e := Union(f, xs[..last][i := x]), Union(f, xs[..last]), f(xs[last]), f(xs[i]), f(x);
      assert (a + c) + d == (a + d) + c == (b + e) + c == (b + c) + e;
    } else {
      assert xs[i := x][..last] == xs[..last];
    }
  }

  lemma UnionAppend<T, U>(f: T -> multiset<U>, xs: seq<T>, x: T)
    ensures Union(f, xs + [x]) == Union(f, xs) + f(x)
  {
    assert (xs + [x])[..|xs|] == xs;
  }

  lemma {:induction false} UnionSame<T, U>(f: T -> multiset<U>, xs: seq<T>, ys: seq<T>)
    requires |xs| == |ys| && forall i | 0 <= i < |xs| :: f(xs[i]) == f(ys[i])
    ensures Union(f, xs) == Union(f, ys)
  {
    if xs != [] {
      UnionSame(f, xs[..|xs| - 1], ys[..|ys| - 1]);
    }
  }

  lemma {:induction false} UnionEmpty<T, U>(f: T -> multiset<U>, xs: seq<T>)
    requires forall i | 0 <= i < |xs| :: f(xs[i]) == multiset{}
    ensures Union(f, xs) == multiset{}
  {
    if xs != [] {
      UnionEmpty(f, xs[..|xs| - 1]);
    }
  }
}
