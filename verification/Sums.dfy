/** Sums, selections and concatenations over sequences, and that a sum does not depend on the order of its terms. */
module Sums {

  function Sum<T>(items: seq<T>, f: T -> real): real {
    if items == [] then 0.0 else Sum(items[..|items| - 1], f) + f(items[|items| - 1])
  }

  function Filter<T>(items: seq<T>, p: T -> bool): seq<T> {
    if items == [] then []
    else Filter(items[..|items| - 1], p) + if p(items[|items| - 1]) then [items[|items| - 1]] else []
  }

  /** `s[:n]` */
  function Take<T>(s: seq<T>, n: nat): seq<T> {
    if |s| > n then s[..n] else s
  }

  /** The items that the elements of `s` give, one element after the other. */
  ghost function FlatMap<S, T>(s: seq<S>, f: S -> seq<T>): seq<T> {
    if s == [] then [] else FlatMap(s[..|s| - 1], f) + f(s[|s| - 1])
  }

  lemma {:induction false} FilterSelects<T(!new)>(items: seq<T>, p: T -> bool)
    ensures forall x :: x in Filter(items, p) <==> x in items && p(x)
  {
    if items != [] {
      FilterSelects(items[..|items| - 1], p);
      assert items == items[..|items| - 1] + [items[|items| - 1]];
    }
  }

  lemma {:induction false} SumOfConcat<T>(a: seq<T>, b: seq<T>, f: T -> real)
    ensures Sum(a + b, f) == Sum(a, f) + Sum(b, f)
    decreases |b|
  {
    if b == [] {
      assert a + b == a;
    } else {
      var n := |b| - 1;
      assert (a + b)[..|a + b| - 1] == a + b[..n];
      assert (a + b)[|a + b| - 1] == b[n];
      SumOfConcat(a, b[..n], f);
    }
  }

  /** Where a permutation holds the last element of `a`, and what is left around it. */
  lemma TakeOut<T>(a: seq<T>, b: seq<T>) returns (i: nat)
    requires multiset(a) == multiset(b) && a != []
    ensures i < |b| && b[i] == a[|a| - 1]
    ensures multiset(b[..i] + b[i + 1..]) == multiset(a[..|a| - 1])
    ensures b == b[..i] + [b[i]] + b[i + 1..]
  {
    var x := a[|a| - 1];
    assert a == a[..|a| - 1] + [x];
    assert x in multiset(b);
    i :| 0 <= i < |b| && b[i] == x;
    assert b == b[..i] + [x] + b[i + 1..];
    assert multiset(b) == multiset(b[..i]) + multiset{x} + multiset(b[i + 1..]);
    assert multiset(a) == multiset(a[..|a| - 1]) + multiset{x};
    assert multiset(b[..i] + b[i + 1..]) == multiset(b) - multiset{x};
  }

  lemma {:induction false} SumsIgnoreOrder<T>(a: seq<T>, b: seq<T>, f: T -> real)
    requires multiset(a) == multiset(b)
    ensures Sum(a, f) == Sum(b, f)
    decreases |a|
  {
    if a == [] {
      assert |multiset(b)| == |b|;
    } else {
      var i := TakeOut(a, b);
      SumsIgnoreOrder(a[..|a| - 1], b[..i] + b[i + 1..], f);
      SumOfConcat(b[..i], b[i + 1..], f);
      SumOfConcat(b[..i] + [b[i]], b[i + 1..], f);
      SumOfConcat(b[..i], [b[i]], f);
      assert Sum([b[i]], f) == Sum([], f) + f(b[i]);
    }
  }

  lemma {:induction false} FlatMapOfConcat<S, T>(a: seq<S>, b: seq<S>, f: S -> seq<T>)
    ensures FlatMap(a + b, f) == FlatMap(a, f) + FlatMap(b, f)
    decreases |b|
  {
    if b == [] {
      assert a + b == a;
    } else {
      var n := |b| - 1;
      assert (a + b)[..|a + b| - 1] == a + b[..n];
      assert (a + b)[|a + b| - 1] == b[n];
      FlatMapOfConcat(a, b[..n], f);
    }
  }

  lemma {:induction false} InFlatMap<S, T>(s: seq<S>, f: S -> seq<T>, x: S, y: T)
    requires x in s && y in f(x)
    ensures y in FlatMap(s, f)
  {
    var front, last := s[..|s| - 1], s[|s| - 1];
    if x != last {
      assert s == front + [last] && x in front;
      InFlatMap(front, f, x, y);
    }
  }

  /** A sum over all that the elements give is the sum of their sums. */
  lemma {:induction false} SumOfFlatMap<S, T>(s: seq<S>, f: S -> seq<T>, g: T -> real, sums: S -> real)
    requires forall x | x in s :: sums(x) == Sum(f(x), g)
    ensures Sum(FlatMap(s, f), g) == Sum(s, sums)
  {
    if s != [] {
      var front, last := s[..|s| - 1], s[|s| - 1];
      assert last in s;
      SumOfFlatMap(front, f, g, sums);
      SumOfConcat(FlatMap(front, f), f(last), g);
    }
  }

  /** Sequences with the same terms have the same sum. */
  lemma {:induction false} SumOfTerms<S, T>(a: seq<S>, b: seq<T>, f: S -> real, g: T -> real)
    requires |a| == |b| && forall i | 0 <= i < |a| :: f(a[i]) == g(b[i])
    ensures Sum(a, f) == Sum(b, g)
  {
    if a != [] {
      SumOfTerms(a[..|a| - 1], b[..|b| - 1], f, g);
    }
  }

  /** One element in front. */
  lemma FlatMapOfCons<S, T>(x: S, rest: seq<S>, f: S -> seq<T>)
    ensures FlatMap([x] + rest, f) == f(x) + FlatMap(rest, f)
  {
    FlatMapOfConcat([x], rest, f);
    assert FlatMap([x], f) == FlatMap([], f) + f(x);
  }

  lemma {:induction false} FlatMapsOfPermutations<S, T>(a: seq<S>, b: seq<S>, f: S -> seq<T>)
    requires multiset(a) == multiset(b)
    ensures multiset(FlatMap(a, f)) == multiset(FlatMap(b, f))
    decreases |a|
  {
    if a == [] {
      assert |multiset(b)| == |b|;
    } else {
      var i := TakeOut(a, b);
      FlatMapsOfPermutations(a[..|a| - 1], b[..i] + b[i + 1..], f);
      FlatMapOfConcat(b[..i], b[i + 1..], f);
      FlatMapOfConcat(b[..i] + [b[i]], b[i + 1..], f);
      FlatMapOfConcat(b[..i], [b[i]], f);
      assert FlatMap([b[i]], f) == FlatMap([], f) + f(b[i]);
    }
  }

  lemma {:induction false} FlatMapMembers<S(!new), T(!new)>(s: seq<S>, f: S -> seq<T>)
    ensures forall y :: y in FlatMap(s, f) <==> exists x | x in s :: y in f(x)
  {
    if s != [] {
      FlatMapMembers(s[..|s| - 1], f);
      assert s == s[..|s| - 1] + [s[|s| - 1]];
    }
  }
}
