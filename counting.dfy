/**
 * `collections.Counter` over a list, as its `items()` show it: one
 * `(value, count)` entry per distinct value, in order of first occurrence.
 */
module Counting {

  /** How many times `x` occurs in `xs`. */
  function Occurrences<T(==,!new)>(xs: seq<T>, x: T): (n: nat)
    ensures n == 0 <==> x !in xs
    ensures n <= |xs|
  {
    if xs == [] then 0
    else
      var init, last := xs[..|xs| - 1], xs[|xs| - 1];
      assert xs == init + [last];
      Occurrences(init, x) + (if last == x then 1 else 0)
  }

  /** The values of a tally, in order. */
  function Keys<T>(t: seq<(T, nat)>): (ks: seq<T>)
    ensures |ks| == |t|
    ensures forall i :: 0 <= i < |t| ==> ks[i] == t[i].0
  {
    if t == [] then [] else [t[0].0] + Keys(t[1..])
  }

  /** The sum of the counts of a tally. */
  function Total<T>(t: seq<(T, nat)>): nat
  {
    if t == [] then 0 else t[0].1 + Total(t[1..])
  }

  predicate DistinctKeys<T(==,!new)>(t: seq<(T, nat)>)
  {
    forall i, j :: 0 <= i < j < |t| ==> t[i].0 != t[j].0
  }

  /** `counter[x] += 1`: bump the entry of `x`, or add `(x, 1)` at the end. */
  function Bump<T(==,!new)>(t: seq<(T, nat)>, x: T): (r: seq<(T, nat)>)
    requires DistinctKeys(t)
    ensures |r| == if x in Keys(t) then |t| else |t| + 1
    ensures forall i :: 0 <= i < |t| ==> r[i].0 == t[i].0 && r[i].1 == t[i].1 + (if t[i].0 == x then 1 else 0)
    ensures x !in Keys(t) ==> r[|t|] == (x, 1)
    ensures Total(r) == Total(t) + 1
  {
    if t == [] then [(x, 1)]
    else if t[0].0 == x then
      assert x in Keys(t) by {
        assert Keys(t)[0] == x;
      }
      [(x, t[0].1 + 1)] + t[1..]
    else
      var rest := Bump(t[1..], x);
      assert x in Keys(t) <==> x in Keys(t[1..]) by {
        assert Keys(t) == [t[0].0] + Keys(t[1..]);
      }
      [t[0]] + rest
  }

  /** The values of `Bump(t, x)` are those of `t`, followed by `x` when it is new. */
  lemma BumpKeys<T(!new)>(t: seq<(T, nat)>, x: T)
    requires DistinctKeys(t)
    ensures Keys(Bump(t, x)) == if x in Keys(t) then Keys(t) else Keys(t) + [x]
  {
    var r := Bump(t, x);
    var expected := if x in Keys(t) then Keys(t) else Keys(t) + [x];
    assert |Keys(r)| == |expected|;
    forall i | 0 <= i < |r|
      ensures Keys(r)[i] == expected[i]
    {
      if i < |t| {
        assert Keys(r)[i] == t[i].0 == Keys(t)[i];
      } else {
        assert r[i] == (x, 1);
      }
    }
  }

  /** Bumping keeps one entry per value. */
  lemma BumpDistinct<T(!new)>(t: seq<(T, nat)>, x: T)
    requires DistinctKeys(t)
    ensures DistinctKeys(Bump(t, x))
  {
    var r := Bump(t, x);
    forall i, j | 0 <= i < j < |r|
      ensures r[i].0 != r[j].0
    {
      if j == |t| {
        assert x !in Keys(t);
        assert Keys(t)[i] == t[i].0;
      }
    }
  }

  lemma OccurrencesAppend<T(!new)>(xs: seq<T>, x: T, y: T)
    ensures Occurrences(xs + [x], y) == Occurrences(xs, y) + (if x == y then 1 else 0)
  {
    assert (xs + [x])[..|xs|] == xs;
  }

  /**
   * Counting one more value keeps a tally of `xs` a tally of `xs + [x]`:
   * the same values plus `x`, each with its new number of occurrences.
   */
  lemma BumpCounts<T(!new)>(t: seq<(T, nat)>, xs: seq<T>, x: T)
    requires DistinctKeys(t)
    requires forall y :: y in Keys(t) <==> y in xs
    requires forall i :: 0 <= i < |t| ==> t[i].1 == Occurrences(xs, t[i].0)
    ensures forall y :: y in Keys(Bump(t, x)) <==> y in xs + [x]
    ensures forall i :: 0 <= i < |Bump(t, x)| ==> Bump(t, x)[i].1 == Occurrences(xs + [x], Bump(t, x)[i].0)
  {
    var r := Bump(t, x);
    BumpKeys(t, x);
    forall i | 0 <= i < |r|
      ensures r[i].1 == Occurrences(xs + [x], r[i].0)
    {
      OccurrencesAppend(xs, x, r[i].0);
      if i == |t| {
        assert x !in xs;
      } else {
        assert r[i].0 == t[i].0;
      }
    }
    forall y
      ensures y in Keys(r) <==> y in xs + [x]
    {
      assert y in xs + [x] <==> y in xs || y == x;
    }
  }

  /**
   * `Counter(xs).items()`: distinct values, in order of first occurrence,
   * each with its number of occurrences; the values are exactly those of
   * `xs` and the counts add up to `|xs|`.
   */
  function Tally<T(==,!new)>(xs: seq<T>): (t: seq<(T, nat)>)
    ensures DistinctKeys(t)
    ensures forall x :: x in Keys(t) <==> x in xs
    ensures forall i :: 0 <= i < |t| ==> t[i].1 == Occurrences(xs, t[i].0)
    ensures Total(t) == |xs|
  {
    if xs == [] then []
    else
      var init, last := xs[..|xs| - 1], xs[|xs| - 1];
      assert xs == init + [last];
      var prev := Tally(init);
      BumpDistinct(prev, last);
      BumpCounts(prev, init, last);
      Bump(prev, last)
  }

  /** A list without repeats has as many elements as its set of values. */
  lemma {:induction false} DistinctCard<T>(ks: seq<T>)
    requires forall i, j :: 0 <= i < j < |ks| ==> ks[i] != ks[j]
    ensures |set x | x in ks| == |ks|
  {
    if ks != [] {
      var rest := ks[1..];
      DistinctCard(rest);
      assert (set x | x in ks) == {ks[0]} + (set x | x in rest) by {
        assert ks == [ks[0]] + rest;
      }
      forall j | 0 <= j < |rest|
        ensures rest[j] != ks[0]
      {
        assert rest[j] == ks[j + 1];
      }
      assert ks[0] !in rest;
    }
  }

  /** `len(Counter(xs))`: the number of entries is the number of distinct values. */
  lemma TallySize<T(!new)>(xs: seq<T>)
    ensures |Tally(xs)| == |set x | x in xs|
  {
    var t := Tally(xs);
    DistinctCard(Keys(t));
    assert (set x | x in Keys(t)) == (set x | x in xs);
  }
}
