/** Counting and summing over sequences, the arithmetic behind the click
    counts and the analytics aggregates: how often a key occurs, how much
    weight it carries, and the fact that summing the per-key totals over the
    distinct keys gives the grand total. */
module Tally {

  /** How many times `x` occurs in `s`. */
  function Count<T(==)>(s: seq<T>, x: T): nat
    ensures Count(s, x) <= |s|
    ensures Count(s, x) > 0 <==> x in s
  {
    if s == [] then 0
    else Count(s[..|s| - 1], x) + (if s[|s| - 1] == x then 1 else 0)
  }

  /** The sum of the weights paired with `x`. */
  function Weight<K(==)>(s: seq<(K, int)>, x: K): int {
    if s == [] then 0
    else Weight(s[..|s| - 1], x) + (if s[|s| - 1].0 == x then s[|s| - 1].1 else 0)
  }

  /** The sum of all weights. */
  function Total<K>(s: seq<(K, int)>): int {
    if s == [] then 0 else Total(s[..|s| - 1]) + s[|s| - 1].1
  }

  /** The keys of the pairs, in order. */
  function KeysOf<K>(s: seq<(K, int)>): (ks: seq<K>)
    ensures |ks| == |s| && forall i :: 0 <= i < |s| ==> ks[i] == s[i].0
  {
    seq(|s|, i requires 0 <= i < |s| => s[i].0)
  }

  /** Each element paired with weight 1. */
  function WithOnes<T>(s: seq<T>): (r: seq<(T, int)>)
    ensures |r| == |s| && forall i :: 0 <= i < |s| ==> r[i] == (s[i], 1)
  {
    seq(|s|, i requires 0 <= i < |s| => (s[i], 1))
  }

  predicate NoDuplicates<T(==)>(s: seq<T>) {
    forall i, j :: 0 <= i < j < |s| ==> s[i] != s[j]
  }

  /** The elements of `s` in order of first occurrence, each once (the
      iteration order of a JavaScript `Map` filled from `s`). */
  function Distinct<T(==,!new)>(s: seq<T>): (r: seq<T>)
    ensures NoDuplicates(r)
    ensures forall x :: x in r <==> x in s
    ensures |r| <= |s|
  {
    if s == [] then []
    else
      var d := Distinct(s[..|s| - 1]);
      assert forall x :: x in s <==> x in s[..|s| - 1] || x == s[|s| - 1] by {
        assert s == s[..|s| - 1] + [s[|s| - 1]];
      }
      if s[|s| - 1] in d then d else d + [s[|s| - 1]]
  }

  /** `sum over k in ks of Weight(s, k)` */
  function SumWeights<K(==)>(ks: seq<K>, s: seq<(K, int)>): int {
    if ks == [] then 0 else Weight(s, ks[0]) + SumWeights(ks[1..], s)
  }

  /** A count is the weight of the same elements paired with 1. */
  lemma {:induction false} CountIsWeight<T>(s: seq<T>, x: T)
    ensures Count(s, x) == Weight(WithOnes(s), x)
  {
    if s != [] {
      CountIsWeight(s[..|s| - 1], x);
      assert WithOnes(s)[..|s| - 1] == WithOnes(s[..|s| - 1]);
    }
  }

  /** Appending a pair adds its weight to its own key's sum only. */
  lemma {:induction false} SumWeightsAppend<K>(ks: seq<K>, s: seq<(K, int)>, p: (K, int))
    requires NoDuplicates(ks)
    ensures SumWeights(ks, s + [p]) == SumWeights(ks, s) + (if p.0 in ks then p.1 else 0)
  {
    if ks != [] {
      assert (s + [p])[..|s + [p]| - 1] == s;
      assert NoDuplicates(ks[1..]) by {
        forall i, j | 0 <= i < j < |ks[1..]| ensures ks[1..][i] != ks[1..][j] {
          assert ks[1..][i] == ks[i + 1] && ks[1..][j] == ks[j + 1];
        }
      }
      SumWeightsAppend(ks[1..], s, p);
      if p.0 == ks[0] {
        assert p.0 !in ks[1..] by {
          forall i | 0 <= i < |ks[1..]| ensures ks[1..][i] != p.0 { assert ks[1..][i] == ks[i + 1]; }
        }
      } else {
        assert p.0 in ks <==> p.0 in ks[1..] by {
          assert ks == [ks[0]] + ks[1..];
        }
      }
    }
  }

  /** Adding a key that carries no weight leaves the sum unchanged. */
  lemma {:induction false} SumWeightsExtend<K>(ks: seq<K>, x: K, s: seq<(K, int)>)
    requires x !in KeysOf(s)
    ensures SumWeights(ks + [x], s) == SumWeights(ks, s)
  {
    WeightAbsent(s, x);
    if ks != [] {
      assert (ks + [x])[1..] == ks[1..] + [x];
      SumWeightsExtend(ks[1..], x, s);
    } else {
      assert ([x])[1..] == [];
    }
  }

  /** A key that does not occur carries no weight. */
  lemma {:induction false} WeightAbsent<K>(s: seq<(K, int)>, x: K)
    requires x !in KeysOf(s)
    ensures Weight(s, x) == 0
  {
    if s != [] {
      assert KeysOf(s[..|s| - 1]) == KeysOf(s)[..|s| - 1];
      assert KeysOf(s)[|s| - 1] == s[|s| - 1].0;
      WeightAbsent(s[..|s| - 1], x);
    }
  }

  /** Summing each distinct key's weight gives the total weight: grouping
      by key neither loses nor double-counts anything. */
  lemma {:induction false} WeightsOverDistinct<K(!new)>(s: seq<(K, int)>)
    ensures SumWeights(Distinct(KeysOf(s)), s) == Total(s)
  {
    if s != [] {
      var init := s[..|s| - 1];
      var p := s[|s| - 1];
      assert s == init + [p];
      assert KeysOf(s)[..|s| - 1] == KeysOf(init);
      var d := Distinct(KeysOf(init));
      WeightsOverDistinct(init);
      SumWeightsAppend(d, init, p);
      if p.0 !in d {
        SumWeightsAppend(d + [p.0], init, p);
        assert NoDuplicates(d + [p.0]);
        SumWeightsExtend(d, p.0, init);
        assert (d + [p.0])[|d|] == p.0;
        assert p.0 in d + [p.0];
      }
    }
  }

  /** Every element counted once per occurrence: the counts over the
      distinct elements add up to the length. */
  lemma CountsOverDistinct<T(!new)>(s: seq<T>)
    ensures SumWeights(Distinct(s), WithOnes(s)) == |s|
  {
    assert KeysOf(WithOnes(s)) == s;
    WeightsOverDistinct(WithOnes(s));
    TotalOfOnes(s);
  }

  lemma {:induction false} TotalOfOnes<T>(s: seq<T>)
    ensures Total(WithOnes(s)) == |s|
  {
    if s != [] {
      assert WithOnes(s)[..|s| - 1] == WithOnes(s[..|s| - 1]);
      TotalOfOnes(s[..|s| - 1]);
    }
  }

  /** Counting one element further along a sequence. */
  lemma CountPrefixStep<T>(s: seq<T>, i: nat, x: T)
    requires i < |s|
    ensures Count(s[..i + 1], x) == Count(s[..i], x) + (if s[i] == x then 1 else 0)
  {
    assert s[..i + 1][..i] == s[..i];
  }

  /** The first occurrences one element further along a sequence. */
  lemma DistinctPrefixStep<T(!new)>(s: seq<T>, i: nat)
    requires i < |s|
    ensures Distinct(s[..i + 1]) == if s[i] in Distinct(s[..i]) then Distinct(s[..i]) else Distinct(s[..i]) + [s[i]]
  {
    assert s[..i + 1][..i] == s[..i];
  }
}
