/**
 Totals over finite maps and enumerations of finite sets. A Go map has no
 order, so summing its values (or ranging over its keys) is modelled by
 picking keys one at a time; the lemmas show the pick does not matter.
 */
module Sums {

  /** Some element of a non-empty set (an arbitrary but fixed choice). */
  ghost function Pick<K>(s: set<K>): (x: K)
    requires s != {}
    ensures x in s
  {
    var x :| x in s; x
  }

  /** The sum of all values of a finite map. */
  ghost function Sum<K>(m: map<K, int>): int
    decreases |m|
  {
    if m == map[] then 0
    else
      var k := Pick(m.Keys);
      assert |m - {k}| < |m| by { CardRemove(m, k); }
      m[k] + Sum(m - {k})
  }

  lemma CardRemove<K, V>(m: map<K, V>, k: K)
    requires k in m
    ensures |m - {k}| == |m| - 1
  {
    assert (m - {k}).Keys == m.Keys - {k};
  }

  /** Any key may be taken out first: the sum does not depend on the order of the keys. */
  lemma {:induction false} SumRemove<K>(m: map<K, int>, k: K)
    requires k in m
    ensures Sum(m) == m[k] + Sum(m - {k})
    decreases |m|
  {
    var j := Pick(m.Keys);
    if j != k {
      CardRemove(m, j);
      CardRemove(m, k);
      SumRemove(m - {j}, k);
      SumRemove(m - {k}, j);
      assert m - {j} - {k} == m - {k} - {j};
    }
  }

  /** No element occurs twice. */
  predicate Distinct<K(==)>(xs: seq<K>)
  {
    forall i, j :: 0 <= i < j < |xs| ==> xs[i] != xs[j]
  }

  /** `xs` lists every element of `s` exactly once. */
  ghost predicate Enumerates<K(!new)>(xs: seq<K>, s: set<K>)
  {
    Distinct(xs) && forall x :: x in xs <==> x in s
  }

  /** Every finite set has an enumeration (the order a Go `range` might visit it in). */
  ghost function Enumerate<K(!new)>(s: set<K>): (xs: seq<K>)
    ensures Enumerates(xs, s)
    decreases |s|
  {
    if s == {} then []
    else
      var x := Pick(s);
      [x] + Enumerate(s - {x})
  }

  /** Dropping the head of an enumeration enumerates the rest of the set. */
  lemma EnumeratesTail<K(!new)>(xs: seq<K>, s: set<K>)
    requires Enumerates(xs, s) && xs != []
    ensures Enumerates(xs[1..], s - {xs[0]})
  {
    forall y
      ensures y in xs[1..] <==> y in s - {xs[0]}
    {
      if y in xs[1..] {
        var k :| 0 <= k < |xs[1..]| && xs[1..][k] == y;
        assert xs[k + 1] == y;
      }
      if y in s - {xs[0]} {
        assert y in xs;
        var k :| 0 <= k < |xs| && xs[k] == y;
        assert k != 0;
        assert xs[1..][k - 1] == y;
      }
    }
  }

  /** An enumeration of a finite set is as long as the set is large. */
  lemma {:induction false} EnumeratesCard<K(!new)>(xs: seq<K>, s: set<K>)
    requires Enumerates(xs, s)
    ensures |xs| == |s|
    decreases |xs|
  {
    if xs != [] {
      EnumeratesTail(xs, s);
      EnumeratesCard(xs[1..], s - {xs[0]});
    }
  }
}
