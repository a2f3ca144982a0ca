/**
  Python dictionaries keep their keys in insertion order, and the application
  iterates over them in that order (saving, exporting, displaying). A
  dictionary is modelled as a sequence of key/value pairs with distinct keys.
 */
module Dicts {

  /** The keys of an ordered dictionary. */
  function Keys<K, V>(d: seq<(K, V)>): set<K> {
    set i | 0 <= i < |d| :: d[i].0
  }

  /** No key occurs twice: every dictionary value satisfies this. */
  predicate DistinctKeys<K(==), V>(d: seq<(K, V)>) {
    forall i, j :: 0 <= i < j < |d| ==> d[i].0 != d[j].0
  }

  /**
    `d[k] = v`: an existing key keeps its position and gets the new value,
    a new key is appended at the end.
   */
  function Put<K(==), V>(d: seq<(K, V)>, k: K, v: V): (r: seq<(K, V)>)
    requires DistinctKeys(d)
    ensures Keys(r) == Keys(d) + {k}
    ensures DistinctKeys(r)
    ensures k !in Keys(d) ==> r == d + [(k, v)]
  {
    if |d| == 0 then
      KeysCons((k, v), []);
      [(k, v)]
    else
      TailKeys(d);
      if d[0].0 == k then
        KeysCons((k, v), d[1..]);
        DistinctCons((k, v), d[1..]);
        [(k, v)] + d[1..]
      else
        var rest := Put(d[1..], k, v);
        KeysCons(d[0], rest);
        DistinctCons(d[0], rest);
        assert k !in Keys(d) ==> rest == d[1..] + [(k, v)] && [d[0]] + rest == d + [(k, v)];
        [d[0]] + rest
  }

  /** Splitting off the first entry: the rest keeps distinct keys, none of them the first key. */
  lemma TailKeys<K, V>(d: seq<(K, V)>)
    requires |d| > 0 && DistinctKeys(d)
    ensures DistinctKeys(d[1..]) && d[0].0 !in Keys(d[1..])
    ensures Keys(d) == {d[0].0} + Keys(d[1..])
  {
    assert d == [d[0]] + d[1..];
    KeysCons(d[0], d[1..]);
    forall i | 0 <= i < |d[1..]|
      ensures d[1..][i].0 != d[0].0
    {
      assert d[1..][i] == d[i + 1];
    }
  }

  /** Putting an entry with a new key in front keeps the keys distinct. */
  lemma DistinctCons<K, V>(p: (K, V), d: seq<(K, V)>)
    requires DistinctKeys(d) && p.0 !in Keys(d)
    ensures DistinctKeys([p] + d)
  {
    var e := [p] + d;
    forall i, j | 0 <= i < j < |e|
      ensures e[i].0 != e[j].0
    {
      if i == 0 {
        assert e[j] == d[j - 1];
      } else {
        assert e[i] == d[i - 1] && e[j] == d[j - 1];
      }
    }
  }

  /**
    `d[k] = v` on an existing key overwrites it in place, and in every case the
    key ends up holding `v` while every other entry stays where it was.
   */
  lemma {:induction false} PutInPlace<K, V>(d: seq<(K, V)>, k: K, v: V)
    requires DistinctKeys(d)
    ensures k in Keys(d) ==> |Put(d, k, v)| == |d|
    ensures forall i :: 0 <= i < |Put(d, k, v)| && Put(d, k, v)[i].0 == k ==> Put(d, k, v)[i].1 == v
    ensures forall i :: 0 <= i < |d| && d[i].0 != k ==> i < |Put(d, k, v)| && Put(d, k, v)[i] == d[i]
    ensures forall i :: 0 <= i < |d| ==> i < |Put(d, k, v)| && Put(d, k, v)[i].0 == d[i].0
  {
    var r := Put(d, k, v);
    if |d| > 0 && d[0].0 != k {
      PutInPlace(d[1..], k, v);
      KeysCons(d[0], d[1..]);
      assert d == [d[0]] + d[1..];
      var rest := Put(d[1..], k, v);
      assert r == [d[0]] + rest;
      forall i | 0 < i < |d|
        ensures i < |r| && r[i].0 == d[i].0 && (d[i].0 != k ==> r[i] == d[i])
      {
        assert d[1..][i - 1] == d[i];
      }
    } else if |d| > 0 {
      assert DistinctKeys(d);
      forall i | 0 < i < |r|
        ensures r[i].0 != k
      {
        assert r[i] == d[i];
      }
    }
  }

  lemma KeysCons<K, V>(p: (K, V), d: seq<(K, V)>)
    ensures Keys([p] + d) == {p.0} + Keys(d)
  {
    var e := [p] + d;
    forall k | k in Keys(d)
      ensures k in Keys(e)
    {
      var i :| 0 <= i < |d| && d[i].0 == k;
      assert e[i + 1].0 == k;
    }
    assert e[0].0 == p.0;
  }

  /** The keys of all but the last pair, plus the last one's. */
  lemma KeysSnoc<K, V>(ps: seq<(K, V)>)
    requires |ps| > 0
    ensures Keys(ps) == Keys(ps[..|ps| - 1]) + {ps[|ps| - 1].0}
  {
    var front := ps[..|ps| - 1];
    assert forall i :: 0 <= i < |front| ==> front[i] == ps[i];
    forall k | k in Keys(ps)
      ensures k in Keys(front) + {ps[|ps| - 1].0}
    {
      var i :| 0 <= i < |ps| && ps[i].0 == k;
      if i < |front| {
        assert front[i].0 == k;
      }
    }
    forall k | k in Keys(front)
      ensures k in Keys(ps)
    {
      var i :| 0 <= i < |front| && front[i].0 == k;
      assert ps[i].0 == k;
    }
  }

  /** The dictionary built from `{}` by the assignments `d[k] = v`, one per pair, in order. */
  function FromPairs<K(==), V>(ps: seq<(K, V)>): (r: seq<(K, V)>)
    ensures DistinctKeys(r) && Keys(r) == Keys(ps)
    decreases |ps|
  {
    if |ps| == 0 then
      []
    else
      KeysSnoc(ps);
      Put(FromPairs(ps[..|ps| - 1]), ps[|ps| - 1].0, ps[|ps| - 1].1)
  }

  /** The position of the first pair with key `k`. */
  function FirstWith<K(==), V>(ps: seq<(K, V)>, k: K): (n: nat)
    requires k in Keys(ps)
    ensures n < |ps| && ps[n].0 == k
    ensures forall m :: 0 <= m < n ==> ps[m].0 != k
    decreases |ps|
  {
    var front := ps[..|ps| - 1];
    KeysSnoc(ps);
    assert forall m :: 0 <= m < |front| ==> front[m] == ps[m];
    if k in Keys(front) then
      FirstWith(front, k)
    else
      assert forall m :: 0 <= m < |front| ==> front[m].0 in Keys(front);
      |ps| - 1
  }

  /** The position of the last pair with key `k`. */
  function LastWith<K(==), V>(ps: seq<(K, V)>, k: K): (n: nat)
    requires k in Keys(ps)
    ensures n < |ps| && ps[n].0 == k
    ensures forall m :: n < m < |ps| ==> ps[m].0 != k
    decreases |ps|
  {
    if ps[|ps| - 1].0 == k then
      |ps| - 1
    else
      var front := ps[..|ps| - 1];
      KeysSnoc(ps);
      assert forall m :: 0 <= m < |front| ==> front[m] == ps[m];
      LastWith(front, k)
  }

  /** A key assigned several times holds the value of its last assignment. */
  lemma {:induction false} FromPairsKeepsLast<K, V>(ps: seq<(K, V)>)
    ensures forall i :: 0 <= i < |FromPairs(ps)| ==>
      (FromPairs(ps)[i].0 in Keys(ps) && FromPairs(ps)[i].1 == ps[LastWith(ps, FromPairs(ps)[i].0)].1)
    decreases |ps|
  {
    if |ps| > 0 {
      var front := ps[..|ps| - 1];
      FromPairsKeepsLast(front);
      forall i | 0 <= i < |FromPairs(ps)|
        ensures FromPairs(ps)[i].0 in Keys(ps)
        ensures FromPairs(ps)[i].1 == ps[LastWith(ps, FromPairs(ps)[i].0)].1
      {
        LastWithAfterPut(ps, i);
      }
    }
  }

  /**
    The `i`-th entry of `FromPairs(ps)`: the last pair itself when it has the
    last pair's key, and otherwise the `i`-th entry built from all but the
    last pair, whose last assignment is then among those.
   */
  lemma LastWithAfterPut<K, V>(ps: seq<(K, V)>, i: nat)
    requires |ps| > 0 && i < |FromPairs(ps)|
    ensures var front, r := ps[..|ps| - 1], FromPairs(ps);
      var d := FromPairs(front);
      && r[i].0 in Keys(ps)
      && (r[i].0 == ps[|ps| - 1].0 ==> r[i].1 == ps[|ps| - 1].1 && LastWith(ps, r[i].0) == |ps| - 1)
      && (r[i].0 != ps[|ps| - 1].0 ==>
            i < |d| && r[i] == d[i] && d[i].0 in Keys(front)
            && LastWith(ps, r[i].0) == LastWith(front, d[i].0) && ps[LastWith(front, d[i].0)] == front[LastWith(front, d[i].0)])
  {
    var front, r := ps[..|ps| - 1], FromPairs(ps);
    var k, v := ps[|ps| - 1].0, ps[|ps| - 1].1;
    var d := FromPairs(front);
    assert r == Put(d, k, v);
    PutInPlace(d, k, v);
    KeysSnoc(ps);
    assert r[i].0 in Keys(r);
    if r[i].0 != k {
      assert i < |d| by {
        if k !in Keys(d) {
          assert r == d + [(k, v)];
        }
      }
      assert d[i].0 in Keys(d);
    }
  }

  /**
    The keys come in the order of their first assignments: assigning an
    existing key again leaves it where it was.
   */
  lemma {:induction false} FromPairsKeepsFirstPlace<K, V>(ps: seq<(K, V)>)
    ensures forall i :: 0 <= i < |FromPairs(ps)| ==> FromPairs(ps)[i].0 in Keys(ps)
    ensures forall i, j :: 0 <= i < j < |FromPairs(ps)| ==>
      FirstWith(ps, FromPairs(ps)[i].0) < FirstWith(ps, FromPairs(ps)[j].0)
    decreases |ps|
  {
    var r := FromPairs(ps);
    assert forall i :: 0 <= i < |r| ==> r[i].0 in Keys(r);
    if |ps| > 0 {
      var front := ps[..|ps| - 1];
      var d := FromPairs(front);
      FromPairsKeepsFirstPlace(front);
      forall i, j | 0 <= i < j < |r|
        ensures FirstWith(ps, r[i].0) < FirstWith(ps, r[j].0)
      {
        FirstWithAfterPut(ps, i);
        FirstWithAfterPut(ps, j);
        assert FirstWith(ps, r[i].0) == FirstWith(front, d[i].0) < |front|;
      }
    }
  }

  /**
    Where the first assignment of the `i`-th key of `FromPairs(ps)` is, in
    terms of the dictionary built from all but the last pair.
   */
  lemma FirstWithAfterPut<K, V>(ps: seq<(K, V)>, i: nat)
    requires |ps| > 0 && i < |FromPairs(ps)|
    ensures var front, r := ps[..|ps| - 1], FromPairs(ps);
      var d := FromPairs(front);
      && r[i].0 in Keys(ps) && |r| <= |d| + 1
      && (i < |d| ==> r[i].0 == d[i].0 && d[i].0 in Keys(front) && FirstWith(ps, r[i].0) == FirstWith(front, d[i].0))
      && (i >= |d| ==> FirstWith(ps, r[i].0) == |ps| - 1)
  {
    var front, r := ps[..|ps| - 1], FromPairs(ps);
    var k, v := ps[|ps| - 1].0, ps[|ps| - 1].1;
    var d := FromPairs(front);
    assert r == Put(d, k, v);
    PutInPlace(d, k, v);
    KeysSnoc(ps);
    assert r[i].0 in Keys(r);
    if i < |d| {
      assert d[i].0 in Keys(d);
    } else {
      assert k !in Keys(d);
      assert r == d + [(k, v)];
    }
  }
}
