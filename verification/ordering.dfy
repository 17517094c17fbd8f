/**
 * Ordered association lists: the shape of the immutable maps the storage
 * model holds (insertion order, distinct keys), a stable sort of their entries
 * by a comparator on keys, and the map such a list denotes.
 *
 * A comparator is modelled as its "less than or equal" relation; the
 * comparators the storage model sorts with are assumed to be total orders.
 */
module Ordering {

  ghost predicate TotalOrder<T(!new)>(le: (T, T) -> bool) {
    && (forall x :: le(x, x))
    && (forall x, y :: le(x, y) && le(y, x) ==> x == y)
    && (forall x, y, z :: le(x, y) && le(y, z) ==> le(x, z))
    && (forall x, y :: le(x, y) || le(y, x))
  }

  /** The converse relation (`Comparator.reversed`): `Reverse(le)(a, b)` holds when `le(b, a)` does. */
  function Reverse<T>(le: (T, T) -> bool): (T, T) -> bool {
    (a, b) => le(b, a)
  }

  /** The reverse of a total order is a total order. */
  lemma ReverseTotalOrder<T(!new)>(le: (T, T) -> bool)
    requires TotalOrder(le)
    ensures TotalOrder(Reverse(le))
  {
  }

  ghost predicate SortedByKey<K, V>(xs: seq<(K, V)>, le: (K, K) -> bool) {
    forall i, j :: 0 <= i < j < |xs| ==> le(xs[i].0, xs[j].0)
  }

  predicate DistinctKeys<K(==), V>(xs: seq<(K, V)>) {
    forall i, j :: 0 <= i < j < |xs| ==> xs[i].0 != xs[j].0
  }

  function KeySet<K, V>(xs: seq<(K, V)>): set<K> {
    set i | 0 <= i < |xs| :: xs[i].0
  }

  lemma KeySetCons<K, V>(x: (K, V), xs: seq<(K, V)>)
    ensures KeySet([x] + xs) == {x.0} + KeySet(xs)
  {
    var r := [x] + xs;
    forall k | k in KeySet(xs) ensures k in KeySet(r) {
      var i :| 0 <= i < |xs| && xs[i].0 == k;
      assert r[i + 1] == xs[i];
    }
    assert r[0] == x;
  }

  /** Places `x` before the first entry whose key it precedes. */
  function InsertByKey<K(==), V(==)>(x: (K, V), xs: seq<(K, V)>, le: (K, K) -> bool): (r: seq<(K, V)>)
    ensures multiset(r) == multiset([x] + xs)
  {
    if xs == [] then [x]
    else if le(x.0, xs[0].0) then [x] + xs
    else
      assert xs == [xs[0]] + xs[1..];
      [xs[0]] + InsertByKey(x, xs[1..], le)
  }

  lemma {:induction false} InsertKeys<K, V>(x: (K, V), xs: seq<(K, V)>, le: (K, K) -> bool)
    ensures KeySet(InsertByKey(x, xs, le)) == KeySet(xs) + {x.0}
  {
    if xs == [] {
      assert KeySet([x]) == {x.0} by { KeySetCons(x, []); }
    } else if le(x.0, xs[0].0) {
      KeySetCons(x, xs);
    } else {
      var r' := InsertByKey(x, xs[1..], le);
      InsertKeys(x, xs[1..], le);
      assert xs == [xs[0]] + xs[1..];
      KeySetCons(xs[0], xs[1..]);
      KeySetCons(xs[0], r');
    }
  }

  /** Inserting an entry whose key is new keeps the keys distinct. */
  lemma {:induction false} InsertDistinct<K, V>(x: (K, V), xs: seq<(K, V)>, le: (K, K) -> bool)
    requires DistinctKeys(xs) && x.0 !in KeySet(xs)
    ensures DistinctKeys(InsertByKey(x, xs, le))
  {
    if xs == [] {
    } else if le(x.0, xs[0].0) {
      DistinctCons(x, xs);
    } else {
      var r' := InsertByKey(x, xs[1..], le);
      assert xs == [xs[0]] + xs[1..];
      DistinctCons(xs[0], xs[1..]);
      KeySetCons(xs[0], xs[1..]);
      InsertDistinct(x, xs[1..], le);
      InsertKeys(x, xs[1..], le);
      DistinctCons(xs[0], r');
    }
  }

  /** `List.sort` with a comparator: a permutation of the entries ordered by key. */
  function SortByKey<K(==), V(==)>(xs: seq<(K, V)>, le: (K, K) -> bool): (r: seq<(K, V)>)
    ensures multiset(r) == multiset(xs)
    ensures |r| == |xs|
  {
    if xs == [] then []
    else
      assert xs == [xs[0]] + xs[1..];
      InsertByKey(xs[0], SortByKey(xs[1..], le), le)
  }

  /** Sorting keeps the key set, and keeps keys distinct. */
  lemma {:induction false} SortKeys<K, V>(xs: seq<(K, V)>, le: (K, K) -> bool)
    ensures KeySet(SortByKey(xs, le)) == KeySet(xs)
  {
    if xs != [] {
      SortKeys(xs[1..], le);
      InsertKeys(xs[0], SortByKey(xs[1..], le), le);
      assert xs == [xs[0]] + xs[1..];
      KeySetCons(xs[0], xs[1..]);
    }
  }

  lemma {:induction false} SortDistinct<K, V>(xs: seq<(K, V)>, le: (K, K) -> bool)
    requires DistinctKeys(xs)
    ensures DistinctKeys(SortByKey(xs, le))
  {
    if xs != [] {
      assert xs == [xs[0]] + xs[1..];
      DistinctCons(xs[0], xs[1..]);
      SortDistinct(xs[1..], le);
      SortKeys(xs[1..], le);
      InsertDistinct(xs[0], SortByKey(xs[1..], le), le);
    }
  }

  lemma DistinctCons<K, V>(x: (K, V), xs: seq<(K, V)>)
    ensures DistinctKeys([x] + xs) <==> DistinctKeys(xs) && x.0 !in KeySet(xs)
  {
    var r := [x] + xs;
    if DistinctKeys(r) {
      forall i, j | 0 <= i < j < |xs| ensures xs[i].0 != xs[j].0 {
        assert r[i + 1] == xs[i] && r[j + 1] == xs[j];
      }
      forall i | 0 <= i < |xs| ensures xs[i].0 != x.0 {
        assert r[i + 1] == xs[i] && r[0] == x;
        assert r[0].0 != r[i + 1].0;
      }
    }
    if DistinctKeys(xs) && x.0 !in KeySet(xs) {
      forall i, j | 0 <= i < j < |r| ensures r[i].0 != r[j].0 {
        assert r[j] == xs[j - 1];
        if i > 0 {
          assert r[i] == xs[i - 1];
        }
      }
    }
  }

  lemma {:induction false} InsertSorted<K(!new), V(!new)>(x: (K, V), xs: seq<(K, V)>, le: (K, K) -> bool)
    requires TotalOrder(le)
    requires SortedByKey(xs, le)
    ensures SortedByKey(InsertByKey(x, xs, le), le)
  {
    if xs != [] && !le(x.0, xs[0].0) {
      InsertSorted(x, xs[1..], le);
      var r' := InsertByKey(x, xs[1..], le);
      forall j | 0 <= j < |r'|
        ensures le(xs[0].0, r'[j].0)
      {
        assert r'[j] in multiset([x] + xs[1..]);
        if r'[j] != x {
          assert r'[j] in xs[1..];
        }
      }
    }
  }

  /** The sort's result is ordered by key whenever the comparator is a total order. */
  lemma {:induction false} SortSorted<K(!new), V(!new)>(xs: seq<(K, V)>, le: (K, K) -> bool)
    requires TotalOrder(le)
    ensures SortedByKey(SortByKey(xs, le), le)
  {
    if xs != [] {
      SortSorted(xs[1..], le);
      InsertSorted(xs[0], SortByKey(xs[1..], le), le);
    }
  }

  /** The map an association list denotes; on a repeated key the first entry wins. */
  function ToMap<K(==), V>(xs: seq<(K, V)>): (r: map<K, V>)
    ensures r.Keys == KeySet(xs)
    ensures DistinctKeys(xs) ==> forall i :: 0 <= i < |xs| ==> r[xs[i].0] == xs[i].1
  {
    if xs == [] then map[]
    else
      assert KeySet(xs) == {xs[0].0} + KeySet(xs[1..]);
      ToMap(xs[1..])[xs[0].0 := xs[0].1]
  }

  /** Two association lists with distinct keys and the same entries denote the same map. */
  lemma SameEntriesSameMap<K, V>(xs: seq<(K, V)>, ys: seq<(K, V)>)
    requires DistinctKeys(xs) && DistinctKeys(ys)
    requires forall e :: e in xs <==> e in ys
    ensures ToMap(xs) == ToMap(ys)
  {
    assert KeySet(xs) == KeySet(ys) by {
      forall k | k in KeySet(xs) ensures k in KeySet(ys) {
        var i :| 0 <= i < |xs| && xs[i].0 == k;
        assert xs[i] in ys;
      }
      forall k | k in KeySet(ys) ensures k in KeySet(xs) {
        var i :| 0 <= i < |ys| && ys[i].0 == k;
        assert ys[i] in xs;
      }
    }
    forall k | k in KeySet(xs)
      ensures ToMap(xs)[k] == ToMap(ys)[k]
    {
      var i :| 0 <= i < |xs| && xs[i].0 == k;
      assert xs[i] in ys;
      var j :| 0 <= j < |ys| && ys[j] == xs[i];
    }
  }

  /** Sorting does not change the map an association list with distinct keys denotes. */
  lemma SortKeepsMap<K, V>(xs: seq<(K, V)>, le: (K, K) -> bool)
    requires DistinctKeys(xs)
    ensures ToMap(SortByKey(xs, le)) == ToMap(xs)
  {
    SortDistinct(xs, le);
    var r := SortByKey(xs, le);
    forall e ensures e in r <==> e in xs {
      assert e in r <==> e in multiset(r);
      assert e in xs <==> e in multiset(xs);
    }
    SameEntriesSameMap(r, xs);
  }
}
