/** Dictionaries that remember insertion order, as Python's do: re-assigning a key keeps its place. */
module Dicts {
  type Dict<K, V> = seq<(K, V)>

  predicate Has<K(==), V>(d: Dict<K, V>, k: K) {
    exists i :: 0 <= i < |d| && d[i].0 == k
  }

  ghost predicate Unique<K, V>(d: Dict<K, V>) {
    forall i, j :: 0 <= i < j < |d| ==> d[i].0 != d[j].0
  }

  function Get<K(==), V>(d: Dict<K, V>, k: K, default: V): V {
    if d == [] then default
    else if d[0].0 == k then d[0].1
    else Get(d[1..], k, default)
  }

  function Put<K(==), V>(d: Dict<K, V>, k: K, v: V): Dict<K, V> {
    if d == [] then [(k, v)]
    else if d[0].0 == k then [(k, v)] + d[1..]
    else [d[0]] + Put(d[1..], k, v)
  }

  function Values<K, V>(d: Dict<K, V>): (vs: seq<V>)
    ensures |vs| == |d| && forall i :: 0 <= i < |d| ==> vs[i] == d[i].1
  {
    seq(|d|, i requires 0 <= i < |d| => d[i].1)
  }

  lemma {:induction false} PutNew<K, V>(d: Dict<K, V>, k: K, v: V)
    requires !Has(d, k)
    ensures Put(d, k, v) == d + [(k, v)]
    decreases |d|
  {
    if d != [] {
      assert d[0].0 != k;
      assert forall i :: 0 <= i < |d[1..]| ==> d[1..][i] == d[i + 1];
      PutNew(d[1..], k, v);
    }
  }

  lemma {:induction false} PutOver<K, V>(d: Dict<K, V>, i: nat, k: K, v: V)
    requires i < |d| && d[i].0 == k && forall j :: 0 <= j < i ==> d[j].0 != k
    ensures Put(d, k, v) == d[i := (k, v)]
    decreases |d|
  {
    if i > 0 {
      assert d[0].0 != k;
      PutOver(d[1..], i - 1, k, v);
    }
  }

  /** `Put` overwrites in place or appends, and touches nothing else. */
  lemma PutAt<K, V>(d: Dict<K, V>, k: K, v: V)
    requires Unique(d)
    ensures Unique(Put(d, k, v))
    ensures !Has(d, k) ==> Put(d, k, v) == d + [(k, v)]
    ensures forall i :: 0 <= i < |d| && d[i].0 == k ==> Put(d, k, v) == d[i := (k, v)]
    ensures |d| <= |Put(d, k, v)| <= |d| + 1
    ensures Has(d, k) <==> |Put(d, k, v)| == |d|
  {
    if Has(d, k) {
      var i :| 0 <= i < |d| && d[i].0 == k;
      PutOver(d, i, k, v);
    } else {
      PutNew(d, k, v);
    }
  }

  lemma GetAt<K, V>(d: Dict<K, V>, i: nat, default: V)
    requires Unique(d) && i < |d|
    ensures Get(d, d[i].0, default) == d[i].1
  {
    if i > 0 {
      assert d[0].0 != d[i].0;
      GetAt(d[1..], i - 1, default);
    }
  }

  lemma GetMissing<K, V>(d: Dict<K, V>, k: K, default: V)
    requires !Has(d, k)
    ensures Get(d, k, default) == default
  {
    if d != [] {
      assert d[0].0 != k;
      assert forall i :: 0 <= i < |d[1..]| ==> d[1..][i] == d[i + 1];
      GetMissing(d[1..], k, default);
    }
  }
}
