/** Grouping a list by a key into an insertion-ordered dictionary, as `setdefault(key, []).append(item)`
    does in a loop. */
module Grouping {
  import opened Dicts

  /** The items of one key, in order. */
  function Group<T, K(==)>(items: seq<T>, key: T -> K, k: K): seq<T>
    decreases |items|
  {
    if items == [] then []
    else
      var init, last := items[..|items| - 1], items[|items| - 1];
      Group(init, key, k) + if key(last) == k then [last] else []
  }

  /** The keys, in the order in which they first appear. */
  function FirstKeys<T, K(==)>(items: seq<T>, key: T -> K): seq<K>
    decreases |items|
  {
    if items == [] then []
    else
      var keys, last := FirstKeys(items[..|items| - 1], key), items[|items| - 1];
      if key(last) in keys then keys else keys + [key(last)]
  }

  ghost predicate Grouped<T, K>(groups: Dict<K, seq<T>>, items: seq<T>, key: T -> K) {
    && Unique(groups) && |groups| == |FirstKeys(items, key)|
    && forall k :: 0 <= k < |groups| ==>
         groups[k].0 == FirstKeys(items, key)[k] && groups[k].1 == Group(items, key, groups[k].0)
  }

  lemma {:induction false} GroupOneMore<T, K>(items: seq<T>, key: T -> K, x: T, k: K)
    ensures Group(items + [x], key, k) == Group(items, key, k) + if key(x) == k then [x] else []
  {
    assert (items + [x])[..|items|] == items;
  }

  /** A group holds the items of its key, and there is one for every key that appears. */
  lemma {:induction false} GroupMembers<T, K>(items: seq<T>, key: T -> K, k: K)
    ensures |Group(items, key, k)| <= |items|
    ensures forall x <- Group(items, key, k) :: x in items && key(x) == k
    ensures forall x <- items :: key(x) == k ==> x in Group(items, key, k)
    ensures (exists x <- items :: key(x) == k) <==> Group(items, key, k) != []
    decreases |items|
  {
    if items != [] {
      var init, last := items[..|items| - 1], items[|items| - 1];
      assert items == init + [last];
      GroupMembers(init, key, k);
    }
  }

  lemma {:induction false} KeysAppear<T, K>(items: seq<T>, key: T -> K, k: K)
    ensures k in FirstKeys(items, key) <==> exists x <- items :: key(x) == k
    decreases |items|
  {
    if items != [] {
      var init, last := items[..|items| - 1], items[|items| - 1];
      assert items == init + [last];
      KeysAppear(init, key, k);
    }
  }

  lemma {:induction false} KeysDistinct<T, K>(items: seq<T>, key: T -> K)
    ensures forall i, j :: 0 <= i < j < |FirstKeys(items, key)| ==> FirstKeys(items, key)[i] != FirstKeys(items, key)[j]
    decreases |items|
  {
    if items != [] {
      KeysDistinct(items[..|items| - 1], key);
    }
  }

  /** Where the first item of a key is. */
  ghost predicate AppearsFirstAt<T, K>(items: seq<T>, key: T -> K, k: K, p: int) {
    0 <= p < |items| && key(items[p]) == k && forall q :: 0 <= q < p ==> key(items[q]) != k
  }

  lemma {:induction false} AppearsStill<T, K>(items: seq<T>, x: T, key: T -> K, k: K, p: int)
    ensures 0 <= p < |items| ==>
              (AppearsFirstAt(items + [x], key, k, p) <==> AppearsFirstAt(items, key, k, p))
    ensures AppearsFirstAt(items + [x], key, k, |items|) <==> key(x) == k && k !in FirstKeys(items, key)
  {
    KeysAppear(items, key, k);
    assert forall q :: 0 <= q < |items| ==> (items + [x])[q] == items[q];
    if k in FirstKeys(items, key) {
      var y :| y in items && key(y) == k;
      var q :| 0 <= q < |items| && items[q] == y;
    }
  }

  lemma {:induction false} KeyAppears<T, K>(items: seq<T>, key: T -> K, i: nat) returns (p: nat)
    requires i < |FirstKeys(items, key)|
    ensures AppearsFirstAt(items, key, FirstKeys(items, key)[i], p)
    decreases |items|
  {
    var init, x := items[..|items| - 1], items[|items| - 1];
    assert items == init + [x];
    if i < |FirstKeys(init, key)| {
      p := KeyAppears(init, key, i);
    } else {
      p := |init|;
    }
    AppearsStill(init, x, key, FirstKeys(items, key)[i], p);
  }

  /** The keys stand in the order of their first items. */
  lemma {:induction false} KeysInOrder<T, K>(items: seq<T>, key: T -> K, i: nat, j: nat) returns (p: nat, q: nat)
    requires i < j < |FirstKeys(items, key)|
    ensures p < q && AppearsFirstAt(items, key, FirstKeys(items, key)[i], p)
    ensures AppearsFirstAt(items, key, FirstKeys(items, key)[j], q)
    decreases |items|
  {
    var init, x := items[..|items| - 1], items[|items| - 1];
    assert items == init + [x];
    var keys := FirstKeys(init, key);
    var a, b := FirstKeys(items, key)[i], FirstKeys(items, key)[j];
    if j < |keys| {
      p, q := KeysInOrder(init, key, i, j);
      AppearsStill(init, x, key, b, q);
    } else {
      p := KeyAppears(init, key, i);
      q := |init|;
      AppearsStill(init, x, key, b, q);
    }
    AppearsStill(init, x, key, a, p);
  }

  /** Appending an item to its group, or starting one, keeps the items grouped. */
  lemma {:induction false} GroupsGrow<T, K>(groups: Dict<K, seq<T>>, items: seq<T>, key: T -> K, x: T)
    requires Grouped(groups, items, key)
    ensures Grouped(Put(groups, key(x), Get(groups, key(x), []) + [x]), items + [x], key)
  {
    var k, keys := key(x), FirstKeys(items, key);
    PutAt(groups, k, Get(groups, k, []) + [x]);
    assert (items + [x])[..|items|] == items;
    forall i | 0 <= i < |groups|
      ensures Group(items + [x], key, groups[i].0) == groups[i].1 + if k == groups[i].0 then [x] else []
    {
      GroupOneMore(items, key, x, groups[i].0);
    }
    if k in keys {
      var i :| 0 <= i < |keys| && keys[i] == k;
      assert groups[i].0 == k;
      GetAt(groups, i, []);
    } else {
      GetMissing(groups, k, []);
      KeysAppear(items, key, k);
      GroupMembers(items, key, k);
      GroupOneMore(items, key, x, k);
    }
  }

  lemma {:induction false} GroupConcat<T, K>(a: seq<T>, b: seq<T>, key: T -> K, k: K)
    ensures Group(a + b, key, k) == Group(a, key, k) + Group(b, key, k)
    decreases |b|
  {
    if b == [] {
      assert a + b == a;
    } else {
      var init, last := b[..|b| - 1], b[|b| - 1];
      assert a + b == (a + init) + [last];
      GroupConcat(a, init, key, k);
      GroupOneMore(a + init, key, last, k);
    }
  }

  lemma {:induction false} KeysUnderImage<K(!new), L>(keys: seq<K>, images: seq<L>, k: K, f: K -> L)
    requires |keys| == |images| && forall i :: 0 <= i < |keys| ==> images[i] == f(keys[i])
    requires forall a, b :: f(a) == f(b) <==> a == b
    ensures k in keys <==> f(k) in images
  {
    if k in keys {
      var i :| 0 <= i < |keys| && keys[i] == k;
      assert images[i] == f(k);
    }
  }

  /** Keys that are told apart by an injective image group alike under it. */
  lemma {:induction false} GroupsUnderImage<T, K(!new), L>(items: seq<T>, key: T -> K, image: T -> L, f: K -> L)
    requires forall x <- items :: image(x) == f(key(x))
    requires forall a, b :: f(a) == f(b) <==> a == b
    ensures |FirstKeys(items, image)| == |FirstKeys(items, key)|
    ensures forall i :: 0 <= i < |FirstKeys(items, key)| ==> FirstKeys(items, image)[i] == f(FirstKeys(items, key)[i])
    ensures forall k :: Group(items, image, f(k)) == Group(items, key, k)
    decreases |items|
  {
    if items != [] {
      var init, last := items[..|items| - 1], items[|items| - 1];
      assert items == init + [last];
      GroupsUnderImage(init, key, image, f);
      KeysUnderImage(FirstKeys(init, key), FirstKeys(init, image), key(last), f);
    }
  }
}
