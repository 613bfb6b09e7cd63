/** Stable sorting by a total preorder, and the order of byte strings. */
module Sorting {
  import opened SymbolicBytes

  ghost predicate TotalPreorder<T(!new)>(leq: (T, T) -> bool) {
    && (forall a, b :: leq(a, b) || leq(b, a))
    && (forall a, b, c :: leq(a, b) && leq(b, c) ==> leq(a, c))
  }

  ghost predicate Sorted<T>(s: seq<T>, leq: (T, T) -> bool) {
    forall i, j :: 0 <= i < j < |s| ==> leq(s[i], s[j])
  }

  function Insert<T>(x: T, s: seq<T>, leq: (T, T) -> bool): (r: seq<T>) {
    if s == [] || leq(x, s[0]) then [x] + s else [s[0]] + Insert(x, s[1..], leq)
  }

  /** The elements in order; equal ones keep their places relative to each other. */
  function Sort<T>(s: seq<T>, leq: (T, T) -> bool): (r: seq<T>) {
    if s == [] then [] else Insert(s[0], Sort(s[1..], leq), leq)
  }

  lemma {:induction false} InsertContents<T>(x: T, s: seq<T>, leq: (T, T) -> bool)
    ensures multiset(Insert(x, s, leq)) == multiset([x] + s)
    ensures |Insert(x, s, leq)| == |s| + 1
    ensures forall y :: y in Insert(x, s, leq) <==> y == x || y in s
    decreases |s|
  {
    if s != [] && !leq(x, s[0]) {
      InsertContents(x, s[1..], leq);
      assert s == [s[0]] + s[1..];
    }
  }

  lemma {:induction false} InsertSorted<T(!new)>(x: T, s: seq<T>, leq: (T, T) -> bool)
    requires TotalPreorder(leq) && Sorted(s, leq)
    ensures Sorted(Insert(x, s, leq), leq)
    decreases |s|
  {
    if s != [] && !leq(x, s[0]) {
      InsertSorted(x, s[1..], leq);
      InsertContents(x, s[1..], leq);
      var rest := Insert(x, s[1..], leq);
      forall j | 0 <= j < |rest|
        ensures leq(s[0], rest[j])
      {
        assert rest[j] in rest;
      }
    }
  }

  /** Sorting permutes the elements and puts them in order. */
  lemma {:induction false} SortCorrect<T(!new)>(s: seq<T>, leq: (T, T) -> bool)
    requires TotalPreorder(leq)
    ensures multiset(Sort(s, leq)) == multiset(s)
    ensures Sorted(Sort(s, leq), leq)
    ensures |Sort(s, leq)| == |s|
    ensures forall y :: y in Sort(s, leq) <==> y in s
    decreases |s|
  {
    if s != [] {
      assert s == [s[0]] + s[1..];
      SortCorrect(s[1..], leq);
      InsertSorted(s[0], Sort(s[1..], leq), leq);
      InsertContents(s[0], Sort(s[1..], leq), leq);
    }
  }

  /** `a` and `b` are of equal rank. */
  predicate Tied<T>(a: T, b: T, leq: (T, T) -> bool) {
    leq(a, b) && leq(b, a)
  }

  /** The elements of the rank of `x`, in order. */
  function Ties<T>(s: seq<T>, x: T, leq: (T, T) -> bool): seq<T> {
    if s == [] then [] else (if Tied(s[0], x, leq) then [s[0]] else []) + Ties(s[1..], x, leq)
  }

  lemma TiesOfCons<T>(h: T, t: seq<T>, x: T, leq: (T, T) -> bool)
    ensures Ties([h] + t, x, leq) == (if Tied(h, x, leq) then [h] else []) + Ties(t, x, leq)
  {
    assert ([h] + t)[1..] == t;
  }

  lemma NotBothTied<T(!new)>(y: T, h: T, x: T, leq: (T, T) -> bool)
    requires TotalPreorder(leq) && !leq(y, h)
    ensures !Tied(y, x, leq) || !Tied(h, x, leq)
  {
    if leq(y, x) {
      assert leq(x, h) ==> leq(y, h);
    }
  }

  lemma {:induction false} InsertTies<T(!new)>(y: T, s: seq<T>, x: T, leq: (T, T) -> bool)
    requires TotalPreorder(leq)
    ensures Ties(Insert(y, s, leq), x, leq) == (if Tied(y, x, leq) then [y] else []) + Ties(s, x, leq)
    decreases |s|
  {
    if s == [] || leq(y, s[0]) {
      TiesOfCons(y, s, x, leq);
    } else {
      var h, t := s[0], s[1..];
      InsertTies(y, t, x, leq);
      TiesOfCons(h, Insert(y, t, leq), x, leq);
      TiesOfCons(h, t, x, leq);
      assert s == [h] + t;
      NotBothTied(y, h, x, leq);
    }
  }

  /** Sorting is stable: elements of equal rank stay in their original order. */
  lemma {:induction false} SortStable<T(!new)>(s: seq<T>, x: T, leq: (T, T) -> bool)
    requires TotalPreorder(leq)
    ensures Ties(Sort(s, leq), x, leq) == Ties(s, x, leq)
    decreases |s|
  {
    if s != [] {
      SortStable(s[1..], x, leq);
      InsertTies(s[0], Sort(s[1..], leq), x, leq);
    }
  }

  /** `a` comes before `b`: of lower rank, or of equal rank and earlier place. */
  predicate Precedes<T>(a: T, b: T, leq: (T, T) -> bool, place: T -> int) {
    !leq(b, a) || (leq(a, b) && place(a) < place(b))
  }

  ghost predicate InOrder<T>(s: seq<T>, leq: (T, T) -> bool, place: T -> int) {
    forall i, j :: 0 <= i < j < |s| ==> Precedes(s[i], s[j], leq, place)
  }

  lemma PrecedesStep<T(!new)>(x: T, h: T, y: T, leq: (T, T) -> bool, place: T -> int)
    requires TotalPreorder(leq) && leq(x, h) && Precedes(h, y, leq, place) && place(x) < place(y)
    ensures Precedes(x, y, leq, place)
  {
  }

  lemma {:induction false} InsertInOrder<T(!new)>(x: T, s: seq<T>, leq: (T, T) -> bool, place: T -> int)
    requires TotalPreorder(leq) && InOrder(s, leq, place) && forall y <- s :: place(x) < place(y)
    ensures InOrder(Insert(x, s, leq), leq, place)
    decreases |s|
  {
    if s == [] {
    } else if leq(x, s[0]) {
      forall j | 0 <= j < |s|
        ensures Precedes(x, s[j], leq, place)
      {
        if j > 0 {
          PrecedesStep(x, s[0], s[j], leq, place);
        }
      }
    } else {
      var rest := Insert(x, s[1..], leq);
      InsertInOrder(x, s[1..], leq, place);
      InsertContents(x, s[1..], leq);
      forall j | 0 <= j < |rest|
        ensures Precedes(s[0], rest[j], leq, place)
      {
        assert rest[j] in rest;
      }
    }
  }

  /** Sorting orders by rank first and by original place among equals. */
  lemma {:induction false} SortInOrder<T(!new)>(s: seq<T>, leq: (T, T) -> bool, place: T -> int)
    requires TotalPreorder(leq) && forall i, j :: 0 <= i < j < |s| ==> place(s[i]) < place(s[j])
    ensures InOrder(Sort(s, leq), leq, place)
    decreases |s|
  {
    if s != [] {
      SortInOrder(s[1..], leq, place);
      SortCorrect(s[1..], leq);
      InsertInOrder(s[0], Sort(s[1..], leq), leq, place);
    }
  }

  lemma SortedHeadLeast<T(!new)>(a: seq<T>, b: seq<T>, leq: (T, T) -> bool)
    requires a != [] && b != [] && multiset(a) == multiset(b) && Sorted(a, leq)
    ensures b[0] in a && (b[0] == a[0] || leq(a[0], b[0]))
  {
    assert b[0] in multiset(a);
    var j :| 0 <= j < |a| && a[j] == b[0];
  }

  lemma MultisetTail<T>(a: seq<T>)
    requires a != []
    ensures multiset(a[1..]) == multiset(a) - multiset{a[0]}
  {
    assert a == [a[0]] + a[1..];
  }

  lemma SameTails<T>(a: seq<T>, b: seq<T>)
    requires a != [] && b != [] && a[0] == b[0] && multiset(a) == multiset(b)
    ensures multiset(a[1..]) == multiset(b[1..])
  {
    MultisetTail(a);
    MultisetTail(b);
  }

  lemma SameLength<T>(a: seq<T>, b: seq<T>)
    requires multiset(a) == multiset(b)
    ensures |a| == |b|
  {
    assert |a| == |multiset(a)| == |multiset(b)| == |b|;
  }

  /** No two elements are of equal rank. */
  ghost predicate Ranked<T(!new)>(s: seq<T>, leq: (T, T) -> bool) {
    forall x, y :: x in s && y in s && leq(x, y) && leq(y, x) ==> x == y
  }

  lemma SameHead<T(!new)>(a: seq<T>, b: seq<T>, leq: (T, T) -> bool)
    requires a != [] && b != [] && multiset(a) == multiset(b) && Sorted(a, leq) && Sorted(b, leq)
    requires Ranked(a, leq)
    ensures a[0] == b[0]
  {
    SortedHeadLeast(a, b, leq);
    SortedHeadLeast(b, a, leq);
    assert a[0] in a;
  }

  lemma SortedTail<T(!new)>(a: seq<T>, leq: (T, T) -> bool)
    requires a != [] && Sorted(a, leq)
    ensures Sorted(a[1..], leq)
    ensures Ranked(a, leq) ==> Ranked(a[1..], leq)
  {
  }

  /** With no two elements of equal rank there is only one way to sort them. */
  lemma {:induction false} SortedUnique<T(!new)>(a: seq<T>, b: seq<T>, leq: (T, T) -> bool)
    requires multiset(a) == multiset(b) && Sorted(a, leq) && Sorted(b, leq) && Ranked(a, leq)
    ensures a == b
    decreases |a|
  {
    SameLength(a, b);
    if a != [] {
      SameHead(a, b, leq);
      SameTails(a, b);
      SortedTail(a, leq);
      SortedTail(b, leq);
      SortedUnique(a[1..], b[1..], leq);
      assert a == [a[0]] + a[1..] && b == [b[0]] + b[1..];
    }
  }

  /** Any two orders of distinctly ranked elements sort alike. */
  lemma SortIgnoresOrder<T(!new)>(s: seq<T>, t: seq<T>, leq: (T, T) -> bool)
    requires TotalPreorder(leq) && multiset(s) == multiset(t)
    requires Ranked(s, leq)
    ensures Sort(s, leq) == Sort(t, leq)
  {
    SortCorrect(s, leq);
    SortCorrect(t, leq);
    SortedUnique(Sort(s, leq), Sort(t, leq), leq);
  }

  function Map<T, U>(f: T -> U, s: seq<T>): (r: seq<U>)
    ensures |r| == |s| && forall i :: 0 <= i < |s| ==> r[i] == f(s[i])
  {
    seq(|s|, i requires 0 <= i < |s| => f(s[i]))
  }

  lemma MapSplit<T, U>(f: T -> U, s: seq<T>)
    requires s != []
    ensures Map(f, s)[0] == f(s[0]) && Map(f, s)[1..] == Map(f, s[1..])
  {
  }

  lemma MapCons<T, U>(f: T -> U, x: T, s: seq<T>)
    ensures Map(f, [x] + s) == [f(x)] + Map(f, s)
  {
  }

  lemma {:induction false} InsertMapped<T, U>(f: T -> U, x: T, s: seq<T>, leq: (T, T) -> bool, mapped: (U, U) -> bool)
    requires forall a <- [x] + s, b <- [x] + s :: leq(a, b) == mapped(f(a), f(b))
    ensures Insert(f(x), Map(f, s), mapped) == Map(f, Insert(x, s, leq))
    decreases |s|
  {
    if s != [] {
      assert x in [x] + s && s[0] in [x] + s;
      MapSplit(f, s);
      if !leq(x, s[0]) {
        assert forall a <- [x] + s[1..] :: a in [x] + s;
        InsertMapped(f, x, s[1..], leq, mapped);
        MapCons(f, s[0], Insert(x, s[1..], leq));
      } else {
        MapCons(f, x, s);
      }
    }
  }

  /** Sorting images by what their origins are sorted by sorts the origins. */
  lemma {:induction false} SortMapped<T(!new), U>(f: T -> U, s: seq<T>, leq: (T, T) -> bool, mapped: (U, U) -> bool)
    requires TotalPreorder(leq)
    requires forall a <- s, b <- s :: leq(a, b) == mapped(f(a), f(b))
    ensures Sort(Map(f, s), mapped) == Map(f, Sort(s, leq))
    decreases |s|
  {
    if s != [] {
      assert Map(f, s)[1..] == Map(f, s[1..]);
      assert forall a <- s[1..] :: a in s;
      SortMapped(f, s[1..], leq, mapped);
      SortCorrect(s[1..], leq);
      assert forall a <- [s[0]] + Sort(s[1..], leq) :: a in s;
      InsertMapped(f, s[0], Sort(s[1..], leq), leq, mapped);
    }
  }

  // Byte strings

  /** Lexicographic order, a prefix coming first. */
  predicate LexLeq(a: seq<byte>, b: seq<byte>) {
    a == [] || (b != [] && (a[0] < b[0] || (a[0] == b[0] && LexLeq(a[1..], b[1..]))))
  }

  lemma {:induction false} LexTotal(a: seq<byte>, b: seq<byte>)
    ensures LexLeq(a, b) || LexLeq(b, a)
    decreases |a|
  {
    if a != [] && b != [] {
      LexTotal(a[1..], b[1..]);
    }
  }

  lemma {:induction false} LexTransitive(a: seq<byte>, b: seq<byte>, c: seq<byte>)
    requires LexLeq(a, b) && LexLeq(b, c)
    ensures LexLeq(a, c)
    decreases |a|
  {
    if a != [] && a[0] == b[0] == c[0] {
      LexTransitive(a[1..], b[1..], c[1..]);
    }
  }

  lemma {:induction false} LexAntisymmetric(a: seq<byte>, b: seq<byte>)
    requires LexLeq(a, b) && LexLeq(b, a)
    ensures a == b
    decreases |a|
  {
    if a != [] {
      LexAntisymmetric(a[1..], b[1..]);
      assert a == [a[0]] + a[1..] && b == [b[0]] + b[1..];
    }
  }

  lemma {:induction false} LexPreorder()
    ensures TotalPreorder(LexLeq)
    ensures forall a, b :: LexLeq(a, b) && LexLeq(b, a) ==> a == b
  {
    forall a, b
      ensures LexLeq(a, b) || LexLeq(b, a)
    {
      LexTotal(a, b);
    }
    forall a, b, c | LexLeq(a, b) && LexLeq(b, c)
      ensures LexLeq(a, c)
    {
      LexTransitive(a, b, c);
    }
    forall a, b | LexLeq(a, b) && LexLeq(b, a)
      ensures a == b
    {
      LexAntisymmetric(a, b);
    }
  }

  /** The strings agree up to `k`, where the first one ends or has the smaller byte. */
  predicate DiffersAt(a: seq<byte>, b: seq<byte>, k: nat) {
    k <= |a| && k < |b| && a[..k] == b[..k] && (k < |a| ==> a[k] < b[k])
  }

  ghost predicate ComesBefore(a: seq<byte>, b: seq<byte>) {
    exists k: nat :: DiffersAt(a, b, k)
  }

  lemma DiffersLater(a: seq<byte>, b: seq<byte>, k: nat)
    requires a != [] && b != [] && a[0] == b[0]
    ensures DiffersAt(a, b, k + 1) <==> DiffersAt(a[1..], b[1..], k)
  {
    if k <= |a[1..]| && k < |b[1..]| {
      assert a[..k + 1] == [a[0]] + a[1..][..k] && b[..k + 1] == [b[0]] + b[1..][..k];
      assert a[1..][..k] == a[..k + 1][1..] && b[1..][..k] == b[..k + 1][1..];
    }
  }

  lemma HeadsInOrder(a: seq<byte>, b: seq<byte>)
    requires a != [] && b != [] && ComesBefore(a, b)
    ensures a[0] <= b[0]
  {
    var k: nat :| DiffersAt(a, b, k);
    if k > 0 {
      assert a[..k][0] == a[0] && b[..k][0] == b[0];
    }
  }

  lemma SameHeadBefore(a: seq<byte>, b: seq<byte>)
    requires a != [] && b != [] && a[0] == b[0]
    ensures ComesBefore(a, b) <==> ComesBefore(a[1..], b[1..])
  {
    if ComesBefore(a, b) {
      var k: nat :| DiffersAt(a, b, k);
      assert k > 0;
      DiffersLater(a, b, k - 1);
    }
    if ComesBefore(a[1..], b[1..]) {
      var k: nat :| DiffersAt(a[1..], b[1..], k);
      DiffersLater(a, b, k);
    }
  }

  /** The order of byte strings by their first difference. */
  lemma {:induction false} LexMeans(a: seq<byte>, b: seq<byte>)
    ensures LexLeq(a, b) <==> a == b || ComesBefore(a, b)
    decreases |a|
  {
    if a == [] {
      assert b != [] ==> DiffersAt(a, b, 0);
    } else if b != [] && a[0] == b[0] {
      LexMeans(a[1..], b[1..]);
      assert a == [a[0]] + a[1..] && b == [b[0]] + b[1..];
      SameHeadBefore(a, b);
    } else if b != [] {
      assert a[0] < b[0] ==> DiffersAt(a, b, 0);
      if ComesBefore(a, b) {
        HeadsInOrder(a, b);
      }
    }
  }
}
