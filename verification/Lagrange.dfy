/** Lagrange interpolation at zero over a prime field. */
module Lagrange {
  import opened Wrappers
  import opened Congruence
  import opened Polynomials

  datatype ShareError =
    | IndexMissing | DuplicateIndex | NonPositiveIndex | NotInvertible | NoPoints
    | WrongThreshold | WrongGroupKey | ShareOffPolynomial

  /** The product of (0 - j) / (i - j) over the other indices j, left to right; undefined when a
      denominator has no inverse. */
  function Product(index: int, indices: seq<int>, p: nat): Option<int>
    requires p > 1
    decreases |indices|
  {
    if indices == [] then Some(1)
    else
      var init, other := indices[..|indices| - 1], indices[|indices| - 1];
      match Product(index, init, p)
      case None => None
      case Some(c) =>
        if other == index then Some(c)
        else
          match ModInverse((index - other) % p, p)
          case None => None
          case Some(inverse) => Some(c * (-other % p) * inverse % p)
  }

  predicate Distinct(indices: seq<int>) {
    forall i, j :: 0 <= i < j < |indices| ==> indices[i] != indices[j]
  }

  function Coefficient(index: int, indices: seq<int>, p: nat): Result<int, ShareError>
    requires p > 1
  {
    if index !in indices then Failure(IndexMissing)
    else if !Distinct(indices) then Failure(DuplicateIndex)
    else if exists other <- indices :: other < 1 then Failure(NonPositiveIndex)
    else
      match Product(index, indices, p)
      case None => Failure(NotInvertible)
      case Some(c) => Success(c)
  }

  ghost predicate InField(i: int, p: nat) {
    1 <= i < p
  }

  ghost predicate AllInField(s: seq<int>, p: nat) {
    forall k :: 0 <= k < |s| ==> InField(s[k], p)
  }

  /** Shares of one cluster: distinct one-based indices below the modulus. */
  ghost predicate ShareIndices(indices: seq<int>, p: nat) {
    Distinct(indices) && AllInField(indices, p)
  }

  lemma DifferenceNonZero(i: int, j: int, p: nat)
    requires p > 1 && InField(i, p) && InField(j, p) && i != j
    ensures !Cong(i - j, 0, p)
  {
    if Cong(i - j, 0, p) {
      AddCong(i - j, 0, j, j, p);
      SmallMod(i, p);
      SmallMod(j, p);
    }
  }

  /** The coefficients of a quorum exist. */
  lemma {:induction false} ProductDefined(index: int, indices: seq<int>, p: nat)
    requires IsPrime(p) && InField(index, p) && AllInField(indices, p)
    ensures Product(index, indices, p).Some?
    decreases |indices|
  {
    if indices != [] {
      var init, other := indices[..|indices| - 1], indices[|indices| - 1];
      assert InField(other, p) && AllInField(init, p);
      ProductDefined(index, init, p);
      if other != index {
        DifferenceNonZero(index, other, p);
        ModCong(index - other, p);
        PrimeInverse((index - other) % p, p);
      }
    }
  }

  /** The coefficient, for indices that have one. */
  function Lambda(index: int, indices: seq<int>, p: nat): int
    requires p > 1
  {
    match Product(index, indices, p)
    case None => 0
    case Some(c) => c
  }

  lemma LambdaSkips(i: int, s: seq<int>, p: nat)
    requires p > 1
    ensures Lambda(i, s + [i], p) == Lambda(i, s, p)
  {
    assert (s + [i])[..|s|] == s;
  }

  lemma {:induction false} CoefficientStep(c: int, n: int, v: int, d: int, p: nat)
    requires p > 1 && Cong(d % p * v, 1, p)
    ensures Cong(c * (n % p) * v % p * d, n * c, p)
  {
    ModCong(c * (n % p) * v, p);
    ModCong(n, p);
    ModCong(d, p);
    MulCong(c * (n % p) * v % p, c * (n % p) * v, d, d % p, p);
    assert c * (n % p) * v * (d % p) == (n % p) * c * (d % p * v);
    MulCong(n % p, n, c, c, p);
    MulCong((n % p) * c, n * c, d % p * v, 1, p);
  }

  /** The last index's factor. */
  lemma {:induction false} LambdaLast(i: int, s: seq<int>, a: int, p: nat)
    requires IsPrime(p) && InField(i, p) && AllInField(s + [a], p) && i != a
    ensures Cong(Lambda(i, s + [a], p) * (i - a), -a * Lambda(i, s, p), p)
  {
    var all := s + [a];
    assert all[..|s|] == s && all[|s|] == a;
    assert forall k :: 0 <= k < |s| ==> s[k] == all[k];
    ProductDefined(i, s, p);
    DifferenceNonZero(i, a, p);
    ModCong(i - a, p);
    PrimeInverse((i - a) % p, p);
    CoefficientStep(Lambda(i, s, p), -a, ModInverse((i - a) % p, p).value, i - a, p);
  }

  lemma {:induction false} MulBoth(x: int, y: int, c: int, p: nat)
    requires p > 0 && Cong(x, y, p)
    ensures Cong(c * x, c * y, p) && Cong(x * c, y * c, p)
  {
    ScaleCong(c, x, y, p);
    assert c * x == x * c && c * y == y * c;
  }

  /** One more factor on both sides of a relation. */
  lemma {:induction false} RelationStep(x: int, y: int, xn: int, yn: int, a: int, b: int, m: int, e: int, p: nat)
    requires IsPrime(p) && !Cong(e, 0, p)
    requires Cong(x * b, a * y, p) && Cong(xn * e, m * x, p) && Cong(yn * e, m * y, p)
    ensures Cong(xn * b, a * yn, p)
  {
    MulBoth(xn * e, m * x, b, p);
    MulBoth(x * b, a * y, m, p);
    MulBoth(yn * e, m * y, a, p);
    assert (xn * e) * b == e * (xn * b);
    assert m * x * b == m * (x * b);
    assert (m * y) * a == m * (a * y);
    assert (yn * e) * a == e * (a * yn);
    CancelCong(e, xn * b, a * yn, p);
  }

  /** Factors commute: the first index's factor can be taken off like the last one's. */
  lemma {:induction false} LambdaFirst(i: int, b: int, t: seq<int>, p: nat)
    requires IsPrime(p) && InField(i, p) && AllInField([b] + t, p) && i != b
    ensures Cong(Lambda(i, [b] + t, p) * (i - b), -b * Lambda(i, t, p), p)
    decreases |t|
  {
    if t == [] {
      assert [] + [b] == [b] + t;
      LambdaLast(i, [], b, p);
    } else {
      var u, c := t[..|t| - 1], t[|t| - 1];
      var all := [b] + t;
      assert all == ([b] + u) + [c] && t == u + [c];
      assert InField(all[0], p) && InField(all[|t|], p);
      assert forall k :: 0 <= k < |u| ==> u[k] == all[k + 1];
      assert AllInField([b] + u, p) && AllInField(u + [c], p);
      LambdaFirst(i, b, u, p);
      if c == i {
        LambdaSkips(i, [b] + u, p);
        LambdaSkips(i, u, p);
      } else {
        LambdaLast(i, [b] + u, c, p);
        LambdaLast(i, u, c, p);
        DifferenceNonZero(i, c, p);
        RelationStep(Lambda(i, [b] + u, p), Lambda(i, u, p), Lambda(i, all, p), Lambda(i, t, p),
                     -b, i - b, -c, i - c, p);
      }
    }
  }

  lemma {:induction false} ProductSkipsFirst(b: int, t: seq<int>, p: nat)
    requires p > 1
    ensures Product(b, [b] + t, p) == Product(b, t, p)
    decreases |t|
  {
    if t == [] {
      assert ([b] + t)[..0] == [];
    } else {
      var u := t[..|t| - 1];
      assert ([b] + t)[..|t|] == [b] + u;
      ProductSkipsFirst(b, u, p);
    }
  }

  // Sums

  /** The interpolation sum over `which`, with the coefficients of quorum `all`. */
  function Sum(which: seq<int>, all: seq<int>, f: Poly, p: nat): int
    requires p > 1
    decreases |which|
  {
    if which == [] then 0
    else
      var init, i := which[..|which| - 1], which[|which| - 1];
      Sum(init, all, f, p) + Lambda(i, all, p) * Eval(f, i)
  }

  lemma SumOneMore(which: seq<int>, i: int, all: seq<int>, f: Poly, p: nat)
    requires p > 1
    ensures Sum(which + [i], all, f, p) == Sum(which, all, f, p) + Lambda(i, all, p) * Eval(f, i)
  {
    assert (which + [i])[..|which|] == which;
  }

  lemma {:induction false} SumFirst(b: int, which: seq<int>, all: seq<int>, f: Poly, p: nat)
    requires p > 1
    ensures Sum([b] + which, all, f, p) == Lambda(b, all, p) * Eval(f, b) + Sum(which, all, f, p)
    decreases |which|
  {
    if which == [] {
      assert [b] + which == [] + [b];
      SumOneMore([], b, all, f, p);
    } else {
      var init, i := which[..|which| - 1], which[|which| - 1];
      assert [b] + which == ([b] + init) + [i];
      SumOneMore([b] + init, i, all, f, p);
      SumFirst(b, init, all, f, p);
    }
  }

  const ONE: Poly := [1]

  lemma EvalOne(x: int)
    ensures Eval(ONE, x) == 1
  {
    assert ONE[1..] == [];
  }

  lemma {:induction false} TwoRelations(x: int, y: int, z: int, i: int, a: int, b: int, p: nat)
    requires p > 0 && Cong(x * (i - a), -a * y, p) && Cong(x * (i - b), -b * z, p)
    ensures Cong((b - a) * x, -a * y + b * z, p)
  {
    SubCong(x * (i - a), -a * y, x * (i - b), -b * z, p);
    assert x * (i - a) - x * (i - b) == (b - a) * x;
    assert -a * y - -b * z == -a * y + b * z;
  }

  lemma {:induction false} AddTerm(c: int, a: int, b: int, s: int, t: int, u: int, x: int, y: int, z: int, p: nat)
    requires p > 0 && Cong(c * s, a * t + b * u, p) && Cong(c * x, a * y + b * z, p)
    ensures Cong(c * (s + x), a * (t + y) + b * (u + z), p)
  {
    AddCong(c * s, a * t + b * u, c * x, a * y + b * z, p);
    assert c * (s + x) == c * s + c * x;
    assert a * (t + y) + b * (u + z) == (a * t + b * u) + (a * y + b * z);
  }

  /** Neville's relation, summed over indices other than the two taken off. */
  lemma {:induction false} MiddleSum(which: seq<int>, b: int, m: seq<int>, a: int, p: nat)
    requires IsPrime(p) && AllInField([b] + m + [a], p) && AllInField(which, p)
    requires forall k :: 0 <= k < |which| ==> which[k] != a && which[k] != b
    ensures Cong((b - a) * Sum(which, [b] + m + [a], ONE, p),
                 -a * Sum(which, [b] + m, ONE, p) + b * Sum(which, m + [a], ONE, p), p)
    decreases |which|
  {
    if which != [] {
      var init, i := which[..|which| - 1], which[|which| - 1];
      var all := [b] + m + [a];
      assert InField(i, p);
      MiddleSum(init, b, m, a, p);
      LambdaLast(i, [b] + m, a, p);
      assert all == [b] + (m + [a]);
      LambdaFirst(i, b, m + [a], p);
      EvalOne(i);
      TwoRelations(Lambda(i, all, p), Lambda(i, [b] + m, p), Lambda(i, m + [a], p), i, a, b, p);
      AddTerm(b - a, -a, b, Sum(init, all, ONE, p), Sum(init, [b] + m, ONE, p), Sum(init, m + [a], ONE, p),
              Lambda(i, all, p), Lambda(i, [b] + m, p), Lambda(i, m + [a], p), p);
    }
  }

  /** The first share's term of Neville's relation. */
  lemma {:induction false} FirstTerm(b: int, m: seq<int>, a: int, p: nat)
    requires IsPrime(p) && AllInField([b] + m + [a], p) && InField(b, p) && a != b
    ensures Cong((b - a) * Lambda(b, [b] + m + [a], p), -a * Lambda(b, [b] + m, p) + b * 0, p)
  {
    var x, y := Lambda(b, [b] + m + [a], p), Lambda(b, [b] + m, p);
    LambdaLast(b, [b] + m, a, p);
    assert x * (b - a) == (b - a) * x && -a * y + b * 0 == -a * y;
  }

  /** The last share's term. */
  lemma LastTerm(b: int, m: seq<int>, a: int, p: nat)
    requires IsPrime(p) && AllInField([b] + m + [a], p) && InField(a, p) && a != b
    ensures Cong((b - a) * Lambda(a, [b] + m + [a], p), -a * 0 + b * Lambda(a, m + [a], p), p)
  {
    assert [b] + m + [a] == [b] + (m + [a]);
    var u, v := Lambda(a, [b] + m + [a], p), Lambda(a, m + [a], p);
    LambdaFirst(a, b, m + [a], p);
    MulBoth(u * (a - b), -b * v, -1, p);
    assert -1 * (u * (a - b)) == (b - a) * u && -1 * (-b * v) == -a * 0 + b * v;
  }

  lemma {:induction false} SumOfEnds(b: int, m: seq<int>, a: int, p: nat)
    requires p > 1
    ensures Sum([b] + m + [a], [b] + m + [a], ONE, p)
            == Sum(m, [b] + m + [a], ONE, p) + Lambda(b, [b] + m + [a], p) + Lambda(a, [b] + m + [a], p)
    ensures Sum([b] + m, [b] + m, ONE, p) == Sum(m, [b] + m, ONE, p) + Lambda(b, [b] + m, p)
    ensures Sum(m + [a], m + [a], ONE, p) == Sum(m, m + [a], ONE, p) + Lambda(a, m + [a], p)
  {
    SumOneMore([b] + m, a, [b] + m + [a], ONE, p);
    SumFirst(b, m, [b] + m + [a], ONE, p);
    SumFirst(b, m, [b] + m, ONE, p);
    SumOneMore(m, a, m + [a], ONE, p);
    EvalOne(a);
    EvalOne(b);
  }

  lemma {:induction false} ThreeTerms(c: int, a: int, b: int, s: int, t: int, u: int, x: int, y: int, v: int,
      w: int, p: nat)
    requires p > 0 && Cong(c * s, a * t + b * u, p) && Cong(c * x, a * y + b * 0, p) && Cong(c * v, a * 0 + b * w, p)
    ensures Cong(c * (s + x + v), a * (t + y) + b * (u + w), p)
  {
    AddTerm(c, a, b, s, t, u, x, y, 0, p);
    AddTerm(c, a, b, s + x, t + y, u, v, 0, w, p);
  }

  lemma QuorumParts(b: int, m: seq<int>, a: int, p: nat)
    requires ShareIndices([b] + m + [a], p)
    ensures ShareIndices([b] + m, p) && ShareIndices(m + [a], p) && a != b && InField(a, p) && InField(b, p)
    ensures AllInField(m, p) && forall k :: 0 <= k < |m| ==> m[k] != a && m[k] != b
  {
    var all := [b] + m + [a];
    assert all[0] == b && all[|m| + 1] == a;
    assert InField(all[0], p) && InField(all[|m| + 1], p);
    assert forall k :: 0 <= k <= |m| ==> ([b] + m)[k] == all[k];
    assert forall k :: 0 <= k <= |m| ==> (m + [a])[k] == all[k + 1];
    assert forall k :: 0 <= k < |m| ==> m[k] == all[k + 1];
  }

  /** The ends' terms complete Neville's relation between the quorum and the two smaller ones. */
  lemma NevilleSum(b: int, m: seq<int>, a: int, p: nat)
    requires IsPrime(p) && ShareIndices([b] + m + [a], p)
    ensures Cong((b - a) * Sum([b] + m + [a], [b] + m + [a], ONE, p),
                 -a * Sum([b] + m, [b] + m, ONE, p) + b * Sum(m + [a], m + [a], ONE, p), p)
  {
    var all, t1, t2 := [b] + m + [a], [b] + m, m + [a];
    QuorumParts(b, m, a, p);
    MiddleSum(m, b, m, a, p);
    FirstTerm(b, m, a, p);
    LastTerm(b, m, a, p);
    SumOfEnds(b, m, a, p);
    ThreeTerms(b - a, -a, b, Sum(m, all, ONE, p), Sum(m, t1, ONE, p), Sum(m, t2, ONE, p),
               Lambda(b, all, p), Lambda(b, t1, p), Lambda(a, all, p), Lambda(a, t2, p), p);
  }

  lemma {:induction false} CombineOnes(b: int, a: int, s: int, t: int, u: int, p: nat)
    requires IsPrime(p) && InField(a, p) && InField(b, p) && a != b
    requires Cong((b - a) * s, -a * t + b * u, p) && Cong(t, 1, p) && Cong(u, 1, p)
    ensures Cong(s, 1, p)
  {
    MulBoth(t, 1, -a, p);
    MulBoth(u, 1, b, p);
    AddCong(-a * t, -a * 1, b * u, b * 1, p);
    DifferenceNonZero(b, a, p);
    assert -a * 1 + b * 1 == (b - a) * 1;
    CancelCong(b - a, s, 1, p);
  }

  /** The coefficients of a quorum add up to one. */
  lemma {:induction false} SumOfOnes(s: seq<int>, p: nat)
    requires IsPrime(p) && ShareIndices(s, p) && s != []
    ensures Cong(Sum(s, s, ONE, p), 1, p)
    decreases |s|
  {
    if |s| == 1 {
      EvalOne(s[0]);
      SumOneMore([], s[0], s, ONE, p);
      LambdaSkips(s[0], [], p);
      assert s == [] + [s[0]];
    } else {
      var b, m, a := s[0], s[1..|s| - 1], s[|s| - 1];
      assert s == [b] + m + [a];
      QuorumParts(b, m, a, p);
      SumOfOnes([b] + m, p);
      SumOfOnes(m + [a], p);
      NevilleSum(b, m, a, p);
      CombineOnes(b, a, Sum(s, s, ONE, p), Sum([b] + m, [b] + m, ONE, p), Sum(m + [a], m + [a], ONE, p), p);
    }
  }

  // Interpolation

  lemma {:induction false} DivideTerm(x: int, y: int, i: int, a: int, fi: int, fa: int, gi: int, p: nat)
    requires p > 0 && Cong(x * (i - a), -a * y, p) && fi == fa + (i - a) * gi
    ensures Cong(x * fi, fa * x + -a * (y * gi), p)
  {
    MulBoth(x * (i - a), -a * y, gi, p);
    assert x * fi == fa * x + x * (i - a) * gi;
    assert -a * y * gi == -a * (y * gi);
    AddCong(fa * x, fa * x, x * (i - a) * gi, -a * y * gi, p);
  }

  lemma Regroup(fa: int, ones: int, x: int, b: int, sg: int, t: int)
    ensures fa * ones + b * sg + (fa * x + b * t) == fa * (ones + x) + b * (sg + t)
  {
  }

  lemma DividedStep(st: int, ones: int, sg: int, x: int, y: int, i: int, a: int, fi: int, fa: int, gi: int, p: nat)
    requires p > 0 && Cong(st, fa * ones + -a * sg, p)
    requires Cong(x * (i - a), -a * y, p) && fi == fa + (i - a) * gi
    ensures Cong(st + x * fi, fa * (ones + x) + -a * (sg + y * gi), p)
  {
    DivideTerm(x, y, i, a, fi, fa, gi, p);
    AddCong(st, fa * ones + -a * sg, x * fi, fa * x + -a * (y * gi), p);
    Regroup(fa, ones, x, -a, sg, y * gi);
  }

  lemma SumUnfolds(which: seq<int>, all: seq<int>, f: Poly, p: nat)
    requires p > 1 && which != []
    ensures var init, i := which[..|which| - 1], which[|which| - 1];
            Sum(which, all, f, p) == Sum(init, all, f, p) + Lambda(i, all, p) * Eval(f, i)
    ensures var init, i := which[..|which| - 1], which[|which| - 1];
            Sum(which, all, ONE, p) == Sum(init, all, ONE, p) + Lambda(i, all, p)
  {
    EvalOne(which[|which| - 1]);
  }

  /** Dividing the polynomial by `x - a` takes share `a` off the quorum. */
  lemma {:induction false} DividedSum(which: seq<int>, t: seq<int>, a: int, f: Poly, p: nat)
    requires IsPrime(p) && AllInField(t + [a], p) && AllInField(which, p)
    requires forall k :: 0 <= k < |which| ==> which[k] != a
    ensures Cong(Sum(which, t + [a], f, p),
                 Eval(f, a) * Sum(which, t + [a], ONE, p) + -a * Sum(which, t, Quotient(f, a), p), p)
    decreases |which|
  {
    if which != [] {
      var init, i := which[..|which| - 1], which[|which| - 1];
      var all, g := t + [a], Quotient(f, a);
      assert InField(i, p);
      DividedSum(init, t, a, f, p);
      LambdaLast(i, t, a, p);
      EvalQuotient(f, a, i);
      SumUnfolds(which, all, f, p);
      SumUnfolds(which, t, g, p);
      DividedStep(Sum(init, all, f, p), Sum(init, all, ONE, p), Sum(init, t, g, p),
                  Lambda(i, all, p), Lambda(i, t, p), i, a, Eval(f, i), Eval(f, a), Eval(g, i), p);
    }
  }

  lemma {:induction false} CombineDivided(total: int, st: int, l: int, fa: int, ones: int, sg: int, a: int,
      g0: int, f0: int, p: nat)
    requires p > 0 && total == st + l * fa && Cong(ones + l, 1, p)
    requires Cong(st, fa * ones + -a * sg, p) && Cong(sg, g0, p) && f0 == fa + (0 - a) * g0
    ensures Cong(total, f0, p)
  {
    AddCong(st, fa * ones + -a * sg, l * fa, l * fa, p);
    assert fa * ones + -a * sg + l * fa == fa * (ones + l) + -a * sg;
    MulBoth(ones + l, 1, fa, p);
    MulBoth(sg, g0, -a, p);
    AddCong(fa * (ones + l), fa * 1, -a * sg, -a * g0, p);
  }

  lemma {:induction false} SumOfZero(which: seq<int>, all: seq<int>, p: nat)
    requires p > 1
    ensures Sum(which, all, [], p) == 0
    decreases |which|
  {
    if which != [] {
      SumOfZero(which[..|which| - 1], all, p);
    }
  }

  /** The coefficients of any quorum recover the value at zero of any polynomial of lower degree
      than the quorum is large. */
  lemma {:induction false} Recovers(s: seq<int>, f: Poly, p: nat)
    requires IsPrime(p) && ShareIndices(s, p) && |f| <= |s|
    ensures Cong(Sum(s, s, f, p), Eval(f, 0), p)
    decreases |f|
  {
    if f == [] {
      SumOfZero(s, s, p);
    } else {
      var t, a := s[..|s| - 1], s[|s| - 1];
      var g, fa := Quotient(f, a), Eval(f, a);
      assert s == t + [a] && InField(a, p);
      assert ShareIndices(t, p);
      Recovers(t, g, p);
      DividedSum(t, t, a, f, p);
      SumOfOnes(s, p);
      SumOneMore(t, a, s, f, p);
      SumOneMore(t, a, s, ONE, p);
      EvalOne(a);
      EvalQuotient(f, a, 0);
      CombineDivided(Sum(s, s, f, p), Sum(t, s, f, p), Lambda(a, s, p), fa, Sum(t, s, ONE, p),
                     Sum(t, t, g, p), a, Eval(g, 0), Eval(f, 0), p);
    }
  }

  // Existence

  lemma NegativeNonZero(a: int, p: nat)
    requires p > 1 && InField(a, p)
    ensures !Cong(-a, 0, p)
  {
    if Cong(-a, 0, p) {
      AddCong(-a, 0, a, a, p);
      SmallMod(a, p);
      SmallMod(0, p);
    }
  }

  /** No coefficient of a quorum is zero. */
  lemma {:induction false} LambdaNonZero(i: int, s: seq<int>, p: nat)
    requires IsPrime(p) && InField(i, p) && AllInField(s, p)
    ensures !Cong(Lambda(i, s, p), 0, p)
    decreases |s|
  {
    if s == [] {
      SmallMod(1, p);
      SmallMod(0, p);
    } else {
      var t, a := s[..|s| - 1], s[|s| - 1];
      assert s == t + [a] && InField(a, p);
      LambdaNonZero(i, t, p);
      if i == a {
        LambdaSkips(i, t, p);
      } else {
        LambdaLast(i, t, a, p);
        NegativeNonZero(a, p);
        ProductNonZero(-a, Lambda(i, t, p), p);
        if Cong(Lambda(i, s, p), 0, p) {
          MulBoth(Lambda(i, s, p), 0, i - a, p);
        }
      }
    }
  }

  /** The polynomial whose roots are the given indices. */
  function Vanishing(s: seq<int>): (f: Poly)
    ensures |f| == |s| + 1
    decreases |s|
  {
    if s == [] then ONE else TimesRoot(Vanishing(s[..|s| - 1]), s[|s| - 1])
  }

  lemma {:induction false} Vanishes(s: seq<int>, k: nat)
    requires k < |s|
    ensures Eval(Vanishing(s), s[k]) == 0
    decreases |s|
  {
    var t, a := s[..|s| - 1], s[|s| - 1];
    EvalTimesRoot(Vanishing(t), a, s[k]);
    if k < |t| {
      Vanishes(t, k);
    }
  }

  lemma {:induction false} NotVanishing(s: seq<int>, x: int, p: nat)
    requires IsPrime(p) && InField(x, p) && AllInField(s, p) && x !in s
    ensures !Cong(Eval(Vanishing(s), x), 0, p)
    decreases |s|
  {
    if s == [] {
      EvalOne(x);
      SmallMod(1, p);
      SmallMod(0, p);
    } else {
      var t, a := s[..|s| - 1], s[|s| - 1];
      assert a in s && InField(a, p);
      NotVanishing(t, x, p);
      EvalTimesRoot(Vanishing(t), a, x);
      DifferenceNonZero(x, a, p);
      ProductNonZero(x - a, Eval(Vanishing(t), x), p);
    }
  }

  /** A polynomial takes these values, one per index. */
  ghost predicate PassesThrough(f: Poly, s: seq<int>, values: seq<int>, p: nat)
    requires p > 0 && |s| == |values|
  {
    forall k :: 0 <= k < |s| ==> Cong(Eval(f, s[k]), values[k], p)
  }

  lemma {:induction false} Correction(gx: int, nx: int, inverse: int, v: int, p: nat)
    requires p > 0 && Cong(nx * inverse, 1, p)
    ensures Cong(gx + (v - gx) * inverse * nx, v, p)
  {
    MulBoth(nx * inverse, 1, v - gx, p);
    assert (v - gx) * (nx * inverse) == (v - gx) * inverse * nx;
    AddCong(gx, gx, (v - gx) * inverse * nx, (v - gx) * 1, p);
  }

  lemma {:induction false} NewtonStep(g: Poly, n: Poly, x: int, v: int, p: nat) returns (c: int)
    requires IsPrime(p) && !Cong(Eval(n, x), 0, p)
    ensures Cong(Eval(Add(g, Scale(c, n)), x), v, p)
  {
    PrimeInverse(Eval(n, x), p);
    var inverse := ModInverse(Eval(n, x), p).value;
    c := (v - Eval(g, x)) * inverse;
    EvalScale(c, n, x);
    EvalAdd(g, Scale(c, n), x);
    Correction(Eval(g, x), Eval(n, x), inverse, v, p);
  }

  /** Newton interpolation: through the points of any quorum passes a polynomial of lower degree than
      the quorum is large. */
  lemma {:induction false} Interpolant(s: seq<int>, values: seq<int>, p: nat) returns (f: Poly)
    requires IsPrime(p) && ShareIndices(s, p) && |s| == |values|
    ensures |f| <= |s| && PassesThrough(f, s, values, p)
    decreases |s|
  {
    if s == [] {
      return [];
    }
    var t, a := s[..|s| - 1], s[|s| - 1];
    var n := Vanishing(t);
    assert ShareIndices(t, p) && InField(a, p) && a !in t;
    var g := Interpolant(t, values[..|t|], p);
    NotVanishing(t, a, p);
    var c := NewtonStep(g, n, a, values[|t|], p);
    f := Add(g, Scale(c, n));
    forall k | 0 <= k < |t|
      ensures Cong(Eval(f, s[k]), values[k], p)
    {
      assert t[k] == s[k] && values[..|t|][k] == values[k];
      Vanishes(t, k);
      EvalScale(c, n, s[k]);
      EvalAdd(g, Scale(c, n), s[k]);
    }
  }

  lemma {:induction false} ZeroNotInvertible(a: int, v: int, p: nat)
    requires p > 1 && Cong(a, 0, p)
    ensures !Cong(a * v, 1, p)
  {
    MulCong(a, 0, v, v, p);
  }

  lemma {:induction false} InvertibleIff(a: int, p: nat)
    requires IsPrime(p)
    ensures ModInverse(a, p).Some? <==> !Cong(a, 0, p)
  {
    if !Cong(a, 0, p) {
      PrimeInverse(a, p);
    } else if ModInverse(a, p).Some? {
      InverseInverts(a, p);
      ZeroNotInvertible(a, ModInverse(a, p).value, p);
    }
  }

  /** The index is the other one, or differs from it modulo p. */
  ghost predicate Apart(index: int, other: int, p: nat)
    requires p > 0
  {
    index == other || !Cong(index - other, 0, p)
  }

  lemma {:induction false} ProductStep(index: int, init: seq<int>, other: int, p: nat)
    requires IsPrime(p)
    ensures Product(index, init + [other], p).Some? <==> Product(index, init, p).Some? && Apart(index, other, p)
  {
    assert (init + [other])[..|init|] == init;
    ModCong(index - other, p);
    InvertibleIff((index - other) % p, p);
  }

  lemma {:induction false} ProductDefinedIff(index: int, indices: seq<int>, p: nat)
    requires IsPrime(p)
    ensures Product(index, indices, p).Some? <==> forall other <- indices :: Apart(index, other, p)
    decreases |indices|
  {
    if indices != [] {
      var init, other := indices[..|indices| - 1], indices[|indices| - 1];
      assert indices == init + [other];
      ProductDefinedIff(index, init, p);
      ProductStep(index, init, other, p);
    }
  }

  /** Modulo a prime a coefficient exists exactly for one of several different positive indices that are
      different modulo it from this one. */
  lemma {:induction false} CoefficientDefinedIff(index: int, indices: seq<int>, p: nat)
    requires IsPrime(p)
    ensures Coefficient(index, indices, p).Success?
            <==> && index in indices && Distinct(indices) && (forall other <- indices :: other >= 1)
                 && forall other <- indices :: Apart(index, other, p)
  {
    ProductDefinedIff(index, indices, p);
  }
}
