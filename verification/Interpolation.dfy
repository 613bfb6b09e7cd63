/** Threshold aggregation: interpolation at zero over curve points. A point is represented by its
    discrete logarithm, so adding points adds residues and multiplying by a scalar multiplies them. */
module Interpolation {
  import opened Wrappers
  import opened Dicts
  import opened Sorting
  import opened Congruence
  import opened Lagrange

  lemma {:induction false} DistinctCount(s: seq<int>)
    ensures Distinct(s) <==> |set i | i in s| == |s|
    ensures |set i | i in s| <= |s|
    decreases |s|
  {
    if s != [] {
      var init, last := s[..|s| - 1], s[|s| - 1];
      DistinctCount(init);
      var whole, part := set i | i in s, set i | i in init;
      assert s == init + [last];
      assert whole == part + {last};
      assert Distinct(s) <==> Distinct(init) && last !in init;
    }
  }

  lemma {:induction false} ProductOneMore(index: int, indices: seq<int>, k: nat, p: nat)
    requires p > 1 && k < |indices|
    ensures indices[..k + 1][..k] == indices[..k] && indices[..k + 1][k] == indices[k]
  {
  }

  lemma {:induction false} UndefinedStays(index: int, indices: seq<int>, k: nat, p: nat)
    requires p > 1 && k <= |indices| && Product(index, indices[..k], p) == None
    ensures Product(index, indices, p) == None
    decreases |indices| - k
  {
    if k < |indices| {
      ProductOneMore(index, indices, k, p);
      UndefinedStays(index, indices, k + 1, p);
    } else {
      assert indices[..k] == indices;
    }
  }

  method LagrangeCoefficient(index: int, indices: seq<int>, p: nat) returns (r: Result<int, ShareError>)
    requires p > 1
    ensures r == Coefficient(index, indices, p)
  {
    if index !in indices {
      return Failure(IndexMissing);
    }
    DistinctCount(indices);
    var unique := set i | i in indices;
    if |unique| != |indices| {
      return Failure(DuplicateIndex);
    }
    if exists other <- indices :: other < 1 {
      return Failure(NonPositiveIndex);
    }
    var coefficient := 1;
    for k := 0 to |indices|
      invariant Product(index, indices[..k], p) == Some(coefficient)
    {
      var other := indices[k];
      ProductOneMore(index, indices, k, p);
      if other != index {
        var numerator := -other % p;
        var denominator := (index - other) % p;
        var inverse := ModInverse(denominator, p);
        if inverse.None? {
          UndefinedStays(index, indices, k + 1, p);
          return Failure(NotInvertible);
        }
        coefficient := coefficient * numerator * inverse.value % p;
      }
    }
    assert indices[..|indices|] == indices;
    r := Success(coefficient);
  }

  // Interpolation

  /** Points keyed by share index. */
  type Points = Dict<int, int>

  function Indices(points: Points): (r: seq<int>)
    ensures |r| == |points| && forall i :: 0 <= i < |points| ==> r[i] == points[i].0
  {
    seq(|points|, i requires 0 <= i < |points| => points[i].0)
  }

  const AT_MOST: (int, int) -> bool := (a, b) => a <= b

  /** The weighted sum of the points at `which`. */
  function PointSum(which: seq<int>, all: seq<int>, points: Points, p: nat): int
    requires p > 1
    decreases |which|
  {
    if which == [] then 0
    else
      var init, i := which[..|which| - 1], which[|which| - 1];
      PointSum(init, all, points, p) + Lambda(i, all, p) * Get(points, i, 0)
  }

  /** The running total after the first `k` shares. */
  ghost predicate Summed(total: Option<int>, s: seq<int>, k: nat, points: Points, p: nat)
    requires p > 1
  {
    && k <= |s|
    && (total.None? <==> k == 0)
    && (total.Some? ==> 0 <= total.value < p && Cong(total.value, PointSum(s[..k], s, points, p), p))
  }

  function AddPoint(total: Option<int>, term: int, p: nat): Option<int>
    requires p > 1
  {
    match total
    case None => Some(term)
    case Some(sum) => Some((sum + term) % p)
  }

  lemma TermCong(point: int, c: int, p: nat)
    requires p > 1
    ensures 0 <= point * c % p < p && Cong(point * c % p, c * point, p)
  {
    ModCong(point * c, p);
    assert point * c == c * point;
  }

  lemma AddTerm(total: int, sum: int, term: int, product: int, p: nat)
    requires p > 1 && Cong(total, sum, p) && Cong(term, product, p)
    ensures 0 <= (total + term) % p < p && Cong((total + term) % p, sum + product, p)
  {
    AddCong(total, sum, term, product, p);
    ModCong(total + term, p);
  }

  lemma {:induction false} SumStep(total: Option<int>, s: seq<int>, k: nat, points: Points, c: int, p: nat)
    requires p > 1 && k < |s| && Coefficient(s[k], s, p) == Success(c) && Summed(total, s, k, points, p)
    ensures Summed(AddPoint(total, Get(points, s[k], 0) * c % p, p), s, k + 1, points, p)
  {
    var point := Get(points, s[k], 0);
    var sum := PointSum(s[..k], s, points, p);
    assert s[..k + 1][..k] == s[..k];
    assert PointSum(s[..k + 1], s, points, p) == sum + c * point;
    TermCong(point, c, p);
    if k == 0 {
      assert sum == 0;
    } else {
      AddTerm(total.value, sum, point * c % p, c * point, p);
    }
  }

  /** What interpolating means: the points weighted by their coefficients, or the first complaint. */
  ghost predicate Interpolates(r: Result<int, ShareError>, points: Points, p: nat)
    requires p > 1
  {
    if points == [] then r == Failure(NoPoints)
    else
      var s := Sort(Indices(points), AT_MOST);
      && (r.Success? <==> forall k :: 0 <= k < |s| ==> Coefficient(s[k], s, p).Success?)
      && (r.Success? ==> 0 <= r.value < p && Cong(r.value, PointSum(s, s, points, p), p))
  }

  method InterpolateAtZero(points: Points, p: nat) returns (r: Result<int, ShareError>)
    requires p > 1
    ensures Interpolates(r, points, p)
  {
    if points == [] {
      return Failure(NoPoints);
    }
    var indices := Sort(Indices(points), AT_MOST);
    SortCorrect(Indices(points), AT_MOST);
    var total: Option<int> := None;
    for k := 0 to |indices|
      invariant Summed(total, indices, k, points, p)
      invariant forall j :: 0 <= j < k ==> Coefficient(indices[j], indices, p).Success?
    {
      var coefficient :- LagrangeCoefficient(indices[k], indices, p);
      var term := Get(points, indices[k], 0) * coefficient % p;
      SumStep(total, indices, k, points, coefficient, p);
      total := AddPoint(total, term, p);
    }
    assert indices[..|indices|] == indices;
    r := Success(total.value);
  }

  /** The coefficient of every participating share. */
  method AggregationCoefficients(indices: seq<int>, p: nat) returns (r: Result<Dict<int, int>, ShareError>)
    requires p > 1
    ensures r.Success? <==> forall k :: 0 <= k < |indices| ==> Coefficient(indices[k], indices, p).Success?
    ensures r.Success? ==>
              |r.value| == |indices|
              && forall k :: 0 <= k < |indices| ==> r.value[k] == (indices[k], Lambda(indices[k], indices, p))
  {
    var coefficients: Dict<int, int> := [];
    for k := 0 to |indices|
      invariant forall j :: 0 <= j < k ==> Coefficient(indices[j], indices, p).Success?
      invariant |coefficients| == k
      invariant forall j :: 0 <= j < k ==> coefficients[j] == (indices[j], Lambda(indices[j], indices, p))
    {
      var coefficient :- LagrangeCoefficient(indices[k], indices, p);
      assert !Has(coefficients, indices[k]);
      PutNew(coefficients, indices[k], coefficient);
      coefficients := Put(coefficients, indices[k], coefficient);
    }
    r := Success(coefficients);
  }
}
