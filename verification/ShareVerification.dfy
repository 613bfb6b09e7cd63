/** The checks that a lock's public shares are shares of its group keys. */
module ShareVerification {
  import opened Wrappers
  import opened Dicts
  import opened Sorting
  import opened Congruence
  import opened Polynomials
  import opened Lagrange
  import opened Interpolation

  // Quorums of points

  ghost predicate ValidPoints(points: Points, p: nat) {
    points != [] && ShareIndices(Indices(points), p)
  }

  /** Every point is the polynomial's value at its index. */
  ghost predicate OnPolynomial(points: Points, f: Poly, p: nat)
    requires p > 0
  {
    forall k :: 0 <= k < |points| ==> Cong(Eval(f, points[k].0), points[k].1, p)
  }

  lemma {:induction false} DistinctOnce(s: seq<int>, x: int)
    requires Distinct(s)
    ensures multiset(s)[x] <= 1
    decreases |s|
  {
    if s != [] {
      var t, a := s[..|s| - 1], s[|s| - 1];
      assert s == t + [a];
      DistinctOnce(t, x);
      if x == a {
        assert a !in t;
      }
    }
  }

  lemma PermutedDistinct(s: seq<int>, t: seq<int>)
    requires Distinct(s) && multiset(s) == multiset(t)
    ensures Distinct(t)
  {
    forall i, j | 0 <= i < j < |t|
      ensures t[i] != t[j]
    {
      var a, b := t[..j], t[j..];
      assert t == a + b && a[i] == t[i] && b[0] == t[j];
      assert multiset(t) == multiset(a) + multiset(b);
      DistinctOnce(s, t[i]);
      assert t[i] in multiset(a) && t[j] in multiset(b);
    }
  }

  lemma SortedQuorum(points: Points, p: nat)
    requires ValidPoints(points, p)
    ensures var s := Sort(Indices(points), AT_MOST);
            ShareIndices(s, p) && |s| == |points| && forall i <- s :: Has(points, i)
  {
    var keys := Indices(points);
    var s := Sort(keys, AT_MOST);
    SortCorrect(keys, AT_MOST);
    PermutedDistinct(keys, s);
    forall k | 0 <= k < |s|
      ensures InField(s[k], p) && Has(points, s[k])
    {
      assert s[k] in keys;
      var j :| 0 <= j < |keys| && keys[j] == s[k];
      assert points[j].0 == s[k] && InField(keys[j], p);
    }
  }

  lemma ValidUnique(points: Points, p: nat)
    requires ShareIndices(Indices(points), p)
    ensures Unique(points)
  {
    assert forall i :: 0 <= i < |points| ==> Indices(points)[i] == points[i].0;
  }

  lemma CoefficientsExist(s: seq<int>, k: nat, p: nat)
    requires IsPrime(p) && ShareIndices(s, p) && k < |s|
    ensures Coefficient(s[k], s, p) == Success(Lambda(s[k], s, p))
  {
    assert InField(s[k], p);
    ProductDefined(s[k], s, p);
    assert forall other <- s :: InField(other, p);
  }

  /** Weighting points of the polynomial weights its values. */
  lemma {:induction false} PointSumOfPolynomial(which: seq<int>, all: seq<int>, points: Points, f: Poly, p: nat)
    requires p > 1 && forall i <- which :: Cong(Get(points, i, 0), Eval(f, i), p)
    ensures Cong(PointSum(which, all, points, p), Sum(which, all, f, p), p)
    decreases |which|
  {
    if which != [] {
      var init, i := which[..|which| - 1], which[|which| - 1];
      assert i in which;
      PointSumOfPolynomial(init, all, points, f, p);
      MulBoth(Get(points, i, 0), Eval(f, i), Lambda(i, all, p), p);
      AddCong(PointSum(init, all, points, p), Sum(init, all, f, p),
              Lambda(i, all, p) * Get(points, i, 0), Lambda(i, all, p) * Eval(f, i), p);
    }
  }

  lemma LookupsOnPolynomial(points: Points, f: Poly, i: int, p: nat)
    requires p > 1 && Unique(points) && OnPolynomial(points, f, p) && Has(points, i)
    ensures Cong(Get(points, i, 0), Eval(f, i), p)
  {
    var k :| 0 <= k < |points| && points[k].0 == i;
    GetAt(points, k, 0);
  }

  /** Interpolating at least as many points of a polynomial as it has coefficients yields its value at
      zero, whichever points they are. */
  lemma {:induction false} InterpolationRecovers(points: Points, f: Poly, r: Result<int, ShareError>, p: nat)
    requires IsPrime(p) && ValidPoints(points, p) && OnPolynomial(points, f, p) && |f| <= |points|
    requires Interpolates(r, points, p)
    ensures r == Success(Eval(f, 0) % p)
  {
    var s := Sort(Indices(points), AT_MOST);
    SortedQuorum(points, p);
    ValidUnique(points, p);
    forall k | 0 <= k < |s|
      ensures Coefficient(s[k], s, p).Success?
    {
      CoefficientsExist(s, k, p);
    }
    forall i <- s
      ensures Cong(Get(points, i, 0), Eval(f, i), p)
    {
      LookupsOnPolynomial(points, f, i, p);
    }
    PointSumOfPolynomial(s, s, points, f, p);
    Recovers(s, f, p);
    SmallMod(r.value, p);
  }

  /** Partial signatures of one message under shares of one key: signing multiplies the share by the
      message's point. Any two quorums aggregate to the same signature, the group key's own. */
  lemma {:induction false} QuorumsAgree(a: Points, b: Points, key: Poly, message: int, ra: Result<int,
      ShareError>, rb: Result<int, ShareError>, p: nat)
    requires IsPrime(p) && ValidPoints(a, p) && ValidPoints(b, p) && |key| <= |a| && |key| <= |b|
    requires forall k :: 0 <= k < |a| ==> Cong(a[k].1, message * Eval(key, a[k].0), p)
    requires forall k :: 0 <= k < |b| ==> Cong(b[k].1, message * Eval(key, b[k].0), p)
    requires Interpolates(ra, a, p) && Interpolates(rb, b, p)
    ensures ra == rb == Success(message * Eval(key, 0) % p)
  {
    var signing := Scale(message, key);
    forall x
      ensures Eval(signing, x) == message * Eval(key, x)
    {
      EvalScale(message, key, x);
    }
    InterpolationRecovers(a, signing, ra, p);
    InterpolationRecovers(b, signing, rb, p);
  }

  // Locks

  /** A distributed validator's group key and its public shares, in node order. */
  datatype ValidatorKeys = ValidatorKeys(pubkey: int, pubshares: seq<int>)

  ghost predicate Residues(v: ValidatorKeys, p: nat) {
    0 <= v.pubkey < p && forall s <- v.pubshares :: 0 <= s < p
  }

  /** The shares are the values at 1, 2, … of one polynomial of degree below the threshold, whose value
      at zero is the group key. */
  ghost predicate SharesOf(f: Poly, v: ValidatorKeys, threshold: int, p: nat)
    requires p > 0
  {
    && |f| <= threshold
    && Cong(Eval(f, 0), v.pubkey, p)
    && forall i :: 0 <= i < |v.pubshares| ==> Cong(Eval(f, i + 1), v.pubshares[i], p)
  }

  ghost predicate Reconstructs(v: ValidatorKeys, threshold: int, p: nat)
    requires p > 0
  {
    1 <= threshold <= |v.pubshares| && exists f: Poly :: SharesOf(f, v, threshold, p)
  }

  function FirstShares(v: ValidatorKeys, n: nat): (r: Points)
    requires n <= |v.pubshares|
    ensures |r| == n && forall i :: 0 <= i < n ==> r[i] == (i + 1, v.pubshares[i])
  {
    seq(n, i requires 0 <= i < n => (i + 1, v.pubshares[i]))
  }

  /** The first quorum with its last share replaced by a later one. */
  function Substituted(v: ValidatorKeys, threshold: nat, position: nat): Points
    requires 0 < threshold <= position < |v.pubshares|
  {
    FirstShares(v, threshold - 1) + [(position + 1, v.pubshares[position])]
  }

  predicate Ascending(s: seq<int>) {
    forall i, j :: 0 <= i < j < |s| ==> s[i] < s[j]
  }

  lemma {:induction false} SortAscending(s: seq<int>)
    requires Ascending(s)
    ensures Sort(s, AT_MOST) == s
    decreases |s|
  {
    if |s| > 1 {
      SortAscending(s[1..]);
      assert s[0] < s[1];
    }
  }

  lemma FirstSharesValid(v: ValidatorKeys, n: nat, p: nat)
    requires 0 < n <= |v.pubshares| < p
    ensures ValidPoints(FirstShares(v, n), p)
  {
    var s := Indices(FirstShares(v, n));
    assert forall i :: 0 <= i < |s| ==> s[i] == i + 1;
  }

  lemma SubstitutedValid(v: ValidatorKeys, threshold: nat, position: nat, p: nat)
    requires 0 < threshold <= position < |v.pubshares| < p
    ensures ValidPoints(Substituted(v, threshold, position), p) && |Substituted(v, threshold, position)| == threshold
    ensures Sort(Indices(Substituted(v, threshold, position)), AT_MOST) == Indices(Substituted(v, threshold, position))
  {
    var s := Indices(Substituted(v, threshold, position));
    assert forall i :: 0 <= i < |s| ==> s[i] == if i < threshold - 1 then i + 1 else position + 1;
    SortAscending(s);
  }

  lemma InterpolatedSum(points: Points, r: Result<int, ShareError>, p: nat)
    requires p > 1 && Interpolates(r, points, p) && r.Success?
    requires Sort(Indices(points), AT_MOST) == Indices(points)
    ensures Cong(PointSum(Indices(points), Indices(points), points, p), r.value, p)
  {
  }

  lemma {:induction false} KeptLookups(v: ValidatorKeys, threshold: nat, position: nat, points: Points,
      init: seq<int>, f: Poly, p: nat)
    requires 0 < threshold <= position < |v.pubshares| < p
    requires points == Substituted(v, threshold, position) && init == Indices(points)[..threshold - 1]
    requires forall i :: 0 <= i < threshold - 1 ==> Cong(Eval(f, i + 1), v.pubshares[i], p)
    ensures forall i <- init :: Cong(Get(points, i, 0), Eval(f, i), p)
  {
    SubstitutedValid(v, threshold, position, p);
    ValidUnique(points, p);
    forall i <- init
      ensures Cong(Get(points, i, 0), Eval(f, i), p)
    {
      var k :| 0 <= k < |init| && init[k] == i;
      assert points[k] == (k + 1, v.pubshares[k]);
      GetAt(points, k, 0);
    }
  }

  lemma LaterLookup(v: ValidatorKeys, threshold: nat, position: nat, points: Points, p: nat)
    requires 0 < threshold <= position < |v.pubshares| < p && points == Substituted(v, threshold, position)
    ensures Get(points, position + 1, 0) == v.pubshares[position]
  {
    SubstitutedValid(v, threshold, position, p);
    ValidUnique(points, p);
    assert points[threshold - 1] == (position + 1, v.pubshares[position]);
    GetAt(points, threshold - 1, 0);
  }

  lemma {:induction false} LaterTerm(v: ValidatorKeys, threshold: nat, position: nat, points: Points,
      s: seq<int>, init: seq<int>, p: nat)
    requires IsPrime(p) && 0 < threshold <= position < |v.pubshares| < p
    requires points == Substituted(v, threshold, position) && s == Indices(points) && init == s[..threshold - 1]
    ensures |s| == threshold && s == init + [position + 1] && ShareIndices(s, p)
    ensures PointSum(s, s, points, p)
            == PointSum(init, s, points, p) + Lambda(position + 1, s, p) * v.pubshares[position]
  {
    SubstitutedValid(v, threshold, position, p);
    LaterLookup(v, threshold, position, points, p);
    assert s[threshold - 1] == position + 1;
  }

  lemma {:induction false} LastPoint(a: int, b: int, l: int, x: int, y: int, points: int, values: int,
      total: int, p: nat)
    requires IsPrime(p) && Cong(a, b, p) && !Cong(l, 0, p)
    requires points == a + l * x && values == b + l * y && Cong(points, total, p) && Cong(values, total, p)
    ensures Cong(y, x, p)
  {
    SubCong(a + l * x, b + l * y, a, b, p);
    CancelCong(l, x, y, p);
  }

  /** When all points of a quorum but the last are on a polynomial, and they interpolate to its value
      at zero, the last is on it too. */
  lemma {:induction false} LastFits(points: Points, s: seq<int>, init: seq<int>, last: int, share: int, f: Poly, p: nat)
    requires IsPrime(p) && ShareIndices(s, p) && s == init + [last] && |f| <= |s|
    requires forall i <- init :: Cong(Get(points, i, 0), Eval(f, i), p)
    requires PointSum(s, s, points, p) == PointSum(init, s, points, p) + Lambda(last, s, p) * share
    requires Cong(PointSum(s, s, points, p), Eval(f, 0), p)
    ensures Cong(Eval(f, last), share, p)
  {
    assert InField(s[|init|], p);
    PointSumOfPolynomial(init, s, points, f, p);
    Recovers(s, f, p);
    SumOneMore(init, last, s, f, p);
    LambdaNonZero(last, s, p);
    LastPoint(PointSum(init, s, points, p), Sum(init, s, f, p), Lambda(last, s, p), share,
              Eval(f, last), PointSum(s, s, points, p), Sum(s, s, f, p), Eval(f, 0), p);
  }

  /** A later share that recovers the group key in place of an earlier one is on the polynomial of the
      rest. */
  lemma {:induction false} SubstitutionFits(v: ValidatorKeys, threshold: nat, position: nat, points: Points,
      f: Poly, p: nat)
    requires IsPrime(p) && 0 < threshold <= position < |v.pubshares| < p && |f| <= threshold
    requires forall i :: 0 <= i < threshold - 1 ==> Cong(Eval(f, i + 1), v.pubshares[i], p)
    requires points == Substituted(v, threshold, position)
    requires Cong(PointSum(Indices(points), Indices(points), points, p), Eval(f, 0), p)
    ensures Cong(Eval(f, position + 1), v.pubshares[position], p)
  {
    var s := Indices(points);
    var init := s[..threshold - 1];
    KeptLookups(v, threshold, position, points, init, f, p);
    LaterTerm(v, threshold, position, points, s, init, p);
    LastFits(points, s, init, position + 1, v.pubshares[position], f, p);
  }

  lemma {:induction false} FirstPolynomial(v: ValidatorKeys, threshold: nat, p: nat) returns (f: Poly)
    requires IsPrime(p) && 0 < threshold <= |v.pubshares| < p
    ensures |f| <= threshold && OnPolynomial(FirstShares(v, threshold), f, p)
    ensures forall i :: 0 <= i < threshold ==> Cong(Eval(f, i + 1), v.pubshares[i], p)
  {
    var points := FirstShares(v, threshold);
    FirstSharesValid(v, threshold, p);
    f := Interpolant(Indices(points), v.pubshares[..threshold], p);
    assert forall i :: 0 <= i < threshold ==> Indices(points)[i] == points[i].0 == i + 1;
  }

  lemma ValidInterpolates(points: Points, r: Result<int, ShareError>, p: nat)
    requires IsPrime(p) && ValidPoints(points, p) && Interpolates(r, points, p)
    ensures r.Success?
  {
    var s := Sort(Indices(points), AT_MOST);
    SortedQuorum(points, p);
    forall k | 0 <= k < |s|
      ensures Coefficient(s[k], s, p).Success?
    {
      CoefficientsExist(s, k, p);
    }
  }

  lemma SubstitutedOnPolynomial(v: ValidatorKeys, threshold: nat, position: nat, f: Poly, p: nat)
    requires 0 < threshold <= position < |v.pubshares| < p && SharesOf(f, v, threshold, p)
    ensures OnPolynomial(Substituted(v, threshold, position), f, p)
  {
  }

  lemma FirstQuorumNeeded(v: ValidatorKeys, threshold: nat, r: Result<int, ShareError>, p: nat)
    requires IsPrime(p) && Residues(v, p) && 0 < threshold <= |v.pubshares| < p
    requires Interpolates(r, FirstShares(v, threshold), p) && r != Success(v.pubkey)
    ensures !Reconstructs(v, threshold, p)
  {
    forall g: Poly | SharesOf(g, v, threshold, p)
      ensures false
    {
      FirstSharesValid(v, threshold, p);
      InterpolationRecovers(FirstShares(v, threshold), g, r, p);
      SmallMod(v.pubkey, p);
    }
  }

  lemma SubstitutionNeeded(v: ValidatorKeys, threshold: nat, position: nat, r: Result<int, ShareError>, p: nat)
    requires IsPrime(p) && Residues(v, p) && 0 < threshold <= position < |v.pubshares| < p
    requires Interpolates(r, Substituted(v, threshold, position), p) && r != Success(v.pubkey)
    ensures !Reconstructs(v, threshold, p)
  {
    forall g: Poly | SharesOf(g, v, threshold, p)
      ensures false
    {
      SubstitutedValid(v, threshold, position, p);
      SubstitutedOnPolynomial(v, threshold, position, g, p);
      InterpolationRecovers(Substituted(v, threshold, position), g, r, p);
      SmallMod(v.pubkey, p);
    }
  }

  /** The checks on one validator: the first quorum, then each later share in place of the quorum's
      last one. They accept exactly shares of the group key. */
  method VerifyValidator(v: ValidatorKeys, threshold: int, p: nat) returns (r: Result<(), ShareError>)
    requires IsPrime(p) && Residues(v, p) && |v.pubshares| < p
    ensures r.Success? <==> Reconstructs(v, threshold, p)
  {
    var shares := v.pubshares;
    if threshold < 1 || threshold > |shares| {
      return Failure(WrongThreshold);
    }
    ghost var f := FirstPolynomial(v, threshold, p);
    FirstSharesValid(v, threshold, p);
    var recovered := InterpolateAtZero(FirstShares(v, threshold), p);
    ValidInterpolates(FirstShares(v, threshold), recovered, p);
    if recovered.value != v.pubkey {
      FirstQuorumNeeded(v, threshold, recovered, p);
      return Failure(WrongGroupKey);
    }
    InterpolationRecovers(FirstShares(v, threshold), f, recovered, p);
    ModCong(Eval(f, 0), p);
    for position := threshold to |shares|
      invariant forall i :: 0 <= i < position ==> Cong(Eval(f, i + 1), shares[i], p)
    {
      SubstitutedValid(v, threshold, position, p);
      var again := InterpolateAtZero(Substituted(v, threshold, position), p);
      ValidInterpolates(Substituted(v, threshold, position), again, p);
      if again.value != v.pubkey {
        SubstitutionNeeded(v, threshold, position, again, p);
        return Failure(ShareOffPolynomial);
      }
      InterpolatedSum(Substituted(v, threshold, position), again, p);
      SubstitutionFits(v, threshold, position, Substituted(v, threshold, position), f, p);
    }
    assert SharesOf(f, v, threshold, p);
    r := Success(());
  }

  method VerifySharesReconstruct(validators: seq<ValidatorKeys>, threshold: int, p: nat)
    returns (r: Result<(), ShareError>)
    requires IsPrime(p) && forall v <- validators :: Residues(v, p) && |v.pubshares| < p
    ensures r.Success? <==> forall v <- validators :: Reconstructs(v, threshold, p)
  {
    for i := 0 to |validators|
      invariant forall v <- validators[..i] :: Reconstructs(v, threshold, p)
    {
      assert validators[i] in validators;
      var _ :- VerifyValidator(validators[i], threshold, p);
      assert validators[..i + 1] == validators[..i] + [validators[i]];
    }
    assert validators[..|validators|] == validators;
    r := Success(());
  }

  /** The n - t + 1 checks stand for all the quorums: once they pass, every choice of at least
      `threshold` shares recovers the group key. */
  lemma EveryQuorumRecovers(v: ValidatorKeys, threshold: int, quorum: Points, r: Result<int, ShareError>, p: nat)
    requires IsPrime(p) && Residues(v, p) && |v.pubshares| < p && Reconstructs(v, threshold, p)
    requires ValidPoints(quorum, p) && threshold <= |quorum|
    requires forall k :: 0 <= k < |quorum| ==>
               1 <= quorum[k].0 <= |v.pubshares| && quorum[k].1 == v.pubshares[quorum[k].0 - 1]
    requires Interpolates(r, quorum, p)
    ensures r == Success(v.pubkey)
  {
    var f: Poly :| SharesOf(f, v, threshold, p);
    forall k | 0 <= k < |quorum|
      ensures Cong(Eval(f, quorum[k].0), quorum[k].1, p)
    {
      var i := quorum[k].0 - 1;
      assert Cong(Eval(f, i + 1), v.pubshares[i], p);
    }
    InterpolationRecovers(quorum, f, r, p);
    SmallMod(v.pubkey, p);
  }

  // Share counts

  ghost predicate CountsHold(validators: seq<ValidatorKeys>, operators: nat) {
    && (forall i :: 0 <= i < |validators| ==>
          |validators[i].pubshares| == operators && Distinct(validators[i].pubshares))
    && forall i, j :: 0 <= i < j < |validators| ==> validators[i].pubkey != validators[j].pubkey
  }

  method VerifyPubshareCounts(validators: seq<ValidatorKeys>, operators: nat) returns (ok: bool)
    ensures ok <==> CountsHold(validators, operators)
  {
    var seen: set<int> := {};
    for i := 0 to |validators|
      invariant CountsHold(validators[..i], operators)
      invariant forall k :: k in seen <==> exists j :: 0 <= j < i && validators[j].pubkey == k
    {
      var v := validators[i];
      if |v.pubshares| != operators {
        return false;
      }
      if v.pubkey in seen {
        return false;
      }
      seen := seen + {v.pubkey};
      DistinctCount(v.pubshares);
      var unique := set s | s in v.pubshares;
      if |unique| != |v.pubshares| {
        return false;
      }
    }
    assert validators[..|validators|] == validators;
    ok := true;
  }
}
