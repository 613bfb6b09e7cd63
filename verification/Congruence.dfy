/** Integers modulo a prime. */
module Congruence {
  import opened Wrappers

  /** `%` is the floored remainder for a positive modulus, as in the original. */
  ghost predicate Cong(a: int, b: int, p: int)
    requires p > 0
  {
    a % p == b % p
  }

  ghost predicate IsPrime(p: int) {
    p > 1 && forall d :: 1 < d < p ==> p % d != 0
  }

  lemma {:induction false} FromMultiple(a: int, b: int, k: int, p: int)
    requires p > 0 && a == b + k * p
    ensures Cong(a, b, p)
  {
    var q := a / p - b / p - k;
    assert a == p * (a / p) + a % p && b == p * (b / p) + b % p;
    assert b % p - a % p == p * q;
    assert q >= 1 ==> p * q >= p;
    assert q <= -1 ==> p * q <= -p;
  }

  lemma ToMultiple(a: int, b: int, p: int) returns (k: int)
    requires p > 0 && Cong(a, b, p)
    ensures a == b + k * p
  {
    k := a / p - b / p;
    assert a == p * (a / p) + a % p && b == p * (b / p) + b % p;
  }

  lemma ModCong(a: int, p: int)
    requires p > 0
    ensures 0 <= a % p < p && Cong(a % p, a, p)
  {
    assert a == p * (a / p) + a % p;
    FromMultiple(a % p, a, -(a / p), p);
  }

  lemma SmallMod(a: int, p: int)
    requires 0 <= a < p
    ensures a % p == a
  {
  }

  lemma {:induction false} AddCong(a: int, b: int, c: int, d: int, p: int)
    requires p > 0 && Cong(a, b, p) && Cong(c, d, p)
    ensures Cong(a + c, b + d, p)
  {
    var k := ToMultiple(a, b, p);
    var m := ToMultiple(c, d, p);
    assert (k + m) * p == k * p + m * p;
    FromMultiple(a + c, b + d, k + m, p);
  }

  lemma Expand(b: int, k: int, d: int, m: int, p: int)
    ensures (b + k * p) * (d + m * p) == b * d + (b * m + k * d + k * m * p) * p
  {
  }

  lemma {:induction false} MulCong(a: int, b: int, c: int, d: int, p: int)
    requires p > 0 && Cong(a, b, p) && Cong(c, d, p)
    ensures Cong(a * c, b * d, p)
  {
    var k := ToMultiple(a, b, p);
    var m := ToMultiple(c, d, p);
    Expand(b, k, d, m, p);
    FromMultiple(a * c, b * d, b * m + k * d + k * m * p, p);
  }

  lemma {:induction false} ScaleCong(c: int, a: int, b: int, p: int)
    requires p > 0 && Cong(a, b, p)
    ensures Cong(c * a, c * b, p)
  {
    MulCong(c, c, a, b, p);
  }

  lemma {:induction false} SubCong(a: int, b: int, c: int, d: int, p: int)
    requires p > 0 && Cong(a, b, p) && Cong(c, d, p)
    ensures Cong(a - c, b - d, p)
  {
    ScaleCong(-1, c, d, p);
    AddCong(a, b, -1 * c, -1 * d, p);
  }

  // Inverses

  datatype Bezout = Bezout(g: int, x: int, y: int)

  /** The extended Euclidean algorithm. */
  function ExtendedGcd(a: nat, b: nat): Bezout
    decreases b
  {
    if b == 0 then Bezout(a, 1, 0)
    else
      var r := ExtendedGcd(b, a % b);
      Bezout(r.g, r.y, r.x - a / b * r.y)
  }

  lemma BezoutStep(a: nat, b: nat, x: int, y: int)
    requires b > 0
    ensures a * y + b * (x - a / b * y) == b * x + a % b * y
  {
    var q := a / b;
    assert a == q * b + a % b;
    assert a * y == q * b * y + a % b * y;
    assert b * (x - q * y) == b * x - b * q * y;
    assert q * b * y == b * q * y;
  }

  lemma {:induction false} BezoutHolds(a: nat, b: nat)
    ensures var r := ExtendedGcd(a, b); a * r.x + b * r.y == r.g
    ensures a + b > 0 ==> ExtendedGcd(a, b).g > 0
    decreases b
  {
    if b > 0 {
      BezoutHolds(b, a % b);
      BezoutStep(a, b, ExtendedGcd(b, a % b).x, ExtendedGcd(b, a % b).y);
    }
  }

  lemma {:induction false} GcdDivides(a: nat, b: nat)
    requires a + b > 0
    ensures var g := ExtendedGcd(a, b).g; g > 0 && Cong(a, 0, g) && Cong(b, 0, g)
    decreases b
  {
    BezoutHolds(a, b);
    if b > 0 {
      var g := ExtendedGcd(a, b).g;
      GcdDivides(b, a % b);
      ScaleCong(a / b, b, 0, g);
      AddCong(a / b * b, 0, a % b, 0, g);
      assert a == a / b * b + a % b;
    } else {
      FromMultiple(a, 0, 1, a);
    }
  }

  /** The inverse modulo `p`, when there is one, as `pow(a, -1, p)` computes it. */
  function ModInverse(a: int, p: nat): Option<int>
    requires p > 1
  {
    var r := ExtendedGcd(a % p, p);
    if r.g == 1 then Some(r.x % p) else None
  }

  lemma InverseInverts(a: int, p: nat)
    requires p > 1 && ModInverse(a, p).Some?
    ensures Cong(a * ModInverse(a, p).value, 1, p)
  {
    var r := ExtendedGcd(a % p, p);
    BezoutHolds(a % p, p);
    FromMultiple(a % p * r.x, 1, -r.y, p);
    ModCong(a, p);
    ModCong(r.x, p);
    MulCong(a, a % p, r.x % p, r.x, p);
  }

  /** Modulo a prime every non-zero residue has an inverse. */
  lemma PrimeInverse(a: int, p: nat)
    requires IsPrime(p) && !Cong(a, 0, p)
    ensures ModInverse(a, p).Some? && Cong(a * ModInverse(a, p).value, 1, p)
  {
    ModCong(a, p);
    GcdDivides(a % p, p);
    var g := ExtendedGcd(a % p, p).g;
    var k := ToMultiple(a % p, 0, g);
    assert k <= 0 ==> k * g <= 0;
    assert g <= a % p by {
      assert k * g >= g;
    }
    assert p % g == 0;
    InverseInverts(a, p);
  }

  lemma {:induction false} CancelCong(c: int, a: int, b: int, p: nat)
    requires IsPrime(p) && !Cong(c, 0, p) && Cong(c * a, c * b, p)
    ensures Cong(a, b, p)
  {
    PrimeInverse(c, p);
    var v := ModInverse(c, p).value;
    ScaleCong(v, c * a, c * b, p);
    MulCong(c * v, 1, a, a, p);
    MulCong(c * v, 1, b, b, p);
    assert v * (c * a) == c * v * a && v * (c * b) == c * v * b;
  }

  /** A product is zero modulo a prime only when a factor is. */
  lemma ProductNonZero(a: int, b: int, p: nat)
    requires IsPrime(p) && !Cong(a, 0, p) && !Cong(b, 0, p)
    ensures !Cong(a * b, 0, p)
  {
    if Cong(a * b, 0, p) {
      assert a * 0 == 0;
      CancelCong(a, b, 0, p);
    }
  }
}
