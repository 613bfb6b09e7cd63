/** Polynomials over the integers, constant term first. */
module Polynomials {
  type Poly = seq<int>

  function Eval(f: Poly, x: int): int {
    if f == [] then 0 else f[0] + x * Eval(f[1..], x)
  }

  function Add(f: Poly, g: Poly): (h: Poly)
    ensures |h| == if |f| < |g| then |g| else |f|
  {
    if f == [] then g
    else if g == [] then f
    else [f[0] + g[0]] + Add(f[1..], g[1..])
  }

  function Scale(c: int, f: Poly): (h: Poly)
    ensures |h| == |f|
  {
    if f == [] then [] else [c * f[0]] + Scale(c, f[1..])
  }

  lemma {:induction false} EvalAdd(f: Poly, g: Poly, x: int)
    ensures Eval(Add(f, g), x) == Eval(f, x) + Eval(g, x)
    decreases |f|
  {
    if f != [] && g != [] {
      var h := Add(f, g);
      assert h[1..] == Add(f[1..], g[1..]);
      EvalAdd(f[1..], g[1..], x);
      assert x * (Eval(f[1..], x) + Eval(g[1..], x)) == x * Eval(f[1..], x) + x * Eval(g[1..], x);
    }
  }

  lemma {:induction false} EvalScale(c: int, f: Poly, x: int)
    ensures Eval(Scale(c, f), x) == c * Eval(f, x)
    decreases |f|
  {
    if f != [] {
      assert Scale(c, f)[1..] == Scale(c, f[1..]);
      EvalScale(c, f[1..], x);
      var t := Eval(f[1..], x);
      assert c * (f[0] + x * t) == c * f[0] + x * (c * t);
    }
  }

  /** Synthetic division: `f(x) - f(a)` divided by `x - a`. */
  function Quotient(f: Poly, a: int): (g: Poly)
    ensures f != [] ==> |g| == |f| - 1
  {
    if |f| <= 1 then [] else Add(f[1..], Scale(a, Quotient(f[1..], a)))
  }

  lemma DivisionStep(x: int, a: int, hx: int, ha: int, qx: int)
    requires hx == ha + (x - a) * qx
    ensures x * hx == a * ha + (x - a) * (hx + a * qx)
  {
    assert (x - a) * (hx + a * qx) == (x - a) * hx + (x - a) * (a * qx);
    assert (x - a) * (a * qx) == a * ((x - a) * qx);
    assert a * (hx - ha) == a * hx - a * ha;
    assert (x - a) * hx == x * hx - a * hx;
  }

  lemma {:induction false} EvalQuotient(f: Poly, a: int, x: int)
    ensures Eval(f, x) == Eval(f, a) + (x - a) * Eval(Quotient(f, a), x)
    decreases |f|
  {
    if |f| == 1 {
      assert f[1..] == [];
    } else if |f| > 1 {
      var h, q := f[1..], Quotient(f[1..], a);
      EvalQuotient(h, a, x);
      EvalAdd(h, Scale(a, q), x);
      EvalScale(a, q, x);
      DivisionStep(x, a, Eval(h, x), Eval(h, a), Eval(q, x));
    }
  }

  /** The product with `x - a`. */
  function TimesRoot(f: Poly, a: int): (g: Poly)
    ensures |g| == |f| + 1
  {
    Add([0] + f, Scale(-a, f))
  }

  lemma EvalTimesRoot(f: Poly, a: int, x: int)
    ensures Eval(TimesRoot(f, a), x) == (x - a) * Eval(f, x)
  {
    EvalAdd([0] + f, Scale(-a, f), x);
    EvalScale(-a, f, x);
    assert ([0] + f)[1..] == f;
  }
}
