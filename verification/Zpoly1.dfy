/** Evaluation of complex polynomials and their derivatives. */
module Zpoly1 {
  import opened Complexes

  /** The coefficients from index k on, as Horner's scheme combines them. */
  function Horner(cs: seq<Complex>, z: Complex, k: nat): Complex
    requires k < |cs|
    decreases |cs| - k
  {
    if k == |cs| - 1 then cs[k] else Add(cs[k], Mul(z, Horner(cs, z, k + 1)))
  }

  /** The derivative of the scheme. */
  function HornerSlope(cs: seq<Complex>, z: Complex, k: nat): Complex
    requires k < |cs|
    decreases |cs| - k
  {
    if k == |cs| - 1 then ZERO else Add(Horner(cs, z, k + 1), Mul(z, HornerSlope(cs, z, k + 1)))
  }

  /** The sum of C(k) z^(k+1) over the first n coefficients. */
  function Sum(cs: seq<Complex>, z: Complex, n: nat): Complex
    requires n <= |cs|
  {
    if n == 0 then ZERO else Add(Sum(cs, z, n - 1), Mul(cs[n-1], Power(z, n)))
  }

  /** The sum of (k+1) C(k) z^k over the first n coefficients. */
  function SlopeSum(cs: seq<Complex>, z: Complex, n: nat): Complex
    requires n <= |cs|
  {
    if n == 0 then ZERO else Add(SlopeSum(cs, z, n - 1), Scale(n as real, Mul(cs[n-1], Power(z, n - 1))))
  }

  lemma AddShift(a: Complex, b: Complex, c: Complex)
    ensures Add(Add(a, b), c) == Add(a, Add(b, c)) && Add(a, ZERO) == a
  {
  }

  /** One step of the scheme: z^n (c + z h) == c z^n + z^(n+1) h. */
  lemma PowerStep(z: Complex, n: nat, c: Complex, h: Complex)
    ensures Mul(Power(z, n), Add(c, Mul(z, h))) == Add(Mul(c, Power(z, n)), Mul(Power(z, n + 1), h))
  {
    hide Mul, Add;
    var p := Power(z, n);
    MulAdds(p, c, Mul(z, h));
    MulCommutes(p, c);
    MulAssociates(p, z, h);
    MulCommutes(p, z);
  }

  /** The first k terms and the scheme for the others make the whole sum. */
  lemma {:induction false} HornerSums(cs: seq<Complex>, z: Complex, k: nat)
    requires k < |cs|
    ensures Sum(cs, z, |cs|) == Add(Sum(cs, z, k), Mul(Power(z, k + 1), Horner(cs, z, k)))
    decreases |cs| - k
  {
    hide Mul, Add, Power;
    if k == |cs| - 1 {
      MulCommutes(Power(z, k + 1), cs[k]);
    } else {
      HornerSums(cs, z, k + 1);
      PowerStep(z, k + 1, cs[k], Horner(cs, z, k + 1));
      AddShift(Sum(cs, z, k), Mul(cs[k], Power(z, k + 1)), Mul(Power(z, k + 2), Horner(cs, z, k + 1)));
    }
  }

  function Polynomial(cs: seq<Complex>, z: Complex): Complex {
    Sum(cs, z, |cs|)
  }

  function Derivative(cs: seq<Complex>, z: Complex): Complex {
    SlopeSum(cs, z, |cs|)
  }

  lemma PolynomialIs(cs: seq<Complex>, z: Complex)
    requires |cs| > 0
    ensures Polynomial(cs, z) == Mul(z, Horner(cs, z, 0))
  {
    HornerSums(cs, z, 0);
    hide Mul, Add;
    MulOne(z);
    assert Power(z, 0) == ONE && Power(z, 1) == Mul(z, ONE);
    ZeroAdd(Mul(z, Horner(cs, z, 0)));
  }

  lemma ZeroAdd(a: Complex)
    ensures Add(ZERO, a) == a
  {
  }

  lemma ScaleStep(t: real, x: Complex, y: Complex, s: Complex, w: Complex)
    ensures Add(Add(s, Scale(t, Add(x, y))), Add(y, w)) == Add(Add(Add(s, Scale(t, x)), Scale(t + 1.0, y)), w)
  {
    Distributes(t, x.r, y.r);
    Distributes(t, x.i, y.i);
  }

  lemma Distributes(t: real, x: real, y: real)
    ensures t * (x + y) == t * x + t * y && (t + 1.0) * y == t * y + y
  {
  }

  /** The first k terms of the derivative and the slope of the scheme for the others make the whole. */
  lemma {:induction false} SlopeSums(cs: seq<Complex>, z: Complex, k: nat)
    requires k < |cs|
    ensures SlopeSum(cs, z, |cs|)
         == Add(Add(SlopeSum(cs, z, k), Scale((k + 1) as real, Mul(Power(z, k), Horner(cs, z, k)))),
                Mul(Power(z, k + 1), HornerSlope(cs, z, k)))
    decreases |cs| - k
  {
    hide Mul, Add, Power, Scale;
    MulCommutes(Power(z, k), cs[k]);
    if k == |cs| - 1 {
      MulOne(Power(z, k + 1));
      var c := Mul(cs[k], Power(z, k));
      AddShift(Add(SlopeSum(cs, z, k), Scale((k + 1) as real, c)), ZERO, ZERO);
    } else {
      SlopeSums(cs, z, k + 1);
      var h, d := Horner(cs, z, k + 1), HornerSlope(cs, z, k + 1);
      PowerStep(z, k, cs[k], h);
      PowerStep(z, k + 1, h, d);
      MulCommutes(Power(z, k + 1), h);
      var t := (k + 1) as real;
      assert (k + 2) as real == t + 1.0;
      ScaleStep(t, Mul(cs[k], Power(z, k)), Mul(h, Power(z, k + 1)), SlopeSum(cs, z, k), Mul(Power(z, k + 2), d));
    }
  }

  lemma DerivativeIs(cs: seq<Complex>, z: Complex)
    requires |cs| > 0
    ensures Derivative(cs, z) == Add(Horner(cs, z, 0), Mul(z, HornerSlope(cs, z, 0)))
  {
    SlopeSums(cs, z, 0);
    assert Power(z, 0) == ONE && Power(z, 1) == Mul(z, ONE);
    hide Mul, Add, Power;
    var h := Horner(cs, z, 0);
    MulOne(z);
    MulOne(h);
    ScaleOne(h);
    ZeroAdd(h);
  }

  lemma ScaleOne(a: Complex)
    ensures Scale(1.0, a) == a
  {
  }

  /** What is left of the scheme at w behind its value and slope at z. */
  function Remainder(cs: seq<Complex>, z: Complex, w: Complex, k: nat): Complex
    requires k < |cs|
    decreases |cs| - k
  {
    if k == |cs| - 1 then ZERO else Add(HornerSlope(cs, z, k + 1), Mul(w, Remainder(cs, z, w, k + 1)))
  }

  lemma TaylorStep(c: Complex, z: Complex, w: Complex, h: Complex, d: Complex, e: Complex, r: Complex, hw: Complex)
    requires w == Add(z, e) && hw == Add(Add(h, Mul(d, e)), Mul(Mul(e, e), r))
    ensures Add(c, Mul(w, hw))
         == Add(Add(Add(c, Mul(z, h)), Mul(Add(h, Mul(z, d)), e)), Mul(Mul(e, e), Add(d, Mul(w, r))))
  {
    hide Mul;
    var ee, de := Mul(e, e), Mul(d, e);
    assert Mul(w, hw) == Add(Add(Mul(w, h), Mul(w, de)), Mul(w, Mul(ee, r))) by {
      MulAdds(w, Add(h, de), Mul(ee, r));
      MulAdds(w, h, de);
    }
    MulAdds(h, z, e);
    MulAdds(de, z, e);
    assert Mul(w, Mul(ee, r)) == Mul(ee, Mul(w, r)) by {
      MulAssociates(w, ee, r);
      MulCommutes(w, ee);
      MulAssociates(ee, w, r);
    }
    assert Mul(Add(h, Mul(z, d)), e) == Add(Mul(e, h), Mul(z, de)) by {
      MulAdds(e, h, Mul(z, d));
      MulAssociates(z, d, e);
      MulCommutes(h, e);
    }
    assert Mul(ee, Add(d, Mul(w, r))) == Add(Mul(e, de), Mul(ee, Mul(w, r))) by {
      MulAdds(ee, d, Mul(w, r));
      MulAssociates(e, e, d);
      MulCommutes(e, d);
    }
  }

  lemma {:induction false} HornerTaylor(cs: seq<Complex>, z: Complex, w: Complex, k: nat)
    requires k < |cs|
    ensures var e := Sub(w, z);
            Horner(cs, w, k) == Add(Add(Horner(cs, z, k), Mul(HornerSlope(cs, z, k), e)),
                                    Mul(Mul(e, e), Remainder(cs, z, w, k)))
    decreases |cs| - k
  {
    var e := Sub(w, z);
    assert w == Add(z, e);
    hide Mul, Sub;
    if k == |cs| - 1 {
      MulOne(e);
      MulOne(Mul(e, e));
    } else {
      HornerTaylor(cs, z, w, k + 1);
      hide Add;
      TaylorStep(cs[k], z, w, Horner(cs, z, k + 1), HornerSlope(cs, z, k + 1), e, Remainder(cs, z, w, k + 1),
                 Horner(cs, w, k + 1));
    }
  }

  /** The polynomial at w differs from its tangent at z by a multiple of (w - z)^2. */
  lemma Taylor(cs: seq<Complex>, z: Complex, w: Complex) returns (r: Complex)
    requires |cs| > 0
    ensures var e := Sub(w, z);
            Sub(Sub(Polynomial(cs, w), Polynomial(cs, z)), Mul(Derivative(cs, z), e)) == Mul(Mul(e, e), r)
  {
    var e := Sub(w, z);
    assert w == Add(z, e);
    var h, d, t := Horner(cs, z, 0), HornerSlope(cs, z, 0), Remainder(cs, z, w, 0);
    hide Mul;
    HornerTaylor(cs, z, w, 0);
    PolynomialIs(cs, w);
    PolynomialIs(cs, z);
    DerivativeIs(cs, z);
    r := Add(d, Mul(w, t));
    TaylorStep(ZERO, z, w, h, d, e, t, Horner(cs, w, 0));
    hide Horner, HornerSlope, Remainder, Sum, SlopeSum;
  }

  // ----- The evaluators

  /** One step of the scheme as it is computed. */
  function Step(c: Complex, z: Complex, a: Complex): Complex {
    Complex(c.r + z.r * a.r - z.i * a.i, c.i + z.r * a.i + z.i * a.r)
  }

  /** The last step, without a coefficient. */
  function LastStep(z: Complex, a: Complex): Complex {
    Complex(z.r * a.r - z.i * a.i, z.r * a.i + z.i * a.r)
  }

  lemma StepIs(c: Complex, z: Complex, a: Complex)
    ensures Step(c, z, a) == Add(c, Mul(z, a))
  {
  }

  /** Evaluates the polynomial with coefficients C(0) to C(n). */
  method Evaluate(z: Complex, cs: array<Complex>, n: nat) returns (a: Complex)
    requires n < cs.Length
    ensures a == Polynomial(cs[..n+1], z)
  {
    hide Add, Mul, Step, LastStep;
    ghost var coefficients := cs[..n+1];
    var c := n;
    a := cs[c];
    var left := n;
    while left > 0
      invariant 0 <= left == c <= n && a == Horner(coefficients, z, c)
    {
      left := left - 1;
      c := c - 1;
      StepIs(cs[c], z, a);
      a := Step(cs[c], z, a);
    }
    PolynomialIs(coefficients, z);
    ProductIs(z, a);
    a := LastStep(z, a);
  }

  lemma ProductIs(z: Complex, a: Complex)
    ensures LastStep(z, a) == Mul(z, a)
  {
  }

  /** Evaluates the polynomial and its derivative. */
  method EvaluateWithDerivative(z: Complex, cs: array<Complex>, n: nat) returns (a: Complex, der: Complex)
    requires 1 <= n < cs.Length
    ensures a == Polynomial(cs[..n+1], z) && der == Derivative(cs[..n+1], z)
  {
    hide Add, Mul, Step, LastStep;
    ghost var coefficients := cs[..n+1];
    var first := true;
    var b := ZERO;
    var c := n;
    a := cs[c];
    var left := n;
    while left > 0
      invariant 0 <= left == c <= n && a == Horner(coefficients, z, c)
      invariant first <==> c == n
      invariant !first ==> b == HornerSlope(coefficients, z, c)
    {
      left := left - 1;
      if first {
        first := false;
        b := a;
        MulOne(z);
        AddShift(a, ZERO, ZERO);
      } else {
        StepIs(a, z, b);
        b := Step(a, z, b);
      }
      c := c - 1;
      StepIs(cs[c], z, a);
      a := Step(cs[c], z, a);
    }
    PolynomialIs(coefficients, z);
    DerivativeIs(coefficients, z);
    StepIs(a, z, b);
    ProductIs(z, a);
    der := Step(a, z, b);
    a := LastStep(z, a);
  }
}
