/** Sums of sine series of the extended transverse Mercator projection. */
module EtMerc {
  import opened Complexes
  import ChebyshevPolynomials
  import opened Reals

  /** The sine of the k-fold angle, from the sine and twice the cosine of the angle. */
  function Sine(k: nat, s: Complex, c2: Complex): Complex {
    if k == 0 then ZERO else if k == 1 then s else Sub(Mul(c2, Sine(k - 1, s, c2)), Sine(k - 2, s, c2))
  }

  /** The sum of a(k) times the sine of the (k+1)-fold angle, from index p on. */
  function SineSum(a: seq<real>, p: nat, s: Complex, c2: Complex): Complex
    requires p <= |a|
    decreases |a| - p
  {
    if p == |a| then ZERO else Add(Scale(a[p], Sine(p + 1, s, c2)), SineSum(a, p + 1, s, c2))
  }

  /** The terms from index p on in terms of two sums of Clenshaw's scheme. */
  ghost predicate Split(a: seq<real>, p: nat, s: Complex, c2: Complex, h: Complex, h1: Complex)
    requires p <= |a|
  {
    SineSum(a, p, s, c2) == Sub(Mul(h, Sine(p + 1, s, c2)), Mul(h1, Sine(p, s, c2)))
  }

  function Lifted(x: real): Complex {
    Complex(x, 0.0)
  }

  lemma LiftedMul(x: real, z: Complex)
    ensures Mul(Lifted(x), z) == Scale(x, z)
  {
  }

  lemma SplitStart(a: seq<real>, s: Complex, c2: Complex)
    requires |a| > 0
    ensures Split(a, |a| - 1, s, c2, Lifted(a[|a|-1]), ZERO)
  {
    var p := |a| - 1;
    hide Mul, Sine, Scale;
    LiftedMul(a[p], Sine(p + 1, s, c2));
    MulOne(Sine(p, s, c2));
    assert SineSum(a, p + 1, s, c2) == ZERO;
    hide Lifted;
  }

  /** The next sum: h for the index before, when h1 and h2 are the two sums before. */
  function NextSum(x: real, c2: Complex, h1: Complex, h2: Complex): Complex {
    Add(Sub(Mul(c2, h1), h2), Lifted(x))
  }

  /** The scalar heart of a step. */
  lemma SplitAlgebra(x: real, c2: Complex, h1: Complex, h2: Complex, s0: Complex, s1: Complex)
    ensures Add(Scale(x, s1), Sub(Mul(h1, Sub(Mul(c2, s1), s0)), Mul(h2, s1)))
         == Sub(Mul(NextSum(x, c2, h1, h2), s1), Mul(h1, s0))
  {
    hide Mul, Scale;
    var m := Mul(c2, h1);
    MulSubs(h1, Mul(c2, s1), s0);
    MulAssociates(h1, c2, s1);
    MulCommutes(h1, c2);
    MulAdds(s1, Sub(m, h2), Lifted(x));
    MulSubs(s1, m, h2);
    LiftedMul(x, s1);
  }

  lemma SplitStep(a: seq<real>, p: nat, s: Complex, c2: Complex, h1: Complex, h2: Complex)
    requires 0 < p < |a| && Split(a, p, s, c2, h1, h2)
    ensures Split(a, p - 1, s, c2, NextSum(a[p-1], c2, h1, h2), h1)
  {
    SplitAlgebra(a[p-1], c2, h1, h2, Sine(p - 1, s, c2), Sine(p, s, c2));
    hide Mul, Scale, NextSum, Add, Sub;
    assert Sine(p + 1, s, c2) == Sub(Mul(c2, Sine(p, s, c2)), Sine(p - 1, s, c2));
  }

  lemma SplitDone(a: seq<real>, s: Complex, c2: Complex, h: Complex, h1: Complex)
    requires |a| > 0 && Split(a, 0, s, c2, h, h1)
    ensures SineSum(a, 0, s, c2) == Mul(h, s)
  {
    MulOne(h1);
    hide Mul;
  }

  /** The next sum as the loops compute it. */
  lemma NextSumIs(x: real, r: real, i: real, hr1: real, hi1: real, hr2: real, hi2: real)
    ensures NextSum(x, Complex(r, i), Complex(hr1, hi1), Complex(hr2, hi2))
         == Complex(-hr2 + Times(r, hr1) - Times(i, hi1) + x, -hi2 + Times(i, hr1) + Times(r, hi1))
  {
    assert Mul(Complex(r, i), Complex(hr1, hi1)) == Complex(r * hr1 - i * hi1, r * hi1 + i * hr1);
    hide Mul;
  }

  lemma RealNextSum(x: real, r: real, h1: real, h2: real)
    ensures NextSum(x, Lifted(r), Lifted(h1), Lifted(h2)) == Lifted(-h2 + Times(r, h1) + x)
  {
    assert Mul(Complex(r, 0.0), Complex(h1, 0.0)) == Complex(r * h1, 0.0);
    hide Mul;
  }

  lemma RealProduct(h: real, s: real)
    ensures Mul(Lifted(h), Lifted(s)) == Lifted(Times(s, h))
  {
  }

  lemma ProductIs(h: Complex, s: Complex)
    ensures Mul(h, s) == Complex(Times(s.r, h.r) - Times(s.i, h.i), Times(s.r, h.i) + Times(s.i, h.r))
  {
  }

  // ----- The summation loops

  lemma LiftedZero(x: real)
    ensures Lifted(0.0) == ZERO && Complex(x, 0.0) == Lifted(x)
  {
  }

  function ComplexSine(sinR: real, cosR: real, sinhI: real, coshI: real): Complex {
    Complex(sinR * coshI, cosR * sinhI)
  }

  function TwiceCosine(sinR: real, cosR: real, sinhI: real, coshI: real): Complex {
    Complex(2.0 * cosR * coshI, -2.0 * sinR * sinhI)
  }

  /** Sums a series of complex arguments, from the sine and cosine of the real part and the
      exponentials of the imaginary part and of its negative. */
  method ClenS(a: array<real>, size: nat, sinR: real, cosR: real, expI: real, pxeI: real) returns (re: real, im: real)
    requires 0 < size <= a.Length
    ensures var (sinhI, coshI) := ((expI - pxeI) / 2.0, (expI + pxeI) / 2.0);
            Complex(re, im) == SineSum(a[..size], 0, ComplexSine(sinR, cosR, sinhI, coshI),
                                       TwiceCosine(sinR, cosR, sinhI, coshI))
  {
    hide Split, SineSum, NextSum, Mul, Lifted, Times, ComplexSine, TwiceCosine;
    var sinhI, coshI := (expI - pxeI) / 2.0, (expI + pxeI) / 2.0;
    var s, c2 := ComplexSine(sinR, cosR, sinhI, coshI), TwiceCosine(sinR, cosR, sinhI, coshI);
    var r, i := c2.r, c2.i;
    ghost var all := a[..size];
    var p: nat := size - 1;
    var hr, hi, hr1, hi1 := a[p], 0.0, 0.0, 0.0;
    SplitStart(all, s, c2);
    LiftedZero(hr);
    while p > 0
      invariant p < size && Split(all, p, s, c2, Complex(hr, hi), Complex(hr1, hi1))
    {
      var hr2, hi2 := hr1, hi1;
      hr1, hi1 := hr, hi;
      SplitStep(all, p, s, c2, Complex(hr1, hi1), Complex(hr2, hi2));
      NextSumIs(a[p-1], r, i, hr1, hi1, hr2, hi2);
      p := p - 1;
      hr := -hr2 + Times(r, hr1) - Times(i, hi1) + a[p];
      hi := -hi2 + Times(i, hr1) + Times(r, hi1);
    }
    SplitDone(all, s, c2, Complex(hr, hi), Complex(hr1, hi1));
    ProductIs(Complex(hr, hi), s);
    re, im := Times(s.r, hr) - Times(s.i, hi), Times(s.r, hi) + Times(s.i, hr);
  }

  /** Sums a series of real arguments. */
  method Clens(a: array<real>, size: nat, sinR: real, cosR: real) returns (sum: real)
    requires 0 < size <= a.Length
    ensures Lifted(sum) == SineSum(a[..size], 0, Lifted(sinR), Lifted(2.0 * cosR))
  {
    hide Split, SineSum, NextSum, Mul, Lifted, Times, ComplexSine, TwiceCosine;
    var r := 2.0 * cosR;
    ghost var s, c2 := Lifted(sinR), Lifted(r);
    ghost var all := a[..size];
    var p: nat := size - 1;
    var hr, hr1 := a[p], 0.0;
    SplitStart(all, s, c2);
    LiftedZero(0.0);
    while p > 0
      invariant p < size && Split(all, p, s, c2, Lifted(hr), Lifted(hr1))
    {
      var hr2 := hr1;
      hr1 := hr;
      SplitStep(all, p, s, c2, Lifted(hr1), Lifted(hr2));
      RealNextSum(a[p-1], r, hr1, hr2);
      p := p - 1;
      hr := -hr2 + Times(r, hr1) + a[p];
    }
    SplitDone(all, s, c2, Lifted(hr), Lifted(hr1));
    RealProduct(hr, sinR);
    sum := Times(sinR, hr);
  }

  /** A latitude plus a series in twice the latitude; a single coefficient has no effect. */
  method Gatg(p1: array<real>, len: nat, b: real, sin2B: real, cos2B: real) returns (lat: real)
    requires 0 < len <= p1.Length
    ensures len >= 2 ==> Lifted(lat - b) == SineSum(p1[..len], 0, Lifted(sin2B), Lifted(2.0 * cos2B))
    ensures len == 1 ==> lat == b
  {
    hide Split, SineSum, NextSum, Mul, Lifted, Times, ComplexSine, TwiceCosine;
    var twice := 2.0 * cos2B;
    ghost var s, c2 := Lifted(sin2B), Lifted(twice);
    ghost var all := p1[..len];
    var p: nat := len - 1;
    var h, h1, h2 := 0.0, p1[p], 0.0;
    SplitStart(all, s, c2);
    LiftedZero(0.0);
    while p > 0
      invariant p < len && Split(all, p, s, c2, Lifted(h1), Lifted(h2))
      invariant h == if p == len - 1 then 0.0 else h1
    {
      SplitStep(all, p, s, c2, Lifted(h1), Lifted(h2));
      RealNextSum(p1[p-1], twice, h1, h2);
      p := p - 1;
      h := -h2 + Times(twice, h1) + p1[p];
      h2 := h1;
      h1 := h;
    }
    if len >= 2 {
      SplitDone(all, s, c2, Lifted(h1), Lifted(h2));
      RealProduct(h1, sin2B);
    }
    TimesZero(sin2B);
    lat := b + Times(sin2B, h);
  }

  lemma OneTerm(x: real, s: Complex, c2: Complex)
    ensures SineSum([x], 0, s, c2) == Scale(x, s)
  {
    hide Mul, Scale;
    assert SineSum([x], 1, s, c2) == ZERO;
    assert Sine(1, s, c2) == s;
  }

  /** With one coefficient the shortcut agrees with the series exactly when that term is zero. */
  lemma SingleTerm(x: real, sin2B: real, cos2B: real)
    ensures SineSum([x], 0, Lifted(sin2B), Lifted(2.0 * cos2B)) == ZERO <==> x == 0.0 || sin2B == 0.0
  {
    OneTerm(x, Lifted(sin2B), Lifted(2.0 * cos2B));
    hide SineSum;
    ZeroProduct(x, sin2B);
  }

  lemma ZeroProduct(x: real, y: real)
    ensures x * y == 0.0 <==> x == 0.0 || y == 0.0
  {
    if x > 0.0 && y > 0.0 { assert x * y > 0.0; }
    if x > 0.0 && y < 0.0 { assert x * y < 0.0; }
    if x < 0.0 && y > 0.0 { assert x * y < 0.0; }
    if x < 0.0 && y < 0.0 { assert x * y > 0.0; }
  }

  // ----- Multiple angles

  /** The angle is turned k times; s and c2 / 2 are its sine and cosine. */
  lemma {:induction false} PowerIsTurn(k: nat, s: real, c: real)
    requires c * c + s * s == 1.0
    ensures Power(Complex(c, s), k) == Complex(ChebyshevPolynomials.T(k, c), Times(s, ChebyshevPolynomials.V(k, c)))
  {
    if k == 0 {
      TimesZero(s);
    } else {
      PowerIsTurn(k - 1, s, c);
      ChebyshevPolynomials.Addition(k - 1, c);
      var t, v := ChebyshevPolynomials.T(k - 1, c), ChebyshevPolynomials.V(k - 1, c);
      var t1, v1 := ChebyshevPolynomials.T(k, c), ChebyshevPolynomials.V(k, c);
      TurnIs(c, s, t, v, t1, v1);
    }
  }

  lemma TurnIs(c: real, s: real, t: real, v: real, t1: real, v1: real)
    requires c * c + s * s == 1.0 && ChebyshevPolynomials.Turn(c, t, v, t1, v1)
    ensures Mul(Complex(c, s), Complex(t, Times(s, v))) == Complex(t1, Times(s, v1))
  {
    assert s * (s * v) == (s * s) * v;
    assert s * s == 1.0 - c * c;
    assert s * (c * v + t) == c * (s * v) + s * t;
  }

  lemma {:induction false} SineIsV(k: nat, s: real, c: real)
    ensures Sine(k, Lifted(s), Lifted(2.0 * c)) == Lifted(Times(s, ChebyshevPolynomials.V(k, c)))
  {
    if k == 0 {
      TimesZero(s);
    } else if k > 1 {
      SineIsV(k - 1, s, c);
      SineIsV(k - 2, s, c);
      SineStep(s, c, ChebyshevPolynomials.V(k - 1, c), ChebyshevPolynomials.V(k - 2, c));
    }
  }

  lemma SineStep(s: real, c: real, v1: real, v0: real)
    ensures Sub(Mul(Lifted(2.0 * c), Lifted(Times(s, v1))), Lifted(Times(s, v0)))
         == Lifted(Times(s, 2.0 * (c * v1) - v0))
  {
    assert 2.0 * c * (s * v1) == s * (2.0 * (c * v1));
  }

  /** The recurrence gives true multiple angles: the sine of the k-fold angle is the imaginary part
      of the k-th power of the point of the unit circle at the angle. */
  lemma SineIsMultipleAngle(k: nat, s: real, c: real)
    requires c * c + s * s == 1.0
    ensures Sine(k, Lifted(s), Lifted(2.0 * c)) == Lifted(Power(Complex(c, s), k).i)
  {
    hide Power, Sine;
    PowerIsTurn(k, s, c);
    SineIsV(k, s, c);
  }

  /** The complex sine and cosine are those of the angle: cosine plus and minus i times the sine are the
      exponentials of plus and minus i times the angle. */
  lemma ComplexAngle(sinR: real, cosR: real, sinhI: real, coshI: real)
    ensures var s, c := ComplexSine(sinR, cosR, sinhI, coshI), Scale(0.5, TwiceCosine(sinR, cosR, sinhI, coshI));
            && Add(c, Mul(I, s)) == Scale(coshI - sinhI, Complex(cosR, sinR))
            && Sub(c, Mul(I, s)) == Scale(coshI + sinhI, Complex(cosR, -sinR))
  {
  }

  const I := Complex(0.0, 1.0)

  lemma {:induction false} PowerSteps(w: Complex, v: Complex, k: nat)
    requires Mul(w, v) == ONE
    ensures Power(w, k + 2) == Sub(Mul(Add(w, v), Power(w, k + 1)), Power(w, k))
  {
    hide Mul;
    var p := Power(w, k);
    assert Power(w, k + 1) == Mul(w, p) && Power(w, k + 2) == Mul(w, Mul(w, p));
    MulAdds(Mul(w, p), w, v);
    MulAssociates(v, w, p);
    MulCommutes(v, w);
    MulOne(p);
  }

  /** The recurrence gives true multiple angles for complex arguments, too: with the exponentials w and v
      of the angle and of its negative, 2i times the sine of the k-fold angle is the difference of their
      k-th powers. */
  lemma {:induction false} ComplexMultipleAngle(k: nat, s: Complex, c2: Complex, w: Complex, v: Complex)
    requires Mul(w, v) == ONE && Add(w, v) == c2 && Sub(w, v) == Mul(Complex(0.0, 2.0), s)
    ensures Mul(Complex(0.0, 2.0), Sine(k, s, c2)) == Sub(Power(w, k), Power(v, k))
  {
    hide Mul, Sub, Power;
    var i2 := Complex(0.0, 2.0);
    if k < 2 {
      FirstAngles(i2, s, c2, w, v, k);
    } else {
      ComplexMultipleAngle(k - 1, s, c2, w, v);
      ComplexMultipleAngle(k - 2, s, c2, w, v);
      MulCommutes(w, v);
      AddCommutes(w, v);
      PowerSteps(w, v, k - 2);
      PowerSteps(v, w, k - 2);
      DifferenceStep(i2, c2, Sine(k - 1, s, c2), Sine(k - 2, s, c2), Power(w, k - 1), Power(v, k - 1),
                     Power(w, k - 2), Power(v, k - 2));
    }
  }

  lemma FirstPowers(z: Complex)
    ensures Power(z, 0) == ONE && Power(z, 1) == z
  {
    MulOne(z);
    hide Mul;
    assert Power(z, 1) == Mul(z, Power(z, 0));
  }

  lemma FirstAngles(i2: Complex, s: Complex, c2: Complex, w: Complex, v: Complex, k: nat)
    requires Sub(w, v) == Mul(i2, s) && k < 2
    ensures Mul(i2, Sine(k, s, c2)) == Sub(Power(w, k), Power(v, k))
  {
    MulOne(i2);
    FirstPowers(w);
    FirstPowers(v);
    hide Mul, Power;
  }

  lemma AddCommutes(a: Complex, b: Complex)
    ensures Add(a, b) == Add(b, a)
  {
  }

  lemma DifferenceStep(i2: Complex, c2: Complex, s1: Complex, s0: Complex, w1: Complex, v1: Complex,
                       w0: Complex, v0: Complex)
    requires Mul(i2, s1) == Sub(w1, v1) && Mul(i2, s0) == Sub(w0, v0)
    ensures Mul(i2, Sub(Mul(c2, s1), s0)) == Sub(Sub(Mul(c2, w1), w0), Sub(Mul(c2, v1), v0))
  {
    hide Mul;
    MulSubs(i2, Mul(c2, s1), s0);
    MulAssociates(i2, c2, s1);
    MulCommutes(i2, c2);
    MulAssociates(c2, i2, s1);
    MulSubs(c2, w1, v1);
  }
}
