/** Power series by Horner's scheme, the coefficients of the power series that equals a Chebyshev
    series, and the affine substitution that moves a series from [-1, 1] to [a, b]. */
module PowerSeries {
  import opened Reals
  import opened Sums
  import Cheb = ChebyshevPolynomials

  ghost function Pow(x: real, n: nat): real {
    if n == 0 then 1.0 else Times(x, Pow(x, n - 1))
  }

  ghost function Powers(x: real, n: nat): (r: Vector)
    ensures |r| == n
  {
    seq(n, i requires 0 <= i < n => Pow(x, i))
  }

  /** The value at x of the power series with coefficients p. */
  ghost function Poly(p: Vector, x: real): real {
    Dot(Powers(x, |p|), p, |p|)
  }

  ghost function RowPolys(m: Matrix, y: real): (r: Vector)
    ensures |r| == |m|
  {
    seq(|m|, i requires 0 <= i < |m| => Poly(m[i], y))
  }

  /** The value at (x, y) of the double power series; rows may have different lengths. */
  ghost function Poly2(m: Matrix, x: real, y: real): real {
    Poly(RowPolys(m, y), x)
  }

  lemma Poly2IsBilinear(m: Matrix, x: real, y: real, cols: nat)
    requires forall i | 0 <= i < |m| :: |m[i]| <= cols
    ensures Poly2(m, x, y) == Bilinear(Powers(x, |m|), m, Powers(y, cols))
  {
    forall i | 0 <= i < |m|
      ensures RowPolys(m, y)[i] == RowDots(m, Powers(y, cols))[i]
    {
      DotSame(Powers(y, |m[i]|), m[i], Powers(y, cols), m[i], |m[i]|);
    }
    assert RowPolys(m, y) == RowDots(m, Powers(y, cols));
  }

  // ----- Horner's scheme

  /** The part of the series from index k on, divided by x to the k. */
  ghost function Horner(p: Vector, k: nat, x: real): real
    decreases |p| - k
  {
    if k >= |p| then 0.0 else p[k] + x * Horner(p, k + 1, x)
  }

  ghost predicate Remainder(total: real, prefix: real, weight: real, rest: real) {
    total == prefix + weight * rest
  }

  ghost predicate HornerLink(h: real, c: real, x: real, h1: real) {
    h == c + x * h1
  }

  lemma RemainderStart(h: real)
    ensures Remainder(h, 0.0, 1.0, h)
  {
  }

  lemma RemainderStep(total: real, prefix: real, longer: real, x: real, w: real, w1: real,
                      c: real, h: real, h1: real)
    requires Remainder(total, prefix, w, h)
    requires AddsProduct(longer, prefix, w, c) && w1 == Times(x, w) && HornerLink(h, c, x, h1)
    ensures Remainder(total, longer, w1, h1)
  {
    calc {
      w * h;
      w * (c + x * h1);
      w * c + (x * w) * h1;
    }
  }

  lemma HornerNext(p: Vector, k: nat, x: real)
    requires k < |p|
    ensures HornerLink(Horner(p, k, x), p[k], x, Horner(p, k + 1, x))
  {
  }

  lemma PowersNext(x: real, n: nat, k: nat)
    requires k < n
    ensures Powers(x, n)[k] == Pow(x, k) && Pow(x, k + 1) == Times(x, Pow(x, k))
  {
    hide Times;
  }

  lemma PrefixStart(p: Vector, x: real)
    ensures Dot(Powers(x, |p|), p, 0) == 0.0 && Pow(x, 0) == 1.0
  {
  }

  lemma {:induction false} HornerPrefix(p: Vector, k: nat, x: real)
    requires k <= |p|
    ensures Remainder(Horner(p, 0, x), Dot(Powers(x, |p|), p, k), Pow(x, k), Horner(p, k, x))
  {
    hide *;
    if k == 0 {
      PrefixStart(p, x);
      RemainderStart(Horner(p, 0, x));
    } else {
      HornerPrefix(p, k - 1, x);
      HornerNext(p, k - 1, x);
      PowersNext(x, |p|, k - 1);
      DotStep(Powers(x, |p|), p, k - 1);
      RemainderStep(Horner(p, 0, x), Dot(Powers(x, |p|), p, k - 1), Dot(Powers(x, |p|), p, k), x,
                    Pow(x, k - 1), Pow(x, k), p[k-1], Horner(p, k - 1, x), Horner(p, k, x));
    }
  }

  lemma HornerIsPoly(p: Vector, x: real)
    ensures Horner(p, 0, x) == Poly(p, x)
  {
    HornerPrefix(p, |p|, x);
    hide Pow, Dot;
    assert Horner(p, |p|, x) == 0.0;
  }

  // ----- From Chebyshev coefficients to power coefficients

  /** The coefficient of x to the k in Clenshaw's remainder of index j. */
  ghost function Coef(c: Vector, j: nat, k: int): real
    decreases |c| - j
  {
    if j >= |c| || k < 0 then 0.0
    else (if k == 0 then c[j] else 0.0) + 2.0 * Coef(c, j + 1, k - 1) - Coef(c, j + 2, k)
  }

  ghost function Coefs(c: Vector, j: nat): (r: Vector)
    ensures |r| == |c|
  {
    seq(|c|, k requires 0 <= k < |c| => Coef(c, j, k))
  }

  lemma {:induction false} CoefDegree(c: Vector, j: nat, k: int)
    requires j + k >= |c|
    ensures Coef(c, j, k) == 0.0
    decreases |c| - j
  {
    if j < |c| {
      CoefDegree(c, j + 1, k - 1);
      CoefDegree(c, j + 2, k);
    }
  }

  /** The power coefficients of the whole series: the last step of Clenshaw's recurrence. */
  ghost function PowerCoef(c: Vector, k: nat): real
    requires k < |c|
  {
    if k == 0 then 0.5 * c[0] - Coef(c, 2, 0) else Coef(c, 1, k - 1) - Coef(c, 2, k)
  }

  ghost function ToPower(c: Vector): (r: Vector)
    ensures |r| == |c|
  {
    seq(|c|, k requires 0 <= k < |c| => PowerCoef(c, k))
  }

  ghost predicate ShiftedBy(total: real, c: real, x: real, q: real, r: real) {
    total == c + x * q - r
  }

  lemma ShiftedByStep(total: real, total': real, c: real, x: real, q: real, q': real, r: real, r': real,
                      w: real, w': real, a: real, b: real)
    requires ShiftedBy(total, c, x, q, r) && AddsProduct(w', 0.0, x, w)
    requires AddsProduct(q', q, w, a) && AddsProduct(r', r, w', b) && AddsProduct(total', total, w', a - b)
    ensures ShiftedBy(total', c, x, q', r')
  {
    calc {
      w' * (a - b);
      (x * w) * a - w' * b;
      x * (w * a) - w' * b;
    }
    assert x * q' == x * q + x * (w * a);
  }

  lemma PowersStep(x: real, n: nat, i: nat)
    requires i + 1 < n
    ensures AddsProduct(Powers(x, n)[i+1], 0.0, x, Powers(x, n)[i])
  {
  }

  lemma ShiftedByFirst(x: real, c: real, d: real, r: real, a0: real, r0: real)
    requires AddsProduct(d, 0.0, 1.0, a0) && AddsProduct(r, 0.0, 1.0, r0) && a0 == c - r0
    ensures ShiftedBy(d, c, x, 0.0, r)
  {
  }

  /** A vector built by shifting q one place up and subtracting r evaluates to the corresponding
      combination of values. */
  lemma {:induction false} ShiftCombine(a: Vector, q: Vector, r: Vector, n: nat, c: real, x: real, m: nat)
    requires 1 <= m <= n == |a| == |q| == |r|
    requires a[0] == c - r[0]
    requires forall k | 1 <= k < n :: a[k] == q[k-1] - r[k]
    ensures ShiftedBy(Dot(Powers(x, n), a, m), c, x, Dot(Powers(x, n), q, m - 1), Dot(Powers(x, n), r, m))
  {
    var w := Powers(x, n);
    assert w[0] == 1.0 && Dot(w, a, 0) == Dot(w, q, 0) == Dot(w, r, 0) == 0.0;
    hide ShiftedBy, AddsProduct, Dot, Pow;
    DotStep(w, a, m - 1);
    DotStep(w, r, m - 1);
    if m == 1 {
      ShiftedByFirst(x, c, Dot(w, a, 1), Dot(w, r, 1), a[0], r[0]);
    } else {
      ShiftCombine(a, q, r, n, c, x, m - 1);
      DotStep(w, q, m - 2);
      PowersStep(x, n, m - 2);
      ShiftedByStep(Dot(w, a, m - 1), Dot(w, a, m), c, x, Dot(w, q, m - 2), Dot(w, q, m - 1),
                    Dot(w, r, m - 1), Dot(w, r, m), w[m-2], w[m-1], q[m-2], r[m-1]);
    }
  }

  ghost function Doubled(v: Vector): (r: Vector)
    ensures |r| == |v|
  {
    seq(|v|, k requires 0 <= k < |v| => v[k] + v[k])
  }

  ghost predicate Twice(q: real, d: real) {
    q == d + d
  }

  lemma DotDoubled(w: Vector, v: Vector, n: nat)
    requires n <= |w| && n <= |v|
    ensures Twice(Dot(w, Doubled(v), n), Dot(w, v, n))
  {
    hide Dot;
    DotAdd(w, v, v, Doubled(v), n);
  }

  lemma DropTopCoef(c: Vector, j: nat, x: real)
    requires 1 <= j && |c| > 0
    ensures Dot(Powers(x, |c|), Coefs(c, j), |c| - 1) == Dot(Powers(x, |c|), Coefs(c, j), |c|)
  {
    hide Dot, Pow;
    CoefDegree(c, j, |c| - 1);
    DotZeroTail(Powers(x, |c|), Coefs(c, j), |c| - 1, |c|);
  }

  lemma CoefsShape(c: Vector, j: nat)
    requires j < |c|
    ensures Coefs(c, j)[0] == c[j] - Coefs(c, j + 2)[0]
    ensures forall k | 1 <= k < |c| :: Coefs(c, j)[k] == Doubled(Coefs(c, j + 1))[k-1] - Coefs(c, j + 2)[k]
  {
    assert Coef(c, j + 1, -1) == 0.0;
  }

  lemma CoefsShift(c: Vector, j: nat, x: real)
    requires j < |c|
    ensures ShiftedBy(Dot(Powers(x, |c|), Coefs(c, j), |c|), c[j], x,
                      Dot(Powers(x, |c|), Doubled(Coefs(c, j + 1)), |c| - 1), Dot(Powers(x, |c|), Coefs(c, j + 2), |c|))
  {
    hide *;
    CoefsShape(c, j);
    ShiftCombine(Coefs(c, j), Doubled(Coefs(c, j + 1)), Coefs(c, j + 2), |c|, c[j], x, |c|);
  }

  lemma ClenshawFromCoefs(x: real, d0: real, q: real, d1: real, d2: real, b0: real, c: real)
    requires ShiftedBy(d0, c, x, q, d2) && Twice(q, d1) && Cheb.Next(x, d2, d1, b0 - c)
    ensures d0 == b0
  {
  }

  /** Clenshaw's remainder is the polynomial with the coefficients Coefs. */
  lemma {:induction false} CoefsAreClenshaw(c: Vector, j: nat, x: real)
    ensures Dot(Powers(x, |c|), Coefs(c, j), |c|) == Cheb.Clenshaw(c, j, x)
    decreases |c| - j
  {
    hide ShiftedBy, Twice, Dot, Pow, Doubled, Cheb.Clenshaw, Cheb.Next;
    if j >= |c| {
      DotZero(Powers(x, |c|), Coefs(c, j), |c|);
      Cheb.ClenshawPast(c, j, x);
    } else {
      CoefsAreClenshaw(c, j + 1, x);
      CoefsAreClenshaw(c, j + 2, x);
      CoefsShift(c, j, x);
      DotDoubled(Powers(x, |c|), Coefs(c, j + 1), |c| - 1);
      DropTopCoef(c, j + 1, x);
      Cheb.ClenshawNext(c, j, x);
      ClenshawFromCoefs(x, Dot(Powers(x, |c|), Coefs(c, j), |c|),
                        Dot(Powers(x, |c|), Doubled(Coefs(c, j + 1)), |c| - 1),
                        Cheb.Clenshaw(c, j + 1, x), Cheb.Clenshaw(c, j + 2, x), Cheb.Clenshaw(c, j, x), c[j]);
    }
  }

  lemma ToPowerShape(c: Vector)
    requires |c| > 0
    ensures ToPower(c)[0] == 0.5 * c[0] - Coefs(c, 2)[0]
    ensures forall k | 1 <= k < |c| :: ToPower(c)[k] == Coefs(c, 1)[k-1] - Coefs(c, 2)[k]
  {
    hide Coef;
  }

  lemma ToPowerShifts(c: Vector, x: real, h: real)
    requires |c| > 0 && h == 0.5 * c[0]
    ensures ShiftedBy(Dot(Powers(x, |c|), ToPower(c), |c|), h, x,
                      Dot(Powers(x, |c|), Coefs(c, 1), |c| - 1), Dot(Powers(x, |c|), Coefs(c, 2), |c|))
  {
    hide *;
    ToPowerShape(c);
    ShiftCombine(ToPower(c), Coefs(c, 1), Coefs(c, 2), |c|, h, x, |c|);
  }

  /** The power series with the coefficients ToPower(c) is the Chebyshev series of c. */
  lemma ToPowerMeans(c: Vector, x: real)
    requires |c| > 0
    ensures Poly(ToPower(c), x) == Cheb.Series(c, x)
  {
    hide Dot, Powers, Coefs, ToPower, ShiftedBy, Cheb.Clenshaw, Cheb.Series;
    var h := 0.5 * c[0];
    ToPowerShifts(c, x, h);
    DropTopCoef(c, 1, x);
    CoefsAreClenshaw(c, 1, x);
    CoefsAreClenshaw(c, 2, x);
    Cheb.ClenshawSums(c, x);
    CombineEqual(Dot(Powers(x, |c|), ToPower(c), |c|), Dot(Powers(x, |c|), Coefs(c, 1), |c| - 1),
                 Cheb.Series(c, x), h, x, Cheb.Clenshaw(c, 1, x), Cheb.Clenshaw(c, 2, x));
  }

  lemma CombineEqual(p: real, q: real, s: real, c: real, x: real, b1: real, b2: real)
    requires ShiftedBy(p, c, x, q, b2) && q == b1
    requires s == x * b1 - b2 + c
    ensures p == s
  {
  }

  // ----- Affine substitution

  ghost function Scale(p: Vector, s: real): (r: Vector)
    ensures |r| == |p|
  {
    seq(|p|, i requires 0 <= i < |p| => Times(p[i], Pow(s, i)))
  }

  lemma {:induction false} PowOfProduct(s: real, x: real, z: real, n: nat)
    requires z == s * x
    ensures Pow(z, n) == Times(Pow(s, n), Pow(x, n))
  {
    if n > 0 {
      hide Times;
      PowOfProduct(s, x, z, n - 1);
      RegroupProduct(s, x, z, Pow(s, n - 1), Pow(x, n - 1));
    }
  }

  lemma RegroupProduct(s: real, x: real, z: real, p: real, q: real)
    requires z == s * x
    ensures Times(z, Times(p, q)) == Times(Times(s, p), Times(x, q))
  {
    assert (s * x) * (p * q) == (s * p) * (x * q);
  }

  lemma ScaleStep(d: real, d1: real, b: real, c: real, a: real, e1: real, ab: real)
    requires AddsProduct(d1, d, b, Times(c, a)) && AddsProduct(e1, d, ab, c) && ab == Times(a, b)
    ensures d1 == e1
  {
    assert b * (c * a) == (a * b) * c;
  }

  lemma {:induction false} ScaleMeans(p: Vector, s: real, x: real, z: real, n: nat)
    requires n <= |p| && z == s * x
    ensures Dot(Powers(x, |p|), Scale(p, s), n) == Dot(Powers(z, |p|), p, n)
  {
    if n == 0 {
      assert Dot(Powers(x, |p|), Scale(p, s), 0) == 0.0 == Dot(Powers(z, |p|), p, 0);
    } else {
      hide AddsProduct, Times, Pow, Dot;
      ScaleMeans(p, s, x, z, n - 1);
      PowOfProduct(s, x, z, n - 1);
      DotStep(Powers(x, |p|), Scale(p, s), n - 1);
      DotStep(Powers(z, |p|), p, n - 1);
      ScaleStep(Dot(Powers(x, |p|), Scale(p, s), n - 1), Dot(Powers(x, |p|), Scale(p, s), n),
                Pow(x, n - 1), p[n-1], Pow(s, n - 1), Dot(Powers(z, |p|), p, n), Pow(z, n - 1));
    }
  }

  function SubtractProduct(p: real, h: real, q: real): real {
    p - h * q
  }

  /** Synthetic division: the entries from index k on after one pass of subtracting h times the
      right neighbour, working leftwards. */
  ghost function Synthetic(p: Vector, h: real, k: nat): real
    requires k < |p|
    decreases |p| - k
  {
    if k == |p| - 1 then p[k] else SubtractProduct(p[k], h, Synthetic(p, h, k + 1))
  }

  /** One pass over the entries from index j on. */
  ghost function Pass(p: Vector, h: real, j: nat): (r: Vector)
    ensures |r| == |p|
  {
    seq(|p|, k requires 0 <= k < |p| => if k < j then p[k] else Synthetic(p, h, k))
  }

  /** All passes from pass j on. */
  ghost function Shift(p: Vector, h: real, j: nat): (r: Vector)
    ensures |r| == |p|
    decreases |p| - j
  {
    if j + 1 >= |p| then p else Shift(Pass(p, h, j), h, j + 1)
  }

  /** One pass divides by (x - h) + h. */
  ghost predicate Divides(value: real, y: real, h: real, first: real, quotient: real) {
    value == first + (y + h) * quotient
  }

  lemma DividesStep(y: real, h: real, p: real, value: real, value1: real, s0: real, s1: real, q0: real, q1: real)
    requires value == p + y * value1 && s0 == SubtractProduct(p, h, s1) && q0 == s1 + y * q1
    requires Divides(value1, y, h, s1, q1)
    ensures Divides(value, y, h, s0, q0)
  {
    calc {
      value;
      s0 + h * s1 + y * (s1 + (y + h) * q1);
      s0 + (y + h) * s1 + (y + h) * (y * q1);
      s0 + (y + h) * q0;
    }
  }

  lemma {:induction false} PassDivides(p: Vector, h: real, j: nat, k: nat, y: real)
    requires j <= k < |p|
    ensures Divides(Horner(p, k, y), y, h, Synthetic(p, h, k), Horner(Pass(p, h, j), k + 1, y))
    decreases |p| - k
  {
    if k < |p| - 1 {
      PassDivides(p, h, j, k + 1, y);
      DividesStep(y, h, p[k], Horner(p, k, y), Horner(p, k + 1, y), Synthetic(p, h, k), Synthetic(p, h, k + 1),
                  Horner(Pass(p, h, j), k + 1, y), Horner(Pass(p, h, j), k + 2, y));
    } else {
      assert Horner(p, k + 1, y) == 0.0;
    }
  }

  lemma {:induction false} ShiftKeeps(p: Vector, h: real, j: nat, k: nat)
    requires k < j && k < |p|
    ensures Shift(p, h, j)[k] == p[k]
    decreases |p| - j
  {
    if j + 1 < |p| {
      ShiftKeeps(Pass(p, h, j), h, j + 1, k);
    }
  }

  /** Repeated synthetic division substitutes x - h for the argument. */
  lemma {:induction false} ShiftMeans(p: Vector, h: real, j: nat, x: real)
    requires j < |p|
    ensures Horner(Shift(p, h, j), j, x) == Horner(p, j, x - h)
    decreases |p| - j
  {
    if j + 1 < |p| {
      var q := Pass(p, h, j);
      ShiftMeans(q, h, j + 1, x);
      ShiftKeeps(q, h, j + 1, j);
      PassDivides(p, h, j, j, x - h);
      assert x - h + h == x;
    } else {
      assert Horner(p, j + 1, x) == 0.0 == Horner(p, j + 1, x - h);
    }
  }

  /** The point of [-1, 1] that corresponds to the point x of [a, b]. */
  ghost function ToUnit(a: real, b: real, x: real): real
    requires a != b
  {
    (2.0 * x - a - b) / (b - a)
  }

  ghost function Recentre(p: Vector, a: real, b: real): (r: Vector)
    requires a != b
    ensures |r| == |p|
  {
    Shift(Scale(p, 2.0 / (b - a)), 0.5 * (a + b), 0)
  }

  lemma ToUnitAffine(a: real, b: real, x: real)
    requires a != b
    ensures ToUnit(a, b, x) == 2.0 / (b - a) * (x - 0.5 * (a + b))
  {
    var d := b - a;
    assert 2.0 / d * (x - 0.5 * (a + b)) == (2.0 * x - a - b) / d;
  }

  lemma RecentreMeans(p: Vector, a: real, b: real, x: real)
    requires a != b && |p| > 0
    ensures Poly(Recentre(p, a, b), x) == Poly(p, ToUnit(a, b, x))
  {
    hide Poly;
    var s, h := 2.0 / (b - a), 0.5 * (a + b);
    var q := Scale(p, s);
    HornerIsPoly(Recentre(p, a, b), x);
    ShiftMeans(q, h, 0, x);
    HornerIsPoly(q, x - h);
    ToUnitAffine(a, b, x);
    ScaledPoly(p, s, x - h, ToUnit(a, b, x));
  }

  lemma ScaledPoly(p: Vector, s: real, x: real, z: real)
    requires z == s * x
    ensures Poly(Scale(p, s), x) == Poly(p, z)
  {
    ScaleMeans(p, s, x, z, |p|);
  }

  // ----- Both variables

  ghost function PowerRow(c: Vector, a: real, b: real): (r: Vector)
    requires a != b
    ensures |r| == |c|
  {
    Recentre(ToPower(c), a, b)
  }

  lemma PowerRowMeans(c: Vector, a: real, b: real, x: real)
    requires a != b && |c| > 0
    ensures Poly(PowerRow(c, a, b), x) == Cheb.Series(c, ToUnit(a, b, x))
  {
    RecentreMeans(ToPower(c), a, b, x);
    ToPowerMeans(c, ToUnit(a, b, x));
  }

  /** Every row converted for the range [a, b] of the second argument. */
  ghost function RowsToPower(m: Matrix, a: real, b: real): (r: Matrix)
    requires a != b
    ensures |r| == |m| && forall i | 0 <= i < |m| :: |r[i]| == |m[i]|
  {
    seq(|m|, i requires 0 <= i < |m| => PowerRow(m[i], a, b))
  }

  /** Every column converted for the range [a, b] of the first argument. */
  ghost function ColumnsToPower(m: Matrix, cols: nat, a: real, b: real): (r: Matrix)
    requires a != b && IsMatrix(m, |m|, cols)
    ensures IsMatrix(r, |m|, cols)
  {
    seq(|m|, i requires 0 <= i < |m| =>
      seq(cols, j requires 0 <= j < cols => PowerRow(Column(m, j), a, b)[i]))
  }

  ghost function ToPower2(m: Matrix, cols: nat, au: real, bu: real, av: real, bv: real): (r: Matrix)
    requires au != bu && av != bv && IsMatrix(m, |m|, cols)
    ensures IsMatrix(r, |m|, cols)
  {
    ColumnsToPower(RowsToPower(m, av, bv), cols, au, bu)
  }

  /** The translated matrix means, as a power series over [au, bu] x [av, bv], what the original
      means as a Chebyshev series over the unit square. */
  lemma ToPower2Means(m: Matrix, cols: nat, au: real, bu: real, av: real, bv: real, x: real, y: real)
    requires au != bu && av != bv && IsMatrix(m, |m|, cols) && |m| > 0 && cols > 0
    ensures Poly2(ToPower2(m, cols, au, bu, av, bv), x, y)
         == Cheb.Series2(m, ToUnit(au, bu, x), ToUnit(av, bv, y))
  {
    hide Poly;
    var d := RowsToPower(m, av, bv);
    var e := ColumnsToPower(d, cols, au, bu);
    var sx, sy := ToUnit(au, bu, x), ToUnit(av, bv, y);
    var wx, wy := Cheb.Weights(sx, |m|), Powers(y, cols);
    Poly2IsBilinear(e, x, y, cols);
    ExchangeSums(Powers(x, |m|), e, wy, |m|);
    forall j | 0 <= j < cols
      ensures ColumnDots(Powers(x, |m|), e, |m|, cols)[j] == ColumnDots(wx, d, |m|, cols)[j]
    {
      assert Column(e, j) == PowerRow(Column(d, j), au, bu);
      PowerRowMeans(Column(d, j), au, bu, x);
      PolyOfColumn(Column(e, j), x);
    }
    assert ColumnDots(Powers(x, |m|), e, |m|, cols) == ColumnDots(wx, d, |m|, cols);
    ExchangeSums(wx, d, wy, |m|);
    forall i | 0 <= i < |m|
      ensures RowDots(d, wy)[i] == Cheb.RowSeries(m, sy)[i]
    {
      PowerRowMeans(m[i], av, bv, y);
      PolyOfColumn(d[i], y);
    }
    assert RowDots(d, wy) == Cheb.RowSeries(m, sy);
  }

  lemma PolyOfColumn(p: Vector, x: real)
    ensures Poly(p, x) == Dot(Powers(x, |p|), p, |p|)
  {
  }
}
