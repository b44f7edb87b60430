/** Finite weighted sums over the reals and the little linear algebra that every series in this
    project is an instance of: a power series, a Chebyshev series and a cosine transform are all
    a weight vector applied to a coefficient vector. */
module Sums {
  import opened Reals

  type Vector = seq<real>
  type Matrix = seq<seq<real>>

  ghost predicate IsMatrix(m: Matrix, rows: nat, cols: nat) {
    |m| == rows && forall i | 0 <= i < rows :: |m[i]| == cols
  }

  lemma MulNonNegative(x: real, y: real)
    requires x >= 0.0 && y >= 0.0
    ensures x * y >= 0.0
  {
  }

  lemma ContractAbs(x: real, y: real, p: real)
    requires -1.0 <= x <= 1.0 && p == x * y
    ensures Abs(p) <= Abs(y)
  {
    MulNonNegative(1.0 - x, Abs(y));
    MulNonNegative(1.0 + x, Abs(y));
    assert x * -y == -(x * y);
  }

  lemma AbsOfSum(x: real, y: real)
    ensures Abs(x + y) <= Abs(x) + Abs(y)
  {
  }

  /** The first n terms of the scalar product of w and v. */
  ghost function Dot(w: Vector, v: Vector, n: nat): real
    requires n <= |w| && n <= |v|
  {
    if n == 0 then 0.0 else Dot(w, v, n - 1) + w[n-1] * v[n-1]
  }

  ghost predicate AddsProduct(sum: real, prefix: real, x: real, y: real) {
    sum == prefix + x * y
  }

  lemma DotStep(w: Vector, v: Vector, n: nat)
    requires n < |w| && n < |v|
    ensures AddsProduct(Dot(w, v, n + 1), Dot(w, v, n), w[n], v[n])
  {
  }

  /** The sum of the absolute values of the first n entries. */
  ghost function AbsSum(v: Vector, n: nat): (r: real)
    requires n <= |v|
    ensures r >= 0.0
  {
    if n == 0 then 0.0 else AbsSum(v, n - 1) + Abs(v[n-1])
  }

  ghost function Column(m: Matrix, j: nat): (r: Vector)
    requires forall i | 0 <= i < |m| :: j < |m[i]|
    ensures |r| == |m|
  {
    seq(|m|, i requires 0 <= i < |m| => m[i][j])
  }

  /** Each row of m against z. */
  ghost function RowDots(m: Matrix, z: Vector): (r: Vector)
    requires forall i | 0 <= i < |m| :: |m[i]| <= |z|
    ensures |r| == |m|
  {
    seq(|m|, i requires 0 <= i < |m| => Dot(z, m[i], |m[i]|))
  }

  /** The first n entries of each column of m against w. */
  ghost function ColumnDots(w: Vector, m: Matrix, n: nat, cols: nat): (r: Vector)
    requires IsMatrix(m, |m|, cols) && n <= |w| && n <= |m|
    ensures |r| == cols
  {
    seq(cols, j requires 0 <= j < cols => Dot(w, Column(m, j), n))
  }

  /** The bilinear form: sum of w[i] * z[j] * m[i][j].  Rows may have different lengths. */
  ghost function Bilinear(w: Vector, m: Matrix, z: Vector): real
    requires |m| <= |w| && forall i | 0 <= i < |m| :: |m[i]| <= |z|
  {
    Dot(w, RowDots(m, z), |m|)
  }

  lemma LinearStep(w: real, a: real, b: real, c: real, k: real, da: real, db: real, dc: real,
                   ea: real, eb: real, ec: real)
    requires AddsProduct(c, a, k, b) && AddsProduct(dc, da, k, db)
    requires AddsProduct(ea, da, w, a) && AddsProduct(eb, db, w, b) && AddsProduct(ec, dc, w, c)
    ensures AddsProduct(ec, ea, k, eb)
  {
    calc {
      w * c;
      w * (a + k * b);
      w * a + k * (w * b);
    }
  }

  lemma AddsNothing(k: real)
    ensures AddsProduct(0.0, 0.0, k, 0.0)
  {
  }

  lemma DotEmpty(w: Vector, v: Vector)
    ensures Dot(w, v, 0) == 0.0
  {
  }

  lemma {:induction false} DotLinear(w: Vector, a: Vector, b: Vector, c: Vector, k: real, n: nat)
    requires n <= |w| && n <= |a| && n <= |b| && n <= |c|
    requires forall i | 0 <= i < n :: AddsProduct(c[i], a[i], k, b[i])
    ensures AddsProduct(Dot(w, c, n), Dot(w, a, n), k, Dot(w, b, n))
  {
    hide AddsProduct, Dot;
    if n == 0 {
      DotEmpty(w, a);
      DotEmpty(w, b);
      DotEmpty(w, c);
      AddsNothing(k);
    } else {
      DotLinear(w, a, b, c, k, n - 1);
      DotStep(w, a, n - 1);
      DotStep(w, b, n - 1);
      DotStep(w, c, n - 1);
      LinearStep(w[n-1], a[n-1], b[n-1], c[n-1], k, Dot(w, a, n - 1), Dot(w, b, n - 1), Dot(w, c, n - 1),
                 Dot(w, a, n), Dot(w, b, n), Dot(w, c, n));
    }
  }

  lemma {:induction false} DotAdd(w: Vector, a: Vector, b: Vector, c: Vector, n: nat)
    requires n <= |w| && n <= |a| && n <= |b| && n <= |c|
    requires forall i | 0 <= i < n :: c[i] == a[i] + b[i]
    ensures Dot(w, c, n) == Dot(w, a, n) + Dot(w, b, n)
  {
    if n > 0 {
      DotAdd(w, a, b, c, n - 1);
      assert w[n-1] * c[n-1] == w[n-1] * a[n-1] + w[n-1] * b[n-1];
    }
  }

  lemma {:induction false} DotScale(w: Vector, a: Vector, c: Vector, k: real, n: nat)
    requires n <= |w| && n <= |a| && n <= |c|
    requires forall i | 0 <= i < n :: c[i] == k * a[i]
    ensures Dot(w, c, n) == k * Dot(w, a, n)
  {
    if n > 0 {
      DotScale(w, a, c, k, n - 1);
      assert w[n-1] * c[n-1] == k * (w[n-1] * a[n-1]);
    }
  }

  lemma {:induction false} DotSame(w: Vector, v: Vector, w': Vector, v': Vector, n: nat)
    requires n <= |w| && n <= |v| && n <= |w'| && n <= |v'|
    requires forall i | 0 <= i < n :: w[i] == w'[i] && v[i] == v'[i]
    ensures Dot(w, v, n) == Dot(w', v', n)
  {
    if n > 0 {
      DotSame(w, v, w', v', n - 1);
    }
  }

  lemma {:induction false} DotSymmetric(w: Vector, v: Vector, n: nat)
    requires n <= |w| && n <= |v|
    ensures Dot(w, v, n) == Dot(v, w, n)
  {
    if n > 0 {
      DotSymmetric(w, v, n - 1);
    }
  }

  lemma {:induction false} DotZero(w: Vector, v: Vector, n: nat)
    requires n <= |w| && n <= |v|
    requires forall i | 0 <= i < n :: v[i] == 0.0
    ensures Dot(w, v, n) == 0.0
  {
    if n > 0 {
      DotZero(w, v, n - 1);
    }
  }

  /** Dropping a tail of zeros does not change a sum. */
  lemma {:induction false} DotZeroTail(w: Vector, v: Vector, m: nat, n: nat)
    requires m <= n <= |w| && n <= |v|
    requires forall i | m <= i < n :: v[i] == 0.0
    ensures Dot(w, v, n) == Dot(w, v, m)
    decreases n
  {
    if m < n {
      DotZeroTail(w, v, m, n - 1);
    }
  }

  /** Picking one entry out: all other products vanish. */
  lemma {:induction false} DotPick(w: Vector, v: Vector, k: nat, n: nat)
    requires k < n <= |w| && n <= |v|
    requires forall i | 0 <= i < n && i != k :: w[i] == 0.0
    ensures AddsProduct(Dot(w, v, n), 0.0, w[k], v[k])
    decreases n
  {
    if k < n - 1 {
      DotPick(w, v, k, n - 1);
    } else {
      DotSymmetric(w, v, k);
      DotZero(v, w, k);
      DotStep(w, v, k);
    }
  }

  /** Weights of absolute value at most one lose nothing but signs and cancellation. */
  lemma {:induction false} DotBounded(w: Vector, v: Vector, n: nat)
    requires n <= |w| && n <= |v|
    requires forall i | 0 <= i < n :: -1.0 <= w[i] <= 1.0
    ensures Abs(Dot(w, v, n)) <= AbsSum(v, n)
  {
    if n > 0 {
      DotBounded(w, v, n - 1);
      DotStep(w, v, n - 1);
      var p := w[n-1] * v[n-1];
      ContractAbs(w[n-1], v[n-1], p);
      AbsOfSum(Dot(w, v, n - 1), p);
    }
  }

  lemma {:induction false} AbsSumMonotone(u: Vector, v: Vector, n: nat)
    requires n <= |u| && n <= |v|
    requires forall i | 0 <= i < n :: Abs(u[i]) <= Abs(v[i])
    ensures AbsSum(u, n) <= AbsSum(v, n)
  {
    if n > 0 {
      AbsSumMonotone(u, v, n - 1);
    }
  }

  lemma ColumnsStep(w: Vector, m: Matrix, n: nat, cols: nat)
    requires IsMatrix(m, |m|, cols) && n < |m| && n < |w|
    ensures forall j | 0 <= j < cols ::
      AddsProduct(ColumnDots(w, m, n + 1, cols)[j], ColumnDots(w, m, n, cols)[j], w[n], m[n][j])
  {
    hide AddsProduct, Dot;
    forall j | 0 <= j < cols
      ensures AddsProduct(ColumnDots(w, m, n + 1, cols)[j], ColumnDots(w, m, n, cols)[j], w[n], m[n][j])
    {
      DotStep(w, Column(m, j), n);
    }
  }

  lemma AddsSame(a: real, b: real, p: real, x: real, y: real)
    requires AddsProduct(a, p, x, y) && AddsProduct(b, p, x, y)
    ensures a == b
  {
  }

  lemma ExchangeNone(w: Vector, m: Matrix, z: Vector)
    requires IsMatrix(m, |m|, |z|)
    ensures Dot(w, RowDots(m, z), 0) == Dot(z, ColumnDots(w, m, 0, |z|), |z|)
  {
    DotZero(z, ColumnDots(w, m, 0, |z|), |z|);
  }

  /** Summing rows first or columns first gives the same value. */
  lemma {:induction false} ExchangeSums(w: Vector, m: Matrix, z: Vector, n: nat)
    requires IsMatrix(m, |m|, |z|) && n <= |m| && n <= |w|
    ensures Dot(w, RowDots(m, z), n) == Dot(z, ColumnDots(w, m, n, |z|), |z|)
  {
    hide AddsProduct, Dot, ColumnDots;
    if n == 0 {
      ExchangeNone(w, m, z);
    } else {
      ExchangeSums(w, m, z, n - 1);
      DotStep(w, RowDots(m, z), n - 1);
      ColumnsStep(w, m, n - 1, |z|);
      DotLinear(z, ColumnDots(w, m, n - 1, |z|), m[n-1], ColumnDots(w, m, n, |z|), w[n-1], |z|);
      AddsSame(Dot(w, RowDots(m, z), n), Dot(z, ColumnDots(w, m, n, |z|), |z|), Dot(w, RowDots(m, z), n - 1),
               w[n-1], Dot(z, m[n-1], |z|));
    }
  }

  lemma BilinearSame(w: Vector, z: Vector, w': Vector, z': Vector, m: Matrix)
    requires |m| <= |w| && |m| <= |w'|
    requires forall i | 0 <= i < |m| :: |m[i]| <= |z| && |m[i]| <= |z'|
    requires forall i | 0 <= i < |m| :: w[i] == w'[i]
    requires forall i, j | 0 <= i < |m| && 0 <= j < |m[i]| :: z[j] == z'[j]
    ensures Bilinear(w, m, z) == Bilinear(w', m, z')
  {
    forall i | 0 <= i < |m|
      ensures RowDots(m, z)[i] == RowDots(m, z')[i]
    {
      DotSame(z, m[i], z', m[i], |m[i]|);
    }
    DotSame(w, RowDots(m, z), w', RowDots(m, z'), |m|);
  }

  /** The sum of the absolute values of all entries of the first n rows. */
  ghost function AbsTotal(m: Matrix, n: nat): real
    requires n <= |m|
  {
    if n == 0 then 0.0 else AbsTotal(m, n - 1) + AbsSum(m[n-1], |m[n-1]|)
  }

  lemma {:induction false} BilinearBoundedUpTo(w: Vector, m: Matrix, z: Vector, n: nat)
    requires n <= |m| <= |w| && forall i | 0 <= i < |m| :: |m[i]| <= |z|
    requires forall i | 0 <= i < |w| :: -1.0 <= w[i] <= 1.0
    requires forall j | 0 <= j < |z| :: -1.0 <= z[j] <= 1.0
    ensures AbsSum(RowDots(m, z), n) <= AbsTotal(m, n)
  {
    if n > 0 {
      BilinearBoundedUpTo(w, m, z, n - 1);
      DotBounded(z, m[n-1], |m[n-1]|);
    }
  }

  /** With weights of absolute value at most one a bilinear form is bounded by the sum of the
      absolute values of its coefficients. */
  lemma BilinearBounded(w: Vector, m: Matrix, z: Vector)
    requires |m| <= |w| && forall i | 0 <= i < |m| :: |m[i]| <= |z|
    requires forall i | 0 <= i < |w| :: -1.0 <= w[i] <= 1.0
    requires forall j | 0 <= j < |z| :: -1.0 <= z[j] <= 1.0
    ensures Abs(Bilinear(w, m, z)) <= AbsTotal(m, |m|)
  {
    BilinearBoundedUpTo(w, m, z, |m|);
    DotBounded(w, RowDots(m, z), |m|);
  }
}
