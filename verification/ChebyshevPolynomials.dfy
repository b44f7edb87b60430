/** Chebyshev polynomials by their three-term recurrence, Clenshaw's summation of a Chebyshev
    series, the bound |T(n, x)| <= 1 and discrete orthogonality at the roots of T(n, .).

    The algebraic identities are named predicates over plain reals, so that each inductive proof
    is one step lemma about scalars. */
module ChebyshevPolynomials {
  import opened Sums

  /** c follows a and b in a three-term recurrence with argument x. */
  ghost predicate Next(x: real, a: real, b: real, c: real) {
    c == 2.0 * (x * b) - a
  }

  /** The polynomial of the first kind. */
  ghost function T(n: nat, x: real): real {
    if n == 0 then 1.0 else if n == 1 then x else 2.0 * (x * T(n - 1, x)) - T(n - 2, x)
  }

  /** The polynomial of the second kind of degree n - 1. */
  ghost function V(n: nat, x: real): real {
    if n == 0 then 0.0 else if n == 1 then 1.0 else 2.0 * (x * V(n - 1, x)) - V(n - 2, x)
  }

  lemma TNext(n: nat, x: real)
    ensures Next(x, T(n, x), T(n + 1, x), T(n + 2, x))
  {
  }

  lemma VNext(n: nat, x: real)
    ensures Next(x, V(n, x), V(n + 1, x), V(n + 2, x))
  {
  }

  /** The weights of a Chebyshev series at x: the coefficient of index zero counts half. */
  ghost function Weights(x: real, n: nat): (r: Vector)
    ensures |r| == n
  {
    seq(n, i requires 0 <= i < n => if i == 0 then 0.5 else T(i, x))
  }

  ghost function Values(x: real, n: nat): (r: Vector)
    ensures |r| == n
  {
    seq(n, i requires 0 <= i < n => T(i, x))
  }

  /** The value at x of the Chebyshev series with coefficients c. */
  ghost function Series(c: Vector, x: real): real {
    Dot(Weights(x, |c|), c, |c|)
  }

  ghost function RowSeries(m: Matrix, y: real): (r: Vector)
    ensures |r| == |m|
  {
    seq(|m|, i requires 0 <= i < |m| => Series(m[i], y))
  }

  /** The value at (x, y) of the double series; the rows of m may have different lengths. */
  ghost function Series2(m: Matrix, x: real, y: real): real {
    Series(RowSeries(m, y), x)
  }

  lemma Series2IsBilinear(m: Matrix, x: real, y: real, cols: nat)
    requires forall i | 0 <= i < |m| :: |m[i]| <= cols
    ensures Series2(m, x, y) == Bilinear(Weights(x, |m|), m, Weights(y, cols))
  {
    forall i | 0 <= i < |m|
      ensures RowSeries(m, y)[i] == RowDots(m, Weights(y, cols))[i]
    {
      DotSame(Weights(y, |m[i]|), m[i], Weights(y, cols), m[i], |m[i]|);
    }
    assert RowSeries(m, y) == RowDots(m, Weights(y, cols));
  }

  // ----- Algebra of T and V

  /** Angle addition in algebraic form, with x and t cosines and v the sine ratio. */
  ghost predicate Turn(x: real, t: real, v: real, t1: real, v1: real) {
    t1 == x * t - (1.0 - x * x) * v && v1 == x * v + t
  }

  lemma TurnStep(x: real, t: real, v: real, t1: real, v1: real, t2: real, v2: real)
    requires Turn(x, t, v, t1, v1) && Next(x, t, t1, t2) && Next(x, v, v1, v2)
    ensures Turn(x, t1, v1, t2, v2)
  {
    calc {
      x * t1 - t;
      x * (x * t - (1.0 - x * x) * v) - t;
      -(1.0 - x * x) * (x * v + t);
      -(1.0 - x * x) * v1;
    }
    calc {
      x * v1 - v;
      x * (x * v + t) - v;
      t1;
    }
  }

  lemma {:induction false} Addition(n: nat, x: real)
    ensures Turn(x, T(n, x), V(n, x), T(n + 1, x), V(n + 1, x))
  {
    if n > 0 {
      TNext(n - 1, x);
      VNext(n - 1, x);
      hide T, V, Next, Turn;
      Addition(n - 1, x);
      TurnStep(x, T(n - 1, x), V(n - 1, x), T(n, x), V(n, x), T(n + 1, x), V(n + 1, x));
    }
  }

  /** The Pell identity. */
  ghost predicate OnConic(x: real, t: real, v: real) {
    t * t + (1.0 - x * x) * (v * v) == 1.0
  }

  lemma PellStep(x: real, t: real, v: real, t1: real, v1: real)
    requires Turn(x, t, v, t1, v1) && OnConic(x, t, v)
    ensures OnConic(x, t1, v1)
  {
    calc {
      t1 * t1 + (1.0 - x * x) * (v1 * v1);
      (x * t - (1.0 - x * x) * v) * (x * t - (1.0 - x * x) * v)
        + (1.0 - x * x) * ((x * v + t) * (x * v + t));
      t * t + (1.0 - x * x) * (v * v);
    }
  }

  lemma {:induction false} Pell(n: nat, x: real)
    ensures OnConic(x, T(n, x), V(n, x))
  {
    if n > 0 {
      hide T, V, OnConic, Turn;
      Pell(n - 1, x);
      Addition(n - 1, x);
      PellStep(x, T(n - 1, x), V(n - 1, x), T(n, x), V(n, x));
    }
  }

  lemma SquareNonNegative(x: real)
    ensures x * x >= 0.0
  {
  }

  lemma ConicBounded(x: real, t: real, v: real)
    requires OnConic(x, t, v) && -1.0 <= x <= 1.0
    ensures -1.0 <= t <= 1.0
  {
    MulNonNegative(1.0 - x, 1.0 + x);
    assert (1.0 - x) * (1.0 + x) == 1.0 - x * x;
    SquareNonNegative(v);
    MulNonNegative(1.0 - x * x, v * v);
    if t > 1.0 {
      MulNonNegative(t - 1.0, t - 1.0);
    } else if t < -1.0 {
      MulNonNegative(-1.0 - t, -1.0 - t);
    }
  }

  lemma Bounded(n: nat, x: real)
    requires -1.0 <= x <= 1.0
    ensures -1.0 <= T(n, x) <= 1.0
  {
    Pell(n, x);
    ConicBounded(x, T(n, x), V(n, x));
  }

  lemma WeightsBounded(x: real, n: nat)
    requires -1.0 <= x <= 1.0
    ensures forall i | 0 <= i < n :: -1.0 <= Weights(x, n)[i] <= 1.0
  {
    forall i | 0 <= i < n ensures -1.0 <= Weights(x, n)[i] <= 1.0 {
      Bounded(i, x);
    }
  }

  // ----- Clenshaw summation

  /** Clenshaw's remainder of the coefficients from index j on. */
  ghost function Clenshaw(c: Vector, j: nat, x: real): real
    decreases |c| - j
  {
    if j >= |c| then 0.0
    else 2.0 * (x * Clenshaw(c, j + 1, x)) - Clenshaw(c, j + 2, x) + c[j]
  }

  ghost predicate SplitSum(total: real, prefix: real, t0: real, t1: real, b1: real, b2: real) {
    total == prefix + t1 * b1 - t0 * b2
  }

  lemma SplitSumStep(total: real, prefix: real, longer: real, x: real, t0: real, t1: real, t2: real, c: real,
                     b0: real, b1: real, b2: real)
    requires Next(x, t0, t1, t2) && Next(x, b2, b1, b0 - c) && AddsProduct(longer, prefix, t1, c)
    requires SplitSum(total, longer, t1, t2, b1, b2)
    ensures SplitSum(total, prefix, t0, t1, b0, b1)
  {
    calc {
      t1 * c + t2 * b1 - t1 * b2;
      t1 * c + (2.0 * (x * t1) - t0) * b1 - t1 * b2;
      t1 * (2.0 * (x * b1) - b2 + c) - t0 * b1;
    }
  }

  lemma SeriesStep(c: Vector, j: nat, x: real)
    requires 1 <= j < |c|
    ensures AddsProduct(Dot(Weights(x, |c|), c, j + 1), Dot(Weights(x, |c|), c, j), T(j, x), c[j])
  {
    hide T, AddsProduct;
    DotStep(Weights(x, |c|), c, j);
  }

  lemma SplitSumDone(total: real, t0: real, t1: real)
    ensures SplitSum(total, total, t0, t1, 0.0, 0.0)
  {
  }

  lemma ClenshawNext(c: Vector, j: nat, x: real)
    requires j < |c|
    ensures Next(x, Clenshaw(c, j + 2, x), Clenshaw(c, j + 1, x), Clenshaw(c, j, x) - c[j])
  {
  }

  lemma ClenshawPast(c: Vector, j: nat, x: real)
    requires j >= |c|
    ensures Clenshaw(c, j, x) == 0.0
  {
  }

  lemma {:induction false} ClenshawFrom(c: Vector, j: nat, x: real)
    requires 1 <= j <= |c|
    ensures SplitSum(Series(c, x), Dot(Weights(x, |c|), c, j), T(j - 1, x), T(j, x),
                     Clenshaw(c, j, x), Clenshaw(c, j + 1, x))
    decreases |c| - j
  {
    hide Next, SplitSum, AddsProduct, Clenshaw, T;
    if j == |c| {
      ClenshawPast(c, j, x);
      ClenshawPast(c, j + 1, x);
      SplitSumDone(Series(c, x), T(j - 1, x), T(j, x));
    } else {
      ClenshawFrom(c, j + 1, x);
      SeriesStep(c, j, x);
      TNext(j - 1, x);
      ClenshawNext(c, j, x);
      SplitSumStep(Series(c, x), Dot(Weights(x, |c|), c, j), Dot(Weights(x, |c|), c, j + 1), x,
                   T(j - 1, x), T(j, x), T(j + 1, x), c[j],
                   Clenshaw(c, j, x), Clenshaw(c, j + 1, x), Clenshaw(c, j + 2, x));
    }
  }

  /** Clenshaw's theorem: the last step of the backward recurrence is the value of the series. */
  lemma ClenshawSums(c: Vector, x: real)
    requires |c| > 0
    ensures Series(c, x) == x * Clenshaw(c, 1, x) - Clenshaw(c, 2, x) + 0.5 * c[0]
  {
    ClenshawFrom(c, 1, x);
    DotStep(Weights(x, |c|), c, 0);
  }

  // ----- Discrete orthogonality

  /** The Christoffel-Darboux kernel of n terms. */
  ghost function Kernel(n: nat, x: real, y: real): real {
    Dot(Weights(x, n), Values(y, n), n)
  }

  lemma KernelStep(n: nat, x: real, y: real)
    requires n > 0
    ensures AddsProduct(Kernel(n + 1, x, y), Kernel(n, x, y), T(n, x), T(n, y))
  {
    hide T, AddsProduct, Dot;
    DotStep(Weights(x, n + 1), Values(y, n + 1), n);
    DotSame(Weights(x, n + 1), Values(y, n + 1), Weights(x, n), Values(y, n), n);
  }

  lemma KernelOne(x: real, y: real)
    ensures Kernel(1, x, y) == 0.5
  {
    DotStep(Weights(x, 1), Values(y, 1), 0);
  }

  ghost predicate Darboux(x: real, y: real, a0: real, a1: real, b0: real, b1: real, k: real) {
    2.0 * ((x - y) * k) == a1 * b0 - a0 * b1
  }

  lemma DarbouxStep(x: real, y: real, a0: real, a1: real, a2: real,
                    b0: real, b1: real, b2: real, k: real, k1: real)
    requires Next(x, a0, a1, a2) && Next(y, b0, b1, b2) && Darboux(x, y, a0, a1, b0, b1, k)
    requires AddsProduct(k1, k, a1, b1)
    ensures Darboux(x, y, a1, a2, b1, b2, k1)
  {
    calc {
      2.0 * ((x - y) * (k + a1 * b1));
      2.0 * ((x - y) * k) + 2.0 * ((x - y) * (a1 * b1));
      a1 * b0 - a0 * b1 + 2.0 * ((x - y) * (a1 * b1));
      (2.0 * (x * a1) - a0) * b1 - a1 * (2.0 * (y * b1) - b0);
      a2 * b1 - a1 * b2;
    }
  }

  lemma {:induction false} ChristoffelDarboux(n: nat, x: real, y: real)
    requires n > 0
    ensures Darboux(x, y, T(n - 1, x), T(n, x), T(n - 1, y), T(n, y), Kernel(n, x, y))
  {
    if n == 1 {
      KernelOne(x, y);
    } else {
      hide T, Next, Darboux, AddsProduct;
      ChristoffelDarboux(n - 1, x, y);
      KernelStep(n - 1, x, y);
      TNext(n - 2, x);
      TNext(n - 2, y);
      DarbouxStep(x, y, T(n - 2, x), T(n - 1, x), T(n, x),
                  T(n - 2, y), T(n - 1, y), T(n, y), Kernel(n - 1, x, y), Kernel(n, x, y));
    }
  }

  ghost predicate Diagonal(n: real, x: real, t: real, v: real, k: real) {
    k == 0.5 * n + 0.5 * (t * (x * v - t))
  }

  lemma DiagonalStep(n: real, x: real, t: real, v: real, t1: real, v1: real, k: real, k1: real)
    requires Turn(x, t, v, t1, v1) && OnConic(x, t, v) && Diagonal(n - 1.0, x, t, v, k)
    requires AddsProduct(k1, k, t, t)
    ensures Diagonal(n, x, t1, v1, k1)
  {
    calc {
      x * v1 - t1;
      x * (x * v + t) - (x * t - (1.0 - x * x) * v);
      v;
    }
    calc {
      t1 * (x * v1 - t1);
      t1 * v;
      (x * t - (1.0 - x * x) * v) * v;
      t * (x * v) - (1.0 - x * x) * (v * v);
      t * (x * v) - 1.0 + t * t;
    }
  }

  lemma DiagonalOne(x: real)
    ensures Diagonal(1.0, x, T(1, x), V(1, x), Kernel(1, x, x))
  {
    KernelOne(x, x);
    assert x * (x * 1.0 - x) == 0.0;
  }

  lemma {:induction false} KernelDiagonal(n: nat, x: real)
    requires n > 0
    ensures Diagonal(n as real, x, T(n, x), V(n, x), Kernel(n, x, x))
  {
    hide Diagonal, Turn, OnConic, AddsProduct, T, V;
    if n == 1 {
      DiagonalOne(x);
    } else {
      KernelDiagonal(n - 1, x);
      KernelStep(n - 1, x, x);
      Addition(n - 1, x);
      Pell(n - 1, x);
      assert (n - 1) as real == n as real - 1.0;
      DiagonalStep(n as real, x, T(n - 1, x), V(n - 1, x), T(n, x), V(n, x),
                   Kernel(n - 1, x, x), Kernel(n, x, x));
    }
  }

  lemma ZeroProduct(x: real, y: real)
    requires x * y == 0.0 && x != 0.0
    ensures y == 0.0
  {
  }

  /** At two roots of T(n, .) the kernel is n/2 when they coincide and zero when they differ. */
  lemma RootsOrthogonal(n: nat, x: real, y: real)
    requires n > 0 && T(n, x) == 0.0 && T(n, y) == 0.0
    ensures Kernel(n, x, y) == if x == y then 0.5 * n as real else 0.0
  {
    if x == y {
      KernelDiagonal(n, x);
    } else {
      ChristoffelDarboux(n, x, y);
      ZeroProduct(x - y, Kernel(n, x, y));
    }
  }
}
