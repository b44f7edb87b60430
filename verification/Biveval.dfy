/** Evaluation of a compiled series: nested Clenshaw sums or nested Horner over ragged rows. */
module Biveval {
  import opened Reals
  import opened Sums
  import opened Uv
  import opened PowerSeries
  import opened Cheb = ChebyshevPolynomials

  /** A compiled series.  Row i of cu is the coefficient row of index i of u; an empty row is a row
      without storage.  In Chebyshev mode a and b hold the argument scaling instead of the range. */
  datatype Tseries = Tseries(a: UV, b: UV, mu: int, mv: int, cu: Matrix, cv: Matrix, power: bool)

  datatype Outcome = Value(at: UV) | RangeError

  const NEAR_ONE: real := 1.00001

  ghost predicate WellFormed(t: Tseries) {
    t.mu == |t.cu| - 1 && t.mv == |t.cv| - 1
  }

  /** Chebyshev mode reads row 0 of both components unconditionally. */
  ghost predicate Evaluable(t: Tseries) {
    WellFormed(t) && (t.power || (t.mu >= 0 && t.mv >= 0))
  }

  /** The scaled argument of Chebyshev mode. */
  function Scaled(p: UV, t: Tseries): UV {
    UV((p.u + p.u - t.a.u) * t.b.u, (p.v + p.v - t.a.v) * t.b.v)
  }

  predicate Accepted(w: UV) {
    Abs(w.u) <= NEAR_ONE && Abs(w.v) <= NEAR_ONE
  }

  /** What a compiled series means at a point. */
  ghost function Denote(t: Tseries, p: UV): Outcome {
    if t.power then
      Value(UV(Poly2(t.cu, p.u, p.v), Poly2(t.cv, p.u, p.v)))
    else
      var w := Scaled(p, t);
      if Accepted(w) then Value(UV(Series2(t.cu, w.u, w.v), Series2(t.cv, w.u, w.v))) else RangeError
  }

  /** What the loops assign: twice the argument times b1, less b2, plus the next coefficient. */
  ghost predicate LoopStep(d: real, x2: real, b1: real, b2: real, c: real) {
    d == x2 * b1 - b2 + c
  }

  ghost predicate LastStep(r: real, x: real, b1: real, b2: real, c: real) {
    r == x * b1 - b2 + 0.5 * c
  }

  /** What every Clenshaw loop assigns. */
  function Combine(x: real, b1: real, b2: real, c: real): (r: real)
    ensures LoopStep(r, x, b1, b2, c)
  {
    x * b1 - b2 + c
  }

  /** The step after the last loop, where the coefficient counts half. */
  function CombineLast(x: real, b1: real, b2: real, c: real): (r: real)
    ensures LastStep(r, x, b1, b2, c)
  {
    x * b1 - b2 + 0.5 * c
  }

  lemma LoopStepIsClenshaw(c: Vector, j: nat, x: real, x2: real, d: real)
    requires j < |c| && x2 == x + x && LoopStep(d, x2, Clenshaw(c, j + 1, x), Clenshaw(c, j + 2, x), c[j])
    ensures d == Clenshaw(c, j, x)
  {
    var b := Clenshaw(c, j + 1, x);
    assert (x + x) * b == 2.0 * (x * b);
  }

  lemma LastStepIsSeries(c: Vector, x: real, r: real)
    requires |c| > 0 && LastStep(r, x, Clenshaw(c, 1, x), Clenshaw(c, 2, x), c[0])
    ensures r == Series(c, x)
  {
    hide Clenshaw, Series;
    ClenshawSums(c, x);
  }

  /** The inner Clenshaw loop over one stored row. */
  method RowRemainders(row: Vector, x: real, x2: real) returns (d: real, dd: real)
    requires |row| > 0 && x2 == x + x
    ensures d == Clenshaw(row, 1, x) && dd == Clenshaw(row, 2, x)
  {
    hide Clenshaw, LoopStep;
    d, dd := 0.0, 0.0;
    var j := |row| - 1;
    ClenshawPast(row, |row|, x);
    ClenshawPast(row, |row| + 1, x);
    while j > 0
      invariant 0 <= j < |row|
      invariant d == Clenshaw(row, j + 1, x) && dd == Clenshaw(row, j + 2, x)
    {
      var tmp := d;
      d := Combine(x2, tmp, dd, row[j]);
      LoopStepIsClenshaw(row, j, x, x2, d);
      dd := tmp;
      j := j - 1;
    }
  }

  /** Nested Clenshaw summation over the ragged rows of C, whose last index is n. */
  method Ceval(C: Matrix, n: nat, w: UV, w2: UV) returns (r: real)
    requires |C| == n + 1 && w2.u == w.u + w.u && w2.v == w.v + w.v
    ensures r == Series2(C, w.u, w.v)
  {
    ghost var rows := RowSeries(C, w.v);
    forall i | 0 <= i <= n ensures rows[i] == Series(C[i], w.v) {
    }
    hide Clenshaw, LoopStep, LastStep, RowSeries, Series;
    var d, dd := 0.0, 0.0;
    var j := n;
    ClenshawPast(rows, n + 1, w.u);
    ClenshawPast(rows, n + 2, w.u);
    while j > 0
      invariant 0 <= j <= n
      invariant d == Clenshaw(rows, j + 1, w.u) && dd == Clenshaw(rows, j + 2, w.u)
    {
      var tmp := d;
      var row := RowValue(C[j], w.v, w2.v);
      d := Combine(w2.u, tmp, dd, row);
      LoopStepIsClenshaw(rows, j, w.u, w2.u, d);
      dd := tmp;
      j := j - 1;
    }
    var row := RowValue(C[0], w.v, w2.v);
    r := CombineLast(w.u, d, dd, row);
    LastStepIsSeries(rows, w.u, r);
  }

  /** The value of one row; a row without storage contributes nothing. */
  method RowValue(row: Vector, x: real, x2: real) returns (r: real)
    requires x2 == x + x
    ensures r == Series(row, x)
  {
    if |row| != 0 {
      var vd, vdd := RowRemainders(row, x, x2);
      hide Clenshaw, Series, LastStep;
      r := CombineLast(x, vd, vdd, row[0]);
      LastStepIsSeries(row, x, r);
    } else {
      r := 0.0;
    }
  }

  method Bcheval(p: UV, t: Tseries) returns (out: Outcome)
    requires Evaluable(t) && !t.power
    ensures out == Denote(t, p)
  {
    var w := Scaled(p, t);
    hide Series2, Scaled;
    if Abs(w.u) > NEAR_ONE || Abs(w.v) > NEAR_ONE {
      out := RangeError;
    } else {
      var w2 := UV(w.u + w.u, w.v + w.v);
      var u := Ceval(t.cu, t.mu, w, w2);
      var v := Ceval(t.cv, t.mv, w, w2);
      out := Value(UV(u, v));
    }
  }

  /** What every Horner loop assigns. */
  function Extend(c: real, x: real, r: real): (h: real)
    ensures HornerLink(h, c, x, r)
  {
    c + x * r
  }

  lemma ExtendIsHorner(p: Vector, k: nat, x: real, h: real)
    requires k < |p| && HornerLink(h, p[k], x, Horner(p, k + 1, x))
    ensures h == Horner(p, k, x)
  {
  }

  lemma HornerPast(p: Vector, x: real)
    ensures Horner(p, |p|, x) == 0.0
  {
  }

  /** Horner's scheme over one stored row. */
  method RowHorner(row: Vector, y: real) returns (r: real)
    ensures r == Poly(row, y)
  {
    hide Horner, HornerLink, Extend, Poly;
    r := 0.0;
    var m := |row|;
    HornerPast(row, y);
    while m > 0
      invariant 0 <= m <= |row|
      invariant r == Horner(row, m, y)
    {
      m := m - 1;
      r := Extend(row[m], y, r);
      ExtendIsHorner(row, m, y, r);
    }
    HornerIsPoly(row, y);
  }

  lemma RowPolyAt(c: Matrix, y: real, i: nat)
    requires i < |c|
    ensures RowPolys(c, y)[i] == Poly(c[i], y)
  {
    hide Poly;
  }

  /** Nested Horner's scheme over ragged rows. */
  method NestedHorner(c: Matrix, p: UV) returns (r: real)
    ensures r == Poly2(c, p.u, p.v)
  {
    hide RowPolys, Poly, Horner, HornerLink, Extend;
    ghost var rows := RowPolys(c, p.v);
    HornerPast(rows, p.u);
    HornerIsPoly(rows, p.u);
    r := 0.0;
    var i := |c| - 1;
    while i >= 0
      invariant -1 <= i < |c|
      invariant r == Horner(rows, i + 1, p.u)
    {
      var row := RowHorner(c[i], p.v);
      RowPolyAt(c, p.v, i);
      r := Extend(row, p.u, r);
      ExtendIsHorner(rows, i, p.u, r);
      i := i - 1;
    }
  }

  method Bpseval(p: UV, t: Tseries) returns (out: UV)
    requires WellFormed(t)
    ensures out == UV(Poly2(t.cu, p.u, p.v), Poly2(t.cv, p.u, p.v))
  {
    var u := NestedHorner(t.cu, p);
    var v := NestedHorner(t.cv, p);
    out := UV(u, v);
  }

  /** Evaluates a compiled series in whichever mode it was compiled. */
  method Evaluate(p: UV, t: Tseries) returns (out: Outcome)
    requires Evaluable(t)
    ensures out == Denote(t, p)
  {
    if t.power {
      var r := Bpseval(p, t);
      out := Value(r);
    } else {
      out := Bcheval(p, t);
    }
  }
}
