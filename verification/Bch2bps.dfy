/** Conversion of a bivariate Chebyshev series to a bivariate power series, in place. */
module Bch2bps {
  import opened Reals
  import opened Sums
  import opened Uv
  import opened PowerSeries
  import Cheb = ChebyshevPolynomials

  ghost function CoefAt(cu: Vector, cv: Vector, j: nat, k: int): UV {
    UV(Coef(cu, j, k), Coef(cv, j, k))
  }

  /** The remainder of index j has degree |cu| - 1 - j. */
  lemma CoefAtHigh(cu: Vector, cv: Vector, j: nat)
    requires |cu| == |cv|
    ensures forall k | k >= |cu| - j :: CoefAt(cu, cv, j, k) == ZERO
  {
    forall k | k >= |cu| - j ensures CoefAt(cu, cv, j, k) == ZERO {
      CoefDegree(cu, j, k);
      CoefDegree(cv, j, k);
    }
  }

  lemma CoefAtTop(cu: Vector, cv: Vector)
    requires |cu| == |cv| > 0
    ensures CoefAt(cu, cv, |cu| - 1, 0) == UV(cu[|cu|-1], cv[|cu|-1])
    ensures forall k {:trigger CoefAt(cu, cv, |cu| - 1, k)} | k > 0 :: CoefAt(cu, cv, |cu| - 1, k) == ZERO
    ensures forall k :: CoefAt(cu, cv, |cu|, k) == ZERO
  {
    CoefAtHigh(cu, cv, |cu| - 1);
    assert Coef(cu, |cu|, -1) == Coef(cv, |cu|, -1) == Coef(cu, |cu| + 1, 0) == Coef(cv, |cu| + 1, 0) == 0.0;
  }

  /** One step of Clenshaw's recurrence on coefficient vectors, overwriting d and dd. */
  method RowsStep(cj: UV, d: array<UV>, dd: array<UV>, n: nat, j: nat, ghost cu: Vector, ghost cv: Vector)
    requires n == d.Length == dd.Length == |cu| == |cv| && d != dd && 1 <= j <= n - 2
    requires cj == UV(cu[j], cv[j])
    requires forall i | 0 <= i < n :: d[i] == CoefAt(cu, cv, j + 1, i)
    requires forall i | 0 <= i < n :: dd[i] == CoefAt(cu, cv, j + 2, i)
    modifies d, dd
    ensures forall i | 0 <= i < n :: d[i] == CoefAt(cu, cv, j, i)
    ensures forall i | 0 <= i < n :: dd[i] == CoefAt(cu, cv, j + 1, i)
  {
    CoefAtHigh(cu, cv, j);
    CoefAtHigh(cu, cv, j + 1);
    CoefAtHigh(cu, cv, j + 2);
    var k := n - j;
    while k >= 1
      invariant 0 <= k <= n - j
      invariant forall i | 0 <= i <= k :: d[i] == CoefAt(cu, cv, j + 1, i) && dd[i] == CoefAt(cu, cv, j + 2, i)
      invariant forall i | k < i < n :: d[i] == CoefAt(cu, cv, j, i) && dd[i] == CoefAt(cu, cv, j + 1, i)
    {
      var sv := d[k];
      d[k] := UV(2.0 * d[k-1].u - dd[k].u, 2.0 * d[k-1].v - dd[k].v);
      dd[k] := sv;
      k := k - 1;
    }
    assert Coef(cu, j + 1, -1) == Coef(cv, j + 1, -1) == 0.0;
    var sv := d[0];
    d[0] := UV(-dd[0].u + cj.u, -dd[0].v + cj.v);
    dd[0] := sv;
  }

  /** The remainders of index 1 and 2 of one row. */
  method RowsRemainders(c: array<UV>, d: array<UV>, dd: array<UV>, n: nat)
    requires 1 <= n == c.Length == d.Length == dd.Length && c != d && c != dd && d != dd
    modifies d, dd
    ensures n >= 2 ==> forall i | 0 <= i < n :: d[i] == CoefAt(Us(c[..]), Vs(c[..]), 1, i)
    ensures forall i | 0 <= i < n :: dd[i] == CoefAt(Us(c[..]), Vs(c[..]), 2, i)
    ensures n == 1 ==> d[0] == c[0]
  {
    hide CoefAt, Us, Vs;
    ghost var cu, cv := Us(c[..]), Vs(c[..]);
    PairsOf(c[..]);
    CoefAtTop(cu, cv);
    ghost var past := n + 1;
    CoefAtPast(cu, cv, past);
    var j: int := 0;
    while j < n
      invariant 0 <= j <= n
      invariant forall i | 0 <= i < j :: d[i] == dd[i] == ZERO
    {
      d[j], dd[j] := ZERO, ZERO;
      j := j + 1;
    }
    d[0] := c[n-1];
    j := n - 2;
    while j >= 1
      invariant -1 <= j <= n - 2 && (n >= 2 ==> j >= 0)
      invariant n >= 2 ==> forall i | 0 <= i < n :: d[i] == CoefAt(cu, cv, j + 1, i)
      invariant n == 1 ==> d[0] == c[0]
      invariant forall i | 0 <= i < n :: dd[i] == CoefAt(cu, cv, j + 2, i)
    {
      RowsStep(c[j], d, dd, n, j, cu, cv);
      j := j - 1;
    }
    if n == 1 {
      assert dd[0] == ZERO;
    }
  }

  lemma CoefAtPast(cu: Vector, cv: Vector, j: nat)
    requires |cu| == |cv| < j
    ensures forall k :: CoefAt(cu, cv, j, k) == ZERO
  {
  }

  /** One row to a power series over [-1, 1]: d receives the coefficients, dd runs one step behind. */
  method Rows(c: array<UV>, d: array<UV>, n: nat)
    requires 1 <= n == c.Length == d.Length && c != d
    modifies d
    ensures Us(d[..]) == ToPower(Us(c[..]))
    ensures Vs(d[..]) == ToPower(Vs(c[..]))
  {
    hide Us, Vs, CoefAt, ToPower, PowerCoef;
    ghost var cu, cv := Us(c[..]), Vs(c[..]);
    var dd := new UV[n];
    PairsOf(c[..]);
    RowsRemainders(c, d, dd, n);
    var j := n - 1;
    while j >= 1
      invariant 0 <= j <= n - 1
      invariant n >= 2 ==> forall i | 0 <= i <= j :: d[i] == CoefAt(cu, cv, 1, i)
      invariant forall i | j < i < n :: d[i] == UV(PowerCoef(cu, i), PowerCoef(cv, i))
      invariant forall i | 0 <= i < n :: dd[i] == CoefAt(cu, cv, 2, i)
    {
      PowerCoefAbove(cu, cv, j);
      d[j] := UV(d[j-1].u - dd[j].u, d[j-1].v - dd[j].v);
      j := j - 1;
    }
    PowerCoefZero(cu, cv);
    d[0] := UV(-dd[0].u + 0.5 * c[0].u, -dd[0].v + 0.5 * c[0].v);
    PairsOf(d[..]);
    PowersOf(cu, Us(d[..]));
    PowersOf(cv, Vs(d[..]));
  }

  lemma PowerCoefAbove(cu: Vector, cv: Vector, j: nat)
    requires |cu| == |cv| && 0 < j < |cu|
    ensures PowerCoef(cu, j) == CoefAt(cu, cv, 1, j - 1).u - CoefAt(cu, cv, 2, j).u
    ensures PowerCoef(cv, j) == CoefAt(cu, cv, 1, j - 1).v - CoefAt(cu, cv, 2, j).v
  {
    hide Coef;
  }

  lemma PowerCoefZero(cu: Vector, cv: Vector)
    requires |cu| == |cv| > 0
    ensures PowerCoef(cu, 0) == 0.5 * cu[0] - CoefAt(cu, cv, 2, 0).u
    ensures PowerCoef(cv, 0) == 0.5 * cv[0] - CoefAt(cu, cv, 2, 0).v
  {
    hide Coef;
  }

  lemma PowersOf(c: Vector, p: Vector)
    requires |c| == |p| && forall i | 0 <= i < |c| :: p[i] == PowerCoef(c, i)
    ensures p == ToPower(c)
  {
    hide PowerCoef;
  }

  lemma PowNext(x: real, n: nat)
    ensures Pow(x, n + 1) == Times(x, Pow(x, n))
    ensures Times(x, 1.0) == x
  {
  }

  lemma ScaleAt(p: Vector, s: real, j: nat)
    requires j < |p|
    ensures Scale(p, s)[j] == Times(p[j], Pow(s, j)) && (j == 0 ==> Scale(p, s)[0] == p[0])
  {
    if j == 0 { assert Pow(s, 0) == 1.0; }
  }

  lemma PowOne(x: real)
    ensures x == Pow(x, 1)
  {
    PowNext(x, 0);
  }

  /** Coefficient j is multiplied by the j-th power of cnst. */
  method RowScale(cnst: real, d: array<UV>, n: nat)
    requires 1 <= n == d.Length
    modifies d
    ensures Us(d[..]) == Scale(old(Us(d[..])), cnst)
    ensures Vs(d[..]) == Scale(old(Vs(d[..])), cnst)
  {
    hide Times, Pow, Scale, Us, Vs;
    ghost var du, dv := Us(d[..]), Vs(d[..]);
    PairsOf(d[..]);
    var fac := cnst;
    PowOne(cnst);
    ScaleAt(du, cnst, 0);
    ScaleAt(dv, cnst, 0);
    var j := 1;
    while j < n
      invariant 1 <= j <= n
      invariant fac == Pow(cnst, j)
      invariant forall i | 0 <= i < j :: d[i] == UV(Scale(du, cnst)[i], Scale(dv, cnst)[i])
      invariant forall i | j <= i < n :: d[i] == UV(du[i], dv[i])
    {
      ScaleAt(du, cnst, j);
      ScaleAt(dv, cnst, j);
      d[j] := UV(Times(d[j].u, fac), Times(d[j].v, fac));
      PowNext(cnst, j);
      fac := Times(cnst, fac);
      j := j + 1;
    }
    PairsAre(d[..], Scale(du, cnst), Scale(dv, cnst));
  }

  lemma SyntheticAt(p: Vector, h: real, k: nat)
    requires k < |p|
    ensures Synthetic(p, h, k) == if k == |p| - 1 then p[k] else SubtractProduct(p[k], h, Synthetic(p, h, k + 1))
  {
  }

  lemma PassIs(p: Vector, h: real, j: nat, r: Vector)
    requires |r| == |p| && forall k | 0 <= k < |p| :: r[k] == if k < j then p[k] else Synthetic(p, h, k)
    ensures r == Pass(p, h, j)
  {
    hide Synthetic;
  }

  /** One pass over a row from index j on. */
  method RowPass(h: real, d: array<UV>, n: nat, j: nat)
    requires 1 <= n == d.Length && j <= n - 1
    modifies d
    ensures Us(d[..]) == Pass(old(Us(d[..])), h, j)
    ensures Vs(d[..]) == Pass(old(Vs(d[..])), h, j)
  {
    hide SubtractProduct, Synthetic, Pass, Us, Vs;
    ghost var pu, pv := Us(d[..]), Vs(d[..]);
    PairsOf(d[..]);
    SyntheticAt(pu, h, n - 1);
    SyntheticAt(pv, h, n - 1);
    var k := n - 2;
    while k >= j
      invariant j - 1 <= k <= n - 2
      invariant forall i | 0 <= i <= k :: d[i] == UV(pu[i], pv[i])
      invariant forall i | k < i < n :: d[i] == UV(Synthetic(pu, h, i), Synthetic(pv, h, i))
    {
      SyntheticAt(pu, h, k);
      SyntheticAt(pv, h, k);
      d[k] := UV(SubtractProduct(d[k].u, h, d[k+1].u), SubtractProduct(d[k].v, h, d[k+1].v));
      k := k - 1;
    }
    PairsOf(d[..]);
    PassIs(pu, h, j, Us(d[..]));
    PassIs(pv, h, j, Vs(d[..]));
  }

  /** Repeated passes of subtracting a multiple of the right neighbour. */
  method RowTranslate(h: real, d: array<UV>, n: nat)
    requires 1 <= n == d.Length
    modifies d
    ensures Us(d[..]) == Shift(old(Us(d[..])), h, 0)
    ensures Vs(d[..]) == Shift(old(Vs(d[..])), h, 0)
  {
    hide Pass, Us, Vs;
    PairsOf(d[..]);
    var j := 0;
    while j <= n - 2
      invariant 0 <= j <= n - 1 && |Us(d[..])| == |Vs(d[..])| == n
      invariant Shift(Us(d[..]), h, j) == Shift(old(Us(d[..])), h, 0)
      invariant Shift(Vs(d[..]), h, j) == Shift(old(Vs(d[..])), h, 0)
    {
      RowPass(h, d, n, j);
      PairsOf(d[..]);
      j := j + 1;
    }
  }

  /** From the range [-1, 1] to [a, b], in place. */
  method RowShift(a: real, b: real, d: array<UV>, n: nat)
    requires a != b && 1 <= n == d.Length
    modifies d
    ensures Us(d[..]) == Recentre(old(Us(d[..])), a, b)
    ensures Vs(d[..]) == Recentre(old(Vs(d[..])), a, b)
  {
    hide Scale, Shift;
    var cnst := 2.0 / (b - a);
    RowScale(cnst, d, n);
    cnst := 0.5 * (a + b);
    RowTranslate(cnst, d, n);
  }

  // ----- Whole rows as vectors

  method Clear(p: array<UV>)
    modifies p
    ensures forall m | 0 <= m < p.Length :: p[m] == ZERO
  {
    var m := 0;
    while m < p.Length
      invariant 0 <= m <= p.Length
      invariant forall i | 0 <= i < m :: p[i] == ZERO
    {
      p[m] := ZERO;
      m := m + 1;
    }
  }

  method Move(a: array<UV>, b: array<UV>)
    requires a.Length == b.Length && a != b
    modifies a
    ensures a[..] == b[..]
  {
    var m := 0;
    while m < a.Length
      invariant 0 <= m <= a.Length
      invariant forall i | 0 <= i < m :: a[i] == b[i]
    {
      a[m] := b[m];
      m := m + 1;
    }
  }

  function Combined(k: real, b: UV, c: UV): UV {
    UV(k * b.u - c.u, k * b.v - c.v)
  }

  /** a receives k * b - c. */
  method MultiplySubtract(a: array<UV>, k: real, b: array<UV>, c: array<UV>)
    requires a.Length == b.Length == c.Length && a != b && a != c
    modifies a
    ensures forall m | 0 <= m < a.Length :: a[m] == Combined(k, b[m], c[m])
  {
    hide Combined;
    var m := 0;
    while m < a.Length
      invariant 0 <= m <= a.Length
      invariant forall i | 0 <= i < m :: a[i] == Combined(k, b[i], c[i])
    {
      a[m] := Combined(k, b[m], c[m]);
      m := m + 1;
    }
  }

  /** a receives b - c. */
  method Subtract(a: array<UV>, b: array<UV>, c: array<UV>)
    requires a.Length == b.Length == c.Length && a != b && a != c
    modifies a
    ensures forall m | 0 <= m < a.Length :: a[m] == UV(b[m].u - c[m].u, b[m].v - c[m].v)
  {
    var m := 0;
    while m < a.Length
      invariant 0 <= m <= a.Length
      invariant forall i | 0 <= i < m :: a[i] == UV(b[i].u - c[i].u, b[i].v - c[i].v)
    {
      a[m] := UV(b[m].u - c[m].u, b[m].v - c[m].v);
      m := m + 1;
    }
  }

  /** a is multiplied by k. */
  method Multiply(a: array<UV>, k: real)
    modifies a
    ensures forall m | 0 <= m < a.Length :: a[m] == UV(Times(old(a[m]).u, k), Times(old(a[m]).v, k))
  {
    hide Times;
    var m := 0;
    while m < a.Length
      invariant 0 <= m <= a.Length
      invariant forall i | 0 <= i < m :: a[i] == UV(Times(old(a[i]).u, k), Times(old(a[i]).v, k))
      invariant forall i | m <= i < a.Length :: a[i] == old(a[i])
    {
      a[m] := UV(Times(a[m].u, k), Times(a[m].v, k));
      m := m + 1;
    }
  }

  /** a loses k times b. */
  method SubtractMultiple(a: array<UV>, b: array<UV>, k: real)
    requires a.Length == b.Length && a != b
    modifies a
    ensures forall m | 0 <= m < a.Length ::
      a[m] == UV(SubtractProduct(old(a[m]).u, k, b[m].u), SubtractProduct(old(a[m]).v, k, b[m].v))
  {
    hide SubtractProduct;
    var m := 0;
    while m < a.Length
      invariant 0 <= m <= a.Length
      invariant forall i | 0 <= i < m ::
        a[i] == UV(SubtractProduct(old(a[i]).u, k, b[i].u), SubtractProduct(old(a[i]).v, k, b[i].v))
      invariant forall i | m <= i < a.Length :: a[i] == old(a[i])
    {
      a[m] := UV(SubtractProduct(a[m].u, k, b[m].u), SubtractProduct(a[m].v, k, b[m].v));
      m := m + 1;
    }
  }

  // ----- Columns

  /** Row i of the grid holds the coefficients of index i of the remainders of index j of all columns. */
  ghost predicate RowIsCoef(row: array<UV>, cu: seq<Vector>, cv: seq<Vector>, j: nat, i: nat)
    requires row.Length == |cu| == |cv|
    reads row
  {
    forall m | 0 <= m < row.Length :: row[m] == CoefAt(cu[m], cv[m], j, i)
  }

  /** One inner step: row k of d moves on to the next remainder and row k of dd takes its old value. */
  method ColsInner(d0: array<UV>, d: array<UV>, dd: array<UV>, sv: array<UV>, n: nat,
                   k: nat, j: nat, ghost cu: seq<Vector>, ghost cv: seq<Vector>)
    requires d.Length == dd.Length == sv.Length == d0.Length == |cu| == |cv|
    requires d != dd && d != sv && dd != sv && d0 != d && d0 != dd && d0 != sv
    requires forall m | 0 <= m < |cu| :: |cu[m]| == |cv[m]| == n
    requires 1 <= k && j < n
    requires RowIsCoef(d0, cu, cv, j + 1, k - 1) && RowIsCoef(d, cu, cv, j + 1, k) && RowIsCoef(dd, cu, cv, j + 2, k)
    modifies d, dd, sv
    ensures RowIsCoef(d, cu, cv, j, k) && RowIsCoef(dd, cu, cv, j + 1, k)
  {
    Move(sv, d);
    MultiplySubtract(d, 2.0, d0, dd);
    Move(dd, sv);
  }

  /** Beyond the degree of the remainder of index j all remainders from j on agree: they vanish. */
  lemma RowHigh(row: array<UV>, cu: seq<Vector>, cv: seq<Vector>, n: nat, j: nat, k: nat, i: nat)
    requires row.Length == |cu| == |cv| && forall m | 0 <= m < |cu| :: |cu[m]| == |cv[m]| == n
    requires n - j <= i && j <= k && RowIsCoef(row, cu, cv, k, i)
    ensures RowIsCoef(row, cu, cv, j, i)
  {
    hide Coef;
    forall m | 0 <= m < |cu| ensures CoefAt(cu[m], cv[m], k, i) == CoefAt(cu[m], cv[m], j, i) {
      CoefAtHigh(cu[m], cv[m], j);
      CoefAtHigh(cu[m], cv[m], k);
    }
  }

  /** One step of Clenshaw's recurrence on all columns at once, overwriting d and dd. */
  method ColsStep(cj: array<UV>, d: seq<array<UV>>, dd: seq<array<UV>>, sv: array<UV>, n: nat, nv: nat, j: nat,
                  ghost cu: seq<Vector>, ghost cv: seq<Vector>)
    requires |d| == |dd| == n && IsGrid(d, nv) && IsGrid(dd, nv) && Apart(d, dd)
    requires cj.Length == sv.Length == nv && sv !in d && sv !in dd && cj !in d && cj !in dd && cj != sv
    requires |cu| == |cv| == nv && forall m | 0 <= m < nv :: |cu[m]| == |cv[m]| == n
    requires 1 <= j <= n - 2
    requires forall m | 0 <= m < nv :: cj[m] == UV(cu[m][j], cv[m][j])
    requires forall i | 0 <= i < n :: RowIsCoef(d[i], cu, cv, j + 1, i)
    requires forall i | 0 <= i < n :: RowIsCoef(dd[i], cu, cv, j + 2, i)
    modifies d, dd, sv
    ensures forall i | 0 <= i < n :: RowIsCoef(d[i], cu, cv, j, i)
    ensures forall i | 0 <= i < n :: RowIsCoef(dd[i], cu, cv, j + 1, i)
  {
    hide RowIsCoef;
    forall i | n - j < i < n
      ensures RowIsCoef(d[i], cu, cv, j, i) && RowIsCoef(dd[i], cu, cv, j + 1, i)
    {
      RowHigh(d[i], cu, cv, n, j, j + 1, i);
      RowHigh(dd[i], cu, cv, n, j + 1, j + 2, i);
    }
    var k := n - j;
    while k >= 1
      invariant 0 <= k <= n - j
      invariant forall i | 0 <= i <= k :: RowIsCoef(d[i], cu, cv, j + 1, i)
      invariant forall i | 0 <= i <= k :: RowIsCoef(dd[i], cu, cv, j + 2, i)
      invariant forall i | k < i < n :: RowIsCoef(d[i], cu, cv, j, i)
      invariant forall i | k < i < n :: RowIsCoef(dd[i], cu, cv, j + 1, i)
    {
      ColsInner(d[k-1], d[k], dd[k], sv, n, k, j, cu, cv);
      k := k - 1;
    }
    ColsFirst(cj, d[0], dd[0], sv, n, j, cu, cv);
  }

  /** The last inner step: row 0 takes in the next coefficients. */
  method ColsFirst(cj: array<UV>, d: array<UV>, dd: array<UV>, sv: array<UV>, n: nat, j: nat,
                   ghost cu: seq<Vector>, ghost cv: seq<Vector>)
    requires d.Length == dd.Length == sv.Length == cj.Length == |cu| == |cv|
    requires d != dd && d != sv && dd != sv && cj != d && cj != dd && cj != sv
    requires forall m | 0 <= m < |cu| :: |cu[m]| == |cv[m]| == n
    requires j < n && forall m | 0 <= m < |cu| :: cj[m] == UV(cu[m][j], cv[m][j])
    requires RowIsCoef(d, cu, cv, j + 1, 0) && RowIsCoef(dd, cu, cv, j + 2, 0)
    modifies d, dd, sv
    ensures RowIsCoef(d, cu, cv, j, 0) && RowIsCoef(dd, cu, cv, j + 1, 0)
  {
    assert forall m | 0 <= m < |cu| :: Coef(cu[m], j + 1, -1) == Coef(cv[m], j + 1, -1) == 0.0;
    Move(sv, d);
    Subtract(d, cj, dd);
    Move(dd, sv);
  }

  /** The remainders of index 1 and 2 of all columns. */
  method ColsRemainders(c: seq<array<UV>>, d: seq<array<UV>>, dd: seq<array<UV>>, n: nat, nv: nat,
                        ghost cu: seq<Vector>, ghost cv: seq<Vector>)
    requires 1 <= n == |c| == |d| == |dd| && IsGrid(c, nv) && IsGrid(d, nv) && IsGrid(dd, nv)
    requires Apart(c, d) && Apart(c, dd) && Apart(d, dd)
    requires |cu| == |cv| == nv && forall m | 0 <= m < nv :: |cu[m]| == |cv[m]| == n
    requires forall i, m | 0 <= i < n && 0 <= m < nv :: c[i][m] == UV(cu[m][i], cv[m][i])
    requires forall i | 0 <= i < n :: RowIsCoef(dd[i], cu, cv, n, i)
    modifies d, dd
    ensures n >= 2 ==> forall i | 0 <= i < n :: RowIsCoef(d[i], cu, cv, 1, i)
    ensures n >= 2 ==> forall i | 0 <= i < n :: RowIsCoef(dd[i], cu, cv, 2, i)
    ensures n == 1 ==> RowIsCoef(dd[0], cu, cv, 1, 0)
  {
    hide RowIsCoef;
    var sv := new UV[nv];
    ColsStart(c[n-1], d, n, nv, cu, cv);
    var j := n - 2;
    while j >= 1
      invariant -1 <= j <= n - 2 && (n >= 2 ==> j >= 0)
      invariant n >= 2 ==> forall i | 0 <= i < n :: RowIsCoef(d[i], cu, cv, j + 1, i)
      invariant forall i | 0 <= i < n :: RowIsCoef(dd[i], cu, cv, j + 2, i)
    {
      ColsStep(c[j], d, dd, sv, n, nv, j, cu, cv);
      j := j - 1;
    }
  }

  /** All columns to power series over [-1, 1]: the columns of d from the columns of c. */
  method Cols(c: seq<array<UV>>, d: seq<array<UV>>, n: nat, nv: nat, ghost cu: seq<Vector>, ghost cv: seq<Vector>)
    requires 1 <= n == |c| == |d| && IsGrid(c, nv) && IsGrid(d, nv) && Apart(c, d)
    requires |cu| == |cv| == nv && forall m | 0 <= m < nv :: |cu[m]| == |cv[m]| == n
    requires forall i, m | 0 <= i < n && 0 <= m < nv :: c[i][m] == UV(cu[m][i], cv[m][i])
    modifies d
    ensures forall i, m | 0 <= i < n && 0 <= m < nv :: d[i][m] == UV(ToPower(cu[m])[i], ToPower(cv[m])[i])
  {
    hide RowIsCoef, ToPower;
    var dd := NewGrid(n, nv);
    ZeroRows(dd, n, nv, cu, cv);
    ColsRemainders(c, d, dd, n, nv, cu, cv);
    if n == 1 {
      RowUnused(dd[0], cu, cv);
    }
    ColsFinish(c[0], d, dd, n, nv, cu, cv);
  }

  method NewGrid(n: nat, nv: nat) returns (g: seq<array<UV>>)
    ensures |g| == n && IsGrid(g, nv) && forall i | 0 <= i < n :: fresh(g[i])
    ensures forall i, m | 0 <= i < n && 0 <= m < nv :: g[i][m] == ZERO
  {
    g := [];
    var i := 0;
    while i < n
      invariant 0 <= i == |g| <= n && IsGrid(g, nv) && forall k | 0 <= k < i :: fresh(g[k])
      invariant forall k, m | 0 <= k < i && 0 <= m < nv :: g[k][m] == ZERO
    {
      var row := new UV[nv](_ => ZERO);
      g := g + [row];
      i := i + 1;
    }
  }

  lemma ZeroRows(dd: seq<array<UV>>, n: nat, nv: nat, cu: seq<Vector>, cv: seq<Vector>)
    requires 1 <= n == |dd| && IsGrid(dd, nv) && |cu| == |cv| == nv
    requires forall m | 0 <= m < nv :: |cu[m]| == |cv[m]| == n
    requires forall i, m | 0 <= i < n && 0 <= m < nv :: dd[i][m] == ZERO
    ensures forall i | 0 <= i < n :: RowIsCoef(dd[i], cu, cv, n, i)
  {
    forall m | 0 <= m < nv ensures forall i | 0 <= i < n :: CoefAt(cu[m], cv[m], n, i) == ZERO {
      CoefAtHigh(cu[m], cv[m], n);
    }
  }

  lemma RowUnused(row: array<UV>, cu: seq<Vector>, cv: seq<Vector>)
    requires row.Length == |cu| == |cv| && forall m | 0 <= m < |cu| :: |cu[m]| == |cv[m]| == 1
    requires RowIsCoef(row, cu, cv, 1, 0)
    ensures RowIsCoef(row, cu, cv, 2, 0)
  {
  }

  method ColsStart(last: array<UV>, d: seq<array<UV>>, n: nat, nv: nat, ghost cu: seq<Vector>, ghost cv: seq<Vector>)
    requires 1 <= n == |d| && IsGrid(d, nv) && last.Length == nv && last !in d
    requires |cu| == |cv| == nv && forall m | 0 <= m < nv :: |cu[m]| == |cv[m]| == n
    requires forall m | 0 <= m < nv :: last[m] == UV(cu[m][n-1], cv[m][n-1])
    modifies d
    ensures forall i | 0 <= i < n :: RowIsCoef(d[i], cu, cv, n - 1, i)
  {
    var i := 0;
    while i < n
      invariant 0 <= i <= n
      invariant forall k, m | 0 <= k < i && 0 <= m < nv :: d[k][m] == ZERO
    {
      Clear(d[i]);
      i := i + 1;
    }
    Move(d[0], last);
    forall m | 0 <= m < nv
      ensures CoefAt(cu[m], cv[m], n - 1, 0) == UV(cu[m][n-1], cv[m][n-1])
      ensures forall i {:trigger CoefAt(cu[m], cv[m], n - 1, i)} | i > 0 :: CoefAt(cu[m], cv[m], n - 1, i) == ZERO
    {
      CoefAtTop(cu[m], cv[m]);
      CoefAtHigh(cu[m], cv[m], n - 1);
    }
  }

  method ColsFinish(first: array<UV>, d: seq<array<UV>>, dd: seq<array<UV>>, n: nat, nv: nat,
                    ghost cu: seq<Vector>, ghost cv: seq<Vector>)
    requires 1 <= n == |d| == |dd| && IsGrid(d, nv) && IsGrid(dd, nv) && Apart(d, dd)
    requires first.Length == nv && first !in d && first !in dd
    requires |cu| == |cv| == nv && forall m | 0 <= m < nv :: |cu[m]| == |cv[m]| == n
    requires forall m | 0 <= m < nv :: first[m] == UV(cu[m][0], cv[m][0])
    requires n >= 2 ==> forall i | 0 <= i < n :: RowIsCoef(d[i], cu, cv, 1, i)
    requires forall i | 0 <= i < n :: RowIsCoef(dd[i], cu, cv, 2, i)
    modifies d
    ensures forall i, m | 0 <= i < n && 0 <= m < nv :: d[i][m] == UV(ToPower(cu[m])[i], ToPower(cv[m])[i])
  {
    var j := n - 1;
    while j >= 1
      invariant 0 <= j <= n - 1
      invariant n >= 2 ==> forall i | 0 <= i <= j :: RowIsCoef(d[i], cu, cv, 1, i)
      invariant forall i, m | j < i < n && 0 <= m < nv :: d[i][m] == UV(PowerCoef(cu[m], i), PowerCoef(cv[m], i))
    {
      Subtract(d[j], d[j-1], dd[j]);
      j := j - 1;
    }
    MultiplySubtract(d[0], 0.5, first, dd[0]);
  }

  // ----- Range shift of all columns

  /** Row i is multiplied by the i-th power of cnst. */
  method ColScale(cnst: real, d: seq<array<UV>>, n: nat, nv: nat)
    requires 1 <= n == |d| && IsGrid(d, nv)
    modifies d
    ensures forall i, m | 0 <= i < n && 0 <= m < nv ::
      d[i][m] == UV(Times(old(d[i][m]).u, Pow(cnst, i)), Times(old(d[i][m]).v, Pow(cnst, i)))
  {
    var fac := cnst;
    assert Pow(cnst, 0) == 1.0;
    PowNext(cnst, 0);
    forall x: real ensures Times(x, 1.0) == x {
    }
    hide Times, Pow;
    var j := 1;
    while j < n
      invariant 1 <= j <= n
      invariant fac == Pow(cnst, j)
      invariant forall i, m | 0 <= i < j && 0 <= m < nv ::
        d[i][m] == UV(Times(old(d[i][m]).u, Pow(cnst, i)), Times(old(d[i][m]).v, Pow(cnst, i)))
      invariant forall i, m | j <= i < n && 0 <= m < nv :: d[i][m] == old(d[i][m])
    {
      Multiply(d[j], fac);
      PowNext(cnst, j);
      fac := Times(cnst, fac);
      j := j + 1;
    }
  }

  /** One pass over the rows from index j on. */
  method ColPass(h: real, d: seq<array<UV>>, n: nat, nv: nat, j: nat, ghost pu: seq<Vector>, ghost pv: seq<Vector>)
    requires j + 1 < n == |d| && IsGrid(d, nv)
    requires |pu| == |pv| == nv && forall m | 0 <= m < nv :: |pu[m]| == |pv[m]| == n
    requires forall i, m | 0 <= i < n && 0 <= m < nv :: d[i][m] == UV(pu[m][i], pv[m][i])
    modifies d
    ensures forall i, m | 0 <= i < n && 0 <= m < nv :: d[i][m] == UV(Pass(pu[m], h, j)[i], Pass(pv[m], h, j)[i])
  {
    hide SubtractProduct;
    var k := n - 2;
    while k >= j
      invariant j - 1 <= k <= n - 2
      invariant forall i, m | 0 <= i <= k && 0 <= m < nv :: d[i][m] == UV(pu[m][i], pv[m][i])
      invariant forall i, m | k < i < n && 0 <= m < nv ::
        d[i][m] == UV(Synthetic(pu[m], h, i), Synthetic(pv[m], h, i))
    {
      SubtractMultiple(d[k], d[k+1], h);
      k := k - 1;
    }
  }

  /** From the range [-1, 1] to [a, b] in the first argument, in place. */
  method ColShift(a: real, b: real, d: seq<array<UV>>, n: nat, nv: nat, ghost cu: seq<Vector>, ghost cv: seq<Vector>)
    requires a != b && 1 <= n == |d| && IsGrid(d, nv)
    requires |cu| == |cv| == nv && forall m | 0 <= m < nv :: |cu[m]| == |cv[m]| == n
    requires forall i, m | 0 <= i < n && 0 <= m < nv :: d[i][m] == UV(cu[m][i], cv[m][i])
    modifies d
    ensures forall i, m | 0 <= i < n && 0 <= m < nv ::
      d[i][m] == UV(Recentre(cu[m], a, b)[i], Recentre(cv[m], a, b)[i])
  {
    var cnst := 2.0 / (b - a);
    ColScale(cnst, d, n, nv);
    ghost var pu := seq(nv, m requires 0 <= m < nv => Scale(cu[m], cnst));
    ghost var pv := seq(nv, m requires 0 <= m < nv => Scale(cv[m], cnst));
    assert forall i, m | 0 <= i < n && 0 <= m < nv :: d[i][m] == UV(pu[m][i], pv[m][i]);
    cnst := 0.5 * (a + b);
    assert forall m | 0 <= m < nv :: Recentre(cu[m], a, b) == Shift(pu[m], cnst, 0);
    assert forall m | 0 <= m < nv :: Recentre(cv[m], a, b) == Shift(pv[m], cnst, 0);
    ColTranslate(cnst, d, n, nv, pu, pv);
  }

  /** All passes over all columns. */
  method ColTranslate(h: real, d: seq<array<UV>>, n: nat, nv: nat, ghost cu: seq<Vector>, ghost cv: seq<Vector>)
    requires 1 <= n == |d| && IsGrid(d, nv)
    requires |cu| == |cv| == nv && forall m | 0 <= m < nv :: |cu[m]| == |cv[m]| == n
    requires forall i, m | 0 <= i < n && 0 <= m < nv :: d[i][m] == UV(cu[m][i], cv[m][i])
    modifies d
    ensures forall i, m | 0 <= i < n && 0 <= m < nv :: d[i][m] == UV(Shift(cu[m], h, 0)[i], Shift(cv[m], h, 0)[i])
  {
    ghost var pu, pv := cu, cv;
    var j := 0;
    while j <= n - 2
      invariant 0 <= j <= n - 1
      invariant |pu| == |pv| == nv && forall m | 0 <= m < nv :: |pu[m]| == |pv[m]| == n
      invariant forall i, m | 0 <= i < n && 0 <= m < nv :: d[i][m] == UV(pu[m][i], pv[m][i])
      invariant forall m | 0 <= m < nv :: Shift(pu[m], h, j) == Shift(cu[m], h, 0)
      invariant forall m | 0 <= m < nv :: Shift(pv[m], h, j) == Shift(cv[m], h, 0)
    {
      hide Pass;
      ColPass(h, d, n, nv, j, pu, pv);
      pu := seq(nv, m requires 0 <= m < nv => Pass(pu[m], h, j));
      pv := seq(nv, m requires 0 <= m < nv => Pass(pv[m], h, j));
      j := j + 1;
    }
  }

  /** All rows to power series over the range of the second argument. */
  method ConvertRows(a: real, b: real, c: seq<array<UV>>, d: seq<array<UV>>, nu: nat, nv: nat)
    requires a != b && nu == |c| == |d| && 1 <= nv && IsGrid(c, nv) && IsGrid(d, nv) && Apart(c, d)
    modifies d
    ensures GridU(d) == RowsToPower(GridU(c), a, b)
    ensures GridV(d) == RowsToPower(GridV(c), a, b)
  {
    hide ToPower, Recentre;
    var i := 0;
    while i < nu
      invariant 0 <= i <= nu
      invariant forall k | 0 <= k < i :: Us(d[k][..]) == PowerRow(Us(c[k][..]), a, b)
      invariant forall k | 0 <= k < i :: Vs(d[k][..]) == PowerRow(Vs(c[k][..]), a, b)
    {
      Rows(c[i], d[i], nv);
      RowShift(a, b, d[i], nv);
      i := i + 1;
    }
  }

  lemma AssembleColumns(g: Matrix, m: Matrix, cols: nat, a: real, b: real)
    requires a != b && IsMatrix(m, |m|, cols) && IsMatrix(g, |m|, cols)
    requires forall i, j | 0 <= i < |m| && 0 <= j < cols :: g[i][j] == PowerRow(Column(m, j), a, b)[i]
    ensures g == ColumnsToPower(m, cols, a, b)
  {
    hide PowerRow;
    forall i | 0 <= i < |m| ensures g[i] == ColumnsToPower(m, cols, a, b)[i] {
    }
  }

  /** All columns to power series over the range of the first argument. */
  method ConvertColumns(a: real, b: real, d: seq<array<UV>>, c: seq<array<UV>>, nu: nat, nv: nat)
    requires a != b && nu == |c| == |d| && 1 <= nu && IsGrid(c, nv) && IsGrid(d, nv) && Apart(d, c)
    modifies c
    ensures GridU(c) == ColumnsToPower(GridU(d), nv, a, b)
    ensures GridV(c) == ColumnsToPower(GridV(d), nv, a, b)
  {
    hide ToPower, Recentre;
    ghost var du, dv := GridU(d), GridV(d);
    ghost var cu := seq(nv, m requires 0 <= m < nv => Column(du, m));
    ghost var cv := seq(nv, m requires 0 <= m < nv => Column(dv, m));
    Cols(d, c, nu, nv, cu, cv);
    ghost var pu := seq(nv, m requires 0 <= m < nv => ToPower(cu[m]));
    ghost var pv := seq(nv, m requires 0 <= m < nv => ToPower(cv[m]));
    ColShift(a, b, c, nu, nv, pu, pv);
    forall i, j | 0 <= i < nu && 0 <= j < nv
      ensures GridU(c)[i][j] == PowerRow(Column(du, j), a, b)[i]
      ensures GridV(c)[i][j] == PowerRow(Column(dv, j), a, b)[i]
    {
      assert c[i][j] == UV(Recentre(pu[j], a, b)[i], Recentre(pv[j], a, b)[i]);
    }
    AssembleColumns(GridU(c), du, nv, a, b);
    AssembleColumns(GridV(c), dv, nv, a, b);
  }

  lemma ConversionMeans(m: Matrix, g: Matrix, nv: nat, a: UV, b: UV)
    requires a.u != b.u && a.v != b.v && IsMatrix(m, |m|, nv) && |m| > 0 && nv > 0
    requires g == ToPower2(m, nv, a.u, b.u, a.v, b.v)
    ensures forall x, y :: Poly2(g, x, y) == Cheb.Series2(m, ToUnit(a.u, b.u, x), ToUnit(a.v, b.v, y))
  {
    hide ToPower2, Poly2, Cheb.Series2, ToUnit;
    forall x, y ensures Poly2(g, x, y) == Cheb.Series2(m, ToUnit(a.u, b.u, x), ToUnit(a.v, b.v, y)) {
      ToPower2Means(m, nv, a.u, b.u, a.v, b.v, x, y);
    }
  }

  /** Replaces the coefficients of a double Chebyshev series over the unit square by the coefficients
      of the double power series over [a, b] that has the same values. */
  method Convert(a: UV, b: UV, c: seq<array<UV>>, nu: nat, nv: nat) returns (ok: bool)
    requires a.u != b.u && a.v != b.v && |c| == nu && IsGrid(c, nv)
    modifies c
    ensures ok <==> nu >= 1 && nv >= 1
    ensures !ok ==> forall i | 0 <= i < nu :: c[i][..] == old(c[i][..])
    ensures ok ==> GridU(c) == ToPower2(old(GridU(c)), nv, a.u, b.u, a.v, b.v)
    ensures ok ==> GridV(c) == ToPower2(old(GridV(c)), nv, a.u, b.u, a.v, b.v)
    ensures ok ==> forall x, y ::
      Poly2(GridU(c), x, y) == Cheb.Series2(old(GridU(c)), ToUnit(a.u, b.u, x), ToUnit(a.v, b.v, y))
    ensures ok ==> forall x, y ::
      Poly2(GridV(c), x, y) == Cheb.Series2(old(GridV(c)), ToUnit(a.u, b.u, x), ToUnit(a.v, b.v, y))
  {
    if nu < 1 || nv < 1 {
      return false;
    }
    hide RowsToPower, ColumnsToPower, Poly2, Cheb.Series2, ToUnit;
    ghost var mu, mv := GridU(c), GridV(c);
    var d := NewGrid(nu, nv);
    ConvertRows(a.v, b.v, c, d, nu, nv);
    ConvertColumns(a.u, b.u, d, c, nu, nv);
    ConversionMeans(mu, GridU(c), nv, a, b);
    ConversionMeans(mv, GridV(c), nv, a, b);
    return true;
  }
}
