/** Generation of the coefficients of a double Chebyshev series: sampling at the Chebyshev nodes and
    a cosine transform of the columns and then of the rows, in place. */
module Bchgen {
  import opened Options
  import opened Reals
  import opened Sums
  import opened Uv
  import opened ChebyshevPolynomials
  import opened Cosines

  /** Coordinate of sample k of n in the range [a, b]. */
  function SampleAt(cos: real -> real, pi: real, a: real, b: real, n: nat, k: nat): real
    requires n > 0
  {
    Node(cos, pi, n, k) * (0.5 * (b - a)) + 0.5 * (b + a)
  }

  /** The sampled function: None is a first component of HUGE_VAL. */
  datatype Sampler = Sampler(cos: real -> real, pi: real, func: UV -> Option<UV>, a: UV, b: UV, nu: nat, nv: nat)
  {
    function At(i: nat, j: nat): Option<UV>
      requires nu > 0 && nv > 0
    {
      func(UV(SampleAt(cos, pi, a.u, b.u, nu, i), SampleAt(cos, pi, a.v, b.v, nv, j)))
    }

    ghost predicate Defined() {
      nu > 0 && nv > 0 && forall i, j | 0 <= i < nu && 0 <= j < nv :: At(i, j).Some?
    }

    ghost function MatrixU(): (m: Matrix)
      requires Defined()
      ensures IsMatrix(m, nu, nv)
    {
      seq(nu, i requires 0 <= i < nu => seq(nv, j requires 0 <= j < nv => At(i, j).value.u))
    }

    ghost function MatrixV(): (m: Matrix)
      requires Defined()
      ensures IsMatrix(m, nu, nv)
    {
      seq(nu, i requires 0 <= i < nu => seq(nv, j requires 0 <= j < nv => At(i, j).value.v))
    }

    ghost function CoefficientsU(): (m: Matrix)
      requires Defined()
      ensures IsMatrix(m, nu, nv)
    {
      TransformRows(cos, pi, TransformColumns(cos, pi, MatrixU(), nv), nv)
    }

    ghost function CoefficientsV(): (m: Matrix)
      requires Defined()
      ensures IsMatrix(m, nu, nv)
    {
      TransformRows(cos, pi, TransformColumns(cos, pi, MatrixV(), nv), nv)
    }
  }

  ghost function TransformColumns(cos: real -> real, pi: real, m: Matrix, cols: nat): (r: Matrix)
    requires |m| > 0 && IsMatrix(m, |m|, cols)
    ensures IsMatrix(r, |m|, cols)
  {
    seq(|m|, i requires 0 <= i < |m| =>
      seq(cols, j requires 0 <= j < cols => Coefficient(cos, pi, Column(m, j), i)))
  }

  ghost function TransformRows(cos: real -> real, pi: real, m: Matrix, cols: nat): (r: Matrix)
    requires cols > 0 && IsMatrix(m, |m|, cols)
    ensures IsMatrix(r, |m|, cols)
  {
    seq(|m|, i requires 0 <= i < |m| => Transform(cos, pi, m[i]))
  }

  /** The double series with the generated coefficients takes the samples at all nodes. */
  lemma GeneratedInterpolates(cos: real -> real, pi: real, s: Matrix, nu: nat, nv: nat, i: nat, j: nat)
    requires i < nu && j < nv && IsMatrix(s, nu, nv) && CosineLaws(cos, pi)
    ensures Series2(TransformRows(cos, pi, TransformColumns(cos, pi, s, nv), nv),
                    Node(cos, pi, nu, i), Node(cos, pi, nv, j)) == s[i][j]
  {
    hide CosineLaws, Coefficient;
    var d := TransformColumns(cos, pi, s, nv);
    var e := TransformRows(cos, pi, d, nv);
    var y := Node(cos, pi, nv, j);
    forall k | 0 <= k < nu
      ensures RowSeries(e, y)[k] == Transform(cos, pi, Column(s, j))[k]
    {
      TransformInterpolates(cos, pi, d[k], j);
    }
    assert RowSeries(e, y) == Transform(cos, pi, Column(s, j));
    TransformInterpolates(cos, pi, Column(s, j), i);
  }

  // ----- The in-place computation

  /** Samples one row; stops at the first point where the function has no value. */
  method SampleRow(s: Sampler, i: nat, row: array<UV>) returns (failed: bool)
    requires i < s.nu && s.nv > 0 && row.Length == s.nv
    modifies row
    ensures failed ==> exists j :: 0 <= j < s.nv && s.At(i, j).None?
    ensures !failed ==> forall j | 0 <= j < s.nv :: s.At(i, j) == Some(row[j])
  {
    var j := 0;
    while j < s.nv
      invariant 0 <= j <= s.nv
      invariant forall l | 0 <= l < j :: s.At(i, l) == Some(row[l])
    {
      var sample := s.At(i, j);
      if sample.None? {
        return true;
      }
      row[j] := sample.value;
      j := j + 1;
    }
    return false;
  }

  /** Samples row by row until a point fails. */
  method Sample(s: Sampler, f: seq<array<UV>>) returns (failed: bool)
    requires s.nu > 0 && s.nv > 0 && |f| == s.nu && IsGrid(f, s.nv)
    modifies f
    ensures !failed <==> s.Defined()
    ensures !failed ==> GridU(f) == s.MatrixU() && GridV(f) == s.MatrixV()
  {
    var i := 0;
    while i < s.nu
      invariant 0 <= i <= s.nu
      invariant forall k, j | 0 <= k < i && 0 <= j < s.nv :: s.At(k, j) == Some(f[k][j])
    {
      failed := SampleRow(s, i, f[i]);
      if failed {
        return;
      }
      i := i + 1;
    }
    GridIs(f, s.nv, s.MatrixU(), s.MatrixV());
    return false;
  }

  function AddProducts(arg: UV, f: UV, d: real): (r: UV)
    ensures AddsProduct(r.u, arg.u, f.u, d) && AddsProduct(r.v, arg.v, f.v, d)
  {
    UV(arg.u + f.u * d, arg.v + f.v * d)
  }

  lemma DotAddsProduct(w: Vector, v: Vector, n: nat, next: real)
    requires n < |w| && n < |v| && AddsProduct(next, Dot(w, v, n), w[n], v[n])
    ensures next == Dot(w, v, n + 1)
  {
    hide Dot;
    DotStep(w, v, n);
  }

  /** Column j of f against row i of the cosine table, scaled. */
  method ColumnCoefficient(cos: real -> real, pi: real, f: seq<array<UV>>, n: nat, cols: nat, i: nat, j: nat,
                           fac: real, ghost su: Vector, ghost sv: Vector) returns (arg: UV)
    requires |f| == n == |su| == |sv| && n > 0 && IsGrid(f, cols) && j < cols && fac == TwoOver(n)
    requires forall k | 0 <= k < n :: f[k][j] == UV(su[k], sv[k])
    ensures arg == UV(Coefficient(cos, pi, su, i), Coefficient(cos, pi, sv, i))
  {
    hide Dot, AddsProduct, Times;
    ghost var t := Table(cos, pi, n, i);
    arg := ZERO;
    DotEmpty(su, t);
    DotEmpty(sv, t);
    var k := 0;
    while k < n
      invariant 0 <= k <= n
      invariant arg == UV(Dot(su, t, k), Dot(sv, t, k))
    {
      var d := Entry(cos, pi, n, i, k);
      arg := AddProducts(arg, f[k][j], d);
      DotAddsProduct(su, t, k, arg.u);
      DotAddsProduct(sv, t, k, arg.v);
      k := k + 1;
    }
    arg := UV(Times(arg.u, fac), Times(arg.v, fac));
  }

  /** The row t against row j of the cosine table, scaled. */
  method RowCoefficient(cos: real -> real, pi: real, t: array<UV>, n: nat, j: nat, fac: real) returns (arg: UV)
    requires t.Length == n > 0 && fac == TwoOver(n)
    ensures arg == UV(Coefficient(cos, pi, Us(t[..]), j), Coefficient(cos, pi, Vs(t[..]), j))
  {
    hide Dot, AddsProduct, Times;
    ghost var su, sv, e := Us(t[..]), Vs(t[..]), Table(cos, pi, n, j);
    arg := ZERO;
    DotEmpty(su, e);
    DotEmpty(sv, e);
    var k := 0;
    while k < n
      invariant 0 <= k <= n
      invariant arg == UV(Dot(su, e, k), Dot(sv, e, k))
    {
      var d := Entry(cos, pi, n, j, k);
      arg := AddProducts(arg, t[k], d);
      DotAddsProduct(su, e, k, arg.u);
      DotAddsProduct(sv, e, k, arg.v);
      k := k + 1;
    }
    arg := UV(Times(arg.u, fac), Times(arg.v, fac));
  }

  ghost predicate ColumnIs(f: seq<array<UV>>, cols: nat, j: nat, su: Vector, sv: Vector)
    requires IsGrid(f, cols) && j < cols
    reads f
  {
    |su| == |sv| == |f| && forall k | 0 <= k < |f| :: f[k][j] == UV(su[k], sv[k])
  }

  /** Overwrites column j with its transform, by way of the buffer c. */
  method TransformColumn(cos: real -> real, pi: real, f: seq<array<UV>>, n: nat, cols: nat, j: nat, fac: real,
                         c: array<UV>, ghost su: Vector, ghost sv: Vector)
    requires |f| == n == c.Length && n > 0 && IsGrid(f, cols) && j < cols && fac == TwoOver(n)
    requires c !in f && ColumnIs(f, cols, j, su, sv)
    modifies f, c
    ensures ColumnIs(f, cols, j, Transform(cos, pi, su), Transform(cos, pi, sv))
    ensures forall l, a, b | 0 <= l < cols && l != j && old(ColumnIs(f, cols, l, a, b)) :: ColumnIs(f, cols, l, a, b)
  {
    hide Coefficient;
    var i := 0;
    while i < n
      invariant 0 <= i <= n
      invariant forall k | 0 <= k < i :: c[k] == UV(Coefficient(cos, pi, su, k), Coefficient(cos, pi, sv, k))
      invariant forall k, l | 0 <= k < n && 0 <= l < cols :: f[k][l] == old(f[k][l])
    {
      c[i] := ColumnCoefficient(cos, pi, f, n, cols, i, j, fac, su, sv);
      i := i + 1;
    }
    i := 0;
    while i < n
      invariant 0 <= i <= n
      invariant forall k | 0 <= k < n :: c[k] == UV(Coefficient(cos, pi, su, k), Coefficient(cos, pi, sv, k))
      invariant forall k | 0 <= k < i :: f[k][j] == c[k]
      invariant forall k, l | 0 <= k < n && 0 <= l < cols && l != j :: f[k][l] == old(f[k][l])
    {
      f[i][j] := c[i];
      i := i + 1;
    }
  }

  lemma ColumnsOfGrid(f: seq<array<UV>>, cols: nat)
    requires IsGrid(f, cols)
    ensures forall l | 0 <= l < cols :: ColumnIs(f, cols, l, Column(GridU(f), l), Column(GridV(f), l))
  {
  }

  method TransformAllColumns(cos: real -> real, pi: real, f: seq<array<UV>>, n: nat, cols: nat)
    requires |f| == n > 0 && IsGrid(f, cols)
    modifies f
    ensures GridU(f) == TransformColumns(cos, pi, old(GridU(f)), cols)
    ensures GridV(f) == TransformColumns(cos, pi, old(GridV(f)), cols)
  {
    hide Transform, TwoOver, ColumnIs, Column, TransformColumns;
    ghost var mu, mv := GridU(f), GridV(f);
    ColumnsOfGrid(f, cols);
    var c := new UV[n];
    var fac := TwoOver(n);
    var j := 0;
    while j < cols
      invariant 0 <= j <= cols
      invariant forall l | 0 <= l < j ::
        ColumnIs(f, cols, l, Transform(cos, pi, Column(mu, l)), Transform(cos, pi, Column(mv, l)))
      invariant forall l | j <= l < cols :: ColumnIs(f, cols, l, Column(mu, l), Column(mv, l))
    {
      TransformColumn(cos, pi, f, n, cols, j, fac, c, Column(mu, j), Column(mv, j));
      j := j + 1;
    }
    AssembleTransformed(cos, pi, f, n, cols, mu, mv);
  }

  lemma AssembleTransformed(cos: real -> real, pi: real, f: seq<array<UV>>, n: nat, cols: nat, mu: Matrix, mv: Matrix)
    requires |f| == n > 0 && IsGrid(f, cols) && IsMatrix(mu, n, cols) && IsMatrix(mv, n, cols)
    requires forall l | 0 <= l < cols ::
      ColumnIs(f, cols, l, Transform(cos, pi, Column(mu, l)), Transform(cos, pi, Column(mv, l)))
    ensures GridU(f) == TransformColumns(cos, pi, mu, cols)
    ensures GridV(f) == TransformColumns(cos, pi, mv, cols)
  {
    hide Coefficient;
    GridIs(f, cols, TransformColumns(cos, pi, mu, cols), TransformColumns(cos, pi, mv, cols));
  }

  /** Fills the buffer c with the transform of the row t. */
  method TransformRow(cos: real -> real, pi: real, t: array<UV>, c: array<UV>, n: nat, fac: real)
    requires t.Length == c.Length == n > 0 && t != c && fac == TwoOver(n)
    modifies c
    ensures Us(c[..]) == Transform(cos, pi, Us(t[..]))
    ensures Vs(c[..]) == Transform(cos, pi, Vs(t[..]))
  {
    hide Coefficient;
    ghost var su, sv := Us(t[..]), Vs(t[..]);
    var j := 0;
    while j < n
      invariant 0 <= j <= n
      invariant forall k | 0 <= k < j :: c[k] == UV(Coefficient(cos, pi, su, k), Coefficient(cos, pi, sv, k))
    {
      c[j] := RowCoefficient(cos, pi, t, n, j, fac);
      j := j + 1;
    }
  }

  ghost predicate RowIs(row: array<UV>, su: Vector, sv: Vector)
    reads row
  {
    Us(row[..]) == su && Vs(row[..]) == sv
  }

  /** Installs the transform of row i, built in the spare buffer c, and returns the old row. */
  method SwapIn(cos: real -> real, pi: real, f: array<array<UV>>, i: nat, c: array<UV>, cols: nat, fac: real,
                ghost su: Vector, ghost sv: Vector)
    returns (t: array<UV>)
    requires i < f.Length && cols > 0 && IsGrid(f[..], cols) && fac == TwoOver(cols)
    requires c.Length == cols && c !in f[..] && RowIs(f[i], su, sv)
    modifies f, c
    ensures t == old(f[i]) && f[..] == old(f[..])[i := c]
    ensures |su| == |sv| == cols && RowIs(c, Transform(cos, pi, su), Transform(cos, pi, sv))
  {
    hide Transform, TwoOver;
    t := f[i];
    TransformRow(cos, pi, t, c, cols, fac);
    f[i] := c;
  }

  /** Rows before row i are transformed, the others are still as in mu and mv. */
  ghost predicate RowsDone(cos: real -> real, pi: real, f: seq<array<UV>>, i: nat, mu: Matrix, mv: Matrix, cols: nat)
    reads f
  {
    && cols > 0 && IsMatrix(mu, |f|, cols) && IsMatrix(mv, |f|, cols)
    && (forall k | 0 <= k < i && k < |f| :: RowIs(f[k], Transform(cos, pi, mu[k]), Transform(cos, pi, mv[k])))
    && (forall k | i <= k < |f| :: RowIs(f[k], mu[k], mv[k]))
  }

  /** One row of the second pass. */
  method NextRow(cos: real -> real, pi: real, f: array<array<UV>>, i: nat, c: array<UV>, cols: nat, fac: real,
                 ghost mu: Matrix, ghost mv: Matrix)
    returns (t: array<UV>)
    requires i < f.Length && cols > 0 && IsGrid(f[..], cols) && fac == TwoOver(cols)
    requires c.Length == cols && c !in f[..] && RowsDone(cos, pi, f[..], i, mu, mv, cols)
    modifies f, c
    ensures t == old(f[i]) && f[..] == old(f[..])[i := c]
    ensures IsGrid(f[..], cols) && t.Length == cols && t !in f[..] && RowsDone(cos, pi, f[..], i + 1, mu, mv, cols)
  {
    hide Transform, TwoOver, RowIs;
    ghost var was := f[..];
    t := SwapIn(cos, pi, f, i, c, cols, fac, mu[i], mv[i]);
    forall k | 0 <= k < |was| && k != i ensures f[..][k] == was[k] && was[k] != c {
      assert was[k] in was;
    }
  }

  lemma RowsOfGrid(f: seq<array<UV>>, cols: nat)
    requires IsGrid(f, cols)
    ensures IsMatrix(GridU(f), |f|, cols) && IsMatrix(GridV(f), |f|, cols)
    ensures forall k | 0 <= k < |f| :: RowIs(f[k], GridU(f)[k], GridV(f)[k])
  {
  }

  /** Transforms every row into a spare buffer, installs the buffer as the row and hands the old row
      on as the next spare. */
  method TransformAllRows(cos: real -> real, pi: real, f: array<array<UV>>, cols: nat)
    requires cols > 0 && IsGrid(f[..], cols)
    modifies f, f[..]
    ensures IsGrid(f[..], cols)
    ensures forall i | 0 <= i < f.Length :: f[i] in old(f[..]) || fresh(f[i])
    ensures GridU(f[..]) == TransformRows(cos, pi, old(GridU(f[..])), cols)
    ensures GridV(f[..]) == TransformRows(cos, pi, old(GridV(f[..])), cols)
  {
    hide Transform, TwoOver, RowIs, GridU, GridV, TransformRows;
    ghost var mu, mv := GridU(f[..]), GridV(f[..]);
    RowsOfGrid(f[..], cols);
    assert RowsDone(cos, pi, f[..], 0, mu, mv, cols);
    var c := new UV[cols];
    ghost var owned := (set r | r in f[..]) + {c};
    var fac := TwoOver(cols);
    var i := 0;
    while i < f.Length
      invariant 0 <= i <= f.Length
      invariant IsGrid(f[..], cols) && c.Length == cols && c !in f[..]
      invariant c in owned && forall k | 0 <= k < f.Length :: f[k] in owned
      invariant RowsDone(cos, pi, f[..], i, mu, mv, cols)
    {
      hide RowsDone, IsGrid;
      c := NextRow(cos, pi, f, i, c, cols, fac, mu, mv);
      i := i + 1;
    }
    AssembleRows(cos, pi, f[..], cols, mu, mv);
  }

  lemma AssembleRows(cos: real -> real, pi: real, f: seq<array<UV>>, cols: nat, mu: Matrix, mv: Matrix)
    requires cols > 0 && IsGrid(f, cols) && IsMatrix(mu, |f|, cols) && IsMatrix(mv, |f|, cols)
    requires forall k | 0 <= k < |f| :: RowIs(f[k], Transform(cos, pi, mu[k]), Transform(cos, pi, mv[k]))
    ensures GridU(f) == TransformRows(cos, pi, mu, cols)
    ensures GridV(f) == TransformRows(cos, pi, mv, cols)
  {
    hide Transform;
  }

  /** Generates the coefficients in f, or fails when the function has no value at some node. */
  method Generate(s: Sampler, f: array<array<UV>>) returns (failed: bool)
    requires s.nu > 0 && s.nv > 0 && f.Length == s.nu && IsGrid(f[..], s.nv)
    modifies f, f[..]
    ensures !failed <==> s.Defined()
    ensures IsGrid(f[..], s.nv)
    ensures forall i | 0 <= i < f.Length :: f[i] in old(f[..]) || fresh(f[i])
    ensures !failed ==> GridU(f[..]) == s.CoefficientsU() && GridV(f[..]) == s.CoefficientsV()
  {
    failed := Sample(s, f[..]);
    if failed {
      return;
    }
    hide TransformColumns, TransformRows;
    TransformAllColumns(s.cos, s.pi, f[..], s.nu, s.nv);
    TransformAllRows(s.cos, s.pi, f, s.nv);
  }
}
