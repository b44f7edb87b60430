/** Compilation of a function of two arguments to a truncated double series: coefficient generation,
    search for a cut-off, truncation, optional conversion to powers, and ragged row storage. */
module MkCheby {
  import opened Options
  import opened Reals
  import opened Sums
  import opened Uv
  import opened Cheb = ChebyshevPolynomials
  import opened PowerSeries
  import opened Cosines
  import opened Bchgen
  import opened Biveval
  import Bch2bps

  // ----- Truncation of a coefficient matrix

  ghost function DroppedRow(row: Vector, cut: real): (r: Vector)
    ensures |r| == |row|
  {
    seq(|row|, j requires 0 <= j < |row| => if Abs(row[j]) < cut then row[j] else 0.0)
  }

  ghost function KeptRow(row: Vector, cut: real): (r: Vector)
    ensures |r| == |row|
  {
    seq(|row|, j requires 0 <= j < |row| => if Abs(row[j]) < cut then 0.0 else row[j])
  }

  /** The coefficients below the cut-off; all others are zero. */
  ghost function Dropped(m: Matrix, cut: real): (r: Matrix)
    ensures |r| == |m| && forall i | 0 <= i < |m| :: |r[i]| == |m[i]|
  {
    seq(|m|, i requires 0 <= i < |m| => DroppedRow(m[i], cut))
  }

  /** The coefficients that reach the cut-off; all others are zero. */
  ghost function Kept(m: Matrix, cut: real): (r: Matrix)
    ensures |r| == |m| && forall i | 0 <= i < |m| :: |r[i]| == |m[i]|
  {
    seq(|m|, i requires 0 <= i < |m| => KeptRow(m[i], cut))
  }

  /** The sum of the absolute values of the coefficients below the cut-off. */
  ghost function Loss(m: Matrix, cut: real): real {
    AbsTotal(Dropped(m, cut), |m|)
  }

  lemma {:induction false} AbsTotalSame(a: Matrix, b: Matrix, n: nat)
    requires n <= |a| && n <= |b| && forall i | 0 <= i < n :: a[i] == b[i]
    ensures AbsTotal(a, n) == AbsTotal(b, n)
  {
    if n > 0 { AbsTotalSame(a, b, n - 1); }
  }

  lemma {:induction false} AbsSumSame(a: Vector, b: Vector, n: nat)
    requires n <= |a| && n <= |b| && forall i | 0 <= i < n :: a[i] == b[i]
    ensures AbsSum(a, n) == AbsSum(b, n)
  {
    if n > 0 { AbsSumSame(a, b, n - 1); }
  }

  /** The loss adds up over rows. */
  lemma LossOfRows(m: Matrix, row: Vector, cut: real)
    ensures Loss([], cut) == 0.0 && Loss([[]], cut) == 0.0
    ensures Loss(m + [row], cut) == Loss(m, cut) + Loss([row], cut)
  {
    hide AbsSum, DroppedRow;
    AbsTotalSame(Dropped(m + [row], cut), Dropped(m, cut), |m|);
    OneRow(row, cut);
    OneRow([], cut);
    EmptyRow(cut);
  }

  lemma OneRow(row: Vector, cut: real)
    ensures Loss([row], cut) == AbsSum(DroppedRow(row, cut), |row|)
  {
    hide AbsSum, DroppedRow;
    assert AbsTotal(Dropped([row], cut), 0) == 0.0;
  }

  lemma EmptyRow(cut: real)
    ensures AbsSum(DroppedRow([], cut), 0) == 0.0
  {
  }

  /** In a row every coefficient below the cut-off counts with its absolute value, the others do not. */
  lemma LossOfEntry(row: Vector, x: real, cut: real)
    ensures Loss([row + [x]], cut) == Loss([row], cut) + if -cut < x < cut then Abs(x) else 0.0
  {
    OneRow(row, cut);
    OneRow(row + [x], cut);
    AbsSumSame(DroppedRow(row + [x], cut), DroppedRow(row, cut), |row|);
    hide Loss;
  }

  lemma {:induction false} LossMonotoneUpTo(m: Matrix, low: real, high: real, n: nat)
    requires low <= high && n <= |m|
    ensures 0.0 <= AbsTotal(Dropped(m, low), n) <= AbsTotal(Dropped(m, high), n)
  {
    if n > 0 {
      LossMonotoneUpTo(m, low, high, n - 1);
      AbsSumMonotone(DroppedRow(m[n-1], low), DroppedRow(m[n-1], high), |m[n-1]|);
    }
  }

  /** Truncation changes the series, where it is meant to be used, by no more than the loss. */
  lemma LossBounds(m: Matrix, cols: nat, cut: real, x: real, y: real)
    requires IsMatrix(m, |m|, cols) && -1.0 <= x <= 1.0 && -1.0 <= y <= 1.0
    ensures Abs(Series2(m, x, y) - Series2(Kept(m, cut), x, y)) <= Loss(m, cut)
  {
    var wx, wy := Weights(x, |m|), Weights(y, cols);
    var d := Dropped(m, cut);
    Series2IsBilinear(m, x, y, cols);
    Series2IsBilinear(Kept(m, cut), x, y, cols);
    WeightsBounded(x, |m|);
    WeightsBounded(y, cols);
    hide Bilinear, Series2, Weights;
    BilinearBounded(wx, d, wy);
    BilinearSplit(wx, wy, m, Kept(m, cut), d);
  }

  lemma BilinearSplit(w: Vector, z: Vector, m: Matrix, a: Matrix, b: Matrix)
    requires IsMatrix(a, |w|, |z|) && IsMatrix(b, |w|, |z|) && IsMatrix(m, |w|, |z|)
    requires forall i, j | 0 <= i < |w| && 0 <= j < |z| :: m[i][j] == a[i][j] + b[i][j]
    ensures Bilinear(w, m, z) == Bilinear(w, a, z) + Bilinear(w, b, z)
  {
    hide Dot;
    forall i | 0 <= i < |w| ensures RowDots(m, z)[i] == RowDots(a, z)[i] + RowDots(b, z)[i] {
      DotAdd(z, a[i], b[i], m[i], |z|);
    }
    DotAdd(w, RowDots(a, z), RowDots(b, z), RowDots(m, z), |w|);
  }

  // ----- The cut-off search

  ghost predicate Acceptable(mu: Matrix, mv: Matrix, cut: real, res: real) {
    Loss(mu, cut) < res && Loss(mv, cut) < res
  }

  /** The cut-off that at most i more halvings of cut arrive at, and whether it is acceptable. */
  ghost function Search(mu: Matrix, mv: Matrix, res: real, cut: real, i: nat): (real, bool)
    decreases i
  {
    if i == 0 then (cut, false)
    else if Acceptable(mu, mv, cut, res) then (cut, true)
    else Search(mu, mv, res, 0.5 * cut, i - 1)
  }

  ghost function CutOff(mu: Matrix, mv: Matrix, res: real): (real, bool) {
    Search(mu, mv, res, res, 4)
  }

  /** What the reported residual says: the losses at the cut-off when one was found; otherwise the
      losses at twice the cut-off, the first of them negated. */
  ghost predicate Reported(mu: Matrix, mv: Matrix, res: real, resid: UV) {
    var (cut, found) := CutOff(mu, mv, res);
    if found then
      resid == UV(Loss(mu, cut), Loss(mv, cut)) && resid.u < res && resid.v < res
    else
      resid == UV(-Loss(mu, cut + cut), Loss(mv, cut + cut)) && !Acceptable(mu, mv, cut + cut, res)
  }

  /** Which of the four cut-offs is used and what is reported: the first at which both losses are below
      res, with these losses; without one a sixteenth of res, with the losses at the last one tried, the
      first of them negated. */
  ghost predicate FourTries(mu: Matrix, mv: Matrix, res: real, cut: real, resid: UV) {
    if Loss(mu, res) < res && Loss(mv, res) < res then
      cut == res && resid == UV(Loss(mu, res), Loss(mv, res))
    else if Loss(mu, res / 2.0) < res && Loss(mv, res / 2.0) < res then
      cut == res / 2.0 && resid == UV(Loss(mu, res / 2.0), Loss(mv, res / 2.0))
    else if Loss(mu, res / 4.0) < res && Loss(mv, res / 4.0) < res then
      cut == res / 4.0 && resid == UV(Loss(mu, res / 4.0), Loss(mv, res / 4.0))
    else if Loss(mu, res / 8.0) < res && Loss(mv, res / 8.0) < res then
      cut == res / 8.0 && resid == UV(Loss(mu, res / 8.0), Loss(mv, res / 8.0))
    else
      cut == res / 16.0 && resid == UV(-Loss(mu, res / 8.0), Loss(mv, res / 8.0))
  }

  lemma Halves(res: real)
    ensures 0.5 * res == res / 2.0 && 0.5 * (res / 2.0) == res / 4.0 && 0.5 * (res / 4.0) == res / 8.0
    ensures 0.5 * (res / 8.0) == res / 16.0 && res / 16.0 + res / 16.0 == res / 8.0
  {
  }

  lemma SearchStep(mu: Matrix, mv: Matrix, res: real, cut: real, i: nat)
    ensures Search(mu, mv, res, cut, 0) == (cut, false)
    ensures Search(mu, mv, res, cut, i + 1) ==
      if Acceptable(mu, mv, cut, res) then (cut, true) else Search(mu, mv, res, 0.5 * cut, i)
  {
    hide Acceptable;
  }

  /** The search and its report, spelled out. */
  lemma ReportedTries(mu: Matrix, mv: Matrix, res: real, resid: UV)
    requires Reported(mu, mv, res, resid)
    ensures FourTries(mu, mv, res, CutOff(mu, mv, res).0, resid)
  {
    hide Loss, Search;
    Halves(res);
    SearchStep(mu, mv, res, res, 3);
    SearchStep(mu, mv, res, res / 2.0, 2);
    SearchStep(mu, mv, res, res / 4.0, 1);
    SearchStep(mu, mv, res, res / 8.0, 0);
    SearchStep(mu, mv, res, res / 16.0, 0);
  }

  lemma {:induction false} SearchSign(mu: Matrix, mv: Matrix, res: real, cut: real, i: nat)
    ensures cut > 0.0 ==> Search(mu, mv, res, cut, i).0 > 0.0
    ensures cut <= 0.0 ==> Search(mu, mv, res, cut, i).0 <= 0.0
    decreases i
  {
    hide Acceptable;
    if i > 0 && !Acceptable(mu, mv, cut, res) {
      SearchSign(mu, mv, res, 0.5 * cut, i - 1);
    }
  }

  lemma {:induction false} NoLoss(m: Matrix, cut: real, n: nat)
    requires cut <= 0.0 && n <= |m|
    ensures AbsTotal(Dropped(m, cut), n) == 0.0
  {
    if n > 0 {
      NoLoss(m, cut, n - 1);
      NoRowLoss(m[n-1], cut, |m[n-1]|);
    }
  }

  lemma {:induction false} NoRowLoss(row: Vector, cut: real, n: nat)
    requires cut <= 0.0 && n <= |row|
    ensures AbsSum(DroppedRow(row, cut), n) == 0.0
  {
    if n > 0 {
      NoRowLoss(row, cut, n - 1);
    }
  }

  /** In either case the reported residual bounds the loss at the cut-off. */
  lemma ReportedBounds(mu: Matrix, mv: Matrix, res: real, resid: UV)
    requires Reported(mu, mv, res, resid)
    ensures Loss(mu, CutOff(mu, mv, res).0) <= Abs(resid.u)
    ensures Loss(mv, CutOff(mu, mv, res).0) <= Abs(resid.v)
  {
    var (cut, found) := CutOff(mu, mv, res);
    SearchSign(mu, mv, res, res, 4);
    hide Search;
    if cut <= 0.0 {
      NoLoss(mu, cut, |mu|);
      NoLoss(mv, cut, |mv|);
    } else {
      var reported := if found then cut else cut + cut;
      LossMonotoneUpTo(mu, cut, reported, |mu|);
      LossMonotoneUpTo(mv, cut, reported, |mv|);
    }
  }

  // ----- Ragged storage

  /** c stores m with trailing zeros of every row and trailing zero rows left out. */
  ghost predicate Stores(c: Matrix, m: Matrix) {
    && |c| <= |m|
    && (forall i | 0 <= i < |c| :: |c[i]| <= |m[i]| && c[i] == m[i][..|c[i]|])
    && (forall i, j | 0 <= i < |c| && |c[i]| <= j < |m[i]| :: m[i][j] == 0.0)
    && (forall i, j | |c| <= i < |m| && 0 <= j < |m[i]| :: m[i][j] == 0.0)
  }

  lemma StoredBilinear(c: Matrix, m: Matrix, w: Vector, z: Vector)
    requires Stores(c, m) && IsMatrix(m, |w|, |z|)
    ensures Bilinear(w, c, z) == Bilinear(w, m, z)
  {
    hide Dot;
    forall i | 0 <= i < |c| ensures RowDots(c, z)[i] == RowDots(m, z)[i] {
      DotZeroTail(z, m[i], |c[i]|, |z|);
      DotSame(z, c[i], z, m[i], |c[i]|);
    }
    forall i | |c| <= i < |m| ensures RowDots(m, z)[i] == 0.0 {
      DotZero(z, m[i], |z|);
    }
    DotZeroTail(w, RowDots(m, z), |c|, |m|);
    DotSame(w, RowDots(c, z), w, RowDots(m, z), |c|);
  }

  lemma PrefixWeights(x: real, m: nat, n: nat)
    requires m <= n
    ensures forall i | 0 <= i < m :: Weights(x, m)[i] == Weights(x, n)[i]
    ensures forall i | 0 <= i < m :: Powers(x, m)[i] == Powers(x, n)[i]
  {
  }

  /** Leaving out zeros does not change the Chebyshev series or the power series. */
  lemma StoredMeans(c: Matrix, m: Matrix, cols: nat, x: real, y: real)
    requires Stores(c, m) && IsMatrix(m, |m|, cols)
    ensures Series2(c, x, y) == Series2(m, x, y)
    ensures Poly2(c, x, y) == Poly2(m, x, y)
  {
    Series2IsBilinear(c, x, y, cols);
    Series2IsBilinear(m, x, y, cols);
    Poly2IsBilinear(c, x, y, cols);
    Poly2IsBilinear(m, x, y, cols);
    PrefixWeights(x, |c|, |m|);
    hide Bilinear, Series2, Poly2, Weights, Powers;
    BilinearSame(Weights(x, |c|), Weights(y, cols), Weights(x, |m|), Weights(y, cols), c);
    BilinearSame(Powers(x, |c|), Powers(y, cols), Powers(x, |m|), Powers(y, cols), c);
    StoredBilinear(c, m, Weights(x, |m|), Weights(y, cols));
    StoredBilinear(c, m, Powers(x, |m|), Powers(y, cols));
  }

  // ----- The computation

  /** Adds the absolute values of the entries of one row that are below the cut-off. */
  method EvalRow(row: array<UV>, cut: real, resid: UV) returns (r: UV)
    ensures r.u == resid.u + AbsSum(DroppedRow(Us(row[..]), cut), row.Length)
    ensures r.v == resid.v + AbsSum(DroppedRow(Vs(row[..]), cut), row.Length)
  {
    ghost var du, dv := DroppedRow(Us(row[..]), cut), DroppedRow(Vs(row[..]), cut);
    r := resid;
    var j := 0;
    while j < row.Length
      invariant 0 <= j <= row.Length
      invariant r == UV(resid.u + AbsSum(du, j), resid.v + AbsSum(dv, j))
    {
      var ab := Abs(row[j].u);
      if ab < cut {
        r := UV(r.u + ab, r.v);
      }
      ab := Abs(row[j].v);
      if ab < cut {
        r := UV(r.u, r.v + ab);
      }
      j := j + 1;
    }
  }

  /** The sums of the coefficients below the cut-off. */
  method Eval(w: seq<array<UV>>, cut: real) returns (resid: UV)
    ensures resid == UV(Loss(GridU(w), cut), Loss(GridV(w), cut))
  {
    ghost var du, dv := Dropped(GridU(w), cut), Dropped(GridV(w), cut);
    hide AbsSum;
    resid := ZERO;
    var i := 0;
    while i < |w|
      invariant 0 <= i <= |w|
      invariant resid == UV(AbsTotal(du, i), AbsTotal(dv, i))
    {
      resid := EvalRow(w[i], cut, resid);
      i := i + 1;
    }
  }

  /** Halves the cut-off until the losses are acceptable, four times at most. */
  method FindCut(w: seq<array<UV>>, res: real) returns (cut: real, resid: UV)
    ensures cut == CutOff(GridU(w), GridV(w), res).0
    ensures Reported(GridU(w), GridV(w), res, resid) && FourTries(GridU(w), GridV(w), res, cut, resid)
  {
    ghost var mu, mv := GridU(w), GridV(w);
    hide Loss, FourTries;
    cut := res;
    resid := ZERO;
    var i := 4;
    while i > 0
      invariant 0 <= i <= 4
      invariant Search(mu, mv, res, cut, i) == CutOff(mu, mv, res)
      invariant i < 4 ==> resid == UV(Loss(mu, cut + cut), Loss(mv, cut + cut)) && !Acceptable(mu, mv, cut + cut, res)
    {
      resid := Eval(w, cut);
      if resid.u < res && resid.v < res {
        break;
      }
      cut := 0.5 * cut;
      i := i - 1;
    }
    if i <= 0 {
      resid := UV(-resid.u, resid.v);
    }
    ReportedTries(mu, mv, res, resid);
  }

  /** All entries of v from index n on are zero. */
  ghost predicate ZeroFrom(v: Vector, n: nat) {
    forall j | n <= j < |v| :: v[j] == 0.0
  }

  ghost predicate RowKept(v: Vector, cut: real) {
    exists j :: 0 <= j < |v| && Abs(v[j]) >= cut
  }

  /** Some coefficient reaches the cut-off. */
  ghost predicate SomeKept(m: Matrix, cut: real) {
    exists i :: 0 <= i < |m| && RowKept(m[i], cut)
  }

  lemma KeptRowIs(row: Vector, cut: real)
    ensures forall j | 0 <= j < |row| :: KeptRow(row, cut)[j] == if Abs(row[j]) < cut then 0.0 else row[j]
  {
  }

  /** Clears the entries of one row below the cut-off and returns the stored lengths. */
  method TruncateRow(row: array<UV>, cut: real, ghost ou: Vector, ghost ov: Vector) returns (ncu: nat, ncv: nat)
    requires RowIs(row, ou, ov)
    modifies row
    ensures RowIs(row, KeptRow(ou, cut), KeptRow(ov, cut))
    ensures ncu <= row.Length && ZeroFrom(KeptRow(ou, cut), ncu)
    ensures ncv <= row.Length && ZeroFrom(KeptRow(ov, cut), ncv)
    ensures ncu > 0 <==> RowKept(ou, cut)
    ensures ncv > 0 <==> RowKept(ov, cut)
  {
    hide KeptRow, Abs;
    KeptRowIs(ou, cut);
    KeptRowIs(ov, cut);
    ncu, ncv := 0, 0;
    var i := 0;
    while i < row.Length
      invariant 0 <= i <= row.Length && ncu <= i && ncv <= i
      invariant forall j | 0 <= j < i :: row[j] == UV(KeptRow(ou, cut)[j], KeptRow(ov, cut)[j])
      invariant forall j | i <= j < row.Length :: row[j] == UV(ou[j], ov[j])
      invariant forall j | ncu <= j < i :: Abs(ou[j]) < cut
      invariant forall j | ncv <= j < i :: Abs(ov[j]) < cut
      invariant ncu > 0 ==> Abs(ou[ncu-1]) >= cut
      invariant ncv > 0 ==> Abs(ov[ncv-1]) >= cut
    {
      if Abs(row[i].u) < cut {
        row[i] := UV(0.0, row[i].v);
      } else {
        ncu := i + 1;
      }
      if Abs(row[i].v) < cut {
        row[i] := UV(row[i].u, 0.0);
      } else {
        ncv := i + 1;
      }
      i := i + 1;
    }
  }

  /** The stored lengths nc of the rows of m and the number nr of stored rows. */
  ghost predicate Lengths(m: Matrix, nc: seq<nat>, nr: nat) {
    && |nc| == |m| && nr <= |m|
    && (forall i | 0 <= i < |m| :: nc[i] <= |m[i]| && ZeroFrom(m[i], nc[i]))
    && (forall i | nr <= i < |m| :: nc[i] == 0)
  }

  /** The lengths nc of the first j rows after truncation, and the number nr of rows to store. */
  ghost predicate TruncatedTo(m: Matrix, cut: real, nc: seq<nat>, nr: nat, j: nat) {
    && |nc| == j <= |m| && nr <= j
    && (forall i | 0 <= i < j :: nc[i] <= |m[i]| && ZeroFrom(KeptRow(m[i], cut), nc[i]))
    && (forall i | nr <= i < j :: nc[i] == 0)
    && (nr > 0 <==> exists i :: 0 <= i < j && RowKept(m[i], cut))
  }

  lemma TruncatedNone(m: Matrix, cut: real)
    ensures TruncatedTo(m, cut, [], 0, 0)
  {
    hide ZeroFrom, RowKept, KeptRow;
  }

  lemma TruncatedStep(m: Matrix, cut: real, nc: seq<nat>, nr: nat, j: nat, c: nat)
    requires TruncatedTo(m, cut, nc, nr, j) && j < |m|
    requires c <= |m[j]| && ZeroFrom(KeptRow(m[j], cut), c) && (c > 0 <==> RowKept(m[j], cut))
    ensures TruncatedTo(m, cut, nc + [c], if c != 0 then j + 1 else nr, j + 1)
  {
    hide ZeroFrom, RowKept, KeptRow;
  }

  lemma TruncatedAll(m: Matrix, cut: real, nc: seq<nat>, nr: nat)
    requires TruncatedTo(m, cut, nc, nr, |m|)
    ensures Lengths(Kept(m, cut), nc, nr) && (nr > 0 <==> SomeKept(m, cut))
  {
    hide ZeroFrom, RowKept, KeptRow;
  }

  /** Clears all entries below the cut-off. */
  method Truncate(w: seq<array<UV>>, cols: nat, cut: real) returns (ncu: seq<nat>, ncv: seq<nat>, nru: nat, nrv: nat)
    requires IsGrid(w, cols)
    modifies w
    ensures GridU(w) == Kept(old(GridU(w)), cut) && GridV(w) == Kept(old(GridV(w)), cut)
    ensures Lengths(GridU(w), ncu, nru) && Lengths(GridV(w), ncv, nrv)
    ensures nru > 0 <==> SomeKept(old(GridU(w)), cut)
    ensures nrv > 0 <==> SomeKept(old(GridV(w)), cut)
  {
    hide KeptRow, GridU, GridV, RowKept, ZeroFrom, RowIs, Lengths, SomeKept, Kept, TruncatedTo;
    ghost var mu, mv := GridU(w), GridV(w);
    RowsOfGrid(w, cols);
    TruncatedNone(mu, cut);
    TruncatedNone(mv, cut);
    ncu, ncv, nru, nrv := [], [], 0, 0;
    var j := 0;
    while j < |w|
      invariant 0 <= j <= |w|
      invariant forall i | 0 <= i < j :: RowIs(w[i], KeptRow(mu[i], cut), KeptRow(mv[i], cut))
      invariant forall i | j <= i < |w| :: RowIs(w[i], mu[i], mv[i])
      invariant TruncatedTo(mu, cut, ncu, nru, j) && TruncatedTo(mv, cut, ncv, nrv, j)
    {
      var cu, cv := TruncateRow(w[j], cut, mu[j], mv[j]);
      TruncatedStep(mu, cut, ncu, nru, j, cu);
      TruncatedStep(mv, cut, ncv, nrv, j, cv);
      ncu, ncv := ncu + [cu], ncv + [cv];
      if cu != 0 { nru := j + 1; }
      if cv != 0 { nrv := j + 1; }
      j := j + 1;
    }
    TruncatedAll(mu, cut, ncu, nru);
    TruncatedAll(mv, cut, ncv, nrv);
    KeptGrid(w, cols, mu, mv, cut);
  }

  lemma KeptGrid(w: seq<array<UV>>, cols: nat, mu: Matrix, mv: Matrix, cut: real)
    requires IsGrid(w, cols) && IsMatrix(mu, |w|, cols) && IsMatrix(mv, |w|, cols)
    requires forall i | 0 <= i < |w| :: RowIs(w[i], KeptRow(mu[i], cut), KeptRow(mv[i], cut))
    ensures GridU(w) == Kept(mu, cut) && GridV(w) == Kept(mv, cut)
  {
    hide KeptRow;
  }

  /** The stored lengths of one row of power coefficients. */
  method CountRow(row: array<UV>) returns (ncu: nat, ncv: nat)
    ensures ncu <= row.Length && ZeroFrom(Us(row[..]), ncu)
    ensures ncv <= row.Length && ZeroFrom(Vs(row[..]), ncv)
  {
    ncu, ncv := 0, 0;
    var i := 0;
    while i < row.Length
      invariant 0 <= i <= row.Length && ncu <= i && ncv <= i
      invariant forall j | ncu <= j < i :: row[j].u == 0.0
      invariant forall j | ncv <= j < i :: row[j].v == 0.0
    {
      if row[i].u != 0.0 { ncu := i + 1; }
      if row[i].v != 0.0 { ncv := i + 1; }
      i := i + 1;
    }
  }

  method Count(w: seq<array<UV>>, cols: nat) returns (ncu: seq<nat>, ncv: seq<nat>, nru: nat, nrv: nat)
    requires IsGrid(w, cols)
    ensures Lengths(GridU(w), ncu, nru) && Lengths(GridV(w), ncv, nrv)
  {
    ncu, ncv, nru, nrv := [], [], 0, 0;
    var j := 0;
    while j < |w|
      invariant 0 <= j <= |w| && nru <= j && nrv <= j && |ncu| == |ncv| == j
      invariant forall i | 0 <= i < j :: ncu[i] <= cols && ZeroFrom(Us(w[i][..]), ncu[i])
      invariant forall i | 0 <= i < j :: ncv[i] <= cols && ZeroFrom(Vs(w[i][..]), ncv[i])
      invariant forall i | nru <= i < j :: ncu[i] == 0
      invariant forall i | nrv <= i < j :: ncv[i] == 0
    {
      var cu, cv := CountRow(w[j]);
      ncu, ncv := ncu + [cu], ncv + [cv];
      if cu != 0 { nru := j + 1; }
      if cv != 0 { nrv := j + 1; }
      j := j + 1;
    }
  }

  method StoreU(w: seq<array<UV>>, cols: nat, nc: seq<nat>, nr: nat) returns (c: Matrix)
    requires IsGrid(w, cols) && Lengths(GridU(w), nc, nr)
    ensures Stores(c, GridU(w)) && |c| == nr
  {
    c := [];
    var i := 0;
    while i < nr
      invariant 0 <= i == |c| <= nr
      invariant forall k | 0 <= k < i :: c[k] == GridU(w)[k][..nc[k]]
    {
      var row := [];
      var j := 0;
      while j < nc[i]
        invariant 0 <= j == |row| <= nc[i]
        invariant forall l | 0 <= l < j :: row[l] == w[i][l].u
      {
        row := row + [w[i][j].u];
        j := j + 1;
      }
      c := c + [row];
      i := i + 1;
    }
  }

  method StoreV(w: seq<array<UV>>, cols: nat, nc: seq<nat>, nr: nat) returns (c: Matrix)
    requires IsGrid(w, cols) && Lengths(GridV(w), nc, nr)
    ensures Stores(c, GridV(w)) && |c| == nr
  {
    c := [];
    var i := 0;
    while i < nr
      invariant 0 <= i == |c| <= nr
      invariant forall k | 0 <= k < i :: c[k] == GridV(w)[k][..nc[k]]
    {
      var row := [];
      var j := 0;
      while j < nc[i]
        invariant 0 <= j == |row| <= nc[i]
        invariant forall l | 0 <= l < j :: row[l] == w[i][l].v
      {
        row := row + [w[i][j].v];
        j := j + 1;
      }
      c := c + [row];
      i := i + 1;
    }
  }

  // ----- The compiler

  ghost predicate Compilable(s: Sampler) {
    s.Defined() && s.a.u != s.b.u && s.a.v != s.b.v
  }

  ghost function Cut(s: Sampler, res: real): real
    requires s.Defined()
  {
    CutOff(s.CoefficientsU(), s.CoefficientsV(), res).0
  }

  /** The point of the unit square that corresponds to p. */
  ghost function UnitPoint(s: Sampler, p: UV): UV
    requires Compilable(s)
  {
    UV(ToUnit(s.a.u, s.b.u, p.u), ToUnit(s.a.v, s.b.v, p.v))
  }

  /** The value of the full series at p. */
  ghost function FullSeries(s: Sampler, p: UV): UV
    requires Compilable(s)
  {
    var w := UnitPoint(s, p);
    UV(Series2(s.CoefficientsU(), w.u, w.v), Series2(s.CoefficientsV(), w.u, w.v))
  }

  /** The value at p of the series without the coefficients below the cut-off. */
  ghost function TruncatedSeries(s: Sampler, res: real, p: UV): UV
    requires Compilable(s)
  {
    var w := UnitPoint(s, p);
    UV(Series2(Kept(s.CoefficientsU(), Cut(s, res)), w.u, w.v), Series2(Kept(s.CoefficientsV(), Cut(s, res)), w.u, w.v))
  }

  /** t means the truncated series: everywhere in power mode, on the accepted points otherwise. */
  ghost predicate Compiles(t: Tseries, s: Sampler, res: real, power: bool)
    requires Compilable(s)
  {
    && t.power == power && WellFormed(t)
    && (forall p :: Denote(t, p) ==
         if power || Accepted(UnitPoint(s, p)) then Value(TruncatedSeries(s, res, p)) else RangeError)
    && (!power ==> (t.mu >= 0 <==> SomeKept(s.CoefficientsU(), Cut(s, res))))
    && (!power ==> (t.mv >= 0 <==> SomeKept(s.CoefficientsV(), Cut(s, res))))
  }

  lemma ScalingIsToUnit(a: real, b: real, sum: real, inv: real, x: real)
    requires a != b && sum == a + b && inv == 1.0 / (b - a)
    ensures (x + x - sum) * inv == ToUnit(a, b, x)
  {
    var d := b - a;
    assert (x + x - sum) * (1.0 / d) == (x + x - sum) / d;
  }

  lemma ScaledIsUnit(t: Tseries, s: Sampler, p: UV)
    requires Compilable(s)
    requires t.a == UV(s.a.u + s.b.u, s.a.v + s.b.v)
    requires t.b == UV(1.0 / (s.b.u - s.a.u), 1.0 / (s.b.v - s.a.v))
    ensures Scaled(p, t) == UnitPoint(s, p)
  {
    hide ToUnit;
    ScalingIsToUnit(s.a.u, s.b.u, t.a.u, t.b.u, p.u);
    ScalingIsToUnit(s.a.v, s.b.v, t.a.v, t.b.v, p.v);
  }

  /** Stored power coefficients mean the truncated series everywhere. */
  lemma PowerFormCompiles(t: Tseries, s: Sampler, res: real, pu: Matrix, pv: Matrix)
    requires Compilable(s) && t.power && WellFormed(t)
    requires pu == ToPower2(Kept(s.CoefficientsU(), Cut(s, res)), s.nv, s.a.u, s.b.u, s.a.v, s.b.v)
    requires pv == ToPower2(Kept(s.CoefficientsV(), Cut(s, res)), s.nv, s.a.u, s.b.u, s.a.v, s.b.v)
    requires Stores(t.cu, pu) && Stores(t.cv, pv)
    ensures Compiles(t, s, res, true)
  {
    var ku, kv := Kept(s.CoefficientsU(), Cut(s, res)), Kept(s.CoefficientsV(), Cut(s, res));
    hide Poly2, Series2, ToPower2, Stores, Cut, Kept, ToUnit;
    forall p ensures Denote(t, p) == Value(TruncatedSeries(s, res, p)) {
      StoredMeans(t.cu, pu, s.nv, p.u, p.v);
      StoredMeans(t.cv, pv, s.nv, p.u, p.v);
      ToPower2Means(ku, s.nv, s.a.u, s.b.u, s.a.v, s.b.v, p.u, p.v);
      ToPower2Means(kv, s.nv, s.a.u, s.b.u, s.a.v, s.b.v, p.u, p.v);
    }
  }

  /** Stored Chebyshev coefficients mean the truncated series on the accepted points. */
  lemma ChebyshevFormCompiles(t: Tseries, s: Sampler, res: real)
    requires Compilable(s) && !t.power && WellFormed(t)
    requires t.a == UV(s.a.u + s.b.u, s.a.v + s.b.v)
    requires t.b == UV(1.0 / (s.b.u - s.a.u), 1.0 / (s.b.v - s.a.v))
    requires Stores(t.cu, Kept(s.CoefficientsU(), Cut(s, res))) && Stores(t.cv, Kept(s.CoefficientsV(), Cut(s, res)))
    requires t.mu >= 0 <==> SomeKept(s.CoefficientsU(), Cut(s, res))
    requires t.mv >= 0 <==> SomeKept(s.CoefficientsV(), Cut(s, res))
    ensures Compiles(t, s, res, false)
  {
    var ku, kv := Kept(s.CoefficientsU(), Cut(s, res)), Kept(s.CoefficientsV(), Cut(s, res));
    hide Scaled, UnitPoint, Series2, Stores, Cut, Kept, Accepted, SomeKept;
    forall p
      ensures Denote(t, p) == if Accepted(UnitPoint(s, p)) then Value(TruncatedSeries(s, res, p)) else RangeError
    {
      ScaledIsUnit(t, s, p);
      var w := UnitPoint(s, p);
      StoredMeans(t.cu, ku, s.nv, w.u, w.v);
      StoredMeans(t.cv, kv, s.nv, w.u, w.v);
    }
  }

  /** Converts the truncated coefficients to powers and stores them. */
  method StorePower(s: Sampler, res: real, g: seq<array<UV>>) returns (t: Tseries)
    requires Compilable(s) && |g| == s.nu && IsGrid(g, s.nv)
    requires GridU(g) == Kept(s.CoefficientsU(), Cut(s, res)) && GridV(g) == Kept(s.CoefficientsV(), Cut(s, res))
    modifies g
    ensures Compiles(t, s, res, true)
  {
    hide Kept, Stores, Lengths, ToPower2, Compiles, Us, Vs, Cut;
    var ok := Bch2bps.Convert(s.a, s.b, g, s.nu, s.nv);
    var ncu, ncv, nru, nrv := Count(g, s.nv);
    var cu := StoreU(g, s.nv, ncu, nru);
    var cv := StoreV(g, s.nv, ncv, nrv);
    t := Tseries(s.a, s.b, nru as int - 1, nrv as int - 1, cu, cv, true);
    PowerFormCompiles(t, s, res, GridU(g), GridV(g));
  }

  /** Stores the truncated coefficients with the argument scaling. */
  method StoreChebyshev(s: Sampler, res: real, g: seq<array<UV>>, ncu: seq<nat>, ncv: seq<nat>, nru: nat, nrv: nat)
    returns (t: Tseries)
    requires Compilable(s) && |g| == s.nu && IsGrid(g, s.nv)
    requires GridU(g) == Kept(s.CoefficientsU(), Cut(s, res)) && GridV(g) == Kept(s.CoefficientsV(), Cut(s, res))
    requires Lengths(GridU(g), ncu, nru) && Lengths(GridV(g), ncv, nrv)
    requires nru > 0 <==> SomeKept(s.CoefficientsU(), Cut(s, res))
    requires nrv > 0 <==> SomeKept(s.CoefficientsV(), Cut(s, res))
    ensures Compiles(t, s, res, false)
  {
    hide Kept, Stores, Lengths, SomeKept, Compiles, Us, Vs, Cut;
    var cu := StoreU(g, s.nv, ncu, nru);
    var cv := StoreV(g, s.nv, ncv, nrv);
    t := Tseries(UV(s.a.u + s.b.u, s.a.v + s.b.v), UV(1.0 / (s.b.u - s.a.u), 1.0 / (s.b.v - s.a.v)),
                 nru - 1, nrv - 1, cu, cv, false);
    ChebyshevFormCompiles(t, s, res);
  }

  /** Compiles the sampled function; None when it has no value at some node.  resid reports the
      truncation loss. */
  method Compile(s: Sampler, res: real, power: bool) returns (t: Option<Tseries>, resid: UV)
    requires s.nu > 0 && s.nv > 0 && s.a.u != s.b.u && s.a.v != s.b.v
    ensures t.Some? <==> s.Defined()
    ensures t.Some? ==> Compiles(t.value, s, res, power)
    ensures t.Some? ==> Reported(s.CoefficientsU(), s.CoefficientsV(), res, resid)
    ensures t.Some? ==> FourTries(s.CoefficientsU(), s.CoefficientsV(), res, Cut(s, res), resid)
  {
    hide FourTries, Kept, Lengths, SomeKept, Compiles, Reported, GridU, GridV, CutOff;
    var rows := Bch2bps.NewGrid(s.nu, s.nv);
    var w := new array<UV>[s.nu](i requires 0 <= i < s.nu => rows[i]);
    assert w[..] == rows;
    resid := ZERO;
    var failed := Generate(s, w);
    if failed {
      return None, resid;
    }
    var g := w[..];
    var cut;
    cut, resid := FindCut(g, res);
    var ncu, ncv, nru, nrv := Truncate(g, s.nv, cut);
    var series;
    if power {
      series := StorePower(s, res, g);
    } else {
      series := StoreChebyshev(s, res, g, ncu, ncv, nru, nrv);
    }
    t := Some(series);
  }

  // ----- What the compiled series promises

  /** The Chebyshev form rejects exactly the points that lie further outside the range than a
      hundred-thousandth of half its width, on either axis. */
  lemma RejectedPoints(t: Tseries, s: Sampler, res: real, p: UV)
    requires Compilable(s) && Compiles(t, s, res, false)
    ensures Denote(t, p) == RangeError <==>
      !(-1.00001 <= (2.0 * p.u - s.a.u - s.b.u) / (s.b.u - s.a.u) <= 1.00001
        && -1.00001 <= (2.0 * p.v - s.a.v - s.b.v) / (s.b.v - s.a.v) <= 1.00001)
  {
    hide Denote, TruncatedSeries, SomeKept;
  }

  /** The Chebyshev evaluator may be run exactly if some coefficient of each component reached the
      cut-off; with none it would read a row that is not stored.  Power mode may always be run. */
  lemma EvaluableIff(t: Tseries, s: Sampler, res: real, power: bool)
    requires Compilable(s) && Compiles(t, s, res, power)
    ensures Evaluable(t) <==>
      power || (SomeKept(s.CoefficientsU(), Cut(s, res)) && SomeKept(s.CoefficientsV(), Cut(s, res)))
  {
    hide Cut, SomeKept, Denote;
  }

  predicate Zeros(v: Vector) {
    forall i | 0 <= i < |v| :: v[i] == 0.0
  }

  predicate ZeroRows(m: Matrix) {
    forall i | 0 <= i < |m| :: Zeros(m[i])
  }

  lemma CoefficientOfZeros(cos: real -> real, pi: real, v: Vector, i: nat)
    requires |v| > 0 && Zeros(v)
    ensures Coefficient(cos, pi, v, i) == 0.0
  {
    DotSymmetric(v, Table(cos, pi, |v|, i), |v|);
    DotZero(Table(cos, pi, |v|, i), v, |v|);
    hide Dot, TwoOver;
    ZeroTimes(TwoOver(|v|));
  }

  lemma ZeroTimes(x: real)
    ensures Times(0.0, x) == 0.0
  {
  }

  lemma TransformOfZeros(cos: real -> real, pi: real, m: Matrix, cols: nat)
    requires |m| > 0 && cols > 0 && IsMatrix(m, |m|, cols) && ZeroRows(m)
    ensures ZeroRows(TransformRows(cos, pi, TransformColumns(cos, pi, m, cols), cols))
  {
    hide Coefficient;
    var d := TransformColumns(cos, pi, m, cols);
    forall i, j | 0 <= i < |m| && 0 <= j < cols ensures d[i][j] == 0.0 {
      CoefficientOfZeros(cos, pi, Column(m, j), i);
    }
    forall i, j | 0 <= i < |m| && 0 <= j < cols ensures TransformRows(cos, pi, d, cols)[i][j] == 0.0 {
      CoefficientOfZeros(cos, pi, d[i], j);
    }
  }

  lemma NothingKept(m: Matrix, cut: real)
    requires cut > 0.0 && ZeroRows(m)
    ensures !SomeKept(m, cut)
  {
  }

  /** A function whose second component is zero at every node compiles to a series that Chebyshev mode
      cannot run, whatever positive residual is asked for. */
  lemma ZeroComponent(t: Tseries, s: Sampler, res: real)
    requires Compilable(s) && Compiles(t, s, res, false) && res > 0.0
    requires forall i, j | 0 <= i < s.nu && 0 <= j < s.nv :: s.At(i, j).value.v == 0.0
    ensures t.mv == -1 && !Evaluable(t)
  {
    assert ZeroRows(s.MatrixV());
    TransformOfZeros(s.cos, s.pi, s.MatrixV(), s.nv);
    SearchSign(s.CoefficientsU(), s.CoefficientsV(), res, res, 4);
    NothingKept(s.CoefficientsV(), Cut(s, res));
    hide SomeKept, Denote, CutOff, Search, TransformRows, TransformColumns;
  }

  /** Both modes give the same value wherever Chebyshev mode gives one. */
  lemma ModesAgree(t: Tseries, t': Tseries, s: Sampler, res: real, p: UV)
    requires Compilable(s) && Compiles(t, s, res, true) && Compiles(t', s, res, false) && Evaluable(t')
    ensures Denote(t', p) == if Accepted(UnitPoint(s, p)) then Denote(t, p) else RangeError
  {
  }

  /** The reported residual bounds the distance to the full series over the whole range. */
  lemma ResidualBounds(t: Tseries, s: Sampler, res: real, power: bool, resid: UV, p: UV)
    requires Compilable(s) && Compiles(t, s, res, power) && Evaluable(t)
    requires Reported(s.CoefficientsU(), s.CoefficientsV(), res, resid)
    requires -1.0 <= UnitPoint(s, p).u <= 1.0 && -1.0 <= UnitPoint(s, p).v <= 1.0
    ensures Denote(t, p).Value?
    ensures Abs(FullSeries(s, p).u - Denote(t, p).at.u) <= Abs(resid.u)
    ensures Abs(FullSeries(s, p).v - Denote(t, p).at.v) <= Abs(resid.v)
  {
    var w := UnitPoint(s, p);
    assert Accepted(w);
    assert Denote(t, p) == Value(TruncatedSeries(s, res, p));
    hide Series2, Loss, Kept, Reported, Denote, Compiles, UnitPoint;
    ReportedBounds(s.CoefficientsU(), s.CoefficientsV(), res, resid);
    LossBounds(s.CoefficientsU(), s.nv, Cut(s, res), w.u, w.v);
    LossBounds(s.CoefficientsV(), s.nv, Cut(s, res), w.u, w.v);
  }

  lemma UnitOfSample(cos: real -> real, pi: real, a: real, b: real, n: nat, k: nat)
    requires n > 0 && a != b
    ensures ToUnit(a, b, SampleAt(cos, pi, a, b, n, k)) == Node(cos, pi, n, k)
  {
    var c := Node(cos, pi, n, k);
    var d := b - a;
    var x := SampleAt(cos, pi, a, b, n, k);
    assert x == c * (0.5 * d) + 0.5 * (b + a);
    assert 2.0 * x - a - b == c * d;
    assert (c * d) / d == c;
  }

  /** At every sample point the compiled series gives the value of the function up to the residual. */
  lemma SamplesReproduced(t: Tseries, s: Sampler, res: real, power: bool, resid: UV, i: nat, j: nat, p: UV)
    requires Compilable(s) && Compiles(t, s, res, power) && Evaluable(t) && CosineLaws(s.cos, s.pi)
    requires Reported(s.CoefficientsU(), s.CoefficientsV(), res, resid)
    requires i < s.nu && j < s.nv
    requires p == UV(SampleAt(s.cos, s.pi, s.a.u, s.b.u, s.nu, i), SampleAt(s.cos, s.pi, s.a.v, s.b.v, s.nv, j))
    ensures s.func(p).Some? && Denote(t, p).Value?
    ensures Abs(s.func(p).value.u - Denote(t, p).at.u) <= Abs(resid.u)
    ensures Abs(s.func(p).value.v - Denote(t, p).at.v) <= Abs(resid.v)
  {
    assert s.At(i, j) == s.func(p);
    UnitOfSample(s.cos, s.pi, s.a.u, s.b.u, s.nu, i);
    UnitOfSample(s.cos, s.pi, s.a.v, s.b.v, s.nv, j);
    GeneratedInterpolates(s.cos, s.pi, s.MatrixU(), s.nu, s.nv, i, j);
    GeneratedInterpolates(s.cos, s.pi, s.MatrixV(), s.nu, s.nv, i, j);
    hide Series2, Compiles, Reported, TransformRows, TransformColumns, ToUnit, SampleAt;
    ResidualBounds(t, s, res, power, resid, p);
  }
}
