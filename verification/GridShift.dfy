/** Grid shifts: interpolation in a table, the forward shift and its iterated inverse, and the choice
    of the table for each point of strided coordinate arrays. */
module GridShift {
  import opened Bilinear
  import opened GridTables
  import opened Options
  import opened Points
  import opened Reals

  const SPI: real := 3.14159265359
  const EDGE: real := 0.00000000001
  const TOL: real := 0.000000000001
  const MAX_TRY: nat := 9

  predicate Sound(ct: CTable) {
    && ct.limLam >= 2 && ct.limPhi >= 2 && |ct.cvs| == ct.limLam * ct.limPhi
    && ct.del.lam != 0.0 && ct.del.phi != 0.0
  }

  // ----- Interpolation

  lemma CellInside(lim: nat, rows: nat, i: nat, j: nat)
    requires i < lim && j < rows
    ensures j * lim + i < lim * rows
  {
    var left := rows - 1 - j;
    assert left * lim >= 0;
    assert lim * rows == left * lim + j * lim + lim;
  }

  function Cell(ct: CTable, i: nat, j: nat): (k: nat)
    requires Sound(ct) && i < ct.limLam && j < ct.limPhi
    ensures k < |ct.cvs| && k == j * ct.limLam + i
  {
    CellInside(ct.limLam, ct.limPhi, i, j);
    j * ct.limLam + i
  }

  function Rows(ct: CTable, lam: bool): (m: seq<seq<real>>)
    requires Sound(ct)
    ensures |m| == ct.limPhi && forall j | 0 <= j < |m| :: |m[j]| == ct.limLam
    ensures forall i: nat, j: nat | i < ct.limLam && j < ct.limPhi ::
      m[j][i] == if lam then ct.cvs[Cell(ct, i, j)].lam else ct.cvs[Cell(ct, i, j)].phi
  {
    seq(ct.limPhi, j requires 0 <= j < ct.limPhi =>
      seq(ct.limLam, i requires 0 <= i < ct.limLam =>
        if lam then ct.cvs[Cell(ct, i, j)].lam else ct.cvs[Cell(ct, i, j)].phi))
  }

  /** A position in cells counts as on the grid even if it lies a little outside. */
  predicate Reached(n: int, x: real) {
    -EDGE < x < (n - 1) as real + EDGE
  }

  function Clamp(n: int, x: real): (r: real)
    requires n >= 2
    ensures On(n, r)
  {
    if x < 0.0 then 0.0 else if x > (n - 1) as real then (n - 1) as real else x
  }

  predicate OnGrid(ct: CTable, t: LP)
    requires Sound(ct)
  {
    Reached(ct.limLam, t.lam / ct.del.lam) && Reached(ct.limPhi, t.phi / ct.del.phi)
  }

  /** The shift at a position relative to the lower left corner: the bilinear surface through the
      stored shifts, at the nearest position on the grid; none off the grid. */
  function Shift(ct: CTable, t: LP): Option<LP>
    requires Sound(ct)
  {
    if !OnGrid(ct, t) then None
    else
      var x, y := Clamp(ct.limLam, t.lam / ct.del.lam), Clamp(ct.limPhi, t.phi / ct.del.phi);
      Some(LP(Surface(Rows(ct, true), ct.limLam, x, y), Surface(Rows(ct, false), ct.limLam, x, y)))
  }

  /** Moves a position that is only just outside into the first or last cell; none further out. */
  method Settle(lim: int, x: real) returns (ok: bool, indx: int, frct: real)
    requires lim >= 2
    ensures ok <==> Reached(lim, x)
    ensures ok ==> 0 <= indx < lim - 1 && 0.0 <= frct <= 1.0 && frct == Clamp(lim, x) - indx as real
  {
    indx := x.Floor;
    frct := x - indx as real;
    ok := false;
    if indx < 0 {
      if indx == -1 && frct > 0.99999999999 {
        indx := indx + 1;
        frct := 0.0;
      } else {
        return;
      }
    } else {
      var next := indx + 1;
      if next >= lim {
        if next == lim && frct < 0.00000000001 {
          indx := indx - 1;
          frct := 1.0;
        } else {
          return;
        }
      }
    }
    ok := true;
  }

  /** Weighted sum of the four corner values, with the weights as the code forms them. */
  function Weighted(f00: real, f10: real, f01: real, f11: real, x: real, y: real): real {
    (1.0 - x) * (1.0 - y) * f00 + x * (1.0 - y) * f10 + (1.0 - x) * y * f01 + x * y * f11
  }

  lemma WeightedIsMix(f00: real, f10: real, f01: real, f11: real, x: real, y: real)
    ensures Weighted(f00, f10, f01, f11, x, y) == Mix(Mix(f00, f10, x), Mix(f01, f11, x), y)
  {
    var a, b := 1.0 - x, 1.0 - y;
    Spread(b, a, x, f00, f10);
    Spread(y, a, x, f01, f11);
  }

  lemma Spread(b: real, a: real, x: real, u: real, v: real)
    ensures b * (a * u + x * v) == a * b * u + x * b * v
  {
  }

  /** Interpolates the shift; all four reads stay inside the table. */
  method NadIntr(t: LP, ct: CTable) returns (val: Option<LP>)
    requires Sound(ct)
    ensures val == Shift(ct, t)
  {
    hide Weighted, Mix, Surface;
    var lam, phi := t.lam / ct.del.lam, t.phi / ct.del.phi;
    var ok, i, x := Settle(ct.limLam, lam);
    if !ok {
      return None;
    }
    var ok', j, y := Settle(ct.limPhi, phi);
    if !ok' {
      return None;
    }
    ghost var at := (Cell(ct, i, j), Cell(ct, i + 1, j), Cell(ct, i, j + 1), Cell(ct, i + 1, j + 1));
    var index := j * ct.limLam + i;
    assert (j + 1) * ct.limLam == j * ct.limLam + ct.limLam;
    var f00 := ct.cvs[index];
    index := index + 1;
    var f10 := ct.cvs[index];
    index := index + ct.limLam;
    var f11 := ct.cvs[index];
    index := index - 1;
    var f01 := ct.cvs[index];
    val := Some(LP(Weighted(f00.lam, f10.lam, f01.lam, f11.lam, x, y),
                   Weighted(f00.phi, f10.phi, f01.phi, f11.phi, x, y)));
    WeightedIsMix(f00.lam, f10.lam, f01.lam, f11.lam, x, y);
    WeightedIsMix(f00.phi, f10.phi, f01.phi, f11.phi, x, y);
    SurfaceInCell(Rows(ct, true), ct.limLam, i, j, Clamp(ct.limLam, lam), Clamp(ct.limPhi, phi));
    SurfaceInCell(Rows(ct, false), ct.limLam, i, j, Clamp(ct.limLam, lam), Clamp(ct.limPhi, phi));
  }

  /** At a node the shift is the stored one. */
  lemma ShiftAtNode(ct: CTable, t: LP, i: nat, j: nat)
    requires Sound(ct) && i < ct.limLam && j < ct.limPhi
    requires t.lam / ct.del.lam == i as real && t.phi / ct.del.phi == j as real
    ensures Shift(ct, t) == Some(ct.cvs[Cell(ct, i, j)])
  {
    hide Surface;
    SurfaceAtNode(Rows(ct, true), ct.limLam, i, j);
    SurfaceAtNode(Rows(ct, false), ct.limLam, i, j);
  }

  /** The grid reaches from the first to the last node of each axis, and a little further. */
  lemma GridReach(ct: CTable, t: LP)
    requires Sound(ct)
    ensures Shift(ct, t).Some? <==>
      -0.00000000001 < t.lam / ct.del.lam < (ct.limLam - 1) as real + 0.00000000001
      && -0.00000000001 < t.phi / ct.del.phi < (ct.limPhi - 1) as real + 0.00000000001
  {
    hide Surface;
  }

  /** Position t, moved onto the grid, lies in the cell with lower left node (i, j). */
  predicate InCellAt(ct: CTable, t: LP, i: nat, j: nat)
    requires Sound(ct)
  {
    && i + 1 < ct.limLam && i as real <= Clamp(ct.limLam, t.lam / ct.del.lam) <= (i + 1) as real
    && j + 1 < ct.limPhi && j as real <= Clamp(ct.limPhi, t.phi / ct.del.phi) <= (j + 1) as real
  }

  predicate CornersWithin(ct: CTable, i: nat, j: nat, lo: LP, hi: LP)
    requires Sound(ct) && i + 1 < ct.limLam && j + 1 < ct.limPhi
  {
    forall p, q | p in {i, i + 1} && q in {j, j + 1} ::
      lo.lam <= ct.cvs[Cell(ct, p, q)].lam <= hi.lam && lo.phi <= ct.cvs[Cell(ct, p, q)].phi <= hi.phi
  }

  /** In any cell that contains the position, on an edge also in the neighbouring one, the shift is
      between the shifts at the corners. */
  lemma ShiftBetweenCorners(ct: CTable, t: LP, i: nat, j: nat, lo: LP, hi: LP)
    requires Sound(ct) && InCellAt(ct, t, i, j) && CornersWithin(ct, i, j, lo, hi) && Shift(ct, t).Some?
    ensures lo.lam <= Shift(ct, t).value.lam <= hi.lam && lo.phi <= Shift(ct, t).value.phi <= hi.phi
  {
    var x, y := Clamp(ct.limLam, t.lam / ct.del.lam), Clamp(ct.limPhi, t.phi / ct.del.phi);
    SurfaceBetweenCorners(Rows(ct, true), ct.limLam, i, j, x, y, lo.lam, hi.lam);
    SurfaceBetweenCorners(Rows(ct, false), ct.limLam, i, j, x, y, lo.phi, hi.phi);
  }

  lemma SurfaceBetweenCorners(m: seq<seq<real>>, width: nat, i: nat, j: nat, x: real, y: real, lo: real, hi: real)
    requires i + 1 < width && j + 1 < |m| && OnRows(m, width, x) && On(|m|, y)
    requires i as real <= x <= (i + 1) as real && j as real <= y <= (j + 1) as real
    requires lo <= m[j][i] <= hi && lo <= m[j][i+1] <= hi && lo <= m[j+1][i] <= hi && lo <= m[j+1][i+1] <= hi
    ensures lo <= Surface(m, width, x, y) <= hi
  {
    hide Mix, Surface;
    SurfaceInCell(m, width, i, j, x, y);
    var f, g := x - i as real, y - j as real;
    MixBetween(m[j][i], m[j][i+1], f, lo, hi);
    MixBetween(m[j+1][i], m[j+1][i+1], f, lo, hi);
    MixBetween(Mix(m[j][i], m[j][i+1], f), Mix(m[j+1][i], m[j+1][i+1], f), g, lo, hi);
  }

  // ----- How much the shift can vary

  /** Neighbouring nodes of a row differ by at most a per unit of longitude, neighbouring rows by at
      most b per unit of latitude. */
  ghost predicate Gentle(ct: CTable, a: real, b: real)
    requires Sound(ct)
  {
    && a >= 0.0 && b >= 0.0
    && forall lam :: RowStepsWithin(Rows(ct, lam), Times(a, Abs(ct.del.lam)))
                     && RowsApart(Rows(ct, lam), ct.limLam, Times(b, Abs(ct.del.phi)))
  }

  lemma ClampCloser(n: int, x: real, y: real)
    requires n >= 2
    ensures Abs(Clamp(n, x) - Clamp(n, y)) <= Abs(x - y)
  {
  }

  lemma QuotientApart(x: real, y: real, d: real, a: real, e: real)
    requires d != 0.0 && a >= 0.0 && 0.0 <= e <= Abs(x / d - y / d)
    ensures Times(Times(a, Abs(d)), e) <= Times(a, Abs(x - y))
  {
    hide Times, Abs;
    QuotientsApart(x, y, d);
    TimesGrows(Abs(d), e, Abs(x / d - y / d));
    TimesGrows(a, Times(Abs(d), e), Times(Abs(d), Abs(x / d - y / d)));
    TimesRegroup(a, Abs(d), e);
  }

  lemma QuotientsApart(x: real, y: real, d: real)
    requires d != 0.0
    ensures Times(Abs(d), Abs(x / d - y / d)) == Abs(x - y) && Abs(d) >= 0.0
  {
    var p, q := x / d, y / d;
    Unscaled(x, d);
    Unscaled(y, d);
    Distribute(p, q, d);
    AbsTimes(d, p - q);
  }

  lemma Unscaled(x: real, d: real)
    requires d != 0.0
    ensures x / d * d == x
  {
  }

  lemma Distribute(a: real, b: real, d: real)
    ensures d * (a - b) == a * d - b * d
  {
  }

  lemma TimesRegroup(a: real, b: real, c: real)
    ensures Times(a, Times(b, c)) == Times(Times(a, b), c)
  {
  }

  /** The shift varies no faster than the stored shifts of neighbouring nodes do. */
  lemma ShiftLipschitz(ct: CTable, p: LP, q: LP, a: real, b: real)
    requires Sound(ct) && Gentle(ct, a, b) && Shift(ct, p).Some? && Shift(ct, q).Some?
    ensures Abs(Shift(ct, p).value.lam - Shift(ct, q).value.lam)
         <= Times(a, Abs(p.lam - q.lam)) + Times(b, Abs(p.phi - q.phi))
    ensures Abs(Shift(ct, p).value.phi - Shift(ct, q).value.phi)
         <= Times(a, Abs(p.lam - q.lam)) + Times(b, Abs(p.phi - q.phi))
  {
    hide Surface, Times, RowStepsWithin, RowsApart, Clamp, Abs;
    var da, db := Times(a, Abs(ct.del.lam)), Times(b, Abs(ct.del.phi));
    var px, qx, py, qy := p.lam / ct.del.lam, q.lam / ct.del.lam, p.phi / ct.del.phi, q.phi / ct.del.phi;
    var x, y := Clamp(ct.limLam, px), Clamp(ct.limPhi, py);
    var u, v := Clamp(ct.limLam, qx), Clamp(ct.limPhi, qy);
    SurfaceLipschitz(Rows(ct, true), ct.limLam, x, y, u, v, da, db);
    SurfaceLipschitz(Rows(ct, false), ct.limLam, x, y, u, v, da, db);
    ClampCloser(ct.limLam, px, qx);
    ClampCloser(ct.limPhi, py, qy);
    AbsNonnegative(x - u);
    AbsNonnegative(y - v);
    QuotientApart(p.lam, q.lam, ct.del.lam, a, Abs(x - u));
    QuotientApart(p.phi, q.phi, ct.del.phi, b, Abs(y - v));
  }

  lemma AbsNonnegative(x: real)
    ensures Abs(x) >= 0.0
  {
  }

  // ----- Angles

  /** How many whole turns the reduction takes away. */
  function Turns(lon: real): int {
    if Abs(lon) <= SPI then 0 else ((lon + PI) / TWOPI).Floor
  }

  function AdjLon(lon: real): (r: real)
    ensures Abs(r) <= SPI && r == lon - TWOPI * Turns(lon) as real
  {
    if Abs(lon) <= SPI then lon
    else
      var turned := lon + PI;
      var whole := (turned / TWOPI).Floor as real;
      assert whole <= turned / TWOPI < whole + 1.0;
      turned - TWOPI * whole - PI
  }

  /** Angles up to a little more than half a turn are left alone. */
  lemma AdjLonKeeps(lon: real)
    ensures Abs(AdjLon(lon)) <= 3.14159265359
    ensures Abs(lon) <= 3.14159265359 ==> AdjLon(lon) == lon
  {
  }

  // ----- The inverse shift

  /** Next guess for the position that is shifted to tb, from the shift at the last guess. */
  function Improve(tb: LP, shift: LP): LP {
    LP(tb.lam + shift.lam, tb.phi - shift.phi)
  }

  /** The guesses, as far as the grid goes: the target itself, then always the improved one. */
  function Guess(ct: CTable, tb: LP, k: nat): Option<LP>
    requires Sound(ct)
  {
    if k == 0 then Some(tb)
    else
      match Guess(ct, tb, k - 1)
      case None => None
      case Some(t) =>
        match Shift(ct, t)
        case None => None
        case Some(s) => Some(Improve(tb, s))
  }

  /** Whether the loop is satisfied with a step: one of the two axes is enough. */
  predicate Small(p: LP, q: LP) {
    Abs(p.lam - q.lam) <= TOL || Abs(p.phi - q.phi) <= TOL
  }

  /** What the loop makes of guess r: it takes the guess if it lies off the grid, the next guess if
      the step there is small, and gives up after ten rounds even if the tenth step is small. */
  function Solve(ct: CTable, tb: LP, r: nat): Option<LP>
    requires Sound(ct) && 1 <= r <= MAX_TRY + 1 && Guess(ct, tb, r).Some?
    decreases MAX_TRY + 1 - r
  {
    var t, next := Guess(ct, tb, r).value, Guess(ct, tb, r + 1);
    if next.None? then Some(t)
    else if r == MAX_TRY + 1 then None
    else if Small(t, next.value) then next
    else Solve(ct, tb, r + 1)
  }

  function Normalized(ct: CTable, p: LP): LP {
    LP(AdjLon(p.lam - ct.ll.lam - PI) + PI, p.phi - ct.ll.phi)
  }

  /** The shifted position; None stands for HUGE_VAL. */
  function Convert(ct: CTable, inverse: bool, p: LP): Option<LP>
    requires Sound(ct)
  {
    var tb := Normalized(ct, p);
    if Shift(ct, tb).None? then None
    else if inverse then
      match Solve(ct, tb, 1)
      case None => None
      case Some(t) => Some(LP(AdjLon(t.lam + ct.ll.lam), t.phi + ct.ll.phi))
    else
      var s := Shift(ct, tb).value; Some(LP(p.lam - s.lam, p.phi + s.phi))
  }

  /** What the inverse returns is normalized. */
  lemma AnswerNormalized(ct: CTable, p: LP)
    requires Sound(ct) && Convert(ct, true, p).Some?
    ensures Abs(Convert(ct, true, p).value.lam) <= 3.14159265359
  {
    hide Solve, Shift;
  }

  lemma SolveUnfolds(ct: CTable, tb: LP, r: nat, t: LP)
    requires Sound(ct) && 1 <= r <= MAX_TRY + 1 && Guess(ct, tb, r) == Some(t)
    ensures Shift(ct, t).None? ==> Solve(ct, tb, r) == Some(t)
    ensures Shift(ct, t).Some? ==>
      var next := Improve(tb, Shift(ct, t).value);
      Guess(ct, tb, r + 1) == Some(next) && Solve(ct, tb, r) ==
        if r == MAX_TRY + 1 then None else if Small(t, next) then Some(next) else Solve(ct, tb, r + 1)
  {
    hide Shift, Improve, Small;
  }

  lemma FirstGuessIs(ct: CTable, tb: LP)
    requires Sound(ct) && Shift(ct, tb).Some?
    ensures Guess(ct, tb, 1) == Some(Improve(tb, Shift(ct, tb).value))
  {
    hide Shift, Improve;
    assert Guess(ct, tb, 0) == Some(tb);
  }

  method NadCvt(p: Option<LP>, inverse: bool, ct: CTable) returns (r: Option<LP>)
    requires Sound(ct)
    ensures r == if p.None? then None else Convert(ct, inverse, p.value)
  {
    hide Shift, Guess, Solve, AdjLon;
    if p.None? {
      return p;
    }
    var lp := p.value;
    var tb := LP(lp.lam - ct.ll.lam, lp.phi - ct.ll.phi);
    tb := tb.(lam := AdjLon(tb.lam - PI) + PI);
    var first := NadIntr(tb, ct);
    if inverse {
      if first.None? {
        return first;
      }
      var t := LP(tb.lam + first.value.lam, tb.phi - first.value.phi);
      var i: int := MAX_TRY;
      ghost var round := 1;
      FirstGuessIs(ct, tb);
      var more := true;
      while more
        invariant more ==> 1 <= round <= MAX_TRY + 1 && i == MAX_TRY + 1 - round && Guess(ct, tb, round) == Some(t)
        invariant more ==> Solve(ct, tb, 1) == Solve(ct, tb, round)
        invariant !more ==> Solve(ct, tb, 1) == if i < 0 then None else Some(t)
        decreases more, i
      {
        SolveUnfolds(ct, tb, round, t);
        var del := NadIntr(t, ct);
        if del.None? {
          more := false;
        } else {
          var dif := LP(t.lam - del.value.lam - tb.lam, t.phi + del.value.phi - tb.phi);
          t := LP(t.lam - dif.lam, t.phi - dif.phi);
          more := i != 0;
          i := i - 1;
          more := more && Abs(dif.lam) > TOL && Abs(dif.phi) > TOL;
          round := round + 1;
        }
      }
      if i < 0 {
        return None;
      }
      r := Some(LP(AdjLon(t.lam + ct.ll.lam), t.phi + ct.ll.phi));
    } else {
      if first.None? {
        return first;
      }
      r := Some(LP(lp.lam - first.value.lam, lp.phi + first.value.phi));
    }
  }

  lemma NodeQuotient(n: nat, d: real)
    requires d != 0.0
    ensures n as real * d / d == n as real
  {
  }

  /** A node in column i and row j, whose cell is the one at j times the columns plus i, is moved by its
      stored shift: against it in longitude, with it in latitude. */
  lemma ConvertAtNode(ct: CTable, p: LP, i: nat, j: nat)
    requires Sound(ct) && i < ct.limLam && j < ct.limPhi
    requires p == LP(ct.ll.lam + i as real * ct.del.lam, ct.ll.phi + j as real * ct.del.phi)
    requires Abs(p.lam - ct.ll.lam - PI) <= 3.14159265359
    ensures j * ct.limLam + i < |ct.cvs|
    ensures Convert(ct, false, p) ==
      Some(LP(p.lam - ct.cvs[j*ct.limLam+i].lam, p.phi + ct.cvs[j*ct.limLam+i].phi))
  {
    hide Shift, Convert, Abs;
    NodeQuotient(i, ct.del.lam);
    NodeQuotient(j, ct.del.phi);
    ConvertAt(ct, p, LP(i as real * ct.del.lam, j as real * ct.del.phi), i, j);
  }

  lemma ConvertAt(ct: CTable, p: LP, t: LP, i: nat, j: nat)
    requires Sound(ct) && i < ct.limLam && j < ct.limPhi
    requires p == LP(ct.ll.lam + t.lam, ct.ll.phi + t.phi) && Abs(p.lam - ct.ll.lam - PI) <= 3.14159265359
    requires t.lam / ct.del.lam == i as real && t.phi / ct.del.phi == j as real
    ensures j * ct.limLam + i < |ct.cvs|
    ensures Convert(ct, false, p) ==
      Some(LP(p.lam - ct.cvs[j*ct.limLam+i].lam, p.phi + ct.cvs[j*ct.limLam+i].phi))
  {
    hide Shift, AdjLon;
    AdjLonKeeps(p.lam - ct.ll.lam - PI);
    assert Normalized(ct, p) == t;
    ghost var k := Cell(ct, i, j);
    ShiftAtNode(ct, t, i, j);
  }
}
