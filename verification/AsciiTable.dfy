/** The ASCII form of a shift table: row numbers, first values and differences. */
module AsciiTable {
  import opened GridTables
  import opened Options

  const U_SEC_TO_RAD: real := 0.000000000004848136811095359935899141023

  /** A shift in millionths of a second. */
  datatype Raw = Raw(lam: int, phi: int)

  function Cell(v: Raw): LP {
    LP(v.lam as real * U_SEC_TO_RAD, v.phi as real * U_SEC_TO_RAD)
  }

  function Cells(vs: seq<Raw>): (r: seq<LP>)
    ensures |r| == |vs|
  {
    seq(|vs|, i requires 0 <= i < |vs| => Cell(vs[i]))
  }

  /** The differences of neighbouring values, as pairs of numbers; last is the value before vs. */
  function Differences(last: Raw, vs: seq<Raw>): (r: seq<int>)
    ensures |r| == 2 * |vs|
    decreases |vs|
  {
    if |vs| == 0 then [] else [vs[0].lam - last.lam, vs[0].phi - last.phi] + Differences(vs[0], vs[1..])
  }

  /** The numbers of one row. */
  function RowNumbers(row: int, vs: seq<Raw>): (r: seq<int>)
    requires |vs| > 0
    ensures |r| == 2 * |vs| + 1
  {
    [row, vs[0].lam, vs[0].phi] + Differences(vs[0], vs[1..])
  }

  predicate IsTable(rows: seq<seq<Raw>>, lim: nat) {
    lim > 0 && forall i | 0 <= i < |rows| :: |rows[i]| == lim
  }

  /** The numbers of a file with these rows, the first one numbered first. */
  function Numbers(rows: seq<seq<Raw>>, lim: nat, first: int): seq<int>
    requires IsTable(rows, lim)
  {
    if |rows| == 0 then [] else RowNumbers(first, rows[0]) + Numbers(rows[1..], lim, first + 1)
  }

  /** All cells, row by row. */
  function AllCells(rows: seq<seq<Raw>>): seq<LP> {
    if |rows| == 0 then [] else Cells(rows[0]) + AllCells(rows[1..])
  }

  /** The values of running sums over pairs of numbers. */
  function Sums(last: Raw, numbers: seq<int>, n: nat): (r: seq<Raw>)
    requires 2 * n <= |numbers|
    ensures |r| == n
    decreases n
  {
    if n == 0 then []
    else
      var v := Raw(last.lam + numbers[0], last.phi + numbers[1]);
      [v] + Sums(v, numbers[2..], n - 1)
  }

  /** The rows that the numbers stand for: none if there are too few of them or if a row has the wrong
      number. */
  function Rows(numbers: seq<int>, lim: nat, first: int, n: nat): Option<seq<seq<Raw>>>
    requires lim > 0
    decreases n
  {
    if n == 0 then Some([])
    else if |numbers| < 2 * lim + 1 || numbers[0] != first then None
    else
      var start := Raw(numbers[1], numbers[2]);
      match Rows(numbers[2*lim+1..], lim, first + 1, n - 1)
      case None => None
      case Some(rest) => Some([[start] + Sums(start, numbers[3..2*lim+1], lim - 1)] + rest)
  }

  lemma {:induction false} SumsOfDifferences(last: Raw, vs: seq<Raw>)
    ensures Sums(last, Differences(last, vs), |vs|) == vs
    decreases |vs|
  {
    if |vs| > 0 {
      var d := Differences(last, vs);
      assert d[2..] == Differences(vs[0], vs[1..]);
      SumsOfDifferences(vs[0], vs[1..]);
    }
  }

  /** Every table survives being written as row numbers, first values and differences. */
  lemma {:induction false} RowsOfNumbers(rows: seq<seq<Raw>>, lim: nat, first: int, more: seq<int>)
    requires IsTable(rows, lim)
    ensures Rows(Numbers(rows, lim, first) + more, lim, first, |rows|) == Some(rows)
  {
    if |rows| > 0 {
      var vs, rest := rows[0], Numbers(rows[1..], lim, first + 1) + more;
      var all := Numbers(rows, lim, first) + more;
      assert all == RowNumbers(first, vs) + rest;
      assert all[2*lim+1..] == rest;
      assert all[3..2*lim+1] == Differences(vs[0], vs[1..]);
      SumsOfDifferences(vs[0], vs[1..]);
      RowsOfNumbers(rows[1..], lim, first + 1, more);
      assert [vs[0]] + vs[1..] == vs;
      assert [rows[0]] + rows[1..] == rows;
    }
  }

  /** The cells that the numbers stand for. */
  function Table(numbers: seq<int>, lim: nat, first: int, n: nat): Option<seq<LP>>
    requires lim > 0
  {
    match Rows(numbers, lim, first, n)
    case None => None
    case Some(rows) => Some(AllCells(rows))
  }

  lemma {:induction false} CellCount(rows: seq<seq<Raw>>, lim: nat)
    requires IsTable(rows, lim)
    ensures |AllCells(rows)| == |rows| * lim
  {
    hide Cells;
    if |rows| > 0 {
      CellCount(rows[1..], lim);
      assert |rows| * lim == (|rows| - 1) * lim + lim;
    }
  }

  /** Cell j of row i. */
  lemma {:induction false} CellsInOrder(rows: seq<seq<Raw>>, lim: nat, i: nat, j: nat, at: nat)
    requires IsTable(rows, lim) && i < |rows| && j < lim && at == i * lim + j
    ensures at < |AllCells(rows)| && AllCells(rows)[at] == Cell(rows[i][j])
  {
    hide Cell;
    if i == 0 {
      assert at == j;
    } else {
      assert i * lim == (i - 1) * lim + lim;
      CellsInOrder(rows[1..], lim, i - 1, j, at - lim);
      assert rows[i] == rows[1..][i-1];
    }
  }

  /** What is loaded from the numbers of a table: cell j of row i has its values, longitude first, in
      radians. */
  lemma TableOfNumbers(rows: seq<seq<Raw>>, lim: nat, more: seq<int>, i: nat, j: nat)
    requires IsTable(rows, lim) && i < |rows| && j < lim
    ensures var t := Table(Numbers(rows, lim, 0) + more, lim, 0, |rows|);
            && t.Some? && i * lim + j < |rows| * lim == |t.value|
            && t.value[i*lim+j].lam == rows[i][j].lam as real * 0.000000000004848136811095359935899141023
            && t.value[i*lim+j].phi == rows[i][j].phi as real * 0.000000000004848136811095359935899141023
  {
    hide Numbers, Rows, AllCells;
    RowsOfNumbers(rows, lim, 0, more);
    CellCount(rows, lim);
    CellsInOrder(rows, lim, i, j, i * lim + j);
  }

  function Behind(done: seq<LP>, rest: Option<seq<LP>>): Option<seq<LP>> {
    if rest.None? then None else Some(done + rest.value)
  }

  /** The first row and the table behind it. */
  lemma TableStep(numbers: seq<int>, lim: nat, first: int, n: nat)
    requires lim > 0 && n > 0
    ensures Table(numbers, lim, first, n) ==
      if |numbers| < 2 * lim + 1 || numbers[0] != first then None
      else Behind(Cells([Raw(numbers[1], numbers[2])]
                        + Sums(Raw(numbers[1], numbers[2]), numbers[3..2*lim+1], lim - 1)),
                  Table(numbers[2*lim+1..], lim, first + 1, n - 1))
  {
    hide Sums, Cells;
    if |numbers| >= 2 * lim + 1 && numbers[0] == first {
      var row := [Raw(numbers[1], numbers[2])] + Sums(Raw(numbers[1], numbers[2]), numbers[3..2*lim+1], lim - 1);
      var rest := Rows(numbers[2*lim+1..], lim, first + 1, n - 1);
      if rest.Some? {
        assert ([row] + rest.value)[1..] == rest.value;
      }
    }
  }

  lemma BehindBehind(a: seq<LP>, b: seq<LP>, rest: Option<seq<LP>>)
    ensures Behind(a, Behind(b, rest)) == Behind(a + b, rest)
  {
    if rest.Some? { assert a + b + rest.value == a + (b + rest.value); }
  }

  lemma NothingBefore(rest: Option<seq<LP>>)
    ensures Behind([], rest) == rest
  {
    if rest.Some? { assert [] + rest.value == rest.value; }
  }

  /** Turns the numbers of one row into cells by running sums. */
  method LoadRow(numbers: seq<int>, lim: nat) returns (cells: seq<LP>)
    requires lim > 0 && |numbers| == 2 * lim + 1
    ensures cells == Cells([Raw(numbers[1], numbers[2])]
                           + Sums(Raw(numbers[1], numbers[2]), numbers[3..2*lim+1], lim - 1))
  {
    ghost var start := Raw(numbers[1], numbers[2]);
    var laml, phil := numbers[1], numbers[2];
    cells := [Cell(Raw(laml, phil))];
    ghost var done: seq<Raw> := [start];
    var j := 1;
    while j < lim
      invariant 1 <= j <= lim && cells == Cells(done)
      invariant [start] + Sums(start, numbers[3..2*lim+1], lim - 1)
             == done + Sums(Raw(laml, phil), numbers[2*j+1..2*lim+1], lim - j)
    {
      var rest := numbers[2*j+1..2*lim+1];
      assert rest[2..] == numbers[2*(j+1)+1..2*lim+1];
      var lam, phi := numbers[2*j+1], numbers[2*j+2];
      laml, phil := laml + lam, phil + phi;
      cells := cells + [Cell(Raw(laml, phil))];
      done := done + [Raw(laml, phil)];
      j := j + 1;
    }
    assert done + [] == done;
  }

  /** Loads a table; too few numbers or a row out of order end the program. */
  method Load(numbers: seq<int>, limLam: nat, limPhi: nat) returns (r: Option<seq<LP>>)
    requires limLam > 0
    ensures r == Table(numbers, limLam, 0, limPhi)
  {
    hide Table, Cells, Sums;
    NothingBefore(Table(numbers, limLam, 0, limPhi));
    var rest := numbers;
    assert rest == numbers;
    var cvs: seq<LP> := [];
    var i := 0;
    while i < limPhi
      invariant i <= limPhi
      invariant Table(numbers, limLam, 0, limPhi) == Behind(cvs, Table(rest, limLam, i, limPhi - i))
    {
      TableStep(rest, limLam, i, limPhi - i);
      if |rest| < 2 * limLam + 1 || rest[0] != i {
        return None;
      }
      var row := LoadRow(rest[..2*limLam+1], limLam);
      assert rest[..2*limLam+1][3..2*limLam+1] == rest[3..2*limLam+1];
      BehindBehind(cvs, row, Table(rest[2*limLam+1..], limLam, i + 1, limPhi - i - 1));
      cvs := cvs + row;
      rest := rest[2*limLam+1..];
      i := i + 1;
    }
    TableDone(rest, limLam, i);
    assert cvs + [] == cvs;
    r := Some(cvs);
  }

  lemma TableDone(numbers: seq<int>, lim: nat, first: int)
    requires lim > 0
    ensures Table(numbers, lim, first, 0) == Some([])
  {
  }
}
