/** The choice of the grid shift table for each point of strided coordinate arrays. */
module GridSearch {
  import opened GridShift
  import opened GridTables
  import opened Options
  import opened Points
  import opened Reals

  /** Comparisons of a double, which may be HUGE_VAL, with a number. */
  predicate AtLeast(n: Num, low: real) {
    n.Huge? || low <= n.r
  }

  predicate AtMost(n: Num, high: real) {
    n.Fin? && n.r <= high
  }

  /** Whether the table extends to the position, with a small margin. */
  predicate Covers(ct: CTable, x: Num, y: Num) {
    var epsilon := (Abs(ct.del.phi) + Abs(ct.del.lam)) / 10000.0;
    && AtLeast(y, ct.ll.phi - epsilon) && AtLeast(x, ct.ll.lam - epsilon)
    && AtMost(y, ct.ll.phi + (ct.limPhi - 1) as real * ct.del.phi + epsilon)
    && AtMost(x, ct.ll.lam + (ct.limLam - 1) as real * ct.del.lam + epsilon)
  }

  /** A marked coordinate is beyond every table. */
  lemma MarkedNotCovered(ct: CTable, x: Num, y: Num)
    ensures Covers(ct, x, y) ==> x.Fin? && y.Fin?
  {
  }

  predicate SoundGrids(grids: seq<Grid>) {
    forall g | g in grids :: Sound(g.ct) && forall c | c in g.children :: Sound(c)
  }

  /** The first of the tables that covers the position, or else own. */
  function FirstCovering(tables: seq<CTable>, own: CTable, x: Num, y: Num): (r: CTable)
    ensures r == own || r in tables
  {
    if |tables| == 0 then own
    else if Covers(tables[0], x, y) then tables[0]
    else FirstCovering(tables[1..], own, x, y)
  }

  /** What the grids make of a position: the first one that covers it, and whose most refined table
      shifts it, decides. */
  function Pick(grids: seq<Grid>, inverse: bool, x: Num, y: Num): Option<LP>
    requires SoundGrids(grids)
  {
    if |grids| == 0 then None
    else if !Covers(grids[0].ct, x, y) then Pick(grids[1..], inverse, x, y)
    else
      MarkedNotCovered(grids[0].ct, x, y);
      var r := Convert(FirstCovering(grids[0].children, grids[0].ct, x, y), inverse, LP(x.r, y.r));
      if r.Some? then r else Pick(grids[1..], inverse, x, y)
  }

  // ----- What that means, without recursion

  /** The first child that covers the position, or else the grid's own table. */
  ghost predicate IsRefined(g: Grid, x: Num, y: Num, ct: CTable) {
    (ct == g.ct && forall c | 0 <= c < |g.children| :: !Covers(g.children[c], x, y))
    || exists c :: 0 <= c < |g.children| && ct == g.children[c] && Covers(ct, x, y)
                   && forall d | 0 <= d < c :: !Covers(g.children[d], x, y)
  }

  /** A grid gives r for the position: none if it does not cover it or the shift of the most refined
      table fails. */
  ghost predicate Gives(g: Grid, inverse: bool, x: Num, y: Num, r: Option<LP>) {
    if !Covers(g.ct, x, y) then r == None
    else
      MarkedNotCovered(g.ct, x, y);
      exists ct :: IsRefined(g, x, y, ct) && Sound(ct) && r == Convert(ct, inverse, LP(x.r, y.r))
  }

  /** The outcome for a position: the first grid that gives one decides; without one, nothing. */
  ghost predicate Picks(grids: seq<Grid>, inverse: bool, x: Num, y: Num, r: Option<LP>) {
    if r == None then forall g | 0 <= g < |grids| :: Gives(grids[g], inverse, x, y, None)
    else exists g :: 0 <= g < |grids| && Gives(grids[g], inverse, x, y, r)
                     && forall h | 0 <= h < g :: Gives(grids[h], inverse, x, y, None)
  }

  lemma {:induction false} FirstCoveringIs(tables: seq<CTable>, own: CTable, x: Num, y: Num) returns (c: nat)
    ensures c <= |tables| && forall d | 0 <= d < c :: !Covers(tables[d], x, y)
    ensures FirstCovering(tables, own, x, y) == if c == |tables| then own else tables[c]
    ensures c < |tables| ==> Covers(tables[c], x, y)
  {
    hide Covers;
    if |tables| == 0 || Covers(tables[0], x, y) {
      c := 0;
    } else {
      var b := FirstCoveringIs(tables[1..], own, x, y);
      c := b + 1;
      forall d | 0 <= d < c ensures !Covers(tables[d], x, y) {
        if d > 0 { assert tables[d] == tables[1..][d-1]; }
      }
    }
  }

  lemma GivesFirst(g: Grid, inverse: bool, x: Num, y: Num)
    requires Sound(g.ct) && forall c | c in g.children :: Sound(c)
    ensures !Covers(g.ct, x, y) ==> Gives(g, inverse, x, y, None)
    ensures Covers(g.ct, x, y) ==> x.Fin? && y.Fin?
    ensures Covers(g.ct, x, y) ==>
      Gives(g, inverse, x, y, Convert(FirstCovering(g.children, g.ct, x, y), inverse, LP(x.r, y.r)))
  {
    MarkedNotCovered(g.ct, x, y);
    hide Covers, Convert, Sound;
    var c := FirstCoveringIs(g.children, g.ct, x, y);
    assert IsRefined(g, x, y, FirstCovering(g.children, g.ct, x, y));
  }

  lemma PicksLater(grids: seq<Grid>, inverse: bool, x: Num, y: Num, r: Option<LP>)
    requires |grids| > 0 && Gives(grids[0], inverse, x, y, None) && Picks(grids[1..], inverse, x, y, r)
    ensures Picks(grids, inverse, x, y, r)
  {
    hide Gives;
    var rest := grids[1..];
    if r == None {
      forall g | 0 <= g < |grids| ensures Gives(grids[g], inverse, x, y, None) {
        if g > 0 { assert grids[g] == rest[g-1]; }
      }
    } else {
      var g :| 0 <= g < |rest| && Gives(rest[g], inverse, x, y, r)
               && forall h | 0 <= h < g :: Gives(rest[h], inverse, x, y, None);
      assert grids[g+1] == rest[g];
      forall h | 0 <= h < g + 1 ensures Gives(grids[h], inverse, x, y, None) {
        if h > 0 { assert grids[h] == rest[h-1]; }
      }
    }
  }

  /** The choice satisfies the description. */
  lemma {:induction false} PickPicks(grids: seq<Grid>, inverse: bool, x: Num, y: Num)
    requires SoundGrids(grids)
    ensures Picks(grids, inverse, x, y, Pick(grids, inverse, x, y))
  {
    if |grids| > 0 {
      assert grids[0] in grids;
      GivesFirst(grids[0], inverse, x, y);
      PickPicks(grids[1..], inverse, x, y);
      hide Covers, Convert, Gives, Sound;
      var r := Pick(grids, inverse, x, y);
      if Gives(grids[0], inverse, x, y, None) && r == Pick(grids[1..], inverse, x, y) {
        PicksLater(grids, inverse, x, y, r);
      } else {
        assert r.Some? && Gives(grids[0], inverse, x, y, r);
      }
    }
  }

  lemma RefinedUnique(g: Grid, x: Num, y: Num, a: CTable, b: CTable)
    requires IsRefined(g, x, y, a) && IsRefined(g, x, y, b)
    ensures a == b
  {
    hide Covers;
  }

  lemma GivesUnique(g: Grid, inverse: bool, x: Num, y: Num, q: Option<LP>, r: Option<LP>)
    requires Gives(g, inverse, x, y, q) && Gives(g, inverse, x, y, r)
    ensures q == r
  {
    MarkedNotCovered(g.ct, x, y);
    hide Covers, Convert, IsRefined;
    if Covers(g.ct, x, y) {
      var a :| IsRefined(g, x, y, a) && Sound(a) && q == Convert(a, inverse, LP(x.r, y.r));
      var b :| IsRefined(g, x, y, b) && Sound(b) && r == Convert(b, inverse, LP(x.r, y.r));
      RefinedUnique(g, x, y, a, b);
    }
  }

  /** No two outcomes satisfy the description: it determines the shift. */
  lemma PicksUnique(grids: seq<Grid>, inverse: bool, x: Num, y: Num, q: Option<LP>, r: Option<LP>)
    requires Picks(grids, inverse, x, y, q) && Picks(grids, inverse, x, y, r)
    ensures q == r
  {
    hide Gives;
    forall g, a, b | 0 <= g < |grids| && Gives(grids[g], inverse, x, y, a) && Gives(grids[g], inverse, x, y, b)
      ensures a == b
    {
      GivesUnique(grids[g], inverse, x, y, a, b);
    }
  }

  // ----- The search

  lemma SkipOne(tables: seq<CTable>, own: CTable, x: Num, y: Num, c: nat)
    requires c < |tables|
    ensures FirstCovering(tables[c..], own, x, y)
         == if Covers(tables[c], x, y) then tables[c] else FirstCovering(tables[c+1..], own, x, y)
  {
    hide Covers;
    assert tables[c..][1..] == tables[c+1..];
  }

  /** The refined table for a position that the grid covers. */
  method Refine(g: Grid, x: Num, y: Num) returns (ct: CTable)
    ensures ct == FirstCovering(g.children, g.ct, x, y)
  {
    hide Covers, FirstCovering;
    assert g.children[0..] == g.children;
    var child := 0;
    while child < |g.children| && !Covers(g.children[child], x, y)
      invariant child <= |g.children|
      invariant FirstCovering(g.children, g.ct, x, y) == FirstCovering(g.children[child..], g.ct, x, y)
    {
      SkipOne(g.children, g.ct, x, y, child);
      child := child + 1;
    }
    if child < |g.children| {
      SkipOne(g.children, g.ct, x, y, child);
      ct := g.children[child];
    } else {
      NoneLeft(g.children, g.ct, x, y);
      ct := g.ct;
    }
  }

  lemma NoneLeft(tables: seq<CTable>, own: CTable, x: Num, y: Num)
    ensures FirstCovering(tables[|tables|..], own, x, y) == own
  {
  }

  lemma PickUnfolds(grids: seq<Grid>, inverse: bool, x: Num, y: Num, g: nat)
    requires SoundGrids(grids) && g < |grids|
    ensures SoundGrids(grids[g..]) && SoundGrids(grids[g+1..])
    ensures Covers(grids[g].ct, x, y) ==> x.Fin? && y.Fin? && Sound(FirstCovering(grids[g].children, grids[g].ct, x, y))
    ensures Pick(grids[g..], inverse, x, y) ==
      if !Covers(grids[g].ct, x, y) then Pick(grids[g+1..], inverse, x, y)
      else
        var r := Convert(FirstCovering(grids[g].children, grids[g].ct, x, y), inverse, LP(x.r, y.r));
        if r.Some? then r else Pick(grids[g+1..], inverse, x, y)
  {
    MarkedNotCovered(grids[g].ct, x, y);
    hide Covers, Convert, Sound;
    assert grids[g] in grids;
    assert grids[g..][1..] == grids[g+1..];
  }

  method Search(grids: seq<Grid>, inverse: bool, x: Num, y: Num) returns (output: Option<LP>)
    requires SoundGrids(grids)
    ensures output == Pick(grids, inverse, x, y)
  {
    hide Covers, Convert, FirstCovering, Sound, Pick, SoundGrids;
    output := None;
    assert grids[0..] == grids;
    var itable := 0;
    while itable < |grids|
      invariant itable <= |grids| && output == None && SoundGrids(grids[itable..])
      invariant Pick(grids, inverse, x, y) == Pick(grids[itable..], inverse, x, y)
    {
      var gi := grids[itable];
      PickUnfolds(grids, inverse, x, y, itable);
      if Covers(gi.ct, x, y) {
        var ct := Refine(gi, x, y);
        output := NadCvt(Some(LP(x.r, y.r)), inverse, ct);
        if output.Some? {
          return;
        }
      }
      itable := itable + 1;
    }
    PickNone(grids, inverse, x, y);
  }

  lemma PickNone(grids: seq<Grid>, inverse: bool, x: Num, y: Num)
    requires SoundGrids(grids[|grids|..])
    ensures Pick(grids[|grids|..], inverse, x, y) == None
  {
  }

  /** What happens to a point: a position that some grid shifts is replaced; any other one is left
      alone, with its marks. */
  function ShiftPoint(grids: seq<Grid>, inverse: bool, p: Pt): Pt
    requires SoundGrids(grids)
  {
    match Pick(grids, inverse, p.x, p.y)
    case None => p
    case Some(q) => Pt(Fin(q.lam), Fin(q.phi), p.z)
  }

  const ERR_GRID: int := -38

  /** Shifts every point in place; an empty list of grids is an error. */
  method ApplyGridShift(grids: seq<Grid>, inverse: bool, v: View) returns (code: int)
    requires SoundGrids(grids) && v.Valid()
    modifies v.Memory()
    ensures code == if |grids| == 0 then -38 else 0
    ensures code != 0 ==> forall i: nat | i < v.n :: v.At(i) == old(v.At(i))
    ensures code == 0 ==> forall i: nat | i < v.n :: v.At(i) == ShiftPoint(grids, inverse, old(v.At(i)))
    ensures Untouched(v)
  {
    hide Pick, SoundGrids;
    if |grids| == 0 {
      return ERR_GRID;
    }
    var i := 0;
    while i < v.n
      invariant i <= v.n
      invariant forall k: nat | k < i :: v.At(k) == ShiftPoint(grids, inverse, old(v.At(k)))
      invariant forall k: nat | i <= k < v.n :: v.At(k) == old(v.At(k))
      invariant Untouched(v)
    {
      var p := v.At(i);
      var output := Search(grids, inverse, p.x, p.y);
      if output.Some? {
        Put(v, i, Pt(Fin(output.value.lam), Fin(output.value.phi), p.z));
      }
      i := i + 1;
    }
    code := 0;
  }

  // ----- One grid

  /** A grid without refinements shifts the positions between its first and last node, longitudes
      against the columns and latitudes against the rows, with a margin of a ten-thousandth of the two
      cell sizes on every side; all other positions it leaves alone. */
  lemma LoneGrid(ct: CTable, inverse: bool, lon: real, lat: real)
    requires Sound(ct)
    ensures var margin := (Abs(ct.del.lam) + Abs(ct.del.phi)) / 10000.0;
            var east, north := ct.ll.lam + (ct.limLam - 1) as real * ct.del.lam,
                               ct.ll.phi + (ct.limPhi - 1) as real * ct.del.phi;
            Pick([Grid(ct, [])], inverse, Fin(lon), Fin(lat)) ==
              if ct.ll.lam - margin <= lon <= east + margin && ct.ll.phi - margin <= lat <= north + margin
              then Convert(ct, inverse, LP(lon, lat)) else None
  {
    hide Convert;
    var grids := [Grid(ct, [])];
    assert Pick(grids[1..], inverse, Fin(lon), Fin(lat)) == None;
  }

  /** Inside, with axes that run upwards, every position is shifted as the table says. */
  lemma InsideLoneGrid(ct: CTable, inverse: bool, p: Pt)
    requires Sound(ct) && p.x.Fin? && p.y.Fin?
    requires ct.ll.lam <= p.x.r <= ct.ll.lam + (ct.limLam - 1) as real * ct.del.lam
    requires ct.ll.phi <= p.y.r <= ct.ll.phi + (ct.limPhi - 1) as real * ct.del.phi
    ensures ShiftPoint([Grid(ct, [])], inverse, p) ==
      match Convert(ct, inverse, LP(p.x.r, p.y.r)) case None => p case Some(q) => Pt(Fin(q.lam), Fin(q.phi), p.z)
  {
    hide Convert, Sound, Pick;
    LoneGrid(ct, inverse, p.x.r, p.y.r);
  }

  // ----- Marked points

  /** No grid shifts a point with a marked coordinate: it is beyond every table. */
  lemma {:induction false} MarkedNotPicked(grids: seq<Grid>, inverse: bool, x: Num, y: Num)
    requires SoundGrids(grids) && (x.Huge? || y.Huge?)
    ensures Pick(grids, inverse, x, y) == None
  {
    if |grids| > 0 {
      MarkedNotCovered(grids[0].ct, x, y);
      MarkedNotPicked(grids[1..], inverse, x, y);
    }
  }
}
