/** The grid search as the grid lookup of the coordinate transformation. */
module DatumGrids {
  import opened GridSearch
  import opened GridTables
  import opened Options
  import opened Points
  import T = Transform

  /** The lookup that the search in these grids makes; no grids at all are an error. */
  function Lookup(grids: seq<Grid>): (bool, Num, Num) -> Option<(Num, Num)>
    requires SoundGrids(grids)
  {
    (inverse, x, y) =>
      if |grids| == 0 then None
      else var p := ShiftPoint(grids, inverse, Pt(x, y, Fin(0.0))); Some((p.x, p.y))
  }

  /** The grids of a datum, if it has any, are searched. */
  ghost predicate Searches(d: T.Datum, grids: seq<Grid>)
    requires SoundGrids(grids)
  {
    d.GridDatum? ==> forall inverse, x, y :: d.shift(inverse, x, y) == Lookup(grids)(inverse, x, y)
  }

  /** The datum stage of the transformation is the search at each point. */
  lemma StageIsSearch(d: T.Datum, grids: seq<Grid>, inverse: bool, p: Pt)
    requires SoundGrids(grids) && d.GridDatum? && Searches(d, grids)
    ensures T.GridShift(d, inverse, p) ==
      if |grids| == 0 then Fatal(ERR_GRID) else Ok(ShiftPoint(grids, inverse, p))
  {
    hide Pick;
  }

  /** Shifting whole arrays in place is that stage at every point, also in how it fails. */
  method ApplyStage(d: T.Datum, grids: seq<Grid>, inverse: bool, v: View) returns (code: int)
    requires SoundGrids(grids) && d.GridDatum? && Searches(d, grids) && v.Valid()
    modifies v.Memory()
    ensures forall i: nat | i < v.n ::
      T.GridShift(d, inverse, old(v.At(i))) == if code == 0 then Ok(v.At(i)) else Fatal(code)
    ensures code != 0 <==> |grids| == 0
    ensures Untouched(v)
  {
    hide SoundGrids, Searches, ShiftPoint, T.GridShift;
    code := ApplyGridShift(grids, inverse, v);
    forall i: nat | i < v.n
      ensures T.GridShift(d, inverse, old(v.At(i))) == if code == 0 then Ok(v.At(i)) else Fatal(code)
    {
      StageIsSearch(d, grids, inverse, old(v.At(i)));
    }
  }

  /** The search leaves marked longitudes marked. */
  lemma SearchKeepsMarks(c: T.Call, srcGrids: seq<Grid>, dstGrids: seq<Grid>)
    requires SoundGrids(srcGrids) && SoundGrids(dstGrids)
    requires Searches(c.src.datum, srcGrids) && Searches(c.dst.datum, dstGrids)
    ensures T.GridsKeepMarks(c)
  {
    hide Pick;
    forall inverse, y: Num
      ensures Pick(srcGrids, inverse, Huge, y) == None && Pick(dstGrids, inverse, Huge, y) == None
    {
      MarkedNotPicked(srcGrids, inverse, Huge, y);
      MarkedNotPicked(dstGrids, inverse, Huge, y);
    }
  }

  /** So in a transformation that searches its grids an x marked at stage k is marked in the result. */
  lemma MarksStick(c: T.Call, srcGrids: seq<Grid>, dstGrids: seq<Grid>, k: nat, p: Pt)
    requires SoundGrids(srcGrids) && SoundGrids(dstGrids)
    requires Searches(c.src.datum, srcGrids) && Searches(c.dst.datum, dstGrids)
    requires k <= T.STAGES && T.Prefix(c, k, p).Ok? && T.Prefix(c, k, p).pt.x.Huge?
    ensures T.TransformPoint(c, p).Ok? ==> T.TransformPoint(c, p).pt.x.Huge?
  {
    SearchKeepsMarks(c, srcGrids, dstGrids);
    hide Searches, T.Prefix;
    if T.TransformPoint(c, p).Ok? {
      T.MarkSticks(c, k, T.STAGES, p);
    }
  }
}
