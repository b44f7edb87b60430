/** Coordinate transformation of strided arrays, stage by stage over all points.

    Projections, geocentric conversions and grid lookups are parameters of the model: functions of a
    single point that may fail. */
module Transform {
  import opened Options
  import opened Points
  import opened Reals

  // ----- Definitions

  datatype Projected = Projected(u: Num, v: Num, errno: int)

  datatype Datum =
    | UnknownDatum
    | ThreeParam(dx: real, dy: real, dz: real)
    | SevenParam(dx: real, dy: real, dz: real, rx: real, ry: real, rz: real, m: real)
    | GridDatum(nadgrids: string, shift: (bool, Num, Num) -> Option<(Num, Num)>)
    | Wgs84

  /** A coordinate system.  shift and geoid return None where the call has to give up. */
  datatype Definition = Definition(
    a: real, es: real, vtoMeter: real, vfrMeter: real, toMeter: real, frMeter: real, fromGreenwich: real,
    isGeocent: bool, isLatlong: bool,
    inverse: Option<(Num, Num) -> Projected>, forward: (Num, Num) -> Projected,
    geoid: Option<(Num, Num) -> Option<real>>, datum: Datum, wrapCenter: Option<real>)

  /** Conversions between geodetic and geocentric coordinates on the ellipsoid (a, es). */
  datatype Earth = Earth(ellipsoidOk: (real, real) -> bool, toGeocentric: (real, real, Pt) -> Option<Pt>,
                         toGeodetic: (real, real, Pt) -> Pt)

  datatype Call = Call(earth: Earth, src: Definition, dst: Definition, hasZ: bool, single: bool)

  const ERR_GEOCENTRIC: int := -45
  const ERR_NO_INVERSE: int := -17
  const ERR_GRID: int := -38
  const ERR_GRID_AREA: int := -48
  const WGS84_SEMIMAJOR: real := 6378137.0
  const WGS84_ESQUARED: real := 0.0066943799901413165

  // ----- One point

  function MulNum(n: Num, k: real): Num {
    if n.Huge? then Huge else Fin(n.r * k)
  }

  function AddNum(n: Num, k: real): Num {
    if n.Huge? then Huge else Fin(n.r + k)
  }

  /** Codes that concern the point rather than the coordinate system. */
  predicate Transient(code: int) {
    -code in {14, 15, 17, 18, 19, 20, 27, 48}
  }

  predicate EndsCall(errno: int, single: bool) {
    errno != 0 && errno != 33 && errno != 34 && (errno > 0 || errno < -44 || single || !Transient(errno))
  }

  /** Stores what a projection returned; errors of the point alone mark it. */
  function Settle(r: Projected, single: bool, p: Pt): Outcome {
    if EndsCall(r.errno, single) then Fatal(r.errno)
    else if r.errno != 0 then Ok(p.(x := Huge, y := Huge))
    else Ok(p.(x := r.u, y := r.v))
  }

  function ScaleHeight(k: real, p: Pt): Outcome {
    Ok(p.(z := MulNum(p.z, k)))
  }

  function ScalePlane(k: real, p: Pt): Outcome {
    if p.x.Huge? then Ok(p) else Ok(p.(x := MulNum(p.x, k), y := MulNum(p.y, k)))
  }

  function ShiftLongitude(k: real, p: Pt): Outcome {
    if p.x.Huge? then Ok(p) else Ok(p.(x := AddNum(p.x, k)))
  }

  function ToGeodetic(c: Call, a: real, es: real, p: Pt): Outcome {
    if p.x.Huge? then Ok(p) else Ok(c.earth.toGeodetic(a, es, p))
  }

  function ToGeocentric(c: Call, a: real, es: real, p: Pt): Outcome {
    if p.x.Huge? then Ok(p)
    else match c.earth.toGeocentric(a, es, p)
      case None => Ok(p.(x := Huge, y := Huge))
      case Some(q) => Ok(q)
  }

  function Unproject(c: Call, p: Pt): Outcome
    requires c.src.inverse.Some?
  {
    if p.x.Huge? then Ok(p) else Settle(c.src.inverse.value(p.x, p.y), c.single, p)
  }

  function Project(c: Call, p: Pt): Outcome {
    if p.x.Huge? then Ok(p) else Settle(c.dst.forward(p.x, p.y), c.single, p)
  }

  /** A point outside every geoid table ends the call. */
  function GeoidShift(geoid: (Num, Num) -> Option<real>, inverse: bool, p: Pt): Outcome {
    match geoid(p.x, p.y)
    case None => Fatal(ERR_GRID_AREA)
    case Some(value) => Ok(p.(z := AddNum(p.z, if inverse then -value else value)))
  }

  function GridShift(d: Datum, inverse: bool, p: Pt): Outcome
    requires d.GridDatum?
  {
    match d.shift(inverse, p.x, p.y)
    case None => Fatal(ERR_GRID)
    case Some(q) => Ok(p.(x := q.0, y := q.1))
  }

  function ToWgs84(d: Datum, p: Pt): Outcome {
    if p.x.Huge? then Ok(p)
    else match d
      case ThreeParam(dx, dy, dz) => Ok(Pt(AddNum(p.x, dx), AddNum(p.y, dy), AddNum(p.z, dz)))
      case SevenParam(dx, dy, dz, rx, ry, rz, m) =>
        if p.y.Huge? || p.z.Huge? then Ok(p) else
        var (x, y, z) := (p.x.r, p.y.r, p.z.r);
        Ok(Pt(Fin(m * (x - rz * y + ry * z) + dx),
              Fin(m * (rz * x + y - rx * z) + dy),
              Fin(m * (-ry * x + rx * y + z) + dz)))
      case _ => Ok(p)
  }

  function FromWgs84(d: Datum, p: Pt): Outcome {
    if p.x.Huge? then Ok(p)
    else match d
      case ThreeParam(dx, dy, dz) => Ok(Pt(AddNum(p.x, -dx), AddNum(p.y, -dy), AddNum(p.z, -dz)))
      case SevenParam(dx, dy, dz, rx, ry, rz, m) =>
        if p.y.Huge? || p.z.Huge? || m == 0.0 then Ok(p) else
          var (x, y, z) := ((p.x.r - dx) / m, (p.y.r - dy) / m, (p.z.r - dz) / m);
          Ok(Pt(Fin(x + rz * y - ry * z), Fin(-rz * x + y + rx * z), Fin(ry * x - rx * y + z)))
      case _ => Ok(p)
  }

  predicate SameDatum(s: Definition, d: Definition) {
    if s.datum.UnknownDatum? != d.datum.UnknownDatum? || s.datum.ThreeParam? != d.datum.ThreeParam?
       || s.datum.SevenParam? != d.datum.SevenParam? || s.datum.GridDatum? != d.datum.GridDatum? then false
    else if s.a != d.a || s.es - d.es > 0.000000000050 || d.es - s.es > 0.000000000050 then false
    else match (s.datum, d.datum)
      case (ThreeParam(x, y, z), ThreeParam(x', y', z')) => x == x' && y == y' && z == z'
      case (SevenParam(x, y, z, rx, ry, rz, m), SevenParam(x', y', z', rx', ry', rz', m')) =>
        x == x' && y == y' && z == z' && rx == rx' && ry == ry' && rz == rz' && m == m'
      case (GridDatum(n, _), GridDatum(n', _)) => n == n'
      case _ => true
  }

  predicate IsHelmert(d: Datum) {
    d.ThreeParam? || d.SevenParam?
  }

  /** The ellipsoid on which the geocentric step works. */
  function StepEllipsoid(d: Definition): (real, real) {
    if d.datum.GridDatum? then (WGS84_SEMIMAJOR, WGS84_ESQUARED) else (d.a, d.es)
  }

  predicate ShiftsDatum(c: Call) {
    !c.src.datum.UnknownDatum? && !c.dst.datum.UnknownDatum? && !SameDatum(c.src, c.dst)
  }

  predicate GoesGeocentric(c: Call) {
    StepEllipsoid(c.src) != StepEllipsoid(c.dst) || IsHelmert(c.src.datum) || IsHelmert(c.dst.datum)
  }

  function Then(o: Outcome, stage: Pt -> Outcome): Outcome {
    if o.Ok? then stage(o.pt) else o
  }

  // ----- The stages of the datum shift

  const DATUM_STAGES: nat := 6

  function DatumStage(c: Call, k: nat, p: Pt): Outcome {
    var (srcA, srcEs) := StepEllipsoid(c.src);
    var (dstA, dstEs) := StepEllipsoid(c.dst);
    if k == 0 then if c.src.datum.GridDatum? then GridShift(c.src.datum, false, p) else Ok(p)
    else if k == 1 then
      if !GoesGeocentric(c) then Ok(p)
      else if !c.earth.ellipsoidOk(srcA, srcEs) then Fatal(ERR_GEOCENTRIC)
      else ToGeocentric(c, srcA, srcEs, p)
    else if k == 2 then if GoesGeocentric(c) then ToWgs84(c.src.datum, p) else Ok(p)
    else if k == 3 then if GoesGeocentric(c) then FromWgs84(c.dst.datum, p) else Ok(p)
    else if k == 4 then
      if !GoesGeocentric(c) then Ok(p)
      else if !c.earth.ellipsoidOk(dstA, dstEs) then Fatal(ERR_GEOCENTRIC)
      else ToGeodetic(c, dstA, dstEs, p)
    else if c.dst.datum.GridDatum? then GridShift(c.dst.datum, true, p)
    else Ok(p)
  }

  function DatumPrefix(c: Call, k: nat, p: Pt): Outcome {
    if k == 0 then Ok(p) else Then(DatumPrefix(c, k - 1, p), q => DatumStage(c, k - 1, q))
  }

  function DatumShift(c: Call, p: Pt): Outcome {
    if ShiftsDatum(c) then DatumPrefix(c, DATUM_STAGES, p) else Ok(p)
  }

  // ----- The stages of the transformation

  const STAGES: nat := 9

  function SourceToGeodetic(c: Call, p: Pt): Outcome {
    if c.src.isGeocent then
      if !c.hasZ || !c.earth.ellipsoidOk(c.src.a, c.src.es) then Fatal(ERR_GEOCENTRIC)
      else Then(if c.src.toMeter != 1.0 then ScalePlane(c.src.toMeter, p) else Ok(p),
                q => ToGeodetic(c, c.src.a, c.src.es, q))
    else if c.src.isLatlong then Ok(p)
    else if c.src.inverse.None? then Fatal(ERR_NO_INVERSE)
    else Unproject(c, p)
  }

  /** The return code of the destination conversion to geocentric coordinates is ignored: on a bad
      ellipsoid nothing is converted. */
  function GeodeticToDestination(c: Call, p: Pt): Outcome {
    if c.dst.isGeocent then
      if !c.hasZ then Fatal(ERR_GEOCENTRIC)
      else Then(if c.earth.ellipsoidOk(c.dst.a, c.dst.es) then ToGeocentric(c, c.dst.a, c.dst.es, p) else Ok(p),
                q => if c.dst.frMeter != 1.0 then ScalePlane(c.dst.frMeter, q) else Ok(q))
    else if !c.dst.isLatlong then Project(c, p)
    else if c.dst.wrapCenter.Some? then WrapPoint(c.dst.wrapCenter.value, p)
    else Ok(p)
  }

  function StageBody(c: Call, k: nat, p: Pt): Outcome {
    if k == 0 then if c.src.vtoMeter != 1.0 && c.hasZ then ScaleHeight(c.src.vtoMeter, p) else Ok(p)
    else if k == 1 then SourceToGeodetic(c, p)
    else if k == 2 then if c.src.fromGreenwich != 0.0 then ShiftLongitude(c.src.fromGreenwich, p) else Ok(p)
    else if k == 3 then if c.src.geoid.Some? then GeoidShift(c.src.geoid.value, false, p) else Ok(p)
    else if k == 4 then DatumShift(c, p)
    else if k == 5 then if c.dst.geoid.Some? then GeoidShift(c.dst.geoid.value, true, p) else Ok(p)
    else if k == 6 then if c.dst.fromGreenwich != 0.0 then ShiftLongitude(-c.dst.fromGreenwich, p) else Ok(p)
    else if k == 7 then GeodeticToDestination(c, p)
    else if c.dst.vtoMeter != 1.0 && c.hasZ then ScaleHeight(c.dst.vfrMeter, p)
    else Ok(p)
  }

  /** Stage k of the transformation of one point; without a z axis heights stay zero. */
  function Stage(c: Call, k: nat, p: Pt): Outcome {
    Fitted(c.hasZ, StageBody(c, k, p))
  }

  function Prefix(c: Call, k: nat, p: Pt): Outcome {
    if k == 0 then Ok(p) else Then(Prefix(c, k - 1, p), q => Stage(c, k - 1, q))
  }

  /** The whole transformation applied to one point. */
  function TransformPoint(c: Call, p: Pt): Outcome {
    Prefix(c, STAGES, p)
  }

  // ----- Wrapping longitudes

  /** How often the period TWOPI fits between x and a bound above it, rounded up past the bound. */
  function StepsBelow(x: real, lo: real): int {
    if x < lo then ((lo - x) / TWOPI).Floor + 1 else 0
  }

  lemma StepsDecrease(x: real, lo: real)
    requires x < lo
    ensures 0 <= StepsBelow(x + TWOPI, lo) < StepsBelow(x, lo)
  {
    assert (lo - (x + TWOPI)) / TWOPI == (lo - x) / TWOPI - 1.0;
  }

  /** Adds TWOPI until x is no longer below lo. */
  function RaiseTo(x: real, lo: real): real
    decreases StepsBelow(x, lo)
  {
    if x < lo then
      StepsDecrease(x, lo);
      RaiseTo(x + TWOPI, lo)
    else x
  }

  /** Subtracts TWOPI until x is no longer above hi. */
  function LowerTo(x: real, hi: real): real
    decreases StepsBelow(-x, -hi)
  {
    if x > hi then
      StepsDecrease(-x, -hi);
      LowerTo(x - TWOPI, hi)
    else x
  }

  function WrapPoint(center: real, p: Pt): Outcome {
    if p.x.Huge? then Ok(p) else Ok(p.(x := Fin(LowerTo(RaiseTo(p.x.r, center - PI), center + PI))))
  }

  /** y is x turned k times. */
  ghost predicate Turned(x: real, y: real, k: int) {
    y == x + k as real * TWOPI
  }

  lemma {:induction false} RaiseToRange(x: real, lo: real)
    ensures RaiseTo(x, lo) >= lo
    ensures x >= lo ==> RaiseTo(x, lo) == x
    ensures x < lo ==> RaiseTo(x, lo) < lo + TWOPI
    ensures exists k: int :: Turned(x, RaiseTo(x, lo), k)
    decreases StepsBelow(x, lo)
  {
    if x < lo {
      StepsDecrease(x, lo);
      RaiseToRange(x + TWOPI, lo);
      var k: int :| Turned(x + TWOPI, RaiseTo(x + TWOPI, lo), k);
      assert Turned(x, RaiseTo(x, lo), k + 1);
    } else {
      assert Turned(x, RaiseTo(x, lo), 0);
    }
  }

  lemma {:induction false} LowerToRange(x: real, hi: real)
    ensures LowerTo(x, hi) <= hi
    ensures x <= hi ==> LowerTo(x, hi) == x
    ensures x > hi ==> LowerTo(x, hi) > hi - TWOPI
    ensures exists k: int :: Turned(x, LowerTo(x, hi), k)
    decreases StepsBelow(-x, -hi)
  {
    if x > hi {
      StepsDecrease(-x, -hi);
      LowerToRange(x - TWOPI, hi);
      var k: int :| Turned(x - TWOPI, LowerTo(x - TWOPI, hi), k);
      assert Turned(x, LowerTo(x, hi), k - 1);
    } else {
      assert Turned(x, LowerTo(x, hi), 0);
    }
  }

  /** The wrapped longitude lies within PI of the centre, differs from the given one by whole turns,
      and is the given one if that was already within PI of the centre. */
  lemma WrapRange(center: real, p: Pt)
    requires p.x.Fin?
    ensures WrapPoint(center, p).pt.x.Fin?
    ensures center - PI <= WrapPoint(center, p).pt.x.r <= center + PI
    ensures exists k: int :: Turned(p.x.r, WrapPoint(center, p).pt.x.r, k)
    ensures center - PI <= p.x.r <= center + PI ==> WrapPoint(center, p) == Ok(p)
  {
    var x := p.x.r;
    var y := RaiseTo(x, center - PI);
    RaiseToRange(x, center - PI);
    LowerToRange(y, center + PI);
    var j: int :| Turned(x, y, j);
    var k: int :| Turned(y, LowerTo(y, center + PI), k);
    assert Turned(x, LowerTo(y, center + PI), j + k);
  }

  /** The loops that wrap one longitude. */
  method WrapLongitude(start: real, center: real) returns (x: real)
    ensures x == LowerTo(RaiseTo(start, center - PI), center + PI)
  {
    x := start;
    while x < center - PI
      invariant RaiseTo(x, center - PI) == RaiseTo(start, center - PI)
      decreases StepsBelow(x, center - PI)
    {
      StepsDecrease(x, center - PI);
      x := x + TWOPI;
    }
    while x > center + PI
      invariant LowerTo(x, center + PI) == LowerTo(RaiseTo(start, center - PI), center + PI)
      decreases StepsBelow(-x, -center - PI)
    {
      StepsDecrease(-x, -(center + PI));
      x := x - TWOPI;
    }
  }

  // ----- Whole arrays

  ghost predicate StageDone(c: Call, k: nat, a: seq<Pt>, b: seq<Pt>) {
    |a| == |b| && forall i | 0 <= i < |a| :: Stage(c, k, a[i]) == Ok(b[i])
  }

  ghost predicate StageStuck(c: Call, k: nat, a: seq<Pt>, code: int) {
    exists i :: 0 <= i < |a| && Stage(c, k, a[i]) == Fatal(code)
  }

  /** The stage fails whatever the points are. */
  ghost predicate StageBroken(c: Call, k: nat) {
    || (k == 1 && c.src.isGeocent && (!c.hasZ || !c.earth.ellipsoidOk(c.src.a, c.src.es)))
    || (k == 1 && !c.src.isGeocent && !c.src.isLatlong && c.src.inverse.None?)
    || (k == 4 && ShiftsDatum(c) && DatumBroken(c))
    || (k == 7 && c.dst.isGeocent && !c.hasZ)
  }

  /** The error of a stage that fails whatever the points are. */
  function StageError(c: Call, k: nat): int {
    if k == 1 && !c.src.isGeocent then ERR_NO_INVERSE else ERR_GEOCENTRIC
  }

  ghost predicate DatumBroken(c: Call) {
    var (srcA, srcEs) := StepEllipsoid(c.src);
    var (dstA, dstEs) := StepEllipsoid(c.dst);
    GoesGeocentric(c) && (!c.earth.ellipsoidOk(srcA, srcEs) || !c.earth.ellipsoidOk(dstA, dstEs))
  }

  /** How stage k ended, with code, when it met the points a and left the points b. */
  ghost predicate StageEnded(c: Call, k: nat, a: seq<Pt>, b: seq<Pt>, code: int) {
    && (code == 0 ==> StageDone(c, k, a, b) && !StageBroken(c, k))
    && (code != 0 ==> StageStuck(c, k, a, code) || (StageBroken(c, k) && code == StageError(c, k)))
  }

  method SourceHeight(c: Call, v: View) returns (code: int)
    requires v.Valid() && c.hasZ == v.z.Some?
    modifies v.Memory()
    ensures StageEnded(c, 0, old(v.All()), v.All(), code) && Untouched(v)
  {
    code := 0;
    if c.src.vtoMeter != 1.0 && v.z.Some? {
      code := Pass(p => ScaleHeight(c.src.vtoMeter, p), v);
    }
  }

  method SourceConversion(c: Call, v: View) returns (code: int)
    requires v.Valid() && c.hasZ == v.z.Some?
    modifies v.Memory()
    ensures StageEnded(c, 1, old(v.All()), v.All(), code) && Untouched(v)
  {
    code := 0;
    if c.src.isGeocent {
      if v.z.None? {
        return ERR_GEOCENTRIC;
      }
      if c.src.toMeter != 1.0 {
        code := Pass(p => ScalePlane(c.src.toMeter, p), v);
      }
      if !c.earth.ellipsoidOk(c.src.a, c.src.es) {
        return ERR_GEOCENTRIC;
      }
      code := Pass(p => ToGeodetic(c, c.src.a, c.src.es, p), v);
    } else if !c.src.isLatlong {
      if c.src.inverse.None? {
        return ERR_NO_INVERSE;
      }
      code := Pass(p => Unproject(c, p), v);
    }
  }

  method SourceMeridian(c: Call, v: View) returns (code: int)
    requires v.Valid() && c.hasZ == v.z.Some?
    modifies v.Memory()
    ensures StageEnded(c, 2, old(v.All()), v.All(), code) && Untouched(v)
  {
    code := 0;
    if c.src.fromGreenwich != 0.0 {
      code := Pass(p => ShiftLongitude(c.src.fromGreenwich, p), v);
    }
  }

  method SourceGeoid(c: Call, v: View) returns (code: int)
    requires v.Valid() && c.hasZ == v.z.Some?
    modifies v.Memory()
    ensures StageEnded(c, 3, old(v.All()), v.All(), code) && Untouched(v)
  {
    code := 0;
    if c.src.geoid.Some? {
      code := Pass(p => GeoidShift(c.src.geoid.value, false, p), v);
    }
  }

  method DestinationGeoid(c: Call, v: View) returns (code: int)
    requires v.Valid() && c.hasZ == v.z.Some?
    modifies v.Memory()
    ensures StageEnded(c, 5, old(v.All()), v.All(), code) && Untouched(v)
  {
    code := 0;
    if c.dst.geoid.Some? {
      code := Pass(p => GeoidShift(c.dst.geoid.value, true, p), v);
    }
  }

  method DestinationMeridian(c: Call, v: View) returns (code: int)
    requires v.Valid() && c.hasZ == v.z.Some?
    modifies v.Memory()
    ensures StageEnded(c, 6, old(v.All()), v.All(), code) && Untouched(v)
  {
    code := 0;
    if c.dst.fromGreenwich != 0.0 {
      code := Pass(p => ShiftLongitude(-c.dst.fromGreenwich, p), v);
    }
  }

  /** Wraps every longitude that is not a failure mark. */
  method WrapAll(center: real, v: View)
    requires v.Valid()
    modifies v.Memory()
    ensures Done(p => WrapPoint(center, p), v.z.Some?, old(v.All()), v.All()) && Untouched(v)
  {
    var i := 0;
    while i < v.n
      invariant i <= v.n
      invariant forall k: nat | k < i :: WrapPoint(center, old(v.At(k))) == Ok(v.At(k))
      invariant forall k: nat | i <= k < v.n :: v.At(k) == old(v.At(k))
      invariant Untouched(v)
    {
      var p := v.At(i);
      if p.x.Fin? {
        var x := WrapLongitude(p.x.r, center);
        Put(v, i, p.(x := Fin(x)));
      }
      i := i + 1;
    }
  }

  lemma GeocentricDone(c: Call, a: seq<Pt>, m: seq<Pt>, b: seq<Pt>)
    requires c.dst.isGeocent && c.hasZ && |a| == |m| == |b|
    requires forall i | 0 <= i < |a| ::
      Ok(m[i]) == if c.earth.ellipsoidOk(c.dst.a, c.dst.es) then ToGeocentric(c, c.dst.a, c.dst.es, a[i]) else Ok(a[i])
    requires forall i | 0 <= i < |a| ::
      Ok(b[i]) == if c.dst.frMeter != 1.0 then ScalePlane(c.dst.frMeter, m[i]) else Ok(m[i])
    ensures StageEnded(c, 7, a, b, 0)
  {
    hide ToGeocentric, ScalePlane;
  }

  method DestinationGeocentric(c: Call, v: View) returns (code: int)
    requires v.Valid() && c.hasZ == v.z.Some? && c.dst.isGeocent
    modifies v.Memory()
    ensures StageEnded(c, 7, old(v.All()), v.All(), code) && Untouched(v)
  {
    code := 0;
    if v.z.None? {
      return ERR_GEOCENTRIC;
    }
    ghost var a := v.All();
    if c.earth.ellipsoidOk(c.dst.a, c.dst.es) {
      var ignored := Pass(p => ToGeocentric(c, c.dst.a, c.dst.es, p), v);
    }
    ghost var m := v.All();
    if c.dst.frMeter != 1.0 {
      code := Pass(p => ScalePlane(c.dst.frMeter, p), v);
    }
    hide StageEnded;
    GeocentricDone(c, a, m, v.All());
  }

  method DestinationConversion(c: Call, v: View) returns (code: int)
    requires v.Valid() && c.hasZ == v.z.Some?
    modifies v.Memory()
    ensures StageEnded(c, 7, old(v.All()), v.All(), code) && Untouched(v)
  {
    code := 0;
    if c.dst.isGeocent {
      code := DestinationGeocentric(c, v);
    } else if !c.dst.isLatlong {
      code := Pass(p => Project(c, p), v);
    } else if c.dst.wrapCenter.Some? {
      WrapAll(c.dst.wrapCenter.value, v);
    }
  }

  method DestinationHeight(c: Call, v: View) returns (code: int)
    requires v.Valid() && c.hasZ == v.z.Some?
    modifies v.Memory()
    ensures StageEnded(c, 8, old(v.All()), v.All(), code) && Untouched(v)
  {
    code := 0;
    if c.dst.vtoMeter != 1.0 && v.z.Some? {
      code := Pass(p => ScaleHeight(c.dst.vfrMeter, p), v);
    }
  }

  // ----- The datum shift over whole arrays

  ghost predicate DatumRan(c: Call, k: nat, a: seq<Pt>, b: seq<Pt>) {
    |a| == |b| && forall i | 0 <= i < |a| :: DatumPrefix(c, k, a[i]) == Ok(b[i])
  }

  ghost predicate DatumFailed(c: Call, k: nat, a: seq<Pt>, code: int) {
    exists i :: 0 <= i < |a| && DatumPrefix(c, k, a[i]) == Fatal(code)
  }

  /** The sub-stages up to k ended with code. */
  ghost predicate DatumEnded(c: Call, k: nat, a: seq<Pt>, b: seq<Pt>, code: int) {
    && (code == 0 ==> DatumRan(c, k, a, b))
    && (code != 0 ==> DatumFailed(c, k, a, code) || (DatumBroken(c) && code == ERR_GEOCENTRIC))
  }

  lemma DatumAdvance(c: Call, k: nat, a: seq<Pt>, b: seq<Pt>, d: seq<Pt>)
    requires DatumRan(c, k, a, b) && Done(p => DatumStage(c, k, p), true, b, d)
    ensures DatumRan(c, k + 1, a, d)
  {
  }

  lemma DatumStop(c: Call, k: nat, a: seq<Pt>, b: seq<Pt>, code: int)
    requires DatumRan(c, k, a, b) && Stuck(p => DatumStage(c, k, p), b, code)
    ensures DatumFailed(c, k + 1, a, code)
  {
    var i :| 0 <= i < |b| && DatumStage(c, k, b[i]) == Fatal(code);
    assert DatumPrefix(c, k + 1, a[i]) == Fatal(code);
  }

  lemma {:induction false} FailedLater(c: Call, k: nat, n: nat, a: seq<Pt>, code: int)
    requires k <= n && DatumFailed(c, k, a, code)
    ensures DatumFailed(c, n, a, code)
  {
    if k < n {
      FailedLater(c, k, n - 1, a, code);
      var i :| 0 <= i < |a| && DatumPrefix(c, n - 1, a[i]) == Fatal(code);
      assert DatumPrefix(c, n, a[i]) == Fatal(code);
    }
  }

  lemma DatumSkip(c: Call, k: nat, a: seq<Pt>, b: seq<Pt>)
    requires DatumRan(c, k, a, b) && forall p :: DatumStage(c, k, p) == Ok(p)
    ensures DatumRan(c, k + 1, a, b)
  {
  }

  /** Sub-stage k on all points. */
  method DatumPass(c: Call, k: nat, v: View, ghost a: seq<Pt>) returns (code: int)
    requires v.Valid() && v.z.Some? && DatumRan(c, k, a, v.All())
    modifies v.Memory()
    ensures code == 0 ==> DatumRan(c, k + 1, a, v.All())
    ensures code != 0 ==> DatumFailed(c, k + 1, a, code)
    ensures Untouched(v)
  {
    ghost var b := v.All();
    code := Pass(p => DatumStage(c, k, p), v);
    if code == 0 {
      DatumAdvance(c, k, a, b, v.All());
    } else {
      DatumStop(c, k, a, b, code);
    }
  }

  /** The geocentric part of the datum shift: sub-stages 1 to 4. */
  method DatumGeocentric(c: Call, v: View, ghost a: seq<Pt>) returns (code: int)
    requires v.Valid() && v.z.Some? && DatumRan(c, 1, a, v.All())
    modifies v.Memory()
    ensures DatumEnded(c, 5, a, v.All(), code) && Untouched(v)
    ensures code == 0 ==> !DatumBroken(c)
  {
    var (srcA, srcEs) := StepEllipsoid(c.src);
    var (dstA, dstEs) := StepEllipsoid(c.dst);
    code := 0;
    if !GoesGeocentric(c) {
      DatumSkip(c, 1, a, v.All());
      DatumSkip(c, 2, a, v.All());
      DatumSkip(c, 3, a, v.All());
      DatumSkip(c, 4, a, v.All());
      return;
    }
    if !c.earth.ellipsoidOk(srcA, srcEs) {
      return ERR_GEOCENTRIC;
    }
    code := DatumPass(c, 1, v, a);
    if code == 0 && IsHelmert(c.src.datum) {
      code := DatumPass(c, 2, v, a);
    } else if code == 0 {
      DatumSkip(c, 2, a, v.All());
    } else {
      FailedLater(c, 2, 3, a, code);
    }
    if code == 0 && IsHelmert(c.dst.datum) {
      code := DatumPass(c, 3, v, a);
    } else if code == 0 {
      DatumSkip(c, 3, a, v.All());
    } else {
      FailedLater(c, 3, 4, a, code);
    }
    if code != 0 {
      FailedLater(c, 4, 5, a, code);
      return;
    }
    if !c.earth.ellipsoidOk(dstA, dstEs) {
      return ERR_GEOCENTRIC;
    }
    code := DatumPass(c, 4, v, a);
  }

  /** All sub-stages of the datum shift, with heights at hand. */
  method DatumPasses(c: Call, v: View) returns (code: int)
    requires v.Valid() && v.z.Some?
    modifies v.Memory()
    ensures DatumEnded(c, DATUM_STAGES, old(v.All()), v.All(), code) && Untouched(v)
    ensures code == 0 ==> !DatumBroken(c)
  {
    ghost var a := v.All();
    if c.src.datum.GridDatum? {
      code := DatumPass(c, 0, v, a);
      if code != 0 {
        FailedLater(c, 1, 6, a, code);
        return;
      }
    } else {
      DatumSkip(c, 0, a, v.All());
    }
    code := DatumGeocentric(c, v, a);
    if code != 0 {
      if DatumFailed(c, 5, a, code) { FailedLater(c, 5, 6, a, code); }
      return;
    }
    if c.dst.datum.GridDatum? {
      code := DatumPass(c, 5, v, a);
    } else {
      DatumSkip(c, 5, a, v.All());
    }
  }

  lemma SlotBelowExtent(stride: nat, n: nat, i: nat)
    requires stride > 0 && i < n
    ensures Slot(0, stride, i) < n * stride
  {
    var d := n - i;
    assert n * stride == (i + d) * stride == stride * i + d * stride;
    AtLeastOne(d, stride);
  }

  lemma AtLeastOne(d: nat, stride: nat)
    requires d >= 1
    ensures d * stride >= stride
  {
  }

  lemma UsedWithoutHeights(v: View, w: View, m: array<Num>, k: nat)
    requires v.z.None? && w.z.Some? && w == v.(z := w.z) && m != w.z.value.mem && w.Used(m, k)
    ensures v.Used(m, k)
  {
    var i: nat :| i < w.n && (w.IsCell(w.x, i, m, k) || w.IsCell(w.y, i, m, k) || w.IsCell(w.z.value, i, m, k));
    assert v.IsCell(v.x, i, m, k) || v.IsCell(v.y, i, m, k);
  }

  /** The same points with a fresh axis of zero heights. */
  method WithHeights(v: View) returns (w: View)
    requires v.Valid() && v.z.None?
    ensures w.Valid() && w.z.Some? && w == v.(z := w.z) && fresh(w.z.value.mem)
    ensures w.All() == v.All()
  {
    var extent := v.n * v.stride;
    forall i: nat | i < v.n ensures Slot(0, v.stride, i) < extent {
      SlotBelowExtent(v.stride, v.n, i);
    }
    hide Slot;
    var heights := new Num[extent](_ => Fin(0.0));
    w := v.(z := Some(Axis(heights, 0)));
  }

  /** The datum shift on fresh heights that start at zero and are dropped afterwards. */
  method DatumWithoutHeights(c: Call, v: View) returns (code: int)
    requires v.Valid() && v.z.None? && !c.hasZ && ShiftsDatum(c)
    modifies v.Memory()
    ensures StageEnded(c, 4, old(v.All()), v.All(), code) && Untouched(v)
  {
    ghost var a := v.All();
    var w := WithHeights(v);
    hide StageEnded, DatumEnded, Slot;
    code := DatumPasses(c, w);
    DatumIsStage(c, v, w, a, code);
    forall m, k: nat | m in v.Memory() && k < m.Length && !v.Used(m, k) ensures m[k] == old(m[k]) {
      if w.Used(m, k) { UsedWithoutHeights(v, w, m, k); }
    }
  }

  /** The datum shift. */
  method DatumTransform(c: Call, v: View) returns (code: int)
    requires v.Valid() && c.hasZ == v.z.Some?
    modifies v.Memory()
    ensures StageEnded(c, 4, old(v.All()), v.All(), code) && Untouched(v)
  {
    code := 0;
    if c.src.datum.UnknownDatum? || c.dst.datum.UnknownDatum? || SameDatum(c.src, c.dst) {
      return;
    }
    if v.z.None? {
      code := DatumWithoutHeights(c, v);
    } else {
      ghost var a := v.All();
      code := DatumPasses(c, v);
      DatumIsStage(c, v, v, a, code);
    }
  }

  lemma DatumIsStage(c: Call, v: View, w: View, a: seq<Pt>, code: int)
    requires v.Valid() && w.Valid() && c.hasZ == v.z.Some? && w.z.Some? && ShiftsDatum(c)
    requires w == v || (v.z.None? && w == v.(z := w.z))
    requires DatumEnded(c, DATUM_STAGES, a, w.All(), code) && (code == 0 ==> !DatumBroken(c))
    ensures StageEnded(c, 4, a, v.All(), code)
  {
    if code == 0 {
      forall i | 0 <= i < v.n ensures Stage(c, 4, a[i]) == Ok(v.All()[i]) {
        assert DatumPrefix(c, DATUM_STAGES, a[i]) == Ok(w.All()[i]);
      }
    } else if DatumFailed(c, DATUM_STAGES, a, code) {
      var i :| 0 <= i < |a| && DatumPrefix(c, DATUM_STAGES, a[i]) == Fatal(code);
      assert Stage(c, 4, a[i]) == Fatal(code);
    }
  }

  // ----- The whole call

  /** The first k stages are sound and take the points a to the points b. */
  ghost predicate RanTo(c: Call, k: nat, a: seq<Pt>, b: seq<Pt>) {
    && |a| == |b| && (forall i | 0 <= i < |a| :: Prefix(c, k, a[i]) == Ok(b[i]))
    && forall j | 0 <= j < k :: !StageBroken(c, j)
  }

  /** The call fails whatever the points are. */
  ghost predicate Broken(c: Call) {
    exists k :: 0 <= k < STAGES && StageBroken(c, k)
  }

  ghost predicate BrokenWith(c: Call, code: int) {
    exists k :: 0 <= k < STAGES && StageBroken(c, k) && StageError(c, k) == code
  }

  ghost predicate SomePointFails(c: Call, a: seq<Pt>) {
    exists i :: 0 <= i < |a| && TransformPoint(c, a[i]).Fatal?
  }

  ghost predicate PointFailsWith(c: Call, a: seq<Pt>, code: int) {
    exists i :: 0 <= i < |a| && TransformPoint(c, a[i]) == Fatal(code)
  }

  lemma {:induction false} FatalStays(c: Call, k: nat, n: nat, p: Pt)
    requires k <= n && Prefix(c, k, p).Fatal?
    ensures Prefix(c, n, p) == Prefix(c, k, p)
  {
    if k < n { FatalStays(c, k, n - 1, p); }
  }

  ghost predicate Fails(c: Call, a: seq<Pt>) {
    Broken(c) || SomePointFails(c, a)
  }

  /** What the error of a call reports. */
  ghost predicate FailsWith(c: Call, a: seq<Pt>, code: int) {
    BrokenWith(c, code) || PointFailsWith(c, a, code)
  }

  lemma FailsWithFails(c: Call, a: seq<Pt>, code: int)
    requires FailsWith(c, a, code)
    ensures Fails(c, a)
  {
    hide StageBroken, TransformPoint;
  }

  lemma NextStage(c: Call, k: nat, a: seq<Pt>, b: seq<Pt>, d: seq<Pt>, code: int)
    requires k < STAGES && RanTo(c, k, a, b) && StageEnded(c, k, b, d, code)
    ensures if code == 0 then RanTo(c, k + 1, a, d) else FailsWith(c, a, code)
  {
    hide StageBroken, Stage;
    if code != 0 && StageStuck(c, k, b, code) {
      var i :| 0 <= i < |b| && Stage(c, k, b[i]) == Fatal(code);
      assert Prefix(c, k + 1, a[i]) == Fatal(code);
      FatalStays(c, k + 1, STAGES, a[i]);
    }
  }

  lemma NothingRan(c: Call, a: seq<Pt>)
    ensures RanTo(c, 0, a, a)
  {
  }

  lemma AllStagesRan(c: Call, a: seq<Pt>, b: seq<Pt>)
    requires RanTo(c, STAGES, a, b)
    ensures !Fails(c, a) && |a| == |b| && forall i | 0 <= i < |a| :: TransformPoint(c, a[i]) == Ok(b[i])
  {
    hide StageBroken, Prefix;
  }

  /** The stages over whole arrays, one after the other. */
  method TransformStrided(c: Call, v: View) returns (code: int)
    requires v.Valid() && c.hasZ == v.z.Some?
    requires c.single == (v.n == 1)
    requires v.z.None? ==> c.src.geoid.None? && c.dst.geoid.None?
    modifies v.Memory()
    ensures code == 0 <==> !Broken(c) && !SomePointFails(c, old(v.All()))
    ensures code != 0 ==> FailsWith(c, old(v.All()), code)
    ensures code == 0 ==> forall i: nat | i < v.n :: TransformPoint(c, old(v.At(i))) == Ok(v.At(i))
    ensures Untouched(v)
  {
    hide RanTo, StageEnded, Broken, SomePointFails, FailsWith, TransformPoint;
    ghost var a := v.All();
    NothingRan(c, a);
    ghost var b := a;
    code := SourceHeight(c, v);
    NextStage(c, 0, a, b, v.All(), code);
    if code != 0 { FailsWithFails(c, a, code); return; }
    b := v.All();
    code := SourceConversion(c, v);
    NextStage(c, 1, a, b, v.All(), code);
    if code != 0 { FailsWithFails(c, a, code); return; }
    b := v.All();
    code := SourceMeridian(c, v);
    NextStage(c, 2, a, b, v.All(), code);
    if code != 0 { FailsWithFails(c, a, code); return; }
    b := v.All();
    code := SourceGeoid(c, v);
    NextStage(c, 3, a, b, v.All(), code);
    if code != 0 { FailsWithFails(c, a, code); return; }
    b := v.All();
    code := DatumTransform(c, v);
    NextStage(c, 4, a, b, v.All(), code);
    if code != 0 { FailsWithFails(c, a, code); return; }
    b := v.All();
    code := DestinationGeoid(c, v);
    NextStage(c, 5, a, b, v.All(), code);
    if code != 0 { FailsWithFails(c, a, code); return; }
    b := v.All();
    code := DestinationMeridian(c, v);
    NextStage(c, 6, a, b, v.All(), code);
    if code != 0 { FailsWithFails(c, a, code); return; }
    b := v.All();
    code := DestinationConversion(c, v);
    NextStage(c, 7, a, b, v.All(), code);
    if code != 0 { FailsWithFails(c, a, code); return; }
    b := v.All();
    code := DestinationHeight(c, v);
    NextStage(c, 8, a, b, v.All(), code);
    if code != 0 { FailsWithFails(c, a, code); return; }
    AllStagesRan(c, a, v.All());
    forall i: nat | i < v.n ensures TransformPoint(c, old(v.At(i))) == Ok(v.At(i)) {
      assert a[i] == old(v.At(i)) && v.All()[i] == v.At(i);
    }
  }

  /** Stride 0 stands for 1. */
  function Strided(v: View): (r: View)
    ensures r.stride > 0 && (v.stride <= 1 ==> r.stride == 1) && (v.stride > 0 ==> r == v)
  {
    if v.stride == 0 then v.(stride := 1) else v
  }

  /** Transforms the n points of v.  Returns 0 exactly when the call is not broken and no point fails;
      then every point has been transformed as it would be alone.  Slots of no point are untouched. */
  method TransformAll(c: Call, v: View) returns (code: int)
    requires Strided(v).Valid() && c.hasZ == v.z.Some?
    requires c.single == (v.n == 1)
    requires v.z.None? ==> c.src.geoid.None? && c.dst.geoid.None?
    modifies v.Memory()
    ensures code == 0 <==> !Broken(c) && !SomePointFails(c, old(Strided(v).All()))
    ensures code != 0 ==> FailsWith(c, old(Strided(v).All()), code)
    ensures code == 0 ==> forall i: nat | i < v.n :: TransformPoint(c, old(Strided(v).At(i))) == Ok(Strided(v).At(i))
    ensures Untouched(Strided(v))
  {
    hide TransformPoint, SomePointFails, Broken, FailsWith;
    var stride := v.stride;
    if stride == 0 {
      stride := 1;
    }
    code := TransformStrided(c, v.(stride := stride));
  }

  // ----- Failure marks

  /** The parameters leave a marked longitude marked, as the grid search does. */
  ghost predicate GridsKeepMarks(c: Call) {
    && (c.src.datum.GridDatum? ==> forall b, y :: MarkKept(c.src.datum, b, y))
    && (c.dst.datum.GridDatum? ==> forall b, y :: MarkKept(c.dst.datum, b, y))
  }

  ghost predicate MarkKept(d: Datum, inverse: bool, y: Num)
    requires d.GridDatum?
  {
    var r := d.shift(inverse, Huge, y);
    r.Some? ==> r.value.0.Huge?
  }

  lemma DatumStageKeepsMark(c: Call, k: nat, p: Pt)
    requires GridsKeepMarks(c) && p.x.Huge? && DatumStage(c, k, p).Ok?
    ensures DatumStage(c, k, p).pt.x.Huge?
  {
    if c.src.datum.GridDatum? { assert MarkKept(c.src.datum, false, p.y); }
    if c.dst.datum.GridDatum? { assert MarkKept(c.dst.datum, true, p.y); }
  }

  lemma {:induction false} DatumPrefixKeepsMark(c: Call, k: nat, p: Pt)
    requires GridsKeepMarks(c) && p.x.Huge? && DatumPrefix(c, k, p).Ok?
    ensures DatumPrefix(c, k, p).pt.x.Huge?
  {
    if k > 0 {
      DatumPrefixKeepsMark(c, k - 1, p);
      DatumStageKeepsMark(c, k - 1, DatumPrefix(c, k - 1, p).pt);
    }
  }

  lemma StageKeepsMark(c: Call, k: nat, p: Pt)
    requires GridsKeepMarks(c) && p.x.Huge? && Stage(c, k, p).Ok?
    ensures Stage(c, k, p).pt.x.Huge?
  {
    if k == 4 && ShiftsDatum(c) {
      DatumPrefixKeepsMark(c, DATUM_STAGES, p);
    }
  }

  /** Once a longitude is marked at some stage, it is marked in the result. */
  lemma {:induction false} MarkSticks(c: Call, k: nat, n: nat, p: Pt)
    requires k <= n && GridsKeepMarks(c)
    requires Prefix(c, k, p).Ok? && Prefix(c, k, p).pt.x.Huge? && Prefix(c, n, p).Ok?
    ensures Prefix(c, n, p).pt.x.Huge?
  {
    if k < n {
      MarkSticks(c, k, n - 1, p);
      StageKeepsMark(c, n - 1, Prefix(c, n - 1, p).pt);
    }
  }

  /** Errors of a projection that concern the point alone. */
  predicate PointError(errno: int) {
    errno == 33 || errno == 34 || (-44 <= errno < 0 && Transient(errno))
  }

  /** The projection error that point p, arrived at q, meets in stage k: 1 is the inverse projection of
      the source, 7 the forward projection of the destination. */
  predicate Meets(c: Call, k: nat, q: Pt, errno: int) {
    q.x.Fin? &&
    if k == 1 then
      !c.src.isGeocent && !c.src.isLatlong && c.src.inverse.Some? && c.src.inverse.value(q.x, q.y).errno == errno
    else
      k == 7 && !c.dst.isGeocent && !c.dst.isLatlong && c.dst.forward(q.x, q.y).errno == errno
  }

  lemma MeetsSettles(c: Call, k: nat, q: Pt, errno: int)
    requires Meets(c, k, q, errno) && PointError(errno)
    ensures Stage(c, k, q).Ok? && Stage(c, k, q).pt.x.Huge? <==> !c.single || errno > 0
    ensures c.single && errno < 0 ==> Stage(c, k, q) == Fatal(errno)
  {
  }

  /** In a call with several points, a point whose projection fails with an error of its own goes on,
      marked: if no later stage ends the call, its result is marked. */
  lemma TransientMarks(c: Call, k: nat, p: Pt, errno: int)
    requires !c.single && GridsKeepMarks(c) && PointError(errno)
    requires k < STAGES && Prefix(c, k, p).Ok? && Meets(c, k, Prefix(c, k, p).pt, errno)
    ensures Prefix(c, k + 1, p).Ok? && Prefix(c, k + 1, p).pt.x.Huge?
    ensures TransformPoint(c, p).Ok? ==> TransformPoint(c, p).pt.x.Huge?
  {
    hide Meets, PointError, Stage, GridsKeepMarks;
    MeetsSettles(c, k, Prefix(c, k, p).pt, errno);
    assert Prefix(c, k + 1, p) == Stage(c, k, Prefix(c, k, p).pt);
    if TransformPoint(c, p).Ok? {
      MarkSticks(c, k + 1, STAGES, p);
    }
  }

  /** A call with a single point ends with such an error, unless it is one of the C library's two. */
  lemma LonePointFails(c: Call, k: nat, p: Pt, errno: int)
    requires c.single && PointError(errno) && errno < 0
    requires k < STAGES && Prefix(c, k, p).Ok? && Meets(c, k, Prefix(c, k, p).pt, errno)
    ensures TransformPoint(c, p) == Fatal(errno)
  {
    hide Meets, PointError, Stage;
    MeetsSettles(c, k, Prefix(c, k, p).pt, errno);
    assert Prefix(c, k + 1, p) == Stage(c, k, Prefix(c, k, p).pt);
    FatalStays(c, k + 1, STAGES, p);
  }

  // ----- Datum shift formulas

  /** With three parameters the two directions undo each other. */
  lemma ThreeParamRoundTrip(d: Datum, p: Pt)
    requires d.ThreeParam?
    ensures Then(ToWgs84(d, p), q => FromWgs84(d, q)) == Ok(p)
    ensures Then(FromWgs84(d, p), q => ToWgs84(d, q)) == Ok(p)
  {
  }

  /** The cross product of the rotation angles with the point, componentwise. */
  predicate OnRotationAxis(d: Datum, x: real, y: real, z: real)
    requires d.SevenParam?
  {
    d.ry * z - d.rz * y == 0.0 && d.rz * x - d.rx * z == 0.0 && d.rx * y - d.ry * x == 0.0
  }

  lemma CrossTwice(rx: real, ry: real, rz: real, x: real, y: real, z: real, wx: real, wy: real, wz: real)
    requires wx == ry * z - rz * y && wy == rz * x - rx * z && wz == rx * y - ry * x
    requires ry * wz - rz * wy == 0.0 && rz * wx - rx * wz == 0.0 && rx * wy - ry * wx == 0.0
    ensures wx == 0.0 && wy == 0.0 && wz == 0.0
  {
    // w is orthogonal to r by construction and parallel to it by assumption
    assert rx * wx + ry * wy + rz * wz == 0.0 by {
      assert rx * (ry * z - rz * y) + ry * (rz * x - rx * z) + rz * (rx * y - ry * x) == 0.0;
    }
    SquaresVanish(rx, ry, rz, wx, wy, wz);
    if rx == 0.0 && ry == 0.0 && rz == 0.0 {
      assert wx == 0.0 && wy == 0.0 && wz == 0.0;
    }
  }

  lemma Lagrange(a: real, b: real, c: real, x: real, y: real, z: real)
    ensures (Times(a, a) + Times(b, b) + Times(c, c)) * x
         == a * (a * x + b * y + c * z) - b * (a * y - b * x) + c * (c * x - a * z)
  {
  }

  lemma PositiveProduct(a: real, b: real)
    requires (a > 0.0 && b > 0.0) || (a < 0.0 && b < 0.0)
    ensures Times(a, b) > 0.0
  {
  }

  lemma SquarePositive(a: real)
    ensures Times(a, a) >= 0.0 && (a != 0.0 ==> Times(a, a) > 0.0)
  {
    if a != 0.0 { PositiveProduct(a, a); }
  }

  lemma SumOfSquares(a: real, b: real, c: real)
    ensures Times(a, a) + Times(b, b) + Times(c, c) == 0.0 ==> a == 0.0 && b == 0.0 && c == 0.0
  {
    hide Times;
    SquarePositive(a);
    SquarePositive(b);
    SquarePositive(c);
  }

  lemma ZeroFactor(s: real, x: real)
    requires s * x == 0.0 && s != 0.0
    ensures x == 0.0
  {
  }

  /** Lagrange's identity: vectors that are both orthogonal and parallel are not both nonzero. */
  lemma SquaresVanish(a: real, b: real, c: real, x: real, y: real, z: real)
    requires a * x + b * y + c * z == 0.0
    requires b * z - c * y == 0.0 && c * x - a * z == 0.0 && a * y - b * x == 0.0
    ensures (a == 0.0 && b == 0.0 && c == 0.0) || (x == 0.0 && y == 0.0 && z == 0.0)
  {
    hide Times;
    var s := Times(a, a) + Times(b, b) + Times(c, c);
    SumOfSquares(a, b, c);
    Lagrange(a, b, c, x, y, z);
    Lagrange(b, c, a, y, z, x);
    Lagrange(c, a, b, z, x, y);
    if s != 0.0 {
      ZeroFactor(s, x);
      ZeroFactor(s, y);
      ZeroFactor(s, z);
    }
  }

  /** With seven parameters the two directions undo each other exactly for the points on the axis of
      the rotation, because the inverse negates the angles instead of inverting the matrix. */
  lemma SevenParamRoundTrip(d: Datum, x: real, y: real, z: real)
    requires d.SevenParam? && d.m != 0.0
    ensures Then(ToWgs84(d, Pt(Fin(x), Fin(y), Fin(z))), q => FromWgs84(d, q)) == Ok(Pt(Fin(x), Fin(y), Fin(z)))
            <==> OnRotationAxis(d, x, y, z)
  {
    var (rx, ry, rz) := (d.rx, d.ry, d.rz);
    var wx, wy, wz := ry * z - rz * y, rz * x - rx * z, rx * y - ry * x;
    var q := ToWgs84(d, Pt(Fin(x), Fin(y), Fin(z))).pt;
    Unscale(d.m, x + wx, d.dx, q.x.r);
    Unscale(d.m, y + wy, d.dy, q.y.r);
    Unscale(d.m, z + wz, d.dz, q.z.r);
    var r := FromWgs84(d, q).pt;
    RotateBack(rx, ry, rz, x, y, z, wx, wy, wz, r.x.r, r.y.r, r.z.r);
    if r == Pt(Fin(x), Fin(y), Fin(z)) {
      CrossTwice(rx, ry, rz, x, y, z, wx, wy, wz);
    }
  }

  lemma Unscale(m: real, x: real, d: real, q: real)
    requires m != 0.0 && q == m * x + d
    ensures (q - d) / m == x
  {
  }

  lemma RotateBack(rx: real, ry: real, rz: real, x: real, y: real, z: real, wx: real, wy: real, wz: real,
                   qx: real, qy: real, qz: real)
    requires wx == ry * z - rz * y && wy == rz * x - rx * z && wz == rx * y - ry * x
    requires qx == (x + wx) + rz * (y + wy) - ry * (z + wz)
    requires qy == -rz * (x + wx) + (y + wy) + rx * (z + wz)
    requires qz == ry * (x + wx) - rx * (y + wy) + (z + wz)
    ensures qx == x - (ry * wz - rz * wy)
    ensures qy == y - (rz * wx - rx * wz)
    ensures qz == z - (rx * wy - ry * wx)
  {
  }

  /** An angle of one about the x axis takes (0, 1, 0) to (0, 1, 1), and the way back leads to
      (0, 2, 0). */
  lemma SevenParamExample()
    ensures var d := SevenParam(0.0, 0.0, 0.0, 1.0, 0.0, 0.0, 1.0);
            Then(ToWgs84(d, Pt(Fin(0.0), Fin(1.0), Fin(0.0))), q => FromWgs84(d, q))
              == Ok(Pt(Fin(0.0), Fin(2.0), Fin(0.0)))
            && !OnRotationAxis(d, 0.0, 1.0, 0.0)
  {
  }
}
