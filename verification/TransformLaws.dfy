/** What the transformation does to a point, in arithmetic on its coordinates. */
module TransformLaws {
  import opened Options
  import opened Points
  import opened Reals
  import opened Transform

  function At(x: real, y: real, z: real): Pt {
    Pt(Fin(x), Fin(y), Fin(z))
  }

  // ----- Units

  /** A geocentric coordinate of the system, in metres. */
  function Metres(d: Definition, x: real): real {
    x * d.toMeter
  }

  /** Metres in the unit of the system. */
  function FromMetres(d: Definition, x: real): real {
    x * d.frMeter
  }

  /** A height of the system, in metres. */
  function HeightIn(d: Definition, z: real): real {
    z * d.vtoMeter
  }

  /** A height in metres, in the unit of the system. */
  function HeightOut(d: Definition, z: real): real {
    if d.vtoMeter == 1.0 then z else z * d.vfrMeter
  }

  // ----- The parts of a transformation

  /** The source system's coordinates p stand for the geodetic position q. */
  ghost predicate Enters(c: Call, p: Pt, q: Pt)
    requires p.x.Fin? && p.y.Fin?
  {
    var s := c.src;
    if s.isGeocent then
      c.earth.ellipsoidOk(s.a, s.es)
      && c.earth.toGeodetic(s.a, s.es, Pt(Fin(Metres(s, p.x.r)), Fin(Metres(s, p.y.r)), p.z)) == q
    else if s.isLatlong then q == p
    else s.inverse.Some? && s.inverse.value(p.x, p.y) == Projected(q.x, q.y, 0) && q.z == p.z
  }

  /** The height of the geoid of a system at a position; zero without one. */
  ghost predicate GeoidAt(d: Definition, lam: real, phi: real, g: real) {
    if d.geoid.None? then g == 0.0 else d.geoid.value(Fin(lam), Fin(phi)) == Some(g)
  }

  /** No datum shift takes place: a datum is unknown, or both are the same on the same ellipsoid, up to
      a tolerance that takes GRS80 for WGS84. */
  ghost predicate SameDatums(s: Definition, d: Definition) {
    s.datum == UnknownDatum || d.datum == UnknownDatum ||
    (s.a == d.a && -0.00000000005 <= s.es - d.es <= 0.00000000005 &&
      ((s.datum == Wgs84 && d.datum == Wgs84)
       || (s.datum.ThreeParam? && s.datum == d.datum)
       || (s.datum.SevenParam? && s.datum == d.datum)
       || (s.datum.GridDatum? && d.datum.GridDatum? && s.datum.nadgrids == d.datum.nadgrids)))
  }

  /** The ellipsoid of the geocentric step; grids lead to WGS84. */
  function Ellipsoid(d: Definition): (real, real) {
    if d.datum.GridDatum? then (6378137.0, 0.0066943799901413165) else (d.a, d.es)
  }

  /** Geocentric position q is p moved from the datum to WGS84. */
  predicate MovedToWgs84(d: Datum, p: Pt, q: Pt)
    requires p.x.Fin? && p.y.Fin? && p.z.Fin?
  {
    var (x, y, z) := (p.x.r, p.y.r, p.z.r);
    match d
    case ThreeParam(dx, dy, dz) => q == At(x + dx, y + dy, z + dz)
    case SevenParam(dx, dy, dz, rx, ry, rz, m) =>
      q == At(m * (x - rz * y + ry * z) + dx, m * (rz * x + y - rx * z) + dy, m * (-ry * x + rx * y + z) + dz)
    case _ => q == p
  }

  /** Geocentric position q is p moved from WGS84 to the datum. */
  predicate MovedFromWgs84(d: Datum, p: Pt, q: Pt)
    requires p.x.Fin? && p.y.Fin? && p.z.Fin?
  {
    match d
    case ThreeParam(dx, dy, dz) => q == At(p.x.r - dx, p.y.r - dy, p.z.r - dz)
    case SevenParam(dx, dy, dz, rx, ry, rz, m) =>
      m != 0.0 &&
      var (x, y, z) := ((p.x.r - dx) / m, (p.y.r - dy) / m, (p.z.r - dz) / m);
      q == At(x + rz * y - ry * z, -rz * x + y + rx * z, ry * x - rx * y + z)
    case _ => q == p
  }

  /** A grid datum moves longitude and latitude, another one does not. */
  ghost predicate ByGrid(d: Datum, inverse: bool, p: Pt, q: Pt) {
    if d.GridDatum? then d.shift(inverse, p.x, p.y) == Some((q.x, q.y)) && q.z == p.z else q == p
  }

  /** The positions a datum shift passes: behind the source grid, geocentric, on WGS84, on the
      destination datum, and geodetic again. */
  datatype Path = Path(source: Pt, geocentric: Pt, wgs84: Pt, dest: Pt, geodetic: Pt)

  function Finite(p: Pt): bool {
    p.x.Fin? && p.y.Fin? && p.z.Fin?
  }

  /** Whether a datum shift has to go through geocentric coordinates. */
  predicate NeedsGeocentric(c: Call) {
    Ellipsoid(c.src) != Ellipsoid(c.dst) || c.src.datum.ThreeParam? || c.src.datum.SevenParam?
    || c.dst.datum.ThreeParam? || c.dst.datum.SevenParam?
  }

  /** The datum shift takes p to q. */
  ghost predicate DatumMoves(c: Call, p: Pt, via: Path, q: Pt) {
    if SameDatums(c.src, c.dst) then q == p
    else
      && Finite(via.source) && Finite(via.geocentric) && Finite(via.wgs84) && Finite(via.dest)
      && ByGrid(c.src.datum, false, p, via.source) && ByGrid(c.dst.datum, true, via.geodetic, q)
      && if !NeedsGeocentric(c) then via.geodetic == via.source
         else
           var (e, f) := (Ellipsoid(c.src), Ellipsoid(c.dst));
           && c.earth.ellipsoidOk(e.0, e.1) && c.earth.ellipsoidOk(f.0, f.1)
           && c.earth.toGeocentric(e.0, e.1, via.source) == Some(via.geocentric)
           && MovedToWgs84(c.src.datum, via.geocentric, via.wgs84)
           && MovedFromWgs84(c.dst.datum, via.wgs84, via.dest)
           && c.earth.toGeodetic(f.0, f.1, via.dest) == via.geodetic
  }

  /** The geodetic position p becomes q in the destination system. */
  ghost predicate Leaves(c: Call, p: Pt, q: Pt)
    requires p.x.Fin?
  {
    var d := c.dst;
    if d.isGeocent then
      c.earth.ellipsoidOk(d.a, d.es) &&
      match c.earth.toGeocentric(d.a, d.es, p)
      case None => false
      case Some(g) => Finite(g) && q == At(FromMetres(d, g.x.r), FromMetres(d, g.y.r), g.z.r)
    else if !d.isLatlong then d.forward(p.x, p.y) == Projected(q.x, q.y, 0) && q.z == p.z
    else d.wrapCenter.None? && q == p
  }

  // ----- The whole transformation

  lemma {:induction false} PrefixIs(c: Call, q: seq<Pt>, k: nat)
    requires |q| == STAGES + 1 && forall i | 0 <= i < STAGES :: Stage(c, i, q[i]) == Ok(q[i+1])
    requires k <= STAGES
    ensures Prefix(c, k, q[0]) == Ok(q[k])
  {
    hide Stage;
    if k > 0 { PrefixIs(c, q, k - 1); }
  }

  lemma NineStages(c: Call, p0: Pt, p1: Pt, p2: Pt, p3: Pt, p4: Pt, p5: Pt, p6: Pt, p7: Pt, p8: Pt, p9: Pt)
    requires Stage(c, 0, p0) == Ok(p1) && Stage(c, 1, p1) == Ok(p2) && Stage(c, 2, p2) == Ok(p3)
    requires Stage(c, 3, p3) == Ok(p4) && Stage(c, 4, p4) == Ok(p5) && Stage(c, 5, p5) == Ok(p6)
    requires Stage(c, 6, p6) == Ok(p7) && Stage(c, 7, p7) == Ok(p8) && Stage(c, 8, p8) == Ok(p9)
    ensures TransformPoint(c, p0) == Ok(p9)
  {
    hide Stage;
    PrefixIs(c, [p0, p1, p2, p3, p4, p5, p6, p7, p8, p9], STAGES);
  }

  lemma SameDatumsIs(c: Call)
    ensures SameDatums(c.src, c.dst) <==> !ShiftsDatum(c)
  {
  }

  lemma Scaled(d: Definition, x: real)
    ensures MulNum(Fin(x), d.toMeter) == Fin(Metres(d, x)) && (d.toMeter == 1.0 ==> Metres(d, x) == x)
    ensures MulNum(Fin(x), d.frMeter) == Fin(FromMetres(d, x)) && (d.frMeter == 1.0 ==> FromMetres(d, x) == x)
    ensures MulNum(Fin(x), d.vtoMeter) == Fin(HeightIn(d, x)) && (d.vtoMeter == 1.0 ==> HeightIn(d, x) == x)
    ensures d.vtoMeter != 1.0 ==> MulNum(Fin(x), d.vfrMeter) == Fin(HeightOut(d, x))
    ensures d.vtoMeter == 1.0 ==> HeightOut(d, x) == x
  {
    var n := Fin(x);
    assert n.r == x;
  }

  lemma EntersIs(c: Call, p: Pt, q: Pt)
    requires c.hasZ && p.x.Fin? && p.y.Fin? && Enters(c, p, q)
    ensures Stage(c, 1, p) == Ok(q)
  {
    hide MulNum, Metres;
    Scaled(c.src, p.x.r);
    Scaled(c.src, p.y.r);
  }

  lemma LeavesIs(c: Call, p: Pt, q: Pt)
    requires c.hasZ && p.x.Fin? && Leaves(c, p, q)
    ensures Stage(c, 7, p) == Ok(q)
  {
    hide MulNum, FromMetres;
    if c.dst.isGeocent {
      var g := c.earth.toGeocentric(c.dst.a, c.dst.es, p).value;
      Scaled(c.dst, g.x.r);
      Scaled(c.dst, g.y.r);
    }
  }

  lemma {:induction false} DatumPrefixIs(c: Call, q: seq<Pt>, k: nat)
    requires |q| == DATUM_STAGES + 1 && forall i | 0 <= i < DATUM_STAGES :: DatumStage(c, i, q[i]) == Ok(q[i+1])
    requires k <= DATUM_STAGES
    ensures DatumPrefix(c, k, q[0]) == Ok(q[k])
  {
    hide DatumStage;
    if k > 0 { DatumPrefixIs(c, q, k - 1); }
  }

  lemma DatumMovesIs(c: Call, p: Pt, via: Path, q: Pt)
    requires c.hasZ && p.x.Fin? && DatumMoves(c, p, via, q)
    ensures Stage(c, 4, p) == Ok(q)
  {
    SameDatumsIs(c);
    hide SameDatum;
    if !SameDatums(c.src, c.dst) {
      hide SameDatums;
      var a := via.source;
      if NeedsGeocentric(c) {
        GeocentricStages(c, via);
        DatumPrefixIs(c, [p, a, via.geocentric, via.wgs84, via.dest, via.geodetic, q], DATUM_STAGES);
      } else {
        DatumPrefixIs(c, [p, a, a, a, a, a, q], DATUM_STAGES);
      }
    }
  }

  lemma HelmertMoves(d: Datum, p: Pt, q: Pt)
    requires Finite(p)
    ensures MovedToWgs84(d, p, q) ==> ToWgs84(d, p) == Ok(q)
    ensures MovedFromWgs84(d, p, q) ==> FromWgs84(d, p) == Ok(q)
  {
  }

  lemma GeocentricStages(c: Call, via: Path)
    requires Finite(via.source) && Finite(via.geocentric) && Finite(via.wgs84) && Finite(via.dest) && NeedsGeocentric(c)
    requires var (e, f) := (Ellipsoid(c.src), Ellipsoid(c.dst));
             && c.earth.ellipsoidOk(e.0, e.1) && c.earth.ellipsoidOk(f.0, f.1)
             && c.earth.toGeocentric(e.0, e.1, via.source) == Some(via.geocentric)
             && MovedToWgs84(c.src.datum, via.geocentric, via.wgs84)
             && MovedFromWgs84(c.dst.datum, via.wgs84, via.dest)
             && c.earth.toGeodetic(f.0, f.1, via.dest) == via.geodetic
    ensures DatumStage(c, 1, via.source) == Ok(via.geocentric)
    ensures DatumStage(c, 2, via.geocentric) == Ok(via.wgs84)
    ensures DatumStage(c, 3, via.wgs84) == Ok(via.dest)
    ensures DatumStage(c, 4, via.dest) == Ok(via.geodetic)
  {
    HelmertMoves(c.src.datum, via.geocentric, via.wgs84);
    HelmertMoves(c.dst.datum, via.wgs84, via.dest);
    hide MovedToWgs84, MovedFromWgs84, ToWgs84, FromWgs84;
  }

  /** A point's way through the whole transformation: heights in units of the source and of the
      destination, the conversions of both systems, the prime meridians added and subtracted, the
      geoids added and subtracted, and the datum shift in between. */
  lemma WholeTransform(c: Call, x: real, y: real, z: real, lam: real, phi: real, h: real, g: real, via: Path,
                       lam': real, phi': real, h': real, g': real, X: real, Y: real, Z: real)
    requires c.hasZ
    requires Enters(c, At(x, y, HeightIn(c.src, z)), At(lam, phi, h))
    requires GeoidAt(c.src, lam + c.src.fromGreenwich, phi, g)
    requires DatumMoves(c, At(lam + c.src.fromGreenwich, phi, h + g), via, At(lam', phi', h'))
    requires GeoidAt(c.dst, lam', phi', g')
    requires Leaves(c, At(lam' - c.dst.fromGreenwich, phi', h' - g'), At(X, Y, Z))
    ensures TransformPoint(c, At(x, y, z)) ==
      Ok(At(X, Y, HeightOut(c.dst, Z)))
  {
    var west, east := c.src.fromGreenwich, c.dst.fromGreenwich;
    var p1, p2 := At(x, y, HeightIn(c.src, z)), At(lam, phi, h);
    var p3, p4 := At(lam + west, phi, h), At(lam + west, phi, h + g);
    var p5, p6, p7 := At(lam', phi', h'), At(lam', phi', h' - g'), At(lam' - east, phi', h' - g');
    EntersIs(c, p1, p2);
    DatumMovesIs(c, p4, via, p5);
    LeavesIs(c, p7, At(X, Y, Z));
    FirstAndLast(c, x, y, z);
    FirstAndLast(c, lam, phi, h);
    FirstAndLast(c, lam', phi', h' - g');
    FirstAndLast(c, X, Y, Z);
    GeoidStages(c, lam + west, phi, h, g);
    GeoidStages(c, lam', phi', h', g');
    hide HeightIn, HeightOut, Stage, Enters, Leaves, DatumMoves, GeoidAt, TransformPoint;
    NineStages(c, At(x, y, z), p1, p2, p3, p4, p5, p6, p7, At(X, Y, Z),
               At(X, Y, HeightOut(c.dst, Z)));
  }

  lemma FirstAndLast(c: Call, x: real, y: real, z: real)
    requires c.hasZ
    ensures Stage(c, 0, At(x, y, z)) == Ok(At(x, y, HeightIn(c.src, z)))
    ensures Stage(c, 2, At(x, y, z)) == Ok(At(x + c.src.fromGreenwich, y, z))
    ensures Stage(c, 6, At(x, y, z)) == Ok(At(x - c.dst.fromGreenwich, y, z))
    ensures Stage(c, 8, At(x, y, z)) == Ok(At(x, y, HeightOut(c.dst, z)))
  {
    hide MulNum, HeightIn, HeightOut;
    Scaled(c.src, z);
    Scaled(c.dst, z);
  }

  lemma GeoidStages(c: Call, x: real, y: real, z: real, g: real)
    requires c.hasZ
    ensures GeoidAt(c.src, x, y, g) ==> Stage(c, 3, At(x, y, z)) == Ok(At(x, y, z + g))
    ensures GeoidAt(c.dst, x, y, g) ==> Stage(c, 5, At(x, y, z)) == Ok(At(x, y, z - g))
  {
  }

  /** A system of longitudes and latitudes. */
  predicate LatLong(d: Definition) {
    !d.isGeocent && d.isLatlong && d.wrapCenter.None?
  }

  /** Between systems of longitudes and latitudes without a datum shift. */
  lemma BetweenLatLong(c: Call, x: real, y: real, z: real, g: real, h: real)
    requires c.hasZ && LatLong(c.src) && LatLong(c.dst) && SameDatums(c.src, c.dst)
    requires GeoidAt(c.src, x + c.src.fromGreenwich, y, g) && GeoidAt(c.dst, x + c.src.fromGreenwich, y, h)
    ensures TransformPoint(c, At(x, y, z)) == Ok(At(x + c.src.fromGreenwich - c.dst.fromGreenwich, y,
                                                    HeightOut(c.dst, HeightIn(c.src, z) + g - h)))
  {
    hide TransformPoint, SameDatums, GeoidAt, HeightIn, HeightOut;
    var lam, p := x + c.src.fromGreenwich, At(x, y, z);
    var a := HeightIn(c.src, z);
    WholeTransform(c, x, y, z, x, y, a, g, Path(p, p, p, p, p), lam, y, a + g, h,
                   lam - c.dst.fromGreenwich, y, a + g - h);
  }

  /** Without heights nothing but the longitude changes. */
  lemma BetweenLatLongFlat(c: Call, x: real, y: real)
    requires !c.hasZ && LatLong(c.src) && LatLong(c.dst) && SameDatums(c.src, c.dst)
    requires c.src.geoid.None? && c.dst.geoid.None?
    ensures TransformPoint(c, At(x, y, 0.0)) == Ok(At(x + c.src.fromGreenwich - c.dst.fromGreenwich, y, 0.0))
  {
    SameDatumsIs(c);
    hide SameDatums, TransformPoint;
    var p, q := At(x, y, 0.0), At(x + c.src.fromGreenwich, y, 0.0);
    var r := At(x + c.src.fromGreenwich - c.dst.fromGreenwich, y, 0.0);
    NineStages(c, p, p, p, q, q, q, q, r, r, r);
  }

  /** From geocentric coordinates, which are converted in metres, without a datum shift. */
  lemma FromGeocentric(c: Call, x: real, y: real, z: real, lam: real, phi: real, h: real)
    requires c.hasZ && c.src.isGeocent && LatLong(c.dst) && SameDatums(c.src, c.dst)
    requires c.src.geoid.None? && c.dst.geoid.None? && c.earth.ellipsoidOk(c.src.a, c.src.es)
    requires c.earth.toGeodetic(c.src.a, c.src.es, At(Metres(c.src, x), Metres(c.src, y), HeightIn(c.src, z)))
             == At(lam, phi, h)
    ensures TransformPoint(c, At(x, y, z)) == Ok(At(lam + c.src.fromGreenwich - c.dst.fromGreenwich, phi,
                                                    HeightOut(c.dst, h)))
  {
    hide TransformPoint, SameDatums, HeightIn, HeightOut, Metres, FromMetres;
    var p := At(x, y, z);
    WholeTransform(c, x, y, z, lam, phi, h, 0.0, Path(p, p, p, p, p), lam + c.src.fromGreenwich, phi, h, 0.0,
                   lam + c.src.fromGreenwich - c.dst.fromGreenwich, phi, h);
  }

  /** To geocentric coordinates: the horizontal ones in units of the destination. */
  lemma ToGeocentricCoordinates(c: Call, x: real, y: real, z: real, X: real, Y: real, Z: real)
    requires c.hasZ && LatLong(c.src) && c.dst.isGeocent && SameDatums(c.src, c.dst)
    requires c.src.geoid.None? && c.dst.geoid.None? && c.earth.ellipsoidOk(c.dst.a, c.dst.es)
    requires c.earth.toGeocentric(c.dst.a, c.dst.es, At(x + c.src.fromGreenwich - c.dst.fromGreenwich, y,
                                                        HeightIn(c.src, z))) == Some(At(X, Y, Z))
    ensures TransformPoint(c, At(x, y, z)) ==
      Ok(At(FromMetres(c.dst, X), FromMetres(c.dst, Y), HeightOut(c.dst, Z)))
  {
    hide TransformPoint, SameDatums, HeightIn, HeightOut, Metres, FromMetres;
    var lam, p, a := x + c.src.fromGreenwich, At(x, y, z), HeightIn(c.src, z);
    WholeTransform(c, x, y, z, x, y, a, 0.0, Path(p, p, p, p, p), lam, y, a, 0.0,
                   FromMetres(c.dst, X), FromMetres(c.dst, Y), Z);
  }

  // ----- Wrapping

  /** y is x turned by whole turns to within half a turn of the centre; it is x if x was there. */
  ghost predicate Wrapped(center: real, x: real, y: real) {
    && center - PI <= y <= center + PI && (exists k: int :: Turned(x, y, k))
    && (center - PI <= x <= center + PI ==> y == x)
  }

  lemma {:induction false} SameUntilWrap(c: Call, d: Call, k: nat, p: Pt)
    requires d == c.(dst := c.dst.(wrapCenter := None)) && k <= 7
    ensures Prefix(c, k, p) == Prefix(d, k, p)
  {
    if k > 0 {
      SameUntilWrap(c, d, k - 1, p);
      SameStage(c, d, k - 1);
    }
  }

  lemma SameStage(c: Call, d: Call, k: nat)
    requires d == c.(dst := c.dst.(wrapCenter := None)) && k < 7
    ensures forall q :: Stage(c, k, q) == Stage(d, k, q)
  {
    hide DatumPrefix;
    if k == 4 {
      forall q ensures DatumPrefix(c, DATUM_STAGES, q) == DatumPrefix(d, DATUM_STAGES, q) {
        SameDatumStages(c, d, DATUM_STAGES, q);
      }
    }
  }

  lemma {:induction false} SameDatumStages(c: Call, d: Call, k: nat, p: Pt)
    requires d == c.(dst := c.dst.(wrapCenter := None))
    ensures DatumPrefix(c, k, p) == DatumPrefix(d, k, p)
  {
    if k > 0 { SameDatumStages(c, d, k - 1, p); }
  }

  /** A wrapping centre only wraps the longitude of what the transformation yields without it. */
  lemma WrappedAtTheEnd(c: Call, center: real, p: Pt, r: Pt)
    requires !c.dst.isGeocent && c.dst.isLatlong && c.dst.wrapCenter == Some(center)
    requires TransformPoint(c.(dst := c.dst.(wrapCenter := None)), p) == Ok(r) && r.x.Fin?
    ensures TransformPoint(c, p).Ok?
    ensures var q := TransformPoint(c, p).pt;
            q.x.Fin? && Wrapped(center, r.x.r, q.x.r) && q.y == r.y && q.z == r.z
  {
    var d := c.(dst := c.dst.(wrapCenter := None));
    SameUntilWrap(c, d, 7, p);
    hide WrapPoint;
    var q := Prefix(c, 7, p);
    assert Prefix(c, 8, p) == Then(q, s => Stage(c, 7, s)) && Prefix(d, 8, p) == Then(q, s => Stage(d, 7, s));
    assert Prefix(c, 9, p) == Then(Prefix(c, 8, p), s => Stage(c, 8, s));
    assert Prefix(d, 9, p) == Then(Prefix(d, 8, p), s => Stage(d, 8, s));
    WrapRange(center, q.pt);
    WrapKeeps(center, q.pt);
  }

  lemma WrapKeeps(center: real, p: Pt)
    ensures WrapPoint(center, p).Ok? && WrapPoint(center, p).pt.y == p.y && WrapPoint(center, p).pt.z == p.z
  {
  }

  // ----- Errors

  /** A geocentric source without heights or on a bad ellipsoid, a projection without an inverse, and a
      point outside every geoid grid are errors of the call. */
  lemma SourceErrors(c: Call, p: Pt)
    ensures c.src.isGeocent && (!c.hasZ || !c.earth.ellipsoidOk(c.src.a, c.src.es)) ==>
      TransformPoint(c, p) == Fatal(-45)
    ensures !c.src.isGeocent && !c.src.isLatlong && c.src.inverse.None? ==> TransformPoint(c, p) == Fatal(-17)
    ensures StageBroken(c, 1) ==> TransformPoint(c, p) == Fatal(StageError(c, 1))
  {
    hide DatumShift, GeodeticToDestination;
    assert Prefix(c, 1, p).Ok?;
    assert Prefix(c, 2, p) == Then(Prefix(c, 1, p), q => Stage(c, 1, q));
    if Prefix(c, 2, p).Fatal? { FatalStays(c, 2, STAGES, p); }
  }

  lemma FirstStages(c: Call, x: real, y: real, z: real)
    requires c.hasZ && LatLong(c.src)
    ensures Prefix(c, 3, At(x, y, z)) == Ok(At(x + c.src.fromGreenwich, y, HeightIn(c.src, z)))
  {
    var p := At(x, y, z);
    FirstAndLast(c, x, y, z);
    FirstAndLast(c, x, y, HeightIn(c.src, z));
    hide HeightIn, HeightOut;
    assert Prefix(c, 1, p) == Then(Prefix(c, 0, p), q => Stage(c, 0, q));
    assert Prefix(c, 2, p) == Then(Prefix(c, 1, p), q => Stage(c, 1, q));
    assert Prefix(c, 3, p) == Then(Prefix(c, 2, p), q => Stage(c, 2, q));
  }

  /** So is a point outside every geoid grid. */
  lemma OutsideGeoid(c: Call, x: real, y: real, z: real)
    requires c.hasZ && LatLong(c.src) && c.src.geoid.Some?
    requires c.src.geoid.value(Fin(x + c.src.fromGreenwich), Fin(y)) == None
    ensures TransformPoint(c, At(x, y, z)) == Fatal(-48)
  {
    FirstStages(c, x, y, z);
    assert Prefix(c, 4, At(x, y, z)) == Then(Prefix(c, 3, At(x, y, z)), q => Stage(c, 3, q));
    FatalStays(c, 4, STAGES, At(x, y, z));
  }

  /** Which errors of an inverse projection end the call: with several points all but the C library's two
      and seven of the library's own, with a single point all but the two. */
  lemma InverseErrors(c: Call, x: real, y: real, z: real, e: int)
    requires c.hasZ && !c.src.isGeocent && !c.src.isLatlong && c.src.inverse.Some?
    requires c.src.inverse.value(Fin(x), Fin(y)).errno == e != 0
    requires e != 33 && e != 34 && (c.single || e !in {-14, -15, -17, -18, -19, -20, -27})
    ensures TransformPoint(c, At(x, y, z)) == Fatal(e)
  {
    var p := At(x, y, z);
    FirstAndLast(c, x, y, z);
    hide HeightIn, HeightOut;
    assert Prefix(c, 1, p) == Then(Prefix(c, 0, p), q => Stage(c, 0, q));
    assert Prefix(c, 2, p) == Then(Prefix(c, 1, p), q => Stage(c, 1, q));
    FatalStays(c, 2, STAGES, p);
  }

  /** The others mark the point, which passes the rest of the transformation with its marks. */
  lemma InverseMarks(c: Call, x: real, y: real, z: real, e: int)
    requires c.hasZ && !c.src.isGeocent && !c.src.isLatlong && c.src.inverse.Some?
    requires LatLong(c.dst) && SameDatums(c.src, c.dst) && c.src.geoid.None? && c.dst.geoid.None?
    requires c.src.inverse.value(Fin(x), Fin(y)).errno == e
    requires e == 33 || e == 34 || (!c.single && e in {-14, -15, -17, -18, -19, -20, -27})
    ensures TransformPoint(c, At(x, y, z)) == Ok(Pt(Huge, Huge, Fin(HeightOut(c.dst, HeightIn(c.src, z)))))
  {
    var p, q := At(x, y, HeightIn(c.src, z)), Pt(Huge, Huge, Fin(HeightIn(c.src, z)));
    FirstAndLast(c, x, y, z);
    Scaled(c.dst, HeightIn(c.src, z));
    SameDatumsIs(c);
    hide SameDatums, TransformPoint, HeightIn, HeightOut, MulNum;
    NineStages(c, At(x, y, z), p, q, q, q, q, q, q, q, Pt(Huge, Huge, Fin(HeightOut(c.dst, HeightIn(c.src, z)))));
  }
}
