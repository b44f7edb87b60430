# Verified model of numeric, parsing and caching code of the UNDERSEA tree

The project models those parts of the repository whose behaviour is exact: the vendored PROJ 4.8.0
library's Chebyshev series compiler and its evaluators, summation loops, the coordinate
transformation pipeline, text codecs, the grid file format, the caches, grid shifts and hexagon
binning, and the sensor schedule of UNDERSEA. It is written for Dafny 4.11; the command
`dafny verify dfyconfig.toml` verifies the whole project.

Code that works step by step is modelled by methods on arrays and classes and proved against
functions on values; what the source promises is proved about those functions.

## Layout

- `Sums`, `ChebyshevPolynomials`, `PowerSeries`, `Cosines`, `Uv`: sums, Chebyshev and power series,
  discrete orthogonality. `Bchgen`, `Bch2bps`, `MkCheby`, `Biveval`: the series compiler and its
  evaluators. Main results: `Bch2bps.Convert`, `MkCheby.ModesAgree`, `MkCheby.ResidualBounds`,
  `MkCheby.SamplesReproduced`.
- `Complexes`, `EtMerc`, `Zpoly1`: Clenshaw sums of sine series, complex Horner with derivative.
- `Points`, `Transform`: strided coordinate arrays and the transformation pipeline. `TransformLaws`: what
  it does to a point, in arithmetic.
- `CStrings`, `Decimals`, `Dms`: printing and reading degrees, minutes and seconds. `DmsReading`,
  `DmsPrinting`: the texts character by character.
- `Params`, `Definitions`: definition strings. `InitCache`: the init-file cache.
- `Reals`, `Options`: shared elementary definitions.
- `GridTables`, `GridList`: the list of loaded grids. `Bilinear`, `GridShift`: interpolation, forward
  and inverse shift; `GridInverse`: what the iterated inverse achieves; `GridSearch`: choice of the
  table for each point; `DatumGrids`: the search as a stage of the transformation. `AsciiTable`,
  `ByteOrder`, `Nad2bin`, `GridInfo`: the ASCII table and the NTv2 file. `GridFiles`, `GridBytes`: files
  of many grids, and their bytes.
- `Hexbin`: hexagon cells. `Sensor`: the sensor schedule.

## Conventions

- A `double` is a real and arithmetic is exact; `HUGE_VAL` is a distinguished value. Cosine and pi
  are parameters of the series compiler, subject to `Cosines.CosineLaws` (value 1 at zero, bound 1,
  addition theorem, zeros at odd multiples of pi/2, decreasing on [0, pi]); sines and cosines are
  parameters of `EtMerc` and `Hexbin`. Where the source has its own literal for pi it is used.
- Projections, geocentric conversions, geoid and grid lookups are function parameters of `Transform`;
  `DatumGrids` puts the grid search in the place of the grid lookup. Files are functions from names to
  contents, or byte sequences. How a host encodes a number is a parameter (`Nad2bin.Codec`); the round
  trip asks that the numbers of the table survive encoding.
- `int` is unbounded except where its width matters: cell counts and degrees are below 2^31.

## Where the code differs from its comments or from what one would expect

- `rows` in `bch2bps.c` asks for n - 1 slots for `dd` but writes n; the model has n.
- A series in which a component keeps no coefficient has degree -1; in Chebyshev mode it must not be
  evaluated (`MkCheby.EvaluableIff`, `MkCheby.ZeroComponent`). When `bchgen` fails, `mk_cheby` returns
  an indeterminate pointer; the model returns none.
- `nad_cvt`: the loop test joins the axes with "and", so one quiet axis ends the loop
  (`GridInverse.InverseStopsEarly`). The last step is within the tolerance on both axes exactly
  when the first step that is so on one axis is so on the other (`GridInverse.FirstQuietDecides`); if the
  shift at the target is small, both axes are always solved (`GridInverse.SolvesBothAxes`). The step of a
  tenth round does not count (`GridInverse.SolveFailsIff`); a lookup off the grid returns the last
  guess, not the first approximation that the comment names.
- `gatg` with one coefficient ignores it.
- The seven-parameter datum shift is undone exactly only on the rotation axis
  (`Transform.SevenParamRoundTrip`, `Transform.SevenParamExample`).
- Without digits after the point `rtodms` strips zeros from the seconds themselves
  (`Dms.RoundTripExample`); the round trip holds exactly when that does not happen (`Dms.RoundTrip`).
- `nad2bin` leaves the accuracy values of all cells but the first of a row indeterminate, although
  the comment says zero; the reader skips them. Axes that run downwards are written but cannot be
  read back (`GridInfo.DownwardExample`).
- A parameter that starts with a plus loses it when its definition is printed and read
  (`Definitions.ListRoundTrip`).
- `Sensor::Iterate` notices the end of a change and the start of the next one in different ticks
  (`Sensor.RateInForce`, `Sensor.LagExample`).
- `hex_xy` is said to round down "so x-1"; the code divides x itself, which is right because the
  division truncates (`Hexbin.RowIs`).

## Model

| member | source | states |
|---|---|---|
| Bch2bps.Rows | moos-ivp/MOOS_V10.0.3_May1215/proj-4.8.0/src/bch2bps.c:33-61 | the d and dd recurrences on one row leave exactly the coefficients of the power series that has the values of the Chebyshev series |
| Bch2bps.RowsStep | moos-ivp/MOOS_V10.0.3_May1215/proj-4.8.0/src/bch2bps.c:42-53 | one round of the recurrence turns the coefficients of two neighbouring Clenshaw remainders into those of the next pair, in place |
| Bch2bps.Cols | moos-ivp/MOOS_V10.0.3_May1215/proj-4.8.0/src/bch2bps.c:62-87 | the same on all columns at once, by whole-row operations |
| Bch2bps.ColsStep | moos-ivp/MOOS_V10.0.3_May1215/proj-4.8.0/src/bch2bps.c:72-81 | one round over whole rows moves every column on to its next pair of remainders |
| Bch2bps.RowShift | moos-ivp/MOOS_V10.0.3_May1215/proj-4.8.0/src/bch2bps.c:88-106 | scaling and repeated subtraction of the right neighbour recentre a row in place from [-1, 1] to [a, b] |
| Bch2bps.ColShift | moos-ivp/MOOS_V10.0.3_May1215/proj-4.8.0/src/bch2bps.c:107-122 | the same for all columns |
| Bch2bps.Convert | moos-ivp/MOOS_V10.0.3_May1215/proj-4.8.0/src/bch2bps.c:123-140 | for every matrix and every range with a != b the coefficients left in c evaluate, at every point, to the double Chebyshev sum at the scaled point; with nu or nv below one nothing happens |
| PowerSeries.CoefsAreClenshaw | moos-ivp/MOOS_V10.0.3_May1215/proj-4.8.0/src/bch2bps.c:42-53 | the coefficient vectors of the recurrence evaluate to Clenshaw's remainders |
| PowerSeries.ToPowerMeans | moos-ivp/MOOS_V10.0.3_May1215/proj-4.8.0/src/bch2bps.c:33-61 | the converted row has the values of the Chebyshev series at every argument |
| PowerSeries.ShiftMeans | moos-ivp/MOOS_V10.0.3_May1215/proj-4.8.0/src/bch2bps.c:100-105 | the repeated passes substitute x - h for the argument of any power series |
| PowerSeries.RecentreMeans | moos-ivp/MOOS_V10.0.3_May1215/proj-4.8.0/src/bch2bps.c:88-106 | row adjustment substitutes (2x - a - b)/(b - a) for the argument |
| PowerSeries.ToPower2Means | moos-ivp/MOOS_V10.0.3_May1215/proj-4.8.0/src/bch2bps.c:130-137 | rows then columns: the double power series has the values of the double Chebyshev series |
| Bchgen.Sample | moos-ivp/MOOS_V10.0.3_May1215/proj-4.8.0/src/bchgen.c:9-19 | samples row by row and stops at the first point without a value |
| Bchgen.TransformColumn | moos-ivp/MOOS_V10.0.3_May1215/proj-4.8.0/src/bchgen.c:22-36 | a column is overwritten, by way of a buffer, with 2/nu times its sums against the cosine table |
| Bchgen.TransformAllRows | moos-ivp/MOOS_V10.0.3_May1215/proj-4.8.0/src/bchgen.c:38-55 | although each new row lives in the buffer handed on from the row before, the result is the transform of every row of the old matrix and rows stay separate |
| Bchgen.Generate | moos-ivp/MOOS_V10.0.3_May1215/proj-4.8.0/src/bchgen.c:3-58 | fails exactly when some sample has no value; otherwise f holds (2/nu)(2/nv) times the double sums of the samples against both tables |
| Bchgen.GeneratedInterpolates | moos-ivp/MOOS_V10.0.3_May1215/proj-4.8.0/src/bchgen.c:9-57 | the series with the generated coefficients takes the sampled value at every sample node |
| Cosines.TableOrthogonal | moos-ivp/MOOS_V10.0.3_May1215/proj-4.8.0/src/bchgen.c:26-28 | discrete orthogonality of the cosine table, derived from the addition theorem and the zeros and monotonicity of the cosine |
| Cosines.TransformInterpolates | moos-ivp/MOOS_V10.0.3_May1215/proj-4.8.0/src/bchgen.c:39-52 | one-dimensional interpolation at the nodes |
| ChebyshevPolynomials.Bounded | moos-ivp/MOOS_V10.0.3_May1215/proj-4.8.0/src/mk_cheby.c:2-16 | T(n, x) stays within [-1, 1] on [-1, 1]: a truncated coefficient costs at most its absolute value |
| ChebyshevPolynomials.Pell | moos-ivp/MOOS_V10.0.3_May1215/proj-4.8.0/src/mk_cheby.c:2-16 | T(n)^2 + (1 - x^2) V(n)^2 == 1 |
| ChebyshevPolynomials.ClenshawSums | moos-ivp/MOOS_V10.0.3_May1215/proj-4.8.0/src/biveval.c:4-29 | the backward recurrence with its special last step sums the series whose first coefficient counts half |
| ChebyshevPolynomials.ChristoffelDarboux | moos-ivp/MOOS_V10.0.3_May1215/proj-4.8.0/src/bchgen.c:39-52 | closed form of the kernel that makes the transform orthogonal |
| ChebyshevPolynomials.RootsOrthogonal | moos-ivp/MOOS_V10.0.3_May1215/proj-4.8.0/src/bchgen.c:39-52 | at two nodes the kernel is n/2 if they coincide and zero otherwise |
| Biveval.RowRemainders | moos-ivp/MOOS_V10.0.3_May1215/proj-4.8.0/src/biveval.c:10-14 | the inner Clenshaw loop |
| Biveval.Ceval | moos-ivp/MOOS_V10.0.3_May1215/proj-4.8.0/src/biveval.c:4-29 | nested Clenshaw summation over ragged and empty rows is the double series |
| Biveval.Bcheval | moos-ivp/MOOS_V10.0.3_May1215/proj-4.8.0/src/biveval.c:31-48 | scales the argument, rejects scaled arguments beyond 1.00001, and otherwise gives the double series of both components |
| Biveval.Bpseval | moos-ivp/MOOS_V10.0.3_May1215/proj-4.8.0/src/biveval.c:50-76 | nested Horner over ragged and empty rows is the double power series |
| Biveval.Evaluate | moos-ivp/MOOS_V10.0.3_May1215/proj-4.8.0/src/biveval.c:78-86 | the entry point gives what the compiled series means, in either mode |
| MkCheby.Eval | moos-ivp/MOOS_V10.0.3_May1215/proj-4.8.0/src/mk_cheby.c:2-16 | the residual is the sum of the absolute values of the coefficients below the cut-off, for both components |
| MkCheby.LossOfRows | moos-ivp/MOOS_V10.0.3_May1215/proj-4.8.0/src/mk_cheby.c:2-16 | the loss adds up over rows |
| MkCheby.LossOfEntry | moos-ivp/MOOS_V10.0.3_May1215/proj-4.8.0/src/mk_cheby.c:2-16 | and over the entries of a row: those below the cut-off count with their absolute values |
| MkCheby.FindCut | moos-ivp/MOOS_V10.0.3_May1215/proj-4.8.0/src/mk_cheby.c:51-60 | tries res, a half, a quarter and an eighth of it and takes the first at which both losses are below res, reporting them; without one the cut-off is a sixteenth of res, and the losses at the eighth are reported, the first negated |
| MkCheby.ReportedTries | moos-ivp/MOOS_V10.0.3_May1215/proj-4.8.0/src/mk_cheby.c:52-60 | the search that the other results speak of is these four tries |
| MkCheby.ReportedBounds | moos-ivp/MOOS_V10.0.3_May1215/proj-4.8.0/src/mk_cheby.c:51-60 | whether the search succeeded or not, the absolute value of each reported residual bounds the loss at the cut-off that is used |
| MkCheby.LossBounds | moos-ivp/MOOS_V10.0.3_May1215/proj-4.8.0/src/mk_cheby.c:61-77 | truncation changes the series on the unit square by at most the loss |
| MkCheby.Truncate | moos-ivp/MOOS_V10.0.3_May1215/proj-4.8.0/src/mk_cheby.c:61-77 | clears exactly the coefficients below the cut-off and records lengths behind which everything is zero; a component keeps rows exactly when some coefficient of it reaches the cut-off |
| MkCheby.StoreU | moos-ivp/MOOS_V10.0.3_May1215/proj-4.8.0/src/mk_cheby.c:100-107 | ragged storage keeps all but trailing zeros and trailing zero rows |
| MkCheby.StoreV | moos-ivp/MOOS_V10.0.3_May1215/proj-4.8.0/src/mk_cheby.c:108-115 | the same for the second component |
| MkCheby.StoredMeans | moos-ivp/MOOS_V10.0.3_May1215/proj-4.8.0/src/mk_cheby.c:100-115 | leaving out trailing zeros changes neither the Chebyshev nor the power series |
| MkCheby.PowerFormCompiles | moos-ivp/MOOS_V10.0.3_May1215/proj-4.8.0/src/mk_cheby.c:94-116 | the power form means the truncated series at every point |
| MkCheby.ChebyshevFormCompiles | moos-ivp/MOOS_V10.0.3_May1215/proj-4.8.0/src/mk_cheby.c:117-141 | the Chebyshev form, whose a and b hold the scaling, means the truncated series at every accepted point |
| MkCheby.Compile | moos-ivp/MOOS_V10.0.3_May1215/proj-4.8.0/src/mk_cheby.c:35-161 | compiles exactly the functions that have a value at every node; the result means the series truncated at the cut-off, and cut-off and residual are those of the four tries |
| MkCheby.EvaluableIff | moos-ivp/MOOS_V10.0.3_May1215/proj-4.8.0/src/mk_cheby.c:117-141 | the Chebyshev form may be evaluated exactly if both components kept a coefficient; with none the evaluator would read a row that does not exist |
| MkCheby.RejectedPoints | moos-ivp/MOOS_V10.0.3_May1215/proj-4.8.0/src/biveval.c:36-41 | in Chebyshev mode exactly the points beyond 1.00001 half widths from the middle of the range are rejected |
| MkCheby.ZeroComponent | moos-ivp/MOOS_V10.0.3_May1215/proj-4.8.0/src/mk_cheby.c:117-141 | a sampler whose second component is zero at every node compiles to a Chebyshev series that may not be evaluated |
| MkCheby.ModesAgree | moos-ivp/MOOS_V10.0.3_May1215/proj-4.8.0/src/mk_cheby.c:78-141 | both output modes give equal results wherever the Chebyshev mode may be evaluated and accepts the point |
| MkCheby.ResidualBounds | moos-ivp/MOOS_V10.0.3_May1215/proj-4.8.0/src/mk_cheby.c:51-77 | over the whole range full and compiled series, where the latter may be evaluated, differ by at most the absolute reported residuals |
| MkCheby.SamplesReproduced | moos-ivp/MOOS_V10.0.3_May1215/proj-4.8.0/src/mk_cheby.c:35-161 | at every sample point a compiled series that may be evaluated gives the value of the function there up to the residual |
| EtMerc.Clens | moos-ivp/MOOS_V10.0.3_May1215/proj-4.8.0/src/proj_etmerc.c:111-125 | the loop sums a[k] times the sine of the (k+1)-fold angle |
| EtMerc.ClenS | moos-ivp/MOOS_V10.0.3_May1215/proj-4.8.0/src/proj_etmerc.c:76-110 | the same for complex arguments |
| EtMerc.Gatg | moos-ivp/MOOS_V10.0.3_May1215/proj-4.8.0/src/proj_etmerc.c:62-71 | B plus the series in twice the angle from two coefficients on; a single coefficient has no effect |
| EtMerc.SingleTerm | moos-ivp/MOOS_V10.0.3_May1215/proj-4.8.0/src/proj_etmerc.c:62-71 | with one coefficient the shortcut agrees with the series exactly when the term is zero |
| EtMerc.SplitStep | moos-ivp/MOOS_V10.0.3_May1215/proj-4.8.0/src/proj_etmerc.c:96-103 | what one round of the summation keeps |
| EtMerc.SineIsMultipleAngle | moos-ivp/MOOS_V10.0.3_May1215/proj-4.8.0/src/proj_etmerc.c:111-125 | the recurrence gives true multiple angles: the imaginary part of the k-th power of a point of the unit circle |
| EtMerc.ComplexAngle | moos-ivp/MOOS_V10.0.3_May1215/proj-4.8.0/src/proj_etmerc.c:92-106 | the complex sine and cosine are those of the angle: cosine plus and minus i times sine are the two exponentials |
| EtMerc.ComplexMultipleAngle | moos-ivp/MOOS_V10.0.3_May1215/proj-4.8.0/src/proj_etmerc.c:76-110 | with the exponentials w and v of the angle, 2i times the sine of the k-fold angle is w^k - v^k |
| Zpoly1.Evaluate | moos-ivp/MOOS_V10.0.3_May1215/proj-4.8.0/src/pj_zpoly1.c:7-20 | evaluates the sum of C(k) z^(k+1) |
| Zpoly1.EvaluateWithDerivative | moos-ivp/MOOS_V10.0.3_May1215/proj-4.8.0/src/pj_zpoly1.c:21-46 | for n >= 1 the same value together with the formal derivative |
| Zpoly1.HornerSums | moos-ivp/MOOS_V10.0.3_May1215/proj-4.8.0/src/pj_zpoly1.c:12-18 | the scheme sums the powers |
| Zpoly1.SlopeSums | moos-ivp/MOOS_V10.0.3_May1215/proj-4.8.0/src/pj_zpoly1.c:29-44 | the derivative of the scheme sums the derivatives of the powers |
| Zpoly1.Taylor | moos-ivp/MOOS_V10.0.3_May1215/proj-4.8.0/src/pj_zpoly1.c:21-46 | P(w) - P(z) - P'(z)(w - z) is a multiple of (w - z)^2 |
| Points.Pass | moos-ivp/MOOS_V10.0.3_May1215/proj-4.8.0/src/pj_transform.c:119-120 | a whole-array loop: every point in turn, stopping at the first fatal error; slots that belong to no point are untouched |
| Points.Put | moos-ivp/MOOS_V10.0.3_May1215/proj-4.8.0/src/pj_transform.c:189-190 | storing one strided point leaves all other points and slots alone |
| Points.PointCells | moos-ivp/MOOS_V10.0.3_May1215/proj-4.8.0/src/pj_transform.c:119-120 | point i lies stride * i cells behind the start of each axis |
| Transform.TransformAll | moos-ivp/MOOS_V10.0.3_May1215/proj-4.8.0/src/pj_transform.c:87-370 | returns 0 exactly when the call is not broken as a whole and no point fails; then every point has become the stage composition applied to it alone, and slots between strides are unchanged; otherwise it returns the error of the call or of a point |
| TransformLaws.WholeTransform | moos-ivp/MOOS_V10.0.3_May1215/proj-4.8.0/src/pj_transform.c:87-370 | a point in arithmetic: heights by the vertical factors, source conversion, plus the prime meridian, plus the geoid, datum shift, minus the geoid, minus the prime meridian, destination conversion |
| TransformLaws.BetweenLatLong | moos-ivp/MOOS_V10.0.3_May1215/proj-4.8.0/src/pj_transform.c:202-262 | between longitudes and latitudes without a datum shift: x plus the one and minus the other meridian, z by the factors and both geoids |
| TransformLaws.BetweenLatLongFlat | moos-ivp/MOOS_V10.0.3_May1215/proj-4.8.0/src/pj_transform.c:202-262 | the same without heights |
| TransformLaws.FromGeocentric | moos-ivp/MOOS_V10.0.3_May1215/proj-4.8.0/src/pj_transform.c:123-157 | the conversion to geodetic receives x and y times to_meter |
| TransformLaws.ToGeocentricCoordinates | moos-ivp/MOOS_V10.0.3_May1215/proj-4.8.0/src/pj_transform.c:263-290 | x and y come out times fr_meter |
| TransformLaws.SameDatumsIs | moos-ivp/MOOS_V10.0.3_May1215/proj-4.8.0/src/pj_transform.c:459-496 | no datum shift takes place exactly if a datum is unknown or kind, parameters and ellipsoid agree, the eccentricity up to 5e-11 |
| TransformLaws.HelmertMoves | moos-ivp/MOOS_V10.0.3_May1215/proj-4.8.0/src/pj_transform.c:502-592 | the geocentric steps in coordinates, with three and with seven parameters, in both directions |
| TransformLaws.WrappedAtTheEnd | moos-ivp/MOOS_V10.0.3_May1215/proj-4.8.0/src/pj_transform.c:328-344 | a wrapping centre only turns the longitude of what comes out without it by whole turns to within PI of the centre |
| TransformLaws.SourceErrors | moos-ivp/MOOS_V10.0.3_May1215/proj-4.8.0/src/pj_transform.c:123-175 | geocentric input without heights or on a bad ellipsoid is error -45, a missing inverse -17 |
| TransformLaws.OutsideGeoid | moos-ivp/MOOS_V10.0.3_May1215/proj-4.8.0/src/pj_transform.c:215-222 | a position outside the geoid grids is error -48 |
| TransformLaws.InverseErrors | moos-ivp/MOOS_V10.0.3_May1215/proj-4.8.0/src/pj_transform.c:178-187 | which errors of an inverse projection end the call, with several points and with one |
| TransformLaws.InverseMarks | moos-ivp/MOOS_V10.0.3_May1215/proj-4.8.0/src/pj_transform.c:178-195 | the others only mark the point, which comes out marked |
| Transform.DatumTransform | moos-ivp/MOOS_V10.0.3_May1215/proj-4.8.0/src/pj_transform.c:602-720 | the datum shift as whole-array passes is the composed shift of each point, also with the temporary heights it makes up |
| Transform.SourceConversion | moos-ivp/MOOS_V10.0.3_May1215/proj-4.8.0/src/pj_transform.c:123-197 | geocentric or projected input becomes geodetic; missing heights, a bad ellipsoid or a missing inverse end the call |
| Transform.DestinationConversion | moos-ivp/MOOS_V10.0.3_May1215/proj-4.8.0/src/pj_transform.c:263-344 | geocentric, projected or wrapped output; the return code of the geocentric conversion is ignored |
| Transform.WrapLongitude | moos-ivp/MOOS_V10.0.3_May1215/proj-4.8.0/src/pj_transform.c:339-342 | both wrap loops end |
| Transform.WrapRange | moos-ivp/MOOS_V10.0.3_May1215/proj-4.8.0/src/pj_transform.c:328-344 | the wrapped longitude is within PI of the centre, a whole number of turns away, and unchanged if it was in range |
| Transform.MarkSticks | moos-ivp/MOOS_V10.0.3_May1215/proj-4.8.0/src/pj_transform.c:113-360 | an x marked HUGE_VAL at some stage is still marked at every later one, if the grid lookup keeps marks |
| Transform.TransientMarks | moos-ivp/MOOS_V10.0.3_May1215/proj-4.8.0/src/pj_transform.c:179-192 | in a call with several points, a point whose inverse or forward projection fails with an error of its own goes on, and its result is marked unless a later stage ends the call |
| Transform.LonePointFails | moos-ivp/MOOS_V10.0.3_May1215/proj-4.8.0/src/pj_transform.c:179-192 | in a call with a single point such an error is the outcome |
| Transform.ThreeParamRoundTrip | moos-ivp/MOOS_V10.0.3_May1215/proj-4.8.0/src/pj_transform.c:502-592 | with three parameters the two datum directions undo each other |
| Transform.SevenParamRoundTrip | moos-ivp/MOOS_V10.0.3_May1215/proj-4.8.0/src/pj_transform.c:502-592 | with seven parameters they do so exactly for points on the rotation axis: the inverse uses the transposed small-angle matrix |
| Transform.SevenParamExample | moos-ivp/MOOS_V10.0.3_May1215/proj-4.8.0/src/pj_transform.c:502-592 | a point that does not come back: (0, 1, 0) returns as (0, 2, 0) |
| Dms.Printer.Set | moos-ivp/MOOS_V10.0.3_May1215/proj-4.8.0/src/rtodms.c:18-36 | a digit count out of range changes nothing; otherwise digits and style are set |
| Dms.Printer.Print | moos-ivp/MOOS_V10.0.3_May1215/proj-4.8.0/src/rtodms.c:37-72 | the buffer holds the text of the angle: sign, fields, stripped seconds and letter |
| Dms.SplitAddsUp | moos-ivp/MOOS_V10.0.3_May1215/proj-4.8.0/src/rtodms.c:49-54 | degrees, minutes and units of seconds are the rounded unit count |
| Dms.StrippedReads | moos-ivp/MOOS_V10.0.3_May1215/proj-4.8.0/src/rtodms.c:58-66 | stripping zeros keeps the value of the seconds exactly when it was safe |
| Dms.ReadMarked | moos-ivp/MOOS_V10.0.3_May1215/proj-4.8.0/src/dmstor.c:41-71 | a number closed by a mark is added with the constant of its field |
| Dms.ReadAngle | moos-ivp/MOOS_V10.0.3_May1215/proj-4.8.0/src/dmstor.c:23-82 | the reader computes the reading of the text, with its rest and its error cases |
| Dms.ReadLoop | moos-ivp/MOOS_V10.0.3_May1215/proj-4.8.0/src/dmstor.c:41-71 | the field loop, including a radian mark, a missing mark and marks out of order |
| Dms.BodyReads | moos-ivp/MOOS_V10.0.3_May1215/proj-4.8.0/src/rtodms.c:56-70 | full, stripped and shortened fields all read back |
| Dms.RoundTrip | moos-ivp/MOOS_V10.0.3_May1215/proj-4.8.0/src/rtodms.c:37-72 | reading the printed text gives the value of the printed fields with the sign of the angle, if and only if stripping was safe; it is unsafe only without digits after the point |
| Dms.RoundTripExample | moos-ivp/MOOS_V10.0.3_May1215/proj-4.8.0/src/rtodms.c:58-66 | ten seconds are printed without digits behind the point as 0d0'1" and read back as one |
| Dms.ReadingAccurate | moos-ivp/MOOS_V10.0.3_May1215/proj-4.8.0/src/dmstor.c:10-17 | the reading is within half a printed unit of the angle, up to the accuracy of the reader's constants |
| Dms.ConstantsAccurate | moos-ivp/MOOS_V10.0.3_May1215/proj-4.8.0/src/dmstor.c:12-17 | the reader's constants have a relative error of at most 3e-16 |
| DmsReading.LettersRead | moos-ivp/MOOS_V10.0.3_May1215/proj-4.8.0/src/dmstor.c:72-78 | N, n, E, e behind an angle give its value, S, s, W, w the negative, with nothing left over and whatever sign stood in front |
| DmsReading.SignsRead | moos-ivp/MOOS_V10.0.3_May1215/proj-4.8.0/src/dmstor.c:38-40 | without a letter a plus in front changes nothing and a minus negates |
| DmsReading.PrintedIsAngle | moos-ivp/MOOS_V10.0.3_May1215/proj-4.8.0/src/rtodms.c:37-72 | so do letters behind printed fields |
| DmsReading.WestExample | moos-ivp/MOOS_V10.0.3_May1215/proj-4.8.0/src/dmstor.c:72-78 | 96d0'0"W reads as minus 96 degrees |
| DmsReading.MarksRead | moos-ivp/MOOS_V10.0.3_May1215/proj-4.8.0/src/dmstor.c:45-70 | d, D, the quote and the double quote close degrees, minutes and seconds |
| DmsReading.MarksOutOfOrder | moos-ivp/MOOS_V10.0.3_May1215/proj-4.8.0/src/dmstor.c:65-68 | a mark of a field that has been passed is an error |
| DmsReading.RadiansRead | moos-ivp/MOOS_V10.0.3_May1215/proj-4.8.0/src/dmstor.c:52-62 | r and R stand for radians, only at the beginning |
| DmsReading.UnmarkedRead | moos-ivp/MOOS_V10.0.3_May1215/proj-4.8.0/src/dmstor.c:60-63 | a number without a mark counts for the next field and ends the reading |
| DmsReading.PointFirst | moos-ivp/MOOS_V10.0.3_May1215/proj-4.8.0/src/dmstor.c:42-71 | a number may begin with its point |
| DmsReading.PointAlone | moos-ivp/MOOS_V10.0.3_May1215/proj-4.8.0/src/dmstor.c:42-63 | a point alone is no number and ends the reading |
| DmsReading.NoNumber | moos-ivp/MOOS_V10.0.3_May1215/proj-4.8.0/src/dmstor.c:42-42 | where neither a digit nor a point stands, the reading ends |
| DmsReading.SpacesSkipped | moos-ivp/MOOS_V10.0.3_May1215/proj-4.8.0/src/dmstor.c:32-32 | white space in front is skipped |
| DmsReading.WordEnds | moos-ivp/MOOS_V10.0.3_May1215/proj-4.8.0/src/dmstor.c:33-35 | only 63 printing characters are read |
| DmsPrinting.WideLayout | moos-ivp/MOOS_V10.0.3_May1215/proj-4.8.0/src/rtodms.c:27-31 | place and width of every field in the wide style |
| DmsPrinting.NarrowExamples | moos-ivp/MOOS_V10.0.3_May1215/proj-4.8.0/src/rtodms.c:55-70 | what the narrow style leaves out |
| DmsPrinting.SignsPrinted | moos-ivp/MOOS_V10.0.3_May1215/proj-4.8.0/src/rtodms.c:42-47 | the sign or letter in the text is that of the angle, the first one also for zero |
| Decimals.FracValueSnoc | moos-ivp/MOOS_V10.0.3_May1215/proj-4.8.0/src/dmstor.c:111-111 | one more digit behind the point adds its share to the number that is read |
| Params.Lookup | moos-ivp/MOOS_V10.0.3_May1215/proj-4.8.0/src/pj_param.c:47-57 | finds the first parameter of a name and marks it used, unless only its presence is asked for; nothing else changes |
| Params.AnswersIff | moos-ivp/MOOS_V10.0.3_May1215/proj-4.8.0/src/pj_param.c:48-51 | a parameter answers a name exactly if it is the name or the name, an equals sign and a value |
| Params.Append | moos-ivp/MOOS_V10.0.3_May1215/proj-4.8.0/src/pj_init.c:266-270 | linking a new node behind the last one, or as the first, keeps the list acyclic and in order |
| Params.Clone | moos-ivp/MOOS_V10.0.3_May1215/proj-4.8.0/src/pj_initcache.c:46-68 | a fresh list with the same texts in the same order, none of them used |
| Definitions.GetDef | moos-ivp/MOOS_V10.0.3_May1215/proj-4.8.0/src/pj_pr_list.c:55-91 | the growing buffer always fits and holds the used parameters, each behind a blank and a plus |
| Definitions.SplitInPlace | moos-ivp/MOOS_V10.0.3_May1215/proj-4.8.0/src/pj_init.c:169-223 | the in-place splitter fails exactly when there are more than 199 arguments; otherwise the arguments in the buffer are those of the text |
| Definitions.SplitIsClean | moos-ivp/MOOS_V10.0.3_May1215/proj-4.8.0/src/pj_init.c:181-223 | whatever the text, no argument has a blank at its ends or before a plus, and there are at most 199 |
| Definitions.SplitOfJoined | moos-ivp/MOOS_V10.0.3_May1215/proj-4.8.0/src/pj_init.c:181-223 | printing and splitting gives any list of parameters back if and only if each is clean and there are at most 199 |
| Definitions.DefinitionRoundTrip | moos-ivp/MOOS_V10.0.3_May1215/proj-4.8.0/src/pj_pr_list.c:66-88 | the printed definition splits into exactly the used parameters, in order, under that condition |
| Definitions.PrintedThree | moos-ivp/MOOS_V10.0.3_May1215/proj-4.8.0/src/pj_pr_list.c:66-88 | unused parameters are left out, the others stand behind a blank and a plus |
| Definitions.WhiteSeparates | moos-ivp/MOOS_V10.0.3_May1215/proj-4.8.0/src/pj_init.c:181-217 | any blanks, tabs and newlines in front of a plus separate two parameters |
| Definitions.OthersDoNot | moos-ivp/MOOS_V10.0.3_May1215/proj-4.8.0/src/pj_init.c:183-217 | behind any other character a plus is part of the parameter |
| Definitions.ListRoundTrip | moos-ivp/MOOS_V10.0.3_May1215/proj-4.8.0/src/pj_pr_list.c:66-88 | the printed definition builds a list of exactly the used parameters if and only if there are 1 to 199 of them, each is clean and none starts with a plus |
| Definitions.Rebuild | moos-ivp/MOOS_V10.0.3_May1215/proj-4.8.0/src/pj_init.c:169-231 | printing a list with pj_get_def and building one from the text with pj_init_plus succeeds in that sense under exactly that condition |
| Definitions.InitPlus | moos-ivp/MOOS_V10.0.3_May1215/proj-4.8.0/src/pj_init.c:169-231 | the parameter list of a definition string: fresh unused nodes in order; too many or no arguments are errors |
| InitCache.FirstMatchAppend | moos-ivp/MOOS_V10.0.3_May1215/proj-4.8.0/src/pj_initcache.c:141-180 | an insertion is seen by its own key only, and only while nothing was found for it |
| InitCache.Cache.Search | moos-ivp/MOOS_V10.0.3_May1215/proj-4.8.0/src/pj_initcache.c:114-133 | a fresh unused copy of the first entry of that key that has parameters |
| InitCache.Cache.Insert | moos-ivp/MOOS_V10.0.3_May1215/proj-4.8.0/src/pj_initcache.c:141-180 | appends a copy of the list; later changes to the list do not reach the cache |
| InitCache.Cache.Grow | moos-ivp/MOOS_V10.0.3_May1215/proj-4.8.0/src/pj_initcache.c:149-167 | growth keeps all entries and makes room |
| InitCache.Cache.Clear | moos-ivp/MOOS_V10.0.3_May1215/proj-4.8.0/src/pj_initcache.c:76-106 | forgets all entries |
| InitCache.Cache.MovesBounded | moos-ivp/MOOS_V10.0.3_May1215/proj-4.8.0/src/pj_initcache.c:149-167 | over every run growth moves at most two old entries per insertion |
| GridList.ResolveConcatenates | moos-ivp/MOOS_V10.0.3_May1215/proj-4.8.0/src/pj_gridlist.c:163-224 | the grids for a list string are the in-order concatenation of each named file's usable grids, and exist exactly if all names are short enough and all required files usable |
| GridList.ListResolves | moos-ivp/MOOS_V10.0.3_May1215/proj-4.8.0/src/pj_gridlist.c:179-217 | a comma-separated list, optional names marked with an at sign, yields the usable grids of its names in order, exactly if every name is shorter than 128 characters and every required one usable |
| GridList.NamesOfListed | moos-ivp/MOOS_V10.0.3_May1215/proj-4.8.0/src/pj_gridlist.c:179-207 | splitting the text of a list gives its names and markers back |
| GridList.RequiredFirst | moos-ivp/MOOS_V10.0.3_May1215/proj-4.8.0/src/pj_gridlist.c:179-217 | behind a required name the search goes on with the text behind the comma, or ends with an error |
| GridList.OptionalFirst | moos-ivp/MOOS_V10.0.3_May1215/proj-4.8.0/src/pj_gridlist.c:179-217 | behind an optional name it always goes on |
| GridList.RequiredLast | moos-ivp/MOOS_V10.0.3_May1215/proj-4.8.0/src/pj_gridlist.c:179-217 | the same for a name at the end |
| GridList.OptionalLast | moos-ivp/MOOS_V10.0.3_May1215/proj-4.8.0/src/pj_gridlist.c:179-217 | the same for an optional name at the end |
| GridList.TooLong | moos-ivp/MOOS_V10.0.3_May1215/proj-4.8.0/src/pj_gridlist.c:195-200 | a name of 128 characters or more is an error wherever it stands |
| GridList.UsablePrefix | moos-ivp/MOOS_V10.0.3_May1215/proj-4.8.0/src/pj_gridlist.c:88-96 | the grids of a file that are used are those in front of the first unusable one |
| GridList.TakeName | moos-ivp/MOOS_V10.0.3_May1215/proj-4.8.0/src/pj_gridlist.c:181-207 | cuts the next name off, with its marker |
| GridList.OfNameLoaded | moos-ivp/MOOS_V10.0.3_May1215/proj-4.8.0/src/pj_gridlist.c:88-126 | the cache holds exactly the nodes of each loaded file, once |
| GridList.Collect | moos-ivp/MOOS_V10.0.3_May1215/proj-4.8.0/src/pj_gridlist.c:88-130 | the walk adds the grids of a name up to the first unusable one |
| GridList.GridArray.Add | moos-ivp/MOOS_V10.0.3_May1215/proj-4.8.0/src/pj_gridlist.c:98-122 | adds a grid, growing the array so that the terminator always fits |
| GridList.Load | moos-ivp/MOOS_V10.0.3_May1215/proj-4.8.0/src/pj_gridlist.c:132-135 | a file yields fresh nodes for all its grids |
| GridList.Join | moos-ivp/MOOS_V10.0.3_May1215/proj-4.8.0/src/pj_gridlist.c:141-144 | hanging a list behind the last node keeps the list acyclic |
| GridList.Cache.Merge | moos-ivp/MOOS_V10.0.3_May1215/proj-4.8.0/src/pj_gridlist.c:75-151 | what is added and the answer depend on the file alone; a file is read at most once, and the self-call happens at most once |
| GridList.Cache.FromNadgrids | moos-ivp/MOOS_V10.0.3_May1215/proj-4.8.0/src/pj_gridlist.c:163-224 | the outcome depends on the string and the files alone, not on what was loaded before |
| Bilinear.LinearIsHatSum | moos-ivp/MOOS_V10.0.3_May1215/proj-4.8.0/src/nad_intr.c:41-61 | interpolation is the sum of all nodes weighted by roofs, so neighbouring cells agree on their shared edge |
| Bilinear.SurfaceLipschitz | moos-ivp/MOOS_V10.0.3_May1215/proj-4.8.0/src/nad_intr.c:41-61 | the interpolated surface is no steeper than the differences of neighbouring nodes |
| GridShift.Settle | moos-ivp/MOOS_V10.0.3_May1215/proj-4.8.0/src/nad_intr.c:13-40 | a position is accepted exactly up to 1e-11 cells outside; index and fraction then describe the nearest position on the grid |
| GridShift.NadIntr | moos-ivp/MOOS_V10.0.3_May1215/proj-4.8.0/src/nad_intr.c:4-62 | all four reads are inside the table; the result is the bilinear surface at the nearest position on the grid, or nothing off the grid |
| GridShift.ShiftAtNode | moos-ivp/MOOS_V10.0.3_May1215/proj-4.8.0/src/nad_intr.c:41-61 | at a node the stored shift |
| GridShift.ConvertAtNode | moos-ivp/MOOS_V10.0.3_May1215/proj-4.8.0/src/nad_cvt.c:14-65 | a node in column i and row j is moved by the cell j times the columns plus i: against it in longitude, with it in latitude |
| GridShift.GridReach | moos-ivp/MOOS_V10.0.3_May1215/proj-4.8.0/src/nad_intr.c:13-40 | the grid reaches from the first to the last node of each axis and 1e-11 cells further |
| GridShift.ShiftBetweenCorners | moos-ivp/MOOS_V10.0.3_May1215/proj-4.8.0/src/nad_intr.c:41-61 | between the smallest and the largest corner of the cell |
| GridShift.ShiftLipschitz | moos-ivp/MOOS_V10.0.3_May1215/proj-4.8.0/src/nad_intr.c:41-61 | how fast the shift can vary, from the differences of neighbouring nodes |
| GridShift.AdjLon | moos-ivp/MOOS_V10.0.3_May1215/proj-4.8.0/src/adjlon.c:9-15 | within SPI and a whole number of turns away |
| GridShift.AdjLonKeeps | moos-ivp/MOOS_V10.0.3_May1215/proj-4.8.0/src/adjlon.c:9-15 | angles up to 3.14159265359 are left alone |
| GridShift.NadCvt | moos-ivp/MOOS_V10.0.3_May1215/proj-4.8.0/src/nad_cvt.c:6-66 | forward shift, or the iterated inverse with its ten rounds, its fall-back and its failure |
| GridShift.AnswerNormalized | moos-ivp/MOOS_V10.0.3_May1215/proj-4.8.0/src/nad_cvt.c:57-57 | what the inverse returns is within 3.14159265359 |
| GridInverse.GentleContracts | moos-ivp/MOOS_V10.0.3_May1215/proj-4.8.0/src/nad_intr.c:41-61 | stored shifts that differ little from node to node make the interpolated shift a contraction, with the sum of the two rates as factor |
| GridInverse.ScaleTableContracts | moos-ivp/MOOS_V10.0.3_May1215/proj-4.8.0/src/nad_intr.c:41-61 | the converse fails: a table whose shift is a contraction with factor 0.6 although the rates of its nodes add up to 1.2 |
| GridInverse.GuessConverges | moos-ivp/MOOS_V10.0.3_May1215/proj-4.8.0/src/nad_cvt.c:28-50 | if the shift is a contraction with factor L, guess k is within L^k times the starting error of the true position |
| GridInverse.RootUnique | moos-ivp/MOOS_V10.0.3_May1215/proj-4.8.0/src/nad_cvt.c:28-50 | at most one position is shifted to the target if L < 1 |
| GridInverse.SolveStopsAt | moos-ivp/MOOS_V10.0.3_May1215/proj-4.8.0/src/nad_cvt.c:28-50 | the loop passes over steps that are within the tolerance on neither axis and ends at the first other one, or where the grid ends, or after the tenth lookup |
| GridInverse.SolveFailsIff | moos-ivp/MOOS_V10.0.3_May1215/proj-4.8.0/src/nad_cvt.c:49-56 | the inverse fails if and only if all ten lookups stay on the grid and none of the first nine steps is within the tolerance on an axis; the tenth step does not count |
| GridInverse.FirstQuietDecides | moos-ivp/MOOS_V10.0.3_May1215/proj-4.8.0/src/nad_cvt.c:47-50 | the loop ends with the guess behind the first step that is within the tolerance on one axis; both axes are within it if and only if the other axis is, in that step |
| GridInverse.SolvesBothAxesIff | moos-ivp/MOOS_V10.0.3_May1215/proj-4.8.0/src/nad_cvt.c:28-50 | shifting a guess forward meets the target on both axes up to the tolerance if and only if the next step, which the loop does not take, is within it on both |
| GridInverse.BothQuietStays | moos-ivp/MOOS_V10.0.3_May1215/proj-4.8.0/src/nad_cvt.c:28-50 | if the shift does not expand, a step within the tolerance on both axes is followed by another one |
| GridInverse.ResidualShrinks | moos-ivp/MOOS_V10.0.3_May1215/proj-4.8.0/src/nad_cvt.c:28-50 | shifting guess k forward misses the target by at most L^k times the shift at the target, whether or not a true position exists |
| GridInverse.SolvesBothAxes | moos-ivp/MOOS_V10.0.3_May1215/proj-4.8.0/src/nad_cvt.c:20-58 | if L times the shift at the target is within the tolerance and L <= 1, whatever the inverse returns on the grid solves both axes |
| GridInverse.NearRootSolvesBothAxes | moos-ivp/MOOS_V10.0.3_May1215/proj-4.8.0/src/nad_cvt.c:20-58 | so it does if (1 + L) L times the distance of the true position is within the tolerance |
| GridInverse.InverseNearRoot | moos-ivp/MOOS_V10.0.3_May1215/proj-4.8.0/src/nad_cvt.c:20-58 | what the inverse returns is guess k for some k from 1 to 10, within L^k times the starting error of the true position |
| GridInverse.InverseSucceeds | moos-ivp/MOOS_V10.0.3_May1215/proj-4.8.0/src/nad_cvt.c:49-56 | the inverse succeeds if nine contractions bring the shift at the target below the tolerance |
| GridInverse.ForwardOfInverse | moos-ivp/MOOS_V10.0.3_May1215/proj-4.8.0/src/nad_cvt.c:14-66 | in coordinates: shifting the answer of the inverse forward gives the input back up to whole turns and L^k times the shift there |
| GridInverse.InverseInCoordinates | moos-ivp/MOOS_V10.0.3_May1215/proj-4.8.0/src/nad_cvt.c:14-58 | in coordinates, behind the final normalization: the answer is within L^k times the starting error of the true position, up to whole turns |
| GridInverse.InverseStopsEarly | moos-ivp/MOOS_V10.0.3_May1215/proj-4.8.0/src/nad_cvt.c:49-49 | one quiet axis ends the loop: a table and a target for which the other axis is far from solved |
| GridInverse.HalfTableContracts | moos-ivp/MOOS_V10.0.3_May1215/proj-4.8.0/src/nad_cvt.c:28-50 | although the shift of that table is a contraction with factor one half |
| GridSearch.Search | moos-ivp/MOOS_V10.0.3_May1215/proj-4.8.0/src/pj_apply_gridshift.c:138-200 | the loop over grids and children computes the choice |
| GridSearch.PickPicks | moos-ivp/MOOS_V10.0.3_May1215/proj-4.8.0/src/pj_apply_gridshift.c:138-200 | the choice: the first grid that covers the position and whose first covering child, or else itself, shifts it |
| GridSearch.PicksUnique | moos-ivp/MOOS_V10.0.3_May1215/proj-4.8.0/src/pj_apply_gridshift.c:138-200 | that description determines the shift |
| GridSearch.LoneGrid | moos-ivp/MOOS_V10.0.3_May1215/proj-4.8.0/src/pj_apply_gridshift.c:141-157 | a grid without refinements shifts exactly the positions between its first and last node with a margin of a ten-thousandth of the cell sizes |
| GridSearch.InsideLoneGrid | moos-ivp/MOOS_V10.0.3_May1215/proj-4.8.0/src/pj_apply_gridshift.c:141-190 | inside the rectangle every position gets what the table gives |
| GridSearch.MarkedNotPicked | moos-ivp/MOOS_V10.0.3_May1215/proj-4.8.0/src/pj_apply_gridshift.c:143-150 | by the coverage comparisons alone no grid shifts a point with a marked coordinate |
| GridSearch.ApplyGridShift | moos-ivp/MOOS_V10.0.3_May1215/proj-4.8.0/src/pj_apply_gridshift.c:111-250 | every point is shifted by the first grid that works or left alone, in place; an empty list is an error; slots between strides are unchanged |
| DatumGrids.ApplyStage | moos-ivp/MOOS_V10.0.3_May1215/proj-4.8.0/src/pj_transform.c:649-652 | the search over whole arrays is the grid stage of the transformation at every point, also in how it fails |
| DatumGrids.MarksStick | moos-ivp/MOOS_V10.0.3_May1215/proj-4.8.0/src/pj_transform.c:113-360 | in a transformation that searches its grids an x marked HUGE_VAL at some stage is still marked in the result |
| ByteOrder.SwapWords | moos-ivp/MOOS_V10.0.3_May1215/proj-4.8.0/src/pj_gridinfo.c:57-77 | reverses the bytes of every word in place and nothing else |
| ByteOrder.SwappedTwice | moos-ivp/MOOS_V10.0.3_May1215/proj-4.8.0/src/pj_gridinfo.c:57-77 | is an involution |
| ByteOrder.SwappedAt | moos-ivp/MOOS_V10.0.3_May1215/proj-4.8.0/src/nad2bin.c:19-40 | each word is reversed on its own |
| Nad2bin.WriteOverview | moos-ivp/MOOS_V10.0.3_May1215/proj-4.8.0/src/nad2bin.c:226-261 | the overview header, byte for byte |
| Nad2bin.WriteGridHeader | moos-ivp/MOOS_V10.0.3_May1215/proj-4.8.0/src/nad2bin.c:263-330 | the grid header, byte for byte the same on hosts of either byte order |
| Nad2bin.WriteRow | moos-ivp/MOOS_V10.0.3_May1215/proj-4.8.0/src/nad2bin.c:338-359 | a row of cells from east to west in the order of the file |
| Nad2bin.WriteNtv2 | moos-ivp/MOOS_V10.0.3_May1215/proj-4.8.0/src/nad2bin.c:215-373 | the file encodes the table, whatever the byte order of the host |
| GridInfo.ReadGrid | moos-ivp/MOOS_V10.0.3_May1215/proj-4.8.0/src/pj_gridinfo.c:416-490 | corner, cell size and limits of a grid header; a wrong name or cell count is an error |
| GridInfo.InitNtv2 | moos-ivp/MOOS_V10.0.3_May1215/proj-4.8.0/src/pj_gridinfo.c:366-563 | the headers of all grids with the places of their cells |
| GridInfo.LoadRow | moos-ivp/MOOS_V10.0.3_May1215/proj-4.8.0/src/pj_gridinfo.c:280-292 | a row in the byte order of the host |
| GridInfo.StoreRow | moos-ivp/MOOS_V10.0.3_May1215/proj-4.8.0/src/pj_gridinfo.c:294-307 | the row is turned around |
| GridInfo.LoadCells | moos-ivp/MOOS_V10.0.3_May1215/proj-4.8.0/src/pj_gridinfo.c:246-312 | all cells of a grid, or failure if the file ends early |
| GridInfo.NodesRecovered | moos-ivp/MOOS_V10.0.3_May1215/proj-4.8.0/src/pj_gridinfo.c:465-466 | the node count comes back from the extents on axes that run upwards; otherwise it comes back wrong |
| GridInfo.HeaderRoundTrip | moos-ivp/MOOS_V10.0.3_May1215/proj-4.8.0/src/pj_gridinfo.c:451-489 | corner, cell size and limits come back if and only if each axis with more than one node runs upwards; otherwise the reader rejects the file |
| GridInfo.DownwardExample | moos-ivp/MOOS_V10.0.3_May1215/proj-4.8.0/src/pj_gridinfo.c:465-466 | a table of two rows, the second south of the first, whose file the reader rejects |
| GridInfo.RowsRoundTrip | moos-ivp/MOOS_V10.0.3_May1215/proj-4.8.0/src/pj_gridinfo.c:276-308 | all cells come back: the two row flips and the unit conversions cancel |
| GridInfo.NadRoundTrip | moos-ivp/MOOS_V10.0.3_May1215/proj-4.8.0/src/nad2bin.c:215-373 | a table written on one host and read on another comes back whole, if and only if its axes run upwards |
| GridFiles.FileRoundTrip | moos-ivp/MOOS_V10.0.3_May1215/proj-4.8.0/src/pj_gridinfo.c:366-563 | a file of any number of tables reads back as exactly these tables in order, each at the sum of what stands before it, if and only if all their axes run upwards; otherwise it is rejected |
| GridFiles.CellsRoundTrip | moos-ivp/MOOS_V10.0.3_May1215/proj-4.8.0/src/pj_gridinfo.c:246-312 | the cells of each table are found at its place |
| GridBytes.OverviewBytes | moos-ivp/MOOS_V10.0.3_May1215/proj-4.8.0/src/nad2bin.c:226-261 | the bytes of the counts in the overview |
| GridBytes.OverviewNames | moos-ivp/MOOS_V10.0.3_May1215/proj-4.8.0/src/nad2bin.c:243-253 | the bytes of the unit and of the two datums in the overview |
| GridBytes.HeaderNames | moos-ivp/MOOS_V10.0.3_May1215/proj-4.8.0/src/nad2bin.c:279-283 | the bytes of the names at the beginning of a grid header |
| GridBytes.HeaderLimits | moos-ivp/MOOS_V10.0.3_May1215/proj-4.8.0/src/nad2bin.c:291-305 | the bytes of the limits in a grid header |
| GridBytes.HeaderCells | moos-ivp/MOOS_V10.0.3_May1215/proj-4.8.0/src/nad2bin.c:307-316 | the bytes of cell size and cell count |
| GridBytes.NodeBytes | moos-ivp/MOOS_V10.0.3_May1215/proj-4.8.0/src/nad2bin.c:338-359 | the bytes of the shift of each node |
| GridBytes.SecondsOfDegree | moos-ivp/MOOS_V10.0.3_May1215/proj-4.8.0/src/nad2bin.c:292-353 | a degree is 3600 seconds, for limits and for shifts |
| GridBytes.NameChecked | moos-ivp/MOOS_V10.0.3_May1215/proj-4.8.0/src/pj_gridinfo.c:428-432 | a header that does not begin with SUB_NAME is rejected |
| GridBytes.Int32Signed | moos-ivp/MOOS_V10.0.3_May1215/proj-4.8.0/src/pj_gridinfo.c:478-480 | a count is a signed 32-bit number, least significant byte first |
| AsciiTable.Load | moos-ivp/MOOS_V10.0.3_May1215/proj-4.8.0/src/nad2bin.c:119-145 | running sums over the numbers of the ASCII table give its cells; too few numbers or a row out of order end the program |
| AsciiTable.RowsOfNumbers | moos-ivp/MOOS_V10.0.3_May1215/proj-4.8.0/src/nad2bin.c:119-141 | every table comes back from its row numbers, first values and differences, whatever follows them |
| AsciiTable.TableOfNumbers | moos-ivp/MOOS_V10.0.3_May1215/proj-4.8.0/src/nad2bin.c:119-141 | cell j of row i of what is loaded: longitude and latitude in millionths of a second, in radians |
| Hexbin.RowTwice | moos-ivp/MOOS_V10.0.3_May1215/proj-4.8.0/src/PJ_isea.c:31-59 | for columns of either sign the two conversions undo each other |
| Hexbin.RowIs | moos-ivp/MOOS_V10.0.3_May1215/proj-4.8.0/src/PJ_isea.c:31-59 | truncating division rounds the row down, as the comment wants, for either sign |
| Hexbin.Hex.ToXy | moos-ivp/MOOS_V10.0.3_May1215/proj-4.8.0/src/PJ_isea.c:31-43 | to straight coordinates |
| Hexbin.Hex.ToIso | moos-ivp/MOOS_V10.0.3_May1215/proj-4.8.0/src/PJ_isea.c:45-59 | to skewed coordinates that sum to zero |
| Hexbin.ThereAndBack | moos-ivp/MOOS_V10.0.3_May1215/proj-4.8.0/src/PJ_isea.c:31-59 | every skewed cell is recovered |
| Hexbin.DefectSmall | moos-ivp/MOOS_V10.0.3_May1215/proj-4.8.0/src/PJ_isea.c:76-80 | the rounding defect is -1, 0 or 1 |
| Hexbin.Cheapest | moos-ivp/MOOS_V10.0.3_May1215/proj-4.8.0/src/PJ_isea.c:82-93 | paying the defect back on the axis with the largest error costs least |
| Hexbin.NearestTriple | moos-ivp/MOOS_V10.0.3_May1215/proj-4.8.0/src/PJ_isea.c:76-94 | no integer triple that sums to zero is nearer |
| Hexbin.CostIsDistance | moos-ivp/MOOS_V10.0.3_May1215/proj-4.8.0/src/PJ_isea.c:67-74 | with the true cosine of 30 degrees, cost is distance in the plane |
| Hexbin.HexBin | moos-ivp/MOOS_V10.0.3_May1215/proj-4.8.0/src/PJ_isea.c:61-106 | the hexagon with the nearest centre; its skewed cell can be recovered from what is returned |
| Sensor.InsertKeepsOrder | UNDERSEA/moos-ivp-UNDERSEA/src/sSensor/Sensor.cpp:235-240 | sorted insertion keeps the list in order if and only if the new change touches no old one |
| Sensor.Sensor.HandleChange | UNDERSEA/moos-ivp-UNDERSEA/src/sSensor/Sensor.cpp:204-243 | the error cases, and the place of a new change |
| Sensor.Sensor.Iterate | UNDERSEA/moos-ivp-UNDERSEA/src/sSensor/Sensor.cpp:142-177 | one tick takes the schedule to the next state |
| Sensor.PassedChangesFinished | UNDERSEA/moos-ivp-UNDERSEA/src/sSensor/Sensor.cpp:156-168 | over every run with non-decreasing times every change before event_index has finished |
| Sensor.RateFollowsWindow | UNDERSEA/moos-ivp-UNDERSEA/src/sSensor/Sensor.cpp:156-168 | the rate is nominal, or that of the change at event_index and the last tick was in its window |
| Sensor.RateInForce | UNDERSEA/moos-ivp-UNDERSEA/src/sSensor/Sensor.cpp:156-168 | after every tick the rate in force is the one wanted at event_index, if and only if the tick did not move on into a window that was already open |
| Sensor.LagExample | UNDERSEA/moos-ivp-UNDERSEA/src/sSensor/Sensor.cpp:163-167 | a run in which it is not |
| Sensor.CatchesUp | UNDERSEA/moos-ivp-UNDERSEA/src/sSensor/Sensor.cpp:163-167 | a schedule that lags behind passes one finished change a tick |

## Left out

- Rounding of floating-point arithmetic, allocation failure, locks, logging, environment variables and
  freeing of memory.
- Trigonometric projections, geodesics, the geocentric iteration and the Snyder step of the
  icosahedral projection: their claims rest on transcendental functions.
- The cap rotation of the HEALPix projection: its product of matrices uses a wrong index, so the
  intended round trip does not hold of the code.
- Quad stepping and serial numbers of the icosahedral projection, whose edge cases are inconsistent.
- `AnalyserPMC` and `PlannerPMC`: the index formula lets entries collide, and the rest is a minimum over a map.
- Command-line programs, language bindings, sockets, MOOS mail, markers, help texts and scripts.
- MkCheby.Compile: takes at least one sample on each axis and a range with two different ends; otherwise the
  source divides by zero.
- Biveval.Evaluate: takes a series that may be evaluated, see `MkCheby.EvaluableIff`.
- Transform.TransformAll: axis orders other than "enu" (`pj_adjust_axis`), negative strides and -HUGE_VAL are
  not modelled; the errno of an earlier call is not state, so grid lists are taken to be non-empty;
  seven-parameter points with a marked y or z, or a zero scale, are left unchanged; a geoid shift needs
  heights.
- TransformLaws.WholeTransform: speaks of points whose coordinates stay finite, with heights; marked points are
  the subject of `Transform.MarkSticks` and `TransformLaws.InverseMarks`.
- Transform.MarkSticks: assumes of the grid parameter that it leaves marked points marked; `DatumGrids.MarksStick`
  shows it of the search.
- MkCheby.ModesAgree: takes a Chebyshev series that may be evaluated; so do `MkCheby.ResidualBounds` and
  `MkCheby.SamplesReproduced`, because the evaluator would read a row that does not exist.
- Dms.ReadAngle: numbers are plain decimals, without exponents, hexadecimals or overflow.
- Dms.Printer.Print: the value of CONV before the first call of `set_rtodms` is the formula's; the literal
  differs from it in the 21st digit.
- Definitions.InitPlus: stops at the parameter list; init files, defaults and the projection lookup of
  `pj_init_ctx` are not modelled.
- Params.Lookup: the conversion of the found text to a number or a flag is not modelled.
- InitCache.Cache.Search: an entry with an empty list counts as not found, as in the code.
- GridList.Cache.FromNadgrids: an error gives null, and the count that the source leaves behind is not modelled.
- GridList.Load: parsing a file is a function from its name to its grids; only the NTv2 format is modelled, in GridInfo.
- GridSearch.ApplyGridShift: cells are taken to be loaded, and tables to have at least two nodes on each axis;
  with one node `nad_intr` reads outside its row.
- GridInverse.InverseNearRoot: speaks of a position that is shifted to the target; that one exists needs
  completeness of the reals. `GridInverse.ResidualShrinks` does without it.
- GridInfo.InitNtv2: the linking of subgrids to parents and their identifiers is not modelled; a zero
  increment, where the source divides by zero, is an error.
- Nad2bin.WriteNtv2: the ctable formats are not modelled.
- AsciiTable.Load: splitting the text into numbers is not modelled; the last number is taken to be followed
  by white space, without which the source reports a premature end of file.
- Hexbin.HexBin: the position is a parameter; only the binning is modelled.
- Sensor.Sensor.HandleChange: splitting the text at colons, the number test and the conversion are parameters;
  changes come before the first tick, as at start-up.
- Sensor.Sensor.Iterate: the random reading, the notification and the report are not modelled; event_index is
  a field, although the source shares it between instances.
