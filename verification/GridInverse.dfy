/** What the iterated inverse of the grid shift achieves. */
module GridInverse {
  import opened Bilinear
  import opened GridShift
  import opened GridTables
  import opened Options
  import opened Reals

  function Max(a: real, b: real): real {
    if a < b then b else a
  }

  /** The larger of the distances on the two axes. */
  function Distance(p: LP, q: LP): real {
    Max(Abs(p.lam - q.lam), Abs(p.phi - q.phi))
  }

  function Power(l: real, k: nat): real {
    if k == 0 then 1.0 else Times(l, Power(l, k - 1))
  }

  /** The position, relative to the corner, to which the forward shift takes t. */
  function Forward(ct: CTable, t: LP): Option<LP>
    requires Sound(ct)
  {
    match Shift(ct, t)
    case None => None
    case Some(s) => Some(LP(t.lam - s.lam, t.phi + s.phi))
  }

  /** The forward shift takes root to tb. */
  predicate Root(ct: CTable, tb: LP, root: LP)
    requires Sound(ct)
  {
    Forward(ct, root) == Some(tb)
  }

  /** The shift is a contraction with factor l wherever the grid yields one. */
  ghost predicate Contracts(ct: CTable, l: real)
    requires Sound(ct)
  {
    l >= 0.0 && forall p, q | Shift(ct, p).Some? && Shift(ct, q).Some? ::
      Distance(Shift(ct, p).value, Shift(ct, q).value) <= Times(l, Distance(p, q))
  }

  lemma ContractsAt(ct: CTable, l: real, p: LP, q: LP)
    requires Sound(ct) && Contracts(ct, l) && Shift(ct, p).Some? && Shift(ct, q).Some?
    ensures l >= 0.0 && Distance(Shift(ct, p).value, Shift(ct, q).value) <= Times(l, Distance(p, q))
  {
    hide Shift, Distance, Times;
  }

  lemma TimesSum(a: real, b: real, d: real)
    ensures Times(a, d) + Times(b, d) == Times(a + b, d)
  {
  }

  /** Stored shifts that vary gently from node to node, which can be seen from the table, make the
      interpolated shift a contraction. */
  lemma GentleContracts(ct: CTable, a: real, b: real)
    requires Sound(ct) && Gentle(ct, a, b)
    ensures Contracts(ct, a + b)
  {
    assert a >= 0.0 && b >= 0.0;
    hide Gentle, Shift, Times;
    forall p, q | Shift(ct, p).Some? && Shift(ct, q).Some?
      ensures Distance(Shift(ct, p).value, Shift(ct, q).value) <= Times(a + b, Distance(p, q))
    {
      ShiftLipschitz(ct, p, q, a, b);
      TimesGrows(a, Abs(p.lam - q.lam), Distance(p, q));
      TimesGrows(b, Abs(p.phi - q.phi), Distance(p, q));
      TimesSum(a, b, Distance(p, q));
    }
  }

  lemma ImproveDistance(tb: LP, s: LP, r: LP)
    ensures Distance(Improve(tb, s), Improve(tb, r)) == Distance(s, r)
  {
  }

  /** Guessing brings any two positions closer. */
  lemma ImproveCloser(ct: CTable, tb: LP, p: LP, q: LP, l: real)
    requires Sound(ct) && Contracts(ct, l) && Shift(ct, p).Some? && Shift(ct, q).Some?
    ensures l >= 0.0
    ensures Distance(Improve(tb, Shift(ct, p).value), Improve(tb, Shift(ct, q).value)) <= Times(l, Distance(p, q))
  {
    hide *;
    ContractsAt(ct, l, p, q);
    ImproveDistance(tb, Shift(ct, p).value, Shift(ct, q).value);
  }

  lemma RootFixed(ct: CTable, tb: LP, root: LP)
    requires Sound(ct) && Root(ct, tb, root)
    ensures Shift(ct, root).Some? && Improve(tb, Shift(ct, root).value) == root
  {
    hide Shift;
  }

  lemma GuessNext(ct: CTable, tb: LP, k: nat)
    requires Sound(ct)
    ensures Guess(ct, tb, 0) == Some(tb)
    ensures Guess(ct, tb, k + 1).Some? <==> Guess(ct, tb, k).Some? && Shift(ct, Guess(ct, tb, k).value).Some?
    ensures Guess(ct, tb, k + 1).Some? ==>
      Guess(ct, tb, k + 1).value == Improve(tb, Shift(ct, Guess(ct, tb, k).value).value)
  {
    hide Shift, Improve;
  }

  lemma TimesOne(d: real)
    ensures Times(1.0, d) == d && Times(d, 1.0) == d
  {
  }

  lemma PowerNext(l: real, k: nat)
    ensures Power(l, 0) == 1.0 && Power(l, k + 1) == Times(l, Power(l, k))
  {
  }

  /** Guess k is k contractions closer to the true position than the target is. */
  lemma {:induction false} GuessConverges(ct: CTable, tb: LP, root: LP, k: nat, l: real)
    requires Sound(ct) && Contracts(ct, l) && Root(ct, tb, root) && Guess(ct, tb, k).Some?
    ensures Distance(Guess(ct, tb, k).value, root) <= Times(Power(l, k), Distance(tb, root))
  {
    hide *;
    var d := Distance(tb, root);
    if k == 0 {
      GuessNext(ct, tb, 0);
      PowerNext(l, 0);
      TimesOne(d);
    } else {
      GuessNext(ct, tb, k - 1);
      PowerNext(l, k - 1);
      RootFixed(ct, tb, root);
      GuessConverges(ct, tb, root, k - 1, l);
      var t := Guess(ct, tb, k - 1).value;
      ImproveCloser(ct, tb, t, root, l);
      TimesGrows(l, Distance(t, root), Times(Power(l, k - 1), d));
      TimesRegroup(l, Power(l, k - 1), d);
    }
  }

  lemma TimesShrinks(l: real, d: real)
    requires l < 1.0 && d > 0.0
    ensures Times(l, d) < d
  {
    assert (1.0 - l) * d > 0.0;
  }

  lemma DistanceZero(p: LP, q: LP)
    ensures Distance(p, q) >= 0.0 && (Distance(p, q) == 0.0 ==> p == q)
  {
  }

  /** At most one position is shifted to tb by a contraction with a factor below one. */
  lemma RootUnique(ct: CTable, tb: LP, p: LP, q: LP, l: real)
    requires Sound(ct) && Contracts(ct, l) && l < 1.0 && Root(ct, tb, p) && Root(ct, tb, q)
    ensures p == q
  {
    hide *;
    RootFixed(ct, tb, p);
    RootFixed(ct, tb, q);
    ImproveCloser(ct, tb, p, q, l);
    DistanceZero(p, q);
    if Distance(p, q) > 0.0 { TimesShrinks(l, Distance(p, q)); }
  }

  // ----- When the loop stops

  /** The grid yields the step from guess j to the next one. */
  predicate HasStep(ct: CTable, tb: LP, j: nat)
    requires Sound(ct)
  {
    Guess(ct, tb, j).Some? && Guess(ct, tb, j + 1).Some?
  }

  /** That step is within the tolerance on at least one axis. */
  predicate Quiet(ct: CTable, tb: LP, j: nat)
    requires Sound(ct)
  {
    HasStep(ct, tb, j) &&
    var p, q := Guess(ct, tb, j).value, Guess(ct, tb, j + 1).value;
    Abs(p.lam - q.lam) <= 0.000000000001 || Abs(p.phi - q.phi) <= 0.000000000001
  }

  /** That step is within the tolerance on both axes. */
  predicate BothQuiet(ct: CTable, tb: LP, j: nat)
    requires Sound(ct)
  {
    HasStep(ct, tb, j) && Distance(Guess(ct, tb, j).value, Guess(ct, tb, j + 1).value) <= 0.000000000001
  }

  lemma SolveStep(ct: CTable, tb: LP, r: nat)
    requires Sound(ct) && 1 <= r <= 10 && Guess(ct, tb, r).Some?
    ensures Solve(ct, tb, r) ==
      if Guess(ct, tb, r + 1).None? then Guess(ct, tb, r)
      else if r == 10 then None
      else if Quiet(ct, tb, r) then Guess(ct, tb, r + 1)
      else Solve(ct, tb, r + 1)
  {
    hide Guess;
  }

  /** The loop passes over steps that are quiet on neither axis, up to step m: there it falls off the
      grid, or gives up, or finds the first quiet step. */
  lemma {:induction false} SolveStopsAt(ct: CTable, tb: LP, r: nat) returns (m: nat)
    requires Sound(ct) && 1 <= r <= 10 && Guess(ct, tb, r).Some?
    ensures r <= m <= 10 && Guess(ct, tb, m).Some?
    ensures forall j | r <= j < m :: HasStep(ct, tb, j) && !Quiet(ct, tb, j)
    ensures Guess(ct, tb, m + 1).Some? && m <= 9 ==> Quiet(ct, tb, m)
    ensures Solve(ct, tb, r) ==
      if Guess(ct, tb, m + 1).None? then Guess(ct, tb, m)
      else if m == 10 then None
      else Guess(ct, tb, m + 1)
    decreases 10 - r
  {
    hide Guess, Small, Solve;
    SolveStep(ct, tb, r);
    if Guess(ct, tb, r + 1).None? || r == 10 || Quiet(ct, tb, r) {
      m := r;
    } else {
      m := SolveStopsAt(ct, tb, r + 1);
    }
  }

  lemma {:induction false} GuessesBefore(ct: CTable, tb: LP, k: nat, j: nat)
    requires Sound(ct) && j <= k && Guess(ct, tb, k).Some?
    ensures Guess(ct, tb, j).Some?
  {
    hide Guess, Shift;
    if j < k {
      GuessNext(ct, tb, k - 1);
      GuessesBefore(ct, tb, k - 1, j);
    }
  }

  lemma FirstGuess(ct: CTable, tb: LP)
    requires Sound(ct) && Shift(ct, tb).Some?
    ensures Guess(ct, tb, 1).Some?
  {
    hide Shift;
    GuessNext(ct, tb, 0);
  }

  /** The inverse fails exactly when all ten lookups stay on the grid and none of the first nine steps
      is within the tolerance on an axis; the tenth step does not count. */
  lemma SolveFailsIff(ct: CTable, tb: LP)
    requires Sound(ct) && Shift(ct, tb).Some?
    ensures Guess(ct, tb, 1).Some?
    ensures Solve(ct, tb, 1).None? <==>
      Guess(ct, tb, 11).Some? && forall j | 1 <= j <= 9 :: !Quiet(ct, tb, j)
  {
    hide Guess, Solve, Shift, HasStep, Quiet;
    FirstGuess(ct, tb);
    var m := SolveStopsAt(ct, tb, 1);
    if Guess(ct, tb, 11).Some? {
      GuessesBefore(ct, tb, 11, m + 1);
    }
  }

  lemma QuietHasStep(ct: CTable, tb: LP, j: nat)
    requires Sound(ct) && Quiet(ct, tb, j)
    ensures HasStep(ct, tb, j) && Guess(ct, tb, j).Some? && Guess(ct, tb, j + 1).Some?
  {
    hide Guess;
  }

  lemma BothQuietIs(ct: CTable, tb: LP, j: nat)
    requires Sound(ct) && HasStep(ct, tb, j)
    ensures var p, q := Guess(ct, tb, j).value, Guess(ct, tb, j + 1).value;
            BothQuiet(ct, tb, j) <==> Abs(p.lam - q.lam) <= 0.000000000001 && Abs(p.phi - q.phi) <= 0.000000000001
  {
    hide Guess;
  }

  /** The first quiet step decides: the loop ends with the guess behind it, and both axes are within
      the tolerance if and only if the other axis is quiet there, too. */
  lemma FirstQuietDecides(ct: CTable, tb: LP, j: nat)
    requires Sound(ct) && Shift(ct, tb).Some? && 1 <= j <= 9 && Quiet(ct, tb, j)
    requires forall i | 1 <= i < j :: !Quiet(ct, tb, i)
    ensures Guess(ct, tb, 1).Some? && Solve(ct, tb, 1) == Guess(ct, tb, j + 1)
    ensures var p, q := Guess(ct, tb, j).value, Guess(ct, tb, j + 1).value;
            BothQuiet(ct, tb, j) <==> Abs(p.lam - q.lam) <= 0.000000000001 && Abs(p.phi - q.phi) <= 0.000000000001
  {
    hide Guess, Solve, Shift, HasStep, Quiet, BothQuiet;
    FirstGuess(ct, tb);
    QuietHasStep(ct, tb, j);
    BothQuietIs(ct, tb, j);
    var m := SolveStopsAt(ct, tb, 1);
    GuessesBefore(ct, tb, j + 1, if m < j then m + 1 else j + 1);
  }

  /** How far the forward shift of a guess misses the target is the next step, axis by axis. */
  lemma ResidualIsStep(ct: CTable, tb: LP, k: nat)
    requires Sound(ct) && HasStep(ct, tb, k)
    ensures Forward(ct, Guess(ct, tb, k).value).Some?
    ensures Distance(Forward(ct, Guess(ct, tb, k).value).value, tb)
         == Distance(Guess(ct, tb, k).value, Guess(ct, tb, k + 1).value)
  {
    hide Guess, Shift;
    GuessNext(ct, tb, k);
  }

  /** The forward shift of what a tolerance exit returns meets the target on both axes exactly when the
      step behind it, which the loop does not look at, is quiet on both. */
  lemma SolvesBothAxesIff(ct: CTable, tb: LP, k: nat)
    requires Sound(ct) && Shift(ct, tb).Some? && HasStep(ct, tb, k)
    ensures Forward(ct, Guess(ct, tb, k).value).Some?
    ensures Distance(Forward(ct, Guess(ct, tb, k).value).value, tb) <= 0.000000000001 <==> BothQuiet(ct, tb, k)
  {
    hide Guess, Shift, Distance, Forward;
    ResidualIsStep(ct, tb, k);
  }

  /** If the step before was quiet on both axes and the shift does not expand, it is. */
  lemma BothQuietStays(ct: CTable, tb: LP, k: nat, l: real)
    requires Sound(ct) && Contracts(ct, l) && l <= 1.0 && BothQuiet(ct, tb, k) && HasStep(ct, tb, k + 1)
    ensures BothQuiet(ct, tb, k + 1)
  {
    hide Guess, Shift, Distance, Times, Contracts, Improve;
    GuessNext(ct, tb, k);
    GuessNext(ct, tb, k + 1);
    var p, q := Guess(ct, tb, k).value, Guess(ct, tb, k + 1).value;
    ImproveCloser(ct, tb, p, q, l);
    DistanceZero(p, q);
    TimesAtMost(l, Distance(p, q));
  }

  lemma TimesAtMost(l: real, d: real)
    requires l <= 1.0 && d >= 0.0
    ensures Times(l, d) <= d
  {
    assert (1.0 - l) * d >= 0.0;
  }

  // ----- What the loop returns

  lemma DistanceTriangle(p: LP, q: LP, r: LP)
    ensures Distance(p, q) <= Distance(p, r) + Distance(q, r)
  {
  }

  lemma DistanceSmall(p: LP, q: LP)
    requires Distance(p, q) <= 0.000000000001
    ensures Small(p, q)
  {
  }

  /** Whatever the inverse returns is guess k of at least one round. */
  lemma SolveIsGuess(ct: CTable, tb: LP) returns (k: nat)
    requires Sound(ct) && Shift(ct, tb).Some? && Guess(ct, tb, 1).Some? && Solve(ct, tb, 1).Some?
    ensures 1 <= k <= 10 && Solve(ct, tb, 1) == Guess(ct, tb, k)
  {
    hide *;
    var m := SolveStopsAt(ct, tb, 1);
    k := if Guess(ct, tb, m + 1).None? then m else m + 1;
  }

  /** It is nearer to the true position than the target by the factor of contraction once for every
      round. */
  lemma InverseNearRoot(ct: CTable, tb: LP, root: LP, l: real) returns (k: nat)
    requires Sound(ct) && Contracts(ct, l) && Root(ct, tb, root)
    requires Shift(ct, tb).Some? && Guess(ct, tb, 1).Some? && Solve(ct, tb, 1).Some?
    ensures 1 <= k <= 10 && Solve(ct, tb, 1) == Guess(ct, tb, k)
    ensures Distance(Solve(ct, tb, 1).value, root) <= Times(Power(l, k), Distance(tb, root))
  {
    hide *;
    k := SolveIsGuess(ct, tb);
    GuessConverges(ct, tb, root, k, l);
  }

  /** The size of the shift at the target, which is the first step. */
  function FirstStep(ct: CTable, tb: LP): (r: real)
    requires Sound(ct) && Shift(ct, tb).Some?
    ensures r >= 0.0
  {
    var s := Shift(ct, tb).value;
    Max(Abs(s.lam), Abs(s.phi))
  }

  lemma FirstStepIs(ct: CTable, tb: LP)
    requires Sound(ct) && Shift(ct, tb).Some?
    ensures Guess(ct, tb, 1).Some? && Distance(tb, Guess(ct, tb, 1).value) == FirstStep(ct, tb)
  {
    hide Shift, Guess;
    GuessNext(ct, tb, 0);
  }

  /** Every step is shorter than the one before by the factor of contraction, whether or not the target
      is the shift of any position. */
  lemma {:induction false} StepShrinks(ct: CTable, tb: LP, k: nat, l: real)
    requires Sound(ct) && Contracts(ct, l) && Shift(ct, tb).Some? && HasStep(ct, tb, k)
    ensures Distance(Guess(ct, tb, k).value, Guess(ct, tb, k + 1).value) <= Times(Power(l, k), FirstStep(ct, tb))
  {
    hide Guess, Shift, Contracts, Times, Distance, Power, FirstStep, Improve;
    var d := FirstStep(ct, tb);
    GuessNext(ct, tb, k);
    if k == 0 {
      FirstStepIs(ct, tb);
      PowerNext(l, 0);
      TimesOne(d);
    } else {
      GuessNext(ct, tb, k - 1);
      StepShrinks(ct, tb, k - 1, l);
      PowerNext(l, k - 1);
      var p, q := Guess(ct, tb, k - 1).value, Guess(ct, tb, k).value;
      ImproveCloser(ct, tb, p, q, l);
      TimesGrows(l, Distance(p, q), Times(Power(l, k - 1), d));
      TimesRegroup(l, Power(l, k - 1), d);
    }
  }

  /** So the forward shift of guess k misses the target by no more than k contractions of the first step. */
  lemma ResidualShrinks(ct: CTable, tb: LP, k: nat, l: real)
    requires Sound(ct) && Contracts(ct, l) && Shift(ct, tb).Some? && HasStep(ct, tb, k)
    ensures Forward(ct, Guess(ct, tb, k).value).Some?
    ensures Distance(Forward(ct, Guess(ct, tb, k).value).value, tb) <= Times(Power(l, k), FirstStep(ct, tb))
  {
    hide Guess, Shift, Contracts, Times, Distance, Power, Forward, FirstStep;
    ResidualIsStep(ct, tb, k);
    StepShrinks(ct, tb, k, l);
  }

  /** The inverse succeeds if nine contractions bring the shift at the target below the tolerance. */
  lemma InverseSucceeds(ct: CTable, tb: LP, l: real)
    requires Sound(ct) && Contracts(ct, l) && Shift(ct, tb).Some?
    requires Times(Power(l, 9), FirstStep(ct, tb)) <= 0.000000000001
    ensures Guess(ct, tb, 1).Some? && Solve(ct, tb, 1).Some?
  {
    SolveFailsIff(ct, tb);
    hide Guess, Shift, Contracts, Times, Distance, Power, Solve, Small, FirstStep;
    if Guess(ct, tb, 11).Some? {
      GuessesBefore(ct, tb, 11, 9);
      GuessesBefore(ct, tb, 11, 10);
      StepShrinks(ct, tb, 9, l);
      DistanceSmall(Guess(ct, tb, 9).value, Guess(ct, tb, 10).value);
      assert Quiet(ct, tb, 9);
    }
  }

  lemma {:induction false} PowerAtMost(l: real, k: nat)
    requires 0.0 <= l <= 1.0
    ensures 0.0 <= Power(l, k) <= 1.0 && (k > 0 ==> Power(l, k) <= l)
  {
    hide Times;
    if k > 0 {
      PowerAtMost(l, k - 1);
      TimesGrows(l, Power(l, k - 1), 1.0);
      TimesGrows(l, 0.0, Power(l, k - 1));
      TimesZero(l);
      TimesOne(l);
    }
  }

  lemma TimesSame(a: real, b: real, d: real)
    requires a <= b && d >= 0.0
    ensures Times(a, d) <= Times(b, d)
  {
    assert (b - a) * d >= 0.0;
  }

  lemma FactorNonnegative(ct: CTable, l: real)
    requires Sound(ct) && Contracts(ct, l)
    ensures l >= 0.0
  {
  }

  /** A condition on the start alone: if l times the shift at the target is within the tolerance, then
      every exit on the grid, tolerance exit or not, leaves both axes within the tolerance. */
  lemma SolvesBothAxes(ct: CTable, tb: LP, l: real)
    requires Sound(ct) && Contracts(ct, l) && l <= 1.0
    requires Shift(ct, tb).Some? && Times(l, FirstStep(ct, tb)) <= 0.000000000001
    requires Guess(ct, tb, 1).Some? && Solve(ct, tb, 1).Some? && Forward(ct, Solve(ct, tb, 1).value).Some?
    ensures Distance(Forward(ct, Solve(ct, tb, 1).value).value, tb) <= 0.000000000001
  {
    hide Guess, Shift, Contracts, Times, Distance, Power, Solve, FirstStep;
    var k := SolveIsGuess(ct, tb);
    GuessNext(ct, tb, k);
    FactorNonnegative(ct, l);
    ResidualShrinks(ct, tb, k, l);
    PowerAtMost(l, k);
    TimesSame(Power(l, k), l, FirstStep(ct, tb));
  }

  /** The shift at the target is small if the true position is near. */
  lemma FirstStepNearRoot(ct: CTable, tb: LP, root: LP, l: real)
    requires Sound(ct) && Contracts(ct, l) && Root(ct, tb, root) && Shift(ct, tb).Some?
    ensures FirstStep(ct, tb) <= Distance(tb, root) + Times(l, Distance(tb, root))
  {
    hide *;
    FirstStepIs(ct, tb);
    GuessConverges(ct, tb, root, 1, l);
    PowerNext(l, 0);
    TimesOne(l);
    DistanceTriangle(tb, Guess(ct, tb, 1).value, root);
  }

  lemma TwoFactors(l: real, d: real)
    ensures Times(l, d + Times(l, d)) == (1.0 + l) * l * d
  {
  }

  /** The same from the distance of the true position. */
  lemma NearRootSolvesBothAxes(ct: CTable, tb: LP, root: LP, l: real)
    requires Sound(ct) && Contracts(ct, l) && l <= 1.0 && Root(ct, tb, root)
    requires (1.0 + l) * l * Distance(tb, root) <= 0.000000000001
    requires Shift(ct, tb).Some? && Guess(ct, tb, 1).Some? && Solve(ct, tb, 1).Some?
    requires Forward(ct, Solve(ct, tb, 1).value).Some?
    ensures Distance(Forward(ct, Solve(ct, tb, 1).value).value, tb) <= 0.000000000001
  {
    hide *;
    var d := Distance(tb, root);
    FactorNonnegative(ct, l);
    FirstStepNearRoot(ct, tb, root, l);
    TimesGrows(l, FirstStep(ct, tb), d + Times(l, d));
    TwoFactors(l, d);
    SolvesBothAxes(ct, tb, l);
  }

  // ----- In coordinates

  /** A longitude relative to the corner, turned by whole turns, normalizes back to itself if it is
      clearly inside one turn, or if the turning did nothing. */
  lemma AdjLonRestores(lam: real, turns: int)
    requires Abs(lam - PI) < TWOPI - SPI || (turns == 0 && Abs(lam - PI) <= SPI)
    ensures AdjLon(lam - TWOPI * turns as real - PI) + PI == lam
  {
    var x := lam - TWOPI * turns as real - PI;
    if turns != 0 {
      TurnedOut(lam - PI, turns);
      var n := Turns(x);
      assert n == -turns by { TurnsOf(lam - PI, turns); }
    }
  }

  lemma TurnedOut(y: real, turns: int)
    requires Abs(y) < TWOPI - SPI && turns != 0
    ensures Abs(y - TWOPI * turns as real) > SPI
  {
    if turns > 0 { assert TWOPI * turns as real >= TWOPI; } else { assert TWOPI * turns as real <= -TWOPI; }
  }

  lemma TurnsOf(y: real, turns: int)
    requires Abs(y) < TWOPI - SPI
    ensures ((y - TWOPI * turns as real + PI) / TWOPI).Floor == -turns
  {
    var f := (y + PI) / TWOPI;
    assert (y - TWOPI * turns as real + PI) / TWOPI == f - turns as real;
    assert 0.0 <= f < 1.0;
  }

  /** Position t, relative to the corner, is found again from the coordinates the inverse makes of it. */
  predicate Restored(ct: CTable, t: LP) {
    Abs(t.lam - PI) < TWOPI - SPI || (Turns(t.lam + ct.ll.lam) == 0 && Abs(t.lam - PI) <= SPI)
  }

  lemma NormalizedBack(ct: CTable, t: LP)
    requires Restored(ct, t)
    ensures Normalized(ct, LP(AdjLon(t.lam + ct.ll.lam), t.phi + ct.ll.phi)) == t
  {
    hide AdjLon, Turns;
    AdjLonRestores(t.lam, Turns(t.lam + ct.ll.lam));
    assert AdjLon(t.lam + ct.ll.lam) - ct.ll.lam - PI == t.lam - TWOPI * Turns(t.lam + ct.ll.lam) as real - PI;
  }

  lemma WholeTurns(a: int, b: int)
    ensures TWOPI * a as real + TWOPI * b as real == TWOPI * (a + b) as real
  {
  }

  /** Shifting the answer of the inverse forward again leads back to the input, up to whole turns and
      up to what k contractions have left of the shift at the input. */
  lemma ForwardOfInverse(ct: CTable, p: LP, l: real) returns (k: nat, turns: int)
    requires Sound(ct) && Contracts(ct, l)
    requires var tb := Normalized(ct, p);
             Shift(ct, tb).Some? && Guess(ct, tb, 1).Some? && Solve(ct, tb, 1).Some?
             && Forward(ct, Solve(ct, tb, 1).value).Some? && Restored(ct, Solve(ct, tb, 1).value)
    ensures 1 <= k <= 10 && Convert(ct, true, p).Some?
    ensures var bound := Times(Power(l, k), FirstStep(ct, Normalized(ct, p)));
            var back := Convert(ct, false, Convert(ct, true, p).value);
            back.Some? && Abs(back.value.lam + TWOPI * turns as real - p.lam) <= bound
                       && Abs(back.value.phi - p.phi) <= bound
  {
    hide Guess, Shift, Contracts, Times, Power, Solve, AdjLon, Turns, Restored, FirstStep;
    var tb := Normalized(ct, p);
    k := SolveIsGuess(ct, tb);
    GuessNext(ct, tb, k);
    ResidualShrinks(ct, tb, k, l);
    var t := Solve(ct, tb, 1).value;
    var q := LP(AdjLon(t.lam + ct.ll.lam), t.phi + ct.ll.phi);
    NormalizedBack(ct, t);
    var s := Shift(ct, t).value;
    var there, here := Turns(t.lam + ct.ll.lam), Turns(p.lam - ct.ll.lam - PI);
    turns := there + here;
    WholeTurns(there, here);
    assert q.lam - s.lam + TWOPI * turns as real - p.lam == t.lam - s.lam - tb.lam;
  }

  /** The answer itself, up to whole turns, is as near to the true position as the loop has brought it. */
  lemma InverseInCoordinates(ct: CTable, p: LP, root: LP, l: real) returns (k: nat, turns: int)
    requires Sound(ct) && Contracts(ct, l) && Root(ct, Normalized(ct, p), root)
    requires Convert(ct, true, p).Some?
    ensures 1 <= k <= 10
    ensures var bound := Times(Power(l, k), Distance(Normalized(ct, p), root));
            var q := Convert(ct, true, p).value;
            Abs(q.lam + TWOPI * turns as real - (root.lam + ct.ll.lam)) <= bound
            && Abs(q.phi - (root.phi + ct.ll.phi)) <= bound
  {
    hide Guess, Shift, Contracts, Times, Power, Root, Solve, AdjLon, Turns;
    var tb := Normalized(ct, p);
    FirstGuess(ct, tb);
    k := InverseNearRoot(ct, tb, root, l);
    turns := Turns(Solve(ct, tb, 1).value.lam + ct.ll.lam);
  }

  // ----- A table whose inverse stops early

  /** A table without shift in longitude whose shift in latitude is half the latitude. */
  function HalfTable(): CTable {
    CTable(LP(0.0, 0.0), LP(1.0, 1.0), 2, 2, [LP(0.0, 0.0), LP(0.0, 0.0), LP(0.0, 0.5), LP(0.0, 0.5)])
  }

  lemma HalfTableShift(t: LP)
    requires 0.0 <= t.lam <= 1.0 && 0.0 <= t.phi <= 1.0
    ensures Sound(HalfTable()) && Shift(HalfTable(), t) == Some(LP(0.0, 0.5 * t.phi))
  {
    var ct := HalfTable();
    hide Surface;
    SurfaceInCell(Rows(ct, true), 2, 0, 0, t.lam, t.phi);
    SurfaceInCell(Rows(ct, false), 2, 0, 0, t.lam, t.phi);
  }

  lemma RowsAt(ct: CTable, lam: bool, i: nat, j: nat, k: nat)
    requires Sound(ct) && i < ct.limLam && j < ct.limPhi && k == j * ct.limLam + i
    ensures k < |ct.cvs| && Rows(ct, lam)[j][i] == if lam then ct.cvs[k].lam else ct.cvs[k].phi
  {
    assert Cell(ct, i, j) == k;
  }

  lemma TwoByTwo(m: seq<seq<real>>)
    requires |m| == 2 && |m[0]| == 2 && |m[1]| == 2
    ensures m == [[m[0][0], m[0][1]], [m[1][0], m[1][1]]]
  {
    assert m[0] == [m[0][0], m[0][1]] && m[1] == [m[1][0], m[1][1]];
  }

  lemma HalfTableRows(lam: bool)
    ensures Sound(HalfTable())
    ensures Rows(HalfTable(), lam) == if lam then [[0.0, 0.0], [0.0, 0.0]] else [[0.0, 0.0], [0.5, 0.5]]
  {
    var ct := HalfTable();
    hide Rows;
    RowsAt(ct, lam, 0, 0, 0);
    RowsAt(ct, lam, 1, 0, 1);
    RowsAt(ct, lam, 0, 1, 2);
    RowsAt(ct, lam, 1, 1, 3);
    TwoByTwo(Rows(ct, lam));
  }

  lemma PlainRows(m: seq<seq<real>>, t: real)
    requires m == [[0.0, 0.0], [t, t]] && 0.0 <= t <= 0.5
    ensures RowStepsWithin(m, 0.0) && RowsApart(m, 2, 0.5)
  {
  }

  /** Its shift is a contraction with factor one half. */
  lemma HalfTableContracts()
    ensures Sound(HalfTable()) && Contracts(HalfTable(), 0.5)
  {
    hide Rows, RowStepsWithin, RowsApart, Contracts;
    var ct := HalfTable();
    assert Times(0.0, Abs(ct.del.lam)) == 0.0 && Times(0.5, Abs(ct.del.phi)) == 0.5;
    forall lam ensures Rows(ct, lam) == [[0.0, 0.0], [if lam then 0.0 else 0.5, if lam then 0.0 else 0.5]] {
      HalfTableRows(lam);
    }
    forall lam ensures RowStepsWithin(Rows(ct, lam), 0.0) && RowsApart(Rows(ct, lam), 2, 0.5) {
      PlainRows(Rows(ct, lam), if lam then 0.0 else 0.5);
    }
    GentleContracts(ct, 0.0, 0.5);
  }

  /** One quiet axis ends the loop, although the guesses converge: here the step in latitude is an
      eighth of a radian, and what is returned is far from the position that is shifted to the target. */
  lemma InverseStopsEarly()
    ensures var ct, tb := HalfTable(), LP(0.5, 0.5);
            Sound(ct) && Guess(ct, tb, 1) == Some(LP(0.5, 0.25)) && Solve(ct, tb, 1) == Some(LP(0.5, 0.375))
            && Root(ct, tb, LP(0.5, 1.0 / 3.0))
  {
    var ct, tb := HalfTable(), LP(0.5, 0.5);
    HalfTableShift(LP(0.5, 1.0 / 3.0));
    HalfTableShift(tb);
    HalfTableShift(LP(0.5, 0.25));
    hide Shift, HalfTable;
    assert Guess(ct, tb, 0) == Some(tb);
    assert Guess(ct, tb, 1) == Some(LP(0.5, 0.25));
    assert Guess(ct, tb, 2) == Some(LP(0.5, 0.375));
  }

  // ----- A contraction that the differences of nodes do not show

  /** Each component of the shift is six tenths of its own coordinate. */
  function ScaleTable(): CTable {
    CTable(LP(0.0, 0.0), LP(1.0, 1.0), 2, 2, [LP(0.0, 0.0), LP(0.6, 0.0), LP(0.0, 0.6), LP(0.6, 0.6)])
  }

  lemma ScaleTableRows(lam: bool)
    ensures Sound(ScaleTable())
    ensures Rows(ScaleTable(), lam) == if lam then [[0.0, 0.6], [0.0, 0.6]] else [[0.0, 0.0], [0.6, 0.6]]
  {
    var ct := ScaleTable();
    hide Rows;
    RowsAt(ct, lam, 0, 0, 0);
    RowsAt(ct, lam, 1, 0, 1);
    RowsAt(ct, lam, 0, 1, 2);
    RowsAt(ct, lam, 1, 1, 3);
    TwoByTwo(Rows(ct, lam));
  }

  lemma ScaleSurface(lam: bool, x: real, y: real)
    requires 0.0 <= x <= 1.0 && 0.0 <= y <= 1.0
    ensures var m: seq<seq<real>> := if lam then [[0.0, 0.6], [0.0, 0.6]] else [[0.0, 0.0], [0.6, 0.6]];
            OnRows(m, 2, x) && On(2, y) && Surface(m, 2, x, y) == if lam then 0.6 * x else 0.6 * y
  {
    var m: seq<seq<real>> := if lam then [[0.0, 0.6], [0.0, 0.6]] else [[0.0, 0.0], [0.6, 0.6]];
    hide Surface, Mix;
    SurfaceInCell(m, 2, 0, 0, x, y);
    MixAcross(x, y);
    MixUp(x, y);
  }

  lemma ScaleTableShift(t: LP)
    ensures Sound(ScaleTable())
    ensures Shift(ScaleTable(), t).Some? ==>
      Shift(ScaleTable(), t).value == LP(0.6 * Clamp(2, t.lam), 0.6 * Clamp(2, t.phi))
  {
    hide Surface, Rows;
    ScaleTableRows(true);
    ScaleTableRows(false);
    ScaleSurface(true, Clamp(2, t.lam), Clamp(2, t.phi));
    ScaleSurface(false, Clamp(2, t.lam), Clamp(2, t.phi));
  }

  lemma MixAcross(x: real, y: real)
    ensures Mix(Mix(0.0, 0.6, x), Mix(0.0, 0.6, x), y) == 0.6 * x
  {
    assert Mix(0.0, 0.6, x) == 0.6 * x;
    MixSame(y, 0.6 * x);
  }

  lemma MixUp(x: real, y: real)
    ensures Mix(Mix(0.0, 0.0, x), Mix(0.6, 0.6, x), y) == 0.6 * y
  {
    MixSame(x, 0.0);
    MixSame(x, 0.6);
  }

  lemma ScaledDistance(p: LP, q: LP)
    ensures Distance(LP(0.6 * Clamp(2, p.lam), 0.6 * Clamp(2, p.phi)), LP(0.6 * Clamp(2, q.lam), 0.6 * Clamp(2, q.phi)))
         <= Times(0.6, Distance(p, q))
  {
  }

  /** It is a contraction with factor 0.6, although the rates of its nodes only add up to 1.2. */
  lemma ScaleTableContracts()
    ensures Sound(ScaleTable()) && Contracts(ScaleTable(), 0.6)
    ensures forall a, b :: Gentle(ScaleTable(), a, b) ==> a + b >= 1.2
  {
    var ct := ScaleTable();
    forall p, q | Shift(ct, p).Some? && Shift(ct, q).Some?
      ensures Distance(Shift(ct, p).value, Shift(ct, q).value) <= Times(0.6, Distance(p, q))
    {
      ScaleTableShift(p);
      ScaleTableShift(q);
      ScaledDistance(p, q);
    }
    forall a, b | Gentle(ct, a, b) ensures a + b >= 1.2 {
      RowsAt(ct, true, 0, 0, 0);
      RowsAt(ct, true, 1, 0, 1);
      RowsAt(ct, false, 0, 0, 0);
      RowsAt(ct, false, 0, 1, 2);
      GentleSteps(Rows(ct, true), Rows(ct, false), a, b);
    }
  }

  lemma GentleSteps(m: seq<seq<real>>, n: seq<seq<real>>, a: real, b: real)
    requires |m| == |n| == 2 && |m[0]| == |m[1]| == |n[0]| == |n[1]| == 2
    requires RowStepsWithin(m, Times(a, Abs(1.0))) && RowsApart(n, 2, Times(b, Abs(1.0)))
    requires m[0][1] - m[0][0] == 0.6 && n[1][0] - n[0][0] == 0.6
    ensures a >= 0.6 && b >= 0.6
  {
    assert Times(a, Abs(1.0)) == a && Times(b, Abs(1.0)) == b;
    assert StepsWithin(m[0], a) && Apart(n[1], n[0], b);
    assert Abs(m[0][1] - m[0][0]) <= a && Abs(n[1][0] - n[0][0]) <= b;
  }
}
