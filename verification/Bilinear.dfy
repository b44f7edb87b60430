/** Piecewise linear and bilinear interpolation between equally spaced nodes. */
module Bilinear {
  import opened Reals

  /** The point at fraction f on the way from a to b. */
  function Mix(a: real, b: real, f: real): real {
    Times(1.0 - f, a) + Times(f, b)
  }

  predicate On(n: int, x: real) {
    n >= 2 && 0.0 <= x <= (n - 1) as real
  }

  /** The polygon through the values v at 0, 1, 2 and so on. */
  function Linear(v: seq<real>, x: real): real
    requires On(|v|, x)
  {
    var k := x.Floor;
    if k == |v| - 1 then v[k] else Mix(v[k], v[k+1], x - k as real)
  }

  /** The roof of width two around zero. */
  function Hat(d: real): real {
    if Abs(d) < 1.0 then 1.0 - Abs(d) else 0.0
  }

  /** The first n values, each weighted by the roof around its node. */
  function HatSum(v: seq<real>, x: real, n: nat): real
    requires n <= |v|
  {
    if n == 0 then 0.0 else HatSum(v, x, n - 1) + v[n-1] * Hat(x - (n - 1) as real)
  }

  predicate StepsWithin(v: seq<real>, d: real) {
    forall i, k | 0 <= i < |v| && k == i + 1 < |v| :: Abs(v[k] - v[i]) <= d
  }

  lemma MixBetween(a: real, b: real, f: real, lo: real, hi: real)
    requires 0.0 <= f <= 1.0 && lo <= a <= hi && lo <= b <= hi
    ensures lo <= Mix(a, b, f) <= hi
  {
    hide Times;
    ScaleBetween(1.0 - f, a, lo, hi);
    ScaleBetween(f, b, lo, hi);
    MixSame(f, lo);
    MixSame(f, hi);
  }

  lemma MixSame(f: real, a: real)
    ensures Times(1.0 - f, a) + Times(f, a) == a
  {
    assert (1.0 - f + f) * a == a;
  }

  lemma ScaleBetween(f: real, a: real, lo: real, hi: real)
    requires 0.0 <= f && lo <= a <= hi
    ensures Times(f, lo) <= Times(f, a) <= Times(f, hi)
  {
  }

  lemma MixEnds(a: real, b: real)
    ensures Mix(a, b, 0.0) == a && Mix(a, b, 1.0) == b
  {
  }

  lemma MixDifference(a: real, b: real, f: real, g: real, d: real)
    requires Abs(b - a) <= d
    ensures Abs(Mix(a, b, f) - Mix(a, b, g)) <= Times(d, Abs(f - g))
  {
    var s, e := b - a, f - g;
    assert Mix(a, b, f) - Mix(a, b, g) == s * e;
    assert Abs(s * e) == Abs(s) * Abs(e) by {
      AbsTimes(s, e);
    }
    var p, q := Abs(s), Abs(e);
    assert p * q <= d * q;
  }

  lemma MixApart(a: real, b: real, p: real, q: real, f: real, d: real)
    requires 0.0 <= f <= 1.0 && Abs(a - p) <= d && Abs(b - q) <= d
    ensures Abs(Mix(a, b, f) - Mix(p, q, f)) <= d
  {
    var s, e := a - p, b - q;
    assert Mix(a, b, f) - Mix(p, q, f) == Mix(s, e, f);
    MixBetween(s, e, f, -d, d);
  }

  lemma LinearAtNode(v: seq<real>, i: nat)
    requires 2 <= |v| && i < |v|
    ensures Linear(v, i as real) == v[i]
  {
    assert (i as real).Floor == i;
    if i + 1 < |v| { MixEnds(v[i], v[i+1]); }
  }

  /** Either of the two cells that meet at a node may be used there. */
  lemma LinearInCell(v: seq<real>, k: nat, x: real)
    requires k + 1 < |v| && k as real <= x <= (k + 1) as real
    ensures On(|v|, x) && Linear(v, x) == Mix(v[k], v[k+1], x - k as real)
  {
    if x.Floor == k + 1 {
      assert x == (k + 1) as real;
      LinearAtNode(v, k + 1);
      MixEnds(v[k], v[k+1]);
    }
  }

  predicate Apart(v: seq<real>, w: seq<real>, d: real)
    requires |v| == |w|
  {
    forall i | 0 <= i < |v| :: Abs(v[i] - w[i]) <= d
  }

  lemma LinearApart(v: seq<real>, w: seq<real>, x: real, d: real)
    requires |v| == |w| && On(|v|, x) && Apart(v, w, d)
    ensures Abs(Linear(v, x) - Linear(w, x)) <= d
  {
    hide Mix;
    var k := x.Floor;
    if k < |v| - 1 { MixApart(v[k], v[k+1], w[k], w[k+1], x - k as real, d); }
  }

  lemma TimesAdds(d: real, a: real, b: real)
    ensures Times(d, a) + Times(d, b) == Times(d, a + b)
  {
  }

  /** The polygon is no steeper than its steepest edge. */
  lemma {:induction false} LinearLipschitz(v: seq<real>, x: real, y: real, d: real)
    requires On(|v|, x) && On(|v|, y) && x <= y && StepsWithin(v, d)
    ensures Abs(Linear(v, x) - Linear(v, y)) <= Times(d, y - x)
    decreases y.Floor - x.Floor
  {
    hide Mix, Times, Linear;
    var k := x.Floor;
    if y <= (k + 1) as real {
      if k == |v| - 1 {
        assert x == y;
        assert Times(d, 0.0) == 0.0 by { TimesZero(d); }
      } else {
        InCell(v, k, x, y, d);
      }
    } else {
      var n := (k + 1) as real;
      assert n.Floor == k + 1;
      InCell(v, k, x, n, d);
      LinearLipschitz(v, n, y, d);
      TimesAdds(d, n - x, y - n);
    }
  }

  lemma InCell(v: seq<real>, k: nat, x: real, y: real, d: real)
    requires k + 1 < |v| && k as real <= x <= y <= (k + 1) as real && StepsWithin(v, d)
    ensures On(|v|, x) && On(|v|, y) && Abs(Linear(v, x) - Linear(v, y)) <= Times(d, y - x)
  {
    hide Mix, Times, Linear;
    LinearInCell(v, k, x);
    LinearInCell(v, k, y);
    var f, g := x - k as real, y - k as real;
    assert v[k+1] == v[k+1];
    MixDifference(v[k], v[k+1], f, g, d);
    assert Abs(f - g) == y - x;
  }

  /** Roofs of nodes at a distance of one or more do not count. */
  lemma {:induction false} HatsBefore(v: seq<real>, x: real, n: nat)
    requires n <= |v| && n as real <= x
    ensures HatSum(v, x, n) == 0.0
  {
    if n > 0 { HatsBefore(v, x, n - 1); }
  }

  lemma {:induction false} HatsBehind(v: seq<real>, x: real, k: nat, n: nat)
    requires k <= n <= |v| && x <= (k - 1) as real
    ensures HatSum(v, x, n) == HatSum(v, x, k)
  {
    if n > k { HatsBehind(v, x, k, n - 1); }
  }

  /** Interpolation is the sum of the values weighted by the roofs, with no choice of a cell: so it
      has one value on an edge that two cells share. */
  lemma LinearIsHatSum(v: seq<real>, x: real)
    requires On(|v|, x)
    ensures Linear(v, x) == HatSum(v, x, |v|)
  {
    var k := x.Floor;
    HatsBefore(v, x, k);
    if k == |v| - 1 {
      assert x == k as real;
      assert HatSum(v, x, k + 1) == HatSum(v, x, k) + v[k] * Hat(x - k as real);
    } else {
      HatsBehind(v, x, k + 2, |v|);
      assert HatSum(v, x, k + 1) == HatSum(v, x, k) + v[k] * Hat(x - k as real);
      assert HatSum(v, x, k + 2) == HatSum(v, x, k + 1) + v[k+1] * Hat(x - (k + 1) as real);
    }
  }

  // ----- Two directions

  predicate OnRows(m: seq<seq<real>>, width: nat, x: real) {
    On(width, x) && forall j | 0 <= j < |m| :: |m[j]| == width
  }

  function Across(m: seq<seq<real>>, width: nat, x: real): (r: seq<real>)
    requires OnRows(m, width, x)
    ensures |r| == |m|
  {
    seq(|m|, j requires 0 <= j < |m| => Linear(m[j], x))
  }

  /** The bilinear surface over rows of equal width. */
  function Surface(m: seq<seq<real>>, width: nat, x: real, y: real): real
    requires OnRows(m, width, x) && On(|m|, y)
  {
    Linear(Across(m, width, x), y)
  }

  lemma SurfaceAtNode(m: seq<seq<real>>, width: nat, i: nat, j: nat)
    requires OnRows(m, width, i as real) && On(|m|, j as real) && i < width && j < |m|
    ensures Surface(m, width, i as real, j as real) == m[j][i]
  {
    LinearAtNode(Across(m, width, i as real), j);
    LinearAtNode(m[j], i);
  }

  /** The value depends on the four nodes around the point only. */
  lemma SurfaceInCell(m: seq<seq<real>>, width: nat, i: nat, j: nat, x: real, y: real)
    requires i + 1 < width && j + 1 < |m|
    requires i as real <= x <= (i + 1) as real && j as real <= y <= (j + 1) as real
    requires OnRows(m, width, x)
    ensures On(|m|, y) && Surface(m, width, x, y) ==
      Mix(Mix(m[j][i], m[j][i+1], x - i as real), Mix(m[j+1][i], m[j+1][i+1], x - i as real), y - j as real)
  {
    hide Mix, Linear;
    LinearInCell(Across(m, width, x), j, y);
    LinearInCell(m[j], i, x);
    LinearInCell(m[j+1], i, x);
  }

  predicate RowStepsWithin(m: seq<seq<real>>, d: real) {
    forall j | 0 <= j < |m| :: StepsWithin(m[j], d)
  }

  predicate RowsApart(m: seq<seq<real>>, width: nat, d: real)
    requires forall j | 0 <= j < |m| :: |m[j]| == width
  {
    forall j, k | 0 <= j < |m| && k == j + 1 < |m| :: Apart(m[k], m[j], d)
  }

  /** The surface is no steeper in either direction than the differences of neighbouring nodes. */
  lemma SurfaceLipschitz(m: seq<seq<real>>, width: nat, x: real, y: real, p: real, q: real, dx: real, dy: real)
    requires OnRows(m, width, x) && On(|m|, y) && OnRows(m, width, p) && On(|m|, q)
    requires RowStepsWithin(m, dx) && RowsApart(m, width, dy)
    ensures Abs(Surface(m, width, x, y) - Surface(m, width, p, q)) <= Times(dx, Abs(x - p)) + Times(dy, Abs(y - q))
  {
    hide Linear, Times;
    var v, w := Across(m, width, x), Across(m, width, p);
    forall j | 0 <= j < |m| ensures Abs(v[j] - w[j]) <= Times(dx, Abs(x - p)) {
      if x <= p { LinearLipschitz(m[j], x, p, dx); } else { LinearLipschitz(m[j], p, x, dx); }
    }
    LinearApart(v, w, y, Times(dx, Abs(x - p)));
    forall j, k | 0 <= j < |m| && k == j + 1 < |m| ensures Abs(w[k] - w[j]) <= dy {
      LinearApart(m[k], m[j], p, dy);
    }
    if y <= q { LinearLipschitz(w, y, q, dy); } else { LinearLipschitz(w, q, y, dy); }
  }
}
