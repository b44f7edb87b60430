/** Hexagon binning: cell coordinates and the nearest hexagon. */
module Hexbin {
  import opened Reals

  /** Division of int by int as the source language does it: towards zero. */
  function Quotient(a: int, b: int): int
    requires b > 0
  {
    if a >= 0 then a / b else -(-a / b)
  }

  /** The row of a cell in the skewed axes, as a row of the straight ones and the other way round. */
  function Row(x: int, y: int): int {
    (-(y as real) - x as real / 2.0).Floor
  }

  lemma RowIs(x: int, y: int)
    ensures x >= 0 ==> Row(x, y) == -y - Quotient(x + 1, 2)
    ensures x < 0 ==> Row(x, y) == -y - Quotient(x, 2)
  {
    var half := if x >= 0 then (x + 1) / 2 else -(-x / 2);
    var r := -(y as real) - x as real / 2.0;
    assert x <= 2 * half <= x + 1;
    assert half as real - 0.5 <= x as real / 2.0 <= half as real;
  }

  /** For every column of either sign the conversion undoes itself. */
  lemma RowTwice(x: int, y: int)
    ensures Row(x, Row(x, y)) == y
  {
    RowIs(x, y);
    RowIs(x, Row(x, y));
  }

  /** A cell in skewed (iso) coordinates, which then sum to zero, or in straight ones. */
  class Hex {
    var iso: bool
    var x: int
    var y: int
    var z: int

    constructor (iso: bool, x: int, y: int, z: int)
      ensures this.iso == iso && this.x == x && this.y == y && this.z == z
    {
      this.iso, this.x, this.y, this.z := iso, x, y, z;
    }

    method ToXy()
      modifies this
      ensures !iso && x == old(x) && z == old(z)
      ensures y == if old(iso) then Row(old(x), old(y)) else old(y)
    {
      if !iso {
        return;
      }
      RowIs(x, y);
      if x >= 0 {
        y := -y - Quotient(x + 1, 2);
      } else {
        y := -y - Quotient(x, 2);
      }
      iso := false;
    }

    method ToIso()
      modifies this
      ensures iso && x == old(x)
      ensures if old(iso) then y == old(y) && z == old(z) else y == Row(old(x), old(y)) && x + y + z == 0
    {
      if iso {
        return;
      }
      RowIs(x, y);
      if x >= 0 {
        y := -y - Quotient(x + 1, 2);
      } else {
        y := -y - Quotient(x, 2);
      }
      z := -x - y;
      iso := true;
    }
  }

  /** Straight coordinates identify a cell: going there and back restores every iso cell. */
  method ThereAndBack(h: Hex)
    requires h.iso && h.x + h.y + h.z == 0
    modifies h
    ensures h.iso && h.x == old(h.x) && h.y == old(h.y) && h.z == old(h.z)
  {
    RowTwice(h.x, h.y);
    h.ToXy();
    h.ToIso();
  }

  // ----- The nearest hexagon

  function Square(x: real): real {
    x * x
  }

  /** Sum of the squared distances on the three axes. */
  function Cost(x: real, y: real, z: real, i: int, j: int, k: int): real {
    Square(i as real - x) + Square(j as real - y) + Square(k as real - z)
  }

  function Round(x: real): (r: int)
    ensures -0.5 < r as real - x <= 0.5
  {
    (x + 0.5).Floor
  }

  /** How far an integer step goes down. */
  function Down(p: int): nat {
    if p < 0 then -p else 0
  }

  /** What a step of p costs on an axis with rounding error d. */
  lemma StepCost(p: int, d: real, m: real)
    requires 0.0 <= d <= m <= 0.5
    ensures Square(d + p as real) - Square(d) >= Times(Down(p) as real, 1.0 - 2.0 * m)
  {
    var q := p as real;
    assert Square(d + q) - Square(d) == q * q + 2.0 * d * q;
    if p >= 0 {
      assert q * q >= 0.0 && 2.0 * d * q >= 0.0;
    } else {
      var n := -q;
      assert n >= 1.0;
      assert n * (n - 1.0) >= 0.0;
      assert n * (m - d) >= 0.0;
      assert q * q + 2.0 * d * q == n * (n - 1.0) + n * (1.0 - 2.0 * m) + 2.0 * (n * (m - d));
    }
  }

  lemma FreeStep(p: int, d: real)
    requires -0.5 <= d <= 0.5
    ensures Square(d + p as real) >= Square(d)
  {
    if d >= 0.0 {
      StepCost(p, d, 0.5);
    } else {
      StepCost(-p, -d, 0.5);
      assert Square(-d + (-p) as real) == Square(d + p as real) && Square(-d) == Square(d);
    }
  }

  lemma TimesAdds(a: real, b: real, c: real, m: real)
    requires a + b + c >= 1.0 && m >= 0.0
    ensures Times(a, m) + Times(b, m) + Times(c, m) >= m
  {
    hide Times;
    SumTimes(a, b, m);
    SumTimes(a + b, c, m);
    Grows(a + b + c, m);
  }

  lemma SumTimes(a: real, b: real, m: real)
    ensures Times(a, m) + Times(b, m) == Times(a + b, m)
  {
  }

  lemma Grows(n: real, m: real)
    requires n >= 1.0 && m >= 0.0
    ensures Times(n, m) >= m
  {
    assert (n - 1.0) * m >= 0.0;
  }

  /** Rounding errors that add up to one are paid back cheapest on the axis with the largest error. */
  lemma CheapestUp(d: real, e: real, f: real, p: int, q: int, r: int)
    requires d <= 0.5 && e <= 0.5 && f <= 0.5 && d + e + f == 1.0 && p + q + r == -1
    requires d >= e && d >= f
    ensures Square(d + p as real) + Square(e + q as real) + Square(f + r as real)
         >= Square(d - 1.0) + Square(e) + Square(f)
  {
    hide Square;
    var m := 1.0 - 2.0 * d;
    StepCost(p, d, d);
    StepCost(q, e, d);
    StepCost(r, f, d);
    TimesAdds(Down(p) as real, Down(q) as real, Down(r) as real, m);
    SquareLess(d);
  }

  lemma SquareLess(d: real)
    ensures Square(d - 1.0) == Square(d) + 1.0 - 2.0 * d
  {
  }

  lemma SquareNegated(d: real)
    ensures Square(-d) == Square(d)
  {
  }

  /** The same with the sign of the sum given by s. */
  lemma Cheapest(d: real, e: real, f: real, s: int, p: int, q: int, r: int)
    requires -0.5 <= d <= 0.5 && -0.5 <= e <= 0.5 && -0.5 <= f <= 0.5
    requires s in {-1, 1} && d + e + f == s as real && p + q + r == -s
    requires Abs(d) >= Abs(e) && Abs(d) >= Abs(f)
    ensures Square(d + p as real) + Square(e + q as real) + Square(f + r as real)
         >= Square(d - s as real) + Square(e) + Square(f)
  {
    hide Square;
    if s == 1 {
      CheapestUp(d, e, f, p, q, r);
    } else {
      CheapestUp(-d, -e, -f, -p, -q, -r);
      SquareNegated(d + p as real);
      SquareNegated(e + q as real);
      SquareNegated(f + r as real);
      SquareNegated(d + 1.0);
      SquareNegated(e);
      SquareNegated(f);
    }
  }

  /** The rounding errors of three numbers that sum to zero leave a defect of -1, 0 or 1. */
  lemma DefectSmall(x: real, y: real, z: real)
    requires x + y + z == 0.0
    ensures Round(x) + Round(y) + Round(z) in {-1, 0, 1}
  {
  }

  /** No integer triple that sums to zero is cheaper. */
  ghost predicate Nearest(x: real, y: real, z: real, i: int, j: int, k: int) {
    i + j + k == 0 && forall a, b, c | a + b + c == 0 :: Cost(x, y, z, i, j, k) <= Cost(x, y, z, a, b, c)
  }

  /** Rounds to the nearest triple that sums to zero. */
  method NearestTriple(x: real, y: real, z: real) returns (ix: int, iy: int, iz: int)
    requires x + y + z == 0.0
    ensures Nearest(x, y, z, ix, iy, iz)
  {
    hide Square, Round;
    var rx, ry, rz := Round(x), Round(y), Round(z);
    ix, iy, iz := rx, ry, rz;
    DefectSmall(x, y, z);
    var s := ix + iy + iz;
    ghost var d, e, f := rx as real - x, ry as real - y, rz as real - z;
    if s != 0 {
      var absDx, absDy, absDz := Abs(rx as real - x), Abs(ry as real - y), Abs(rz as real - z);
      if absDx >= absDy && absDx >= absDz {
        ix := ix - s;
        forall a, b, c | a + b + c == 0 ensures Cost(x, y, z, ix, iy, iz) <= Cost(x, y, z, a, b, c) {
          Cheapest(d, e, f, s, a - rx, b - ry, c - rz);
        }
      } else if absDy >= absDx && absDy >= absDz {
        iy := iy - s;
        forall a, b, c | a + b + c == 0 ensures Cost(x, y, z, ix, iy, iz) <= Cost(x, y, z, a, b, c) {
          Cheapest(e, d, f, s, b - ry, a - rx, c - rz);
        }
      } else {
        iz := iz - s;
        forall a, b, c | a + b + c == 0 ensures Cost(x, y, z, ix, iy, iz) <= Cost(x, y, z, a, b, c) {
          Cheapest(f, d, e, s, c - rz, a - rx, b - ry);
        }
      }
    } else {
      forall a, b, c | a + b + c == 0 ensures Cost(x, y, z, ix, iy, iz) <= Cost(x, y, z, a, b, c) {
        FreeStep(a - rx, d);
        FreeStep(b - ry, e);
        FreeStep(c - rz, f);
      }
    }
  }

  /** Squared distance in the plane from (x, y) to the centre of cell (i, j). */
  function PlaneDistance(cos30: real, width: real, x: real, y: real, i: int, j: int): real {
    Square(x - cos30 * width * i as real) + Square(y - width * (j as real + i as real / 2.0))
  }

  /** The position in skewed axes, in units of the width. */
  function SkewX(cos30: real, width: real, x: real): real
    requires cos30 != 0.0 && width != 0.0
  {
    x / cos30 / width
  }

  function SkewY(cos30: real, width: real, x: real, y: real): real
    requires cos30 != 0.0 && width != 0.0
  {
    (y - x / cos30 / 2.0) / width
  }

  /** Costs measure distances in the plane. */
  lemma CostIsDistance(cos30: real, width: real, x: real, y: real, i: int, j: int)
    requires cos30 * cos30 == 0.75 && cos30 != 0.0 && width != 0.0
    ensures var u, v := SkewX(cos30, width, x), SkewY(cos30, width, x, y);
            PlaneDistance(cos30, width, x, y, i, j) == Times(width * width / 2.0, Cost(u, v, -u - v, i, j, -i - j))
  {
    var u, v := SkewX(cos30, width, x), SkewY(cos30, width, x, y);
    Unskew(cos30, width, x, y);
    var p, q := i as real - u, j as real - v;
    var a := cos30 * width;
    assert x - a * i as real == -(a * p) by { Spread(a, u, i as real); }
    assert width * v + width * u / 2.0 == y;
    assert y - width * (j as real + i as real / 2.0) == -(width * (q + p / 2.0)) by {
      SpreadMore(width, u, v, i as real, j as real);
    }
    DistanceSquares(cos30, width, p, q);
    assert (-i - j) as real - (-u - v) == -p - q;
  }

  lemma Unskew(cos30: real, width: real, x: real, y: real)
    requires cos30 != 0.0 && width != 0.0
    ensures cos30 * width * SkewX(cos30, width, x) == x
    ensures width * SkewY(cos30, width, x, y) + width * SkewX(cos30, width, x) / 2.0 == y
  {
    var t := x / cos30;
    assert t * cos30 == x;
    var u := t / width;
    assert u * width == t;
    assert cos30 * width * u == cos30 * (u * width) by { Regroup(cos30, width, u); }
    var r := y - t / 2.0;
    assert r / width * width == r;
  }

  lemma Regroup(a: real, b: real, c: real)
    ensures a * b * c == a * (c * b)
  {
  }

  lemma Spread(a: real, u: real, i: real)
    ensures a * u - a * i == -(a * (i - u))
  {
  }

  lemma SpreadMore(w: real, u: real, v: real, i: real, j: real)
    ensures w * v + w * u / 2.0 - w * (j + i / 2.0) == -(w * (j - v + (i - u) / 2.0))
  {
  }

  lemma DistanceSquares(cos30: real, width: real, p: real, q: real)
    requires cos30 * cos30 == 0.75
    ensures Square(-(cos30 * width * p)) + Square(-(width * (q + p / 2.0)))
         == Times(width * width / 2.0, Square(p) + Square(q) + Square(-p - q))
  {
    var w2 := width * width;
    assert Square(-(cos30 * width * p)) == 0.75 * (w2 * (p * p)) by {
      SquareProduct(cos30, width, p);
    }
    assert Square(-(width * (q + p / 2.0))) == w2 * Square(q + p / 2.0) by {
      SquareProduct(1.0, width, q + p / 2.0);
    }
    var pp, pq, qq := p * p, p * q, q * q;
    assert Square(q + p / 2.0) == qq + pq + pp / 4.0;
    assert Square(-p - q) == pp + 2.0 * pq + qq;
    assert w2 * (qq + pq + pp / 4.0) == w2 * qq + w2 * pq + w2 * pp / 4.0;
    assert w2 / 2.0 * (2.0 * pp + 2.0 * pq + 2.0 * qq) == w2 * pp + w2 * pq + w2 * qq;
  }

  lemma SquareProduct(c: real, w: real, p: real)
    ensures Square(-(c * w * p)) == c * c * (w * w * (p * p))
  {
    var t := c * w;
    assert t * t == c * c * (w * w);
    assert (t * p) * (t * p) == t * t * (p * p);
  }

  /** Finds the hexagon of a position.  Its skewed coordinates are those of the nearest triple; they
      can be recovered from the straight ones that are returned.  With the true cosine its centre is
      the nearest of all centres in the plane. */
  method HexBin(cos30: real, width: real, x: real, y: real) returns (i: int, j: int, code: int)
    requires cos30 != 0.0 && width != 0.0
    ensures var u, v := SkewX(cos30, width, x), SkewY(cos30, width, x, y);
            Nearest(u, v, -u - v, i, Row(i, j), -i - Row(i, j)) && code == i * 100 + Row(i, j)
    ensures cos30 * cos30 == 0.75 ==> forall a, b ::
      PlaneDistance(cos30, width, x, y, i, Row(i, j)) <= PlaneDistance(cos30, width, x, y, a, b)
  {
    var x', y' := x / cos30, 0.0;
    y' := y - x' / 2.0;
    x' := x' / width;
    y' := y' / width;
    var z' := -x' - y';
    var ix, iy, iz := NearestTriple(x', y', z');
    var h := new Hex(true, ix, iy, iz);
    h.ToXy();
    i, j, code := h.x, h.y, ix * 100 + iy;
    RowTwice(ix, iy);
    if cos30 * cos30 == 0.75 {
      forall a, b ensures PlaneDistance(cos30, width, x, y, ix, iy) <= PlaneDistance(cos30, width, x, y, a, b) {
        NearestInPlane(cos30, width, x, y, ix, iy, a, b);
      }
    }
  }

  lemma NearestInPlane(cos30: real, width: real, x: real, y: real, i: int, j: int, a: int, b: int)
    requires cos30 * cos30 == 0.75 && cos30 != 0.0 && width != 0.0
    requires var u, v := SkewX(cos30, width, x), SkewY(cos30, width, x, y); Nearest(u, v, -u - v, i, j, -i - j)
    ensures PlaneDistance(cos30, width, x, y, i, j) <= PlaneDistance(cos30, width, x, y, a, b)
  {
    hide PlaneDistance, SkewX, SkewY, Cost;
    var u, v := SkewX(cos30, width, x), SkewY(cos30, width, x, y);
    CostIsDistance(cos30, width, x, y, i, j);
    CostIsDistance(cos30, width, x, y, a, b);
    assert Cost(u, v, -u - v, i, j, -i - j) <= Cost(u, v, -u - v, a, b, -a - b);
    assert width * width > 0.0;
    TimesGrows(width * width / 2.0, Cost(u, v, -u - v, i, j, -i - j), Cost(u, v, -u - v, a, b, -a - b));
  }

}
