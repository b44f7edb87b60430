/** What the Chebyshev code relies on about the cosine, and the cosine tables it builds.

    The cosine and pi are parameters; CosineLaws lists the facts of trigonometry that are used. */
module Cosines {
  import opened Reals
  import opened Sums
  import opened ChebyshevPolynomials

  ghost predicate SumLaw(cos: real -> real, x: real, y: real) {
    cos(x + y) + cos(x - y) == 2.0 * (cos(x) * cos(y))
  }

  ghost predicate VanishesAt(cos: real -> real, pi: real, k: nat) {
    cos(pi * (k as real + 0.5)) == 0.0
  }

  ghost predicate Decreases(cos: real -> real, x: real, y: real) {
    cos(x) > cos(y)
  }

  ghost predicate CosineLaws(cos: real -> real, pi: real) {
    && pi > 0.0
    && cos(0.0) == 1.0
    && (forall x :: -1.0 <= cos(x) <= 1.0)
    && (forall x, y :: SumLaw(cos, x, y))
    && (forall k: nat :: VanishesAt(cos, pi, k))
    && (forall x, y | 0.0 <= x < y <= pi :: Decreases(cos, x, y))
  }

  /** The angle of sample k of n. */
  function Angle(pi: real, n: nat, k: nat): real
    requires n > 0
  {
    pi * (k as real + 0.5) / n as real
  }

  /** Sample point k of n in [-1, 1]. */
  function Node(cos: real -> real, pi: real, n: nat, k: nat): real
    requires n > 0
  {
    cos(Angle(pi, n, k))
  }

  /** Entry (i, k) of the cosine table of size n. */
  function Entry(cos: real -> real, pi: real, n: nat, i: nat, k: nat): real
    requires n > 0
  {
    cos(pi * i as real * (k as real + 0.5) / n as real)
  }

  ghost function Table(cos: real -> real, pi: real, n: nat, i: nat): (r: Vector)
    requires n > 0
    ensures |r| == n
  {
    seq(n, k requires 0 <= k < n => Entry(cos, pi, n, i, k))
  }

  lemma CosineStep(cos: real -> real, pi: real, theta: real, a: real, b: real, c: real)
    requires CosineLaws(cos, pi) && b == a + theta && c == b + theta
    ensures Next(cos(theta), cos(a), cos(b), cos(c))
  {
    assert SumLaw(cos, b, theta);
    assert b + theta == c && b - theta == a;
  }

  lemma NextSame(x: real, a: real, b: real, c: real, d: real)
    requires Next(x, a, b, c) && Next(x, a, b, d)
    ensures c == d
  {
  }

  lemma CosineStart(cos: real -> real, pi: real, theta: real)
    requires CosineLaws(cos, pi)
    ensures cos(0.0) == T(0, cos(theta)) && cos(theta) == T(1, cos(theta))
  {
  }

  lemma Multiples(i: nat, theta: real)
    requires i >= 2
    ensures (i - 1) as real * theta == (i - 2) as real * theta + theta
    ensures i as real * theta == (i - 1) as real * theta + theta
  {
  }

  /** Cosines of multiples are Chebyshev values. */
  lemma {:induction false} CosineOfMultiple(cos: real -> real, pi: real, theta: real, i: nat, m: real)
    requires CosineLaws(cos, pi) && m == i as real * theta
    ensures cos(m) == T(i, cos(theta))
  {
    hide CosineLaws, T, Next;
    if i < 2 {
      CosineStart(cos, pi, theta);
    } else {
      var a, b := (i - 2) as real * theta, (i - 1) as real * theta;
      Multiples(i, theta);
      CosineOfMultiple(cos, pi, theta, i - 1, b);
      CosineOfMultiple(cos, pi, theta, i - 2, a);
      CosineStep(cos, pi, theta, a, b, m);
      TNext(i - 2, cos(theta));
      NextSame(cos(theta), cos(a), cos(b), cos(m), T(i, cos(theta)));
    }
  }

  lemma EntryIsChebyshev(cos: real -> real, pi: real, n: nat, i: nat, k: nat)
    requires n > 0 && CosineLaws(cos, pi)
    ensures Entry(cos, pi, n, i, k) == T(i, Node(cos, pi, n, k))
  {
    var m := pi * i as real * (k as real + 0.5) / n as real;
    MultipleAngle(pi, i as real, k as real + 0.5, n as real);
    CosineOfMultiple(cos, pi, Angle(pi, n, k), i, m);
  }

  lemma MultipleAngle(p: real, i: real, h: real, n: real)
    requires n > 0.0
    ensures p * i * h / n == i * (p * h / n)
  {
    var q := p * h / n;
    assert q * n == p * h;
    assert i * q * n == i * (p * h) == p * i * h;
    assert p * i * h / n == i * q by {
      CancelDivision(i * q, n, p * i * h);
    }
  }

  lemma CancelDivision(q: real, n: real, p: real)
    requires n > 0.0 && q * n == p
    ensures p / n == q
  {
  }

  lemma NodeIsRoot(cos: real -> real, pi: real, n: nat, k: nat)
    requires n > 0 && CosineLaws(cos, pi)
    ensures T(n, Node(cos, pi, n, k)) == 0.0
  {
    var h := pi * (k as real + 0.5);
    assert n as real * (h / n as real) == h;
    CosineOfMultiple(cos, pi, Angle(pi, n, k), n, h);
    assert VanishesAt(cos, pi, k);
  }

  lemma DivisionMonotone(x: real, y: real, n: real)
    requires n > 0.0 && x < y
    ensures x / n < y / n
  {
  }

  lemma ProductMonotone(p: real, x: real, y: real)
    requires p > 0.0 && x < y
    ensures p * x < p * y
  {
    assert p * (y - x) > 0.0;
  }

  lemma NodesDecrease(cos: real -> real, pi: real, n: nat, k: nat, l: nat)
    requires k < l < n && CosineLaws(cos, pi)
    ensures Node(cos, pi, n, k) > Node(cos, pi, n, l)
  {
    var hk, hl := k as real + 0.5, l as real + 0.5;
    ProductMonotone(pi, 0.0, hk);
    ProductMonotone(pi, hk, hl);
    ProductMonotone(pi, hl, n as real);
    DivisionMonotone(0.0, pi * hk, n as real);
    DivisionMonotone(pi * hk, pi * hl, n as real);
    DivisionMonotone(pi * hl, pi * n as real, n as real);
    CancelDivision(pi, n as real, pi * n as real);
    assert Decreases(cos, Angle(pi, n, k), Angle(pi, n, l));
  }

  /** Discrete orthogonality of the cosine table. */
  lemma TableOrthogonal(cos: real -> real, pi: real, n: nat, k: nat, l: nat)
    requires k < n && l < n && CosineLaws(cos, pi)
    ensures Kernel(n, Node(cos, pi, n, k), Node(cos, pi, n, l)) == if k == l then 0.5 * n as real else 0.0
  {
    NodeIsRoot(cos, pi, n, k);
    NodeIsRoot(cos, pi, n, l);
    if k < l {
      NodesDecrease(cos, pi, n, k, l);
    } else if l < k {
      NodesDecrease(cos, pi, n, l, k);
    }
    RootsOrthogonal(n, Node(cos, pi, n, k), Node(cos, pi, n, l));
  }

  // ----- The cosine transform and its inverse

  function TwoOver(n: nat): real
    requires n > 0
  {
    2.0 / n as real
  }

  /** 2/n times the sum of the samples s against row i of the table. */
  ghost function Coefficient(cos: real -> real, pi: real, s: Vector, i: nat): real
    requires |s| > 0
  {
    Times(Dot(s, Table(cos, pi, |s|, i), |s|), TwoOver(|s|))
  }

  ghost function Transform(cos: real -> real, pi: real, s: Vector): (r: Vector)
    requires |s| > 0
    ensures |r| == |s|
  {
    seq(|s|, i requires 0 <= i < |s| => Coefficient(cos, pi, s, i))
  }

  ghost function TableMatrix(cos: real -> real, pi: real, n: nat): (r: Matrix)
    requires n > 0
    ensures IsMatrix(r, n, n)
  {
    seq(n, i requires 0 <= i < n => Table(cos, pi, n, i))
  }

  lemma KernelColumn(cos: real -> real, pi: real, n: nat, l: nat, k: nat)
    requires k < n && l < n && CosineLaws(cos, pi)
    ensures Dot(Weights(Node(cos, pi, n, l), n), Column(TableMatrix(cos, pi, n), k), n)
         == if k == l then 0.5 * n as real else 0.0
  {
    var x, y := Node(cos, pi, n, l), Node(cos, pi, n, k);
    forall i | 0 <= i < n ensures Column(TableMatrix(cos, pi, n), k)[i] == Values(y, n)[i] {
      EntryIsChebyshev(cos, pi, n, i, k);
    }
    assert Column(TableMatrix(cos, pi, n), k) == Values(y, n);
    TableOrthogonal(cos, pi, n, l, k);
  }

  lemma HalfTimesTwoOver(n: real, half: real, s: real, total: real, fac: real)
    requires n > 0.0 && half == 0.5 * n && AddsProduct(total, 0.0, half, s) && fac == 2.0 / n
    ensures Times(total, fac) == s
  {
    assert fac * n == 2.0;
    assert total * fac == 0.5 * s * (n * fac);
  }

  /** Before scaling: the table against the samples, summed with the weights at node l. */
  lemma UnscaledInterpolates(cos: real -> real, pi: real, s: Vector, l: nat, half: real)
    requires l < |s| && CosineLaws(cos, pi) && half == 0.5 * |s| as real
    ensures AddsProduct(Dot(Weights(Node(cos, pi, |s|, l), |s|), RowDots(TableMatrix(cos, pi, |s|), s), |s|),
                        0.0, half, s[l])
  {
    var n := |s|;
    var m := TableMatrix(cos, pi, n);
    var w := Weights(Node(cos, pi, n, l), n);
    var v := ColumnDots(w, m, n, n);
    hide CosineLaws, Dot, Weights, TableMatrix, AddsProduct, Node;
    forall k | 0 <= k < n ensures v[k] == if k == l then half else 0.0 {
      KernelColumn(cos, pi, n, l, k);
    }
    ExchangeSums(w, m, s, n);
    DotSymmetric(s, v, n);
    DotPick(v, s, l, n);
  }

  lemma {:induction false} DotTimes(w: Vector, a: Vector, c: Vector, k: real, n: nat)
    requires n <= |w| && n <= |a| && n <= |c|
    requires forall i | 0 <= i < n :: c[i] == Times(a[i], k)
    ensures Dot(w, c, n) == Times(Dot(w, a, n), k)
  {
    DotScale(w, a, c, k, n);
  }

  lemma TransformEntries(cos: real -> real, pi: real, s: Vector, fac: real)
    requires |s| > 0 && fac == TwoOver(|s|)
    ensures forall i | 0 <= i < |s| :: Transform(cos, pi, s)[i] == Times(RowDots(TableMatrix(cos, pi, |s|), s)[i], fac)
  {
    hide Dot, Times;
  }

  /** The series with the transformed samples as coefficients takes the samples at the nodes. */
  lemma TransformInterpolates(cos: real -> real, pi: real, s: Vector, l: nat)
    requires l < |s| && CosineLaws(cos, pi)
    ensures Series(Transform(cos, pi, s), Node(cos, pi, |s|, l)) == s[l]
  {
    hide CosineLaws, Dot, Times, AddsProduct, Weights, Transform, TableMatrix, RowDots, Node;
    var n := |s|;
    var fac := TwoOver(n);
    var w := Weights(Node(cos, pi, n, l), n);
    var r := RowDots(TableMatrix(cos, pi, n), s);
    var half := 0.5 * n as real;
    UnscaledInterpolates(cos, pi, s, l, half);
    TransformEntries(cos, pi, s, fac);
    DotTimes(w, r, Transform(cos, pi, s), fac, n);
    HalfTimesTwoOver(n as real, half, s[l], Dot(w, r, n), fac);
  }
}
