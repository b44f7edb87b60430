/** Pairs of reals and matrices of pairs held row by row in the heap. */
module Uv {
  import opened Sums

  datatype UV = UV(u: real, v: real)

  const ZERO: UV := UV(0.0, 0.0)

  ghost function Us(s: seq<UV>): Vector {
    seq(|s|, i requires 0 <= i < |s| => s[i].u)
  }

  ghost function Vs(s: seq<UV>): Vector {
    seq(|s|, i requires 0 <= i < |s| => s[i].v)
  }

  lemma PairsOf(s: seq<UV>)
    ensures |Us(s)| == |Vs(s)| == |s| && forall i | 0 <= i < |s| :: s[i] == UV(Us(s)[i], Vs(s)[i])
  {
  }

  lemma PairsAre(s: seq<UV>, u: Vector, v: Vector)
    requires |s| == |u| == |v| && forall i | 0 <= i < |s| :: s[i] == UV(u[i], v[i])
    ensures Us(s) == u && Vs(s) == v
  {
  }

  /** Row pointers of a matrix: rows of equal length that do not share storage. */
  ghost predicate IsGrid(f: seq<array<UV>>, cols: nat) {
    && (forall i | 0 <= i < |f| :: f[i].Length == cols)
    && (forall i, k | 0 <= i < k < |f| :: f[i] != f[k])
  }

  ghost predicate Apart(f: seq<array<UV>>, g: seq<array<UV>>) {
    forall i, k | 0 <= i < |f| && 0 <= k < |g| :: f[i] != g[k]
  }

  ghost function GridU(f: seq<array<UV>>): Matrix
    reads f
  {
    seq(|f|, i requires 0 <= i < |f| reads f => Us(f[i][..]))
  }

  ghost function GridV(f: seq<array<UV>>): Matrix
    reads f
  {
    seq(|f|, i requires 0 <= i < |f| reads f => Vs(f[i][..]))
  }

  lemma GridIs(f: seq<array<UV>>, cols: nat, mu: Matrix, mv: Matrix)
    requires IsGrid(f, cols) && IsMatrix(mu, |f|, cols) && IsMatrix(mv, |f|, cols)
    requires forall i, j | 0 <= i < |f| && 0 <= j < cols :: f[i][j] == UV(mu[i][j], mv[i][j])
    ensures GridU(f) == mu && GridV(f) == mv
  {
    forall i | 0 <= i < |f| ensures GridU(f)[i] == mu[i] && GridV(f)[i] == mv[i] {
    }
  }
}
