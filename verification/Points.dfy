/** Strided coordinate arrays: up to three axes, each an array with a start offset, that may share
    one buffer. */
module Points {
  import opened Options

  /** A double of which only finite values and the failure mark HUGE_VAL matter. */
  datatype Num = Fin(r: real) | Huge

  datatype Pt = Pt(x: Num, y: Num, z: Num)

  /** What one stage makes of one point: a new point, or an error that ends the whole call. */
  datatype Outcome = Ok(pt: Pt) | Fatal(code: int)

  datatype Axis = Axis(mem: array<Num>, base: nat)

  function Slot(base: nat, stride: nat, i: nat): nat {
    base + stride * i
  }

  lemma SlotsDiffer(base: nat, stride: nat, i: nat, k: nat)
    requires stride > 0 && i != k
    ensures Slot(base, stride, i) != Slot(base, stride, k)
  {
    if i < k {
      assert stride * (k - i) > 0;
    } else {
      assert stride * (i - k) > 0;
    }
  }

  /** n points, stride slots apart; without a z axis heights read as zero. */
  datatype View = View(x: Axis, y: Axis, z: Option<Axis>, stride: nat, n: nat)
  {
    ghost function Memory(): set<array<Num>> {
      {x.mem, y.mem} + if z.Some? then {z.value.mem} else {}
    }

    /** Cell (m, k) holds the coordinate of point i on axis a. */
    ghost predicate IsCell(a: Axis, i: nat, m: array<Num>, k: nat) {
      a.mem == m && Slot(a.base, stride, i) == k
    }

    /** Cell (m, k) belongs to some point. */
    ghost predicate Used(m: array<Num>, k: nat) {
      exists i: nat :: i < n && (IsCell(x, i, m, k) || IsCell(y, i, m, k) || (z.Some? && IsCell(z.value, i, m, k)))
    }

    ghost predicate InBounds(a: Axis) {
      forall i: nat | i < n :: Slot(a.base, stride, i) < a.mem.Length
    }

    ghost predicate AxesApart(a: Axis, b: Axis) {
      forall i: nat, k: nat | i < n && k < n :: a.mem == b.mem ==> Slot(a.base, stride, i) != Slot(b.base, stride, k)
    }

    /** All coordinates of all points lie in bounds and in different cells. */
    ghost predicate Valid() {
      && stride > 0
      && InBounds(x) && InBounds(y) && AxesApart(x, y)
      && (z.Some? ==> InBounds(z.value) && AxesApart(x, z.value) && AxesApart(y, z.value))
    }

    function At(i: nat): Pt
      requires Valid() && i < n
      reads Memory()
    {
      Pt(x.mem[Slot(x.base, stride, i)], y.mem[Slot(y.base, stride, i)],
         if z.Some? then z.value.mem[Slot(z.value.base, stride, i)] else Fin(0.0))
    }

    ghost function All(): (s: seq<Pt>)
      requires Valid()
      reads Memory()
      ensures |s| == n
    {
      seq(n, i requires 0 <= i < n && Valid() reads Memory() => At(i))
    }
  }

  /** Point i is stride * i cells behind the start of each axis. */
  lemma PointCells(v: View, i: nat)
    requires v.Valid() && i < v.n
    ensures v.x.base + v.stride * i < v.x.mem.Length && v.At(i).x == v.x.mem[v.x.base+v.stride*i]
    ensures v.y.base + v.stride * i < v.y.mem.Length && v.At(i).y == v.y.mem[v.y.base+v.stride*i]
    ensures v.z.Some? ==>
      v.z.value.base + v.stride * i < v.z.value.mem.Length && v.At(i).z == v.z.value.mem[v.z.value.base+v.stride*i]
  {
    assert Slot(v.x.base, v.stride, i) < v.x.mem.Length && Slot(v.y.base, v.stride, i) < v.y.mem.Length;
    assert v.z.Some? ==> Slot(v.z.value.base, v.stride, i) < v.z.value.mem.Length;
  }

  /** Cells that belong to no point keep their contents. */
  twostate predicate Untouched(v: View)
    reads v.Memory()
  {
    forall m, k: nat | m in v.Memory() && k < m.Length && !v.Used(m, k) :: m[k] == old(m[k])
  }

  /** Stores one point; the height is dropped when there is no z axis. */
  method Put(v: View, i: nat, p: Pt)
    requires v.Valid() && i < v.n
    modifies v.Memory()
    ensures v.At(i) == if v.z.Some? then p else p.(z := Fin(0.0))
    ensures forall k: nat | k < v.n && k != i :: v.At(k) == old(v.At(k))
    ensures Untouched(v)
  {
    forall k: nat | k != i
      ensures Slot(v.x.base, v.stride, k) != Slot(v.x.base, v.stride, i)
      ensures Slot(v.y.base, v.stride, k) != Slot(v.y.base, v.stride, i)
      ensures v.z.Some? ==> Slot(v.z.value.base, v.stride, k) != Slot(v.z.value.base, v.stride, i)
    {
      SlotsDiffer(v.x.base, v.stride, k, i);
      SlotsDiffer(v.y.base, v.stride, k, i);
      if v.z.Some? { SlotsDiffer(v.z.value.base, v.stride, k, i); }
    }
    hide Slot;
    v.x.mem[Slot(v.x.base, v.stride, i)] := p.x;
    v.y.mem[Slot(v.y.base, v.stride, i)] := p.y;
    if v.z.Some? {
      v.z.value.mem[Slot(v.z.value.base, v.stride, i)] := p.z;
    }
    assert v.IsCell(v.x, i, v.x.mem, Slot(v.x.base, v.stride, i));
    assert v.IsCell(v.y, i, v.y.mem, Slot(v.y.base, v.stride, i));
    assert v.z.Some? ==> v.IsCell(v.z.value, i, v.z.value.mem, Slot(v.z.value.base, v.stride, i));
  }

  /** What a stage leaves of a point when there is no z axis. */
  function Fitted(hasZ: bool, o: Outcome): Outcome {
    if o.Ok? && !hasZ then Ok(o.pt.(z := Fin(0.0))) else o
  }

  ghost predicate Done(stage: Pt -> Outcome, hasZ: bool, a: seq<Pt>, b: seq<Pt>) {
    |a| == |b| && forall i | 0 <= i < |a| :: Fitted(hasZ, stage(a[i])) == Ok(b[i])
  }

  ghost predicate Stuck(stage: Pt -> Outcome, a: seq<Pt>, code: int) {
    exists i :: 0 <= i < |a| && stage(a[i]) == Fatal(code)
  }

  /** One whole-array loop: applies the stage to every point in turn and stops at the first fatal
      error, with the points before it already changed. */
  method Pass(stage: Pt -> Outcome, v: View) returns (code: int)
    requires v.Valid() && forall p :: stage(p).Fatal? ==> stage(p).code != 0
    modifies v.Memory()
    ensures code == 0 ==> Done(stage, v.z.Some?, old(v.All()), v.All())
    ensures code != 0 ==> Stuck(stage, old(v.All()), code)
    ensures Untouched(v)
  {
    var i := 0;
    while i < v.n
      invariant i <= v.n
      invariant forall k: nat | k < i :: Fitted(v.z.Some?, stage(old(v.At(k)))) == Ok(v.At(k))
      invariant forall k: nat | i <= k < v.n :: v.At(k) == old(v.At(k))
      invariant Untouched(v)
    {
      var o := stage(v.At(i));
      if o.Fatal? {
        assert old(v.All())[i] == v.At(i);
        return o.code;
      }
      Put(v, i, o.pt);
      i := i + 1;
    }
    code := 0;
  }
}
