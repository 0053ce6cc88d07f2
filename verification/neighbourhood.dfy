/**
 Minimum and maximum of a field over the 2x2x2 stencil at a sampled position
 (`sample_min_dens`, `sample_max_dens`, and the component-wise
 `sample_min_v`, `sample_max_v`), and how trilinear samples relate to them.
 */
module Neighbourhood {
  import opened Vectors
  import opened Grid
  import opened Sampler

  /** The eight corner offsets of the stencil, one by one. */
  lemma OffsetCases(c: Idx)
    requires IsOffset(c)
    ensures c == Idx(0, 0, 0) || c == Idx(0, 0, 1) || c == Idx(0, 1, 0) || c == Idx(0, 1, 1)
         || c == Idx(1, 0, 0) || c == Idx(1, 0, 1) || c == Idx(1, 1, 0) || c == Idx(1, 1, 1)
  {
  }

  /** A value that is at most each named corner is at most every corner. */
  lemma StencilMinCorners(n: Size, x: Field, I: Idx, r: real)
    requires StencilBase(n, I)
    requires r <= x(Shift(I, Idx(0, 0, 0))) && r <= x(Shift(I, Idx(0, 0, 1)))
    requires r <= x(Shift(I, Idx(0, 1, 0))) && r <= x(Shift(I, Idx(0, 1, 1)))
    requires r <= x(Shift(I, Idx(1, 0, 0))) && r <= x(Shift(I, Idx(1, 0, 1)))
    requires r <= x(Shift(I, Idx(1, 1, 0))) && r <= x(Shift(I, Idx(1, 1, 1)))
    ensures forall c :: IsOffset(c) ==> r <= x(Shift(I, c))
  {
    forall c | IsOffset(c)
      ensures r <= x(Shift(I, c))
    {
      OffsetCases(c);
    }
  }

  /** A value that is at least each named corner is at least every corner. */
  lemma StencilMaxCorners(n: Size, x: Field, I: Idx, r: real)
    requires StencilBase(n, I)
    requires x(Shift(I, Idx(0, 0, 0))) <= r && x(Shift(I, Idx(0, 0, 1))) <= r
    requires x(Shift(I, Idx(0, 1, 0))) <= r && x(Shift(I, Idx(0, 1, 1))) <= r
    requires x(Shift(I, Idx(1, 0, 0))) <= r && x(Shift(I, Idx(1, 0, 1))) <= r
    requires x(Shift(I, Idx(1, 1, 0))) <= r && x(Shift(I, Idx(1, 1, 1))) <= r
    ensures forall c :: IsOffset(c) ==> x(Shift(I, c)) <= r
  {
    forall c | IsOffset(c)
      ensures x(Shift(I, c)) <= r
    {
      OffsetCases(c);
    }
  }

  /**
   The minimum loop at stencil base `I`: start from `x[I]` and visit the
   eight corners in `ti.ndrange(2, 2, 2)` order, keeping the smaller value
   (`if res > x[I + c]: res = x[I + c]`, which is `Min(res, x[I + c])`).
   The result is at most every corner; `StencilMinAttained` shows it is one
   of them.
   */
  function StencilMin(n: Size, x: Field, I: Idx): (r: real)
    requires StencilBase(n, I)
    ensures forall c :: IsOffset(c) ==> r <= x(Shift(I, c))
  {
    var r0 := Min(At(n, x, I), At(n, x, Shift(I, Idx(0, 0, 0))));
    var r1 := Min(r0, At(n, x, Shift(I, Idx(0, 0, 1))));
    var r2 := Min(r1, At(n, x, Shift(I, Idx(0, 1, 0))));
    var r3 := Min(r2, At(n, x, Shift(I, Idx(0, 1, 1))));
    var r4 := Min(r3, At(n, x, Shift(I, Idx(1, 0, 0))));
    var r5 := Min(r4, At(n, x, Shift(I, Idx(1, 0, 1))));
    var r6 := Min(r5, At(n, x, Shift(I, Idx(1, 1, 0))));
    var r7 := Min(r6, At(n, x, Shift(I, Idx(1, 1, 1))));
    StencilMinCorners(n, x, I, r7);
    r7
  }

  /**
   The maximum loop at stencil base `I`, in the same order, keeping the
   larger value. The result is at least every corner; `StencilMaxAttained`
   shows it is one of them.
   */
  function StencilMax(n: Size, x: Field, I: Idx): (r: real)
    requires StencilBase(n, I)
    ensures forall c :: IsOffset(c) ==> x(Shift(I, c)) <= r
  {
    var r0 := Max(At(n, x, I), At(n, x, Shift(I, Idx(0, 0, 0))));
    var r1 := Max(r0, At(n, x, Shift(I, Idx(0, 0, 1))));
    var r2 := Max(r1, At(n, x, Shift(I, Idx(0, 1, 0))));
    var r3 := Max(r2, At(n, x, Shift(I, Idx(0, 1, 1))));
    var r4 := Max(r3, At(n, x, Shift(I, Idx(1, 0, 0))));
    var r5 := Max(r4, At(n, x, Shift(I, Idx(1, 0, 1))));
    var r6 := Max(r5, At(n, x, Shift(I, Idx(1, 1, 0))));
    var r7 := Max(r6, At(n, x, Shift(I, Idx(1, 1, 1))));
    StencilMaxCorners(n, x, I, r7);
    r7
  }

  /** The starting value `x[I]` is the corner `(0, 0, 0)`, so the result is always a corner value. */
  lemma StencilMinAttained(n: Size, x: Field, I: Idx)
    requires StencilBase(n, I)
    ensures exists c :: IsOffset(c) && StencilMin(n, x, I) == x(Shift(I, c))
  {
    assert Shift(I, Idx(0, 0, 0)) == I;
  }

  lemma StencilMaxAttained(n: Size, x: Field, I: Idx)
    requires StencilBase(n, I)
    ensures exists c :: IsOffset(c) && StencilMax(n, x, I) == x(Shift(I, c))
  {
    assert Shift(I, Idx(0, 0, 0)) == I;
  }

  /**
   `sample_min_dens(x, p)`: the smallest of the eight stencil values around
   `p`, and one of them.
   */
  function SampleMinDens(n: Size, x: Field, p: Vec3): (r: real)
    ensures forall c :: IsOffset(c) ==> r <= x(Shift(Sample(n, p), c))
    ensures exists c :: IsOffset(c) && r == x(Shift(Sample(n, p), c))
  {
    StencilMinAttained(n, x, Sample(n, p));
    StencilMin(n, x, Sample(n, p))
  }

  /**
   `sample_max_dens(x, p)`: the largest of the eight stencil values around
   `p`, and one of them.
   */
  function SampleMaxDens(n: Size, x: Field, p: Vec3): (r: real)
    ensures forall c :: IsOffset(c) ==> x(Shift(Sample(n, p), c)) <= r
    ensures exists c :: IsOffset(c) && r == x(Shift(Sample(n, p), c))
  {
    StencilMaxAttained(n, x, Sample(n, p));
    StencilMax(n, x, Sample(n, p))
  }

  /**
   `sample_min_v(x, p)`: each component is the minimum of that component
   alone over the stencil, attained by some corner; different components
   may come from different corners.
   */
  function SampleMinV(n: Size, v: VField, p: Vec3): (r: Vec3)
    ensures forall d: Axis, c :: IsOffset(c) ==> r.Get(d) <= v(Shift(Sample(n, p), c)).Get(d)
    ensures forall d: Axis :: exists c :: IsOffset(c) && r.Get(d) == v(Shift(Sample(n, p), c)).Get(d)
  {
    var I := Sample(n, p);
    StencilMinAttained(n, Component(v, 0), I);
    StencilMinAttained(n, Component(v, 1), I);
    StencilMinAttained(n, Component(v, 2), I);
    Vec3(StencilMin(n, Component(v, 0), I), StencilMin(n, Component(v, 1), I), StencilMin(n, Component(v, 2), I))
  }

  /**
   `sample_max_v(x, p)`: each component is the maximum of that component
   alone over the stencil, attained by some corner.
   */
  function SampleMaxV(n: Size, v: VField, p: Vec3): (r: Vec3)
    ensures forall d: Axis, c :: IsOffset(c) ==> v(Shift(Sample(n, p), c)).Get(d) <= r.Get(d)
    ensures forall d: Axis :: exists c :: IsOffset(c) && r.Get(d) == v(Shift(Sample(n, p), c)).Get(d)
  {
    var I := Sample(n, p);
    StencilMaxAttained(n, Component(v, 0), I);
    StencilMaxAttained(n, Component(v, 1), I);
    StencilMaxAttained(n, Component(v, 2), I);
    Vec3(StencilMax(n, Component(v, 0), I), StencilMax(n, Component(v, 1), I), StencilMax(n, Component(v, 2), I))
  }

  /** A trilinear sample lies between the stencil minimum and maximum at the same position. */
  lemma TrilinearWithinNeighbourhood(n: Size, x: Field, p: Vec3)
    ensures SampleMinDens(n, x, p) <= SampleTrilinear(n, x, p) <= SampleMaxDens(n, x, p)
  {
    TrilinearConvex(n, x, p, SampleMinDens(n, x, p), SampleMaxDens(n, x, p));
  }

  /**
   Each component of a vector trilinear sample lies between that
   component's stencil minimum and maximum.
   */
  lemma TrilinearVWithinNeighbourhood(n: Size, v: VField, p: Vec3, d: Axis)
    ensures SampleMinV(n, v, p).Get(d) <= SampleTrilinearV(n, v, p).Get(d) <= SampleMaxV(n, v, p).Get(d)
  {
    var I := Sample(n, p);
    TrilinearVComponent(n, v, I, Frac(n, p), d);
    var lo, hi := SampleMinV(n, v, p).Get(d), SampleMaxV(n, v, p).Get(d);
    forall c | IsOffset(c)
      ensures lo <= Component(v, d)(Shift(I, c)) <= hi
    {
    }
    TrilinearConvex(n, Component(v, d), p, lo, hi);
  }
}
