/**
 MacCormack clipping (`mc_clipping_dens`, `mc_clipping_v`): a corrected
 value that leaves the range of the stencil around its departure point is
 replaced by the plain semi-Lagrangian sample. Together with `maccormack`
 and `update` this is the advection of one step of the solver.
 */
module Clipping {
  import opened Vectors
  import opened Grid
  import opened Sampler
  import opened Neighbourhood
  import opened Advection

  /**
   One cell of `mc_clipping_dens`: `value` is kept when it lies between the
   stencil minimum and maximum of `x` around `p`, and is replaced by the
   trilinear sample of `x` at `p` otherwise.
   */
  function ClipDens(n: Size, x: Field, value: real, p: Vec3): (r: real)
    ensures SampleMinDens(n, x, p) <= r <= SampleMaxDens(n, x, p)
    ensures SampleMinDens(n, x, p) <= value <= SampleMaxDens(n, x, p) ==> r == value
    ensures !(SampleMinDens(n, x, p) <= value <= SampleMaxDens(n, x, p)) ==> r == SampleTrilinear(n, x, p)
  {
    TrilinearWithinNeighbourhood(n, x, p);
    if value < SampleMinDens(n, x, p) || value > SampleMaxDens(n, x, p) then SampleTrilinear(n, x, p) else value
  }

  /**
   `mc_clipping_dens`: every cell of the corrected density `corrected` is
   clipped against the old density `x` around its departure point in `v`.
   Each grid cell ends in the stencil range of `x` at its departure point,
   and a corrected value already in that range is kept.
   */
  function MCClippingDens(n: Size, v: VField, x: Field, corrected: Field, dt: real): (r: Field)
    ensures forall I {:trigger r(I)} :: InGrid(n, I) ==>
      SampleMinDens(n, x, Backtrace(n, v, I, dt)) <= r(I) <= SampleMaxDens(n, x, Backtrace(n, v, I, dt))
    ensures forall I {:trigger r(I)} :: InGrid(n, I) && SampleMinDens(n, x, Backtrace(n, v, I, dt)) <= corrected(I) <= SampleMaxDens(n, x, Backtrace(n, v, I, dt)) ==>
      r(I) == corrected(I)
  {
    var r := (I: Idx) => if InGrid(n, I) then ClipDens(n, x, corrected(I), Backtrace(n, v, I, dt)) else corrected(I);
    assert forall I {:trigger r(I)} :: InGrid(n, I) ==> r(I) == ClipDens(n, x, corrected(I), Backtrace(n, v, I, dt));
    r
  }

  /** `any(a < lo)`: some component of `a` lies below the same component of `lo`. */
  predicate AnyBelow(a: Vec3, lo: Vec3) {
    a.x < lo.x || a.y < lo.y || a.z < lo.z
  }

  /** `any(a > hi)`: some component of `a` lies above the same component of `hi`. */
  predicate AnyAbove(a: Vec3, hi: Vec3) {
    a.x > hi.x || a.y > hi.y || a.z > hi.z
  }

  /** The clipping test of `mc_clipping_v` fails exactly when the vector is outside the box. */
  lemma OutsideIffAny(a: Vec3, lo: Vec3, hi: Vec3)
    ensures AnyBelow(a, lo) || AnyAbove(a, hi) <==> !Within(a, lo, hi)
  {
  }

  /**
   One cell of `mc_clipping_v`: `value` is kept when every component lies
   within that component's stencil range; if any one component is outside,
   the whole vector is replaced by the trilinear sample.
   */
  function ClipV(n: Size, v: VField, value: Vec3, p: Vec3): (r: Vec3)
    ensures Within(r, SampleMinV(n, v, p), SampleMaxV(n, v, p))
    ensures Within(value, SampleMinV(n, v, p), SampleMaxV(n, v, p)) ==> r == value
    ensures !Within(value, SampleMinV(n, v, p), SampleMaxV(n, v, p)) ==> r == SampleTrilinearV(n, v, p)
  {
    TrilinearVWithinNeighbourhood(n, v, p, 0);
    TrilinearVWithinNeighbourhood(n, v, p, 1);
    TrilinearVWithinNeighbourhood(n, v, p, 2);
    var lo, hi := SampleMinV(n, v, p), SampleMaxV(n, v, p);
    if AnyBelow(value, lo) || AnyAbove(value, hi) then SampleTrilinearV(n, v, p) else value
  }

  /**
   `mc_clipping_v`: every cell of the corrected velocity is clipped against
   the old velocity `v`, which is also the flow that gives the departure point.
   Each grid cell ends in the component-wise stencil box of `v` at its
   departure point, and a corrected vector already in that box is kept whole.
   */
  function MCClippingV(n: Size, v: VField, corrected: VField, dt: real): (r: VField)
    ensures forall I {:trigger r(I)} :: InGrid(n, I) ==>
      Within(r(I), SampleMinV(n, v, Backtrace(n, v, I, dt)), SampleMaxV(n, v, Backtrace(n, v, I, dt)))
    ensures forall I {:trigger r(I)} :: InGrid(n, I) && Within(corrected(I), SampleMinV(n, v, Backtrace(n, v, I, dt)), SampleMaxV(n, v, Backtrace(n, v, I, dt))) ==>
      r(I) == corrected(I)
  {
    var r := (I: Idx) => if InGrid(n, I) then ClipV(n, v, corrected(I), Backtrace(n, v, I, dt)) else corrected(I);
    assert forall I {:trigger r(I)} :: InGrid(n, I) ==> r(I) == ClipV(n, v, corrected(I), Backtrace(n, v, I, dt));
    r
  }

  /** A clipped density value lies in any range that holds every old density. */
  lemma ClipDensBounded(n: Size, x: Field, value: real, p: Vec3, lo: real, hi: real)
    requires Bounded(n, x, lo, hi)
    ensures lo <= ClipDens(n, x, value, p) <= hi
  {
    var lo', hi' := SampleMinDens(n, x, p), SampleMaxDens(n, x, p);
    var cmin :| IsOffset(cmin) && lo' == x(Shift(Sample(n, p), cmin));
    var cmax :| IsOffset(cmax) && hi' == x(Shift(Sample(n, p), cmax));
    assert InGrid(n, Shift(Sample(n, p), cmin)) && InGrid(n, Shift(Sample(n, p), cmax));
  }

  /**
   Maximum principle of the clipped density: whatever the corrected field,
   after clipping each cell lies in the range of the old density.
   */
  lemma MCClippingDensBounded(n: Size, v: VField, x: Field, corrected: Field, dt: real, lo: real, hi: real, I: Idx)
    requires Bounded(n, x, lo, hi) && InGrid(n, I)
    ensures lo <= MCClippingDens(n, v, x, corrected, dt)(I) <= hi
  {
    ClipDensBounded(n, x, corrected(I), Backtrace(n, v, I, dt), lo, hi);
  }

  /** The stencil minimum and maximum of a field lie in any range that holds the whole field. */
  lemma StencilBounded(n: Size, x: Field, I: Idx, lo: real, hi: real)
    requires StencilBase(n, I) && Bounded(n, x, lo, hi)
    ensures lo <= StencilMin(n, x, I) <= hi && lo <= StencilMax(n, x, I) <= hi
  {
    StencilMinAttained(n, x, I);
    StencilMaxAttained(n, x, I);
    var m, M := StencilMin(n, x, I), StencilMax(n, x, I);
    var cmin :| IsOffset(cmin) && m == x(Shift(I, cmin));
    var cmax :| IsOffset(cmax) && M == x(Shift(I, cmax));
    StencilInGrid(n, I, cmin);
    StencilInGrid(n, I, cmax);
  }

  /** Component `d` of a velocity field inside a box is bounded by that component of the box. */
  lemma ComponentBounded(n: Size, v: VField, lo: Vec3, hi: Vec3, d: Axis)
    requires forall J :: InGrid(n, J) ==> Within(v(J), lo, hi)
    ensures Bounded(n, Component(v, d), lo.Get(d), hi.Get(d))
  {
    forall J | InGrid(n, J)
      ensures lo.Get(d) <= Component(v, d)(J) <= hi.Get(d)
    {
      assert Within(v(J), lo, hi);
    }
  }

  /** The component-wise stencil minimum and maximum lie in any box that holds every old velocity. */
  lemma StencilVWithin(n: Size, v: VField, p: Vec3, lo: Vec3, hi: Vec3)
    requires forall J :: InGrid(n, J) ==> Within(v(J), lo, hi)
    ensures Within(SampleMinV(n, v, p), lo, hi) && Within(SampleMaxV(n, v, p), lo, hi)
  {
    var I := Sample(n, p);
    ComponentBounded(n, v, lo, hi, 0);
    ComponentBounded(n, v, lo, hi, 1);
    ComponentBounded(n, v, lo, hi, 2);
    StencilBounded(n, Component(v, 0), I, lo.x, hi.x);
    StencilBounded(n, Component(v, 1), I, lo.y, hi.y);
    StencilBounded(n, Component(v, 2), I, lo.z, hi.z);
  }

  /** A clipped velocity lies in any box that holds every old velocity. */
  lemma ClipVWithin(n: Size, v: VField, value: Vec3, p: Vec3, lo: Vec3, hi: Vec3)
    requires forall J :: InGrid(n, J) ==> Within(v(J), lo, hi)
    ensures Within(ClipV(n, v, value, p), lo, hi)
  {
    StencilVWithin(n, v, p, lo, hi);
  }

  /**
   Maximum principle of the clipped velocity: after clipping each cell lies
   in any box that holds every old velocity.
   */
  lemma MCClippingVWithin(n: Size, v: VField, corrected: VField, dt: real, lo: Vec3, hi: Vec3, I: Idx)
    requires forall J :: InGrid(n, J) ==> Within(v(J), lo, hi)
    requires InGrid(n, I)
    ensures Within(MCClippingV(n, v, corrected, dt)(I), lo, hi)
  {
    ClipVWithin(n, v, corrected(I), Backtrace(n, v, I, dt), lo, hi);
  }

  /** The maximum principle of the clipped density, for the whole field at once. */
  lemma MCClippingDensField(n: Size, v: VField, x: Field, corrected: Field, dt: real, lo: real, hi: real)
    requires Bounded(n, x, lo, hi)
    ensures Bounded(n, MCClippingDens(n, v, x, corrected, dt), lo, hi)
  {
    forall I | InGrid(n, I)
      ensures lo <= MCClippingDens(n, v, x, corrected, dt)(I) <= hi
    {
      MCClippingDensBounded(n, v, x, corrected, dt, lo, hi, I);
    }
  }

  /** The maximum principle of the clipped velocity, for the whole field at once. */
  lemma MCClippingVField(n: Size, v: VField, corrected: VField, dt: real, lo: Vec3, hi: Vec3)
    requires BoundedV(n, v, lo, hi)
    ensures BoundedV(n, MCClippingV(n, v, corrected, dt), lo, hi)
  {
    forall I | InGrid(n, I)
      ensures Within(MCClippingV(n, v, corrected, dt)(I), lo, hi)
    {
      MCClippingVWithin(n, v, corrected, dt, lo, hi, I);
    }
  }

  /**
   The density part of one step: `maccormack(dens, ...)`, `mc_clipping_dens()`
   and `update(dens, new_dens)`, with `v` the velocity at that point of the
   step. Maximum principle: the density never leaves any range that held the
   old density, on any cell, whatever the flow.
   */
  function AdvectDens(n: Size, v: VField, x: Field, dt: real): (r: Field)
    ensures forall lo, hi :: Bounded(n, x, lo, hi) ==> Bounded(n, r, lo, hi)
  {
    var corrected := MacCormack(n, v, x, dt);
    var r := Update(n, x, MCClippingDens(n, v, x, corrected, dt));
    assert forall lo, hi :: Bounded(n, x, lo, hi) ==> Bounded(n, r, lo, hi) by {
      forall lo, hi | Bounded(n, x, lo, hi)
        ensures Bounded(n, r, lo, hi)
      {
        ClippedUpdateBounded(n, v, x, corrected, dt, lo, hi);
      }
    }
    r
  }

  /** Writing a clipped field back keeps the bounds of the old one, whatever the corrected field. */
  lemma ClippedUpdateBounded(n: Size, v: VField, x: Field, corrected: Field, dt: real, lo: real, hi: real)
    requires Bounded(n, x, lo, hi)
    ensures Bounded(n, Update(n, x, MCClippingDens(n, v, x, corrected, dt)), lo, hi)
  {
    MCClippingDensField(n, v, x, corrected, dt, lo, hi);
    UpdateBounded(n, x, MCClippingDens(n, v, x, corrected, dt), lo, hi);
  }

  /** Writing back a field that lies within some bounds gives a field within them. */
  lemma UpdateBounded(n: Size, x: Field, y: Field, lo: real, hi: real)
    requires Bounded(n, y, lo, hi)
    ensures Bounded(n, Update(n, x, y), lo, hi)
  {
  }

  /**
   The velocity part of one step: `maccormack(v, ...)`, `mc_clipping_v()`
   and `update(v, new_v)`. Every cell stays in any box that held the old
   velocity.
   */
  function AdvectV(n: Size, v: VField, dt: real): (r: VField)
    ensures forall lo, hi :: BoundedV(n, v, lo, hi) ==> BoundedV(n, r, lo, hi)
  {
    var clipped := MCClippingV(n, v, MacCormackV(n, v, dt), dt);
    assert forall lo, hi :: BoundedV(n, v, lo, hi) ==> BoundedV(n, clipped, lo, hi) by {
      forall lo, hi | BoundedV(n, v, lo, hi)
        ensures BoundedV(n, clipped, lo, hi)
      {
        MCClippingVField(n, v, MacCormackV(n, v, dt), dt, lo, hi);
      }
    }
    Update(n, v, clipped)
  }

  /** A cell whose departure point is its own centre lies within its stencil range. */
  lemma StillWithinStencil(n: Size, v: VField, x: Field, dt: real, I: Idx)
    requires n <= MaxSize && StencilBase(n, I)
    requires Backtrace(n, v, I, dt) == Centre(n, I)
    ensures SampleMinDens(n, x, Backtrace(n, v, I, dt)) <= x(I) <= SampleMaxDens(n, x, Backtrace(n, v, I, dt))
  {
    CentreSample(n, I);
    assert Shift(I, Idx(0, 0, 0)) == I;
  }

  /**
   A cell of a stencil base whose departure points forward and backward in
   time are both its own centre keeps its density through the advection of
   a step: MacCormack returns the old value, and clipping keeps it because
   it is a corner of its own stencil.
   */
  lemma AdvectDensStill(n: Size, v: VField, x: Field, dt: real, I: Idx)
    requires n <= MaxSize && StencilBase(n, I)
    requires Backtrace(n, v, I, dt) == Centre(n, I) && Backtrace(n, v, I, Reversed(dt)) == Centre(n, I)
    ensures AdvectDens(n, v, x, dt)(I) == x(I)
  {
    MacCormackStill(n, v, x, dt, I);
    ClippingStill(n, v, x, MacCormack(n, v, x, dt), dt, I);
    assert AdvectDens(n, v, x, dt) == Update(n, x, MCClippingDens(n, v, x, MacCormack(n, v, x, dt), dt));
  }

  /**
   At a cell whose departure point is its own centre, a corrected value
   equal to the old one passes clipping unchanged.
   */
  lemma ClippingStill(n: Size, v: VField, x: Field, corrected: Field, dt: real, I: Idx)
    requires n <= MaxSize && StencilBase(n, I)
    requires Backtrace(n, v, I, dt) == Centre(n, I) && corrected(I) == x(I)
    ensures MCClippingDens(n, v, x, corrected, dt)(I) == x(I)
  {
    StillWithinStencil(n, v, x, dt, I);
  }

  /** At rest, the density advection of a step leaves every cell up to `n - 2` on each axis as it was. */
  lemma AdvectDensAtRest(n: Size, v: VField, x: Field, dt: real, I: Idx)
    requires n <= MaxSize && StencilBase(n, I)
    requires Uniform(n, v, Zero)
    ensures AdvectDens(n, v, x, dt)(I) == x(I)
  {
    BacktraceAtRest(n, v, I, dt);
    BacktraceAtRest(n, v, I, Reversed(dt));
    AdvectDensStill(n, v, x, dt, I);
  }

  /** At rest, the velocity advection of a step leaves every grid cell as it was. */
  lemma AdvectVAtRest(n: Size, v: VField, dt: real, I: Idx)
    requires InGrid(n, I)
    requires Uniform(n, v, Zero)
    ensures AdvectV(n, v, dt)(I) == v(I)
  {
    UniformBoxed(n, v, Zero);
    UniformBoxed(n, AdvectV(n, v, dt), Zero);
  }
}
