/**
 Advection: the RK3 `backtrace` of a cell centre through the velocity field,
 `semi_lagrangian` transport, the MacCormack predictor-corrector built from
 two semi-Lagrangian passes, and `update`, which copies a pass's result back.

 A pass produces a new field. Off the grid the solver stores nothing; the
 model keeps there the value of the field being read (for `Update`, the
 field being written), so that fields stay total.
 */
module Advection {
  import opened Vectors
  import opened Grid
  import opened Sampler

  /** `(I + stagger) * dx`: the world position of the centre of cell `I`. */
  function Centre(n: Size, I: Idx): Vec3 {
    Vec3(CentreCoord(n, I.i), CentreCoord(n, I.j), CentreCoord(n, I.k))
  }

  /** One axis of `Centre`. */
  function CentreCoord(n: Size, c: int): real {
    (c as real + Stagger) * Dx(n)
  }

  /** The velocity stored at the stencil base of `p`, as `v[sample(p)]`. */
  function VelocityAt(n: Size, v: VField, p: Vec3): Vec3 {
    At(n, v, Sample(n, p))
  }

  /**
   The RK3 velocity of `backtrace(I, dt)`: look-ups at the centre, at the
   centre moved back `0.5 * dt` along the first velocity, and at the centre
   moved back `0.75 * dt` along the second, mixed with weights `2/9`, `1/3`,
   `4/9`. Each look-up is a grid cell and the weights are a convex mix, so
   the result lies in every box that holds all grid velocities.
   */
  function Rk3Velocity(n: Size, v: VField, I: Idx, dt: real): (r: Vec3)
    ensures forall lo, hi :: BoundedV(n, v, lo, hi) ==> Within(r, lo, hi)
  {
    var p := Centre(n, I);
    var v1 := VelocityAt(n, v, p);
    var p1 := Sub(p, Scale(0.5 * dt, v1));
    var v2 := VelocityAt(n, v, p1);
    var p2 := Sub(p, Scale(0.75 * dt, v2));
    var v3 := VelocityAt(n, v, p2);
    var r := Add(Add(Scale(2.0 / 9.0, v1), Scale(1.0 / 3.0, v2)), Scale(4.0 / 9.0, v3));
    assert forall lo, hi :: BoundedV(n, v, lo, hi) ==> Within(r, lo, hi) by {
      forall lo, hi | BoundedV(n, v, lo, hi)
        ensures Within(r, lo, hi)
      {
        assert Within(v1, lo, hi) && Within(v2, lo, hi) && Within(v3, lo, hi);
        MixWithin(v1, v2, v3, lo, hi);
      }
    }
    r
  }

  /**
   `backtrace(I, dt)`: the centre of `I` moved back `dt` along the RK3
   velocity. In a uniform flow `u` this is the straight line back, the centre
   minus `dt * u`.
   */
  function Backtrace(n: Size, v: VField, I: Idx, dt: real): (r: Vec3)
    ensures forall u :: Uniform(n, v, u) ==> r == Sub(Centre(n, I), Scale(dt, u))
  {
    assert forall u :: Uniform(n, v, u) ==> Rk3Velocity(n, v, I, dt) == u by {
      forall u | Uniform(n, v, u)
        ensures Rk3Velocity(n, v, I, dt) == u
      {
        Rk3VelocityUniform(n, v, u, I, dt);
      }
    }
    Sub(Centre(n, I), Scale(dt, Rk3Velocity(n, v, I, dt)))
  }

  /** Every grid cell of `v` holds the same velocity `u`. */
  ghost predicate Uniform(n: Size, v: VField, u: Vec3) {
    forall I :: InGrid(n, I) ==> v(I) == u
  }

  /** Every grid cell of `x` holds the same value `k`. */
  ghost predicate Constant(n: Size, x: Field, k: real) {
    forall I :: InGrid(n, I) ==> x(I) == k
  }

  /** Every grid cell of `x` lies in `[lo, hi]`. */
  ghost predicate Bounded(n: Size, x: Field, lo: real, hi: real) {
    forall I :: InGrid(n, I) ==> lo <= x(I) <= hi
  }

  /** Each component of `a` lies between the same components of `lo` and `hi`. */
  predicate Within(a: Vec3, lo: Vec3, hi: Vec3) {
    lo.x <= a.x <= hi.x && lo.y <= a.y <= hi.y && lo.z <= a.z <= hi.z
  }

  /** Every grid cell of `v` lies in the box `[lo, hi]`. */
  ghost predicate BoundedV(n: Size, v: VField, lo: Vec3, hi: Vec3) {
    forall I :: InGrid(n, I) ==> Within(v(I), lo, hi)
  }

  /** The RK3 mix of three velocities inside a box is inside the box. */
  lemma MixWithin(v1: Vec3, v2: Vec3, v3: Vec3, lo: Vec3, hi: Vec3)
    requires Within(v1, lo, hi) && Within(v2, lo, hi) && Within(v3, lo, hi)
    ensures Within(Add(Add(Scale(2.0 / 9.0, v1), Scale(1.0 / 3.0, v2)), Scale(4.0 / 9.0, v3)), lo, hi)
  {
  }

  /** In a uniform flow the RK3 velocity is the flow velocity. */
  lemma Rk3VelocityUniform(n: Size, v: VField, u: Vec3, I: Idx, dt: real)
    requires Uniform(n, v, u)
    ensures Rk3Velocity(n, v, I, dt) == u
  {
    UniformBoxed(n, v, u);
  }

  /** With the fluid at rest every cell centre is its own departure point. */
  lemma BacktraceAtRest(n: Size, v: VField, I: Idx, dt: real)
    requires Uniform(n, v, Zero)
    ensures Backtrace(n, v, I, dt) == Centre(n, I)
  {
    assert Sub(Centre(n, I), Scale(dt, Zero)) == Centre(n, I);
  }

  /**
   `semi_lagrangian(x, new_x, dt)`: every grid cell takes the trilinear
   sample of `x` at its departure point. Maximum principle: the pass never
   leaves any range that holds the field it transports, whatever the flow.
   */
  function SemiLagrangian(n: Size, v: VField, x: Field, dt: real): (r: Field)
    ensures forall lo, hi :: Bounded(n, x, lo, hi) ==> Bounded(n, r, lo, hi)
  {
    assert forall lo, hi, I :: Bounded(n, x, lo, hi) && InGrid(n, I) ==>
        lo <= SampleTrilinear(n, x, Backtrace(n, v, I, dt)) <= hi by {
      forall lo, hi, I | Bounded(n, x, lo, hi) && InGrid(n, I)
        ensures lo <= SampleTrilinear(n, x, Backtrace(n, v, I, dt)) <= hi
      {
        TrilinearConvex(n, x, Backtrace(n, v, I, dt), lo, hi);
      }
    }
    I => if InGrid(n, I) then SampleTrilinear(n, x, Backtrace(n, v, I, dt)) else x(I)
  }

  /**
   The vector form of `semi_lagrangian`, used on the velocity itself. Every
   cell stays in any box that holds the transported field.
   */
  function SemiLagrangianV(n: Size, v: VField, x: VField, dt: real): (r: VField)
    ensures forall lo, hi :: BoundedV(n, x, lo, hi) ==> BoundedV(n, r, lo, hi)
  {
    assert forall lo, hi, I :: BoundedV(n, x, lo, hi) && InGrid(n, I) ==>
        Within(SampleTrilinearV(n, x, Backtrace(n, v, I, dt)), lo, hi) by {
      forall lo, hi, I | BoundedV(n, x, lo, hi) && InGrid(n, I)
        ensures Within(SampleTrilinearV(n, x, Backtrace(n, v, I, dt)), lo, hi)
      {
        TrilinearVWithin(n, x, Backtrace(n, v, I, dt), lo, hi);
      }
    }
    I => if InGrid(n, I) then SampleTrilinearV(n, x, Backtrace(n, v, I, dt)) else x(I)
  }

  /** A constant field is transported unchanged, whatever the flow. */
  lemma SemiLagrangianConstant(n: Size, v: VField, x: Field, dt: real, k: real)
    requires Constant(n, x, k)
    ensures Constant(n, SemiLagrangian(n, v, x, dt), k)
  {
    assert Bounded(n, x, k, k);
  }

  /**
   `Sample` and `Frac` of a cell centre, one axis: for a cell index up to
   `n - 2` the clamp does not move the centre, its grid coordinate is the
   index itself and the fraction is zero. This needs the `1e-4` margin to be
   at most one cell width, hence `n <= MaxSize`.
   */
  lemma CentreAxis(n: Size, c: int)
    requires n <= MaxSize && 0 <= c <= n - 2
    ensures CellOf(n, CentreCoord(n, c)) == c
    ensures FracOf(n, CentreCoord(n, c)) == 0.0
  {
    var q := CentreCoord(n, c);
    CentreInRange(n, c);
    assert ClampAxis(n, q) == q;
    Rescale(c as real + Stagger, Dx(n), n as real);
    assert GridCoord(n, q) == c as real;
  }

  /** The centre of a cell with index up to `n - 2` lies inside the clamp range. */
  lemma CentreInRange(n: Size, c: int)
    requires n <= MaxSize && 0 <= c <= n - 2
    ensures Lo(n) <= CentreCoord(n, c) <= Hi(n)
  {
    var dx := Dx(n);
    var q := (c as real + Stagger) * dx;
    LoBelowHi(n);
    MulNonNegative(c as real, dx);
    assert Lo(n) <= q;
    assert dx * (MaxSize as real) >= 1.0 by {
      MulNonNegative(dx, (MaxSize - n) as real);
    }
    assert q + Stagger * dx <= (n - 1) as real * dx by {
      MulNonNegative((n - 2 - c) as real, dx);
    }
    assert (n - 1) as real * dx == 1.0 - dx;
  }

  /** The centre of a stencil base cell samples at that very cell. */
  lemma CentreSample(n: Size, I: Idx)
    requires n <= MaxSize && StencilBase(n, I)
    ensures Sample(n, Centre(n, I)) == I
  {
    CentreAxis(n, I.i);
    CentreAxis(n, I.j);
    CentreAxis(n, I.k);
  }

  /** The centre of a stencil base cell has zero fractional offset. */
  lemma CentreFrac(n: Size, I: Idx)
    requires n <= MaxSize && StencilBase(n, I)
    ensures Frac(n, Centre(n, I)) == Zero
  {
    CentreAxis(n, I.i);
    CentreAxis(n, I.j);
    CentreAxis(n, I.k);
  }

  lemma LerpAtZero(a: real, b: real)
    ensures Lerp(a, b, 0.0) == a
  {
  }

  /** With zero fraction the trilinear sum is the base value alone. */
  lemma TrilinearAtBase(n: Size, x: Field, I: Idx)
    requires StencilBase(n, I)
    ensures Trilinear(n, x, I, Zero) == x(I)
  {
    TrilinearSeparable(n, x, I, Zero);
    assert Shift(I, Idx(0, 0, 0)) == I;
    var x000, x001 := x(Shift(I, Idx(0, 0, 0))), x(Shift(I, Idx(0, 0, 1)));
    var x010, x011 := x(Shift(I, Idx(0, 1, 0))), x(Shift(I, Idx(0, 1, 1)));
    var x100, x101 := x(Shift(I, Idx(1, 0, 0))), x(Shift(I, Idx(1, 0, 1)));
    var x110, x111 := x(Shift(I, Idx(1, 1, 0))), x(Shift(I, Idx(1, 1, 1)));
    LerpAtZero(x000, x001);
    LerpAtZero(x010, x011);
    LerpAtZero(x100, x101);
    LerpAtZero(x110, x111);
    LerpAtZero(x000, x010);
    LerpAtZero(x100, x110);
    LerpAtZero(x000, x100);
  }

  /**
   A cell of a stencil base whose departure point is its own centre keeps
   its value under a semi-Lagrangian pass.
   */
  lemma SemiLagrangianStill(n: Size, v: VField, x: Field, dt: real, I: Idx)
    requires n <= MaxSize && StencilBase(n, I)
    requires Backtrace(n, v, I, dt) == Centre(n, I)
    ensures SemiLagrangian(n, v, x, dt)(I) == x(I)
  {
    CentreSample(n, I);
    CentreFrac(n, I);
    TrilinearAtBase(n, x, I);
  }

  /**
   At rest, a semi-Lagrangian pass leaves every cell up to `n - 2` on each
   axis as it was (the last layer reads a clamped position and blends it
   with its neighbour).
   */
  lemma SemiLagrangianAtRest(n: Size, v: VField, x: Field, dt: real, I: Idx)
    requires n <= MaxSize && StencilBase(n, I)
    requires Uniform(n, v, Zero)
    ensures SemiLagrangian(n, v, x, dt)(I) == x(I)
  {
    BacktraceAtRest(n, v, I, dt);
    SemiLagrangianStill(n, v, x, dt, I);
  }

  /** The time step of MacCormack's backward pass. */
  function Reversed(dt: real): real {
    -dt
  }

  /**
   `maccormack(x, new_x, new_x_aux, dt)` on a scalar field: a forward pass,
   a backward pass of its result, and the correction
   `new_x[I] + 0.5 * (x[I] - new_x_aux[I])`. A constant field stays
   constant, whatever the flow.
   */
  function MacCormack(n: Size, v: VField, x: Field, dt: real): (r: Field)
    ensures forall k :: Constant(n, x, k) ==> Constant(n, r, k)
  {
    var forward := SemiLagrangian(n, v, x, dt);
    var backward := SemiLagrangian(n, v, forward, Reversed(dt));
    assert forall k, I :: Constant(n, x, k) && InGrid(n, I) ==> Correct(n, x, forward, backward)(I) == k by {
      forall k, I | Constant(n, x, k) && InGrid(n, I)
        ensures Correct(n, x, forward, backward)(I) == k
      {
        BackwardConstantAt(n, v, x, dt, Reversed(dt), k, I);
        SemiLagrangianConstantAt(n, v, x, dt, k, I);
      }
    }
    Correct(n, x, forward, backward)
  }

  /**
   The correction loop of `maccormack`, given the two passes: where the
   backward pass recovers the old value, the forward result stands.
   */
  function Correct(n: Size, x: Field, forward: Field, backward: Field): (r: Field)
    ensures forall I {:trigger r(I)} :: InGrid(n, I) && backward(I) == x(I) ==> r(I) == forward(I)
  {
    I => if InGrid(n, I) then forward(I) + 0.5 * (x(I) - backward(I)) else x(I)
  }

  /**
   `maccormack` on the velocity field, which is also the field that carries
   it. A uniform flow stays uniform.
   */
  function MacCormackV(n: Size, v: VField, dt: real): (r: VField)
    ensures forall u :: Uniform(n, v, u) ==> Uniform(n, r, u)
  {
    var forward := SemiLagrangianV(n, v, v, dt);
    var backward := SemiLagrangianV(n, v, forward, Reversed(dt));
    assert forall u :: Uniform(n, v, u) ==> Uniform(n, forward, u) && Uniform(n, backward, u) by {
      forall u | Uniform(n, v, u)
        ensures Uniform(n, forward, u) && Uniform(n, backward, u)
      {
        UniformBoxed(n, v, u);
        UniformBoxed(n, forward, u);
        UniformBoxed(n, backward, u);
      }
    }
    CorrectV(n, v, forward, backward)
  }

  /**
   The correction loop of `maccormack` on a vector field: where the
   backward pass recovers the old value, the forward result stands, and
   three uniform fields give the same uniform field.
   */
  function CorrectV(n: Size, x: VField, forward: VField, backward: VField): (r: VField)
    ensures forall I {:trigger r(I)} :: InGrid(n, I) && backward(I) == x(I) ==> r(I) == forward(I)
    ensures forall u :: Uniform(n, x, u) && Uniform(n, forward, u) && Uniform(n, backward, u) ==> Uniform(n, r, u)
  {
    I => if InGrid(n, I) then Add(forward(I), Scale(0.5, Sub(x(I), backward(I)))) else x(I)
  }

  /** A field is uniform at `u` exactly when the one-point box `[u, u]` holds it. */
  lemma UniformBoxed(n: Size, v: VField, u: Vec3)
    ensures Uniform(n, v, u) <==> BoundedV(n, v, u, u)
  {
    if BoundedV(n, v, u, u) {
      forall I | InGrid(n, I)
        ensures v(I) == u
      {
        assert Within(v(I), u, u);
      }
    }
  }

  /** A semi-Lagrangian pass of a constant field gives the constant at each cell. */
  lemma SemiLagrangianConstantAt(n: Size, v: VField, x: Field, dt: real, k: real, I: Idx)
    requires Constant(n, x, k) && InGrid(n, I)
    ensures SemiLagrangian(n, v, x, dt)(I) == k
  {
    TrilinearConvex(n, x, Backtrace(n, v, I, dt), k, k);
  }

  /** The backward pass of the forward pass of a constant field gives the constant. */
  lemma BackwardConstantAt(n: Size, v: VField, x: Field, dt: real, back: real, k: real, I: Idx)
    requires Constant(n, x, k) && InGrid(n, I)
    ensures SemiLagrangian(n, v, SemiLagrangian(n, v, x, dt), back)(I) == k
  {
    SemiLagrangianConstant(n, v, x, dt, k);
    SemiLagrangianConstantAt(n, v, SemiLagrangian(n, v, x, dt), back, k, I);
  }

  /**
   A cell of a stencil base whose departure points forward and backward in
   time are both its own centre keeps its value under MacCormack.
   */
  lemma MacCormackStill(n: Size, v: VField, x: Field, dt: real, I: Idx)
    requires n <= MaxSize && StencilBase(n, I)
    requires Backtrace(n, v, I, dt) == Centre(n, I) && Backtrace(n, v, I, Reversed(dt)) == Centre(n, I)
    ensures MacCormack(n, v, x, dt)(I) == x(I)
  {
    var forward := SemiLagrangian(n, v, x, dt);
    SemiLagrangianStill(n, v, x, dt, I);
    SemiLagrangianStill(n, v, forward, Reversed(dt), I);
  }

  /** At rest, MacCormack leaves every cell up to `n - 2` on each axis as it was. */
  lemma MacCormackAtRest(n: Size, v: VField, x: Field, dt: real, I: Idx)
    requires n <= MaxSize && StencilBase(n, I)
    requires Uniform(n, v, Zero)
    ensures MacCormack(n, v, x, dt)(I) == x(I)
  {
    BacktraceAtRest(n, v, I, dt);
    BacktraceAtRest(n, v, I, Reversed(dt));
    MacCormackStill(n, v, x, dt, I);
  }

  /** A vector trilinear sample of a field inside a box is inside the box. */
  lemma TrilinearVWithin(n: Size, x: VField, p: Vec3, lo: Vec3, hi: Vec3)
    requires forall J :: InGrid(n, J) ==> Within(x(J), lo, hi)
    ensures Within(SampleTrilinearV(n, x, p), lo, hi)
  {
    var I := Sample(n, p);
    forall d: Axis
      ensures lo.Get(d) <= SampleTrilinearV(n, x, p).Get(d) <= hi.Get(d)
    {
      TrilinearVComponent(n, x, I, Frac(n, p), d);
      forall c | IsOffset(c)
        ensures lo.Get(d) <= Component(x, d)(Shift(I, c)) <= hi.Get(d)
      {
        assert Within(x(Shift(I, c)), lo, hi);
      }
      TrilinearConvex(n, Component(x, d), p, lo.Get(d), hi.Get(d));
    }
    assert lo.Get(0) <= SampleTrilinearV(n, x, p).Get(0) <= hi.Get(0);
    assert lo.Get(1) <= SampleTrilinearV(n, x, p).Get(1) <= hi.Get(1);
    assert lo.Get(2) <= SampleTrilinearV(n, x, p).Get(2) <= hi.Get(2);
  }

  /** At rest, the velocity MacCormack step leaves every grid cell as it was. */
  lemma MacCormackVAtRest(n: Size, v: VField, dt: real, I: Idx)
    requires InGrid(n, I)
    requires Uniform(n, v, Zero)
    ensures MacCormackV(n, v, dt)(I) == v(I)
  {
    assert Uniform(n, MacCormackV(n, v, dt), Zero);
  }

  /** `update(x, new_x)`: every grid cell of `x` takes the value of `new_x`. */
  function Update<T>(n: Size, x: Idx -> T, y: Idx -> T): (r: Idx -> T)
    ensures forall I {:trigger r(I)} :: InGrid(n, I) ==> r(I) == y(I)
    ensures forall I {:trigger r(I)} :: !InGrid(n, I) ==> r(I) == x(I)
  {
    I => if InGrid(n, I) then y(I) else x(I)
  }
}
