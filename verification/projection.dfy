/**
 Pressure projection (`lin_solve`, `project`). Every neighbour read of both
 kernels goes through `sample` of a position built from the cell index, in
 two spellings: `(I + e) * dx` for the upper neighbour and `I + e * dx`
 (with `e` negative) for the lower one. `AsWritten` reproduces those
 expressions; `Centred` is the evidently intended rule, the sample at the
 centre of the neighbouring cell. The kernels take the rule as a parameter.
 */
module Projection {
  import opened Vectors
  import opened Grid
  import opened Sampler
  import opened Advection

  /** `lin_iters`: the fixed number of relaxation sweeps of `lin_solve`. */
  const LinIters: nat := 20

  /** An index forced into the range `[0, n - 2]` that `sample` can return. */
  function ClipIndex(n: Size, c: int): (r: int)
    ensures 0 <= r <= n - 2
    ensures 0 <= c <= n - 2 ==> r == c
  {
    if c < 0 then 0 else if c > n - 2 then n - 2 else c
  }

  /** A position at or below the lower clamp bound samples at cell 0. */
  lemma CellOfLow(n: Size, q: real)
    requires q <= Lo(n)
    ensures CellOf(n, q) == 0
  {
    LoBelowHi(n);
    assert ClampAxis(n, q) == Lo(n);
  }

  /** A position at or above the upper clamp bound samples at cell `n - 2`. */
  lemma CellOfHigh(n: Size, q: real)
    requires n <= MaxSize && q >= Hi(n)
    ensures CellOf(n, q) == n - 2
  {
    LoBelowHi(n);
    assert ClampAxis(n, q) == Hi(n);
    assert Margin * (n as real) <= 1.0;
    assert GridCoord(n, q) == (n as real) - Margin * (n as real) - 1.0;
  }

  /** Inside the clamp bounds, a position samples at the floor of its grid coordinate. */
  lemma CellOfInside(n: Size, q: real, m: int)
    requires Lo(n) <= q <= Hi(n)
    requires m as real <= q * (n as real) - Stagger < (m + 1) as real
    ensures CellOf(n, q) == m
  {
    assert ClampAxis(n, q) == q;
  }

  /** The position `c * dx` of the lower face of cell `c` on one axis. */
  function FaceCoord(n: Size, c: int): real {
    c as real * Dx(n)
  }

  /** `c * dx` for an integer `c` is the lower face of cell `c`: it samples at cell `c - 1`, clipped. */
  lemma CellOfFace(n: Size, c: int)
    requires n <= MaxSize
    ensures CellOf(n, FaceCoord(n, c)) == ClipIndex(n, c - 1)
  {
    var q := c as real * Dx(n);
    FaceScaled(n, c);
    LoBelowHi(n);
    if c <= 0 {
      MulNonNegative((-c) as real, Dx(n));
      CellOfLow(n, q);
    } else if q <= Hi(n) {
      FaceInside(n, c);
    } else {
      FaceHigh(n, c);
    }
  }

  /** The grid coordinate of the face `c * dx` before the stagger is `c`. */
  lemma FaceScaled(n: Size, c: int)
    ensures (c as real * Dx(n)) * (n as real) == c as real
  {
    Rescale(c as real, Dx(n), n as real);
  }

  lemma FaceInside(n: Size, c: int)
    requires 1 <= c && c as real * Dx(n) <= Hi(n)
    ensures CellOf(n, c as real * Dx(n)) == ClipIndex(n, c - 1)
  {
    var q := c as real * Dx(n);
    assert Lo(n) <= q by {
      MulNonNegative((c - 1) as real, Dx(n));
    }
    assert q * (n as real) == c as real by {
      FaceScaled(n, c);
    }
    CellOfInside(n, q, c - 1);
  }

  lemma FaceHigh(n: Size, c: int)
    requires n <= MaxSize && c as real * Dx(n) > Hi(n)
    ensures CellOf(n, c as real * Dx(n)) == ClipIndex(n, c - 1)
  {
    var q := c as real * Dx(n);
    assert c as real >= Hi(n) * (n as real) by {
      FaceScaled(n, c);
      MulNonNegative(q - Hi(n), n as real);
    }
    assert c >= n - 1 by {
      LoBelowHi(n);
      assert Margin * (n as real) <= 1.0;
    }
    CellOfHigh(n, q);
  }

  /** An integer used as a position unscaled lies outside `(0, 1)`: it samples at a boundary cell. */
  lemma CellOfUnscaled(n: Size, c: int)
    requires n <= MaxSize
    ensures CellOf(n, c as real) == if c <= 0 then 0 else n - 2
  {
    LoBelowHi(n);
    if c <= 0 {
      CellOfLow(n, c as real);
    } else {
      CellOfHigh(n, c as real);
    }
  }

  /** `c - dx` for an integer `c` samples at a boundary cell too. */
  lemma CellOfUnscaledBelow(n: Size, c: int)
    requires n <= MaxSize
    ensures CellOf(n, c as real - Dx(n)) == if c <= 0 then 0 else n - 2
  {
    var dx := Dx(n);
    var q := c as real - dx;
    LoBelowHi(n);
    if c <= 0 {
      CellOfLow(n, q);
    } else if q >= Hi(n) {
      CellOfHigh(n, q);
    } else {
      assert c == 1;
      assert q * (n as real) == (n as real) - 1.0;
      CellOfInside(n, q, n - 2);
    }
  }

  /** The centre of cell `c` samples at cell `c`, clipped to `[0, n - 2]`. */
  lemma CellOfCentre(n: Size, c: int)
    requires n <= MaxSize
    ensures CellOf(n, CentreCoord(n, c)) == ClipIndex(n, c)
  {
    var dx := Dx(n);
    var q := CentreCoord(n, c);
    LoBelowHi(n);
    if c < 0 {
      MulNonNegative((-c - 1) as real, dx);
      CellOfLow(n, q);
    } else if c <= n - 2 {
      CentreAxis(n, c);
    } else {
      MulNonNegative((c - n + 1) as real, dx);
      assert q >= (n as real - Stagger) * dx;
      assert (n as real - Stagger) * dx == (n as real) * dx - Stagger * dx;
      CellOfHigh(n, q);
    }
  }

  /** The lower end of the as-written rule's range: `0` for indices up to `0`, `n - 2` above. */
  function Edge(n: Size, c: int): (r: int)
    ensures r == 0 || r == n - 2
  {
    if c <= 0 then 0 else n - 2
  }

  /** Every component of `I` forced into `[0, n - 2]`. */
  function Clipped(n: Size, I: Idx): (r: Idx)
    ensures StencilBase(n, r)
    ensures StencilBase(n, I) ==> r == I
  {
    Idx(ClipIndex(n, I.i), ClipIndex(n, I.j), ClipIndex(n, I.k))
  }

  /** The index vector with `s` on axis `d` and zero elsewhere. */
  function UnitIdx(d: Axis, s: int): Idx {
    if d == 0 then Idx(s, 0, 0) else if d == 1 then Idx(0, s, 0) else Idx(0, 0, s)
  }

  /** How the neighbour reads of `lin_solve` and `project` locate a neighbouring cell. */
  datatype Rule = AsWritten | Centred

  /** The position `(I + e) * dx` that the source samples for the upper neighbour along `d`. */
  function UpperPosition(n: Size, I: Idx, d: Axis): Vec3 {
    var e := Unit(d, 1.0);
    Vec3((I.i as real + e.x) * Dx(n), (I.j as real + e.y) * Dx(n), (I.k as real + e.z) * Dx(n))
  }

  /** The position `I + e * dx`, `e = -1` on axis `d`, that the source samples for the lower neighbour. */
  function LowerPosition(n: Size, I: Idx, d: Axis): Vec3 {
    Add(ToReal(I), Scale(Dx(n), Unit(d, -1.0)))
  }

  /** The upper neighbour of `I` along `d` under `rule`. */
  function UpperRead(rule: Rule, n: Size, I: Idx, d: Axis): (r: Idx)
    ensures InGrid(n, r)
  {
    match rule
    case AsWritten => Sample(n, UpperPosition(n, I, d))
    case Centred => Sample(n, Centre(n, Shift(I, UnitIdx(d, 1))))
  }

  /** The lower neighbour of `I` along `d` under `rule`. */
  function LowerRead(rule: Rule, n: Size, I: Idx, d: Axis): (r: Idx)
    ensures InGrid(n, r)
  {
    match rule
    case AsWritten => Sample(n, LowerPosition(n, I, d))
    case Centred => Sample(n, Centre(n, Shift(I, UnitIdx(d, -1))))
  }

  /**
   As written, the upper read samples at the lower corner of the neighbour
   cell, which the half-cell stagger sends one cell further down on every
   axis: the result is `I + e - (1, 1, 1)`, clipped.
   */
  lemma UpperAsWritten(n: Size, I: Idx, d: Axis)
    requires n <= MaxSize
    ensures UpperRead(AsWritten, n, I, d) == Clipped(n, Shift(Shift(I, UnitIdx(d, 1)), Idx(-1, -1, -1)))
  {
    var J := Shift(I, UnitIdx(d, 1));
    assert UpperPosition(n, I, d) == Vec3(FaceCoord(n, J.i), FaceCoord(n, J.j), FaceCoord(n, J.k));
    SampleFaces(n, J);
  }

  /** The lower corner of cell `J` samples at `J - (1, 1, 1)`, clipped. */
  lemma SampleFaces(n: Size, J: Idx)
    requires n <= MaxSize
    ensures Sample(n, Vec3(FaceCoord(n, J.i), FaceCoord(n, J.j), FaceCoord(n, J.k)))
         == Clipped(n, Shift(J, Idx(-1, -1, -1)))
  {
    CellOfFace(n, J.i);
    CellOfFace(n, J.j);
    CellOfFace(n, J.k);
  }

  /**
   As written, the lower read adds `-dx` to the unscaled index, a position
   outside the unit cube on every axis but where the index is zero: each
   component lands on `0` or `n - 2`.
   */
  lemma LowerAsWritten(n: Size, I: Idx, d: Axis)
    requires n <= MaxSize
    ensures LowerRead(AsWritten, n, I, d) == Idx(Edge(n, I.i), Edge(n, I.j), Edge(n, I.k))
  {
    var p := LowerPosition(n, I, d);
    if d == 0 {
      assert p == Vec3(I.i as real - Dx(n), I.j as real, I.k as real);
      CellOfUnscaledBelow(n, I.i);
      CellOfUnscaled(n, I.j);
      CellOfUnscaled(n, I.k);
    } else if d == 1 {
      assert p == Vec3(I.i as real, I.j as real - Dx(n), I.k as real);
      CellOfUnscaled(n, I.i);
      CellOfUnscaledBelow(n, I.j);
      CellOfUnscaled(n, I.k);
    } else {
      assert p == Vec3(I.i as real, I.j as real, I.k as real - Dx(n));
      CellOfUnscaled(n, I.i);
      CellOfUnscaled(n, I.j);
      CellOfUnscaledBelow(n, I.k);
    }
  }

  /** The centred rule reads the clipped neighbour `I + s * e` (`s` is `1` or `-1`). */
  lemma CentredNeighbour(n: Size, I: Idx, d: Axis, s: int)
    requires n <= MaxSize
    ensures Sample(n, Centre(n, Shift(I, UnitIdx(d, s)))) == Clipped(n, Shift(I, UnitIdx(d, s)))
  {
    var J := Shift(I, UnitIdx(d, s));
    CellOfCentre(n, J.i);
    CellOfCentre(n, J.j);
    CellOfCentre(n, J.k);
  }

  /** Away from the boundary layers, the centred rule reads exactly the adjacent cells. */
  lemma CentredInterior(n: Size, I: Idx, d: Axis)
    requires n <= MaxSize
    requires 1 <= I.i <= n - 3 && 1 <= I.j <= n - 3 && 1 <= I.k <= n - 3
    ensures UpperRead(Centred, n, I, d) == Shift(I, UnitIdx(d, 1))
    ensures LowerRead(Centred, n, I, d) == Shift(I, UnitIdx(d, -1))
  {
    CentredNeighbour(n, I, d, 1);
    CentredNeighbour(n, I, d, -1);
  }

  /**
   At the solver's resolution, cell `(5, 5, 5)` along the first axis: the
   as-written reads are cells `(5, 4, 4)` and `(126, 126, 126)` where the
   adjacent cells are `(6, 5, 5)` and `(4, 5, 5)`.
   */
  lemma NeighbourCounterexample()
    ensures UpperRead(AsWritten, N, Idx(5, 5, 5), 0) == Idx(5, 4, 4)
    ensures LowerRead(AsWritten, N, Idx(5, 5, 5), 0) == Idx(126, 126, 126)
    ensures UpperRead(Centred, N, Idx(5, 5, 5), 0) == Idx(6, 5, 5)
    ensures LowerRead(Centred, N, Idx(5, 5, 5), 0) == Idx(4, 5, 5)
  {
    UpperAsWritten(N, Idx(5, 5, 5), 0);
    LowerAsWritten(N, Idx(5, 5, 5), 0);
    CentredInterior(N, Idx(5, 5, 5), 0);
  }

  /**
   The neighbour reads of the two kernels as a table: `upper(I, d)` and
   `lower(I, d)` are the cells read for the upper and the lower neighbour of
   `I` along axis `d`.
   */
  datatype Table = Table(upper: (Idx, Axis) -> Idx, lower: (Idx, Axis) -> Idx)

  /** The table of `rule`. */
  function Reads(rule: Rule, n: Size): Table {
    Table((I: Idx, d: Axis) => UpperRead(rule, n, I, d), (I: Idx, d: Axis) => LowerRead(rule, n, I, d))
  }

  /** Every read of `t` is a grid cell. */
  ghost predicate OnGrid(n: Size, t: Table) {
    forall I, d: Axis :: InGrid(n, t.upper(I, d)) && InGrid(n, t.lower(I, d))
  }

  /** Both rules read grid cells only, for every cell and even for indices off the grid. */
  lemma ReadsOnGrid(rule: Rule, n: Size)
    ensures OnGrid(n, Reads(rule, n))
  {
    forall I, d: Axis
      ensures InGrid(n, Reads(rule, n).upper(I, d)) && InGrid(n, Reads(rule, n).lower(I, d))
    {
      assert InGrid(n, UpperRead(rule, n, I, d)) && InGrid(n, LowerRead(rule, n, I, d));
    }
  }

  /**
   The update `lin_solve` makes at grid cell `I`:
   `(x0[I] + a * (sum of the six neighbour reads of x)) / c` with `a = 1`, `c = 6`.
   */
  function RelaxAt(t: Table, x: Field, x0: Field, I: Idx): real {
    (x0(I) + 1.0 * (x(t.upper(I, 0)) + x(t.lower(I, 0)) + x(t.upper(I, 1))
                    + x(t.lower(I, 1)) + x(t.upper(I, 2)) + x(t.lower(I, 2)))) / 6.0
  }

  /**
   One pass of the `for k in range(lin_iters)` loop of `lin_solve(x, x0, 1.0, 6.0)`,
   as the only call (in `project`) uses it: every grid cell is set to the
   relaxation update of its six neighbour reads. The neighbours are read from
   the field before the pass (a Jacobi sweep; the source updates in place in
   a parallel loop). Off the grid the field stays. With a zero right-hand
   side and reads on the grid, a field constant on the grid is a fixed point.
   */
  function Sweep(n: Size, t: Table, x: Field, x0: Field): (r: Field)
    ensures forall k :: OnGrid(n, t) && Constant(n, x, k) && Constant(n, x0, 0.0) ==> Constant(n, r, k)
  {
    var r := (I: Idx) => if InGrid(n, I) then RelaxAt(t, x, x0, I) else x(I);
    assert forall k :: OnGrid(n, t) && Constant(n, x, k) && Constant(n, x0, 0.0) ==> Constant(n, r, k) by {
      forall k | OnGrid(n, t) && Constant(n, x, k) && Constant(n, x0, 0.0)
        ensures Constant(n, r, k)
      {
        forall I | InGrid(n, I)
          ensures r(I) == k
        {
          RelaxBetween(n, t, x, x0, I, k, k);
        }
      }
    }
    r
  }

  /**
   The field `lin_solve` leaves behind after `sweeps` passes. A field
   constant on the grid stays so through every number of passes when the
   right-hand side is zero and the reads are on the grid.
   */
  function LinSolve(n: Size, t: Table, x: Field, x0: Field, sweeps: nat): (r: Field)
    ensures forall k :: OnGrid(n, t) && Constant(n, x, k) && Constant(n, x0, 0.0) ==> Constant(n, r, k)
    decreases sweeps
  {
    if sweeps == 0 then x else Sweep(n, t, LinSolve(n, t, x, x0, sweeps - 1), x0)
  }

  /**
   The divergence loop of `project`: minus the central differences, scaled
   by `1 / (2 n)`. A cell whose two reads along every axis hold the same
   velocity has zero divergence.
   */
  function Divergence(n: Size, t: Table, a: VField): (r: Field)
    ensures forall I {:trigger r(I)} ::
              InGrid(n, I) && a(t.upper(I, 0)) == a(t.lower(I, 0))
              && a(t.upper(I, 1)) == a(t.lower(I, 1)) && a(t.upper(I, 2)) == a(t.lower(I, 2))
              ==> r(I) == 0.0
  {
    I => if InGrid(n, I) then
      -(a(t.upper(I, 0)).x - a(t.lower(I, 0)).x
        + a(t.upper(I, 1)).y - a(t.lower(I, 1)).y
        + a(t.upper(I, 2)).z - a(t.lower(I, 2)).z) / (2.0 * n as real)
    else 0.0
  }

  /**
   The correction subtracted from `v[I]` in `project`: `n * (p[upper] - p[lower]) / 2`
   per axis. A component is zero exactly when the pressure at the two reads
   along that axis is the same.
   */
  function PressureGradient(n: Size, t: Table, p: Field, I: Idx): (r: Vec3)
    ensures forall d: Axis :: r.Get(d) == 0.0 <==> p(t.upper(I, d)) == p(t.lower(I, d))
  {
    Vec3((n as real) * (p(t.upper(I, 0)) - p(t.lower(I, 0))) / 2.0,
         (n as real) * (p(t.upper(I, 1)) - p(t.lower(I, 1))) / 2.0,
         (n as real) * (p(t.upper(I, 2)) - p(t.lower(I, 2))) / 2.0)
  }

  /** The field that holds `k` everywhere, such as the pressure start value `p[I] = 0`. */
  function ConstField(k: real): Field {
    (I: Idx) => k
  }

  /**
   The pressure `project` solves for: `lin_iters` sweeps of
   `lin_solve(p, div, 1, 6)` from zero. With reads on the grid, a uniform
   flow has zero divergence, so its pressure stays zero on every cell.
   */
  function Pressure(n: Size, t: Table, v: VField): (r: Field)
    ensures OnGrid(n, t) ==> forall u :: Uniform(n, v, u) ==> Constant(n, r, 0.0)
  {
    var r := LinSolve(n, t, ConstField(0.0), Divergence(n, t, v), LinIters);
    assert OnGrid(n, t) ==> forall u :: Uniform(n, v, u) ==> Constant(n, r, 0.0) by {
      if OnGrid(n, t) {
        forall u | Uniform(n, v, u)
          ensures Constant(n, r, 0.0)
        {
          DivergenceUniform(n, t, v, u);
        }
      }
    }
    r
  }

  /**
   `project(v)`: the velocity minus the gradient of the solved pressure.
   With reads on the grid, a uniform flow is left as it is.
   */
  function Project(n: Size, t: Table, v: VField): (r: VField)
    ensures OnGrid(n, t) ==> forall u :: Uniform(n, v, u) ==> Uniform(n, r, u)
  {
    var p := Pressure(n, t, v);
    var r := (I: Idx) => if InGrid(n, I) then Sub(v(I), PressureGradient(n, t, p, I)) else v(I);
    assert OnGrid(n, t) ==> forall u :: Uniform(n, v, u) ==> Uniform(n, r, u) by {
      if OnGrid(n, t) {
        forall u | Uniform(n, v, u)
          ensures Uniform(n, r, u)
        {
          forall I | InGrid(n, I)
            ensures r(I) == u
          {
            GradientConstant(n, t, p, 0.0, I);
          }
        }
      }
    }
    r
  }

  /**
   One relaxation update with a zero right-hand side averages six reads, so
   at a grid cell whose reads lie on the grid it stays in any range that
   holds the field there.
   */
  lemma RelaxBetween(n: Size, t: Table, x: Field, x0: Field, I: Idx, lo: real, hi: real)
    requires OnGrid(n, t) && InGrid(n, I)
    requires Bounded(n, x, lo, hi) && x0(I) == 0.0
    ensures lo <= RelaxAt(t, x, x0, I) <= hi
  {
    assert lo <= x(t.upper(I, 0)) <= hi && lo <= x(t.lower(I, 0)) <= hi;
    assert lo <= x(t.upper(I, 1)) <= hi && lo <= x(t.lower(I, 1)) <= hi;
    assert lo <= x(t.upper(I, 2)) <= hi && lo <= x(t.lower(I, 2)) <= hi;
  }

  /**
   Maximum principle of one sweep with a zero right-hand side: each grid
   cell becomes an average of six grid cells, so it stays in any range that
   held the field before.
   */
  lemma SweepBounded(n: Size, t: Table, x: Field, x0: Field, lo: real, hi: real)
    requires OnGrid(n, t)
    requires Bounded(n, x, lo, hi) && Constant(n, x0, 0.0)
    ensures Bounded(n, Sweep(n, t, x, x0), lo, hi)
  {
    forall I | InGrid(n, I)
      ensures lo <= Sweep(n, t, x, x0)(I) <= hi
    {
      RelaxBetween(n, t, x, x0, I, lo, hi);
    }
  }

  /** The maximum principle for any number of sweeps, by induction on the sweep count. */
  lemma {:induction false} LinSolveBounded(n: Size, t: Table, x: Field, x0: Field, lo: real, hi: real, sweeps: nat)
    requires OnGrid(n, t)
    requires Bounded(n, x, lo, hi) && Constant(n, x0, 0.0)
    ensures Bounded(n, LinSolve(n, t, x, x0, sweeps), lo, hi)
    decreases sweeps
  {
    if sweeps > 0 {
      LinSolveBounded(n, t, x, x0, lo, hi, sweeps - 1);
      SweepBounded(n, t, LinSolve(n, t, x, x0, sweeps - 1), x0, lo, hi);
    }
  }

  /** A uniform flow has zero divergence on every cell. */
  lemma DivergenceUniform(n: Size, t: Table, v: VField, u: Vec3)
    requires OnGrid(n, t) && Uniform(n, v, u)
    ensures Constant(n, Divergence(n, t, v), 0.0)
  {
    forall I | InGrid(n, I)
      ensures Divergence(n, t, v)(I) == 0.0
    {
      assert v(t.upper(I, 0)) == u && v(t.lower(I, 0)) == u;
      assert v(t.upper(I, 1)) == u && v(t.lower(I, 1)) == u;
      assert v(t.upper(I, 2)) == u && v(t.lower(I, 2)) == u;
    }
  }

  /** A pressure that is constant on the grid has no gradient. */
  lemma GradientConstant(n: Size, t: Table, p: Field, k: real, I: Idx)
    requires OnGrid(n, t) && Constant(n, p, k)
    ensures PressureGradient(n, t, p, I) == Zero
  {
    assert InGrid(n, t.upper(I, 0)) && InGrid(n, t.lower(I, 0));
    assert InGrid(n, t.upper(I, 1)) && InGrid(n, t.lower(I, 1));
    assert InGrid(n, t.upper(I, 2)) && InGrid(n, t.lower(I, 2));
  }

  /** Under either rule, projection leaves a uniform flow as it is. */
  lemma ProjectUniformRule(rule: Rule, n: Size, v: VField, u: Vec3)
    requires Uniform(n, v, u)
    ensures Uniform(n, Project(n, Reads(rule, n), v), u)
  {
    ReadsOnGrid(rule, n);
  }

  /** The shear-free flow `(s * i, 0, 0)`, growing linearly along the first axis. */
  function LinearFlow(s: real): VField {
    (I: Idx) => Vec3(s * I.i as real, 0.0, 0.0)
  }

  /**
   A table that reads the adjacent cells of `I` gives the exact divergence
   `-s / n` of a linear flow there.
   */
  lemma DivergenceLinear(n: Size, t: Table, s: real, I: Idx)
    requires InGrid(n, I)
    requires t.upper(I, 0) == Shift(I, UnitIdx(0, 1)) && t.lower(I, 0) == Shift(I, UnitIdx(0, -1))
    ensures Divergence(n, t, LinearFlow(s))(I) == -s / (n as real)
  {
    assert s * (I.i + 1) as real - s * (I.i - 1) as real == 2.0 * s;
  }

  /**
   The centred rule's divergence is exact on a linear flow away from the
   boundary layers: `-s / n` everywhere.
   */
  lemma DivergenceCentredLinear(n: Size, s: real, I: Idx)
    requires n <= MaxSize
    requires 1 <= I.i <= n - 3 && 1 <= I.j <= n - 3 && 1 <= I.k <= n - 3
    ensures Divergence(n, Reads(Centred, n), LinearFlow(s))(I) == -s / (n as real)
  {
    CentredInterior(n, I, 0);
    DivergenceLinear(n, Reads(Centred, n), s, I);
  }

  /** The divergence of the flow `(i, 0, 0)` at a cell whose first-axis reads are `up` and `down`. */
  lemma DivergenceOfReads(n: Size, t: Table, I: Idx, up: Idx, down: Idx)
    requires InGrid(n, I) && t.upper(I, 0) == up && t.lower(I, 0) == down
    ensures Divergence(n, t, LinearFlow(1.0))(I) == -(up.i - down.i) as real / (2.0 * n as real)
  {
  }

  /**
   At the solver's resolution and cell `(5, 5, 5)`, the as-written
   divergence of the flow `(i, 0, 0)` is `121 / 256` where the centred one
   is `-1 / 128`.
   */
  lemma DivergenceCounterexample()
    ensures Divergence(N, Reads(AsWritten, N), LinearFlow(1.0))(Idx(5, 5, 5)) == 121.0 / 256.0
    ensures Divergence(N, Reads(Centred, N), LinearFlow(1.0))(Idx(5, 5, 5)) == -1.0 / 128.0
  {
    NeighbourCounterexample();
    DivergenceOfReads(N, Reads(AsWritten, N), Idx(5, 5, 5), Idx(5, 4, 4), Idx(126, 126, 126));
    DivergenceOfReads(N, Reads(Centred, N), Idx(5, 5, 5), Idx(6, 5, 5), Idx(4, 5, 5));
  }
}
