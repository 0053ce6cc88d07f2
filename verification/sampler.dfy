/**
 The grid sampler: the per-axis domain clamp, the nearest-lower cell index
 `sample`, and trilinear interpolation `sample_trilinear` over the 2x2x2
 stencil at that index, for scalar and vector fields.
 */
module Sampler {
  import opened Vectors
  import opened Grid

  /** Cell centres sit half a cell from the cell corner on every axis. */
  const Stagger: real := 0.5

  /** The `1e-4` safety margin of the upper clamp bound. */
  const Margin: real := 0.0001

  /** The cell width `1 / n`. */
  function Dx(n: Size): (r: real)
    ensures r * (n as real) == 1.0
    ensures 0.0 < r <= 0.5
  {
    1.0 / n as real
  }

  /** Lower clamp bound `stagger * dx`. */
  function Lo(n: Size): real {
    Stagger * Dx(n)
  }

  /** Upper clamp bound `1 - 1e-4 - dx + stagger * dx`. */
  function Hi(n: Size): real {
    1.0 - Margin - Dx(n) + Stagger * Dx(n)
  }

  lemma LoBelowHi(n: Size)
    ensures Lo(n) < Hi(n)
    ensures Lo(n) * (n as real) == Stagger
    ensures Hi(n) * (n as real) == (n as real) - Margin * (n as real) - Stagger
  {
    var dx := Dx(n);
    calc {
      Hi(n) * (n as real);
      (1.0 - Margin) * (n as real) - dx * (n as real) + Stagger * (dx * (n as real));
      (n as real) - Margin * (n as real) - Stagger;
    }
  }

  /** One axis of `clamp`: `min(hi, max(c, lo))`. */
  function ClampAxis(n: Size, c: real): (r: real)
    ensures Lo(n) <= r <= Hi(n)
    ensures Lo(n) <= c <= Hi(n) ==> r == c
    ensures c < Lo(n) ==> r == Lo(n)
    ensures c > Hi(n) ==> r == Hi(n)
  {
    LoBelowHi(n);
    Min(Hi(n), Max(c, Lo(n)))
  }

  /** `clamp(p)`: every component forced into `[lo, hi]`. */
  function Clamp(n: Size, p: Vec3): (r: Vec3)
    ensures forall d: Axis :: Lo(n) <= r.Get(d) <= Hi(n)
    ensures forall d: Axis :: Lo(n) <= p.Get(d) <= Hi(n) ==> r.Get(d) == p.Get(d)
  {
    Vec3(ClampAxis(n, p.x), ClampAxis(n, p.y), ClampAxis(n, p.z))
  }

  /** Clamping a clamped position changes nothing. */
  lemma ClampIdempotent(n: Size, p: Vec3)
    ensures Clamp(n, Clamp(n, p)) == Clamp(n, p)
  {
    var q := Clamp(n, p);
    assert Lo(n) <= q.Get(0) <= Hi(n) && Lo(n) <= q.Get(1) <= Hi(n) && Lo(n) <= q.Get(2) <= Hi(n);
  }

  /** One axis of `p_grid = clamp(p) * n - stagger`. */
  function GridCoord(n: Size, c: real): real {
    ClampAxis(n, c) * (n as real) - Stagger
  }

  /** The grid coordinate of a clamped position lies in `[0, n - 1)`. */
  lemma GridCoordRange(n: Size, c: real)
    ensures 0.0 <= GridCoord(n, c) < (n - 1) as real
  {
    LoBelowHi(n);
    var q, m := ClampAxis(n, c), n as real;
    ScaleBetween(Lo(n), q, Hi(n), m);
    var mm := Margin * m;
    assert mm > 0.0;
    assert Lo(n) * m <= q * m <= m - mm - Stagger;
  }

  /** Scaling by `d` and then by its inverse `m` gives the start value back. */
  lemma Rescale(c: real, d: real, m: real)
    requires d * m == 1.0
    ensures (c * d) * m == c
  {
    assert (c * d) * m == c * (d * m);
  }

  /** Scaling by a positive factor keeps the order. */
  lemma ScaleBetween(lo: real, q: real, hi: real, m: real)
    requires lo <= q <= hi && m > 0.0
    ensures lo * m <= q * m <= hi * m
  {
  }

  /** One axis of `sample`: `floor(p_grid)`. */
  function CellOf(n: Size, c: real): (r: int)
    ensures 0 <= r <= n - 2
  {
    GridCoordRange(n, c);
    GridCoord(n, c).Floor
  }

  /** One axis of the fractional offset `f = p_grid - I`. */
  function FracOf(n: Size, c: real): (r: real)
    ensures 0.0 <= r < 1.0
  {
    GridCoord(n, c) - CellOf(n, c) as real
  }

  /**
   `sample(p)`: the cell whose stencil surrounds the clamped position. The
   whole 2x2x2 stencil above it lies on the grid, for every position.
   */
  function Sample(n: Size, p: Vec3): (I: Idx)
    ensures StencilBase(n, I)
    ensures forall c :: IsOffset(c) ==> InGrid(n, Shift(I, c))
  {
    Idx(CellOf(n, p.x), CellOf(n, p.y), CellOf(n, p.z))
  }

  /** The vector `f` of `sample_trilinear`. */
  function Frac(n: Size, p: Vec3): Vec3 {
    Vec3(FracOf(n, p.x), FracOf(n, p.y), FracOf(n, p.z))
  }

  /** Every component of `f` lies in `[0, 1)`. */
  predicate UnitFrac(f: Vec3) {
    0.0 <= f.x < 1.0 && 0.0 <= f.y < 1.0 && 0.0 <= f.z < 1.0
  }

  /**
   The factor of one axis for corner bit `b`: `f` on the upper side, `g = 1 - f`
   on the lower (`Weight1Literal` relates it to the source's `b * f + (1 - b) * g`).
   */
  function Weight1(b: int, f: real): real {
    if b == 1 then f else 1.0 - f
  }

  /** The weight of stencil corner `c`. */
  function Weight(c: Idx, f: Vec3): real {
    Weight1(c.i, f.x) * Weight1(c.j, f.y) * Weight1(c.k, f.z)
  }

  /** The term `weight * x[I + c]` that the stencil loop adds for corner `c`. */
  function Term(n: Size, x: Field, I: Idx, f: Vec3, c: Idx): real
    requires StencilBase(n, I) && IsOffset(c)
  {
    Weight(c, f) * At(n, x, Shift(I, c))
  }

  /** The same term for a vector field. */
  function TermV(n: Size, v: VField, I: Idx, f: Vec3, c: Idx): Vec3
    requires StencilBase(n, I) && IsOffset(c)
  {
    Scale(Weight(c, f), At(n, v, Shift(I, c)))
  }

  /**
   The stencil loop of `sample_trilinear`: starting from zero, add the eight
   terms in `ti.ndrange(2, 2, 2)` order.
   */
  function Trilinear(n: Size, x: Field, I: Idx, f: Vec3): real
    requires StencilBase(n, I)
  {
    0.0
      + Term(n, x, I, f, Idx(0, 0, 0)) + Term(n, x, I, f, Idx(0, 0, 1))
      + Term(n, x, I, f, Idx(0, 1, 0)) + Term(n, x, I, f, Idx(0, 1, 1))
      + Term(n, x, I, f, Idx(1, 0, 0)) + Term(n, x, I, f, Idx(1, 0, 1))
      + Term(n, x, I, f, Idx(1, 1, 0)) + Term(n, x, I, f, Idx(1, 1, 1))
  }

  /** The same loop for a vector field, starting from `x[I] * 0`. */
  function TrilinearV(n: Size, v: VField, I: Idx, f: Vec3): Vec3
    requires StencilBase(n, I)
  {
    var r0 := Add(Zero, TermV(n, v, I, f, Idx(0, 0, 0)));
    var r1 := Add(r0, TermV(n, v, I, f, Idx(0, 0, 1)));
    var r2 := Add(r1, TermV(n, v, I, f, Idx(0, 1, 0)));
    var r3 := Add(r2, TermV(n, v, I, f, Idx(0, 1, 1)));
    var r4 := Add(r3, TermV(n, v, I, f, Idx(1, 0, 0)));
    var r5 := Add(r4, TermV(n, v, I, f, Idx(1, 0, 1)));
    var r6 := Add(r5, TermV(n, v, I, f, Idx(1, 1, 0)));
    Add(r6, TermV(n, v, I, f, Idx(1, 1, 1)))
  }


  /** The total of the eight corner weights. */
  function WeightTotal(f: Vec3): real {
    Weight(Idx(0, 0, 0), f) + Weight(Idx(0, 0, 1), f) + Weight(Idx(0, 1, 0), f) + Weight(Idx(0, 1, 1), f)
    + Weight(Idx(1, 0, 0), f) + Weight(Idx(1, 0, 1), f) + Weight(Idx(1, 1, 0), f) + Weight(Idx(1, 1, 1), f)
  }

  /** Linear interpolation from `a` (at `t = 0`) to `b` (at `t = 1`). */
  function Lerp(a: real, b: real, t: real): real {
    (1.0 - t) * a + t * b
  }

  /**
   The separable reference: interpolate along the last axis, then the middle
   one, then the first.
   */
  function TrilinearReference(n: Size, x: Field, I: Idx, f: Vec3): real
    requires StencilBase(n, I)
  {
    var x000, x001 := At(n, x, Shift(I, Idx(0, 0, 0))), At(n, x, Shift(I, Idx(0, 0, 1)));
    var x010, x011 := At(n, x, Shift(I, Idx(0, 1, 0))), At(n, x, Shift(I, Idx(0, 1, 1)));
    var x100, x101 := At(n, x, Shift(I, Idx(1, 0, 0))), At(n, x, Shift(I, Idx(1, 0, 1)));
    var x110, x111 := At(n, x, Shift(I, Idx(1, 1, 0))), At(n, x, Shift(I, Idx(1, 1, 1)));
    Lerp(Lerp(Lerp(x000, x001, f.z), Lerp(x010, x011, f.z), f.y),
         Lerp(Lerp(x100, x101, f.z), Lerp(x110, x111, f.z), f.y),
         f.x)
  }

  /** Every component of the fractional offset `f` lies in `[0, 1)`. */
  lemma FracInUnitCube(n: Size, p: Vec3)
    ensures UnitFrac(Frac(n, p))
  {
  }

  lemma MulNonNegative(a: real, b: real)
    requires a >= 0.0 && b >= 0.0
    ensures a * b >= 0.0
  {
  }

  /** Each corner weight is a product of `f` and `1 - f` factors, so non-negative. */
  lemma WeightNonNegative(c: Idx, f: Vec3)
    requires IsOffset(c) && UnitFrac(f)
    ensures Weight(c, f) >= 0.0
  {
    var a, b, e := Weight1(c.i, f.x), Weight1(c.j, f.y), Weight1(c.k, f.z);
    assert a >= 0.0 && b >= 0.0 && e >= 0.0;
    MulNonNegative(a, b);
    MulNonNegative(a * b, e);
  }

  /** For a corner bit, the factor is the source's `b * f + (1 - b) * (1 - f)`. */
  lemma Weight1Literal(b: int, f: real)
    requires 0 <= b <= 1
    ensures Weight1(b, f) == b as real * f + (1 - b) as real * (1.0 - f)
  {
  }

  /** The weights of the eight corners, written out. */
  lemma WeightsUnrolled(f: Vec3)
    ensures Weight(Idx(0, 0, 0), f) == (1.0 - f.x) * (1.0 - f.y) * (1.0 - f.z)
    ensures Weight(Idx(0, 0, 1), f) == (1.0 - f.x) * (1.0 - f.y) * f.z
    ensures Weight(Idx(0, 1, 0), f) == (1.0 - f.x) * f.y * (1.0 - f.z)
    ensures Weight(Idx(0, 1, 1), f) == (1.0 - f.x) * f.y * f.z
    ensures Weight(Idx(1, 0, 0), f) == f.x * (1.0 - f.y) * (1.0 - f.z)
    ensures Weight(Idx(1, 0, 1), f) == f.x * (1.0 - f.y) * f.z
    ensures Weight(Idx(1, 1, 0), f) == f.x * f.y * (1.0 - f.z)
    ensures Weight(Idx(1, 1, 1), f) == f.x * f.y * f.z
  {
  }

  /** `(1-a)(1-b)(1-e) + ... + abe`, the expanded product of three unit sums, is one. */
  lemma ProductExpansion(a: real, b: real, e: real)
    ensures (1.0 - a) * (1.0 - b) * (1.0 - e) + (1.0 - a) * (1.0 - b) * e
          + (1.0 - a) * b * (1.0 - e) + (1.0 - a) * b * e
          + a * (1.0 - b) * (1.0 - e) + a * (1.0 - b) * e
          + a * b * (1.0 - e) + a * b * e == 1.0
  {
    var a0, b0, e0 := 1.0 - a, 1.0 - b, 1.0 - e;
    assert a0 * b0 * e0 + a0 * b0 * e == a0 * b0;
    assert a0 * b * e0 + a0 * b * e == a0 * b;
    assert a * b0 * e0 + a * b0 * e == a * b0;
    assert a * b * e0 + a * b * e == a * b;
    assert a0 * b0 + a0 * b == a0;
    assert a * b0 + a * b == a;
  }

  /** The eight corner weights sum to one. */
  lemma WeightsSumToOne(f: Vec3)
    ensures WeightTotal(f) == 1.0
  {
    WeightsUnrolled(f);
    ProductExpansion(f.x, f.y, f.z);
  }

  lemma LerpAbove(a: real, b: real, t: real, lo: real)
    requires 0.0 <= t <= 1.0 && lo <= a && lo <= b
    ensures lo <= Lerp(a, b, t)
  {
    MulNonNegative(1.0 - t, a - lo);
    MulNonNegative(t, b - lo);
    assert Lerp(a, b, t) == lo + (1.0 - t) * (a - lo) + t * (b - lo);
  }

  lemma LerpBelow(a: real, b: real, t: real, hi: real)
    requires 0.0 <= t <= 1.0 && a <= hi && b <= hi
    ensures Lerp(a, b, t) <= hi
  {
    MulNonNegative(1.0 - t, hi - a);
    MulNonNegative(t, hi - b);
    assert Lerp(a, b, t) == hi - (1.0 - t) * (hi - a) - t * (hi - b);
  }

  /** Linear interpolation between two values in `[lo, hi]` stays in `[lo, hi]`. */
  lemma LerpBetween(a: real, b: real, t: real, lo: real, hi: real)
    requires 0.0 <= t <= 1.0
    requires lo <= a <= hi && lo <= b <= hi
    ensures lo <= Lerp(a, b, t) <= hi
  {
    LerpAbove(a, b, t, lo);
    LerpBelow(a, b, t, hi);
  }

  /** The stencil loop is a convex combination of the eight corner values. */
  lemma TrilinearBetween(n: Size, x: Field, I: Idx, f: Vec3, lo: real, hi: real)
    requires StencilBase(n, I) && UnitFrac(f)
    requires forall c :: IsOffset(c) ==> lo <= x(Shift(I, c)) <= hi
    ensures lo <= Trilinear(n, x, I, f) <= hi
  {
    TrilinearSeparable(n, x, I, f);
    var x000, x001 := x(Shift(I, Idx(0, 0, 0))), x(Shift(I, Idx(0, 0, 1)));
    var x010, x011 := x(Shift(I, Idx(0, 1, 0))), x(Shift(I, Idx(0, 1, 1)));
    var x100, x101 := x(Shift(I, Idx(1, 0, 0))), x(Shift(I, Idx(1, 0, 1)));
    var x110, x111 := x(Shift(I, Idx(1, 1, 0))), x(Shift(I, Idx(1, 1, 1)));
    assert IsOffset(Idx(0, 0, 0)) && IsOffset(Idx(0, 0, 1)) && IsOffset(Idx(0, 1, 0)) && IsOffset(Idx(0, 1, 1));
    assert IsOffset(Idx(1, 0, 0)) && IsOffset(Idx(1, 0, 1)) && IsOffset(Idx(1, 1, 0)) && IsOffset(Idx(1, 1, 1));
    LerpBetween(x000, x001, f.z, lo, hi);
    LerpBetween(x010, x011, f.z, lo, hi);
    LerpBetween(x100, x101, f.z, lo, hi);
    LerpBetween(x110, x111, f.z, lo, hi);
    var l00, l01 := Lerp(x000, x001, f.z), Lerp(x010, x011, f.z);
    var l10, l11 := Lerp(x100, x101, f.z), Lerp(x110, x111, f.z);
    LerpBetween(l00, l01, f.y, lo, hi);
    LerpBetween(l10, l11, f.y, lo, hi);
    LerpBetween(Lerp(l00, l01, f.y), Lerp(l10, l11, f.y), f.x, lo, hi);
  }

  /**
   Trilinear sampling is a convex combination of the stencil: a bound that
   holds at all eight corners holds for the sample.
   */
  lemma TrilinearConvex(n: Size, x: Field, p: Vec3, lo: real, hi: real)
    requires forall c :: IsOffset(c) ==> lo <= x(Shift(Sample(n, p), c)) <= hi
    ensures lo <= SampleTrilinear(n, x, p) <= hi
  {
    FracInUnitCube(n, p);
    TrilinearBetween(n, x, Sample(n, p), Frac(n, p), lo, hi);
  }

  /** Sampling a constant field returns the constant, at any position. */
  lemma TrilinearConstant(n: Size, x: Field, p: Vec3, k: real)
    requires forall I :: InGrid(n, I) ==> x(I) == k
    ensures SampleTrilinear(n, x, p) == k
  {
    TrilinearConvex(n, x, p, k, k);
  }

  /** Clamping before sampling changes neither the index nor the fraction. */
  lemma SampleOfClamped(n: Size, p: Vec3)
    ensures Sample(n, Clamp(n, p)) == Sample(n, p)
    ensures Frac(n, Clamp(n, p)) == Frac(n, p)
  {
    AxisOfClamped(n, p.x);
    AxisOfClamped(n, p.y);
    AxisOfClamped(n, p.z);
  }

  /** One axis of `SampleOfClamped`. */
  lemma AxisOfClamped(n: Size, c: real)
    ensures CellOf(n, ClampAxis(n, c)) == CellOf(n, c)
    ensures FracOf(n, ClampAxis(n, c)) == FracOf(n, c)
  {
    assert ClampAxis(n, ClampAxis(n, c)) == ClampAxis(n, c);
  }

  /** Positions outside the domain sample like their clamped counterparts. */
  lemma TrilinearSaturates(n: Size, x: Field, p: Vec3)
    ensures SampleTrilinear(n, x, p) == SampleTrilinear(n, x, Clamp(n, p))
  {
    SampleOfClamped(n, p);
  }

  /** Nested linear interpolation, multiplied out, is the sum of the eight corners weighted by products of per-axis factors. */
  lemma LerpExpansion(a: real, b: real, e: real,
                      x000: real, x001: real, x010: real, x011: real,
                      x100: real, x101: real, x110: real, x111: real)
    ensures Lerp(Lerp(Lerp(x000, x001, e), Lerp(x010, x011, e), b),
                 Lerp(Lerp(x100, x101, e), Lerp(x110, x111, e), b), a)
         == (1.0 - a) * (1.0 - b) * (1.0 - e) * x000 + (1.0 - a) * (1.0 - b) * e * x001
          + (1.0 - a) * b * (1.0 - e) * x010 + (1.0 - a) * b * e * x011
          + a * (1.0 - b) * (1.0 - e) * x100 + a * (1.0 - b) * e * x101
          + a * b * (1.0 - e) * x110 + a * b * e * x111
  {
    var y0 := Lerp(Lerp(x000, x001, e), Lerp(x010, x011, e), b);
    var y1 := Lerp(Lerp(x100, x101, e), Lerp(x110, x111, e), b);
    assert Lerp(y0, y1, a) == (1.0 - a) * y0 + a * y1;
    WeightedBilinear(1.0 - a, b, e, x000, x001, x010, x011);
    WeightedBilinear(a, b, e, x100, x101, x110, x111);
  }

  /** A weighted bilinear interpolation splits into its four weighted corners. */
  lemma WeightedBilinear(p: real, b: real, e: real, x00: real, x01: real, x10: real, x11: real)
    ensures p * Lerp(Lerp(x00, x01, e), Lerp(x10, x11, e), b)
         == p * (1.0 - b) * (1.0 - e) * x00 + p * (1.0 - b) * e * x01 + p * b * (1.0 - e) * x10 + p * b * e * x11
  {
    WeightedLerp(p, b, Lerp(x00, x01, e), Lerp(x10, x11, e));
    WeightedLerp(p * (1.0 - b), e, x00, x01);
    WeightedLerp(p * b, e, x10, x11);
  }

  /** A weighted interpolation splits into the two weighted end points. */
  lemma WeightedLerp(p: real, t: real, u: real, v: real)
    ensures p * Lerp(u, v, t) == (p * (1.0 - t)) * u + (p * t) * v
  {
    assert p * Lerp(u, v, t) == p * ((1.0 - t) * u) + p * (t * v);
  }

  /** The stencil loop written with the corner values. */
  lemma TrilinearWeighted(n: Size, x: Field, I: Idx, f: Vec3)
    requires StencilBase(n, I)
    ensures Trilinear(n, x, I, f)
         == Weight(Idx(0, 0, 0), f) * x(Shift(I, Idx(0, 0, 0))) + Weight(Idx(0, 0, 1), f) * x(Shift(I, Idx(0, 0, 1)))
          + Weight(Idx(0, 1, 0), f) * x(Shift(I, Idx(0, 1, 0))) + Weight(Idx(0, 1, 1), f) * x(Shift(I, Idx(0, 1, 1)))
          + Weight(Idx(1, 0, 0), f) * x(Shift(I, Idx(1, 0, 0))) + Weight(Idx(1, 0, 1), f) * x(Shift(I, Idx(1, 0, 1)))
          + Weight(Idx(1, 1, 0), f) * x(Shift(I, Idx(1, 1, 0))) + Weight(Idx(1, 1, 1), f) * x(Shift(I, Idx(1, 1, 1)))
  {
  }

  /** The expansion with the weights named. */
  lemma LerpWeights(a: real, b: real, e: real,
                    w000: real, w001: real, w010: real, w011: real,
                    w100: real, w101: real, w110: real, w111: real,
                    x000: real, x001: real, x010: real, x011: real,
                    x100: real, x101: real, x110: real, x111: real)
    requires w000 == (1.0 - a) * (1.0 - b) * (1.0 - e) && w001 == (1.0 - a) * (1.0 - b) * e
    requires w010 == (1.0 - a) * b * (1.0 - e) && w011 == (1.0 - a) * b * e
    requires w100 == a * (1.0 - b) * (1.0 - e) && w101 == a * (1.0 - b) * e
    requires w110 == a * b * (1.0 - e) && w111 == a * b * e
    ensures Lerp(Lerp(Lerp(x000, x001, e), Lerp(x010, x011, e), b),
                 Lerp(Lerp(x100, x101, e), Lerp(x110, x111, e), b), a)
         == w000 * x000 + w001 * x001 + w010 * x010 + w011 * x011
          + w100 * x100 + w101 * x101 + w110 * x110 + w111 * x111
  {
    LerpExpansion(a, b, e, x000, x001, x010, x011, x100, x101, x110, x111);
  }

  /** The reference definition, multiplied out, is the same weighted sum. */
  lemma ReferenceWeighted(n: Size, x: Field, I: Idx, f: Vec3)
    requires StencilBase(n, I)
    ensures TrilinearReference(n, x, I, f)
         == Weight(Idx(0, 0, 0), f) * x(Shift(I, Idx(0, 0, 0))) + Weight(Idx(0, 0, 1), f) * x(Shift(I, Idx(0, 0, 1)))
          + Weight(Idx(0, 1, 0), f) * x(Shift(I, Idx(0, 1, 0))) + Weight(Idx(0, 1, 1), f) * x(Shift(I, Idx(0, 1, 1)))
          + Weight(Idx(1, 0, 0), f) * x(Shift(I, Idx(1, 0, 0))) + Weight(Idx(1, 0, 1), f) * x(Shift(I, Idx(1, 0, 1)))
          + Weight(Idx(1, 1, 0), f) * x(Shift(I, Idx(1, 1, 0))) + Weight(Idx(1, 1, 1), f) * x(Shift(I, Idx(1, 1, 1)))
  {
    WeightsUnrolled(f);
    LerpWeights(f.x, f.y, f.z,
      Weight(Idx(0, 0, 0), f), Weight(Idx(0, 0, 1), f), Weight(Idx(0, 1, 0), f), Weight(Idx(0, 1, 1), f),
      Weight(Idx(1, 0, 0), f), Weight(Idx(1, 0, 1), f), Weight(Idx(1, 1, 0), f), Weight(Idx(1, 1, 1), f),
      x(Shift(I, Idx(0, 0, 0))), x(Shift(I, Idx(0, 0, 1))), x(Shift(I, Idx(0, 1, 0))), x(Shift(I, Idx(0, 1, 1))),
      x(Shift(I, Idx(1, 0, 0))), x(Shift(I, Idx(1, 0, 1))), x(Shift(I, Idx(1, 1, 0))), x(Shift(I, Idx(1, 1, 1))));
  }

  /** The eight-term sum is exactly axis-by-axis linear interpolation. */
  lemma TrilinearSeparable(n: Size, x: Field, I: Idx, f: Vec3)
    requires StencilBase(n, I)
    ensures Trilinear(n, x, I, f) == TrilinearReference(n, x, I, f)
  {
    TrilinearWeighted(n, x, I, f);
    ReferenceWeighted(n, x, I, f);
  }

  /** Component `d` of a vector term is the scalar term of component `d`. */
  lemma TermVComponent(n: Size, v: VField, I: Idx, f: Vec3, c: Idx, d: Axis)
    requires StencilBase(n, I) && IsOffset(c)
    ensures TermV(n, v, I, f, c).Get(d) == Term(n, Component(v, d), I, f, c)
  {
    assert Component(v, d)(Shift(I, c)) == v(Shift(I, c)).Get(d);
  }

  /** Taking a component distributes over vector addition. */
  lemma AddComponent(a: Vec3, b: Vec3, d: Axis)
    ensures Add(a, b).Get(d) == a.Get(d) + b.Get(d)
  {
  }

  /**
   Vector trilinear interpolation works component by component: component
   `d` of the result is the scalar interpolation of component `d` of the field.
   */
  lemma TrilinearVComponent(n: Size, v: VField, I: Idx, f: Vec3, d: Axis)
    requires StencilBase(n, I)
    ensures TrilinearV(n, v, I, f).Get(d) == Trilinear(n, Component(v, d), I, f)
  {
    var t := (c: Idx) requires IsOffset(c) => TermV(n, v, I, f, c);
    var c0, c1, c2, c3 := Idx(0, 0, 0), Idx(0, 0, 1), Idx(0, 1, 0), Idx(0, 1, 1);
    var c4, c5, c6, c7 := Idx(1, 0, 0), Idx(1, 0, 1), Idx(1, 1, 0), Idx(1, 1, 1);
    TermVComponent(n, v, I, f, c0, d);
    TermVComponent(n, v, I, f, c1, d);
    TermVComponent(n, v, I, f, c2, d);
    TermVComponent(n, v, I, f, c3, d);
    TermVComponent(n, v, I, f, c4, d);
    TermVComponent(n, v, I, f, c5, d);
    TermVComponent(n, v, I, f, c6, d);
    TermVComponent(n, v, I, f, c7, d);
    var r0 := Add(Zero, t(c0));
    var r1 := Add(r0, t(c1));
    var r2 := Add(r1, t(c2));
    var r3 := Add(r2, t(c3));
    var r4 := Add(r3, t(c4));
    var r5 := Add(r4, t(c5));
    var r6 := Add(r5, t(c6));
    AddComponent(Zero, t(c0), d);
    AddComponent(r0, t(c1), d);
    AddComponent(r1, t(c2), d);
    AddComponent(r2, t(c3), d);
    AddComponent(r3, t(c4), d);
    AddComponent(r4, t(c5), d);
    AddComponent(r5, t(c6), d);
    AddComponent(r6, t(c7), d);
    assert TrilinearV(n, v, I, f) == Add(r6, t(c7));
  }

  /**
   `sample_trilinear(x, p)` for a scalar field: the stencil loop at `sample(p)`
   with the fractional offset of `p`, which equals the separable nested
   interpolation of the eight corners.
   */
  function SampleTrilinear(n: Size, x: Field, p: Vec3): (r: real)
    ensures r == TrilinearReference(n, x, Sample(n, p), Frac(n, p))
  {
    TrilinearSeparable(n, x, Sample(n, p), Frac(n, p));
    Trilinear(n, x, Sample(n, p), Frac(n, p))
  }

  /**
   `sample_trilinear(x, p)` for a vector field: each component is the scalar
   sample of that component of the field.
   */
  function SampleTrilinearV(n: Size, v: VField, p: Vec3): (r: Vec3)
    ensures forall d: Axis :: r.Get(d) == SampleTrilinear(n, Component(v, d), p)
  {
    TrilinearVComponent(n, v, Sample(n, p), Frac(n, p), 0);
    TrilinearVComponent(n, v, Sample(n, p), Frac(n, p), 1);
    TrilinearVComponent(n, v, Sample(n, p), Frac(n, p), 2);
    TrilinearV(n, v, Sample(n, p), Frac(n, p))
  }
}
