/**
 The cubic grid of side `n` and the fields that live on it. A field is a
 total map from index triples to values; only the cells of the grid exist in
 the solver, and every read the model makes goes through `At`, whose
 precondition is the bounds check the source relies on.
 */
module Grid {
  import opened Vectors

  /** Grid resolution; the solver fixes it at 128 (fluid_3d.py line 5). */
  type Size = n: int | 2 <= n witness 2

  const N: Size := 128

  /**
   Largest resolution at which the clamp's 1e-4 margin is at most one cell
   width; the exact index facts about cell centres need it.
   */
  const MaxSize: int := 10000

  /** A scalar field such as density, divergence or pressure. */
  type Field = Idx -> real

  /** A vector field such as velocity. */
  type VField = Idx -> Vec3

  /** `I` is one of the `n * n * n` cells. */
  predicate InGrid(n: Size, I: Idx) {
    0 <= I.i < n && 0 <= I.j < n && 0 <= I.k < n
  }

  /** `I` can be the lower corner of a 2x2x2 stencil that stays on the grid. */
  predicate StencilBase(n: Size, I: Idx) {
    0 <= I.i <= n - 2 && 0 <= I.j <= n - 2 && 0 <= I.k <= n - 2
  }

  /** A bounds-checked read `x[I]`. */
  function At<T>(n: Size, x: Idx -> T, I: Idx): T
    requires InGrid(n, I)
  {
    x(I)
  }

  /** Component `d` of a vector field, as a scalar field. */
  function Component(v: VField, d: Axis): Field {
    I => v(I).Get(d)
  }

  /** The corner offsets `(i, j, k)` of the unit cube, `i, j, k` in `{0, 1}`. */
  predicate IsOffset(c: Idx) {
    0 <= c.i <= 1 && 0 <= c.j <= 1 && 0 <= c.k <= 1
  }

  /** Every stencil corner of a stencil base is a grid cell. */
  lemma StencilInGrid(n: Size, I: Idx, c: Idx)
    requires StencilBase(n, I) && IsOffset(c)
    ensures InGrid(n, Shift(I, c))
  {
  }
}
