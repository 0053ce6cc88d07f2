/**
 The density half of `add_source`: a 20x20x20 block of cells gains
 `100 * dt` density each step. The random velocity kicks of the same kernel
 are not part of this model.
 */
module Source {
  import opened Vectors
  import opened Grid

  /** Side of the source block (fluid_3d.py line 6). */
  const SourceSize: int := 20

  /** Density added per unit time to every source cell. */
  const Rate: real := 100.0

  /**
   Lower corner of the block: centred in `i` and `k`, starting one block
   height above the floor in `j`. Python's `//` floors, as Dafny's `/` does
   for a positive divisor.
   */
  function SourceOrigin(n: Size): Idx {
    Idx((n - SourceSize) / 2, SourceSize, (n - SourceSize) / 2)
  }

  /** The cell the loop body writes for loop indices `(i, j, k)`. */
  function SourceCell(n: Size, i: int, j: int, k: int): Idx {
    Shift(SourceOrigin(n), Idx(i, j, k))
  }

  /** The loop ranges `ti.ndrange(20, 20, 20)`. */
  predicate InRange(i: int, j: int, k: int) {
    0 <= i < SourceSize && 0 <= j < SourceSize && 0 <= k < SourceSize
  }

  /** Some iteration of the loop writes cell `I`. */
  ghost predicate Visited(n: Size, I: Idx) {
    exists i, j, k :: InRange(i, j, k) && I == SourceCell(n, i, j, k)
  }

  /** Box test for the block, as the model evaluates it. */
  predicate InSource(n: Size, I: Idx) {
    var o := SourceOrigin(n);
    o.i <= I.i < o.i + SourceSize && o.j <= I.j < o.j + SourceSize && o.k <= I.k < o.k + SourceSize
  }

  /** The box test picks out exactly the cells the loop visits. */
  lemma InSourceIffVisited(n: Size, I: Idx)
    ensures InSource(n, I) <==> Visited(n, I)
  {
    var o := SourceOrigin(n);
    if InSource(n, I) {
      var i, j, k := I.i - o.i, I.j - o.j, I.k - o.k;
      assert InRange(i, j, k) && I == SourceCell(n, i, j, k);
    }
  }

  /** Distinct loop iterations write distinct cells, so no cell gets two increments. */
  lemma SourceCellInjective(n: Size, i: int, j: int, k: int, i': int, j': int, k': int)
    requires SourceCell(n, i, j, k) == SourceCell(n, i', j', k')
    ensures i == i' && j == j' && k == k'
  {
    assert SourceCell(n, i, j, k).i == SourceCell(n, i', j', k').i;
    assert SourceCell(n, i, j, k).j == SourceCell(n, i', j', k').j;
    assert SourceCell(n, i, j, k).k == SourceCell(n, i', j', k').k;
  }

  /**
   Every write of the loop is in bounds exactly when the grid has at least
   40 cells per side (the block then ends at row 39 in `j`).
   */
  lemma SourceInGrid(n: Size)
    ensures (forall i, j, k :: InRange(i, j, k) ==> InGrid(n, SourceCell(n, i, j, k))) <==> n >= 2 * SourceSize
  {
    if n < 2 * SourceSize {
      assert InRange(0, SourceSize - 1, 0) && !InGrid(n, SourceCell(n, 0, SourceSize - 1, 0));
    }
  }

  /** At the solver's resolution the block starts at `(54, 20, 54)` and fits. */
  lemma SourceAtN()
    ensures SourceOrigin(N) == Idx(54, 20, 54)
    ensures forall i, j, k :: InRange(i, j, k) ==> InGrid(N, SourceCell(N, i, j, k))
  {
    SourceInGrid(N);
  }

  /**
   The density loop of `add_source`: each cell of the block gains
   `100 * dt`; every other cell keeps its density. For `n < 40` part of the
   block lies off the grid, where the source would write outside the field; the
   model adds there too.
   */
  function AddSourceDens(n: Size, x: Field, dt: real): (r: Field)
    ensures forall i, j, k :: InRange(i, j, k) ==> r(SourceCell(n, i, j, k)) == x(SourceCell(n, i, j, k)) + Rate * dt
    ensures forall I :: !Visited(n, I) ==> r(I) == x(I)
  {
    forall I ensures InSource(n, I) <==> Visited(n, I) {
      InSourceIffVisited(n, I);
    }
    (I: Idx) => if InSource(n, I) then x(I) + Rate * dt else x(I)
  }

  /** With `dt > 0` no density decreases, and a cell increases exactly when it is in the block. */
  lemma AddSourceMonotone(n: Size, x: Field, dt: real, I: Idx)
    requires dt > 0.0
    ensures AddSourceDens(n, x, dt)(I) >= x(I)
    ensures AddSourceDens(n, x, dt)(I) > x(I) <==> Visited(n, I)
  {
    InSourceIffVisited(n, I);
  }

  /** Two steps of the source add the same as one step with the summed time step. */
  lemma AddSourceAdditive(n: Size, x: Field, dt1: real, dt2: real, I: Idx)
    ensures AddSourceDens(n, AddSourceDens(n, x, dt1), dt2)(I) == AddSourceDens(n, x, dt1 + dt2)(I)
  {
  }
}
