/**
 Three-component vectors of reals (world positions and velocities) and
 integer index triples (grid cells), with the few component-wise operations
 the solver uses.
 */
module Vectors {

  /** One of the three coordinate axes. */
  type Axis = d: int | 0 <= d < 3

  /** A position or a velocity in world space; `real` stands for the source's floats. */
  datatype Vec3 = Vec3(x: real, y: real, z: real) {

    /** Component `d`, as `p[d]` in the source. */
    function Get(d: Axis): real {
      if d == 0 then x else if d == 1 then y else z
    }
  }

  /** A grid cell index, as the source's `ti.Vector` of `i32`. */
  datatype Idx = Idx(i: int, j: int, k: int) {

    /** Component `d`, as `I[d]` in the source. */
    function Get(d: Axis): int {
      if d == 0 then i else if d == 1 then j else k
    }
  }

  const Zero: Vec3 := Vec3(0.0, 0.0, 0.0)

  function Add(a: Vec3, b: Vec3): Vec3 {
    Vec3(a.x + b.x, a.y + b.y, a.z + b.z)
  }

  function Sub(a: Vec3, b: Vec3): Vec3 {
    Vec3(a.x - b.x, a.y - b.y, a.z - b.z)
  }

  function Scale(s: real, a: Vec3): Vec3 {
    Vec3(s * a.x, s * a.y, s * a.z)
  }

  /** The unit vector along axis `d`, times `s`. */
  function Unit(d: Axis, s: real): Vec3 {
    if d == 0 then Vec3(s, 0.0, 0.0)
    else if d == 1 then Vec3(0.0, s, 0.0)
    else Vec3(0.0, 0.0, s)
  }

  /** An integer index read as a real vector, as Taichi does in `I + stagger`. */
  function ToReal(I: Idx): Vec3 {
    Vec3(I.i as real, I.j as real, I.k as real)
  }

  /** Index arithmetic `I + c`. */
  function Shift(I: Idx, c: Idx): Idx {
    Idx(I.i + c.i, I.j + c.j, I.k + c.k)
  }

  /** The smaller of `a` and `b`: a lower bound of both that is one of them. */
  function Min(a: real, b: real): (r: real)
    ensures r <= a && r <= b
    ensures r == a || r == b
  {
    if a <= b then a else b
  }

  /** The larger of `a` and `b`: an upper bound of both that is one of them. */
  function Max(a: real, b: real): (r: real)
    ensures r >= a && r >= b
    ensures r == a || r == b
  {
    if a >= b then a else b
  }
}
