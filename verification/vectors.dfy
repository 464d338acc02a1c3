/** Three-component vectors over the reals, standing in for nalgebra's `Vector3<f32>`
    (points, directions and RGB colours alike). */
module Vectors {

  datatype Vec3 = Vec3(x: real, y: real, z: real)

  /** Colours are vectors of linear RGB channels. */
  type Color = Vec3

  function Zero(): Vec3 { Vec3(0.0, 0.0, 0.0) }

  function Add(a: Vec3, b: Vec3): Vec3 { Vec3(a.x + b.x, a.y + b.y, a.z + b.z) }

  function Sub(a: Vec3, b: Vec3): Vec3 { Vec3(a.x - b.x, a.y - b.y, a.z - b.z) }

  function Neg(a: Vec3): Vec3 { Vec3(-a.x, -a.y, -a.z) }

  /** Scalar multiple `k * a`. */
  function Scale(k: real, a: Vec3): Vec3 { Vec3(k * a.x, k * a.y, k * a.z) }

  /** Component-wise product (`component_mul`). */
  function Mul(a: Vec3, b: Vec3): Vec3 { Vec3(a.x * b.x, a.y * b.y, a.z * b.z) }

  function Dot(a: Vec3, b: Vec3): real { a.x * b.x + a.y * b.y + a.z * b.z }

  function Cross(a: Vec3, b: Vec3): Vec3 {
    Vec3(a.y * b.z - a.z * b.y, a.z * b.x - a.x * b.z, a.x * b.y - a.y * b.x)
  }

  /** Component `a` of `v`, as `v[axis]` in the source (0 = x, 1 = y, 2 = z). */
  function Axis(v: Vec3, a: nat): real
    requires a < 3
  {
    if a == 0 then v.x else if a == 1 then v.y else v.z
  }

  /** The unit vector along axis `a`, pointing to the positive side when `positive`. */
  function UnitAxis(a: nat, positive: bool): (r: Vec3)
    requires a < 3
    ensures Axis(r, a) == (if positive then 1.0 else -1.0)
    ensures forall b | 0 <= b < 3 && b != a :: Axis(r, b) == 0.0
  {
    var s := if positive then 1.0 else -1.0;
    if a == 0 then Vec3(s, 0.0, 0.0) else if a == 1 then Vec3(0.0, s, 0.0) else Vec3(0.0, 0.0, s)
  }

  predicate IsUnit(v: Vec3) { Dot(v, v) == 1.0 }

  /** All components lie in `[0, 1]`. */
  predicate InUnitCube(c: Color) {
    0.0 <= c.x <= 1.0 && 0.0 <= c.y <= 1.0 && 0.0 <= c.z <= 1.0
  }

  function Abs(x: real): real { if x < 0.0 then -x else x }

  function Max(a: real, b: real): real { if a < b then b else a }

  /** The dot product is linear in its left argument. */
  lemma DotSubScale(a: Vec3, k: real, n: Vec3)
    ensures Dot(Sub(a, Scale(k, n)), n) == Dot(a, n) - k * Dot(n, n)
  {
  }

  lemma DotNeg(a: Vec3, b: Vec3)
    ensures Dot(a, Neg(b)) == -Dot(a, b)
  {
  }

  /** Component-wise multiplication is associative. */
  lemma MulAssoc(a: Vec3, b: Vec3, c: Vec3)
    ensures Mul(Mul(a, b), c) == Mul(a, Mul(b, c))
  {
    assert (a.x * b.x) * c.x == a.x * (b.x * c.x);
    assert (a.y * b.y) * c.y == a.y * (b.y * c.y);
    assert (a.z * b.z) * c.z == a.z * (b.z * c.z);
  }
}
