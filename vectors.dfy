/**
 * Three-component vectors over exact reals (the `ultraviolet::Vec3` type with `f32`
 * components) and the ray type of src/ray.rs. Calls into the vector library whose
 * source is not part of this model (square root, normalisation, reflection and
 * refraction) are gathered in `Library`, a record of functions passed to the
 * operations that use them.
 */
module Vectors {

  datatype Vec3 = Vec3(x: real, y: real, z: real)

  function Zero(): Vec3 { Vec3(0.0, 0.0, 0.0) }

  function One(): Vec3 { Vec3(1.0, 1.0, 1.0) }

  function Broadcast(s: real): Vec3 { Vec3(s, s, s) }

  function Add(u: Vec3, v: Vec3): Vec3 { Vec3(u.x + v.x, u.y + v.y, u.z + v.z) }

  function Sub(u: Vec3, v: Vec3): Vec3 { Vec3(u.x - v.x, u.y - v.y, u.z - v.z) }

  /** `v * s` for a scalar `s`. */
  function Scale(v: Vec3, s: real): Vec3 { Vec3(v.x * s, v.y * s, v.z * s) }

  /** `v / s` for a scalar `s`, component by component. */
  function DivScalar(v: Vec3, s: real): Vec3
    requires s != 0.0
  {
    Vec3(v.x / s, v.y / s, v.z / s)
  }

  /** Component-wise product `u * v`. */
  function Mul(u: Vec3, v: Vec3): Vec3 { Vec3(u.x * v.x, u.y * v.y, u.z * v.z) }

  function Dot(u: Vec3, v: Vec3): real { u.x * v.x + u.y * v.y + u.z * v.z }

  /** The library's linear interpolation `a.lerp(b, t)`: `a * (1 - t) + b * t`. */
  function Lerp(a: Vec3, b: Vec3, t: real): Vec3 { Add(Scale(a, 1.0 - t), Scale(b, t)) }

  lemma SquareNonNegative(a: real)
    ensures a * a >= 0.0
  {
    if a < 0.0 {
      var b := -a;
      assert b * b > 0.0;
      assert b * b == a * a;
    }
  }

  /** A vector's squared length is never negative. */
  lemma DotSelfNonNegative(v: Vec3)
    ensures Dot(v, v) >= 0.0
  {
    SquareNonNegative(v.x);
    SquareNonNegative(v.y);
    SquareNonNegative(v.z);
  }

  /** A ray `origin + t * direction`; the direction need not have unit length. */
  datatype Ray = Ray(origin: Vec3, direction: Vec3)

  /** `direction.mul_add(t, origin)`, i.e. `direction * t + origin`. */
  function PointAt(ray: Ray, t: real): Vec3 { Add(Scale(ray.direction, t), ray.origin) }

  /**
   * The vector library's own operations: `sqrt` on scalars, `v.normalized()`,
   * `v.reflected(normal)` and `v.refracted(normal, eta)`.
   */
  datatype Library = Library(
    sqrt: real -> real,
    normalized: Vec3 -> Vec3,
    reflected: (Vec3, Vec3) -> Vec3,
    refracted: (Vec3, Vec3, real) -> Vec3)

  /** What the model relies on about the square root: it is the non-negative root. */
  ghost predicate SqrtLaw(sqrt: real -> real)
  {
    forall x :: 0.0 <= x ==> 0.0 <= sqrt(x) && sqrt(x) * sqrt(x) == x
  }
}
