/**
 * `Sphere::hit` of src/sphere.rs: the half-angle quadratic for a ray against a
 * sphere, its near and far roots tried in that order against a half-open range,
 * and the hit point and outward normal built from the chosen root.
 */
module Spheres {
  import opened Optional
  import opened Vectors
  import opened Hitables

  /** Radii are positive, as every sphere the scene builds has. */
  type Radius = r: real | r > 0.0 witness 1.0

  datatype Sphere = Sphere(center: Vec3, radius: Radius)

  /*
   * With `oc = origin - center`, a point of the ray lies on the sphere when
   * a t^2 + 2 b t + c = 0, where a, b and c are the three coefficients below.
   */

  function QuadA(ray: Ray): real { Dot(ray.direction, ray.direction) }

  function QuadB(s: Sphere, ray: Ray): real { Dot(Sub(ray.origin, s.center), ray.direction) }

  function QuadC(s: Sphere, ray: Ray): real
  {
    var oc := Sub(ray.origin, s.center);
    Dot(oc, oc) - s.radius * s.radius
  }

  /** `b * b - a * c`, a quarter of the usual discriminant. */
  function Discriminant(s: Sphere, ray: Ray): real
  {
    QuadB(s, ray) * QuadB(s, ray) - QuadA(ray) * QuadC(s, ray)
  }

  /** `(-b - sqrt(disc)) / a`. */
  function NearRoot(s: Sphere, ray: Ray, sqrt: real -> real): real
    requires QuadA(ray) != 0.0
  {
    (-QuadB(s, ray) - sqrt(Discriminant(s, ray))) / QuadA(ray)
  }

  /** `(-b + sqrt(disc)) / a`. */
  function FarRoot(s: Sphere, ray: Ray, sqrt: real -> real): real
    requires QuadA(ray) != 0.0
  {
    (-QuadB(s, ray) + sqrt(Discriminant(s, ray))) / QuadA(ray)
  }

  /** The record for parameter `t`: the point `ray.point_at(t)` and `(p - center) / radius`. */
  function RecordAt(s: Sphere, ray: Ray, t: real): HitRecord
  {
    var p := PointAt(ray, t);
    HitRecord(t, p, DivScalar(Sub(p, s.center), s.radius))
  }

  /**
   * `Sphere::hit`. A zero direction gives `a = 0`, hence `b = 0` and a zero
   * discriminant; both roots are then `0 / 0`, which no range contains, so there
   * is no hit.
   */
  function Hit(s: Sphere, ray: Ray, range: Range, sqrt: real -> real): (r: Option<HitRecord>)
    ensures Discriminant(s, ray) < 0.0 ==> r.None?
    ensures r.Some? ==> range.Contains(r.value.t) && r.value == RecordAt(s, ray, r.value.t)
    ensures QuadA(ray) != 0.0 && Discriminant(s, ray) >= 0.0 &&
            range.Contains(NearRoot(s, ray, sqrt)) ==>
              r == Some(RecordAt(s, ray, NearRoot(s, ray, sqrt)))
    ensures QuadA(ray) != 0.0 && Discriminant(s, ray) >= 0.0 &&
            !range.Contains(NearRoot(s, ray, sqrt)) && range.Contains(FarRoot(s, ray, sqrt)) ==>
              r == Some(RecordAt(s, ray, FarRoot(s, ray, sqrt)))
    ensures r.Some? ==>
              QuadA(ray) != 0.0 &&
              (r.value.t == NearRoot(s, ray, sqrt) ||
               (r.value.t == FarRoot(s, ray, sqrt) && !range.Contains(NearRoot(s, ray, sqrt))))
  {
    if Discriminant(s, ray) < 0.0 then None
    else if QuadA(ray) == 0.0 then None
    else if range.Contains(NearRoot(s, ray, sqrt)) then Some(RecordAt(s, ray, NearRoot(s, ray, sqrt)))
    else if range.Contains(FarRoot(s, ray, sqrt)) then Some(RecordAt(s, ray, FarRoot(s, ray, sqrt)))
    else None
  }

  /** `p` lies on the surface of `s`. */
  predicate OnSphere(s: Sphere, p: Vec3)
  {
    Dot(Sub(p, s.center), Sub(p, s.center)) == s.radius * s.radius
  }

  /** The quadratic of the sphere evaluated at `t`. */
  function Quadratic(s: Sphere, ray: Ray, t: real): real
  {
    QuadA(ray) * t * t + 2.0 * QuadB(s, ray) * t + QuadC(s, ray)
  }

  lemma ComponentExpansion(oc: real, d: real, t: real, w: real)
    requires w == oc + d * t
    ensures w * w == oc * oc + 2.0 * t * (oc * d) + t * t * (d * d)
  {
  }

  lemma Distribute3(k: real, x: real, y: real, z: real)
    ensures k * (x + y + z) == k * x + k * y + k * z
  {
  }

  /** The squared length of `oc + t * d`, expanded in powers of `t`. */
  lemma ShiftedDot(oc: Vec3, d: Vec3, t: real, w: Vec3)
    requires w == Vec3(oc.x + d.x * t, oc.y + d.y * t, oc.z + d.z * t)
    ensures Dot(w, w) == Dot(oc, oc) + 2.0 * t * Dot(oc, d) + t * t * Dot(d, d)
  {
    ComponentExpansion(oc.x, d.x, t, w.x);
    ComponentExpansion(oc.y, d.y, t, w.y);
    ComponentExpansion(oc.z, d.z, t, w.z);
    Distribute3(2.0 * t, oc.x * d.x, oc.y * d.y, oc.z * d.z);
    Distribute3(t * t, d.x * d.x, d.y * d.y, d.z * d.z);
  }

  /** A ray point lies on the sphere exactly when its parameter is a root of the quadratic. */
  lemma PointOnSphereIffRoot(s: Sphere, ray: Ray, t: real)
    ensures OnSphere(s, PointAt(ray, t)) <==> Quadratic(s, ray, t) == 0.0
  {
    var d := ray.direction;
    var oc := Sub(ray.origin, s.center);
    var w := Sub(PointAt(ray, t), s.center);
    assert w == Vec3(oc.x + d.x * t, oc.y + d.y * t, oc.z + d.z * t);
    ShiftedDot(oc, d, t, w);
    QuadraticForm(Dot(d, d), Dot(oc, d), Dot(oc, oc), s.radius * s.radius, t, Quadratic(s, ray, t));
  }

  lemma QuadraticForm(a: real, b: real, c0: real, rr: real, t: real, q: real)
    requires q == a * t * t + 2.0 * b * t + (c0 - rr)
    ensures c0 + 2.0 * t * b + t * t * a == rr <==> q == 0.0
  {
  }

  lemma DivideOut(a: real, t: real, y: real)
    requires a != 0.0 && a * t == y
    ensures t == y / a
  {
  }

  lemma SquaresEqual(x: real, sq: real)
    requires sq >= 0.0 && sq * sq == x * x
    ensures x == sq || x == -sq
  {
    assert (x - sq) * (x + sq) == 0.0;
  }

  /** At a root `t`, the discriminant is the square of `a t + b`. */
  lemma DiscriminantAtRoot(a: real, b: real, c: real, t: real)
    requires a * t * t + 2.0 * b * t + c == 0.0
    ensures b * b - a * c == (a * t + b) * (a * t + b)
  {
    assert (a * t + b) * (a * t + b) == a * (a * t * t + 2.0 * b * t) + b * b;
  }

  /** `t` solves the quadratic when `a t + b` is a square root of the discriminant. */
  lemma SolvesQuadratic(a: real, b: real, c: real, sq: real, t: real)
    requires a != 0.0 && sq * sq == b * b - a * c
    requires a * t + b == sq || a * t + b == -sq
    ensures a * t * t + 2.0 * b * t + c == 0.0
  {
    var u := a * t;
    assert a * (a * t * t + 2.0 * b * t + c) == (u + b) * (u + b) - (b * b - a * c);
    NonZeroFactor(a, a * t * t + 2.0 * b * t + c);
  }

  lemma NonZeroFactor(a: real, q: real)
    requires a != 0.0 && a * q == 0.0
    ensures q == 0.0
  {
    assert q == (a * q) / a;
  }

  /**
   * With a square root that obeys its law, the near and far roots are exactly the
   * parameters at which the ray meets the sphere.
   */
  lemma RootsAreNearAndFar(s: Sphere, ray: Ray, sqrt: real -> real, t: real)
    requires SqrtLaw(sqrt) && QuadA(ray) != 0.0
    ensures Quadratic(s, ray, t) == 0.0 ==>
              Discriminant(s, ray) >= 0.0 &&
              (t == NearRoot(s, ray, sqrt) || t == FarRoot(s, ray, sqrt))
    ensures Discriminant(s, ray) >= 0.0 ==>
              Quadratic(s, ray, NearRoot(s, ray, sqrt)) == 0.0 &&
              Quadratic(s, ray, FarRoot(s, ray, sqrt)) == 0.0
  {
    var a, b, c := QuadA(ray), QuadB(s, ray), QuadC(s, ray);
    var disc := Discriminant(s, ray);
    var sq := sqrt(disc);
    if Quadratic(s, ray, t) == 0.0 {
      DiscriminantAtRoot(a, b, c, t);
      SquareNonNegative(a * t + b);
      SquaresEqual(a * t + b, sq);
      if a * t + b == -sq {
        DivideOut(a, t, -b - sq);
      } else {
        DivideOut(a, t, -b + sq);
      }
    }
    if disc >= 0.0 {
      var near, far := NearRoot(s, ray, sqrt), FarRoot(s, ray, sqrt);
      assert a * near == -b - sq;
      assert a * far == -b + sq;
      SolvesQuadratic(a, b, c, sq, near);
      SolvesQuadratic(a, b, c, sq, far);
    }
  }

  /** The near root never comes after the far root. */
  lemma NearNotAfterFar(s: Sphere, ray: Ray, sqrt: real -> real)
    requires QuadA(ray) != 0.0 && sqrt(Discriminant(s, ray)) >= 0.0
    ensures NearRoot(s, ray, sqrt) <= FarRoot(s, ray, sqrt)
  {
    DotSelfNonNegative(ray.direction);
    var a, b, sq := QuadA(ray), QuadB(s, ray), sqrt(Discriminant(s, ray));
    DivideMonotone(-b - sq, -b + sq, a);
  }

  lemma DivideMonotone(x: real, y: real, a: real)
    requires a > 0.0 && x <= y
    ensures x / a <= y / a
  {
    assert y / a - x / a == (y - x) / a;
  }

  /** Dividing a vector of length `r` by `r` gives a unit vector. */
  lemma ScaledToUnit(v: Vec3, r: real)
    requires r > 0.0 && Dot(v, v) == r * r
    ensures Dot(DivScalar(v, r), DivScalar(v, r)) == 1.0
  {
    var n := DivScalar(v, r);
    ScaledSquare(v.x, r);
    ScaledSquare(v.y, r);
    ScaledSquare(v.z, r);
    assert n == Vec3(v.x / r, v.y / r, v.z / r);
    ScaledSquareSum(r, n.x, n.y, n.z);
    assert (r * r) * Dot(n, n) == Dot(v, v);
    assert r * (r * (Dot(n, n) - 1.0)) == 0.0;
    NonZeroFactor(r, r * (Dot(n, n) - 1.0));
    NonZeroFactor(r, Dot(n, n) - 1.0);
  }

  /** The square of `x` is the square of `x / r` scaled by the square of `r`. */
  lemma ScaledSquare(x: real, r: real)
    requires r > 0.0
    ensures x * x == (r * r) * ((x / r) * (x / r))
  {
    var q := x / r;
    assert q * r == x;
  }

  lemma ScaledSquareSum(r: real, a: real, b: real, c: real)
    ensures (r * r) * (a * a + b * b + c * c) ==
            (r * r) * (a * a) + (r * r) * (b * b) + (r * r) * (c * c)
  {
  }

  /**
   * A reported hit lies on the sphere, and its normal `(p - center) / radius`
   * has unit length.
   */
  lemma HitOnSurface(s: Sphere, ray: Ray, range: Range, sqrt: real -> real)
    requires SqrtLaw(sqrt)
    ensures Hit(s, ray, range, sqrt).Some? ==>
              OnSphere(s, Hit(s, ray, range, sqrt).value.p) &&
              Dot(Hit(s, ray, range, sqrt).value.n, Hit(s, ray, range, sqrt).value.n) == 1.0
  {
    var r := Hit(s, ray, range, sqrt);
    if r.Some? {
      RootsAreNearAndFar(s, ray, sqrt, r.value.t);
      PointOnSphereIffRoot(s, ray, r.value.t);
      ScaledToUnit(Sub(r.value.p, s.center), s.radius);
    }
  }

  /**
   * The sphere reports the smallest parameter in the range at which the ray meets
   * it; that whatever it reports is such a parameter is `HitOnSurface`.
   */
  lemma HitIsSmallestRoot(s: Sphere, ray: Ray, range: Range, sqrt: real -> real)
    requires SqrtLaw(sqrt) && Dot(ray.direction, ray.direction) != 0.0
    ensures forall t :: range.Contains(t) && OnSphere(s, PointAt(ray, t)) ==>
              Hit(s, ray, range, sqrt).Some? && Hit(s, ray, range, sqrt).value.t <= t
  {
    forall t | range.Contains(t) && OnSphere(s, PointAt(ray, t))
      ensures Hit(s, ray, range, sqrt).Some? && Hit(s, ray, range, sqrt).value.t <= t
    {
      PointOnSphereIffRoot(s, ray, t);
      RootsAreNearAndFar(s, ray, sqrt, t);
      NearNotAfterFar(s, ray, sqrt);
    }
  }

  /**
   * Lowering the end of the range only loses the hit when it lies at or beyond
   * the new end: the near root is never after the far one.
   */
  lemma HitNarrowable(s: Sphere, ray: Ray, start: real, end1: real, end2: real, sqrt: real -> real)
    requires SqrtLaw(sqrt) && end1 <= end2
    ensures Hit(s, ray, Range(start, end1), sqrt) == Cut(Hit(s, ray, Range(start, end2), sqrt), end1)
  {
    if Discriminant(s, ray) >= 0.0 && QuadA(ray) != 0.0 {
      NearNotAfterFar(s, ray, sqrt);
    }
  }

  /** `Sphere` as a `Hitable`, for a given square root. */
  function SphereHit(sqrt: real -> real): HitFn<Sphere>
  {
    (s: Sphere, ray: Ray, range: Range) => Hit(s, ray, range, sqrt)
  }

  /** Spheres meet both hypotheses under which the list query finds the nearest hit. */
  lemma SphereHitLaws(sqrt: real -> real)
    requires SqrtLaw(sqrt)
    ensures WithinRange(SphereHit(sqrt)) && Narrowable(SphereHit(sqrt))
  {
    forall s: Sphere, ray: Ray, start: real, end1: real, end2: real | end1 <= end2
      ensures SphereHit(sqrt)(s, ray, Range(start, end1)) ==
              Cut(SphereHit(sqrt)(s, ray, Range(start, end2)), end1)
    {
      HitNarrowable(s, ray, start, end1, end2, sqrt);
    }
  }

  /**
   * The ray from the origin straight down the negative z axis meets the sphere of
   * radius 0.5 centred at (0, 0, -1) at t = 0.5, at its front pole, with normal
   * pointing back at the viewer.
   */
  lemma HitFrontPole(sqrt: real -> real)
    requires SqrtLaw(sqrt)
    ensures Hit(Sphere(Vec3(0.0, 0.0, -1.0), 0.5), Ray(Zero(), Vec3(0.0, 0.0, -1.0)), Range(0.0, 100.0), sqrt)
            == Some(HitRecord(0.5, Vec3(0.0, 0.0, -0.5), Vec3(0.0, 0.0, 1.0)))
  {
    SquaresEqual(0.5, sqrt(0.25));
    FrontPole(sqrt);
  }

  lemma FrontPole(sqrt: real -> real)
    requires sqrt(0.25) == 0.5
    ensures Hit(Sphere(Vec3(0.0, 0.0, -1.0), 0.5), Ray(Zero(), Vec3(0.0, 0.0, -1.0)), Range(0.0, 100.0), sqrt)
            == Some(HitRecord(0.5, Vec3(0.0, 0.0, -0.5), Vec3(0.0, 0.0, 1.0)))
  {
    var s := Sphere(Vec3(0.0, 0.0, -1.0), 0.5);
    var ray := Ray(Zero(), Vec3(0.0, 0.0, -1.0));
    FrontPoleCoefficients(s, ray);
    FrontPoleRecord(s, ray, 0.5);
  }

  lemma FrontPoleCoefficients(s: Sphere, ray: Ray)
    requires s == Sphere(Vec3(0.0, 0.0, -1.0), 0.5) && ray == Ray(Zero(), Vec3(0.0, 0.0, -1.0))
    ensures QuadA(ray) == 1.0 && QuadB(s, ray) == -1.0 && Discriminant(s, ray) == 0.25
  {
    assert Sub(ray.origin, s.center) == Vec3(0.0, 0.0, 1.0);
  }

  lemma FrontPoleRecord(s: Sphere, ray: Ray, t: real)
    requires s == Sphere(Vec3(0.0, 0.0, -1.0), 0.5) && ray == Ray(Zero(), Vec3(0.0, 0.0, -1.0)) && t == 0.5
    ensures RecordAt(s, ray, t) == HitRecord(0.5, Vec3(0.0, 0.0, -0.5), Vec3(0.0, 0.0, 1.0))
  {
    FrontPolePoint(ray, t);
    FrontPoleNormal(s, PointAt(ray, t));
  }

  lemma FrontPolePoint(ray: Ray, t: real)
    requires ray == Ray(Zero(), Vec3(0.0, 0.0, -1.0)) && t == 0.5
    ensures PointAt(ray, t) == Vec3(0.0, 0.0, -0.5)
  {
  }

  lemma FrontPoleNormal(s: Sphere, p: Vec3)
    requires s == Sphere(Vec3(0.0, 0.0, -1.0), 0.5) && p == Vec3(0.0, 0.0, -0.5)
    ensures DivScalar(Sub(p, s.center), s.radius) == Vec3(0.0, 0.0, 1.0)
  {
    assert Sub(p, s.center) == Vec3(0.0, 0.0, 0.5);
  }
}
