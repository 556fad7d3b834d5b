/**
 * The reflectance helpers of src/math.rs: clamping to [0, 1], Schlick's Fresnel
 * approximation for a scalar and for a colour, and the normal-incidence reflectance
 * of a dielectric with a given index of refraction.
 */
module Math {
  import opened Vectors
  import opened Colors

  /** `v.min(1.0).max(0.0)`: `v` clamped to the unit interval. */
  function Saturate(v: real): (r: real)
    ensures 0.0 <= r <= 1.0
    ensures 0.0 <= v <= 1.0 ==> r == v
    ensures v < 0.0 ==> r == 0.0
    ensures v > 1.0 ==> r == 1.0
  {
    var m := if v < 1.0 then v else 1.0;
    if m > 0.0 then m else 0.0
  }

  lemma SaturateIdempotent(v: real)
    ensures Saturate(Saturate(v)) == Saturate(v)
  {
  }

  /** `x.powi(5)`. */
  function Pow5(x: real): real { x * x * x * x * x }

  /** `f_schlick(cos, f0) = f0 + (1 - f0) * (1 - cos)^5`. */
  function FSchlick(cos: real, f0: real): (r: real)
    ensures cos == 1.0 ==> r == f0
    ensures cos == 0.0 ==> r == 1.0
  {
    f0 + (1.0 - f0) * Pow5(1.0 - cos)
  }

  lemma Pow5InUnit(x: real)
    requires 0.0 <= x <= 1.0
    ensures 0.0 <= Pow5(x) <= 1.0
  {
    var x2 := x * x;
    ScaledFraction(x, x);
    var x4 := x2 * x2;
    ScaledFraction(x2, x2);
    assert Pow5(x) == x4 * x;
    ScaledFraction(x4, x);
  }

  /**
   * For a cosine and a base reflectance in the unit interval, the Fresnel term
   * lies between the base reflectance and 1.
   */
  lemma SchlickBounds(cos: real, f0: real)
    requires 0.0 <= cos <= 1.0
    requires 0.0 <= f0 <= 1.0
    ensures f0 <= FSchlick(cos, f0) <= 1.0
  {
    var p := Pow5(1.0 - cos);
    Pow5InUnit(1.0 - cos);
    ScaledFraction(1.0 - f0, p);
  }

  lemma ScaledFraction(k: real, p: real)
    requires k >= 0.0 && 0.0 <= p <= 1.0
    ensures 0.0 <= k * p <= k
  {
    assert k - k * p == k * (1.0 - p);
  }

  /** `f_schlick_c`: the Fresnel term applied to each channel of the base colour. */
  function FSchlickC(cos: real, f0: Color): (r: Color)
    ensures r.v.x == FSchlick(cos, f0.v.x)
    ensures r.v.y == FSchlick(cos, f0.v.y)
    ensures r.v.z == FSchlick(cos, f0.v.z)
  {
    var f := f0.v;
    Color(Vectors.Add(f, Scale(Sub(Broadcast(1.0), f), Pow5(1.0 - cos))))
  }

  /** `f0_from_ior(ior) = ((1 - ior) / (1 + ior))^2`. */
  function F0FromIor(ior: real): (r: real)
    requires ior != -1.0
    ensures r >= 0.0
    ensures ior == 1.0 ==> r == 0.0
    ensures ior > 0.0 ==> r < 1.0
  {
    var f0 := (1.0 - ior) / (1.0 + ior);
    SquareNonNegative(f0);
    if ior > 0.0 then IorRatioBelowOne(ior, f0); f0 * f0 else f0 * f0
  }

  lemma IorRatioBelowOne(ior: real, q: real)
    requires ior > 0.0
    requires q == (1.0 - ior) / (1.0 + ior)
    ensures q * q < 1.0
  {
    var d := 1.0 + ior;
    assert q * d == 1.0 - ior;
    assert (q - 1.0) * d == -2.0 * ior;
    assert (q + 1.0) * d == 2.0;
    assert -1.0 < q < 1.0;
    if q >= 0.0 {
      ScaledFraction(q, q);
    } else {
      var m := -q;
      ScaledFraction(m, m);
      assert m * m == q * q;
    }
  }
}
