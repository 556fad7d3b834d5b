/**
 * The materials of src/material.rs. Each `scatter` takes the incoming ray and the
 * hit record and returns an attenuation colour and a bounce direction. The random
 * numbers it draws are parameters here: `draw` stands for `rng.random::<f32>()`,
 * which lies in [0, 1), and `rand` for the random vector `Vec3::rand(rng)`. The
 * vector library's `normalized`, `reflected` and `refracted` come from `lib`.
 */
module Materials {
  import opened Optional
  import opened Vectors
  import opened Colors
  import opened Math
  import opened Hitables

  /** The result of `scatter`: attenuation and bounce direction, or `None` for absorption. */
  type Scattered = Option<(Color, Vec3)>

  /** Indices of refraction are positive. */
  type Ior = r: real | r > 0.0 witness 1.0

  /**
   * `saturate(hit.normal.normalized().dot(ray.direction.normalized() * -1.0))`:
   * the clamped cosine between the normal and the direction back to the viewer.
   */
  function ViewCos(ray: Ray, hit: HitRecord, lib: Library): (c: real)
    ensures 0.0 <= c <= 1.0
  {
    Saturate(Dot(lib.normalized(hit.n), Scale(lib.normalized(ray.direction), -1.0)))
  }

  /** `ray.direction.reflected(normal) + rand * roughness`: a mirror bounce blurred by `roughness`. */
  function Glossy(ray: Ray, normal: Vec3, rand: Vec3, roughness: real, lib: Library): Vec3
  {
    Add(lib.reflected(ray.direction, normal), Scale(rand, roughness))
  }

  lemma DotNegated(u: Vec3, v: Vec3)
    ensures Dot(u, Scale(v, -1.0)) == -Dot(u, v)
    ensures Dot(Scale(v, -1.0), u) == -Dot(v, u)
  {
  }

  /** A glossy bounce without roughness is the exact mirror direction. */
  lemma GlossyWithoutRoughness(ray: Ray, normal: Vec3, rand: Vec3, lib: Library)
    ensures Glossy(ray, normal, rand, 0.0, lib) == lib.reflected(ray.direction, normal)
  {
  }

  /** `Diffuse { albedo, roughness }`; `Diffuse::new` is this constructor. */
  datatype Diffuse = Diffuse(albedo: Color, roughness: real) {

    /** `f_schlick(cos, 0.04)`: the weight of the specular lobe. */
    function Fresnel(ray: Ray, hit: HitRecord, lib: Library): (f: real)
      ensures 0.04 <= f <= 1.0
      ensures ViewCos(ray, hit, lib) == 1.0 ==> f == 0.04
      ensures ViewCos(ray, hit, lib) == 0.0 ==> f == 1.0
    {
      SchlickBounds(ViewCos(ray, hit, lib), 0.04);
      FSchlick(ViewCos(ray, hit, lib), 0.04)
    }

    /**
     * `Diffuse::scatter`: attenuation is always the albedo; the bounce is
     * `normal + rand` when the draw exceeds the Fresnel weight, and a glossy
     * reflection otherwise.
     */
    function Scatter(ray: Ray, hit: HitRecord, draw: real, rand: Vec3, lib: Library): (r: Scattered)
      ensures r.Some? && r.value.0 == albedo
      ensures draw > Fresnel(ray, hit, lib) ==> r.value.1 == Add(hit.n, rand)
      ensures draw <= Fresnel(ray, hit, lib) ==> r.value.1 == Glossy(ray, hit.n, rand, roughness, lib)
    {
      var norm := hit.n;
      var fresnel := Fresnel(ray, hit, lib);
      var bounce := if draw > fresnel then Add(norm, rand) else Glossy(ray, norm, rand, roughness, lib);
      Some((albedo, bounce))
    }
  }

  /**
   * Every draw up to 0.04 takes the glossy branch, whatever the angle: the
   * specular lobe is never chosen less often than the base reflectance says.
   */
  lemma DiffuseLowDrawIsGlossy(m: Diffuse, ray: Ray, hit: HitRecord, draw: real, rand: Vec3, lib: Library)
    requires draw <= 0.04
    ensures m.Scatter(ray, hit, draw, rand, lib).value.1 == Glossy(ray, hit.n, rand, m.roughness, lib)
  {
  }

  /** At grazing incidence every draw in [0, 1) takes the glossy branch. */
  lemma DiffuseGrazingIsGlossy(m: Diffuse, ray: Ray, hit: HitRecord, draw: real, rand: Vec3, lib: Library)
    requires draw < 1.0 && ViewCos(ray, hit, lib) == 0.0
    ensures m.Scatter(ray, hit, draw, rand, lib).value.1 == Glossy(ray, hit.n, rand, m.roughness, lib)
  {
  }

  /** Head on, exactly the draws above 0.04 take the bounce `normal + rand`. */
  lemma DiffuseHeadOn(m: Diffuse, ray: Ray, hit: HitRecord, draw: real, rand: Vec3, lib: Library)
    requires ViewCos(ray, hit, lib) == 1.0 && draw > 0.04
    ensures m.Scatter(ray, hit, draw, rand, lib).value.1 == Add(hit.n, rand)
  {
  }

  /** `Metal { f0, roughness }`; `Metal::new` is this constructor. */
  datatype Metal = Metal(f0: Color, roughness: real) {

    /**
     * `Metal::scatter`: the bounce is a glossy reflection and the attenuation is
     * the Fresnel term of each channel of `f0` at the viewing angle.
     */
    function Scatter(ray: Ray, hit: HitRecord, draw: real, rand: Vec3, lib: Library): (r: Scattered)
      ensures r.Some?
      ensures r.value.1 == Glossy(ray, hit.n, rand, roughness, lib)
      ensures r.value.0 == FSchlickC(ViewCos(ray, hit, lib), f0)
    {
      var bounce := Glossy(ray, hit.n, rand, roughness, lib);
      var cos := ViewCos(ray, hit, lib);
      var attenuation := FSchlickC(cos, f0);
      Some((attenuation, bounce))
    }
  }

  /**
   * A metal whose base colour lies in the unit cube attenuates each channel by
   * at least its base value and at most 1; head on it attenuates by exactly `f0`
   * and at grazing incidence not at all.
   */
  lemma MetalAttenuation(m: Metal, ray: Ray, hit: HitRecord, draw: real, rand: Vec3, lib: Library)
    requires InUnitCube(m.f0)
    ensures var a := m.Scatter(ray, hit, draw, rand, lib).value.0;
      m.f0.v.x <= a.v.x <= 1.0 && m.f0.v.y <= a.v.y <= 1.0 && m.f0.v.z <= a.v.z <= 1.0
    ensures ViewCos(ray, hit, lib) == 1.0 ==> m.Scatter(ray, hit, draw, rand, lib).value.0 == m.f0
    ensures ViewCos(ray, hit, lib) == 0.0 ==> m.Scatter(ray, hit, draw, rand, lib).value.0 == Color.New(1.0, 1.0, 1.0)
  {
    var cos := ViewCos(ray, hit, lib);
    SchlickBounds(cos, m.f0.v.x);
    SchlickBounds(cos, m.f0.v.y);
    SchlickBounds(cos, m.f0.v.z);
  }

  /** A metal without roughness bounces in the exact mirror direction, whatever `rand` is. */
  lemma SmoothMetalMirrors(m: Metal, ray: Ray, hit: HitRecord, draw: real, rand: Vec3, lib: Library)
    requires m.roughness == 0.0
    ensures m.Scatter(ray, hit, draw, rand, lib).value.1 == lib.reflected(ray.direction, hit.n)
  {
    GlossyWithoutRoughness(ray, hit.n, rand, lib);
  }

  /**
   * The normal, relative index and cosine `Refractive::scatter` uses for
   * refraction, after orienting the normal against the incoming ray.
   */
  datatype Orientation = Orientation(normal: Vec3, eta: real, cos: real)

  /** `Refractive { f0, roughness, refraction_index }`; `Refractive::new` is this constructor. */
  datatype Refractive = Refractive(f0: Color, roughness: real, refractionIndex: Ior) {

    /**
     * A ray leaving the surface (direction along the normal) refracts about the
     * flipped normal with `eta = ior`; a ray entering it refracts about the
     * normal with `eta = 1 / ior`. Either way the chosen normal faces the ray and
     * the cosine is that between it and the reversed, normalised direction.
     */
    function Orient(ray: Ray, hit: HitRecord, lib: Library): (o: Orientation)
      ensures Dot(ray.direction, hit.n) > 0.0 ==>
                o.normal == Scale(hit.n, -1.0) && o.eta == refractionIndex
      ensures Dot(ray.direction, hit.n) <= 0.0 ==>
                o.normal == hit.n && o.eta * refractionIndex == 1.0
      ensures Dot(ray.direction, o.normal) <= 0.0
      ensures o.cos == -Dot(o.normal, lib.normalized(ray.direction))
      ensures o.eta > 0.0
    {
      var cosTheta := Dot(hit.n, lib.normalized(ray.direction));
      DotNegated(ray.direction, hit.n);
      DotNegated(lib.normalized(ray.direction), hit.n);
      if Dot(ray.direction, hit.n) > 0.0 then
        Orientation(Scale(hit.n, -1.0), refractionIndex, cosTheta)
      else
        Orientation(hit.n, 1.0 / refractionIndex, -cosTheta)
    }

    /** `f_schlick(saturate(cos), f0_from_ior(refraction_index))`: the chance of reflecting. */
    function Fresnel(ray: Ray, hit: HitRecord, lib: Library): (f: real)
      ensures F0FromIor(refractionIndex) <= f <= 1.0
      ensures Saturate(Orient(ray, hit, lib).cos) == 0.0 ==> f == 1.0
      ensures Saturate(Orient(ray, hit, lib).cos) == 1.0 ==> f == F0FromIor(refractionIndex)
    {
      var cos := Saturate(Orient(ray, hit, lib).cos);
      var f0 := F0FromIor(refractionIndex);
      SchlickBounds(cos, f0);
      FSchlick(cos, f0)
    }

    /**
     * `Refractive::scatter`: attenuation is always `f0`; when the Fresnel term
     * exceeds the draw the ray reflects about the unflipped normal, otherwise it
     * refracts about the oriented normal with the oriented `eta`. Both bounces
     * carry the same fuzz `rand * roughness`.
     */
    function Scatter(ray: Ray, hit: HitRecord, draw: real, rand: Vec3, lib: Library): (r: Scattered)
      ensures r.Some? && r.value.0 == f0
      ensures Fresnel(ray, hit, lib) > draw ==> r.value.1 == Glossy(ray, hit.n, rand, roughness, lib)
      ensures Fresnel(ray, hit, lib) <= draw ==>
                r.value.1 == Add(lib.refracted(ray.direction, Orient(ray, hit, lib).normal, Orient(ray, hit, lib).eta),
                                 Scale(rand, roughness))
    {
      var fuzz := Scale(rand, roughness);
      var o := Orient(ray, hit, lib);
      var fresnel := Fresnel(ray, hit, lib);
      var bounce := if fresnel > draw then Add(lib.reflected(ray.direction, hit.n), fuzz)
                    else Add(lib.refracted(ray.direction, o.normal, o.eta), fuzz);
      Some((f0, bounce))
    }
  }

  /**
   * Every draw below the base reflectance of the index reflects, and at grazing
   * incidence every draw in [0, 1) does.
   */
  lemma RefractiveReflects(m: Refractive, ray: Ray, hit: HitRecord, draw: real, rand: Vec3, lib: Library)
    requires draw < F0FromIor(m.refractionIndex) ||
             (draw < 1.0 && Saturate(m.Orient(ray, hit, lib).cos) == 0.0)
    ensures m.Scatter(ray, hit, draw, rand, lib).value.1 == Glossy(ray, hit.n, rand, m.roughness, lib)
  {
  }

  /**
   * With index 1 there is no reflectance head on: every draw in [0, 1) refracts,
   * with relative index 1 whichever side the ray comes from.
   */
  lemma MatchedIndexTransmitsHeadOn(m: Refractive, ray: Ray, hit: HitRecord, draw: real, rand: Vec3, lib: Library)
    requires m.refractionIndex == 1.0 && 0.0 <= draw
    requires Saturate(m.Orient(ray, hit, lib).cos) == 1.0
    ensures m.Orient(ray, hit, lib).eta == 1.0
    ensures m.Scatter(ray, hit, draw, rand, lib).value.1 ==
              Add(lib.refracted(ray.direction, m.Orient(ray, hit, lib).normal, 1.0), Scale(rand, m.roughness))
  {
  }

  /** `enum Material`: one of the three materials. */
  datatype Material = MetalMat(metal: Metal) | DiffuseMat(diffuse: Diffuse) | RefractiveMat(refractive: Refractive) {

    /** `impl From<Diffuse> for Material`. */
    static function FromDiffuse(m: Diffuse): Material { DiffuseMat(m) }

    /** `impl From<Metal> for Material`. */
    static function FromMetal(m: Metal): Material { MetalMat(m) }

    /** `impl From<Refractive> for Material`. */
    static function FromRefractive(m: Refractive): Material { RefractiveMat(m) }

    /**
     * `Material::scatter`: no material absorbs, and the attenuation is the
     * albedo, the Fresnel colour of `f0`, or `f0` itself, by variant.
     */
    function Scatter(ray: Ray, hit: HitRecord, draw: real, rand: Vec3, lib: Library): (r: Scattered)
      ensures r.Some?
      ensures DiffuseMat? ==> r.value.0 == diffuse.albedo
      ensures MetalMat? ==> r.value.0 == FSchlickC(ViewCos(ray, hit, lib), metal.f0)
      ensures RefractiveMat? ==> r.value.0 == refractive.f0
    {
      match this
      case DiffuseMat(m) => m.Scatter(ray, hit, draw, rand, lib)
      case MetalMat(m) => m.Scatter(ray, hit, draw, rand, lib)
      case RefractiveMat(m) => m.Scatter(ray, hit, draw, rand, lib)
    }
  }

  /**
   * Wrapping a material with `From` and scattering through the enum gives what
   * the wrapped material gives, and `From` picks the matching variant.
   */
  lemma FromThenScatterDelegates(d: Diffuse, m: Metal, g: Refractive, ray: Ray, hit: HitRecord,
                                 draw: real, rand: Vec3, lib: Library)
    ensures Material.FromDiffuse(d).DiffuseMat? && Material.FromDiffuse(d).diffuse == d
    ensures Material.FromMetal(m).MetalMat? && Material.FromMetal(m).metal == m
    ensures Material.FromRefractive(g).RefractiveMat? && Material.FromRefractive(g).refractive == g
    ensures Material.FromDiffuse(d).Scatter(ray, hit, draw, rand, lib) == d.Scatter(ray, hit, draw, rand, lib)
    ensures Material.FromMetal(m).Scatter(ray, hit, draw, rand, lib) == m.Scatter(ray, hit, draw, rand, lib)
    ensures Material.FromRefractive(g).Scatter(ray, hit, draw, rand, lib) == g.Scatter(ray, hit, draw, rand, lib)
  {
  }
}
