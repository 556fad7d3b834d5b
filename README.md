# A Dafny model of the weekend ray tracer

This project models the core of a small Rust ray tracer (`weekend-raytracer`) in
Dafny and proves properties of the model.

The renderer shoots `SAMPLES` jittered rays through every pixel of a 1920 × 1080
image. It intersects each ray with a list of spheres and keeps the nearest hit
in the range `0.0..100.0`. A hit is shaded by its normal, and a miss shows a
sky gradient. The samples are averaged, and the image is written with its rows
flipped. Beside the renderer there are three materials (diffuse, metal,
refractive). Each material decides how a ray scatters, using Schlick's Fresnel
approximation.

Modelling choices:

- `f32` is modelled as exact `real`. There is no rounding, NaN, infinity or overflow.
- The vector library's `sqrt`, `normalized`, `reflected` and `refracted` are not
  part of this model. They are the fields of a `Library` value passed to the
  operations that use them. Lemmas that need the square root to be a square
  root assume `SqrtLaw`: `sqrt(x) >= 0` and `sqrt(x)^2 == x` for `x >= 0`.
- Random numbers are parameters. `draw` stands for `rng.random::<f32>()`, and
  lemmas take it in [0, 1). `rand` stands for `Vec3::rand(rng)`. The jitter
  offsets of sample `s` of pixel `i` are `draw(i, s)`.
- `HitableList` holds `Box<dyn Hitable>`. The model makes it generic in the
  element type `T`. The dispatch of `Hitable::hit` is a function
  `hit: HitFn<T>` supplied by the caller, and the scene uses spheres.
- `HitableList::hit` is a loop, so it is a method. The function `Closest` is the
  same fold, and it states what the loop computes. The lemmas about `Closest`
  show that the result is the first nearest hit. They need two facts about
  each element: it reports only hits inside the range it is asked about
  (`WithinRange`), and narrowing the range only drops hits beyond the new end
  (`Narrowable`). `Spheres.SphereHitLaws` proves both for spheres.
- Sphere radii and indices of refraction are positive (subset types `Radius`
  and `Ior`).
- `main` becomes `RenderScene` without its I/O. Its pixel loop runs sequentially.

Where the model departs from the code as written:

- `main` fills its buffers starting from `Color::zero()`, and `Color` has no
  `zero`. The model uses `Color::black()`, the zero colour.
- `material.rs` reads `hit.normal`, but `HitRecord` has the field `n`. The
  model reads `n`.
- `material.rs` and `math.rs` are not declared as modules of the crate
  (src/main.rs:15-19). They are modelled as written.
- `material.rs` imports `RandomInit` for `Vec3::rand`, and `RandomInit` is not
  part of this model. The model takes the random vector as the parameter `rand`.

## Model

| member | source | states |
|---|---|---|
| `Vectors.DotSelfNonNegative` | src/sphere.rs:18 | the coefficient `a = d·d` is never negative |
| `Colors.NewAndBlackChannels` | src/color.rs:10-16 | `new(r, g, b)` stores red, green, blue in order; `black()` is zero in every channel |
| `Colors.OperatorsAreChannelWise` | src/color.rs:47-77 | `+`, `* f32` and `Color * Color` act channel by channel |
| `Colors.DivScalarIsChannelWise` | src/color.rs:55-61 | `/ f32` divides every channel |
| `Colors.AddIsCommutativeMonoid` | src/color.rs:47-53 | colour addition is commutative and associative, and black is its neutral element |
| `Colors.Color.New` | src/color.rs:10-12 | stores red, green and blue in order, as `Colors.NewAndBlackChannels` states |
| `Colors.Color.Black` | src/color.rs:14-16 | zero in every channel, as `Colors.NewAndBlackChannels` states |
| `Colors.Color.Add` | src/color.rs:47-53 | channel-wise sum (`Colors.OperatorsAreChannelWise`); commutative, associative, with black neutral (`Colors.AddIsCommutativeMonoid`) |
| `Colors.Color.DivScalar` | src/color.rs:55-61 | divides every channel by a non-zero scalar (`Colors.DivScalarIsChannelWise`), undoing `MulScalar` (`Colors.DivScalarUndoesMulScalar`) |
| `Colors.Color.MulScalar` | src/color.rs:63-69 | multiplies every channel by the scalar, as `Colors.OperatorsAreChannelWise` states |
| `Colors.Color.Mul` | src/color.rs:71-77 | multiplies channel by channel, as `Colors.OperatorsAreChannelWise` states |
| `Colors.DivScalarUndoesMulScalar` | src/color.rs:55-69 | dividing by a non-zero scalar undoes multiplying by it |
| `Colors.AsU8` | src/color.rs:39-41 | Rust's float `as u8`: 0 below zero, 255 from 256 up, and in between the integer `b` with `b <= v < b + 1` |
| `Colors.ToRgb` | src/color.rs:37-45 | each byte is `floor(255 * channel)` for a channel in [0, 1], 255 for a channel at or above 1, 0 at or below 0 |
| `Math.Saturate` | src/math.rs:19-21 | the result lies in [0, 1], equals `v` on [0, 1], is 0 below and 1 above |
| `Math.SaturateIdempotent` | src/math.rs:19-21 | clamping twice is clamping once |
| `Math.FSchlick` | src/math.rs:9-11 | Schlick's term is `f0` at `cos = 1` and 1 at `cos = 0` |
| `Math.Pow5InUnit` | src/math.rs:10 | `x^5` stays in [0, 1] for `x` in [0, 1] |
| `Math.SchlickBounds` | src/math.rs:9-11 | for `cos` and `f0` in [0, 1], Schlick's term lies in [`f0`, 1] |
| `Math.FSchlickC` | src/math.rs:13-17 | each channel of the result is Schlick's term of that channel of `f0` |
| `Math.F0FromIor` | src/math.rs:4-7 | the reflectance is never negative, is 0 for index 1, and is below 1 for every positive index |
| `Math.IorRatioBelowOne` | src/math.rs:5 | for a positive index, `((1 - ior) / (1 + ior))^2 < 1` |
| `Hitables.Closest` | src/hitable.rs:43-55 | the loop of `HitableList::hit` as a fold; `Hitables.HitableList.Hit` is proved to compute it, and the four lemmas below characterise it as the first nearest hit |
| `Hitables.ClosestWithinRange` | src/hitable.rs:43-55 | if every element respects its range, `closest_so_far` never exceeds the range's end and the result lies in `start..end` |
| `Hitables.BoundNeverIncreases` | src/hitable.rs:45-50 | one more loop step never raises `closest_so_far` |
| `Hitables.ClosestIsNearest` | src/hitable.rs:43-55 | whenever an element hits within the full range, the list reports a hit at a `t` no larger |
| `Hitables.ClosestIsFirstNearest` | src/hitable.rs:47-54 | the result is the full-range hit of some element `k`, and every earlier element misses or hits strictly farther, so ties go to the first element in list order |
| `Hitables.ClosestNoneIffAllMiss` | src/hitable.rs:43-55 | the list reports nothing exactly when no element hits within the full range |
| `Hitables.HitableList.constructor` | src/hitable.rs:25-27 | a new list is empty |
| `Hitables.HitableList.Push` | src/hitable.rs:29-31 | `push` appends at the end and keeps the earlier elements in order |
| `Hitables.HitableList.Hit` | src/hitable.rs:43-55 | the loop returns the fold `Closest` of the elements, and an empty list reports no hit |
| `Spheres.Hit` | src/sphere.rs:16-44 | negative discriminant gives no hit; any hit lies in the half-open range and carries the point `origin + t d` and normal `(p - center) / radius`; an in-range near root is returned even when the far root is also in range; the far root exactly when it is in range and the near one is not |
| `Spheres.RecordAt` | src/sphere.rs:27-28 | the record of parameter `t`: point `point_at(t)` and normal `(p - center) / radius`; for every reported hit it lies on the sphere with a unit normal, under the square-root law (`Spheres.HitOnSurface`) |
| `Spheres.PointOnSphereIffRoot` | src/sphere.rs:17-21 | a ray point lies on the sphere exactly when its parameter solves `a t^2 + 2 b t + c = 0` |
| `Spheres.RootsAreNearAndFar` | src/sphere.rs:21-33 | under the square-root law, the roots of the quadratic are exactly the near and far roots |
| `Spheres.NearNotAfterFar` | src/sphere.rs:24-33 | with `a > 0`, the near root is never after the far root |
| `Spheres.ScaledToUnit` | src/sphere.rs:28 | dividing a vector of length `r` by `r` gives unit length |
| `Spheres.HitOnSurface` | src/sphere.rs:17-39 | under the square-root law, a reported point lies on the sphere and its normal has unit length |
| `Spheres.HitIsSmallestRoot` | src/sphere.rs:16-44 | under the square-root law and for a non-zero direction, every in-range parameter on the sphere is matched by a hit at that parameter or before it |
| `Spheres.HitNarrowable` | src/sphere.rs:16-44 | lowering the range's end loses the hit only when it lies at or beyond the new end |
| `Spheres.SphereHitLaws` | src/sphere.rs:15-45 | under the square-root law, spheres meet both hypotheses of the nearest-hit lemmas |
| `Spheres.HitFrontPole` | src/sphere.rs:16-44 | the ray down the negative z axis hits the scene's small sphere at `t = 0.5`, at `(0, 0, -0.5)`, with normal `(0, 0, 1)` |
| `Materials.Glossy` | src/material.rs:43 | the reflection plus `rand * roughness`; without roughness it is the exact mirror direction (`Materials.GlossyWithoutRoughness`) |
| `Materials.ViewCos` | src/material.rs:34-38 | the clamped view cosine lies in [0, 1] |
| `Materials.GlossyWithoutRoughness` | src/material.rs:69-70 | without roughness the blurred reflection is the exact mirror direction |
| `Materials.Diffuse.Fresnel` | src/material.rs:39 | the specular weight lies in [0.04, 1]: 0.04 head on, 1 at grazing incidence |
| `Materials.Diffuse.Scatter` | src/material.rs:26-48 | diffuse never absorbs and always attenuates by the albedo; it bounces to `normal + rand` exactly when the draw exceeds the Fresnel weight, and takes the blurred reflection otherwise |
| `Materials.DiffuseLowDrawIsGlossy` | src/material.rs:39-44 | every draw up to 0.04 takes the reflection, at any angle |
| `Materials.DiffuseGrazingIsGlossy` | src/material.rs:39-44 | at grazing incidence every draw in [0, 1) takes the reflection |
| `Materials.DiffuseHeadOn` | src/material.rs:39-44 | head on, every draw above 0.04 takes `normal + rand` |
| `Materials.Metal.Scatter` | src/material.rs:62-80 | metal never absorbs; its bounce is the reflection plus `rand * roughness` and its attenuation is Schlick's colour of `f0` at the view cosine |
| `Materials.MetalAttenuation` | src/material.rs:71-76 | for `f0` in the unit cube each channel's attenuation lies in [`f0`, 1]; it is `f0` head on and white at grazing incidence |
| `Materials.SmoothMetalMirrors` | src/material.rs:69-70 | a metal without roughness bounces in the exact mirror direction |
| `Materials.Refractive.Orient` | src/material.rs:107-113 | a ray along the normal gets the flipped normal and `eta = ior`, otherwise the normal and `eta = 1 / ior`; the chosen normal always faces the ray, the cosine is taken against it, and `eta > 0` |
| `Materials.Refractive.Fresnel` | src/material.rs:115-116 | the reflect weight lies in [`f0_from_ior(ior)`, 1]: 1 at grazing incidence, `f0_from_ior(ior)` head on |
| `Materials.Refractive.Scatter` | src/material.rs:99-126 | glass never absorbs and always attenuates by `f0`; it reflects about the unflipped normal exactly when the Fresnel weight exceeds the draw, and refracts about the oriented normal with the oriented `eta` otherwise; both add the same fuzz |
| `Materials.RefractiveReflects` | src/material.rs:115-122 | every draw below the index's base reflectance reflects, and at grazing incidence every draw in [0, 1) does |
| `Materials.MatchedIndexTransmitsHeadOn` | src/material.rs:107-122 | with index 1, a head-on ray refracts for every draw in [0, 1) with `eta = 1` |
| `Materials.Material.Scatter` | src/material.rs:153-166 | no material absorbs, and the attenuation is the albedo, the Schlick colour of `f0`, or `f0`, by variant |
| `Materials.Material.FromDiffuse` | src/material.rs:135-139 | wraps into the diffuse variant, whose scatter is the diffuse scatter (`Materials.FromThenScatterDelegates`) |
| `Materials.Material.FromMetal` | src/material.rs:141-145 | wraps into the metal variant, whose scatter is the metal scatter (`Materials.FromThenScatterDelegates`) |
| `Materials.Material.FromRefractive` | src/material.rs:147-151 | wraps into the refractive variant, whose scatter is the refractive scatter (`Materials.FromThenScatterDelegates`) |
| `Materials.FromThenScatterDelegates` | src/material.rs:135-166 | each `From` wraps into the matching variant, and scattering the wrapped material gives what the material itself gives |
| `Renderer.HitShade` | src/main.rs:26-27 | `0.5 * (1 + n)`; displayable for a unit normal (`Renderer.HitShadeInUnitCube`) |
| `Renderer.Sky` | src/main.rs:29-37 | the lerp from white to `(0.5, 0.7, 1.0)` by `0.5 * (y + 1)`; its channels and bounds are `Renderer.SkyChannels` and `Renderer.SkyGradient` |
| `Renderer.ComputeColor` | src/main.rs:25-39 | the shade of the first nearest hit in `0.0..100.0`, else the sky (`Renderer.ComputeColorHit`, `Renderer.ComputeColorMiss`), always displayable (`Renderer.ComputeColorInUnitCube`) |
| `Renderer.SkyGradient` | src/main.rs:29-37 | the sky is white at `dir.y = -1` and `(0.5, 0.7, 1.0)` at `dir.y = 1`; in between each channel stays between its end values |
| `Renderer.SkyChannels` | src/main.rs:33-37 | each sky channel is an affine function of the blend factor `0.5 * (y + 1)` |
| `Renderer.HitShadeInUnitCube` | src/main.rs:26-27 | for a unit normal, `0.5 * (1 + n)` lies in [0, 1] in every channel |
| `Renderer.ComputeColorMiss` | src/main.rs:25-39 | when no sphere is hit in `0.0..100.0`, the ray shows the sky |
| `Renderer.ComputeColorHit` | src/main.rs:25-39 | when some sphere is hit, the ray shows the shade of the normal of a nearest hit, from the first sphere at that distance, and the shade is displayable |
| `Renderer.MissInUnitCube` | src/main.rs:29-37 | a missing ray whose normalised height lies in [-1, 1] has a displayable colour |
| `Renderer.ComputeColorInUnitCube` | src/main.rs:25-39 | with the square-root law and normalised heights in [-1, 1], every ray's colour is displayable |
| `Renderer.PixelOf` | src/main.rs:60-62 | `x = i % W` is below `W` and `i == y * W + x` |
| `Renderer.RowMajorSplit` | src/main.rs:61-62 | removing the column leaves `i / W` whole rows, so `y == i / W` |
| `Renderer.PixelOfInImage` | src/main.rs:60-62 | for `i < W * H` the row `y` is below `H` |
| `Renderer.FlippedIndex` | src/main.rs:80-82 | for `x < W` and `y < H`, `x + (H - 1 - y) * W` is below `W * H` |
| `Renderer.FlippedIndexInjective` | src/main.rs:80-82 | distinct image pixels read distinct buffer entries |
| `Renderer.FlippedIndexOnto` | src/main.rs:80-82 | every buffer entry is read by the pixel in its column and mirrored row, so each entry is read exactly once |
| `Renderer.JitterInCell` | src/main.rs:67-71 | a draw in [0, 1) puts the coordinate in `[x / W, (x + 1) / W)`, and inside [0, 1) when `x < W` |
| `Renderer.SumColors` | src/main.rs:63-74 | the fold from black with `+`; its value does not depend on the order of the colours (`Renderer.SumColorsReorder`) |
| `Renderer.SumColorsAppend` | src/main.rs:63-74 | the sum of a concatenation is the sum of the sums of its parts |
| `Renderer.SumColorsReorder` | src/main.rs:63-74 | any rearrangement of the same colours (equal multisets) has the same sum, so the sample order does not matter |
| `Renderer.Average` | src/main.rs:74-75 | the sum divided by the number of colours; identical colours average to themselves and displayable colours to a displayable one (`Renderer.AverageOfIdentical`, `Renderer.AverageInUnitCube`) |
| `Renderer.SumOfCopies` | src/main.rs:63-74 | folding `n` copies of a colour from black gives the colour times `n` |
| `Renderer.AverageOfIdentical` | src/main.rs:63-75 | identical samples average to themselves |
| `Renderer.SumBounds` | src/main.rs:63-74 | each channel of a sum of displayable colours lies in [0, number of colours] |
| `Renderer.AverageInUnitCube` | src/main.rs:63-75 | the average of displayable colours is displayable |
| `Renderer.PixelColor` | src/main.rs:63-75 | the sample loop returns the sum of the `SAMPLES` sample colours divided by `SAMPLES` |
| `Renderer.Render` | src/main.rs:58-76 | the pixel buffer has `W * H` entries, and entry `i` is the averaged colour of pixel `i` |
| `Renderer.ToImage` | src/main.rs:78-83 | image pixel `(x, y)` is the byte conversion of buffer entry `x + (H - 1 - y) * W` |
| `Renderer.BuildWorld` | src/main.rs:51-56 | the world is a new list holding the ground sphere and then the small sphere |
| `Renderer.RenderScene` | src/main.rs:41-86 | every image pixel is the byte colour of the averaged samples of its flipped buffer index, for the camera of aspect `W / H` and the two-sphere scene |
| `Renderer.PixelIsDisplayable` | src/main.rs:63-82 | with the square-root law and normalised heights in [-1, 1], every averaged pixel is displayable, so its bytes are plain floors of `255 * channel` and the cast never saturates |

## Left out

- IEEE `f32` behaviour: rounding, NaN, infinities and overflow. Arithmetic is exact over the reals.
- The internals of the vector library (`sqrt`, `normalized`, `reflected`, `refracted`). They are parameters. Only the square-root law and bounded normalised heights are assumed, and only by the lemmas that need them.
- `Ray::point_at` computes `direction.mul_add(t, origin)`. It is modelled as the exact `direction * t + origin`.
- The distribution of the random draws. A draw is an arbitrary number, in [0, 1) where a lemma needs it, and `Vec3::rand` is an arbitrary vector.
- `Color::gamma_correct` and `Color::random` (powf and a random source).
- Argument parsing, directory creation and PNG saving in `main` (I/O).
- The rayon parallelism of the pixel loop. The loop is sequential.
- `Deref for HitableList`, which only exposes the element vector. The model's `items` field plays that role.
- `Spheres.Hit`: a zero direction gives `a = 0`. The roots are then `0 / 0` in `f32`, no range contains them, and the model returns `None` directly.
- `Spheres.HitIsSmallestRoot`: it requires a non-zero direction (`d·d != 0`). A zero direction whose origin lies on the sphere meets the sphere at every parameter, but the program reports no hit for it (both roots are `0 / 0`, NaN in `f32`), and so does `Spheres.Hit`.
- `Spheres.Hit`: radii are restricted to positive values by the `Radius` type, while `Sphere::new` accepts any `f32`; a negative radius would turn the normal `(p - center) / radius` inward and a zero radius would divide by zero.
- `Materials.Refractive.Orient`: refraction indices are restricted to positive values, while `Refractive::new` accepts any `f32`.
- `Renderer.ComputeColor` uses the function `Closest`, the proved result of `HitableList.Hit`, because a function cannot call a method. The world is a sequence of spheres rather than a list of boxed hitables, so nested lists are not modelled.
- The camera of src/camera.rs is used as a helper (`NewCamera`, `GetRay`). Nothing is proved about it.
