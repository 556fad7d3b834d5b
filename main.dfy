/**
 * The driver of src/main.rs: the colour of one ray against the scene, the
 * row-major pixel index and its vertical flip, the jittered sample positions, the
 * averaging of samples, and the two buffers `main` fills. The pixel loop runs
 * sequentially here. The two random offsets of sample `s` of pixel `i` are
 * `draw(i, s)`.
 */
module Renderer {
  import opened Optional
  import opened Vectors
  import opened Colors
  import opened Hitables
  import opened Spheres

  /** `DIMENSION`: the image is `WIDTH` pixels wide and `HEIGHT` high. */
  const WIDTH: nat := 1920
  const HEIGHT: nat := 1080

  /** `SAMPLES`: rays averaged per pixel. */
  const SAMPLES: nat := 48

  /** The range of parameters every scene query uses, `0.0..100.0`. */
  function SceneRange(): Range { Range(0.0, 100.0) }

  /*
   * Colour of one ray
   */

  /** `0.5 * (1 + n)`: the colour of a hit with normal `n`. */
  function HitShade(n: Vec3): Color
  {
    Color(Mul(Broadcast(0.5), Add(One(), n)))
  }

  /** `lerp(one, (0.5, 0.7, 1.0), 0.5 * (y + 1))`: the sky seen along a direction of height `y`. */
  function Sky(y: real): Color
  {
    Color(Lerp(One(), Vec3(0.5, 0.7, 1.0), 0.5 * (y + 1.0)))
  }

  /** `compute_color`: shade the nearest hit of the scene, or show the sky. */
  function ComputeColor(ray: Ray, world: seq<Sphere>, lib: Library): Color
  {
    var h := Closest(world, SphereHit(lib.sqrt), ray, SceneRange());
    if h.Some? then HitShade(h.value.n) else Sky(lib.normalized(ray.direction).y)
  }

  /**
   * The sky is white straight down and sky blue straight up; in between, each
   * channel lies between its values at the two ends, so the sky is displayable.
   */
  lemma SkyGradient(y: real)
    requires -1.0 <= y <= 1.0
    ensures y == -1.0 ==> Sky(y) == Color.New(1.0, 1.0, 1.0)
    ensures y == 1.0 ==> Sky(y) == Color.New(0.5, 0.7, 1.0)
    ensures 0.5 <= Sky(y).v.x <= 1.0 && 0.7 <= Sky(y).v.y <= 1.0 && Sky(y).v.z == 1.0
    ensures InUnitCube(Sky(y))
  {
    SkyChannels(y);
  }

  /** The channels of the sky as affine functions of the blend factor `t = 0.5 * (y + 1)`. */
  lemma SkyChannels(y: real)
    ensures Sky(y).v.x == 1.0 - 0.5 * (0.5 * (y + 1.0))
    ensures Sky(y).v.y == 1.0 - 0.3 * (0.5 * (y + 1.0))
    ensures Sky(y).v.z == 1.0
  {
    var t := 0.5 * (y + 1.0);
    assert Lerp(One(), Vec3(0.5, 0.7, 1.0), t) == Vec3(1.0 - t + 0.5 * t, 1.0 - t + 0.7 * t, 1.0 - t + t);
  }

  lemma SquareAtMostOne(a: real)
    requires a * a <= 1.0
    ensures -1.0 <= a <= 1.0
  {
  }

  /** For a unit normal the hit colour is displayable. */
  lemma HitShadeInUnitCube(n: Vec3)
    requires Dot(n, n) == 1.0
    ensures InUnitCube(HitShade(n))
  {
    SquareNonNegative(n.x);
    SquareNonNegative(n.y);
    SquareNonNegative(n.z);
    SquareAtMostOne(n.x);
    SquareAtMostOne(n.y);
    SquareAtMostOne(n.z);
  }

  /** When no sphere of the scene is hit within `0.0..100.0`, the ray shows the sky. */
  lemma ComputeColorMiss(ray: Ray, world: seq<Sphere>, lib: Library)
    requires SqrtLaw(lib.sqrt)
    requires forall j :: 0 <= j < |world| ==> Spheres.Hit(world[j], ray, SceneRange(), lib.sqrt).None?
    ensures ComputeColor(ray, world, lib) == Sky(lib.normalized(ray.direction).y)
  {
    SphereHitLaws(lib.sqrt);
    ClosestNoneIffAllMiss(world, SphereHit(lib.sqrt), ray, SceneRange());
  }

  /**
   * When some sphere is hit within `0.0..100.0`, the ray shows the shade of the
   * normal of a nearest hit, taken from the first sphere in scene order at that
   * distance; the shade is displayable.
   */
  lemma ComputeColorHit(ray: Ray, world: seq<Sphere>, lib: Library, i: nat)
    requires SqrtLaw(lib.sqrt)
    requires i < |world| && Spheres.Hit(world[i], ray, SceneRange(), lib.sqrt).Some?
    ensures exists k :: 0 <= k < |world| && Spheres.Hit(world[k], ray, SceneRange(), lib.sqrt).Some? &&
              ComputeColor(ray, world, lib) == HitShade(Spheres.Hit(world[k], ray, SceneRange(), lib.sqrt).value.n) &&
              (forall j :: 0 <= j < |world| && Spheres.Hit(world[j], ray, SceneRange(), lib.sqrt).Some? ==>
                 Spheres.Hit(world[k], ray, SceneRange(), lib.sqrt).value.t
                   <= Spheres.Hit(world[j], ray, SceneRange(), lib.sqrt).value.t) &&
              (forall j :: 0 <= j < k && Spheres.Hit(world[j], ray, SceneRange(), lib.sqrt).Some? ==>
                 Spheres.Hit(world[k], ray, SceneRange(), lib.sqrt).value.t
                   < Spheres.Hit(world[j], ray, SceneRange(), lib.sqrt).value.t)
    ensures InUnitCube(ComputeColor(ray, world, lib))
  {
    var hit := SphereHit(lib.sqrt);
    SphereHitLaws(lib.sqrt);
    ClosestIsNearest(world, hit, ray, SceneRange());
    ClosestIsFirstNearest(world, hit, ray, SceneRange());
    var best := Closest(world, hit, ray, SceneRange());
    assert hit(world[i], ray, SceneRange()).Some?;
    var k :| 0 <= k < |world| && hit(world[k], ray, SceneRange()) == best &&
      forall j :: 0 <= j < k && hit(world[j], ray, SceneRange()).Some? ==>
        hit(world[j], ray, SceneRange()).value.t > best.value.t;
    HitOnSurface(world[k], ray, SceneRange(), lib.sqrt);
    HitShadeInUnitCube(best.value.n);
    assert Spheres.Hit(world[k], ray, SceneRange(), lib.sqrt) == best;
  }

  /** A vector library whose normalised vectors have a height in [-1, 1]. */
  ghost predicate HeightBounded(lib: Library)
  {
    forall v :: -1.0 <= lib.normalized(v).y <= 1.0
  }

  /** Under the square-root law and bounded normalised heights, every ray's colour is displayable. */
  lemma ComputeColorInUnitCube(ray: Ray, world: seq<Sphere>, lib: Library)
    requires SqrtLaw(lib.sqrt) && HeightBounded(lib)
    ensures InUnitCube(ComputeColor(ray, world, lib))
  {
    if exists i :: 0 <= i < |world| && Spheres.Hit(world[i], ray, SceneRange(), lib.sqrt).Some? {
      var i :| 0 <= i < |world| && Spheres.Hit(world[i], ray, SceneRange(), lib.sqrt).Some?;
      ComputeColorHit(ray, world, lib, i);
    } else {
      assert -1.0 <= lib.normalized(ray.direction).y <= 1.0;
      MissInUnitCube(ray, world, lib);
    }
  }

  lemma MissInUnitCube(ray: Ray, world: seq<Sphere>, lib: Library)
    requires SqrtLaw(lib.sqrt) && -1.0 <= lib.normalized(ray.direction).y <= 1.0
    requires forall j :: 0 <= j < |world| ==> Spheres.Hit(world[j], ray, SceneRange(), lib.sqrt).None?
    ensures InUnitCube(ComputeColor(ray, world, lib))
  {
    ComputeColorMiss(ray, world, lib);
    SkyGradient(lib.normalized(ray.direction).y);
  }

  /*
   * Pixel indices
   */

  /** `x = i % W` and `y = (i - x) / W`: pixel `i` of a row-major buffer `w` wide. */
  function PixelOf(i: nat, w: nat): (xy: (nat, nat))
    requires w > 0
    ensures xy.0 < w && i == xy.1 * w + xy.0
  {
    var x := i % w;
    RowMajorSplit(i, w);
    (x, (i - x) / w)
  }

  /** Removing the column `i % w` leaves a whole number `i / w` of rows. */
  lemma RowMajorSplit(i: nat, w: nat)
    requires w > 0
    ensures i == (i / w) * w + i % w
    ensures (i - i % w) / w == i / w
  {
    var q, x := i / w, i % w;
    assert i == q * w + x;
    assert i - x == q * w;
    MulDivCancel(q, w);
  }

  /** `(q * w) / w == q`. */
  lemma MulDivCancel(q: nat, w: nat)
    requires w > 0
    ensures (q * w) / w == q
  {
    RowMajorUnique(0, q, (q * w) % w, (q * w) / w, w);
  }

  lemma MulMonotone(a: nat, b: nat, w: nat)
    requires a <= b
    ensures a * w <= b * w
  {
  }

  /** A buffer index below `w * h` names a pixel inside the `w` by `h` image. */
  lemma PixelOfInImage(i: nat, w: nat, h: nat)
    requires w > 0 && i < w * h
    ensures PixelOf(i, w).1 < h
  {
    var y := PixelOf(i, w).1;
    if y >= h {
      MulMonotone(h, y, w);
    }
  }

  /** `x + (H - 1 - y) * W`: the buffer index read for image pixel `(x, y)`, rows flipped. */
  function FlippedIndex(x: nat, y: nat, w: nat, h: nat): (idx: nat)
    requires x < w && y < h
    ensures idx < w * h
  {
    MulMonotone(h - 1 - y, h - 1, w);
    assert (h - 1) * w + w == w * h;
    x + (h - 1 - y) * w
  }

  /** Row and column of a row-major index `x + r * w` are determined by it. */
  lemma RowMajorUnique(x1: nat, r1: nat, x2: nat, r2: nat, w: nat)
    requires x1 < w && x2 < w && x1 + r1 * w == x2 + r2 * w
    ensures x1 == x2 && r1 == r2
  {
    if r1 < r2 {
      MulMonotone(r1 + 1, r2, w);
    } else if r2 < r1 {
      MulMonotone(r2 + 1, r1, w);
    }
  }

  /** Distinct image pixels read distinct buffer entries. */
  lemma FlippedIndexInjective(x1: nat, y1: nat, x2: nat, y2: nat, w: nat, h: nat)
    requires x1 < w && y1 < h && x2 < w && y2 < h
    requires FlippedIndex(x1, y1, w, h) == FlippedIndex(x2, y2, w, h)
    ensures x1 == x2 && y1 == y2
  {
    RowMajorUnique(x1, h - 1 - y1, x2, h - 1 - y2, w);
  }

  /**
   * Every buffer entry is read by some image pixel: the pixel in the same column
   * and the mirrored row. With injectivity, each entry is read exactly once.
   */
  lemma FlippedIndexOnto(i: nat, w: nat, h: nat)
    requires w > 0 && i < w * h
    ensures PixelOf(i, w).1 < h
    ensures FlippedIndex(PixelOf(i, w).0, h - 1 - PixelOf(i, w).1, w, h) == i
  {
    PixelOfInImage(i, w, h);
  }

  /*
   * Jittered samples
   */

  /** `(x as f32 + draw) / W`: a coordinate jittered inside cell `x` of `w`. */
  function Jitter(x: nat, draw: real, w: nat): real
    requires w > 0
  {
    (x as real + draw) / w as real
  }

  lemma DivideLess(a: real, b: real, d: real)
    requires d > 0.0 && a < b
    ensures a / d < b / d
  {
    assert b / d - a / d == (b - a) / d;
  }

  /** A draw in [0, 1) lands in `[x / w, (x + 1) / w)`, and inside [0, 1) when `x < w`. */
  lemma JitterInCell(x: nat, draw: real, w: nat)
    requires w > 0 && 0.0 <= draw < 1.0
    ensures (x as real) / (w as real) <= Jitter(x, draw, w) < (x as real + 1.0) / (w as real)
    ensures x < w ==> 0.0 <= Jitter(x, draw, w) < 1.0
  {
    var d := w as real;
    DivideMonotone(x as real, x as real + draw, d);
    DivideLess(x as real + draw, x as real + 1.0, d);
    if x < w {
      DivideMonotone(0.0, x as real, d);
      DivideMonotone(x as real + 1.0, d, d);
    }
  }

  /** `Camera`, of src/camera.rs: a viewport in front of an eye point. */
  datatype Camera = Camera(lowerLeft: Vec3, fullSize: Vec3, origin: Vec3)

  /** `Camera::new(aspect_ratio)`. */
  function NewCamera(aspect: real): Camera
  {
    Camera(Vec3(-aspect * 0.5, -0.5, -1.0), Vec3(aspect, 1.0, 0.0), Vec3(0.0, 0.0, 1.0))
  }

  /** `Camera::get_ray(uv)`: the ray from the eye through viewport position `uv`. */
  function GetRay(camera: Camera, uv: Vec3): Ray
  {
    Ray(camera.origin, Add(camera.lowerLeft, Mul(camera.fullSize, uv)))
  }

  /** The offsets of each sample: `draw(i, s)` for sample `s` of pixel `i`. */
  type Draws = (nat, nat) -> (real, real)

  /** The colour of sample `s` of pixel `i`. */
  function SampleColor(i: nat, s: nat, world: seq<Sphere>, camera: Camera, lib: Library, draw: Draws): Color
  {
    var xy := PixelOf(i, WIDTH);
    var uv := Vec3(Jitter(xy.0, draw(i, s).0, WIDTH), Jitter(xy.1, draw(i, s).1, HEIGHT), 0.0);
    ComputeColor(GetRay(camera, uv), world, lib)
  }

  /** The `SAMPLES` sample colours of pixel `i`, in order. */
  function SampleColors(i: nat, world: seq<Sphere>, camera: Camera, lib: Library, draw: Draws): seq<Color>
  {
    seq(SAMPLES, s requires 0 <= s => SampleColor(i, s, world, camera, lib, draw))
  }

  /*
   * Averaging
   */

  /** `fold(Color::zero(), |a, b| a + b)`: the sum of the colours, accumulated left to right from black. */
  function SumColors(cs: seq<Color>): Color
  {
    if |cs| == 0 then Color.Black() else SumColors(cs[..|cs| - 1]).Add(cs[|cs| - 1])
  }

  /** `sum / n`: the mean of the colours. */
  function Average(cs: seq<Color>): Color
    requires |cs| > 0
  {
    SumColors(cs).DivScalar(|cs| as real)
  }

  /** Summing a concatenation adds the sums of its two parts. */
  lemma {:induction false} SumColorsAppend(cs: seq<Color>, ds: seq<Color>)
    ensures SumColors(cs + ds) == SumColors(cs).Add(SumColors(ds))
  {
    if |ds| == 0 {
      assert cs + ds == cs;
      AddIsCommutativeMonoid(SumColors(cs), Color.Black(), Color.Black());
    } else {
      var n := |ds| - 1;
      assert (cs + ds)[..|cs + ds| - 1] == cs + ds[..n];
      SumColorsAppend(cs, ds[..n]);
      AddIsCommutativeMonoid(SumColors(cs), SumColors(ds[..n]), ds[n]);
    }
  }

  /** Removing entry `k` from a sum leaves the sum of the rest, to which `cs[k]` is added. */
  lemma SumColorsRemove(cs: seq<Color>, k: nat)
    requires k < |cs|
    ensures SumColors(cs) == SumColors(cs[..k] + cs[k + 1..]).Add(cs[k])
  {
    var front, back := cs[..k], cs[k + 1..];
    assert cs == (front + [cs[k]]) + back;
    SumColorsAppend(front + [cs[k]], back);
    SumColorsAppend(front, back);
    assert (front + [cs[k]])[..k] == front;
    AddIsCommutativeMonoid(SumColors(front), cs[k], SumColors(back));
    AddIsCommutativeMonoid(SumColors(front), SumColors(back), cs[k]);
    AddIsCommutativeMonoid(cs[k], SumColors(back), Color.Black());
  }

  /**
   * The sum of the samples does not depend on the order in which they are folded:
   * any rearrangement of the same colours has the same sum.
   */
  lemma {:induction false} SumColorsReorder(cs: seq<Color>, ds: seq<Color>)
    requires multiset(cs) == multiset(ds)
    ensures SumColors(cs) == SumColors(ds)
  {
    if |cs| > 0 {
      var n := |cs| - 1;
      var x := cs[n];
      assert cs == cs[..n] + [x];
      assert x in multiset(ds);
      var k :| 0 <= k < |ds| && ds[k] == x;
      var rest := ds[..k] + ds[k + 1..];
      assert ds == ds[..k] + [x] + ds[k + 1..];
      assert multiset(cs) == multiset(cs[..n]) + multiset{x};
      assert multiset(ds) == multiset(ds[..k]) + multiset{x} + multiset(ds[k + 1..]);
      assert multiset(rest) == multiset(ds[..k]) + multiset(ds[k + 1..]);
      assert multiset(cs[..n]) == multiset(cs) - multiset{x};
      assert multiset(rest) == multiset(ds) - multiset{x};
      SumColorsReorder(cs[..n], rest);
      SumColorsRemove(ds, k);
    } else {
      assert |ds| == |multiset(ds)|;
    }
  }

  /** Summing `n` copies of one colour scales it by `n`. */
  lemma {:induction false} SumOfCopies(cs: seq<Color>, c: Color)
    requires forall i :: 0 <= i < |cs| ==> cs[i] == c
    ensures SumColors(cs) == c.MulScalar(|cs| as real)
  {
    if |cs| > 0 {
      SumOfCopies(cs[..|cs| - 1], c);
    }
  }

  /** Identical samples average to themselves. */
  lemma AverageOfIdentical(cs: seq<Color>, c: Color)
    requires |cs| > 0 && forall i :: 0 <= i < |cs| ==> cs[i] == c
    ensures Average(cs) == c
  {
    SumOfCopies(cs, c);
    DivScalarUndoesMulScalar(c, |cs| as real);
  }

  /** Each channel of a sum of displayable colours lies between 0 and their number. */
  lemma {:induction false} SumBounds(cs: seq<Color>)
    requires forall i :: 0 <= i < |cs| ==> InUnitCube(cs[i])
    ensures var s := SumColors(cs);
      0.0 <= s.v.x <= |cs| as real && 0.0 <= s.v.y <= |cs| as real && 0.0 <= s.v.z <= |cs| as real
  {
    if |cs| > 0 {
      SumBounds(cs[..|cs| - 1]);
    }
  }

  lemma FractionInUnit(a: real, n: real)
    requires n > 0.0 && 0.0 <= a <= n
    ensures 0.0 <= a / n <= 1.0
  {
    DivideMonotone(0.0, a, n);
    DivideMonotone(a, n, n);
  }

  /** The average of displayable colours is displayable. */
  lemma AverageInUnitCube(cs: seq<Color>)
    requires |cs| > 0 && forall i :: 0 <= i < |cs| ==> InUnitCube(cs[i])
    ensures InUnitCube(Average(cs))
  {
    SumBounds(cs);
    var s := SumColors(cs);
    var n := |cs| as real;
    FractionInUnit(s.v.x, n);
    FractionInUnit(s.v.y, n);
    FractionInUnit(s.v.z, n);
  }

  /*
   * The buffers of `main`
   */

  /** The pixel-buffer closure of `main`: the average of the samples of pixel `i`. */
  method PixelColor(i: nat, world: seq<Sphere>, camera: Camera, lib: Library, draw: Draws) returns (c: Color)
    ensures c == Average(SampleColors(i, world, camera, lib, draw))
  {
    var samples := SampleColors(i, world, camera, lib, draw);
    var sum := Color.Black();
    for s := 0 to SAMPLES
      invariant sum == SumColors(samples[..s])
    {
      assert samples[..s + 1][..s] == samples[..s];
      sum := sum.Add(SampleColor(i, s, world, camera, lib, draw));
    }
    assert samples[..SAMPLES] == samples;
    c := sum.DivScalar(SAMPLES as real);
  }

  /** The `pixels` buffer: entry `i` holds the averaged colour of pixel `i`. */
  method Render(world: HitableList<Sphere>, camera: Camera, lib: Library, draw: Draws)
    returns (pixels: array<Color>)
    ensures fresh(pixels) && pixels.Length == WIDTH * HEIGHT
    ensures forall i :: 0 <= i < pixels.Length ==>
              pixels[i] == Average(SampleColors(i, world.items, camera, lib, draw))
  {
    pixels := new Color[WIDTH * HEIGHT](_ => Color.Black());
    for i := 0 to pixels.Length
      invariant forall j :: 0 <= j < i ==>
                  pixels[j] == Average(SampleColors(j, world.items, camera, lib, draw))
    {
      var c := PixelColor(i, world.items, camera, lib, draw);
      pixels[i] := c;
    }
  }

  /** The `image` buffer: pixel `(x, y)` is the byte colour of buffer entry `x + (H - 1 - y) * W`. */
  method ToImage(pixels: array<Color>) returns (image: array2<Rgb>)
    requires pixels.Length == WIDTH * HEIGHT
    ensures fresh(image) && image.Length0 == WIDTH && image.Length1 == HEIGHT
    ensures forall x, y :: 0 <= x < WIDTH && 0 <= y < HEIGHT ==>
              image[x, y] == ToRgb(pixels[FlippedIndex(x, y, WIDTH, HEIGHT)])
  {
    image := new Rgb[WIDTH, HEIGHT]((_, _) => Rgb(0, 0, 0));
    for y := 0 to HEIGHT
      invariant forall x', y' :: 0 <= x' < WIDTH && 0 <= y' < y ==>
                  image[x', y'] == ToRgb(pixels[FlippedIndex(x', y', WIDTH, HEIGHT)])
    {
      for x := 0 to WIDTH
        invariant forall x', y' :: 0 <= x' < WIDTH && 0 <= y' < y ==>
                    image[x', y'] == ToRgb(pixels[FlippedIndex(x', y', WIDTH, HEIGHT)])
        invariant forall x' :: 0 <= x' < x ==>
                    image[x', y] == ToRgb(pixels[FlippedIndex(x', y, WIDTH, HEIGHT)])
      {
        image[x, y] := ToRgb(pixels[FlippedIndex(x, y, WIDTH, HEIGHT)]);
      }
    }
  }

  /** The scene of `main`: a large ground sphere below a small one in front of the camera. */
  function Scene(): seq<Sphere>
  {
    [Sphere(Vec3(0.0, -100.5, -1.0), 100.0), Sphere(Vec3(0.0, 0.0, -1.0), 0.5)]
  }

  /** The world `main` builds: a new list with the two spheres pushed in order. */
  method BuildWorld() returns (world: HitableList<Sphere>)
    ensures fresh(world) && world.items == Scene()
  {
    world := new HitableList<Sphere>();
    world.Push(Sphere(Vec3(0.0, -100.5, -1.0), 100.0));
    world.Push(Sphere(Vec3(0.0, 0.0, -1.0), 0.5));
  }

  /**
   * `main` without its I/O: build the camera and the world, fill the pixel
   * buffer, then the image with its rows flipped.
   */
  method RenderScene(lib: Library, draw: Draws) returns (image: array2<Rgb>)
    ensures fresh(image) && image.Length0 == WIDTH && image.Length1 == HEIGHT
    ensures forall x, y :: 0 <= x < WIDTH && 0 <= y < HEIGHT ==>
              image[x, y] == ToRgb(Average(SampleColors(FlippedIndex(x, y, WIDTH, HEIGHT), Scene(),
                                                        NewCamera(WIDTH as real / HEIGHT as real), lib, draw)))
  {
    var camera := NewCamera(WIDTH as real / HEIGHT as real);
    var world := BuildWorld();
    var pixels := Render(world, camera, lib, draw);
    image := ToImage(pixels);
  }

  /**
   * Under the square-root law and bounded normalised heights, every pixel's
   * averaged colour is displayable, so its byte conversion is the plain floor of
   * `255 * channel` and no channel relies on the saturation of the cast.
   */
  lemma PixelIsDisplayable(i: nat, world: seq<Sphere>, camera: Camera, lib: Library, draw: Draws)
    requires SqrtLaw(lib.sqrt) && HeightBounded(lib)
    ensures InUnitCube(Average(SampleColors(i, world, camera, lib, draw)))
    ensures var c := Average(SampleColors(i, world, camera, lib, draw));
      ToRgb(c) == Rgb((c.v.x * 255.0).Floor, (c.v.y * 255.0).Floor, (c.v.z * 255.0).Floor)
  {
    var cs := SampleColors(i, world, camera, lib, draw);
    forall s | 0 <= s < |cs|
      ensures InUnitCube(cs[s])
    {
      var xy := PixelOf(i, WIDTH);
      var uv := Vec3(Jitter(xy.0, draw(i, s).0, WIDTH), Jitter(xy.1, draw(i, s).1, HEIGHT), 0.0);
      ComputeColorInUnitCube(GetRay(camera, uv), world, lib);
    }
    AverageInUnitCube(cs);
  }
}
