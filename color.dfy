/**
 * The `Color` value of src/color.rs: a linear-space colour stored as a `Vec3`, its
 * component-wise operators, and the conversion to an 8-bit `Rgb` pixel.
 */
module Colors {
  import opened Vectors

  datatype Color = Color(v: Vec3) {

    /** `Color::new(r, g, b)`. */
    static function New(r: real, g: real, b: real): Color { Color(Vec3(r, g, b)) }

    /** `Color::black()`. */
    static function Black(): Color { Color(Zero()) }

    /** `impl Add for Color`. */
    function Add(rhs: Color): Color { Color(Vectors.Add(v, rhs.v)) }

    /** `impl Div<f32> for Color`. */
    function DivScalar(rhs: real): Color
      requires rhs != 0.0
    {
      Color(Vectors.DivScalar(v, rhs))
    }

    /** `impl Mul<f32> for Color`. */
    function MulScalar(rhs: real): Color { Color(Scale(v, rhs)) }

    /** `impl Mul<Color> for Color`. */
    function Mul(rhs: Color): Color { Color(Vectors.Mul(v, rhs.v)) }
  }

  /** Each channel of `c` lies in the unit interval: a displayable colour. */
  predicate InUnitCube(c: Color)
  {
    0.0 <= c.v.x <= 1.0 && 0.0 <= c.v.y <= 1.0 && 0.0 <= c.v.z <= 1.0
  }

  /** `new` stores its arguments as red, green and blue; `black` is zero in every channel. */
  lemma NewAndBlackChannels(r: real, g: real, b: real)
    ensures Color.New(r, g, b).v.x == r && Color.New(r, g, b).v.y == g && Color.New(r, g, b).v.z == b
    ensures Color.Black().v.x == 0.0 && Color.Black().v.y == 0.0 && Color.Black().v.z == 0.0
  {
  }

  /** Addition and both multiplications act on each channel independently. */
  lemma OperatorsAreChannelWise(a: Color, b: Color, s: real)
    ensures a.Add(b) == Color.New(a.v.x + b.v.x, a.v.y + b.v.y, a.v.z + b.v.z)
    ensures a.MulScalar(s) == Color.New(a.v.x * s, a.v.y * s, a.v.z * s)
    ensures a.Mul(b) == Color.New(a.v.x * b.v.x, a.v.y * b.v.y, a.v.z * b.v.z)
  {
  }

  /** Division by a scalar divides each channel. */
  lemma DivScalarIsChannelWise(a: Color, s: real)
    requires s != 0.0
    ensures a.DivScalar(s) == Color.New(a.v.x / s, a.v.y / s, a.v.z / s)
  {
  }

  /**
   * Sums of colours do not depend on the order in which they are accumulated, and
   * black is the neutral element the sample fold starts from.
   */
  lemma AddIsCommutativeMonoid(a: Color, b: Color, c: Color)
    ensures a.Add(b) == b.Add(a)
    ensures a.Add(b).Add(c) == a.Add(b.Add(c))
    ensures Color.Black().Add(a) == a && a.Add(Color.Black()) == a
  {
  }

  /** Dividing by a non-zero scalar undoes multiplying by it. */
  lemma DivScalarUndoesMulScalar(c: Color, s: real)
    requires s != 0.0
    ensures c.MulScalar(s).DivScalar(s) == c
  {
    CancelFactor(c.v.x, s);
    CancelFactor(c.v.y, s);
    CancelFactor(c.v.z, s);
  }

  lemma CancelFactor(a: real, s: real)
    requires s != 0.0
    ensures (a * s) / s == a
  {
  }

  /** An 8-bit channel value. */
  type Byte = b: int | 0 <= b < 256

  /** `image::Rgb<u8>`. */
  datatype Rgb = Rgb(r: Byte, g: Byte, b: Byte)

  /**
   * Rust's `v as u8` on a float: truncate toward zero, then saturate to [0, 255].
   * The result is the floor of `v` wherever that lies in [0, 255].
   */
  function AsU8(v: real): (b: Byte)
    ensures v < 0.0 ==> b == 0
    ensures 0.0 <= v < 256.0 ==> b as real <= v < b as real + 1.0
    ensures v >= 256.0 ==> b == 255
  {
    var truncated := if v < 0.0 then -((-v).Floor) else v.Floor;
    if truncated < 0 then 0 else if truncated > 255 then 255 else truncated
  }

  /**
   * `From<Color> for Rgb<u8>`: each channel scaled by 255 and cast with `as u8`.
   * There is no explicit clamp: values at or above 1 saturate at 255 and values at
   * or below 0 at 0, by the semantics of the cast.
   */
  function ToRgb(c: Color): (p: Rgb)
    ensures 0.0 <= c.v.x <= 1.0 ==> p.r == (c.v.x * 255.0).Floor
    ensures 0.0 <= c.v.y <= 1.0 ==> p.g == (c.v.y * 255.0).Floor
    ensures 0.0 <= c.v.z <= 1.0 ==> p.b == (c.v.z * 255.0).Floor
    ensures c.v.x >= 1.0 ==> p.r == 255
    ensures c.v.y >= 1.0 ==> p.g == 255
    ensures c.v.z >= 1.0 ==> p.b == 255
    ensures c.v.x <= 0.0 ==> p.r == 0
    ensures c.v.y <= 0.0 ==> p.g == 0
    ensures c.v.z <= 0.0 ==> p.b == 0
  {
    Rgb(AsU8(c.v.x * 255.0), AsU8(c.v.y * 255.0), AsU8(c.v.z * 255.0))
  }
}
