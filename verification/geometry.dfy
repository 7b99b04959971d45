/** Small vector and colour algebra over exact reals, standing in for the
    `float` vector, colour and 2D-cross helpers of the renderer's math library.
    Only the operations the rasterizer uses with a known meaning live here;
    everything whose definition is not visible (normalisation, the 3D cross
    product, `powf`, matrix transforms) is passed in as a parameter by the
    modules that need it. */
module Geometry {

  datatype Vec2 = Vec2(x: real, y: real)
  datatype Vec3 = Vec3(x: real, y: real, z: real)
  datatype Vec4 = Vec4(x: real, y: real, z: real, w: real)
  datatype Color = Color(r: real, g: real, b: real)

  const Black := Color(0.0, 0.0, 0.0)
  const White := Color(1.0, 1.0, 1.0)

  /** `Vector2{from, to}`: the vector pointing from `from` to `to`. */
  function Span(from: Vec2, to: Vec2): Vec2 {
    Vec2(to.x - from.x, to.y - from.y)
  }

  function Neg2(a: Vec2): Vec2 {
    Vec2(-a.x, -a.y)
  }

  /** The 2D cross product: the signed area of the parallelogram on `a`, `b`. */
  function Cross2(a: Vec2, b: Vec2): real {
    a.x * b.y - a.y * b.x
  }

  /** `Vector4::GetXY`. */
  function XY(v: Vec4): Vec2 {
    Vec2(v.x, v.y)
  }

  function Add3(a: Vec3, b: Vec3): Vec3 {
    Vec3(a.x + b.x, a.y + b.y, a.z + b.z)
  }

  function Sub3(a: Vec3, b: Vec3): Vec3 {
    Vec3(a.x - b.x, a.y - b.y, a.z - b.z)
  }

  function Scale3(a: Vec3, s: real): Vec3 {
    Vec3(a.x * s, a.y * s, a.z * s)
  }

  function Neg3(a: Vec3): Vec3 {
    Vec3(-a.x, -a.y, -a.z)
  }

  function Dot3(a: Vec3, b: Vec3): real {
    a.x * b.x + a.y * b.y + a.z * b.z
  }

  function AddColor(a: Color, b: Color): Color {
    Color(a.r + b.r, a.g + b.g, a.b + b.b)
  }

  function ScaleColor(c: Color, s: real): Color {
    Color(c.r * s, c.g * s, c.b * s)
  }

  /** A grey colour with every channel equal to `s`. */
  function Gray(s: real): Color {
    Color(s, s, s)
  }

  function Min(a: real, b: real): real {
    if a <= b then a else b
  }

  /** Sign rules for products, which the solver does not always find. */
  lemma PositiveProduct(a: real, b: real)
    requires a > 0.0 && b > 0.0
    ensures a * b > 0.0
  {
  }

  lemma NonNegativeProduct(a: real, b: real)
    requires a >= 0.0 && b >= 0.0
    ensures a * b >= 0.0
  {
  }

  function Max(a: real, b: real): real {
    if a >= b then a else b
  }

  /** Clamp of the math library: `v` limited to `[lo, hi]`. */
  function Clamp(v: real, lo: real, hi: real): (r: real)
    requires lo <= hi
    ensures lo <= r <= hi
    ensures lo <= v <= hi ==> r == v
  {
    if v < lo then lo else if v > hi then hi else v
  }

  predicate InUnitInterval(c: real) {
    0.0 <= c <= 1.0
  }

  predicate UnitColor(c: Color) {
    InUnitInterval(c.r) && InUnitInterval(c.g) && InUnitInterval(c.b)
  }
}
