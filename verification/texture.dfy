/** `Texture::Sample` of the software rasterizer: texture coordinates to a
    texel of the surface, and the texel's 8-bit channels to `[0, 1]`. */
module Texture {
  import opened Geometry
  import opened Screen

  /** One 8-bit channel as `SDL_GetRGB` returns it. */
  type Byte = b: int | 0 <= b < 256

  /** A texel after `SDL_GetRGB` has unpacked it from the surface format. */
  datatype Rgb = Rgb(r: Byte, g: Byte, b: Byte)

  /** The surface: its size and its texels row by row. */
  datatype Texture = Texture(width: nat, height: nat, pixels: seq<Rgb>)

  /** A surface with at least one texel and one texel per position. */
  predicate Valid(t: Texture) {
    t.width > 0 && t.height > 0 && |t.pixels| == t.width * t.height
  }

  /** Texture coordinates inside the half-open unit square, the only ones the
      lookup keeps inside the surface. */
  predicate InUnitSquare(uv: Vec2) {
    0.0 <= uv.x < 1.0 && 0.0 <= uv.y < 1.0
  }

  /** `static_cast<size_t>(c * extent)`: the cast truncates, which for the
      non-negative products here is the floor. */
  function TexelCoordinate(c: real, extent: nat): (k: nat)
    requires c >= 0.0
    ensures k as real <= c * extent as real < k as real + 1.0
  {
    NonNegativeProduct(c, extent as real);
    (c * extent as real).Floor
  }

  /** `x + y * w`, the texel read for `uv`; nothing clamps or wraps it. */
  function TexelIndex(t: Texture, uv: Vec2): nat
    requires uv.x >= 0.0 && uv.y >= 0.0
  {
    PixelIndex(TexelCoordinate(uv.x, t.width), TexelCoordinate(uv.y, t.height), t.width)
  }

  /** `{ r / 255.f, g / 255.f, b / 255.f }`. */
  function Channels(p: Rgb): (c: Color)
    ensures UnitColor(c)
  {
    Color(p.r as real / 255.0, p.g as real / 255.0, p.b as real / 255.0)
  }

  /** No two texels give the same colour: the scaling loses nothing. */
  lemma ChannelsInjective(p: Rgb, q: Rgb)
    ensures Channels(p) == Channels(q) <==> p == q
  {
    if Channels(p) == Channels(q) {
      assert p.r as real == Channels(p).r * 255.0;
      assert q.r as real == Channels(q).r * 255.0;
      assert p.g as real == Channels(p).g * 255.0;
      assert q.g as real == Channels(q).g * 255.0;
      assert p.b as real == Channels(p).b * 255.0;
      assert q.b as real == Channels(q).b * 255.0;
    }
  }

  /** Both coordinates of a lookup inside the unit square fall inside the
      surface, so the index is inside the texel array. */
  lemma TexelInRange(t: Texture, uv: Vec2)
    requires Valid(t) && InUnitSquare(uv)
    ensures TexelCoordinate(uv.x, t.width) < t.width
    ensures TexelCoordinate(uv.y, t.height) < t.height
    ensures TexelIndex(t, uv) < |t.pixels|
  {
    BelowExtent(uv.x, t.width);
    BelowExtent(uv.y, t.height);
    PixelIndexInRange(TexelCoordinate(uv.x, t.width), TexelCoordinate(uv.y, t.height), t.width, t.height);
  }

  lemma BelowExtent(c: real, extent: nat)
    requires 0.0 <= c < 1.0 && extent > 0
    ensures TexelCoordinate(c, extent) < extent
  {
    var e := extent as real;
    ProductBelow(c, e);
    assert TexelCoordinate(c, extent) as real < e;
  }

  lemma ProductBelow(c: real, e: real)
    requires 0.0 <= c < 1.0 && e > 0.0
    ensures c * e < e
  {
    PositiveProduct(1.0 - c, e);
    assert e - c * e == (1.0 - c) * e;
  }

  /** The sampled colour: the channels of the texel `uv` falls on. `Sample`
      is `const`, so the same lookup always gives the same colour. */
  function Sample(t: Texture, uv: Vec2): (c: Color)
    requires Valid(t) && InUnitSquare(uv)
    ensures UnitColor(c)
  {
    TexelInRange(t, uv);
    Channels(t.pixels[TexelIndex(t, uv)])
  }

  /** Sampling at the centre of texel `(x, y)` returns that texel's colour. */
  lemma SampleTexelCentre(t: Texture, x: nat, y: nat)
    requires Valid(t) && x < t.width && y < t.height
    ensures InUnitSquare(Vec2((x as real + 0.5) / t.width as real, (y as real + 0.5) / t.height as real))
    ensures PixelIndex(x, y, t.width) < |t.pixels| &&
      Sample(t, Vec2((x as real + 0.5) / t.width as real, (y as real + 0.5) / t.height as real)) ==
      Channels(t.pixels[PixelIndex(x, y, t.width)])
  {
    PixelIndexInRange(x, y, t.width, t.height);
    var u := (x as real + 0.5) / t.width as real;
    var v := (y as real + 0.5) / t.height as real;
    CentreCoordinate(x, t.width);
    CentreCoordinate(y, t.height);
    assert TexelIndex(t, Vec2(u, v)) == PixelIndex(x, y, t.width);
  }

  lemma CentreCoordinate(k: nat, extent: nat)
    requires k < extent
    ensures 0.0 <= (k as real + 0.5) / extent as real < 1.0
    ensures TexelCoordinate((k as real + 0.5) / extent as real, extent) == k
  {
    var e := extent as real;
    var c := (k as real + 0.5) / e;
    assert c * e == k as real + 0.5;
    QuotientBelowOne(k as real + 0.5, e);
    assert k as real <= c * e < k as real + 1.0;
  }

  lemma QuotientBelowOne(a: real, e: real)
    requires 0.0 <= a < e
    ensures 0.0 <= a / e < 1.0
  {
    var q := a / e;
    assert q * e == a;
    if q >= 1.0 {
      assert q * e - e == (q - 1.0) * e;
    }
  }

  /** `u = 1` is not clamped: it reads column `w` of row `y`, which is the
      first texel of row `y + 1`. */
  lemma RightEdgeSpillsIntoNextRow(t: Texture, v: real)
    requires Valid(t) && 0.0 <= v
    ensures var y := TexelCoordinate(v, t.height);
      TexelIndex(t, Vec2(1.0, v)) == PixelIndex(0, y + 1, t.width)
  {
  }

  /** `v = 1` reads row `h`, past the last texel of the surface. */
  lemma BottomEdgeOverruns(t: Texture, u: real)
    requires Valid(t) && 0.0 <= u
    ensures TexelIndex(t, Vec2(u, 1.0)) >= |t.pixels|
  {
  }
}
