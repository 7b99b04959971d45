/** Screen mapping, the clamped bounding box and the flat pixel index of
    `Renderer::RenderRasterizer`. */
module Screen {
  import opened Geometry

  /** NDC to screen space: x from `[-1, 1]` to `[0, width]`, y from `[-1, 1]`
      to `[0, height]` with the axis flipped (rows grow downwards). z and w are
      carried along unchanged. */
  function ToScreen(p: Vec4, width: nat, height: nat): (s: Vec4)
    ensures s.z == p.z && s.w == p.w
    ensures -1.0 <= p.x <= 1.0 ==> 0.0 <= s.x <= width as real
    ensures -1.0 <= p.y <= 1.0 ==> 0.0 <= s.y <= height as real
    ensures p.x == -1.0 ==> s.x == 0.0
    ensures p.x == 1.0 ==> s.x == width as real
    ensures p.y == 1.0 ==> s.y == 0.0
    ensures p.y == -1.0 ==> s.y == height as real
  {
    ScreenXRange(p.x, width);
    ScreenYRange(p.y, height);
    Vec4(ScreenX(p.x, width), ScreenY(p.y, height), p.z, p.w)
  }

  function ScreenX(x: real, width: nat): real {
    (x + 1.0) / 2.0 * width as real
  }

  function ScreenY(y: real, height: nat): real {
    (1.0 - y) / 2.0 * height as real
  }

  lemma ScreenXRange(x: real, width: nat)
    ensures -1.0 <= x <= 1.0 ==> 0.0 <= ScreenX(x, width) <= width as real
    ensures x == -1.0 ==> ScreenX(x, width) == 0.0
    ensures x == 1.0 ==> ScreenX(x, width) == width as real
  {
    var t := (x + 1.0) / 2.0;
    ScaleUnit(t, width as real);
    if x == -1.0 {
      assert t == 0.0;
    } else if x == 1.0 {
      assert t == 1.0;
    }
  }

  lemma ScreenYRange(y: real, height: nat)
    ensures -1.0 <= y <= 1.0 ==> 0.0 <= ScreenY(y, height) <= height as real
    ensures y == 1.0 ==> ScreenY(y, height) == 0.0
    ensures y == -1.0 ==> ScreenY(y, height) == height as real
  {
    var t := (1.0 - y) / 2.0;
    ScaleUnit(t, height as real);
    if y == 1.0 {
      assert t == 0.0;
    } else if y == -1.0 {
      assert t == 1.0;
    }
  }

  /** A fraction in `[0, 1]` of a non-negative extent stays within it, with
      the ends of the range going to the ends of the extent. */
  lemma ScaleUnit(t: real, extent: real)
    requires 0.0 <= extent
    ensures 0.0 <= t <= 1.0 ==> 0.0 <= t * extent <= extent
    ensures t == 0.0 ==> t * extent == 0.0
    ensures t == 1.0 ==> t * extent == extent
  {
    assert extent - t * extent == (1.0 - t) * extent;
  }

  lemma CancelScale(x: real, k: real)
    requires k != 0.0
    ensures x * k / k == x && x / k * k == x
  {
  }

  /** The inverse mapping, screen space back to NDC. */
  function ToNdc(s: Vec4, width: nat, height: nat): Vec4
    requires width > 0 && height > 0
  {
    Vec4(s.x / width as real * 2.0 - 1.0, 1.0 - s.y / height as real * 2.0, s.z, s.w)
  }

  /** The screen mapping loses nothing: it is a bijection with `ToNdc` as its
      inverse whenever the screen has a size. */
  lemma ScreenMappingRoundTrip(p: Vec4, s: Vec4, width: nat, height: nat)
    requires width > 0 && height > 0
    ensures ToNdc(ToScreen(p, width, height), width, height) == p
    ensures ToScreen(ToNdc(s, width, height), width, height) == s
  {
    BackToNdc(p, width, height);
    BackToScreen(s, width, height);
  }

  lemma BackToNdc(p: Vec4, width: nat, height: nat)
    requires width > 0 && height > 0
    ensures ToNdc(ToScreen(p, width, height), width, height) == p
  {
    var w := width as real;
    var h := height as real;
    CancelScale((p.x + 1.0) / 2.0, w);
    CancelScale((1.0 - p.y) / 2.0, h);
  }

  lemma BackToScreen(s: Vec4, width: nat, height: nat)
    requires width > 0 && height > 0
    ensures ToScreen(ToNdc(s, width, height), width, height) == s
  {
    var w := width as real;
    var h := height as real;
    var n := ToNdc(s, width, height);
    CancelScale(s.x, w);
    CancelScale(s.y, h);
    assert (n.x + 1.0) / 2.0 == s.x / w;
    assert (1.0 - n.y) / 2.0 == s.y / h;
  }

  /** Moving right in NDC moves right on screen; moving up in NDC moves up the
      screen, that is to a smaller row. */
  lemma ScreenMappingOrientation(p: Vec4, q: Vec4, width: nat, height: nat)
    requires width > 0 && height > 0
    ensures p.x < q.x ==> ToScreen(p, width, height).x < ToScreen(q, width, height).x
    ensures p.y < q.y ==> ToScreen(p, width, height).y > ToScreen(q, width, height).y
  {
    var w := width as real;
    var h := height as real;
    var sp, sq := ToScreen(p, width, height), ToScreen(q, width, height);
    var dx, dy := (q.x - p.x) / 2.0, (q.y - p.y) / 2.0;
    assert sq.x - sp.x == dx * w;
    assert sp.y - sq.y == dy * h;
    if p.x < q.x {
      PositiveProduct(dx, w);
    }
    if p.y < q.y {
      PositiveProduct(dy, h);
    }
  }

  /** The clamped box the pixel loops run over. The names are the source's:
      `topLeftY` is the largest screen y and `bottomRightY` the smallest. */
  datatype BoundingBox = BoundingBox(topLeftX: real, topLeftY: real, bottomRightX: real, bottomRightY: real)

  function Min3(a: real, b: real, c: real): real {
    Min(a, Min(b, c))
  }

  function Max3(a: real, b: real, c: real): real {
    Max(a, Max(b, c))
  }

  /** The box of three screen-space points, each side clamped to the screen. */
  function BoundingBoxOf(a: Vec2, b: Vec2, c: Vec2, width: nat, height: nat): (bb: BoundingBox)
    ensures 0.0 <= bb.topLeftX <= bb.bottomRightX <= width as real
    ensures 0.0 <= bb.bottomRightY <= bb.topLeftY <= height as real
    ensures bb.topLeftX <= Max(0.0, Min3(a.x, b.x, c.x))
    ensures bb.bottomRightX >= Min(width as real, Max3(a.x, b.x, c.x))
    ensures bb.bottomRightY <= Max(0.0, Min3(a.y, b.y, c.y))
    ensures bb.topLeftY >= Min(height as real, Max3(a.y, b.y, c.y))
  {
    BoundingBox(
      Clamp(Min3(a.x, b.x, c.x), 0.0, width as real),
      Clamp(Max3(a.y, b.y, c.y), 0.0, height as real),
      Clamp(Max3(a.x, b.x, c.x), 0.0, width as real),
      Clamp(Min3(a.y, b.y, c.y), 0.0, height as real))
  }

  /** The pixels the two nested loops visit: columns from `int(topLeftX)`
      while below `bottomRightX`, rows from `int(bottomRightY)` while below
      `topLeftY`. The clamped sides are non-negative, so the source's
      truncating `int(...)` is the floor. */
  predicate Visits(bb: BoundingBox, px: int, py: int) {
    bb.topLeftX.Floor <= px && (px as real) < bb.bottomRightX &&
    bb.bottomRightY.Floor <= py && (py as real) < bb.topLeftY
  }

  /** The flat buffer position `px + py * width` of both buffers. */
  function PixelIndex(px: int, py: int, width: int): int {
    px + py * width
  }

  /** Every pixel of the screen has a distinct position inside a buffer of
      `width * height` entries. */
  lemma PixelIndexInRange(px: int, py: int, width: nat, height: nat)
    requires 0 <= px < width && 0 <= py < height
    ensures 0 <= PixelIndex(px, py, width) < width * height
  {
    assert py * width <= (height - 1) * width by {
      MultiplyMonotone(py, height - 1, width);
    }
  }

  lemma MultiplyMonotone(a: int, b: int, c: nat)
    requires a <= b
    ensures a * c <= b * c
  {
  }

  /** Every pixel the loops visit lies on the screen, so each write goes to a
      position inside the buffers. */
  lemma VisitedPixelsOnScreen(a: Vec2, b: Vec2, c: Vec2, width: nat, height: nat, px: int, py: int)
    requires Visits(BoundingBoxOf(a, b, c, width, height), px, py)
    ensures 0 <= px < width && 0 <= py < height
    ensures 0 <= PixelIndex(px, py, width) < width * height
  {
    var bb := BoundingBoxOf(a, b, c, width, height);
    assert 0 <= bb.topLeftX.Floor;
    assert 0 <= bb.bottomRightY.Floor;
    PixelIndexInRange(px, py, width, height);
  }

  /** The box never misses a pixel of the screen whose centre lies within the
      extent of the three points. */
  lemma CentresInExtentAreVisited(a: Vec2, b: Vec2, c: Vec2, width: nat, height: nat, px: int, py: int)
    requires 0 <= px < width && 0 <= py < height
    requires Min3(a.x, b.x, c.x) <= px as real + 0.5 <= Max3(a.x, b.x, c.x)
    requires Min3(a.y, b.y, c.y) <= py as real + 0.5 <= Max3(a.y, b.y, c.y)
    ensures Visits(BoundingBoxOf(a, b, c, width, height), px, py)
  {
    var bb := BoundingBoxOf(a, b, c, width, height);
    assert bb.topLeftX <= px as real + 0.5;
    assert bb.bottomRightY <= py as real + 0.5;
    FloorBelowCentre(bb.topLeftX, px);
    FloorBelowCentre(bb.bottomRightY, py);
  }

  lemma FloorBelowCentre(lo: real, p: int)
    requires lo <= p as real + 0.5
    ensures lo.Floor <= p
  {
    assert (lo.Floor as real) <= lo;
  }

  /** Decoding a flat position gives back the pixel it was computed from. */
  lemma PixelIndexDecodes(px: int, py: int, width: int)
    requires 0 <= px < width && 0 <= py
    ensures PixelIndex(px, py, width) % width == px
    ensures PixelIndex(px, py, width) / width == py
  {
    var p := px + py * width;
    var q, r := p / width, p % width;
    assert p == q * width + r;
    assert (q - py) * width == px - r;
    SmallMultipleIsZero(q - py, width);
  }

  /** The only multiple of `w` strictly between `-w` and `w` is zero. */
  lemma SmallMultipleIsZero(d: int, w: int)
    requires w > 0 && -w < d * w < w
    ensures d == 0
  {
    if d >= 1 {
      MultiplyMonotone(1, d, w);
    } else if d <= -1 {
      MultiplyMonotone(d, -1, w);
    }
  }

  /** Every position of a buffer is the index of exactly one pixel. */
  lemma PositionIsPixelIndex(p: nat, width: nat)
    requires width > 0
    ensures 0 <= p % width < width
    ensures PixelIndex(p % width, p / width, width) == p
  {
  }
}
