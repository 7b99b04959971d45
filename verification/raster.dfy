/** The per-triangle pixel loop of `Renderer::RenderRasterizer`: for every
    pixel of the clamped bounding box, the bounding-box visualisation, the
    coverage test, the depth test and write, the culling decision and the
    colour write. */
module Raster {
  import opened Geometry
  import opened Mesh
  import opened EdgeFunctions
  import opened Interpolation
  import opened Screen
  import opened Culling
  import opened Shading
  import opened DepthBuffer

  /** The depth buffer and the back buffer, one entry per pixel, row by
      row. The back buffer holds `MaxToOne`'s colour, before the source
      converts each channel with `static_cast<uint8_t>(c * 255)`. */
  datatype Buffers = Buffers(depth: seq<real>, color: seq<Color>)

  predicate Sized(b: Buffers, width: nat, height: nat) {
    |b.depth| == width * height && |b.color| == width * height
  }

  /** What one pixel holds across both buffers. */
  datatype Cell = Cell(depth: real, color: Color)

  /** Everything the pixel loop reads besides the triangle: the renderer's
      switches, the shading inputs, the camera position, and the math
      library's `Normalized` and `ColorRGB::MaxToOne`, which are not part of
      this model. */
  datatype PixelEnv = PixelEnv(
    boundingBoxVisualization: bool,
    depthBufferVisualization: bool,
    cullMode: CullMode,
    shading: ShadingContext,
    normalized: Vec3 -> Vec3,
    cameraOrigin: Vec3,
    maxToOne: Color -> Color)

  predicate ValidEnv(env: PixelEnv) {
    env.shading.pi != 0.0
  }

  /** A triangle after screen mapping: x and y in pixels, z in NDC and the
      clip-space w. */
  datatype ScreenTriangle = ScreenTriangle(a: VertexOut, b: VertexOut, c: VertexOut)

  /** Every vertex lies strictly in front of the near plane and has a
      positive w, so the reciprocals the interpolation takes exist. */
  predicate Interpolable(t: ScreenTriangle) {
    t.a.position.z > 0.0 && t.b.position.z > 0.0 && t.c.position.z > 0.0 &&
    t.a.position.w > 0.0 && t.b.position.w > 0.0 && t.c.position.w > 0.0
  }

  /** The centre of pixel `(px, py)`. */
  function PixelCentre(px: int, py: int): Vec2 {
    Vec2(px as real + 0.5, py as real + 0.5)
  }

  function EdgesAt(t: ScreenTriangle, px: int, py: int): EdgeValues {
    Edges(XY(t.a.position), XY(t.b.position), XY(t.c.position), PixelCentre(px, py))
  }

  /** The pixel's centre is covered (with the zero-area guard). */
  predicate CoveredAt(t: ScreenTriangle, px: int, py: int) {
    Covers(EdgesAt(t, px, py))
  }

  function WeightsAt(t: ScreenTriangle, px: int, py: int): (w: Weights)
    requires CoveredAt(t, px, py)
    ensures Convex(w)
  {
    EdgesSplitArea(XY(t.a.position), XY(t.b.position), XY(t.c.position), PixelCentre(px, py));
    BarycentricWeights(EdgesAt(t, px, py))
  }

  /** `bufferValueZ`, the depth of the pixel's fragment. */
  function DepthAt(t: ScreenTriangle, px: int, py: int): real
    requires Interpolable(t) && CoveredAt(t, px, py)
  {
    HarmonicBlend(t.a.position.z, t.b.position.z, t.c.position.z, WeightsAt(t, px, py))
  }

  /** `v / s` for a vector. */
  function Div3(v: Vec3, s: real): Vec3
    requires s != 0.0
  {
    Vec3(v.x / s, v.y / s, v.z / s)
  }

  function Blend3(a: Vec3, b: Vec3, c: Vec3, w: Weights): Vec3 {
    Add3(Add3(Scale3(a, w.wa), Scale3(b, w.wb)), Scale3(c, w.wc))
  }

  /** The shading vertex handed to `PixelShading`: perspective-correct uv,
      and normal, tangent and view direction each renormalised. Position
      and colour stay at their defaults. */
  function ShadingVertex(t: ScreenTriangle, w: Weights, env: PixelEnv): VertexOut
    requires Interpolable(t) && Convex(w)
  {
    var pa, pb, pc := t.a.position.w, t.b.position.w, t.c.position.w;
    VertexOut(
      Vec4(0.0, 0.0, 0.0, 0.0),
      Black,
      CorrectedBlend2(t.a.uv, t.b.uv, t.c.uv, pa, pb, pc, w),
      env.normalized(CorrectedBlend3(t.a.normal, t.b.normal, t.c.normal, pa, pb, pc, w)),
      env.normalized(CorrectedBlend3(t.a.tangent, t.b.tangent, t.c.tangent, pa, pb, pc, w)),
      env.normalized(CorrectedBlend3(t.a.viewDirection, t.b.viewDirection, t.c.viewDirection, pa, pb, pc, w)))
  }

  /** The value the cull tests look at: the dot of the interpolated normal
      with the normalised direction from the camera to `interpolatedPos`.
      That position blends the screen-space x, y and NDC z of the vertices,
      each divided by its w, and is not scaled back by the interpolated w. */
  function FacingAt(t: ScreenTriangle, w: Weights, env: PixelEnv): real
    requires Interpolable(t) && Convex(w)
  {
    var a3 := Vec3(t.a.position.x, t.a.position.y, t.a.position.z);
    var b3 := Vec3(t.b.position.x, t.b.position.y, t.b.position.z);
    var c3 := Vec3(t.c.position.x, t.c.position.y, t.c.position.z);
    var position := Blend3(Div3(a3, t.a.position.w), Div3(b3, t.b.position.w), Div3(c3, t.c.position.w), w);
    var normal := ShadingVertex(t, w, env).normal;
    Dot3(normal, env.normalized(Sub3(position, env.cameraOrigin)))
  }

  const DepthColorMin: real := 0.995
  const DepthColorMax: real := 1.0

  /** The depth visualisation's grey level: depths in `[0.995, 1]` stretched
      to `[0, 1]`, everything nearer black and everything farther white. */
  function DepthGray(z: real): (g: real)
    ensures InUnitInterval(g)
    ensures z <= DepthColorMin ==> g == 0.0
    ensures z >= DepthColorMax ==> g == 1.0
  {
    var clamped := Clamp(z, DepthColorMin, DepthColorMax);
    (clamped - DepthColorMin) * (1.0 / (DepthColorMax - DepthColorMin))
  }

  /** Nearer fragments are never shown brighter than farther ones. */
  lemma DepthGrayMonotone(z1: real, z2: real)
    requires z1 <= z2
    ensures DepthGray(z1) <= DepthGray(z2)
  {
    var c1, c2 := Clamp(z1, DepthColorMin, DepthColorMax), Clamp(z2, DepthColorMin, DepthColorMax);
    assert c1 <= c2;
    assert DepthGray(z2) - DepthGray(z1) == (c2 - c1) * 200.0;
  }

  /** The colour a fragment that survives culling writes. */
  function FragmentColor(t: ScreenTriangle, w: Weights, z: real, env: PixelEnv): Color
    requires Interpolable(t) && Convex(w) && ValidEnv(env)
  {
    var finalColor :=
      if env.depthBufferVisualization then Gray(DepthGray(z))
      else PixelShading(ShadingVertex(t, w, env), env.shading);
    env.maxToOne(finalColor)
  }

  /** One iteration of the inner loop, on the pixel's own cell. */
  function StepCell(cell: Cell, t: ScreenTriangle, px: int, py: int, env: PixelEnv): (r: Cell)
    requires Interpolable(t) && ValidEnv(env)
    ensures env.boundingBoxVisualization ==> r == Cell(cell.depth, White)
    ensures !env.boundingBoxVisualization && !CoveredAt(t, px, py) ==> r == cell
    ensures !env.boundingBoxVisualization && CoveredAt(t, px, py) ==>
      r.depth == Min(DepthAt(t, px, py), cell.depth) &&
      (DepthAt(t, px, py) > cell.depth ==> r == cell)
    ensures (!env.boundingBoxVisualization && CoveredAt(t, px, py) && DepthAt(t, px, py) <= cell.depth &&
             !Keeps(FacingAt(t, WeightsAt(t, px, py), env), env.cullMode)) ==> r.color == cell.color
    ensures (!env.boundingBoxVisualization && CoveredAt(t, px, py) && DepthAt(t, px, py) <= cell.depth &&
             Keeps(FacingAt(t, WeightsAt(t, px, py), env), env.cullMode)) ==>
      r == Cell(DepthAt(t, px, py), FragmentColor(t, WeightsAt(t, px, py), DepthAt(t, px, py), env))
  {
    if env.boundingBoxVisualization then Cell(cell.depth, White)
    else if !CoveredAt(t, px, py) then cell
    else
      var z := DepthAt(t, px, py);
      if !Passes(cell.depth, z) then cell
      else
        var w := WeightsAt(t, px, py);
        if !Keeps(FacingAt(t, w, env), env.cullMode) then Cell(z, cell.color)
        else Cell(z, FragmentColor(t, w, z, env))
  }

  /** A second visit of the same pixel by the same triangle changes nothing:
      the stored depth now equals the fragment's, which passes the
      less-or-equal test and rewrites the same values. */
  lemma StepCellIdempotent(cell: Cell, t: ScreenTriangle, px: int, py: int, env: PixelEnv)
    requires Interpolable(t) && ValidEnv(env)
    ensures StepCell(StepCell(cell, t, px, py, env), t, px, py, env) == StepCell(cell, t, px, py, env)
  {
  }

  /** A pixel that passes the depth test but is culled has had its depth
      written before the cull test: its depth changes, its colour does not. */
  lemma CulledPixelKeepsColorNotDepth(cell: Cell, t: ScreenTriangle, px: int, py: int, env: PixelEnv)
    requires Interpolable(t) && ValidEnv(env) && !env.boundingBoxVisualization
    requires CoveredAt(t, px, py) && DepthAt(t, px, py) < cell.depth
    requires !Keeps(FacingAt(t, WeightsAt(t, px, py), env), env.cullMode)
    ensures StepCell(cell, t, px, py, env).depth != cell.depth
    ensures StepCell(cell, t, px, py, env).color == cell.color
  {
  }

  /** In the depth visualisation a kept fragment is shown as its grey, passed
      through `MaxToOne`. */
  lemma DepthVisualizationShowsDepth(cell: Cell, t: ScreenTriangle, px: int, py: int, env: PixelEnv)
    requires Interpolable(t) && ValidEnv(env) && !env.boundingBoxVisualization && env.depthBufferVisualization
    requires CoveredAt(t, px, py) && DepthAt(t, px, py) <= cell.depth
    requires Keeps(FacingAt(t, WeightsAt(t, px, py), env), env.cullMode)
    ensures StepCell(cell, t, px, py, env) == Cell(DepthAt(t, px, py), env.maxToOne(Gray(DepthGray(DepthAt(t, px, py)))))
  {
  }

  /** In the shading view a kept fragment whose shading normal faces away
      from the light is written black, passed through `MaxToOne`, in every
      light mode. */
  lemma BackLitFragmentIsBlack(cell: Cell, t: ScreenTriangle, px: int, py: int, env: PixelEnv)
    requires Interpolable(t) && ValidEnv(env) && !env.boundingBoxVisualization && !env.depthBufferVisualization
    requires CoveredAt(t, px, py) && DepthAt(t, px, py) <= cell.depth
    requires Keeps(FacingAt(t, WeightsAt(t, px, py), env), env.cullMode)
    requires ObservedAreaOf(ShadingVertex(t, WeightsAt(t, px, py), env), env.shading) < 0.0
    ensures StepCell(cell, t, px, py, env) == Cell(DepthAt(t, px, py), env.maxToOne(Black))
  {
  }

  /** The pixel's cell in both buffers. */
  function CellAt(b: Buffers, i: nat): Cell
    requires i < |b.depth| && i < |b.color|
  {
    Cell(b.depth[i], b.color[i])
  }

  /** One inner-loop iteration on the buffers: only position
      `px + py * width` is read and written. */
  function PixelStep(b: Buffers, t: ScreenTriangle, px: nat, py: nat, width: nat, height: nat, env: PixelEnv): (r: Buffers)
    requires Sized(b, width, height) && px < width && py < height
    requires Interpolable(t) && ValidEnv(env)
    ensures Sized(r, width, height)
    ensures PixelIndex(px, py, width) < width * height
  {
    PixelIndexInRange(px, py, width, height);
    var i := PixelIndex(px, py, width);
    var cell := StepCell(CellAt(b, i), t, px, py, env);
    Buffers(b.depth[i := cell.depth], b.color[i := cell.color])
  }

  /** The depth half of one inner-loop iteration is the depth buffer's own
      less-or-equal test at the pixel's position: outside the bounding-box
      visualisation a covered pixel offers its fragment depth, and nothing
      else touches the depth buffer. */
  lemma PixelStepDepthIsDepthTest(b: Buffers, t: ScreenTriangle, px: nat, py: nat, width: nat, height: nat, env: PixelEnv)
    requires Sized(b, width, height) && px < width && py < height
    requires Interpolable(t) && ValidEnv(env)
    ensures PixelIndex(px, py, width) < |b.depth|
    ensures var r := PixelStep(b, t, px, py, width, height, env);
      r.depth == if !env.boundingBoxVisualization && CoveredAt(t, px, py)
                 then DepthTest(b.depth, PixelIndex(px, py, width), DepthAt(t, px, py))
                 else b.depth
  {
    PixelIndexInRange(px, py, width, height);
    var i := PixelIndex(px, py, width);
    var r := PixelStep(b, t, px, py, width, height, env);
    if !env.boundingBoxVisualization && CoveredAt(t, px, py) {
      var d := DepthTest(b.depth, i, DepthAt(t, px, py));
      assert forall j :: 0 <= j < |b.depth| ==> r.depth[j] == d[j];
    } else {
      assert b.depth[i := b.depth[i]] == b.depth;
    }
  }

  /** The clamped box lies on the screen. */
  predicate BoxOnScreen(bb: BoundingBox, width: nat, height: nat) {
    0.0 <= bb.topLeftX <= bb.bottomRightX <= width as real &&
    0.0 <= bb.bottomRightY <= bb.topLeftY <= height as real
  }

  /** The inner loop: rows from `py` on while below `topLeftY`. */
  function ScanColumn(b: Buffers, t: ScreenTriangle, px: nat, py: nat, bb: BoundingBox,
                      width: nat, height: nat, env: PixelEnv): (r: Buffers)
    requires Sized(b, width, height) && px < width && BoxOnScreen(bb, width, height)
    requires Interpolable(t) && ValidEnv(env)
    ensures Sized(r, width, height)
    decreases height - py
  {
    if (py as real) < bb.topLeftY then
      ScanColumn(PixelStep(b, t, px, py, width, height, env), t, px, py + 1, bb, width, height, env)
    else b
  }

  /** The outer loop: columns from `px` on while below `bottomRightX`, each
      scanned from row `int(bottomRightY)`. */
  function ScanBox(b: Buffers, t: ScreenTriangle, px: nat, bb: BoundingBox,
                   width: nat, height: nat, env: PixelEnv): (r: Buffers)
    requires Sized(b, width, height) && BoxOnScreen(bb, width, height)
    requires Interpolable(t) && ValidEnv(env)
    ensures Sized(r, width, height)
    decreases width - px
  {
    if (px as real) < bb.bottomRightX then
      ScanBox(ScanColumn(b, t, px, bb.bottomRightY.Floor, bb, width, height, env), t, px + 1, bb, width, height, env)
    else b
  }

  /** The two nested pixel loops over one triangle's box. */
  method RasterizeTriangle(b: Buffers, t: ScreenTriangle, bb: BoundingBox, width: nat, height: nat, env: PixelEnv)
    returns (r: Buffers)
    requires Sized(b, width, height) && BoxOnScreen(bb, width, height)
    requires Interpolable(t) && ValidEnv(env)
    ensures Sized(r, width, height)
    ensures r == ScanBox(b, t, bb.topLeftX.Floor, bb, width, height, env)
  {
    r := b;
    var px: nat := bb.topLeftX.Floor;
    while (px as real) < bb.bottomRightX
      invariant Sized(r, width, height)
      invariant ScanBox(r, t, px, bb, width, height, env) == ScanBox(b, t, bb.topLeftX.Floor, bb, width, height, env)
      decreases width - px
    {
      ScanBoxStep(r, t, px, bb, width, height, env);
      r := RasterizeColumn(r, t, px, bb, width, height, env);
      px := px + 1;
    }
    ScanBoxDone(r, t, px, bb, width, height, env);
  }

  /** The outer loop stops at the first column not below `bottomRightX`. */
  lemma ScanBoxDone(b: Buffers, t: ScreenTriangle, px: nat, bb: BoundingBox, width: nat, height: nat, env: PixelEnv)
    requires Sized(b, width, height) && BoxOnScreen(bb, width, height)
    requires Interpolable(t) && ValidEnv(env) && !((px as real) < bb.bottomRightX)
    ensures ScanBox(b, t, px, bb, width, height, env) == b
  {
  }

  /** One iteration of the outer loop scans column `px` and moves on. */
  lemma ScanBoxStep(b: Buffers, t: ScreenTriangle, px: nat, bb: BoundingBox, width: nat, height: nat, env: PixelEnv)
    requires Sized(b, width, height) && BoxOnScreen(bb, width, height)
    requires Interpolable(t) && ValidEnv(env) && (px as real) < bb.bottomRightX
    ensures px < width
    ensures ScanBox(b, t, px, bb, width, height, env) ==
      ScanBox(ScanColumn(b, t, px, bb.bottomRightY.Floor, bb, width, height, env), t, px + 1, bb, width, height, env)
  {
  }

  /** The inner loop: the rows of column `px` inside the box. */
  method RasterizeColumn(b: Buffers, t: ScreenTriangle, px: nat, bb: BoundingBox, width: nat, height: nat, env: PixelEnv)
    returns (r: Buffers)
    requires Sized(b, width, height) && px < width && BoxOnScreen(bb, width, height)
    requires Interpolable(t) && ValidEnv(env)
    ensures Sized(r, width, height)
    ensures r == ScanColumn(b, t, px, bb.bottomRightY.Floor, bb, width, height, env)
  {
    r := b;
    var py: nat := bb.bottomRightY.Floor;
    while (py as real) < bb.topLeftY
      invariant Sized(r, width, height)
      invariant ScanColumn(r, t, px, py, bb, width, height, env) ==
        ScanColumn(b, t, px, bb.bottomRightY.Floor, bb, width, height, env)
      decreases height - py
    {
      r := PixelStep(r, t, px, py, width, height, env);
      py := py + 1;
    }
  }

  /** Two on-screen pixels share a buffer position only if they are the same
      pixel. */
  lemma PixelIndexInjective(px: nat, py: nat, qx: nat, qy: nat, width: nat)
    requires px < width && qx < width
    requires PixelIndex(px, py, width) == PixelIndex(qx, qy, width)
    ensures px == qx && py == qy
  {
    PixelIndexDecodes(px, py, width);
    PixelIndexDecodes(qx, qy, width);
  }

  /** What the inner loop leaves at pixel `(qx, qy)`: the effect of one step
      on the original cell for the column's rows from `py` on, the original
      cell for every other pixel. */
  lemma {:induction false} ScanColumnCell(b: Buffers, t: ScreenTriangle, px: nat, py: nat, bb: BoundingBox,
                                          width: nat, height: nat, env: PixelEnv, qx: nat, qy: nat)
    requires Sized(b, width, height) && px < width && BoxOnScreen(bb, width, height)
    requires Interpolable(t) && ValidEnv(env)
    requires qx < width && qy < height
    ensures PixelIndex(qx, qy, width) < width * height
    ensures var i := PixelIndex(qx, qy, width);
      CellAt(ScanColumn(b, t, px, py, bb, width, height, env), i) ==
        if qx == px && py <= qy && (qy as real) < bb.topLeftY then StepCell(CellAt(b, i), t, qx, qy, env)
        else CellAt(b, i)
    decreases height - py
  {
    PixelIndexInRange(qx, qy, width, height);
    var i := PixelIndex(qx, qy, width);
    if (py as real) < bb.topLeftY {
      assert py < height;
      var next := PixelStep(b, t, px, py, width, height, env);
      ScanColumnCell(next, t, px, py + 1, bb, width, height, env, qx, qy);
      if qx == px && qy == py {
        ScanColumnCell(next, t, px, py + 1, bb, width, height, env, qx, qy);
      } else {
        if PixelIndex(px, py, width) == i {
          PixelIndexInjective(px, py, qx, qy, width);
        }
        assert CellAt(next, i) == CellAt(b, i);
      }
    }
  }

  /** What the pixel loops leave at pixel `(qx, qy)`: every pixel of the box
      from column `px` on gets exactly one step applied to its original cell,
      and every other pixel keeps its cell. */
  lemma {:induction false} ScanBoxCell(b: Buffers, t: ScreenTriangle, px: nat, bb: BoundingBox,
                                       width: nat, height: nat, env: PixelEnv, qx: nat, qy: nat)
    requires Sized(b, width, height) && BoxOnScreen(bb, width, height)
    requires Interpolable(t) && ValidEnv(env)
    requires bb.topLeftX.Floor <= px && qx < width && qy < height
    ensures PixelIndex(qx, qy, width) < width * height
    ensures var i := PixelIndex(qx, qy, width);
      CellAt(ScanBox(b, t, px, bb, width, height, env), i) ==
        if px <= qx && Visits(bb, qx, qy) then StepCell(CellAt(b, i), t, qx, qy, env)
        else CellAt(b, i)
    decreases width - px
  {
    PixelIndexInRange(qx, qy, width, height);
    var i := PixelIndex(qx, qy, width);
    if (px as real) < bb.bottomRightX {
      assert px < width;
      var next := ScanColumn(b, t, px, bb.bottomRightY.Floor, bb, width, height, env);
      ScanColumnCell(b, t, px, bb.bottomRightY.Floor, bb, width, height, env, qx, qy);
      ScanBoxCell(next, t, px + 1, bb, width, height, env, qx, qy);
    } else {
      assert !(px <= qx && Visits(bb, qx, qy));
    }
  }

  /** The whole triangle: every pixel the loops visit gets one step, every
      other pixel keeps its depth and colour. */
  lemma TriangleActsOncePerPixel(b: Buffers, t: ScreenTriangle, bb: BoundingBox,
                                 width: nat, height: nat, env: PixelEnv, qx: nat, qy: nat)
    requires Sized(b, width, height) && BoxOnScreen(bb, width, height)
    requires Interpolable(t) && ValidEnv(env)
    requires qx < width && qy < height
    ensures PixelIndex(qx, qy, width) < width * height
    ensures var i := PixelIndex(qx, qy, width);
      CellAt(ScanBox(b, t, bb.topLeftX.Floor, bb, width, height, env), i) ==
        if Visits(bb, qx, qy) then StepCell(CellAt(b, i), t, qx, qy, env) else CellAt(b, i)
  {
    ScanBoxCell(b, t, bb.topLeftX.Floor, bb, width, height, env, qx, qy);
  }

  /** Rasterizing the same triangle twice leaves the buffers as rasterizing
      it once. */
  lemma RasterizeTwiceIsOnce(b: Buffers, t: ScreenTriangle, bb: BoundingBox,
                             width: nat, height: nat, env: PixelEnv)
    requires Sized(b, width, height) && BoxOnScreen(bb, width, height)
    requires Interpolable(t) && ValidEnv(env)
    ensures var once := ScanBox(b, t, bb.topLeftX.Floor, bb, width, height, env);
      ScanBox(once, t, bb.topLeftX.Floor, bb, width, height, env) == once
  {
    var x0 := bb.topLeftX.Floor;
    var once := ScanBox(b, t, x0, bb, width, height, env);
    var twice := ScanBox(once, t, x0, bb, width, height, env);
    forall i | 0 <= i < width * height
      ensures CellAt(twice, i) == CellAt(once, i)
    {
      RasterizeTwiceAt(b, t, bb, width, height, env, i);
    }
    assert twice.depth == once.depth by {
      assert forall i :: 0 <= i < width * height ==> twice.depth[i] == CellAt(twice, i).depth;
    }
    assert twice.color == once.color by {
      assert forall i :: 0 <= i < width * height ==> twice.color[i] == CellAt(twice, i).color;
    }
  }

  /** The on-screen pixel stored at buffer position `i`. */
  lemma PixelAt(i: nat, width: nat, height: nat) returns (px: nat, py: nat)
    requires i < width * height
    ensures px < width && py < height && PixelIndex(px, py, width) == i
    ensures px == i % width && py == i / width
  {
    PositionIsPixelIndex(i, width);
    px, py := i % width, i / width;
    if py >= height {
      MultiplyMonotone(height, py, width);
    }
  }

  /** One buffer position of `RasterizeTwiceIsOnce`. */
  lemma RasterizeTwiceAt(b: Buffers, t: ScreenTriangle, bb: BoundingBox,
                         width: nat, height: nat, env: PixelEnv, i: nat)
    requires Sized(b, width, height) && BoxOnScreen(bb, width, height)
    requires Interpolable(t) && ValidEnv(env) && i < width * height
    ensures var once := ScanBox(b, t, bb.topLeftX.Floor, bb, width, height, env);
      CellAt(ScanBox(once, t, bb.topLeftX.Floor, bb, width, height, env), i) == CellAt(once, i)
  {
    var once := ScanBox(b, t, bb.topLeftX.Floor, bb, width, height, env);
    var qx, qy := PixelAt(i, width, height);
    TriangleActsOncePerPixel(b, t, bb, width, height, env, qx, qy);
    TriangleActsOncePerPixel(once, t, bb, width, height, env, qx, qy);
    if Visits(bb, qx, qy) {
      StepCellIdempotent(CellAt(b, i), t, qx, qy, env);
    }
  }

  /** In the bounding-box visualisation every pixel the loops visit turns
      white with its depth untouched, covered or not. */
  lemma BoundingBoxModePaintsBox(b: Buffers, t: ScreenTriangle, bb: BoundingBox,
                                 width: nat, height: nat, env: PixelEnv, qx: nat, qy: nat)
    requires Sized(b, width, height) && BoxOnScreen(bb, width, height)
    requires Interpolable(t) && ValidEnv(env) && env.boundingBoxVisualization
    requires qx < width && qy < height && Visits(bb, qx, qy)
    ensures PixelIndex(qx, qy, width) < width * height
    ensures var r := ScanBox(b, t, bb.topLeftX.Floor, bb, width, height, env);
      var i := PixelIndex(qx, qy, width);
      r.color[i] == White && r.depth[i] == b.depth[i]
  {
    TriangleActsOncePerPixel(b, t, bb, width, height, env, qx, qy);
  }

  /** Outside the bounding-box visualisation the stored depth of every pixel
      becomes the smaller of its old value and the triangle's fragment depth
      where the triangle covers the pixel centre, and stays as it was
      everywhere else, including covered pixels that are culled. */
  lemma DepthAfterTriangle(b: Buffers, a: Vec2, bv: Vec2, c: Vec2, t: ScreenTriangle,
                           width: nat, height: nat, env: PixelEnv, qx: nat, qy: nat)
    requires XY(t.a.position) == a && XY(t.b.position) == bv && XY(t.c.position) == c
    requires Sized(b, width, height)
    requires Interpolable(t) && ValidEnv(env) && !env.boundingBoxVisualization
    requires qx < width && qy < height
    ensures PixelIndex(qx, qy, width) < width * height
    ensures BoxOnScreen(BoundingBoxOf(a, bv, c, width, height), width, height)
    ensures var bb := BoundingBoxOf(a, bv, c, width, height);
      var r := ScanBox(b, t, bb.topLeftX.Floor, bb, width, height, env);
      var i := PixelIndex(qx, qy, width);
      r.depth[i] == if CoveredAt(t, qx, qy) then Min(DepthAt(t, qx, qy), b.depth[i]) else b.depth[i]
  {
    var bb := BoundingBoxOf(a, bv, c, width, height);
    TriangleActsOncePerPixel(b, t, bb, width, height, env, qx, qy);
    if CoveredAt(t, qx, qy) {
      var p := PixelCentre(qx, qy);
      CoveredPointInExtent(a, bv, c, p);
      CentresInExtentAreVisited(a, bv, c, width, height, qx, qy);
    }
  }
}
