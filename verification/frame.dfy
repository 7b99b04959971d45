/** One frame of `Renderer::RenderRasterizer`: clear both buffers, transform
    every mesh's vertices, and draw every assembled triangle that survives
    the coarse rejection. */
module Frame {
  import opened Geometry
  import opened Mesh
  import opened VertexTransform
  import opened Assembly
  import opened Rejection
  import opened Screen
  import opened EdgeFunctions
  import opened Interpolation
  import opened DepthBuffer
  import opened Raster

  /** The software clear colour: a mid grey, or a dark grey with the uniform
      clear colour switched on. */
  function ClearColor(uniformClearColor: bool): (c: Color)
    ensures c.r == c.g == c.b && UnitColor(c)
  {
    if uniformClearColor then Gray(0.1) else Gray(0.39)
  }

  /** The `(uint32_t)` conversion of a channel scaled to `[0, 255]`:
      truncation toward zero. */
  function ChannelByte(x: real): bv8
    requires InUnitInterval(x)
  {
    FloorInByteRange(x * 255.0);
    (x * 255.0).Floor as bv8
  }

  lemma FloorInByteRange(y: real)
    requires 0.0 <= y <= 255.0
    ensures 0 <= y.Floor <= 255
  {
  }

  /** The word passed to `SDL_FillRect`: opaque alpha in the top byte, then
      green, blue and red in that order down to the lowest byte. */
  function PackAsWritten(r: bv8, g: bv8, b: bv8): (word: bv32)
    ensures word >> 24 == 0xFF
    ensures (word >> 16) & 0xFF == g as bv32 && (word >> 8) & 0xFF == b as bv32 && word & 0xFF == r as bv32
  {
    0xFF00_0000 | ((b as bv32) << 8) | ((g as bv32) << 16) | (r as bv32)
  }

  /** The usual ARGB layout: red, green, blue from the second-highest byte
      down. */
  function PackArgb(r: bv8, g: bv8, b: bv8): (word: bv32)
    ensures word >> 24 == 0xFF
    ensures (word >> 16) & 0xFF == r as bv32 && (word >> 8) & 0xFF == g as bv32 && word & 0xFF == b as bv32
  {
    0xFF00_0000 | ((r as bv32) << 16) | ((g as bv32) << 8) | (b as bv32)
  }

  /** The clear word's channel order differs from ARGB, but only in which
      channel lands where: for a grey, where all three channels agree, the two
      layouts give the same word. */
  lemma GrayPacksAlike(v: bv8)
    ensures PackAsWritten(v, v, v) == PackArgb(v, v, v)
  {
  }

  /** The clear word of the frame. */
  function ClearWord(uniformClearColor: bool): bv32 {
    var c := ClearColor(uniformClearColor);
    PackAsWritten(ChannelByte(c.r), ChannelByte(c.g), ChannelByte(c.b))
  }

  /** The two clear words: 0.39 * 255 truncates to 99 (0x63), 0.1 * 255 to 25
      (0x19). */
  lemma ClearWords()
    ensures ClearWord(false) == 0xFF63_6363
    ensures ClearWord(true) == 0xFF19_1919
  {
    assert ChannelByte(0.39) == 0x63;
    assert ChannelByte(0.1) == 0x19;
  }

  /** Both buffers at the start of the frame. */
  function ClearedBuffers(width: nat, height: nat, uniformClearColor: bool): (b: Buffers)
    ensures Sized(b, width, height)
    ensures forall i :: 0 <= i < width * height ==> b.depth[i] == FltMax && b.color[i] == ClearColor(uniformClearColor)
  {
    Buffers(Cleared(width * height), seq(width * height, i => ClearColor(uniformClearColor)))
  }

  /** A stored depth: the cleared value, or a fragment depth inside the NDC
      depth range the rejection admits. */
  predicate DepthInRange(d: real) {
    d == FltMax || 0.0 < d <= 1.0
  }

  predicate DepthsInRange(depth: seq<real>) {
    forall i :: 0 <= i < |depth| ==> DepthInRange(depth[i])
  }

  /** A transformed vertex in front of the camera: positive clip w and
      non-zero depth, so every reciprocal the pixel loop takes exists. */
  predicate InFront(v: VertexOut) {
    v.position.w > 0.0 && v.position.z != 0.0
  }

  /** A triangle the rejection keeps has its three vertices in front of the
      camera; the vertices of a dropped triangle may lie anywhere, behind the
      camera included. */
  predicate KeptInFront(a: VertexOut, b: VertexOut, c: VertexOut) {
    Classify(a.position, b.position, c.position) == Keep ==> InFront(a) && InFront(b) && InFront(c)
  }

  /** Every vertex of the mesh projects as a perspective projection does
      (`PerspectiveIsDepthProjectable`) and every index names a vertex. */
  predicate MeshReady(mesh: MeshRast, xf: FrameTransform) {
    (forall i :: 0 <= i < |mesh.vertices| ==> DepthProjectable(xf.project(mesh.vertices[i].position))) &&
    IndicesInRange(mesh.indices, |mesh.vertices|)
  }

  /** A divided vertex whose depth the rejection admits lies in front of
      the camera. */
  lemma TransformedVertexInFront(v: Vertex, xf: FrameTransform)
    requires DepthProjectable(xf.project(v.position))
    ensures InUnitInterval(TransformVertex(v, xf).position.z) ==> InFront(TransformVertex(v, xf))
  {
    var q := xf.project(v.position);
    var o := TransformVertex(v, xf);
    assert o.position == Vec4(q.x / q.w, q.y / q.w, q.z / q.w, q.w);
    assert o.position.z * q.w == q.z;
  }

  /** The screen triangle of three kept NDC vertices. */
  function ToScreenTriangle(a: VertexOut, b: VertexOut, c: VertexOut, width: nat, height: nat): ScreenTriangle {
    ScreenTriangle(
      a.(position := ToScreen(a.position, width, height)),
      b.(position := ToScreen(b.position, width, height)),
      c.(position := ToScreen(c.position, width, height)))
  }

  function BoxOf(t: ScreenTriangle, width: nat, height: nat): BoundingBox {
    BoundingBoxOf(XY(t.a.position), XY(t.b.position), XY(t.c.position), width, height)
  }

  /** One triangle of the frame: dropped whole unless the rejection keeps
      it, otherwise mapped to the screen and scanned over its clamped box. */
  function DrawTriangle(b: Buffers, a: VertexOut, bv: VertexOut, c: VertexOut,
                        width: nat, height: nat, env: PixelEnv): (r: Buffers)
    requires Sized(b, width, height) && KeptInFront(a, bv, c) && ValidEnv(env)
    ensures Sized(r, width, height)
    ensures Classify(a.position, bv.position, c.position) != Keep ==> r == b
  {
    if Classify(a.position, bv.position, c.position) != Keep then b
    else
      var t := ToScreenTriangle(a, bv, c, width, height);
      var bb := BoxOf(t, width, height);
      ScanBox(b, t, bb.topLeftX.Floor, bb, width, height, env)
  }

  /** What one triangle does to one stored depth: it never rises, it stays
      inside the admitted range, and in the bounding-box visualisation it is
      left alone. */
  lemma DrawTriangleDepthAt(b: Buffers, a: VertexOut, bv: VertexOut, c: VertexOut,
                            width: nat, height: nat, env: PixelEnv, i: nat)
    requires Sized(b, width, height) && KeptInFront(a, bv, c) && ValidEnv(env)
    requires i < width * height
    ensures var r := DrawTriangle(b, a, bv, c, width, height, env);
      r.depth[i] <= b.depth[i] &&
      (DepthInRange(b.depth[i]) ==> DepthInRange(r.depth[i])) &&
      (env.boundingBoxVisualization ==> r.depth[i] == b.depth[i])
  {
    if Classify(a.position, bv.position, c.position) == Keep {
      var t := ToScreenTriangle(a, bv, c, width, height);
      var bb := BoxOf(t, width, height);
      var qx, qy := PixelAt(i, width, height);
      TriangleActsOncePerPixel(b, t, bb, width, height, env, qx, qy);
      if !env.boundingBoxVisualization && Visits(bb, qx, qy) && CoveredAt(t, qx, qy) {
        var za, zb, zc := t.a.position.z, t.b.position.z, t.c.position.z;
        HarmonicBlendBetween(za, zb, zc, WeightsAt(t, qx, qy));
        assert 0.0 < DepthAt(t, qx, qy) <= 1.0;
      }
    }
  }

  /** The same three facts for the whole buffer. */
  lemma DrawTriangleDepths(b: Buffers, a: VertexOut, bv: VertexOut, c: VertexOut,
                           width: nat, height: nat, env: PixelEnv)
    requires Sized(b, width, height) && KeptInFront(a, bv, c) && ValidEnv(env)
    ensures var r := DrawTriangle(b, a, bv, c, width, height, env);
      (forall i :: 0 <= i < width * height ==> r.depth[i] <= b.depth[i]) &&
      (DepthsInRange(b.depth) ==> DepthsInRange(r.depth)) &&
      (env.boundingBoxVisualization ==> r.depth == b.depth)
  {
    var r := DrawTriangle(b, a, bv, c, width, height, env);
    forall i | 0 <= i < width * height
      ensures r.depth[i] <= b.depth[i]
      ensures DepthInRange(b.depth[i]) ==> DepthInRange(r.depth[i])
      ensures env.boundingBoxVisualization ==> r.depth[i] == b.depth[i]
    {
      DrawTriangleDepthAt(b, a, bv, c, width, height, env, i);
    }
  }

  /** The vertices every triangle of `tris` reads exist, and those of every
      triangle the rejection keeps lie in front. */
  predicate TrianglesReady(out: seq<VertexOut>, tris: seq<Triangle>) {
    forall k :: 0 <= k < |tris| ==>
      tris[k].a < |out| && tris[k].b < |out| && tris[k].c < |out| &&
      KeptInFront(out[tris[k].a], out[tris[k].b], out[tris[k].c])
  }

  /** The triangles of one mesh, drawn in order. */
  function DrawTriangles(b: Buffers, out: seq<VertexOut>, tris: seq<Triangle>,
                         width: nat, height: nat, env: PixelEnv): (r: Buffers)
    requires Sized(b, width, height) && TrianglesReady(out, tris) && ValidEnv(env)
    ensures Sized(r, width, height)
    decreases |tris|
  {
    if |tris| == 0 then b
    else
      var t := tris[0];
      DrawTriangles(DrawTriangle(b, out[t.a], out[t.b], out[t.c], width, height, env), out, tris[1..], width, height, env)
  }

  /** The transformed vertices of a mesh. */
  function TransformAll(vertices: seq<Vertex>, xf: FrameTransform): (out: seq<VertexOut>)
    requires ProjectableVertices(vertices, xf)
    ensures |out| == |vertices|
  {
    seq(|vertices|, i requires 0 <= i < |vertices| => TransformVertex(vertices[i], xf))
  }

  /** Every mesh comes with its frame transform and is ready. */
  predicate ScenesReady(meshes: seq<MeshRast>, xfs: seq<FrameTransform>) {
    |xfs| == |meshes| && forall m :: 0 <= m < |meshes| ==> MeshReady(meshes[m], xfs[m])
  }

  /** Every triangle extracted from a ready mesh reads existing transformed
      vertices, and every one the rejection keeps lies in front of the
      camera: its depths lie in `[0, 1]`, which a perspective projection
      gives only to points in front. */
  lemma MeshTrianglesReady(mesh: MeshRast, xf: FrameTransform)
    requires MeshReady(mesh, xf)
    ensures ProjectableVertices(mesh.vertices, xf)
    ensures TrianglesReady(TransformAll(mesh.vertices, xf), TrianglesOf(mesh.indices, mesh.primitiveTopology))
  {
    var out := TransformAll(mesh.vertices, xf);
    var tris := TrianglesOf(mesh.indices, mesh.primitiveTopology);
    TrianglesUseBufferIndices(mesh.indices, mesh.primitiveTopology, |mesh.vertices|);
    assert forall k :: 0 <= k < |tris| ==> tris[k] in tris;
    forall i | 0 <= i < |out|
      ensures InUnitInterval(out[i].position.z) ==> InFront(out[i])
    {
      TransformedVertexInFront(mesh.vertices[i], xf);
    }
  }

  /** The meshes, drawn in order. */
  function DrawMeshes(b: Buffers, meshes: seq<MeshRast>, xfs: seq<FrameTransform>,
                      width: nat, height: nat, env: PixelEnv): (r: Buffers)
    requires Sized(b, width, height) && ScenesReady(meshes, xfs) && ValidEnv(env)
    ensures Sized(r, width, height)
    decreases |meshes|
  {
    if |meshes| == 0 then b
    else
      var mesh := meshes[0];
      MeshTrianglesReady(mesh, xfs[0]);
      var drawn := DrawTriangles(b, TransformAll(mesh.vertices, xfs[0]),
                                 TrianglesOf(mesh.indices, mesh.primitiveTopology), width, height, env);
      DrawMeshes(drawn, meshes[1..], xfs[1..], width, height, env)
  }

  /** The buffers at the end of the frame. */
  function RenderFrame(meshes: seq<MeshRast>, xfs: seq<FrameTransform>, width: nat, height: nat,
                       uniformClearColor: bool, env: PixelEnv): (r: Buffers)
    requires ScenesReady(meshes, xfs) && ValidEnv(env)
    ensures Sized(r, width, height)
  {
    DrawMeshes(ClearedBuffers(width, height, uniformClearColor), meshes, xfs, width, height, env)
  }

  /** The three depth facts carry over a mesh's triangles. */
  lemma {:induction false} DrawTrianglesDepths(b: Buffers, out: seq<VertexOut>, tris: seq<Triangle>,
                                               width: nat, height: nat, env: PixelEnv)
    requires Sized(b, width, height) && TrianglesReady(out, tris) && ValidEnv(env)
    ensures var r := DrawTriangles(b, out, tris, width, height, env);
      (forall i :: 0 <= i < width * height ==> r.depth[i] <= b.depth[i]) &&
      (DepthsInRange(b.depth) ==> DepthsInRange(r.depth)) &&
      (env.boundingBoxVisualization ==> r.depth == b.depth)
    decreases |tris|
  {
    if |tris| > 0 {
      var t := tris[0];
      var next := DrawTriangle(b, out[t.a], out[t.b], out[t.c], width, height, env);
      DrawTriangleDepths(b, out[t.a], out[t.b], out[t.c], width, height, env);
      assert TrianglesReady(out, tris[1..]);
      DrawTrianglesDepths(next, out, tris[1..], width, height, env);
    }
  }

  /** ... and over the meshes. */
  lemma {:induction false} DrawMeshesDepths(b: Buffers, meshes: seq<MeshRast>, xfs: seq<FrameTransform>,
                                            width: nat, height: nat, env: PixelEnv)
    requires Sized(b, width, height) && ScenesReady(meshes, xfs) && ValidEnv(env)
    ensures var r := DrawMeshes(b, meshes, xfs, width, height, env);
      (forall i :: 0 <= i < width * height ==> r.depth[i] <= b.depth[i]) &&
      (DepthsInRange(b.depth) ==> DepthsInRange(r.depth)) &&
      (env.boundingBoxVisualization ==> r.depth == b.depth)
    decreases |meshes|
  {
    if |meshes| > 0 {
      var mesh := meshes[0];
      MeshTrianglesReady(mesh, xfs[0]);
      var out := TransformAll(mesh.vertices, xfs[0]);
      var tris := TrianglesOf(mesh.indices, mesh.primitiveTopology);
      DrawTrianglesDepths(b, out, tris, width, height, env);
      var drawn := DrawTriangles(b, out, tris, width, height, env);
      assert ScenesReady(meshes[1..], xfs[1..]);
      DrawMeshesDepths(drawn, meshes[1..], xfs[1..], width, height, env);
    }
  }

  /** The depth fragment one triangle offers at buffer position `j`: none
      when the rejection drops it, in the bounding-box visualisation, or when
      it does not cover that pixel's centre; otherwise the pixel's
      interpolated depth. Culling plays no part, since the depth is written
      before the cull test. */
  function FragmentsAt(a: VertexOut, bv: VertexOut, c: VertexOut,
                       width: nat, height: nat, env: PixelEnv, j: nat): (f: seq<Fragment>)
    requires KeptInFront(a, bv, c) && j < width * height
    ensures |f| <= 1 && FragmentsFit(f, width * height)
    ensures forall k :: 0 <= k < |f| ==> f[k].index == j
  {
    if env.boundingBoxVisualization || Classify(a.position, bv.position, c.position) != Keep then []
    else
      var t := ToScreenTriangle(a, bv, c, width, height);
      var qx, qy := j % width, j / width;
      if CoveredAt(t, qx, qy) then [Fragment(j, DepthAt(t, qx, qy))] else []
  }

  /** The fragments a mesh's triangles offer at position `j`, in drawing
      order. */
  function TrianglesFragmentsAt(out: seq<VertexOut>, tris: seq<Triangle>,
                                width: nat, height: nat, env: PixelEnv, j: nat): (f: seq<Fragment>)
    requires TrianglesReady(out, tris) && j < width * height
    ensures FragmentsFit(f, width * height)
    ensures forall k :: 0 <= k < |f| ==> f[k].index == j
    decreases |tris|
  {
    if |tris| == 0 then []
    else
      var t := tris[0];
      FragmentsAt(out[t.a], out[t.b], out[t.c], width, height, env, j) +
        TrianglesFragmentsAt(out, tris[1..], width, height, env, j)
  }

  /** The fragments the whole scene offers at position `j`, mesh after mesh. */
  function MeshesFragmentsAt(meshes: seq<MeshRast>, xfs: seq<FrameTransform>,
                             width: nat, height: nat, env: PixelEnv, j: nat): (f: seq<Fragment>)
    requires ScenesReady(meshes, xfs) && j < width * height
    ensures FragmentsFit(f, width * height)
    ensures forall k :: 0 <= k < |f| ==> f[k].index == j
    decreases |meshes|
  {
    if |meshes| == 0 then []
    else
      var mesh := meshes[0];
      MeshTrianglesReady(mesh, xfs[0]);
      TrianglesFragmentsAt(TransformAll(mesh.vertices, xfs[0]), TrianglesOf(mesh.indices, mesh.primitiveTopology),
                           width, height, env, j) +
        MeshesFragmentsAt(meshes[1..], xfs[1..], width, height, env, j)
  }

  /** One triangle leaves at position `j` the running minimum of the stored
      depth and the fragment it offers there. */
  lemma DrawTriangleDepthIsLowest(b: Buffers, a: VertexOut, bv: VertexOut, c: VertexOut,
                                  width: nat, height: nat, env: PixelEnv, j: nat)
    requires Sized(b, width, height) && KeptInFront(a, bv, c) && ValidEnv(env) && j < width * height
    ensures DrawTriangle(b, a, bv, c, width, height, env).depth[j] ==
      LowestAt(b.depth[j], FragmentsAt(a, bv, c, width, height, env, j), j)
  {
    var f := FragmentsAt(a, bv, c, width, height, env, j);
    if env.boundingBoxVisualization {
      DrawTriangleDepthAt(b, a, bv, c, width, height, env, j);
    } else if Classify(a.position, bv.position, c.position) == Keep {
      var t := ToScreenTriangle(a, bv, c, width, height);
      var qx, qy := PixelAt(j, width, height);
      DepthAfterTriangle(b, XY(t.a.position), XY(t.b.position), XY(t.c.position), t, width, height, env, qx, qy);
      if CoveredAt(t, qx, qy) {
        assert f == [Fragment(j, DepthAt(t, qx, qy))];
        assert f[..0] == [];
      }
    }
  }

  /** A mesh's triangles leave at position `j` the running minimum of the
      stored depth and the fragments they offer there, in order. */
  lemma {:induction false} DrawTrianglesDepthIsLowest(b: Buffers, out: seq<VertexOut>, tris: seq<Triangle>,
                                                      width: nat, height: nat, env: PixelEnv, j: nat)
    requires Sized(b, width, height) && TrianglesReady(out, tris) && ValidEnv(env) && j < width * height
    ensures DrawTriangles(b, out, tris, width, height, env).depth[j] ==
      LowestAt(b.depth[j], TrianglesFragmentsAt(out, tris, width, height, env, j), j)
    decreases |tris|
  {
    if |tris| > 0 {
      var t := tris[0];
      var next := DrawTriangle(b, out[t.a], out[t.b], out[t.c], width, height, env);
      DrawTriangleDepthIsLowest(b, out[t.a], out[t.b], out[t.c], width, height, env, j);
      assert TrianglesReady(out, tris[1..]);
      DrawTrianglesDepthIsLowest(next, out, tris[1..], width, height, env, j);
      LowestAtAppend(b.depth[j], FragmentsAt(out[t.a], out[t.b], out[t.c], width, height, env, j),
                     TrianglesFragmentsAt(out, tris[1..], width, height, env, j), j);
    }
  }

  /** ... and so do the meshes. */
  lemma {:induction false} DrawMeshesDepthIsLowest(b: Buffers, meshes: seq<MeshRast>, xfs: seq<FrameTransform>,
                                                   width: nat, height: nat, env: PixelEnv, j: nat)
    requires Sized(b, width, height) && ScenesReady(meshes, xfs) && ValidEnv(env) && j < width * height
    ensures DrawMeshes(b, meshes, xfs, width, height, env).depth[j] ==
      LowestAt(b.depth[j], MeshesFragmentsAt(meshes, xfs, width, height, env, j), j)
    decreases |meshes|
  {
    if |meshes| > 0 {
      var mesh := meshes[0];
      MeshTrianglesReady(mesh, xfs[0]);
      var out := TransformAll(mesh.vertices, xfs[0]);
      var tris := TrianglesOf(mesh.indices, mesh.primitiveTopology);
      DrawTrianglesDepthIsLowest(b, out, tris, width, height, env, j);
      var drawn := DrawTriangles(b, out, tris, width, height, env);
      assert ScenesReady(meshes[1..], xfs[1..]);
      DrawMeshesDepthIsLowest(drawn, meshes[1..], xfs[1..], width, height, env, j);
      LowestAtAppend(b.depth[j], TrianglesFragmentsAt(out, tris, width, height, env, j),
                     MeshesFragmentsAt(meshes[1..], xfs[1..], width, height, env, j), j);
    }
  }

  /** At the end of the frame every position holds the running minimum,
      from `FLT_MAX`, of the depths the kept triangles covering that pixel
      offer, in drawing order: exactly what the depth buffer's own test
      leaves after those fragments. */
  lemma FrameDepthAt(meshes: seq<MeshRast>, xfs: seq<FrameTransform>, width: nat, height: nat,
                     uniformClearColor: bool, env: PixelEnv, j: nat)
    requires ScenesReady(meshes, xfs) && ValidEnv(env) && j < width * height
    ensures var frags := MeshesFragmentsAt(meshes, xfs, width, height, env, j);
      var d := RenderFrame(meshes, xfs, width, height, uniformClearColor, env).depth[j];
      d == LowestAt(FltMax, frags, j) && d == ApplyFragments(Cleared(width * height), frags)[j]
  {
    var b := ClearedBuffers(width, height, uniformClearColor);
    var frags := MeshesFragmentsAt(meshes, xfs, width, height, env, j);
    DrawMeshesDepthIsLowest(b, meshes, xfs, width, height, env, j);
    ApplyFragmentsIsRunningMinimum(Cleared(width * height), frags, j);
  }

  /** At the end of every frame each stored depth is either the cleared
      `FLT_MAX` or a fragment depth in `(0, 1]`; in the bounding-box
      visualisation the depth buffer is never written at all. */
  lemma FrameDepths(meshes: seq<MeshRast>, xfs: seq<FrameTransform>, width: nat, height: nat,
                    uniformClearColor: bool, env: PixelEnv)
    requires ScenesReady(meshes, xfs) && ValidEnv(env)
    ensures var r := RenderFrame(meshes, xfs, width, height, uniformClearColor, env);
      DepthsInRange(r.depth) &&
      (env.boundingBoxVisualization ==> r.depth == Cleared(width * height)) &&
      forall j :: 0 <= j < width * height ==>
        r.depth[j] == LowestAt(FltMax, MeshesFragmentsAt(meshes, xfs, width, height, env, j), j)
  {
    var b := ClearedBuffers(width, height, uniformClearColor);
    assert b.depth == Cleared(width * height);
    DrawMeshesDepths(b, meshes, xfs, width, height, env);
    forall j | 0 <= j < width * height
      ensures RenderFrame(meshes, xfs, width, height, uniformClearColor, env).depth[j] ==
        LowestAt(FltMax, MeshesFragmentsAt(meshes, xfs, width, height, env, j), j)
    {
      FrameDepthAt(meshes, xfs, width, height, uniformClearColor, env, j);
    }
  }

  /** A mesh whose index buffer holds fewer than three indices draws nothing:
      the corrected loop bound runs no iteration. */
  lemma {:induction false} ShortMeshesDrawNothing(b: Buffers, meshes: seq<MeshRast>, xfs: seq<FrameTransform>,
                                                  width: nat, height: nat, env: PixelEnv)
    requires Sized(b, width, height) && ScenesReady(meshes, xfs) && ValidEnv(env)
    requires forall m :: 0 <= m < |meshes| ==> |meshes[m].indices| < 3
    ensures DrawMeshes(b, meshes, xfs, width, height, env) == b
    decreases |meshes|
  {
    if |meshes| > 0 {
      var mesh := meshes[0];
      MeshTrianglesReady(mesh, xfs[0]);
      assert TrianglesOf(mesh.indices, mesh.primitiveTopology) == [];
      assert ScenesReady(meshes[1..], xfs[1..]);
      ShortMeshesDrawNothing(b, meshes[1..], xfs[1..], width, height, env);
    }
  }

  /** The triangle loop of one mesh: reject or map and scan, in order. */
  method RasterizeMesh(b: Buffers, out: seq<VertexOut>, tris: seq<Triangle>,
                       width: nat, height: nat, env: PixelEnv)
    returns (r: Buffers)
    requires Sized(b, width, height) && TrianglesReady(out, tris) && ValidEnv(env)
    ensures r == DrawTriangles(b, out, tris, width, height, env)
  {
    r := b;
    var k := 0;
    while k < |tris|
      invariant 0 <= k <= |tris|
      invariant Sized(r, width, height)
      invariant TrianglesReady(out, tris[k..])
      invariant DrawTriangles(r, out, tris[k..], width, height, env) == DrawTriangles(b, out, tris, width, height, env)
    {
      var tri := tris[k];
      var a, bv, c := out[tri.a], out[tri.b], out[tri.c];
      assert tris[k..][1..] == tris[k + 1..];
      if Classify(a.position, bv.position, c.position) == Keep {
        var t := ToScreenTriangle(a, bv, c, width, height);
        var bb := BoxOf(t, width, height);
        r := RasterizeTriangle(r, t, bb, width, height, env);
      }
      k := k + 1;
    }
  }

  /** `Renderer::RenderRasterizer` on the buffers: clear, transform every
      mesh, then for every mesh and every assembled triangle reject or map
      and scan. */
  method RenderRasterizer(meshes: seq<MeshRast>, xfs: seq<FrameTransform>, width: nat, height: nat,
                          uniformClearColor: bool, env: PixelEnv)
    returns (r: Buffers)
    requires ScenesReady(meshes, xfs) && ValidEnv(env)
    ensures r == RenderFrame(meshes, xfs, width, height, uniformClearColor, env)
    ensures Sized(r, width, height) && DepthsInRange(r.depth)
    ensures env.boundingBoxVisualization ==> r.depth == Cleared(width * height)
    ensures forall j :: 0 <= j < width * height ==>
      r.depth[j] == LowestAt(FltMax, MeshesFragmentsAt(meshes, xfs, width, height, env, j), j)
  {
    r := ClearedBuffers(width, height, uniformClearColor);
    var m := 0;
    while m < |meshes|
      invariant 0 <= m <= |meshes|
      invariant Sized(r, width, height)
      invariant DrawMeshes(r, meshes[m..], xfs[m..], width, height, env) ==
        RenderFrame(meshes, xfs, width, height, uniformClearColor, env)
    {
      var mesh := meshes[m];
      MeshTrianglesReady(mesh, xfs[m]);
      var out := TransformVertices(mesh.vertices, xfs[m]);
      assert out == TransformAll(mesh.vertices, xfs[m]);
      var tris := AssembleTriangles(mesh.indices, mesh.primitiveTopology);
      r := RasterizeMesh(r, out, tris, width, height, env);
      assert meshes[m..][1..] == meshes[m + 1..] && xfs[m..][1..] == xfs[m + 1..];
      m := m + 1;
    }
    FrameDepths(meshes, xfs, width, height, uniformClearColor, env);
  }
}
