/** The software rasterizer's vertex stage (`VertexTransformationFunctionW4`):
    every model-space vertex becomes one shading vertex whose position is in
    NDC with the clip-space w kept for perspective-correct interpolation. */
module VertexTransform {
  import opened Geometry
  import opened Mesh

  /** The matrix products of one frame, which come from a math library whose
      definitions are not part of this model:
      - `project`: `(world * view * projection).TransformPoint({p, 1})`,
      - `worldVector`: `worldMatrix.TransformVector`,
      - `worldPoint`: `worldMatrix.TransformPoint`,
      - `normalized`: `Vector3::Normalized`. */
  datatype FrameTransform = FrameTransform(
    project: Vec3 -> Vec4,
    worldVector: Vec3 -> Vec3,
    worldPoint: Vec3 -> Vec3,
    normalized: Vec3 -> Vec3,
    cameraOrigin: Vec3)

  /** Multiplies x, y and z back by w: the inverse of the perspective divide. */
  function Rehomogenize(p: Vec4): Vec4 {
    Vec4(p.x * p.w, p.y * p.w, p.z * p.w, p.w)
  }

  /** Divides x, y and z by w and keeps w itself undivided. */
  function PerspectiveDivide(clip: Vec4): (ndc: Vec4)
    requires clip.w != 0.0
    ensures ndc.w == clip.w
    ensures Rehomogenize(ndc) == clip
  {
    Vec4(clip.x / clip.w, clip.y / clip.w, clip.z / clip.w, clip.w)
  }

  /** A clip-space position is recovered from any divided position whose w is
      non-zero, so the divide loses nothing. */
  lemma DivideIsInjective(p: Vec4, q: Vec4)
    requires p.w != 0.0 && q.w != 0.0
    requires PerspectiveDivide(p) == PerspectiveDivide(q)
    ensures p == q
  {
    assert Rehomogenize(PerspectiveDivide(p)) == p;
    assert Rehomogenize(PerspectiveDivide(q)) == q;
  }

  /** The output vertex for one input vertex. */
  function TransformVertex(v: Vertex, xf: FrameTransform): (o: VertexOut)
    requires xf.project(v.position).w != 0.0
    ensures Rehomogenize(o.position) == xf.project(v.position)
    ensures o.color == Black && o.uv == v.uv
    ensures o.normal == xf.normalized(xf.worldVector(v.normal))
    ensures o.tangent == xf.normalized(xf.worldVector(v.tangent))
    ensures Add3(xf.worldPoint(v.position), o.viewDirection) == xf.cameraOrigin
  {
    VertexOut(
      PerspectiveDivide(xf.project(v.position)),
      Black,
      v.uv,
      xf.normalized(xf.worldVector(v.normal)),
      xf.normalized(xf.worldVector(v.tangent)),
      Sub3(xf.cameraOrigin, xf.worldPoint(v.position)))
  }

  /** Every vertex projects to a clip-space point with a non-zero w. */
  predicate ProjectableVertices(vertices: seq<Vertex>, xf: FrameTransform) {
    forall i :: 0 <= i < |vertices| ==> xf.project(vertices[i].position).w != 0.0
  }

  /** What a perspective projection guarantees of a clip-space point and the
      pixel loop relies on: a non-zero w for the divide, and a divided depth
      inside `[0, 1]` only for a point in front of the camera (positive w)
      and off the near plane (non-zero z). */
  predicate DepthProjectable(q: Vec4) {
    q.w != 0.0 && (InUnitInterval(q.z / q.w) ==> q.w > 0.0 && q.z != 0.0)
  }

  /** The camera's clip planes. */
  const NearPlane: real := 0.1
  const FarPlane: real := 100.0

  /** The depth row and w column of a left-handed perspective projection
      (`CreatePerspectiveFovLH`) for a point at view depth `zv`: clip z is
      `far / (far - near) * (zv - near)` and clip w is `zv`. The x and y rows
      play no part in the depth range. */
  function PerspectiveClip(x: real, y: real, zv: real, near: real, far: real): Vec4
    requires 0.0 < near < far
  {
    Vec4(x, y, far / (far - near) * (zv - near), zv)
  }

  /** Such a projection makes every point off the camera plane and off the
      near plane depth-projectable: a point behind the camera divides to a
      depth above 1, which the rejection drops, and one between the camera
      and the near plane to a negative depth. */
  lemma PerspectiveIsDepthProjectable(x: real, y: real, zv: real, near: real, far: real)
    requires 0.0 < near < far && zv != 0.0 && zv != near
    ensures DepthProjectable(PerspectiveClip(x, y, zv, near, far))
    ensures zv < 0.0 ==> PerspectiveClip(x, y, zv, near, far).z / zv > 1.0
    ensures 0.0 < zv < near ==> PerspectiveClip(x, y, zv, near, far).z / zv < 0.0
  {
    var k := far / (far - near);
    var zc := k * (zv - near);
    assert k * (far - near) == far;
    assert k > 1.0 by {
      assert k * (far - near) - (far - near) == near;
      assert (k - 1.0) * (far - near) == near;
      if k <= 1.0 {
        NonNegativeProduct(1.0 - k, far - near);
      }
    }
    assert zc != 0.0 by {
      assert zv - near != 0.0;
    }
    var q := zc / zv;
    assert PerspectiveClip(x, y, zv, near, far) == Vec4(x, y, zc, zv);
    assert q * zv == zc;
    if zv < 0.0 {
      assert k * (zv - near) < k * zv by {
        assert k * zv - k * (zv - near) == k * near;
      }
      assert k * zv < zv by {
        assert k * zv - zv == (k - 1.0) * zv;
      }
      assert (q - 1.0) * zv == zc - zv;
      assert q > 1.0 && !InUnitInterval(q);
    } else if zv < near {
      assert zc < 0.0;
      assert q < 0.0;
    }
  }

  /** The camera's own planes, `0.1` and `100`, satisfy the hypotheses. */
  lemma CameraIsDepthProjectable(x: real, y: real, zv: real)
    requires zv != 0.0 && zv != NearPlane
    ensures DepthProjectable(PerspectiveClip(x, y, zv, NearPlane, FarPlane))
  {
    PerspectiveIsDepthProjectable(x, y, zv, NearPlane, FarPlane);
  }

  /** The per-mesh loop: `vertices_out` is cleared and refilled, one entry per
      input vertex, in input order. */
  method TransformVertices(vertices: seq<Vertex>, xf: FrameTransform) returns (out: seq<VertexOut>)
    requires ProjectableVertices(vertices, xf)
    ensures |out| == |vertices|
    ensures forall i :: 0 <= i < |vertices| ==>
      Rehomogenize(out[i].position) == xf.project(vertices[i].position) && out[i].uv == vertices[i].uv
    ensures forall i :: 0 <= i < |vertices| ==> out[i] == TransformVertex(vertices[i], xf)
  {
    out := [];
    var k := 0;
    while k < |vertices|
      invariant 0 <= k <= |vertices|
      invariant |out| == k
      invariant forall i :: 0 <= i < k ==> out[i] == TransformVertex(vertices[i], xf)
    {
      out := out + [TransformVertex(vertices[k], xf)];
      k := k + 1;
    }
  }
}
