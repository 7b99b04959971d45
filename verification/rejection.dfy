/** The coarse per-triangle rejection in `Renderer::RenderRasterizer`, done on
    NDC positions before screen mapping. It is not clipping, and the x and y
    tests look at each vertex on its own: a triangle is kept whole as soon as
    some vertex has x in range and some vertex has y in range, and dropped
    whole when every x (or every y) lies outside the range, even when the
    vertices lie on both sides of the screen and the triangle covers it. One
    vertex outside the depth range drops the triangle too. */
module Rejection {
  import opened Geometry

  /** Why a triangle is dropped, in the order the source tests it. */
  datatype Verdict = Keep | OffscreenX | OffscreenY | OutsideDepthRange

  /** The per-coordinate test of the x and y checks. */
  predicate OutsideUnitRange(c: real) {
    c < -1.0 || c > 1.0
  }

  predicate OutsideDepthRangeAt(z: real) {
    z < 0.0 || z > 1.0
  }

  /** The three checks, each a `continue` in the source. */
  function Classify(a: Vec4, b: Vec4, c: Vec4): (v: Verdict)
    ensures v == Keep <==>
      (-1.0 <= a.x <= 1.0 || -1.0 <= b.x <= 1.0 || -1.0 <= c.x <= 1.0) &&
      (-1.0 <= a.y <= 1.0 || -1.0 <= b.y <= 1.0 || -1.0 <= c.y <= 1.0) &&
      InUnitInterval(a.z) && InUnitInterval(b.z) && InUnitInterval(c.z)
    ensures v == OutsideDepthRange ==>
      !InUnitInterval(a.z) || !InUnitInterval(b.z) || !InUnitInterval(c.z)
  {
    if OutsideUnitRange(a.x) && OutsideUnitRange(b.x) && OutsideUnitRange(c.x) then OffscreenX
    else if OutsideUnitRange(a.y) && OutsideUnitRange(b.y) && OutsideUnitRange(c.y) then OffscreenY
    else if OutsideDepthRangeAt(a.z) || OutsideDepthRangeAt(b.z) || OutsideDepthRangeAt(c.z) then OutsideDepthRange
    else Keep
  }

  /** A triangle is kept when vertex A has its x in range, vertex B its y,
      and every depth lies in `[0, 1]`, even when no vertex lies inside the
      unit square, as for A = (0, 2), B = (-2, 0), C = (2, 0). The depth
      condition cannot be dropped: moving A to depth 5 drops the triangle
      through the z check. */
  lemma StraddlingTriangleKept(a: Vec4, b: Vec4, c: Vec4)
    requires -1.0 <= a.x <= 1.0 && -1.0 <= b.y <= 1.0
    requires InUnitInterval(a.z) && InUnitInterval(b.z) && InUnitInterval(c.z)
    ensures Classify(a, b, c) == Keep
    ensures Classify(a.(z := 5.0), b, c) == OutsideDepthRange
  {
  }

  /** The per-vertex test also drops triangles that cover the screen: every
      x of this one lies outside `[-1, 1]`, yet the screen centre is the
      convex blend 0.5 A + 0.1 B + 0.4 C of its vertices. */
  lemma ScreenCoveringTriangleDropped()
    ensures var a, b, c := Vec4(-2.0, -2.0, 0.5, 1.0), Vec4(2.0, -2.0, 0.5, 1.0), Vec4(2.0, 3.0, 0.5, 1.0);
      Classify(a, b, c) == OffscreenX &&
      0.5 * a.x + 0.1 * b.x + 0.4 * c.x == 0.0 && 0.5 * a.y + 0.1 * b.y + 0.4 * c.y == 0.0
  {
  }
}
