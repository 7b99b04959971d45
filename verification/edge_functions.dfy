/** Edge functions and barycentric weights of the pixel test in
    `Renderer::RenderRasterizer`. All points are in screen space. */
module EdgeFunctions {
  import opened Geometry

  /** The three edge values at a pixel centre and the doubled signed area of
      the triangle, named as in the source. */
  datatype EdgeValues = EdgeValues(ab: real, bc: real, ca: real, area: real)

  /** `Cross(AB, -CA)`: twice the signed area of triangle A, B, C. */
  function TriangleArea(a: Vec2, b: Vec2, c: Vec2): real {
    Cross2(Span(a, b), Neg2(Span(c, a)))
  }

  /** The three edge values always add up to the triangle's area, at every
      pixel, inside or out. */
  predicate EdgesAddUp(e: EdgeValues) {
    e.ab + e.bc + e.ca == e.area
  }

  /** Each edge value is the cross product of the edge with the vector from
      the edge's start to the pixel. */
  function Edges(a: Vec2, b: Vec2, c: Vec2, p: Vec2): EdgeValues
  {
    EdgeValues(
      Cross2(Span(a, b), Span(a, p)),
      Cross2(Span(b, c), Span(b, p)),
      Cross2(Span(c, a), Span(c, p)),
      Cross2(Span(a, b), Neg2(Span(c, a))))
  }

  /** The edge values are the doubled signed areas of the three
      sub-triangles the pixel cuts the triangle into, and so add up to the
      triangle's own area at every pixel, inside or out. */
  lemma EdgesSplitArea(a: Vec2, b: Vec2, c: Vec2, p: Vec2)
    ensures Edges(a, b, c, p).area == TriangleArea(a, b, c)
    ensures Edges(a, b, c, p).ab == TriangleArea(a, b, p)
    ensures Edges(a, b, c, p).bc == TriangleArea(b, c, p)
    ensures Edges(a, b, c, p).ca == TriangleArea(c, a, p)
    ensures EdgesAddUp(Edges(a, b, c, p))
  {
  }

  /** Exchanging B and C (the strip's odd-step swap) reverses the winding and
      so negates the area; rotating the vertices keeps it. */
  lemma SwapNegatesArea(a: Vec2, b: Vec2, c: Vec2)
    ensures TriangleArea(a, c, b) == -TriangleArea(a, b, c)
    ensures TriangleArea(b, c, a) == TriangleArea(a, b, c)
  {
  }

  /** The source's inside test: all three edge values non-negative. */
  predicate InsideAsWritten(e: EdgeValues) {
    e.ab >= 0.0 && e.bc >= 0.0 && e.ca >= 0.0
  }

  /** A triangle wound the other way (negative area) passes the inside test
      at no pixel, so it is never drawn. */
  lemma NegativeAreaCoversNothing(a: Vec2, b: Vec2, c: Vec2, p: Vec2)
    requires TriangleArea(a, b, c) < 0.0
    ensures !InsideAsWritten(Edges(a, b, c, p))
  {
  }

  /** A pixel that passes the inside test of a zero-area triangle has all
      three edge values zero, and the weights would divide zero by zero. */
  lemma ZeroAreaInsideHasZeroEdges(a: Vec2, b: Vec2, c: Vec2, p: Vec2)
    requires TriangleArea(a, b, c) == 0.0
    requires InsideAsWritten(Edges(a, b, c, p))
    ensures Edges(a, b, c, p) == EdgeValues(0.0, 0.0, 0.0, 0.0)
  {
  }

  /** As written, nothing stops a zero-area triangle from reaching the weight
      division: a list triangle whose three indices are equal collapses to one
      point `v`, and every pixel centre `p` passes its inside test with all
      three edge values and the area zero. */
  lemma ZeroAreaPixelPassesInsideTest(v: Vec2, p: Vec2)
    ensures InsideAsWritten(Edges(v, v, v, p)) && Edges(v, v, v, p).area == 0.0
  {
    CollapsedEdges(v, p);
  }

  /** A triangle collapsed to one point has all edge values zero everywhere. */
  lemma CollapsedEdges(v: Vec2, p: Vec2)
    ensures Edges(v, v, v, p) == EdgeValues(0.0, 0.0, 0.0, 0.0)
  {
  }

  /** The corrected coverage test: inside and of non-zero area. Weights are
      only ever computed for covered pixels. */
  predicate Covers(e: EdgeValues) {
    InsideAsWritten(e) && e.area != 0.0
  }

  /** Coverage only happens for counter-clockwise (positive-area) triangles,
      and on those it coincides with the source's inside test. */
  lemma CoversMeansPositiveArea(e: EdgeValues)
    requires EdgesAddUp(e)
    ensures Covers(e) ==> e.area > 0.0
    ensures e.area > 0.0 ==> (Covers(e) <==> InsideAsWritten(e))
  {
  }

  datatype Weights = Weights(wa: real, wb: real, wc: real)

  /** Weights sum to one. */
  predicate Normalized(w: Weights) {
    w.wa + w.wb + w.wc == 1.0
  }

  /** Weights of a point inside the triangle: each in `[0, 1]`, summing to one. */
  predicate Convex(w: Weights) {
    Normalized(w) && InUnitInterval(w.wa) && InUnitInterval(w.wb) && InUnitInterval(w.wc)
  }

  /** Each vertex's weight is the edge value of the opposite edge over the
      area: wA from BC, wB from CA, wC from AB. */
  function BarycentricWeights(e: EdgeValues): (w: Weights)
    requires EdgesAddUp(e) && e.area != 0.0
    ensures Normalized(w)
    ensures Covers(e) ==> Convex(w)
    ensures w.wa * e.area == e.bc && w.wb * e.area == e.ca && w.wc * e.area == e.ab
  {
    var w := Weights(e.bc / e.area, e.ca / e.area, e.ab / e.area);
    QuotientsSumToOne(e.bc, e.ca, e.ab, e.area);
    UnitQuotient(e.bc, e.area);
    UnitQuotient(e.ca, e.area);
    UnitQuotient(e.ab, e.area);
    w
  }

  lemma QuotientsSumToOne(x: real, y: real, z: real, total: real)
    requires total != 0.0 && x + y + z == total
    ensures x / total + y / total + z / total == 1.0
  {
    assert x / total + y / total + z / total == (x + y + z) / total;
  }

  lemma UnitQuotient(x: real, total: real)
    requires total != 0.0
    ensures 0.0 <= x <= total ==> 0.0 <= x / total <= 1.0
    ensures x / total * total == x
  {
  }

  /** The weights recover the pixel: blending the three vertices with them
      gives back the point they were computed for. */
  lemma BarycentricReproducesPoint(a: Vec2, b: Vec2, c: Vec2, p: Vec2)
    requires TriangleArea(a, b, c) != 0.0
    ensures var w := BarycentricWeights(Edges(a, b, c, p));
      w.wa * a.x + w.wb * b.x + w.wc * c.x == p.x &&
      w.wa * a.y + w.wb * b.y + w.wc * c.y == p.y
  {
    var e := Edges(a, b, c, p);
    var w := BarycentricWeights(e);
    EdgesWeighVertices(a, b, c, p);
    WeightsRecover(e.ab, e.bc, e.ca, e.area, a.x, b.x, c.x, p.x, w);
    WeightsRecover(e.ab, e.bc, e.ca, e.area, a.y, b.y, c.y, p.y, w);
  }

  /** The edge values, used as unnormalised weights, reproduce the pixel
      scaled by the area. */
  lemma EdgesWeighVertices(a: Vec2, b: Vec2, c: Vec2, p: Vec2)
    ensures var e := Edges(a, b, c, p);
      e.bc * a.x + e.ca * b.x + e.ab * c.x == e.area * p.x &&
      e.bc * a.y + e.ca * b.y + e.ab * c.y == e.area * p.y
  {
  }

  lemma WeightsRecover(ab: real, bc: real, ca: real, area: real, xa: real, xb: real, xc: real, x: real, w: Weights)
    requires area != 0.0
    requires w.wa * area == bc && w.wb * area == ca && w.wc * area == ab
    requires bc * xa + ca * xb + ab * xc == area * x
    ensures w.wa * xa + w.wb * xb + w.wc * xc == x
  {
    assert (w.wa * xa + w.wb * xb + w.wc * xc) * area == area * x;
    CancelNonZero(w.wa * xa + w.wb * xb + w.wc * xc, x, area);
  }

  lemma CancelNonZero(x: real, y: real, k: real)
    requires k != 0.0 && x * k == k * y
    ensures x == y
  {
    assert (x - y) * k == 0.0;
  }

  /** A blend with convex weights lies between the smallest and largest of the
      blended values. */
  lemma ConvexBlendBetween(w: Weights, x: real, y: real, z: real)
    requires Convex(w)
    ensures Min(x, Min(y, z)) <= w.wa * x + w.wb * y + w.wc * z <= Max(x, Max(y, z))
  {
    BlendAbove(w.wa, w.wb, w.wc, x, y, z, Min(x, Min(y, z)));
    BlendBelow(w.wa, w.wb, w.wc, x, y, z, Max(x, Max(y, z)));
  }

  lemma BlendAbove(a: real, b: real, c: real, x: real, y: real, z: real, lo: real)
    requires a >= 0.0 && b >= 0.0 && c >= 0.0 && a + b + c == 1.0
    requires lo <= x && lo <= y && lo <= z
    ensures lo <= a * x + b * y + c * z
  {
    ScaleMonotone(a, lo, x);
    ScaleMonotone(b, lo, y);
    ScaleMonotone(c, lo, z);
    AddThree(a * lo, a * x, b * lo, b * y, c * lo, c * z);
    WeightsOfOne(a, b, c, lo);
  }

  lemma BlendBelow(a: real, b: real, c: real, x: real, y: real, z: real, hi: real)
    requires a >= 0.0 && b >= 0.0 && c >= 0.0 && a + b + c == 1.0
    requires x <= hi && y <= hi && z <= hi
    ensures a * x + b * y + c * z <= hi
  {
    ScaleMonotone(a, x, hi);
    ScaleMonotone(b, y, hi);
    ScaleMonotone(c, z, hi);
    AddThree(a * x, a * hi, b * y, b * hi, c * z, c * hi);
    WeightsOfOne(a, b, c, hi);
  }

  lemma ScaleMonotone(k: real, x: real, y: real)
    requires k >= 0.0 && x <= y
    ensures k * x <= k * y
  {
    assert k * y - k * x == k * (y - x);
  }

  lemma AddThree(p1: real, q1: real, p2: real, q2: real, p3: real, q3: real)
    requires p1 <= q1 && p2 <= q2 && p3 <= q3
    ensures p1 + p2 + p3 <= q1 + q2 + q3
  {
  }

  /** Weights summing to one blend a constant to itself. */
  lemma WeightsOfOne(a: real, b: real, c: real, v: real)
    requires a + b + c == 1.0
    ensures a * v + b * v + c * v == v
  {
    Distribute(a, b, c, v);
  }

  lemma Distribute(a: real, b: real, c: real, v: real)
    ensures a * v + b * v + c * v == (a + b + c) * v
  {
  }

  /** A covered pixel centre lies within the extent of the three vertices, so
      the bounding box scan cannot miss it. */
  lemma CoveredPointInExtent(a: Vec2, b: Vec2, c: Vec2, p: Vec2)
    requires Covers(Edges(a, b, c, p))
    ensures Min(a.x, Min(b.x, c.x)) <= p.x <= Max(a.x, Max(b.x, c.x))
    ensures Min(a.y, Min(b.y, c.y)) <= p.y <= Max(a.y, Max(b.y, c.y))
  {
    var e := Edges(a, b, c, p);
    EdgesSplitArea(a, b, c, p);
    var w := BarycentricWeights(e);
    BarycentricReproducesPoint(a, b, c, p);
    BlendInExtent(w, a, b, c, p);
  }

  /** A point with convex weights lies within the extent of the three
      vertices it blends. */
  lemma BlendInExtent(w: Weights, a: Vec2, b: Vec2, c: Vec2, p: Vec2)
    requires Convex(w)
    requires w.wa * a.x + w.wb * b.x + w.wc * c.x == p.x
    requires w.wa * a.y + w.wb * b.y + w.wc * c.y == p.y
    ensures Min(a.x, Min(b.x, c.x)) <= p.x <= Max(a.x, Max(b.x, c.x))
    ensures Min(a.y, Min(b.y, c.y)) <= p.y <= Max(a.y, Max(b.y, c.y))
  {
    ConvexBlendBetween(w, a.x, b.x, c.x);
    ConvexBlendBetween(w, a.y, b.y, c.y);
  }
}
