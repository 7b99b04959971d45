/** Per-pixel interpolation of `Renderer::RenderRasterizer`: depth and w by
    blending reciprocals, vertex attributes perspective-correctly (each
    divided by its vertex's w, blended, and scaled back by the interpolated
    w). */
module Interpolation {
  import opened Geometry
  import opened EdgeFunctions

  /** `1 / x`. */
  function Recip(x: real): real
    requires x != 0.0
  {
    1.0 / x
  }

  /** Taking the reciprocal twice gives the value back. */
  lemma RecipInvolution(x: real)
    requires x != 0.0
    ensures Recip(x) != 0.0 && Recip(Recip(x)) == x
  {
  }

  /** The blended reciprocals `(1 / a) * wA + (1 / b) * wB + (1 / c) * wC`. */
  function RecipBlend(a: real, b: real, c: real, w: Weights): real
    requires a != 0.0 && b != 0.0 && c != 0.0
  {
    Recip(a) * w.wa + Recip(b) * w.wb + Recip(c) * w.wc
  }

  /** `1 / ((1 / a) * wA + (1 / b) * wB + (1 / c) * wC)`: the form of both the
      depth-buffer value (from the NDC z) and `interpolatedW` (from the clip
      w). */
  function HarmonicBlend(a: real, b: real, c: real, w: Weights): (r: real)
    requires a > 0.0 && b > 0.0 && c > 0.0 && Convex(w)
    ensures 0.0 < r
  {
    HarmonicBounds(a, b, c, w);
    Recip(RecipBlend(a, b, c, w))
  }

  /** The blend never leaves the range of the three blended values: the
      depth written for a covered pixel lies between the nearest and the
      farthest vertex depth. */
  lemma HarmonicBlendBetween(a: real, b: real, c: real, w: Weights)
    requires a > 0.0 && b > 0.0 && c > 0.0 && Convex(w)
    ensures Min(a, Min(b, c)) <= HarmonicBlend(a, b, c, w) <= Max(a, Max(b, c))
  {
    HarmonicBounds(a, b, c, w);
  }

  lemma HarmonicBounds(a: real, b: real, c: real, w: Weights)
    requires a > 0.0 && b > 0.0 && c > 0.0 && Convex(w)
    ensures var d := RecipBlend(a, b, c, w);
      d > 0.0 && 0.0 < Recip(d) && Min(a, Min(b, c)) <= Recip(d) <= Max(a, Max(b, c))
  {
    var lo, hi := Min(a, Min(b, c)), Max(a, Max(b, c));
    ReciprocalBlendBounds(a, b, c, w, lo, hi);
    InvertBounds(RecipBlend(a, b, c, w), lo, hi);
  }

  /** The blended reciprocals lie between the reciprocals of the extremes. */
  lemma ReciprocalBlendBounds(a: real, b: real, c: real, w: Weights, lo: real, hi: real)
    requires Convex(w)
    requires 0.0 < lo && lo <= a <= hi && lo <= b <= hi && lo <= c <= hi
    ensures 0.0 < Recip(hi) <= RecipBlend(a, b, c, w) <= Recip(lo)
  {
    ReciprocalBounds(a, lo, hi);
    ReciprocalBounds(b, lo, hi);
    ReciprocalBounds(c, lo, hi);
    WeightedBetween(Recip(a), Recip(b), Recip(c), w.wa, w.wb, w.wc, Recip(hi), Recip(lo), RecipBlend(a, b, c, w));
  }

  /** Values between two bounds, weighted by convex weights, stay between
      them. */
  lemma WeightedBetween(x: real, y: real, z: real, wa: real, wb: real, wc: real, lo: real, hi: real, s: real)
    requires wa >= 0.0 && wb >= 0.0 && wc >= 0.0 && wa + wb + wc == 1.0
    requires lo <= x <= hi && lo <= y <= hi && lo <= z <= hi
    requires s == x * wa + y * wb + z * wc
    ensures lo <= s <= hi
  {
    BlendAbove(wa, wb, wc, x, y, z, lo);
    BlendBelow(wa, wb, wc, x, y, z, hi);
    assert x * wa + y * wb + z * wc == wa * x + wb * y + wc * z;
  }

  /** Taking reciprocals reverses the order of positive numbers. */
  lemma ReciprocalBounds(x: real, lo: real, hi: real)
    requires 0.0 < lo <= x <= hi
    ensures 0.0 < Recip(hi) <= Recip(x) <= Recip(lo)
  {
    assert 1.0 / x - 1.0 / hi == (hi - x) / (x * hi);
    assert 1.0 / lo - 1.0 / x == (x - lo) / (lo * x);
  }

  lemma InvertBounds(d: real, lo: real, hi: real)
    requires 0.0 < lo <= hi && Recip(hi) <= d <= Recip(lo)
    ensures d > 0.0 && 0.0 < Recip(d) && lo <= Recip(d) <= hi
  {
    ReciprocalBounds(hi, lo, hi);
    ReciprocalBounds(d, Recip(hi), Recip(lo));
    RecipInvolution(lo);
    RecipInvolution(hi);
  }

  /** Three equal values blend to that value, whatever the weights. */
  lemma {:induction false} HarmonicBlendOfEqual(z: real, w: Weights)
    requires z > 0.0 && Convex(w)
    ensures HarmonicBlend(z, z, z, w) == z
  {
    WeightsOfOne(w.wa, w.wb, w.wc, Recip(z));
    assert Recip(z) * w.wa + Recip(z) * w.wb + Recip(z) * w.wc == w.wa * Recip(z) + w.wb * Recip(z) + w.wc * Recip(z);
    RecipInvolution(z);
  }

  /** At a vertex (its weight one, the others zero) the blend is that
      vertex's value. */
  lemma HarmonicBlendAtVertex(a: real, b: real, c: real)
    requires a > 0.0 && b > 0.0 && c > 0.0
    ensures HarmonicBlend(a, b, c, Weights(1.0, 0.0, 0.0)) == a
  {
    RecipInvolution(a);
  }

  /** Perspective-correct interpolation of one scalar attribute with values
      `xa`, `xb`, `xc` at vertices whose clip w are `pa`, `pb`, `pc`. */
  function CorrectedBlend(xa: real, xb: real, xc: real, pa: real, pb: real, pc: real, w: Weights): real
    requires pa > 0.0 && pb > 0.0 && pc > 0.0 && Convex(w)
  {
    AttributeBlend(xa, xb, xc, pa, pb, pc, w) * HarmonicBlend(pa, pb, pc, w)
  }

  /** The blend of the attributes each divided by its vertex's w. */
  function AttributeBlend(xa: real, xb: real, xc: real, pa: real, pb: real, pc: real, w: Weights): real
    requires pa != 0.0 && pb != 0.0 && pc != 0.0
  {
    (xa / pa) * w.wa + (xb / pb) * w.wb + (xc / pc) * w.wc
  }

  /** An attribute that is the same at all three vertices is reproduced
      exactly, whatever the three w: the division by w and the scaling back
      cancel. */
  lemma {:induction false} ConstantAttributeReproduced(x: real, pa: real, pb: real, pc: real, w: Weights)
    requires pa > 0.0 && pb > 0.0 && pc > 0.0 && Convex(w)
    ensures CorrectedBlend(x, x, x, pa, pb, pc, w) == x
  {
    HarmonicBlendIsRecip(pa, pb, pc, w);
    DivisionCancels(x, pa, pb, pc, w);
  }

  lemma HarmonicBlendIsRecip(a: real, b: real, c: real, w: Weights)
    requires a > 0.0 && b > 0.0 && c > 0.0 && Convex(w)
    ensures RecipBlend(a, b, c, w) != 0.0 && HarmonicBlend(a, b, c, w) == Recip(RecipBlend(a, b, c, w))
  {
    HarmonicBounds(a, b, c, w);
  }

  lemma DivisionCancels(x: real, pa: real, pb: real, pc: real, w: Weights)
    requires pa > 0.0 && pb > 0.0 && pc > 0.0
    requires RecipBlend(pa, pb, pc, w) != 0.0
    ensures AttributeBlend(x, x, x, pa, pb, pc, w) * Recip(RecipBlend(pa, pb, pc, w)) == x
  {
    var d := RecipBlend(pa, pb, pc, w);
    FactorOut(x, pa, pb, pc, w);
    ScaleBack(x, d, AttributeBlend(x, x, x, pa, pb, pc, w), Recip(d));
  }

  /** A value scaled by `d` and then by `1 / d` is unchanged. */
  lemma ScaleBack(x: real, d: real, n: real, h: real)
    requires d != 0.0 && n == x * d && h == Recip(d)
    ensures n * h == x
  {
  }

  lemma FactorOut(x: real, pa: real, pb: real, pc: real, w: Weights)
    requires pa != 0.0 && pb != 0.0 && pc != 0.0
    ensures AttributeBlend(x, x, x, pa, pb, pc, w) == x * RecipBlend(pa, pb, pc, w)
  {
    assert x / pa == x * Recip(pa) && x / pb == x * Recip(pb) && x / pc == x * Recip(pc);
  }

  /** When the three w agree (no perspective foreshortening across the
      triangle) the corrected blend is the plain barycentric blend. */
  lemma {:induction false} EqualWIsAffine(xa: real, xb: real, xc: real, p: real, w: Weights)
    requires p > 0.0 && Convex(w)
    ensures CorrectedBlend(xa, xb, xc, p, p, p, w) == xa * w.wa + xb * w.wb + xc * w.wc
  {
    HarmonicBlendOfEqual(p, w);
    assert (xa / p) * w.wa + (xb / p) * w.wb + (xc / p) * w.wc == (xa * w.wa + xb * w.wb + xc * w.wc) / p;
  }

  /** At a vertex the corrected blend is that vertex's attribute. */
  lemma CorrectedBlendAtVertex(xa: real, xb: real, xc: real, pa: real, pb: real, pc: real)
    requires pa > 0.0 && pb > 0.0 && pc > 0.0
    ensures CorrectedBlend(xa, xb, xc, pa, pb, pc, Weights(1.0, 0.0, 0.0)) == xa
  {
    HarmonicBlendAtVertex(pa, pb, pc);
  }

  /** The component-wise corrected blends of texture coordinates and of
      three-component attributes. */
  function CorrectedBlend2(a: Vec2, b: Vec2, c: Vec2, pa: real, pb: real, pc: real, w: Weights): Vec2
    requires pa > 0.0 && pb > 0.0 && pc > 0.0 && Convex(w)
  {
    Vec2(CorrectedBlend(a.x, b.x, c.x, pa, pb, pc, w), CorrectedBlend(a.y, b.y, c.y, pa, pb, pc, w))
  }

  function CorrectedBlend3(a: Vec3, b: Vec3, c: Vec3, pa: real, pb: real, pc: real, w: Weights): Vec3
    requires pa > 0.0 && pb > 0.0 && pc > 0.0 && Convex(w)
  {
    Vec3(
      CorrectedBlend(a.x, b.x, c.x, pa, pb, pc, w),
      CorrectedBlend(a.y, b.y, c.y, pa, pb, pc, w),
      CorrectedBlend(a.z, b.z, c.z, pa, pb, pc, w))
  }

  /** The vector forms inherit both facts: a shared attribute is reproduced,
      and equal w give the plain blend. */
  lemma CorrectedBlend2Properties(a: Vec2, b: Vec2, c: Vec2, p: real, w: Weights)
    requires p > 0.0 && Convex(w)
    ensures CorrectedBlend2(a, a, a, p, p, p, w) == a
    ensures CorrectedBlend2(a, b, c, p, p, p, w) ==
      Vec2(a.x * w.wa + b.x * w.wb + c.x * w.wc, a.y * w.wa + b.y * w.wb + c.y * w.wc)
  {
    ConstantAttributeReproduced(a.x, p, p, p, w);
    ConstantAttributeReproduced(a.y, p, p, p, w);
    EqualWIsAffine(a.x, b.x, c.x, p, w);
    EqualWIsAffine(a.y, b.y, c.y, p, w);
  }

  lemma SharedAttributeReproduced3(a: Vec3, pa: real, pb: real, pc: real, w: Weights)
    requires pa > 0.0 && pb > 0.0 && pc > 0.0 && Convex(w)
    ensures CorrectedBlend3(a, a, a, pa, pb, pc, w) == a
  {
    ConstantAttributeReproduced(a.x, pa, pb, pc, w);
    ConstantAttributeReproduced(a.y, pa, pb, pc, w);
    ConstantAttributeReproduced(a.z, pa, pb, pc, w);
  }
}
