/** The cull mode of the software rasterizer and its per-pixel decision in
    `Renderer::RenderRasterizer`. */
module Culling {

  /** In the order of `Effect::CullMode`: `None`, `Front`, `Back`. The
      renderer's own enum is not part of this model. */
  datatype CullMode = None | Front | Back

  /** The enum's underlying integer. */
  function CullOrd(m: CullMode): nat {
    match m
    case None => 0
    case Front => 1
    case Back => 2
  }

  /** The enum value of an underlying integer below three. */
  function CullModeOf(k: nat): (m: CullMode)
    requires k < 3
    ensures CullOrd(m) == k
  {
    if k == 0 then None else if k == 1 then Front else Back
  }

  lemma CullOrdRoundTrip(m: CullMode)
    ensures CullOrd(m) < 3 && CullModeOf(CullOrd(m)) == m
  {
  }

  /** `ToggleCullMode`: the next mode while the integer is below two,
      otherwise back to the first. */
  function ToggleCullMode(m: CullMode): (r: CullMode)
    ensures CullOrd(r) == (CullOrd(m) + 1) % 3
  {
    if CullOrd(m) < 2 then CullModeOf(CullOrd(m) + 1) else CullModeOf(0)
  }

  function ToggleCullModeTimes(m: CullMode, k: nat): CullMode {
    if k == 0 then m else ToggleCullMode(ToggleCullModeTimes(m, k - 1))
  }

  /** After `k` toggles the mode has advanced `k` places around the cycle of
      three. */
  lemma {:induction false} ToggleCullModeTimesAdvances(m: CullMode, k: nat)
    ensures CullOrd(ToggleCullModeTimes(m, k)) == (CullOrd(m) + k) % 3
  {
    if k > 0 {
      ToggleCullModeTimesAdvances(m, k - 1);
    }
  }

  /** Three toggles return to the starting mode, and fewer never do. */
  lemma ToggleCullModeCycle(m: CullMode)
    ensures ToggleCullModeTimes(m, 3) == m
    ensures ToggleCullMode(m) != m && ToggleCullModeTimes(m, 2) != m
  {
    ToggleCullModeTimesAdvances(m, 2);
    ToggleCullModeTimesAdvances(m, 3);
    CullOrdRoundTrip(m);
    CullOrdRoundTrip(ToggleCullModeTimes(m, 3));
  }

  /** Whether a pixel survives the culling tests, given the sign-carrying
      dot product of the interpolated normal with the ray to the camera. A
      zero dot is always dropped; `Back` drops positive and `Front` negative
      dots. */
  predicate Keeps(facing: real, m: CullMode) {
    if facing == 0.0 then false
    else if facing > 0.0 && m == Back then false
    else if facing < 0.0 && m == Front then false
    else true
  }

  /** With no culling every non-zero dot survives; for a non-zero dot exactly
      one of `Front` and `Back` keeps the pixel, so the two modes split the
      surface between them. */
  lemma CullModesPartition(facing: real)
    ensures Keeps(facing, None) <==> facing != 0.0
    ensures facing != 0.0 ==> (Keeps(facing, Front) <==> !Keeps(facing, Back))
    ensures Keeps(facing, Back) <==> facing < 0.0
    ensures Keeps(facing, Front) <==> facing > 0.0
  {
  }
}
