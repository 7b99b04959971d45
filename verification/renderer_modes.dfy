/** The renderer's switches: the key-driven toggles of `Renderer`, most of
    which only act while the software rasterizer is the active renderer. */
module RendererModes {
  import opened Shading
  import opened Culling

  /** The renderer's mode flags. */
  datatype RendererState = RendererState(
    usingDirectX: bool,
    isRotating: bool,
    usingFireMesh: bool,
    usingNormalMap: bool,
    depthBufferVisualization: bool,
    boundingBoxVisualization: bool,
    uniformClearColor: bool,
    lightMode: LightMode,
    cullMode: CullMode)

  /** The light mode enum's underlying integer. */
  function LightOrd(m: LightMode): nat {
    match m
    case ObservedArea => 0
    case Diffuse => 1
    case Specular => 2
    case Combined => 3
  }

  function LightModeOf(k: nat): (m: LightMode)
    requires k < 4
    ensures LightOrd(m) == k
  {
    if k == 0 then ObservedArea else if k == 1 then Diffuse else if k == 2 then Specular else Combined
  }

  lemma LightOrdRoundTrip(m: LightMode)
    ensures LightOrd(m) < 4 && LightModeOf(LightOrd(m)) == m
  {
  }

  /** `SwitchState`: flips between the DirectX and the software renderer. */
  function SwitchState(s: RendererState): (r: RendererState)
    ensures r.usingDirectX != s.usingDirectX
    ensures r.(usingDirectX := s.usingDirectX) == s
  {
    s.(usingDirectX := !s.usingDirectX)
  }

  /** `SwitchRotating`: flips the rotation in either renderer. */
  function SwitchRotating(s: RendererState): (r: RendererState)
    ensures r.isRotating != s.isRotating
    ensures r.(isRotating := s.isRotating) == s
  {
    s.(isRotating := !s.isRotating)
  }

  /** `SwitchUsingFire`: flips the fire mesh, only while DirectX renders. */
  function SwitchUsingFire(s: RendererState): (r: RendererState)
    ensures !s.usingDirectX ==> r == s
    ensures s.usingDirectX ==> r.usingFireMesh != s.usingFireMesh && r.(usingFireMesh := s.usingFireMesh) == s
  {
    if !s.usingDirectX then s else s.(usingFireMesh := !s.usingFireMesh)
  }

  /** `SwitchShadingMode`: the next light mode while the integer is below
      three, otherwise back to the first; nothing happens while DirectX
      renders. */
  function SwitchShadingMode(s: RendererState): (r: RendererState)
    ensures s.usingDirectX ==> r == s
    ensures !s.usingDirectX ==> LightOrd(r.lightMode) == (LightOrd(s.lightMode) + 1) % 4
    ensures r.(lightMode := s.lightMode) == s
  {
    if s.usingDirectX then s
    else if LightOrd(s.lightMode) < 3 then s.(lightMode := LightModeOf(LightOrd(s.lightMode) + 1))
    else s.(lightMode := LightModeOf(0))
  }

  /** `SwitchNormalMap`, `SwitchDepthBufferVisualization` and
      `SwitchBoundingBoxVisualization`: each flips its flag, only while the
      software rasterizer renders. */
  function SwitchNormalMap(s: RendererState): (r: RendererState)
    ensures s.usingDirectX ==> r == s
    ensures !s.usingDirectX ==> r.usingNormalMap != s.usingNormalMap && r.(usingNormalMap := s.usingNormalMap) == s
  {
    if s.usingDirectX then s else s.(usingNormalMap := !s.usingNormalMap)
  }

  function SwitchDepthBufferVisualization(s: RendererState): (r: RendererState)
    ensures s.usingDirectX ==> r == s
    ensures !s.usingDirectX ==> r.depthBufferVisualization != s.depthBufferVisualization
    ensures r.(depthBufferVisualization := s.depthBufferVisualization) == s
  {
    if s.usingDirectX then s else s.(depthBufferVisualization := !s.depthBufferVisualization)
  }

  function SwitchBoundingBoxVisualization(s: RendererState): (r: RendererState)
    ensures s.usingDirectX ==> r == s
    ensures !s.usingDirectX ==> r.boundingBoxVisualization != s.boundingBoxVisualization
    ensures r.(boundingBoxVisualization := s.boundingBoxVisualization) == s
  {
    if s.usingDirectX then s else s.(boundingBoxVisualization := !s.boundingBoxVisualization)
  }

  /** `ToggleUniformClearColor`: flips the clear colour in either renderer. */
  function ToggleUniformClearColor(s: RendererState): (r: RendererState)
    ensures r.uniformClearColor != s.uniformClearColor
    ensures r.(uniformClearColor := s.uniformClearColor) == s
  {
    s.(uniformClearColor := !s.uniformClearColor)
  }

  /** `Renderer::ToggleCullMode`: advances the cull mode in either renderer
      (it has no DirectX guard). */
  function ToggleRendererCullMode(s: RendererState): (r: RendererState)
    ensures CullOrd(r.cullMode) == (CullOrd(s.cullMode) + 1) % 3
    ensures r.(cullMode := s.cullMode) == s
  {
    s.(cullMode := ToggleCullMode(s.cullMode))
  }

  function SwitchShadingModeTimes(s: RendererState, k: nat): RendererState {
    if k == 0 then s else SwitchShadingMode(SwitchShadingModeTimes(s, k - 1))
  }

  /** In the software renderer `k` presses advance the light mode `k` places
      around the cycle of four; in the DirectX renderer they do nothing. */
  lemma {:induction false} SwitchShadingModeTimesAdvances(s: RendererState, k: nat)
    ensures !s.usingDirectX ==> LightOrd(SwitchShadingModeTimes(s, k).lightMode) == (LightOrd(s.lightMode) + k) % 4
    ensures SwitchShadingModeTimes(s, k).(lightMode := s.lightMode) == s
    ensures s.usingDirectX ==> SwitchShadingModeTimes(s, k) == s
  {
    if k > 0 {
      var prev := SwitchShadingModeTimes(s, k - 1);
      SwitchShadingModeTimesAdvances(s, k - 1);
      assert prev.usingDirectX == s.usingDirectX;
      if !s.usingDirectX {
        StepMod4(LightOrd(s.lightMode), k);
      }
    }
  }

  lemma StepMod4(a: nat, k: nat)
    requires k > 0
    ensures ((a + (k - 1)) % 4 + 1) % 4 == (a + k) % 4
  {
  }

  /** Four presses return to the starting light mode, and fewer never do
      while the software rasterizer renders. */
  lemma SwitchShadingModeCycle(s: RendererState)
    ensures SwitchShadingModeTimes(s, 4) == s
    ensures !s.usingDirectX ==> forall k :: 1 <= k < 4 ==> SwitchShadingModeTimes(s, k) != s
  {
    FourPressesReturn(s);
    forall k | 1 <= k < 4
      ensures !s.usingDirectX ==> SwitchShadingModeTimes(s, k) != s
    {
      if !s.usingDirectX {
        FewerPressesMove(s, k);
      }
    }
  }

  lemma FourPressesReturn(s: RendererState)
    ensures SwitchShadingModeTimes(s, 4) == s
  {
    var r := SwitchShadingModeTimes(s, 4);
    SwitchShadingModeTimesAdvances(s, 4);
    LightOrdRoundTrip(s.lightMode);
    LightOrdRoundTrip(r.lightMode);
    if !s.usingDirectX {
      assert LightOrd(r.lightMode) == LightOrd(s.lightMode);
    }
  }

  lemma FewerPressesMove(s: RendererState, k: nat)
    requires !s.usingDirectX && 1 <= k < 4
    ensures SwitchShadingModeTimes(s, k) != s
  {
    SwitchShadingModeTimesAdvances(s, k);
    ShiftMovesMod4(LightOrd(s.lightMode), k);
  }

  lemma ShiftMovesMod4(o: nat, k: nat)
    requires o < 4 && 1 <= k < 4
    ensures (o + k) % 4 != o
  {
  }

  /** Every flag switch undoes itself when pressed twice. */
  lemma SwitchesAreInvolutions(s: RendererState)
    ensures SwitchState(SwitchState(s)) == s
    ensures SwitchRotating(SwitchRotating(s)) == s
    ensures SwitchUsingFire(SwitchUsingFire(s)) == s
    ensures SwitchNormalMap(SwitchNormalMap(s)) == s
    ensures SwitchDepthBufferVisualization(SwitchDepthBufferVisualization(s)) == s
    ensures SwitchBoundingBoxVisualization(SwitchBoundingBoxVisualization(s)) == s
    ensures ToggleUniformClearColor(ToggleUniformClearColor(s)) == s
  {
  }
}
