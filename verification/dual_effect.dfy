/** `Effect` of the dual rasterizer: the filtering method, the technique it
    selects, the sample-state number, and the renderer's `SwitchTechniques`
    that toggles every mesh's effect. */
module DualEffect {
  import opened Filtering

  /** The effect's filtering state: the method and the name of the technique
      last fetched for it. */
  datatype Effect = Effect(filteringMethod: FilteringMethod, technique: string)

  /** The technique matches the method. */
  predicate Consistent(e: Effect) {
    e.technique == TechniqueName(e.filteringMethod)
  }

  /** `ToggleTechniques`: advance the method and fetch its technique. */
  function ToggleTechniques(e: Effect): (r: Effect)
    ensures FilterOrd(r.filteringMethod) == (FilterOrd(e.filteringMethod) + 1) % 3
    ensures Consistent(r)
  {
    var m := NextMethod(e.filteringMethod);
    Effect(m, TechniqueName(m))
  }

  /** `GetSampleState`: 0, 1 or 2 for Point, Linear, Anisotropic. The
      `default: return 4` branch has no enum value left to reach it. */
  function GetSampleState(e: Effect): (k: int)
    ensures 0 <= k <= 2
    ensures k == FilterOrd(e.filteringMethod)
  {
    match e.filteringMethod
    case Point => 0
    case Linear => 1
    case Anisotropic => 2
  }

  function ToggleTechniquesTimes(e: Effect, k: nat): Effect {
    if k == 0 then e else ToggleTechniques(ToggleTechniquesTimes(e, k - 1))
  }

  /** From Point, the sample state after `k` toggles is `k mod 3`, and the
      technique always matches from the first toggle on. */
  lemma {:induction false} SampleStateCountsToggles(e: Effect, k: nat)
    requires e.filteringMethod == Point
    ensures GetSampleState(ToggleTechniquesTimes(e, k)) == k % 3
    ensures k > 0 ==> Consistent(ToggleTechniquesTimes(e, k))
  {
    if k > 0 {
      SampleStateCountsToggles(e, k - 1);
      StepMod3(k - 1);
    }
  }

  lemma StepMod3(j: nat)
    ensures (j % 3 + 1) % 3 == (j + 1) % 3
  {
  }

  /** Toggling keeps a consistent effect consistent, and three toggles give
      back the same effect. */
  lemma ToggleTechniquesCycle(e: Effect)
    requires Consistent(e)
    ensures ToggleTechniquesTimes(e, 3) == e
  {
    NextMethodCycle(e.filteringMethod);
    assert ToggleTechniquesTimes(e, 3).filteringMethod == NextMethodTimes(e.filteringMethod, 3) by {
      assert ToggleTechniquesTimes(e, 1).filteringMethod == NextMethodTimes(e.filteringMethod, 1);
      assert ToggleTechniquesTimes(e, 2).filteringMethod == NextMethodTimes(e.filteringMethod, 2);
    }
  }

  /** `Renderer::SwitchTechniques`: toggles every mesh's effect while DirectX
      renders, and does nothing otherwise. */
  function SwitchTechniques(usingDirectX: bool, effects: seq<Effect>): (r: seq<Effect>)
    ensures |r| == |effects|
    ensures !usingDirectX ==> r == effects
    ensures usingDirectX ==> forall i :: 0 <= i < |r| ==>
      Consistent(r[i]) && FilterOrd(r[i].filteringMethod) == (FilterOrd(effects[i].filteringMethod) + 1) % 3
  {
    if !usingDirectX then effects
    else seq(|effects|, i requires 0 <= i < |effects| => ToggleTechniques(effects[i]))
  }

  /** Effects that start on the same method stay in step. */
  lemma SwitchTechniquesKeepsInStep(effects: seq<Effect>, i: nat, j: nat)
    requires i < |effects| && j < |effects|
    requires effects[i].filteringMethod == effects[j].filteringMethod
    ensures SwitchTechniques(true, effects)[i] == SwitchTechniques(true, effects)[j]
  {
  }
}
