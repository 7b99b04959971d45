/** `Effect` of the DirectX starter project: `ToggleTechniques` reads the
    F2 key itself and is meant to be polled once per frame. `m_IsButtonDown` is set by a
    toggling poll and cleared by every other poll, including one that finds
    the key still held, so a held key toggles on every other poll rather than
    once per press. `ToggleOnRelease` is the latch cleared only when the key
    is up, under which one press toggles once. */
module LatchedEffect {
  import opened Filtering

  datatype LatchedEffect = LatchedEffect(filteringMethod: FilteringMethod, technique: string, isButtonDown: bool)

  /** One poll, with `f2Pressed` the key's current state. */
  function ToggleTechniques(e: LatchedEffect, f2Pressed: bool): (r: LatchedEffect)
    ensures r.isButtonDown <==> f2Pressed && !e.isButtonDown
    ensures r.isButtonDown ==> r.filteringMethod == NextMethod(e.filteringMethod) && r.technique == TechniqueName(r.filteringMethod)
    ensures !r.isButtonDown ==> r.filteringMethod == e.filteringMethod && r.technique == e.technique
  {
    if f2Pressed && !e.isButtonDown then
      var m := NextMethod(e.filteringMethod);
      LatchedEffect(m, TechniqueName(m), true)
    else e.(isButtonDown := false)
  }

  /** A poll changes the method exactly when the key is down and was not
      latched. */
  lemma ToggleIffFreshPress(e: LatchedEffect, f2Pressed: bool)
    ensures ToggleTechniques(e, f2Pressed).filteringMethod != e.filteringMethod <==> f2Pressed && !e.isButtonDown
  {
    NextMethodCycle(e.filteringMethod);
  }

  /** Two consecutive polls never both toggle. */
  lemma NoTwoConsecutiveToggles(e: LatchedEffect, first: bool, second: bool)
    ensures var mid := ToggleTechniques(e, first);
      !(mid.filteringMethod != e.filteringMethod && ToggleTechniques(mid, second).filteringMethod != mid.filteringMethod)
  {
    ToggleIffFreshPress(e, first);
    ToggleIffFreshPress(ToggleTechniques(e, first), second);
  }

  /** The state after polling with the given key states in order. */
  function Poll(e: LatchedEffect, keys: seq<bool>): LatchedEffect
    decreases |keys|
  {
    if |keys| == 0 then e else ToggleTechniques(Poll(e, keys[..|keys| - 1]), keys[|keys| - 1])
  }

  function Held(n: nat): seq<bool> {
    seq(n, i => true)
  }

  /** Holding the key from an unlatched state toggles on every other poll:
      after `2k` polls the method has advanced `k` places and the latch is
      open again. */
  lemma {:induction false} HeldKeyTogglesEveryOtherPoll(e: LatchedEffect, k: nat)
    requires !e.isButtonDown
    ensures Poll(e, Held(2 * k)).filteringMethod == NextMethodTimes(e.filteringMethod, k)
    ensures !Poll(e, Held(2 * k)).isButtonDown
  {
    if k > 0 {
      HeldKeyTogglesEveryOtherPoll(e, k - 1);
      assert Held(2 * k)[..2 * k - 1] == Held(2 * k - 1);
      assert Held(2 * k - 1)[..2 * k - 2] == Held(2 * (k - 1));
    }
  }

  /** With the key released the method never changes, and the latch is open
      after the first poll. */
  lemma {:induction false} ReleasedKeyNeverToggles(e: LatchedEffect, keys: seq<bool>)
    requires forall i :: 0 <= i < |keys| ==> !keys[i]
    ensures Poll(e, keys).filteringMethod == e.filteringMethod && Poll(e, keys).technique == e.technique
    ensures |keys| > 0 ==> !Poll(e, keys).isButtonDown
    decreases |keys|
  {
    if |keys| > 0 {
      ReleasedKeyNeverToggles(e, keys[..|keys| - 1]);
    }
  }

  /** The latch as evidently intended: a fresh press toggles and latches,
      only a released key clears the latch, and a held key changes nothing. */
  function ToggleOnRelease(e: LatchedEffect, f2Pressed: bool): (r: LatchedEffect)
    ensures r.isButtonDown <==> f2Pressed
    ensures f2Pressed && !e.isButtonDown ==>
      r.filteringMethod == NextMethod(e.filteringMethod) && r.technique == TechniqueName(r.filteringMethod)
    ensures !(f2Pressed && !e.isButtonDown) ==> r.filteringMethod == e.filteringMethod && r.technique == e.technique
  {
    if f2Pressed && !e.isButtonDown then
      var m := NextMethod(e.filteringMethod);
      LatchedEffect(m, TechniqueName(m), true)
    else e.(isButtonDown := f2Pressed)
  }

  /** Both latches agree on every poll except one that finds the key held
      and latched: the source opens the latch there, the intended one keeps
      it closed. */
  lemma LatchesDifferOnlyWhileHeld(e: LatchedEffect, f2Pressed: bool)
    ensures ToggleOnRelease(e, f2Pressed) == ToggleTechniques(e, f2Pressed) <==> !(f2Pressed && e.isButtonDown)
  {
  }

  /** The state after polling the intended latch with the given key states. */
  function PollOnRelease(e: LatchedEffect, keys: seq<bool>): LatchedEffect
    decreases |keys|
  {
    if |keys| == 0 then e else ToggleOnRelease(PollOnRelease(e, keys[..|keys| - 1]), keys[|keys| - 1])
  }

  /** Under the intended latch, holding the key for any number of polls
      from an unlatched state toggles exactly once. */
  lemma {:induction false} HeldKeyTogglesOnce(e: LatchedEffect, n: nat)
    requires !e.isButtonDown && n > 0
    ensures PollOnRelease(e, Held(n)).filteringMethod == NextMethod(e.filteringMethod)
    ensures PollOnRelease(e, Held(n)).isButtonDown
  {
    if n > 1 {
      HeldKeyTogglesOnce(e, n - 1);
      assert Held(n)[..n - 1] == Held(n - 1);
    } else {
      assert Held(n)[..n - 1] == [];
    }
  }

  /** The source as written: three polls with the key held toggle twice. */
  lemma HeldKeyTogglesTwiceInThreePolls(e: LatchedEffect)
    requires !e.isButtonDown
    ensures Poll(e, Held(3)).filteringMethod == NextMethod(NextMethod(e.filteringMethod))
    ensures PollOnRelease(e, Held(3)).filteringMethod == NextMethod(e.filteringMethod)
  {
    assert Held(3)[..2] == Held(2) && Held(2)[..1] == Held(1) && Held(1)[..0] == [];
    HeldKeyTogglesOnce(e, 3);
  }
}
