/** The software depth buffer of `Renderer::RenderRasterizer`: one value per
    pixel, reset to `FLT_MAX` at the start of every frame, and lowered by each
    fragment that passes the less-or-equal depth test. */
module DepthBuffer {
  import opened Geometry

  /** `FLT_MAX`, the largest finite single-precision value, exactly. */
  const FltMax: real := 340282346638528859811704183484516925440.0

  /** The buffer after the per-frame `std::fill_n(…, FLT_MAX)`. */
  function Cleared(n: nat): (buf: seq<real>)
    ensures |buf| == n
    ensures forall i :: 0 <= i < n ==> buf[i] == FltMax
  {
    seq(n, i => FltMax)
  }

  /** A fragment passes unless it is strictly farther than the stored value,
      so ties pass. */
  predicate Passes(stored: real, z: real) {
    !(z > stored)
  }

  /** One fragment at buffer position `i` with depth `z`: a passing fragment
      stores its depth, a failing one changes nothing. */
  function DepthTest(buf: seq<real>, i: nat, z: real): (r: seq<real>)
    requires i < |buf|
    ensures |r| == |buf|
    ensures r[i] == Min(z, buf[i])
    ensures forall j :: 0 <= j < |buf| && j != i ==> r[j] == buf[j]
  {
    if Passes(buf[i], z) then buf[i := z] else buf
  }

  /** The stored value of every position only ever goes down. */
  lemma DepthTestNonIncreasing(buf: seq<real>, i: nat, z: real)
    requires i < |buf|
    ensures forall j :: 0 <= j < |buf| ==> DepthTest(buf, i, z)[j] <= buf[j]
  {
  }

  /** Offering the same fragment twice has the effect of offering it once. */
  lemma DepthTestIdempotent(buf: seq<real>, i: nat, z: real)
    requires i < |buf|
    ensures DepthTest(DepthTest(buf, i, z), i, z) == DepthTest(buf, i, z)
  {
  }

  /** Two fragments commute: the buffer does not depend on the order in which
      fragments arrive. */
  lemma DepthTestsCommute(buf: seq<real>, i: nat, z: real, k: nat, y: real)
    requires i < |buf| && k < |buf|
    ensures DepthTest(DepthTest(buf, i, z), k, y) == DepthTest(DepthTest(buf, k, y), i, z)
  {
    var left, right := DepthTest(DepthTest(buf, i, z), k, y), DepthTest(DepthTest(buf, k, y), i, z);
    assert forall j :: 0 <= j < |buf| ==> left[j] == right[j];
  }

  /** A depth candidate for buffer position `index`. */
  datatype Fragment = Fragment(index: nat, z: real)

  predicate FragmentsFit(frags: seq<Fragment>, n: nat) {
    forall k :: 0 <= k < |frags| ==> frags[k].index < n
  }

  /** The buffer after offering the fragments in order. */
  function ApplyFragments(buf: seq<real>, frags: seq<Fragment>): (r: seq<real>)
    requires FragmentsFit(frags, |buf|)
    ensures |r| == |buf|
    decreases |frags|
  {
    if |frags| == 0 then buf
    else
      var last := frags[|frags| - 1];
      DepthTest(ApplyFragments(buf, frags[..|frags| - 1]), last.index, last.z)
  }

  /** Reference reading: the smallest of `start` and of every depth offered
      at position `j`. */
  function LowestAt(start: real, frags: seq<Fragment>, j: nat): real
    decreases |frags|
  {
    if |frags| == 0 then start
    else
      var rest := LowestAt(start, frags[..|frags| - 1], j);
      if frags[|frags| - 1].index == j then Min(rest, frags[|frags| - 1].z) else rest
  }

  /** Every position of the buffer holds the running minimum of its start
      value and of the depths offered to it; with the `FLT_MAX` start this is
      the nearest fragment of the frame. */
  lemma {:induction false} ApplyFragmentsIsRunningMinimum(buf: seq<real>, frags: seq<Fragment>, j: nat)
    requires FragmentsFit(frags, |buf|) && j < |buf|
    ensures ApplyFragments(buf, frags)[j] == LowestAt(buf[j], frags, j)
    decreases |frags|
  {
    if |frags| > 0 {
      var front := frags[..|frags| - 1];
      assert FragmentsFit(front, |buf|);
      ApplyFragmentsIsRunningMinimum(buf, front, j);
    }
  }

  /** The minimum is a lower bound of every depth offered at its position. */
  lemma {:induction false} LowestAtIsLowerBound(start: real, frags: seq<Fragment>, j: nat)
    ensures LowestAt(start, frags, j) <= start
    ensures forall k :: 0 <= k < |frags| && frags[k].index == j ==> LowestAt(start, frags, j) <= frags[k].z
    decreases |frags|
  {
    if |frags| > 0 {
      var front := frags[..|frags| - 1];
      LowestAtIsLowerBound(start, front, j);
      assert forall k :: 0 <= k < |front| ==> front[k] == frags[k];
    }
  }

  /** Positions no fragment targets keep their start value. */
  lemma {:induction false} UntouchedPositionsKeepValue(buf: seq<real>, frags: seq<Fragment>, j: nat)
    requires FragmentsFit(frags, |buf|) && j < |buf|
    requires forall k :: 0 <= k < |frags| ==> frags[k].index != j
    ensures ApplyFragments(buf, frags)[j] == buf[j]
    decreases |frags|
  {
    if |frags| > 0 {
      var front := frags[..|frags| - 1];
      assert FragmentsFit(front, |buf|);
      UntouchedPositionsKeepValue(buf, front, j);
    }
  }

  /** Offering two runs of fragments one after the other: the second run
      starts from the minimum the first one left. */
  lemma {:induction false} LowestAtAppend(start: real, first: seq<Fragment>, second: seq<Fragment>, j: nat)
    ensures LowestAt(start, first + second, j) == LowestAt(LowestAt(start, first, j), second, j)
    decreases |second|
  {
    if |second| == 0 {
      assert first + second == first;
    } else {
      var all := first + second;
      assert all[..|all| - 1] == first + second[..|second| - 1];
      assert all[|all| - 1] == second[|second| - 1];
      LowestAtAppend(start, first, second[..|second| - 1], j);
    }
  }
}
