/** The texture filtering methods both effect classes cycle through, and the
    shader technique each one selects. */
module Filtering {

  /** In enum order: `Point`, `Linear`, `Anisotropic`. */
  datatype FilteringMethod = Point | Linear | Anisotropic

  function FilterOrd(m: FilteringMethod): nat {
    match m
    case Point => 0
    case Linear => 1
    case Anisotropic => 2
  }

  function FilteringMethodOf(k: nat): (m: FilteringMethod)
    requires k < 3
    ensures FilterOrd(m) == k
  {
    if k == 0 then Point else if k == 1 then Linear else Anisotropic
  }

  lemma FilterOrdRoundTrip(m: FilteringMethod)
    ensures FilterOrd(m) < 3 && FilteringMethodOf(FilterOrd(m)) == m
  {
  }

  /** The method after one toggle: the next while the integer is below two,
      otherwise back to the first. */
  function NextMethod(m: FilteringMethod): (r: FilteringMethod)
    ensures FilterOrd(r) == (FilterOrd(m) + 1) % 3
  {
    if FilterOrd(m) < 2 then FilteringMethodOf(FilterOrd(m) + 1) else FilteringMethodOf(0)
  }

  function NextMethodTimes(m: FilteringMethod, k: nat): FilteringMethod {
    if k == 0 then m else NextMethod(NextMethodTimes(m, k - 1))
  }

  /** After `k` toggles the method has advanced `k` places around the cycle
      of three. */
  lemma {:induction false} NextMethodTimesAdvances(m: FilteringMethod, k: nat)
    ensures FilterOrd(NextMethodTimes(m, k)) == (FilterOrd(m) + k) % 3
  {
    if k > 0 {
      NextMethodTimesAdvances(m, k - 1);
    }
  }

  /** Point, Linear, Anisotropic, Point: three toggles return to the start,
      fewer never do. */
  lemma NextMethodCycle(m: FilteringMethod)
    ensures NextMethod(Point) == Linear && NextMethod(Linear) == Anisotropic && NextMethod(Anisotropic) == Point
    ensures NextMethodTimes(m, 3) == m
    ensures NextMethod(m) != m && NextMethodTimes(m, 2) != m
  {
    NextMethodTimesAdvances(m, 2);
    NextMethodTimesAdvances(m, 3);
    FilterOrdRoundTrip(m);
    FilterOrdRoundTrip(NextMethodTimes(m, 3));
  }

  /** The technique `GetTechniqueByName` is asked for. */
  function TechniqueName(m: FilteringMethod): string {
    match m
    case Point => "PointFilteringTechnique"
    case Linear => "LinearFilteringTechnique"
    case Anisotropic => "AnisotropicFilteringTechnique"
  }

  /** Each method has its own technique, so the name identifies the method. */
  lemma TechniqueNamesDistinct(m: FilteringMethod, n: FilteringMethod)
    ensures TechniqueName(m) == TechniqueName(n) <==> m == n
  {
    if m != n {
      assert TechniqueName(m)[0] != TechniqueName(n)[0];
    }
  }
}
