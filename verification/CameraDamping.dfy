/**
 How `update` of camera-controls.js lets the camera follow its end state: every call covers a share of the
 remaining way, until what remains is negligible and the end state is copied.
 */
module CameraDamping {

  import opened Reals
  import opened Vectors

  datatype Spherical = Spherical(radius: real, phi: real, theta: real)

  /** Where the camera is around what it looks at. */
  datatype View = View(spherical: Spherical, target: Vector3)

  /** The view shown, the view wanted, and whether something has changed since the last report. */
  datatype Camera = Camera(now: View, end: View, hasUpdated: bool)

  const EPSILON := 0.001
  const PI := 3.141592653589793
  const POLE := 0.000001

  function Abs(x: real): real {
    if x < 0.0 then -x else x
  }

  /** The polar angle kept off the poles. */
  function MakeSafe(phi: real): real {
    var below := if PI - POLE < phi then PI - POLE else phi;
    if below < POLE then POLE else below
  }

  predicate IsSafe(view: View) {
    POLE <= view.spherical.phi <= PI - POLE
  }

  /** What is left to go, coordinate by coordinate. */
  function Gaps(now: View, end: View): (gaps: seq<real>)
    ensures |gaps| == 6
  {
    [end.spherical.theta - now.spherical.theta, end.spherical.phi - now.spherical.phi,
     end.spherical.radius - now.spherical.radius, end.target.x - now.target.x, end.target.y - now.target.y,
     end.target.z - now.target.z]
  }

  predicate IsNear(now: View, end: View) {
    forall gap <- Gaps(now, end) :: Abs(gap) <= EPSILON
  }

  /** What is negligible: nothing differs by more than a thousandth. */
  lemma NearExactly(now: View, end: View)
    ensures IsNear(now, end)
            <==> && -0.001 <= end.spherical.radius - now.spherical.radius <= 0.001
                 && -0.001 <= end.spherical.phi - now.spherical.phi <= 0.001
                 && -0.001 <= end.spherical.theta - now.spherical.theta <= 0.001
                 && -0.001 <= end.target.x - now.target.x <= 0.001
                 && -0.001 <= end.target.y - now.target.y <= 0.001
                 && -0.001 <= end.target.z - now.target.z <= 0.001
  {
    var gaps := Gaps(now, end);
    assert IsNear(now, end) <==> forall i | 0 <= i < 6 :: Abs(gaps[i]) <= EPSILON;
    assert Abs(gaps[0]) <= EPSILON <==> -0.001 <= end.spherical.theta - now.spherical.theta <= 0.001;
    assert Abs(gaps[1]) <= EPSILON <==> -0.001 <= end.spherical.phi - now.spherical.phi <= 0.001;
    assert Abs(gaps[2]) <= EPSILON <==> -0.001 <= end.spherical.radius - now.spherical.radius <= 0.001;
    assert Abs(gaps[3]) <= EPSILON <==> -0.001 <= end.target.x - now.target.x <= 0.001;
    assert Abs(gaps[4]) <= EPSILON <==> -0.001 <= end.target.y - now.target.y <= 0.001;
    assert Abs(gaps[5]) <= EPSILON <==> -0.001 <= end.target.z - now.target.z <= 0.001;
  }

  /** The polar angle ends up a millionth off the poles at least, and stays if it is there already. */
  lemma SafeIsOffThePoles(phi: real)
    ensures 0.000001 <= MakeSafe(phi) <= 3.141592653589793 - 0.000001
    ensures 0.000001 <= phi <= 3.141592653589793 - 0.000001 ==> MakeSafe(phi) == phi
  {}

  function Towards(from: real, to: real, ratio: real): real {
    from + Product(to - from, ratio)
  }

  /** The view a share of the way on. */
  function Moved(now: View, end: View, ratio: real): View {
    View(Spherical(Towards(now.spherical.radius, end.spherical.radius, ratio),
                   Towards(now.spherical.phi, end.spherical.phi, ratio),
                   Towards(now.spherical.theta, end.spherical.theta, ratio)),
         now.target.Plus(end.target.Minus(now.target).Times(ratio)))
  }

  function WithSafePolarAngle(view: View): View {
    view.(spherical := view.spherical.(phi := MakeSafe(view.spherical.phi)))
  }

  function Followed(now: View, end: View, ratio: real): View {
    WithSafePolarAngle(if IsNear(now, end) then end else Moved(now, end, ratio))
  }

  /** One call of `update`; what it reports is `Reported`. */
  function Update(c: Camera, ratio: real): Camera {
    Camera(Followed(c.now, c.end, ratio), c.end, false)
  }

  predicate Reported(c: Camera) {
    c.hasUpdated || !IsNear(c.now, c.end)
  }

  /** Calls with the given ratios one after the other. */
  function Run(c: Camera, ratios: seq<real>): Camera {
    if ratios == [] then c else Update(Run(c, ratios[..|ratios| - 1]), ratios[|ratios| - 1])
  }

  // ---------------------------------------------------------------- one call

  /** What is left of a gap. */
  function Shrunk(gap: real, ratio: real): real {
    Product(gap, 1.0 - ratio)
  }

  /** As long as something is left to go, every gap shrinks by exactly the ratio. */
  lemma GapsShrink(now: View, end: View, ratio: real)
    requires IsSafe(now) && IsSafe(end) && 0.0 <= ratio <= 1.0 && !IsNear(now, end)
    ensures IsSafe(Followed(now, end, ratio))
    ensures forall i | 0 <= i < 6 :: Gaps(Followed(now, end, ratio), end)[i] == Shrunk(Gaps(now, end)[i], ratio)
  {
    var moved := Moved(now, end, ratio);
    PartOfTheWayIsBetween(now.spherical.phi, end.spherical.phi, ratio);
    assert IsSafe(moved);
    assert WithSafePolarAngle(moved) == moved;
    forall i | 0 <= i < 6
      ensures Gaps(moved, end)[i] == Shrunk(Gaps(now, end)[i], ratio)
    {
      Remainder(Gaps(now, end)[i], ratio);
      hide Product;
    }
  }

  lemma PartOfTheWayIsBetween(from: real, to: real, ratio: real)
    requires 0.0 <= ratio <= 1.0
    ensures from <= to ==> from <= Towards(from, to, ratio) <= to
    ensures to <= from ==> to <= Towards(from, to, ratio) <= from
  {
    var gap, rest := to - from, 1.0 - ratio;
    assert Product(gap, ratio) == gap - gap * rest;
  }

  lemma Remainder(gap: real, ratio: real)
    ensures gap - Product(gap, ratio) == Shrunk(gap, ratio)
  {}

  /** A call that reports nothing has arrived, whatever the ratio: the snap itself goes unreported. */
  lemma UnreportedMeansArrived(c: Camera, ratio: real)
    requires IsSafe(c.end) && !Reported(c)
    ensures Update(c, ratio).now == c.end
  {}

  /** Arrived, the camera stays and nothing is reported any more. */
  lemma ArrivedStays(c: Camera, ratio: real)
    requires IsSafe(c.end) && c.now == c.end
    ensures Update(c, ratio).now == c.end && !Reported(Update(c, ratio))
  {}

  /** An end state at a pole is never reached: the polar angle is put back after every copy. */
  lemma ArrivesExactlyAtSafeEnd(c: Camera, ratio: real)
    requires IsNear(c.now, c.end)
    ensures Update(c, ratio).now == c.end <==> IsSafe(c.end)
  {}

  // ---------------------------------------------------------------- any number of calls

  predicate AreAtLeast(ratios: seq<real>, least: real) {
    forall i | 0 <= i < |ratios| :: least <= ratios[i] <= 1.0
  }

  /** How many calls are enough for gaps of at most `bound`: the least number of steps that cover it. */
  function CallsToSettle(bound: real, least: real): (calls: nat)
    requires bound >= 0.0 && least > 0.0
    ensures Product(calls as real, least * EPSILON) >= bound
    ensures calls > 0 ==> Product((calls - 1) as real, least * EPSILON) < bound
  {
    CeilingOfQuotient(bound, least * EPSILON);
    Ceil(bound / (least * EPSILON))
  }

  function Ceil(x: real): int {
    -((-x).Floor)
  }

  lemma CeilingOfQuotient(a: real, b: real)
    requires a >= 0.0 && b > 0.0
    ensures var n := Ceil(a / b);
            n >= 0 && Product(n as real, b) >= a && (n > 0 ==> Product((n - 1) as real, b) < a)
  {
    var q, n := a / b, Ceil(a / b);
    var below, above := q - (n - 1) as real, n as real - q;
    assert q * b == a;
    assert below * b == a - Product((n - 1) as real, b);
    assert above * b == Product(n as real, b) - a;
    NonNegativeProduct(below, b, below * b);
    NonNegativeProduct(above, b, above * b);
    assert q >= 0.0;
    hide Product;
  }

  lemma NonNegativeProduct(a: real, b: real, product: real)
    requires product == a * b && b >= 0.0
    ensures a >= 0.0 ==> product >= 0.0
    ensures a > 0.0 && b > 0.0 ==> product > 0.0
  {}

  /** After `n` calls a gap of at most `bound` is at most `bound / (1 + n * least)`. */
  predicate IsWithin(gap: real, n: nat, least: real, bound: real) {
    Product(Abs(gap), 1.0 + Product(n as real, least)) <= bound
  }

  predicate AreWithin(gaps: seq<real>, n: nat, least: real, bound: real) {
    forall gap <- gaps :: IsWithin(gap, n, least, bound)
  }

  predicate AreAtMost(gaps: seq<real>, bound: real) {
    forall gap <- gaps :: Abs(gap) <= bound
  }

  lemma {:induction false} GapsAfterCalls(c: Camera, ratios: seq<real>, least: real, bound: real)
    requires IsSafe(c.now) && IsSafe(c.end) && least > 0.0 && AreAtLeast(ratios, least)
    requires bound >= 0.0 && AreAtMost(Gaps(c.now, c.end), bound)
    ensures var after := Run(c, ratios);
            after.end == c.end && IsSafe(after.now) && AreWithin(Gaps(after.now, c.end), |ratios|, least, bound)
  {
    hide IsWithin, Gaps, IsNear, Followed, IsSafe;
    if ratios == [] {
      forall gap <- Gaps(c.now, c.end)
        ensures IsWithin(gap, 0, least, bound)
      {
        WithinAtFirst(gap, least, bound);
      }
    } else {
      var n := |ratios| - 1;
      GapsAfterCalls(c, ratios[..n], least, bound);
      StaysWithin(Run(c, ratios[..n]).now, c.end, ratios[n], n, least, bound);
    }
  }

  lemma WithinAtFirst(gap: real, least: real, bound: real)
    requires Abs(gap) <= bound
    ensures IsWithin(gap, 0, least, bound)
  {
    assert Product(0.0, least) == 0.0;
  }

  lemma StaysWithin(now: View, end: View, ratio: real, n: nat, least: real, bound: real)
    requires IsSafe(now) && IsSafe(end) && 0.0 < least <= ratio <= 1.0 && bound >= 0.0
    requires AreWithin(Gaps(now, end), n, least, bound)
    ensures IsSafe(Followed(now, end, ratio)) && AreWithin(Gaps(Followed(now, end, ratio), end), n + 1, least, bound)
  {
    hide IsWithin, Product, Moved, IsSafe;
    if IsNear(now, end) {
      SafeStays(end);
      NothingIsWithin(n + 1, least, bound);
    } else {
      GapsShrink(now, end, ratio);
      ShrunkAreWithin(Gaps(now, end), Gaps(Followed(now, end, ratio), end), ratio, n, least, bound);
    }
  }

  lemma SafeStays(view: View)
    requires IsSafe(view)
    ensures WithSafePolarAngle(view) == view
  {}

  lemma NothingIsWithin(n: nat, least: real, bound: real)
    requires bound >= 0.0
    ensures IsWithin(0.0, n, least, bound)
  {}

  lemma ShrunkAreWithin(gaps: seq<real>, shrunk: seq<real>, ratio: real, n: nat, least: real, bound: real)
    requires |gaps| == |shrunk| && forall i | 0 <= i < |gaps| :: shrunk[i] == Shrunk(gaps[i], ratio)
    requires 0.0 < least <= ratio <= 1.0 && AreWithin(gaps, n, least, bound)
    ensures AreWithin(shrunk, n + 1, least, bound)
  {
    hide IsWithin, Shrunk;
    forall gap <- shrunk
      ensures IsWithin(gap, n + 1, least, bound)
    {
      var i :| 0 <= i < |shrunk| && shrunk[i] == gap;
      ShrunkIsWithin(gaps[i], ratio, n, least, bound);
    }
  }

  lemma ShrunkIsWithin(gap: real, ratio: real, n: nat, least: real, bound: real)
    requires 0.0 < least <= ratio <= 1.0 && IsWithin(gap, n, least, bound)
    ensures IsWithin(Shrunk(gap, ratio), n + 1, least, bound)
  {
    var size, rest, steps := Abs(gap), 1.0 - ratio, Product(n as real, least);
    var weight, next := 1.0 + steps, 1.0 + Product((n + 1) as real, least);
    assert next == weight + least;
    SizeOfShrunk(gap, ratio);
    WeightShrinks(ratio, least, n as real, steps, weight - rest * next);
    var slack := weight - rest * next;
    assert Product(Product(size, rest), next) == Product(size, weight) - size * slack;
    NonNegativeProduct(slack, size, size * slack);
    hide Product, Shrunk;
  }

  lemma SizeOfShrunk(gap: real, ratio: real)
    requires ratio <= 1.0
    ensures Abs(Shrunk(gap, ratio)) == Product(Abs(gap), 1.0 - ratio)
  {
    NonNegativeProduct(Abs(gap), 1.0 - ratio, Product(Abs(gap), 1.0 - ratio));
    assert Product(-gap, 1.0 - ratio) == -Shrunk(gap, ratio);
  }

  lemma WeightShrinks(ratio: real, least: real, n: real, steps: real, slack: real)
    requires 0.0 < least <= ratio <= 1.0 && n >= 0.0 && steps == Product(n, least)
    requires slack == 1.0 + steps - (1.0 - ratio) * (1.0 + steps + least)
    ensures slack >= 0.0
  {
    var more, last := ratio * steps, ratio * least;
    assert slack == ratio - least + more + last;
    NonNegativeProduct(n, least, steps);
    NonNegativeProduct(ratio, least, last);
    NonNegativeProduct(ratio, steps, more);
    hide Product;
  }

  // ---------------------------------------------------------------- arriving

  /** After so many calls nothing is left to go but what is negligible. */
  lemma NearAfterCalls(c: Camera, ratios: seq<real>, least: real, bound: real)
    requires IsSafe(c.now) && IsSafe(c.end) && least > 0.0 && AreAtLeast(ratios, least)
    requires bound >= 0.0 && AreAtMost(Gaps(c.now, c.end), bound) && |ratios| >= CallsToSettle(bound, least)
    ensures IsNear(Run(c, ratios).now, c.end) && Run(c, ratios).end == c.end
  {
    hide IsWithin, Gaps, IsSafe;
    GapsAfterCalls(c, ratios, least, bound);
    forall gap <- Gaps(Run(c, ratios).now, c.end)
      ensures Abs(gap) <= EPSILON
    {
      SmallAfterCalls(gap, |ratios|, least, bound);
    }
  }

  lemma SmallAfterCalls(gap: real, n: nat, least: real, bound: real)
    requires least > 0.0 && bound >= 0.0 && IsWithin(gap, n, least, bound) && n >= CallsToSettle(bound, least)
    ensures Abs(gap) <= EPSILON
  {
    hide Product, CallsToSettle;
    var calls := CallsToSettle(bound, least);
    EnoughSteps(n, calls, least, bound);
    if Abs(gap) > EPSILON {
      LargeIsBeyond(Abs(gap), Product(n as real, least));
    }
  }

  lemma EnoughSteps(n: nat, calls: nat, least: real, bound: real)
    requires least > 0.0 && n >= calls && Product(calls as real, least * EPSILON) >= bound
    ensures Product(Product(n as real, least), EPSILON) >= bound && Product(n as real, least) >= 0.0
  {
    ProductGrows(calls as real, n as real, least * EPSILON);
    Regroup(n as real, least, EPSILON);
    NonNegativeProduct(n as real, least, Product(n as real, least));
    hide Product;
  }

  lemma ProductGrows(a: real, b: real, c: real)
    requires a <= b && c > 0.0
    ensures Product(a, c) <= Product(b, c) && (a < b ==> Product(a, c) < Product(b, c))
  {
    var more := b - a;
    NonNegativeProduct(more, c, Product(more, c));
    assert Product(more, c) == Product(b, c) - Product(a, c);
  }

  lemma Regroup(a: real, b: real, c: real)
    ensures Product(Product(a, b), c) == Product(a, b * c)
  {}

  lemma LargeIsBeyond(size: real, steps: real)
    requires size > EPSILON && steps >= 0.0
    ensures Product(size, 1.0 + steps) > EPSILON + Product(steps, EPSILON)
  {
    assert Product(EPSILON, 1.0 + steps) == EPSILON + Product(steps, EPSILON);
    hide Product;
    ProductGrows(EPSILON, size, 1.0 + steps);
  }

  /** From then on no call reports anything, the first one apart: it reports what was set before. */
  lemma QuietAfterCalls(c: Camera, ratios: seq<real>, least: real, bound: real)
    requires IsSafe(c.now) && IsSafe(c.end) && least > 0.0 && AreAtLeast(ratios, least)
    requires bound >= 0.0 && AreAtMost(Gaps(c.now, c.end), bound)
    requires |ratios| >= CallsToSettle(bound, least) && |ratios| > 0
    ensures !Reported(Run(c, ratios))
  {
    NearAfterCalls(c, ratios, least, bound);
  }

  /**
   With ratios of at least `least`, the camera is exactly where it should be after a number of calls that
   depends only on the largest gap and on `least`, and no later call reports anything or moves it.
   */
  lemma Settles(c: Camera, ratios: seq<real>, least: real, bound: real)
    requires IsSafe(c.now) && IsSafe(c.end) && least > 0.0 && AreAtLeast(ratios, least)
    requires bound >= 0.0 && AreAtMost(Gaps(c.now, c.end), bound) && |ratios| > CallsToSettle(bound, least)
    ensures Run(c, ratios) == Camera(c.end, c.end, false)
    ensures !Reported(Run(c, ratios))
  {
    var n := |ratios| - 1;
    NearAfterCalls(c, ratios[..n], least, bound);
  }

  /** Once there, the camera stays there whatever the ratios of later calls, and none of them reports. */
  lemma {:induction false} StaysSettled(c: Camera, ratios: seq<real>)
    requires IsSafe(c.end) && c.now == c.end && !c.hasUpdated
    ensures Run(c, ratios) == c && !Reported(Run(c, ratios))
  {
    if ratios != [] {
      StaysSettled(c, ratios[..|ratios| - 1]);
      ArrivedStays(Run(c, ratios[..|ratios| - 1]), ratios[|ratios| - 1]);
      hide IsSafe, Followed;
    }
  }
}
