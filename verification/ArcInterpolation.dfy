/**
 Unrolling an arc into segments: `interpolateArc` of prettygcode.js in exact arithmetic. What `hypot`,
 `atan2`, `cos` and `sin` deliver is a parameter, with the equations these functions satisfy.
 */
module ArcInterpolation {
  import opened Reals

  datatype Point = Point(x: real, y: real, z: real, e: real)

  datatype Vector = Vector(x: real, y: real)

  datatype Arc = Arc(target: Point, i: real, j: real, clockwise: bool)

  /** The cosine and sine of an angle. */
  datatype Rotation = Rotation(cos: real, sin: real)

  /**
   The library's results for one arc: the radius, the angle from `atan2`, the travelled length, and the
   rotation by `k` segments for every `k`.
   */
  datatype Measures = Measures(radius: real, angle: real, length: real, rotation: nat -> Rotation)

  const MM_PER_ARC_SEGMENT := 1.0
  const MIN_ARC_SEGMENTS := 20
  const MIN_MM_PER_ARC_SEGMENT := 0.1
  const N_ARC_CORRECTION := 24

  // ---------------------------------------------------------------- rotations

  function Rotate(r: Rotation, v: Vector): Vector {
    Vector(v.x * r.cos - v.y * r.sin, v.x * r.sin + v.y * r.cos)
  }

  /** The addition theorems. */
  function Compose(a: Rotation, b: Rotation): Rotation {
    Rotation(a.cos * b.cos - a.sin * b.sin, a.sin * b.cos + a.cos * b.sin)
  }

  ghost predicate IsUnit(r: Rotation) {
    r.cos * r.cos + r.sin * r.sin == 1.0
  }

  function Norm2(v: Vector): real {
    v.x * v.x + v.y * v.y
  }

  /** `rotation(k)` turns by `k` times the angle of `rotation(1)`. */
  ghost predicate IsMultipleAngle(rotation: nat -> Rotation) {
    && rotation(0) == Rotation(1.0, 0.0)
    && IsUnit(rotation(1))
    && forall k: nat :: rotation(k + 1) == Compose(rotation(k), rotation(1))
  }

  lemma RotateTwice(a: Rotation, b: Rotation, v: Vector)
    ensures Rotate(b, Rotate(a, v)) == Rotate(Compose(a, b), v)
  {}

  lemma RotateKeepsNorm(r: Rotation, v: Vector)
    requires IsUnit(r)
    ensures Norm2(Rotate(r, v)) == Norm2(v)
  {
    var w := Rotate(r, v);
    assert Norm2(w) == Norm2(v) * (r.cos * r.cos + r.sin * r.sin);
  }

  lemma ComposeUnits(a: Rotation, b: Rotation)
    requires IsUnit(a) && IsUnit(b)
    ensures IsUnit(Compose(a, b))
  {
    var c := Compose(a, b);
    assert c.cos * c.cos + c.sin * c.sin
        == (a.cos * a.cos + a.sin * a.sin) * (b.cos * b.cos + b.sin * b.sin);
  }

  lemma {:induction false} MultiplesAreUnits(rotation: nat -> Rotation, k: nat)
    requires IsMultipleAngle(rotation)
    ensures IsUnit(rotation(k))
  {
    if k > 0 {
      MultiplesAreUnits(rotation, k - 1);
      assert rotation(k - 1 + 1) == Compose(rotation(k - 1), rotation(1));
      ComposeUnits(rotation(k - 1), rotation(1));
    }
  }

  // ---------------------------------------------------------------- how many segments

  function Ceil(x: real): int {
    -((-x).Floor)
  }

  /** The segment length: a twentieth of the circle, but never outside the configured bounds. */
  function SegmentLength(radius: real, twoPi: real): real {
    var wanted := if MIN_ARC_SEGMENTS > 0 then radius * (twoPi / MIN_ARC_SEGMENTS as real) else MM_PER_ARC_SEGMENT;
    var atLeast :=
      if MIN_MM_PER_ARC_SEGMENT > 0.0 && wanted < MIN_MM_PER_ARC_SEGMENT then MIN_MM_PER_ARC_SEGMENT else wanted;
    if atLeast > MM_PER_ARC_SEGMENT then MM_PER_ARC_SEGMENT else atLeast
  }

  function Segments(m: Measures, twoPi: real): int {
    Ceil(m.length / SegmentLength(m.radius, twoPi))
  }

  /** The angle to travel: positive counter-clockwise, negative clockwise, a full turn to the same place. */
  function AngularTravel(atan2: real, clockwise: bool, samePlace: bool, twoPi: real): real {
    var positive := if atan2 < 0.0 then atan2 + twoPi else atan2;
    var directed := if clockwise then positive - twoPi else positive;
    if samePlace && directed == 0.0 then directed + twoPi else directed
  }

  // ---------------------------------------------------------------- the exact arc

  function RadiusVector(arc: Arc): Vector {
    Vector(-arc.i, -arc.j)
  }

  function Center(start: Point, arc: Arc): Vector {
    Vector(start.x - RadiusVector(arc).x, start.y - RadiusVector(arc).y)
  }

  /** Point `k` of `n`: the radius turned by `k` segments, height and extrusion `k` parts of the way. */
  function OnArc(start: Point, arc: Arc, n: nat, rotation: nat -> Rotation, k: nat): Point
    requires n > 0
  {
    var v := Rotate(rotation(k), RadiusVector(arc));
    Point(Center(start, arc).x + v.x, Center(start, arc).y + v.y,
          start.z + Product(k as real, (arc.target.z - start.z) / n as real),
          start.e + Product(k as real, (arc.target.e - start.e) / n as real))
  }

  /** The start, the points of the exact arc strictly between, and the target itself. */
  function ExactPolyline(start: Point, arc: Arc, n: int, rotation: nat -> Rotation): seq<Point> {
    [start]
    + (if n > 1 then seq(n - 1, k requires 0 <= k < n - 1 => OnArc(start, arc, n, rotation, k + 1)) else [])
    + [arc.target]
  }

  /**
   The loop turns the last radius vector by one segment, and every 25th time recomputes it from the
   initial one; either way the points are those of the exact arc.
   */
  method InterpolateArc(start: Point, arc: Arc, m: Measures, twoPi: real) returns (segments: seq<Point>)
    requires IsMultipleAngle(m.rotation)
    ensures segments == ExactPolyline(start, arc, Segments(m, twoPi), m.rotation)
  {
    hide OnArc, Rotate, IsMultipleAngle, Segments, Compose, Product;
    segments := [start];
    var vRadius := RadiusVector(arc);
    var center := Vector(start.x - vRadius.x, start.y - vRadius.y);
    var n := Segments(m, twoPi);
    if n > 1 {
      var zStep := (arc.target.z - start.z) / n as real;
      var eStep := (arc.target.e - start.e) / n as real;
      var step := m.rotation(1);
      var current := start;
      var count := 0;
      var i := 1;
      RotateByNothing(m.rotation, vRadius);
      NoStepYet(start, zStep, eStep);
      while i < n
        invariant 1 <= i <= n
        invariant vRadius == Rotate(m.rotation(i - 1), RadiusVector(arc))
        invariant Along(start, current, i - 1, zStep, eStep)
        invariant |segments| == i && segments[0] == start
        invariant forall k | 1 <= k < i :: segments[k] == OnArc(start, arc, n, m.rotation, k)
      {
        if count < N_ARC_CORRECTION {
          IncrementIsDirect(m.rotation, i, RadiusVector(arc));
          RotateIs(step, vRadius);
          var axis := vRadius.x * step.sin + vRadius.y * step.cos;
          vRadius := Vector(vRadius.x * step.cos - vRadius.y * step.sin, axis);
          count := count + 1;
        } else {
          var turn := m.rotation(i);
          DirectIs(turn, arc);
          vRadius := Vector(-arc.i * turn.cos + arc.j * turn.sin, -arc.i * turn.sin - arc.j * turn.cos);
          count := 0;
        }
        var line := Point(center.x + vRadius.x, center.y + vRadius.y, current.z + zStep, current.e + eStep);
        LineIsOnArc(start, arc, n, m.rotation, i, vRadius, current, zStep, eStep, line);
        segments := segments + [line];
        current := line;
        i := i + 1;
      }
    }
    segments := segments + [arc.target];
  }

  /** `current` has moved `k` steps up and `k` steps of extrusion. */
  ghost predicate Along(start: Point, current: Point, k: nat, zStep: real, eStep: real) {
    current.z == start.z + Product(k as real, zStep) && current.e == start.e + Product(k as real, eStep)
  }

  lemma NoStepYet(start: Point, zStep: real, eStep: real)
    ensures Along(start, start, 0, zStep, eStep)
  {}

  lemma RotateIs(r: Rotation, v: Vector)
    ensures Rotate(r, v) == Vector(v.x * r.cos - v.y * r.sin, v.x * r.sin + v.y * r.cos)
  {}

  /** The correction branch writes the rotation of the initial radius vector out. */
  lemma DirectIs(r: Rotation, arc: Arc)
    ensures Rotate(r, RadiusVector(arc)) == Vector(-arc.i * r.cos + arc.j * r.sin, -arc.i * r.sin - arc.j * r.cos)
  {}

  lemma LineIsOnArc(
    start: Point, arc: Arc, n: nat, rotation: nat -> Rotation, i: nat, v: Vector, current: Point, zStep: real,
    eStep: real, line: Point)
    requires 0 < i < n && v == Rotate(rotation(i), RadiusVector(arc)) && Along(start, current, i - 1, zStep, eStep)
    requires zStep == (arc.target.z - start.z) / n as real && eStep == (arc.target.e - start.e) / n as real
    requires line == Point(Center(start, arc).x + v.x, Center(start, arc).y + v.y, current.z + zStep, current.e + eStep)
    ensures line == OnArc(start, arc, n, rotation, i) && Along(start, line, i, zStep, eStep)
  {
    hide Rotate, Product;
    Distribute(i, zStep);
    Distribute(i, eStep);
  }

  lemma RotateByNothing(rotation: nat -> Rotation, v: Vector)
    requires IsMultipleAngle(rotation)
    ensures Rotate(rotation(0), v) == v
  {}

  lemma Distribute(i: int, step: real)
    ensures Product(i as real, step) == Product((i - 1) as real, step) + step
  {}

  /** One more turn by a segment is the turn by one more segment: the correction changes nothing. */
  lemma IncrementIsDirect(rotation: nat -> Rotation, i: nat, v: Vector)
    requires IsMultipleAngle(rotation) && i > 0
    ensures Rotate(rotation(1), Rotate(rotation(i - 1), v)) == Rotate(rotation(i), v)
  {
    assert rotation(i - 1 + 1) == Compose(rotation(i - 1), rotation(1));
    RotateTwice(rotation(i - 1), rotation(1), v);
  }

  // ---------------------------------------------------------------- what the polyline is

  /** The start, `n - 1` interior points, the target: `max(n, 1) + 1` points in all. */
  lemma PolylineEnds(start: Point, arc: Arc, n: int, rotation: nat -> Rotation)
    ensures var points := ExactPolyline(start, arc, n, rotation);
            && |points| == (if n > 1 then n else 1) + 1
            && points[0] == start && points[|points| - 1] == arc.target
            && forall k | 0 < k < |points| - 1 :: n > 1 && points[k] == OnArc(start, arc, n, rotation, k)
  {}

  /**
   The center lies I and J away from the start. Every point is the start turned around it by `k` segments,
   counter-clockwise for a positive angle, and keeps its radius.
   */
  lemma InteriorKeepsRadius(start: Point, arc: Arc, n: nat, rotation: nat -> Rotation, k: nat)
    requires n > 0 && IsMultipleAngle(rotation)
    ensures var p, x, y := OnArc(start, arc, n, rotation, k), start.x + arc.i, start.y + arc.j;
            var dx, dy, turn := start.x - x, start.y - y, rotation(k);
            && p.x == x + Product(dx, turn.cos) - Product(dy, turn.sin)
            && p.y == y + Product(dx, turn.sin) + Product(dy, turn.cos)
            && Norm2(Vector(p.x - x, p.y - y)) == arc.i * arc.i + arc.j * arc.j
  {
    TurnsAround(start, arc, n, rotation, k);
    MultiplesAreUnits(rotation, k);
    RotateKeepsNorm(rotation(k), RadiusVector(arc));
    NormOfRadius(arc);
    hide Norm2, Rotate, IsMultipleAngle, IsUnit, RadiusVector;
    var p, center := OnArc(start, arc, n, rotation, k), Center(start, arc);
    assert Vector(p.x - center.x, p.y - center.y) == Rotate(rotation(k), RadiusVector(arc));
  }

  lemma TurnsAround(start: Point, arc: Arc, n: nat, rotation: nat -> Rotation, k: nat)
    requires n > 0
    ensures Center(start, arc) == Vector(start.x + arc.i, start.y + arc.j)
    ensures var p, center, turn := OnArc(start, arc, n, rotation, k), Center(start, arc), rotation(k);
            var dx, dy := start.x - center.x, start.y - center.y;
            && p.x == center.x + Product(dx, turn.cos) - Product(dy, turn.sin)
            && p.y == center.y + Product(dx, turn.sin) + Product(dy, turn.cos)
  {}

  lemma NormOfRadius(arc: Arc)
    ensures Norm2(RadiusVector(arc)) == arc.i * arc.i + arc.j * arc.j
  {}

  /** Height and extrusion are linear from the start to the target, and would arrive at it. */
  lemma HeightIsLinear(start: Point, arc: Arc, n: nat, rotation: nat -> Rotation)
    requires n > 0
    ensures OnArc(start, arc, n, rotation, n).z == arc.target.z && OnArc(start, arc, n, rotation, n).e == arc.target.e
    ensures forall k: nat ::
              var here, next := OnArc(start, arc, n, rotation, k), OnArc(start, arc, n, rotation, k + 1);
              && next.z - here.z == (arc.target.z - start.z) / n as real
              && next.e - here.e == (arc.target.e - start.e) / n as real
  {
    hide Product, Rotate;
    AllSteps(arc.target.z - start.z, n);
    AllSteps(arc.target.e - start.e, n);
    forall k: nat
      ensures var here, next := OnArc(start, arc, n, rotation, k), OnArc(start, arc, n, rotation, k + 1);
              && next.z - here.z == (arc.target.z - start.z) / n as real
              && next.e - here.e == (arc.target.e - start.e) / n as real
    {
      Distribute(k + 1, (arc.target.z - start.z) / n as real);
      Distribute(k + 1, (arc.target.e - start.e) / n as real);
    }
  }

  lemma AllSteps(total: real, n: nat)
    requires n > 0
    ensures Product(n as real, total / n as real) == total
  {}

  lemma CeilBounds(x: real)
    ensures (Ceil(x) - 1) as real < x <= Ceil(x) as real
  {}

  /** The way travelled around the circle: `m.angle` is what `atan2` gave. */
  function Around(start: Point, arc: Arc, m: Measures, twoPi: real): real {
    AngularTravel(m.angle, arc.clockwise, start.x == arc.target.x && start.y == arc.target.y, twoPi) * m.radius
  }

  /** What the two calls of `hypot` deliver: the radius, and the length of the helix. */
  ghost predicate IsMeasured(start: Point, arc: Arc, m: Measures, twoPi: real) {
    && m.radius >= 0.0 && Product(m.radius, m.radius) == Norm2(RadiusVector(arc))
    && m.length >= 0.0 && Product(m.length, m.length) == Norm2(Helix(start, arc, m, twoPi))
  }

  /** The helix unrolled: the way around and the way up. */
  function Helix(start: Point, arc: Arc, m: Measures, twoPi: real): Vector {
    Vector(Around(start, arc, m, twoPi), arc.target.z - start.z)
  }

  function Part(v: Vector, n: int): Vector
    requires n > 0
  {
    Vector(v.x / n as real, v.y / n as real)
  }

  /**
   The part of the helix that a segment stands for is no longer than the segment length, which is a
   twentieth of the circle or the bound next to that; and one segment less would not do.
   */
  lemma SegmentsAreShortEnough(start: Point, arc: Arc, m: Measures, twoPi: real)
    requires IsMeasured(start, arc, m, twoPi)
    ensures var size, n := SegmentLength(m.radius, twoPi), Segments(m, twoPi);
            && 0.1 <= size <= 1.0
            && (size == Product(m.radius, twoPi / 20.0) || (size == 0.1 > Product(m.radius, twoPi / 20.0))
                || (size == 1.0 < Product(m.radius, twoPi / 20.0)))
            && n >= 0 && (n == 0 <==> m.length == 0.0)
            && (n > 0 ==> Norm2(Part(Helix(start, arc, m, twoPi), n)) <= Product(size, size))
            && (n > 0 ==> Product((n - 1) as real, size) < m.length)
  {
    SegmentsCover(m, twoPi);
    TwentiethOrBound(m.radius, twoPi);
    hide Norm2, RadiusVector, Helix, SegmentLength, Segments, Product, Part;
    var size, n := SegmentLength(m.radius, twoPi), Segments(m, twoPi);
    if n > 0 {
      PartIsShort(Helix(start, arc, m, twoPi), m.length, n, size);
    }
  }

  lemma TwentiethOrBound(radius: real, twoPi: real)
    ensures var size, wanted := SegmentLength(radius, twoPi), Product(radius, twoPi / 20.0);
            size == wanted || size == 0.1 > wanted || size == 1.0 < wanted
  {}

  lemma PartIsShort(v: Vector, length: real, n: int, size: real)
    requires n > 0 && length >= 0.0 && size > 0.0 && length / n as real <= size
    requires Product(length, length) == Norm2(v)
    ensures Norm2(Part(v, n)) <= Product(size, size)
  {
    hide Norm2, Product;
    var each, part := length / n as real, Part(v, n);
    QuotientBack(v.x, n as real);
    QuotientBack(v.y, n as real);
    QuotientBack(length, n as real);
    ScaledNorm(part, n as real, v);
    ScaledSquare(each, n as real, length);
    CancelSquare(Norm2(part), Product(each, each), n as real);
    SquareGrows(each, size);
  }

  lemma SegmentsCover(m: Measures, twoPi: real)
    requires m.length >= 0.0
    ensures var size, n := SegmentLength(m.radius, twoPi), Segments(m, twoPi);
            && MIN_MM_PER_ARC_SEGMENT <= size <= MM_PER_ARC_SEGMENT
            && n >= 0 && (n == 0 <==> m.length == 0.0)
            && (n > 0 ==> m.length / n as real <= size)
            && (n > 0 ==> Product((n - 1) as real, size) < m.length)
  {
    var size, n := SegmentLength(m.radius, twoPi), Segments(m, twoPi);
    var ratio := m.length / size;
    CeilBounds(ratio);
    assert ratio * size == m.length;
    assert ratio < 0.0 ==> ratio * size < 0.0;
    if n > 0 {
      Shorter(m.length, ratio, size, n);
    }
  }

  lemma QuotientBack(a: real, b: real)
    requires b > 0.0
    ensures Product(a / b, b) == a && (a >= 0.0 ==> a / b >= 0.0)
  {
    var q := a / b;
    assert q * b == a;
    if q < 0.0 {
      ProductSign(-q, b);
      assert -q * b == -a;
    }
  }

  lemma ScaledNorm(v: Vector, n: real, to: Vector)
    requires Product(v.x, n) == to.x && Product(v.y, n) == to.y
    ensures Norm2(to) == Product(Norm2(v), Product(n, n))
  {
    assert to.x * to.x == v.x * v.x * n * n;
    assert to.y * to.y == v.y * v.y * n * n;
  }

  lemma ScaledSquare(a: real, n: real, to: real)
    requires Product(a, n) == to
    ensures Product(to, to) == Product(Product(a, a), Product(n, n))
  {}

  lemma CancelSquare(a: real, b: real, n: real)
    requires n > 0.0 && Product(a, Product(n, n)) == Product(b, Product(n, n))
    ensures a == b
  {
    var square := n * n;
    ProductIsPositive(n, n, square);
    assert square * a == square * b;
    SameFactor(square, a, b);
  }

  lemma SquareGrows(a: real, b: real)
    requires 0.0 <= a <= b && b > 0.0
    ensures Product(a, a) <= Product(b, b)
  {
    var difference, sum := b - a, b + a;
    ProductSign(difference, sum);
    assert difference * sum == Product(b, b) - Product(a, a);
  }

  lemma Shorter(length: real, ratio: real, size: real, n: int)
    requires n > 0 && size > 0.0 && ratio * size == length && (n - 1) as real < ratio <= n as real
    ensures length / n as real <= size && (n - 1) as real * size < length
  {
    var r, k, each := n as real, (n - 1) as real, length / n as real;
    var above, below := ratio - k, r - ratio;
    ProductSign(above, size);
    ProductSign(below, size);
    assert above * size == length - k * size && below * size == r * size - length;
    assert k * size < length;
    assert (n - 1) as real * size == k * size;
    assert each * r == length;
    var excess := each - size;
    assert excess * r == length - size * r;
    if excess > 0.0 {
      ProductSign(excess, r);
    }
  }

  lemma ProductSign(a: real, b: real)
    requires a >= 0.0 && b > 0.0
    ensures a * b >= 0.0 && (a > 0.0 ==> a * b > 0.0)
  {}

  // ---------------------------------------------------------------- where the rotation leads

  /**
   The angle is the one from `atan2` up to a whole turn. It has the sign of the direction and never exceeds
   one turn; a closed circle is a full turn.
   */
  lemma TravelRange(atan2: real, clockwise: bool, samePlace: bool, twoPi: real)
    requires twoPi > 0.0 && -twoPi / 2.0 < atan2 <= twoPi / 2.0
    ensures var angle := AngularTravel(atan2, clockwise, samePlace, twoPi);
            && (angle == atan2 || angle == atan2 + twoPi || angle == atan2 - twoPi)
            && (clockwise ==> -twoPi <= angle < 0.0)
            && (!clockwise ==> 0.0 <= angle <= twoPi)
            && (samePlace && atan2 == 0.0 ==> angle == if clockwise then -twoPi else twoPi)
            && (!clockwise && angle == 0.0 ==> !samePlace)
  {}

  function TargetVector(start: Point, arc: Arc): Vector {
    Vector(arc.target.x - Center(start, arc).x, arc.target.y - Center(start, arc).y)
  }

  /** What `atan2` of the cross and dot product means for the whole rotation. */
  ghost predicate TurnsTowards(r: Rotation, from: Vector, to: Vector, product: real) {
    && from.x * to.x + from.y * to.y == product * r.cos
    && from.x * to.y - from.y * to.x == product * r.sin
  }

  /**
   The exact arc, continued by its last segment, arrives at the target exactly when the target is on the
   circle; off it, the last segment bridges the difference.
   */
  lemma ArcClosesExactlyOnCircle(
    start: Point, arc: Arc, n: nat, rotation: nat -> Rotation, radius: real, distance: real)
    requires n > 0
    requires radius > 0.0 && radius * radius == Norm2(RadiusVector(arc))
    requires distance > 0.0 && distance * distance == Norm2(TargetVector(start, arc))
    requires TurnsTowards(rotation(n), RadiusVector(arc), TargetVector(start, arc), radius * distance)
    ensures var p := OnArc(start, arc, n, rotation, n);
            p.x == arc.target.x && p.y == arc.target.y <==> distance == radius
  {
    ArrivesWhenTurnedOnto(start, arc, n, rotation);
    hide *;
    var v, t := RadiusVector(arc), TargetVector(start, arc);
    RotationScales(rotation(n), v, t, radius, distance);
    NotOrigin(t, distance);
    ScaledIsSameExactly(Rotate(rotation(n), v), t, radius, distance);
  }

  lemma ArrivesWhenTurnedOnto(start: Point, arc: Arc, n: nat, rotation: nat -> Rotation)
    requires n > 0
    ensures var p := OnArc(start, arc, n, rotation, n);
            p.x == arc.target.x && p.y == arc.target.y
            <==> Rotate(rotation(n), RadiusVector(arc)) == TargetVector(start, arc)
  {
    hide Rotate;
  }

  lemma NotOrigin(t: Vector, distance: real)
    requires distance > 0.0 && distance * distance == Norm2(t)
    ensures t != Vector(0.0, 0.0)
  {
    hide Norm2;
    ProductIsPositive(distance, distance, Norm2(t));
    OriginHasNoNorm();
  }

  lemma ProductIsPositive(a: real, b: real, product: real)
    requires a > 0.0 && b > 0.0 && product == a * b
    ensures product > 0.0
  {}

  lemma OriginHasNoNorm()
    ensures Norm2(Vector(0.0, 0.0)) == 0.0
  {}

  lemma ScaledIsSameExactly(w: Vector, t: Vector, radius: real, distance: real)
    requires radius > 0.0 && distance * w.x == radius * t.x && distance * w.y == radius * t.y
    requires t != Vector(0.0, 0.0)
    ensures w == t <==> distance == radius
  {
    if distance == radius {
      SameFactor(radius, w.x, t.x);
      SameFactor(radius, w.y, t.y);
    } else {
      NotBoth(distance, radius, t.x, t.y);
    }
  }

  lemma SameFactor(factor: real, a: real, b: real)
    requires factor > 0.0 && factor * a == factor * b
    ensures a == b
  {
    assert factor * (a - b) == 0.0;
  }

  lemma ProductNotZero(a: real, b: real)
    requires a != 0.0 && b != 0.0
    ensures a * b != 0.0
  {
    var p, q := if a > 0.0 then a else -a, if b > 0.0 then b else -b;
    ProductSign(p, q);
    assert p * q == a * b || p * q == -(a * b);
  }

  lemma NotBoth(a: real, b: real, x: real, y: real)
    requires a != b && (x != 0.0 || y != 0.0)
    ensures a * x != b * x || a * y != b * y
  {
    var c := a - b;
    assert c * x == a * x - b * x && c * y == a * y - b * y;
    if x != 0.0 {
      ProductNotZero(c, x);
    } else {
      ProductNotZero(c, y);
    }
  }

  lemma RotationScales(whole: Rotation, v: Vector, t: Vector, radius: real, distance: real)
    requires radius > 0.0 && distance > 0.0 && radius * radius == Norm2(v)
    requires TurnsTowards(whole, v, t, radius * distance)
    ensures var w := Rotate(whole, v); distance * w.x == radius * t.x && distance * w.y == radius * t.y
  {
    var w := Rotate(whole, v);
    var p := radius * distance;
    var dot, cross := p * whole.cos, p * whole.sin;
    ScaleRotated(whole, v, p, dot, cross);
    ResolveInto(v, t, dot, cross);
    hide Rotate, Norm2;
    CancelRadius(radius, distance, w.x, t.x);
    CancelRadius(radius, distance, w.y, t.y);
  }

  lemma ScaleRotated(r: Rotation, v: Vector, p: real, dot: real, cross: real)
    requires dot == p * r.cos && cross == p * r.sin
    ensures var w := Rotate(r, v); p * w.x == v.x * dot - v.y * cross && p * w.y == v.x * cross + v.y * dot
  {}

  lemma ResolveInto(v: Vector, t: Vector, dot: real, cross: real)
    requires dot == v.x * t.x + v.y * t.y && cross == v.x * t.y - v.y * t.x
    ensures v.x * dot - v.y * cross == Norm2(v) * t.x && v.x * cross + v.y * dot == Norm2(v) * t.y
  {}

  lemma CancelRadius(radius: real, distance: real, a: real, b: real)
    requires radius > 0.0 && radius * distance * a == radius * radius * b
    ensures distance * a == radius * b
  {
    var left, right := distance * a, radius * b;
    assert radius * left == radius * right;
    SameFactor(radius, left, right);
  }
}
