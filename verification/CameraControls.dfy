/**
 The camera controls of camera-controls.js: the vectors they update in place, the scratch vectors their
 methods share, and the methods that change where the camera goes. The columns of the camera's matrix and
 its up vector are parameters, and so is the ratio `update` computes with `exp`.
 */
module CameraControls {

  import opened Reals
  import opened Vectors
  import opened CameraBoundary
  import opened CameraDamping
  import opened Wrappers

  /** Some angle off the poles is within the limits. */
  predicate LeavesRoom(limits: Range) {
    (limits.low.At? ==> limits.low.value <= PI - POLE) && (limits.high.At? ==> POLE <= limits.high.value)
  }

  /** Taken off the poles every clamped angle stays within the limits exactly when they leave room. */
  lemma AnglesKeepLimitsExactlyWithRoom(limits: Range)
    requires limits.IsNonEmpty()
    ensures (forall angle: real :: limits.Contains(MakeSafe(limits.Clamp(angle)))) <==> LeavesRoom(limits)
  {
    assert limits.low.At? ==> limits.low.value <= PI - POLE || !limits.Contains(MakeSafe(limits.Clamp(PI)));
    assert limits.high.At? ==> POLE <= limits.high.value || !limits.Contains(MakeSafe(limits.Clamp(0.0)));
  }

  class Controls {
    const v3A: Vector
    const v3B: Vector
    const v3C: Vector
    const xColumn: Vector
    const yColumn: Vector
    const target: Vector
    const targetEnd: Vector
    var spherical: Spherical
    var sphericalEnd: Spherical
    var polarAngles: Range
    var azimuthAngles: Range
    var distances: Range
    var boundary: Box
    var boundaryFriction: real
    var hasUpdated: bool

    /** The object and its vectors. */
    ghost function Footprint(): set<object> {
      {this, v3A, v3B, v3C, xColumn, yColumn, target, targetEnd}
    }

    /** No two of the vectors are the same object. */
    ghost predicate Valid() {
      && v3A != v3B && v3A != v3C && v3B != v3C
      && xColumn !in {v3A, v3B, v3C, yColumn} && yColumn !in {v3A, v3B, v3C}
      && target !in {v3A, v3B, v3C, xColumn, yColumn}
      && targetEnd !in {v3A, v3B, v3C, xColumn, yColumn, target}
    }

    function Now(): View
      reads this, target
    {
      View(spherical, target.Value())
    }

    function End(): View
      reads this, targetEnd
    {
      View(sphericalEnd, targetEnd.Value())
    }

    function Abstract(): Camera
      reads this, target, targetEnd
    {
      Camera(Now(), End(), hasUpdated)
    }

    constructor (position: Spherical)
      ensures Valid() && fresh(Footprint())
      ensures Abstract() == Camera(View(position, ORIGIN), View(position, ORIGIN), true)
      ensures boundary == Box(Range(Open, Open), Range(Open, Open), Range(Open, Open)) && boundaryFriction == 0.0
    {
      v3A := new Vector();
      v3B := new Vector();
      v3C := new Vector();
      xColumn := new Vector();
      yColumn := new Vector();
      target := new Vector();
      targetEnd := new Vector();
      spherical, sphericalEnd := position, position;
      polarAngles := Range(At(0.0), At(PI / 2.0));
      azimuthAngles := Range(Open, Open);
      distances := Range(At(0.0), Open);
      boundary := Box(Range(Open, Open), Range(Open, Open), Range(Open, Open));
      boundaryFriction := 0.0;
      hasUpdated := true;
    }

    /**
     Moves `position` by the offset as far as the boundary lets it, working in two scratch vectors. The
     result is not finite when the friction is divided by zero: the coordinates are then no numbers.
     */
    method EncloseToBoundary(position: Vector, offset: Vector, friction: real) returns (finite: bool)
      requires Valid()
      requires position !in {v3B, v3C, offset} && offset !in {v3B, v3C}
      modifies position, v3B, v3C
      ensures finite <==> IsDefined(boundary, old(position.Value()), old(offset.Value()), friction)
      ensures finite ==>
                position.Value() == Enclosed(boundary, old(position.Value()), old(offset.Value()), friction)
      ensures friction == 0.0 && boundary.IsNonEmpty() && boundary.Contains(old(position.Value()))
              ==> position.Value() == boundary.Clamp(old(position.Value()).Plus(old(offset.Value())))
    {
      if friction == 0.0 && boundary.IsNonEmpty() && boundary.Contains(position.Value()) {
        EnclosedIsProjection(boundary, position.Value(), offset.Value());
      }
      finite := true;
      var offsetLength2 := Length2(offset.Value());
      if offsetLength2 == 0.0 {
        return;
      }
      v3B.Copy(offset);
      v3B.Add(position);
      v3C.Set(boundary.Clamp(v3B.Value()));
      v3C.Sub(v3B);
      var backLength2 := Length2(v3C.Value());
      if backLength2 == 0.0 {
        position.Add(offset);
      } else if backLength2 == offsetLength2 {
        return;
      } else if friction == 0.0 {
        position.Add(offset);
        position.Add(v3C);
      } else if offset.Value().Dot(v3C.Value()) == 0.0 {
        finite := false;
      } else {
        var offsetFactor := OffsetFactor(friction, backLength2, offset.Value().Dot(v3C.Value()));
        v3B.Copy(offset);
        v3B.MultiplyScalar(offsetFactor);
        position.Add(v3B);
        v3C.MultiplyScalar(1.0 - friction);
        position.Add(v3C);
      }
    }

    lemma KeepInside(position: Vector3, offset: Vector3)
      ensures boundary.IsNonEmpty() && boundary.Contains(position)
              ==> boundary.Contains(Enclosed(boundary, position, offset, 0.0))
    {
      if boundary.IsNonEmpty() && boundary.Contains(position) {
        EnclosedIsProjection(boundary, position, offset);
      }
    }

    /** Moves the target along the camera's own axes. */
    method Truck(x: real, y: real, right: Vector3, up: Vector3, enableTransition: bool) returns (finite: bool)
      requires Valid()
      modifies target, targetEnd, v3A, v3B, v3C, xColumn, yColumn, `hasUpdated
      ensures var offset := right.Times(x).Plus(up.Times(-y));
              && (finite <==> IsDefined(boundary, old(targetEnd.Value()), offset, boundaryFriction))
              && (finite ==>
                    targetEnd.Value() == Enclosed(boundary, old(targetEnd.Value()), offset, boundaryFriction))
      ensures boundaryFriction == 0.0 && boundary.IsNonEmpty() && boundary.Contains(old(targetEnd.Value()))
              ==> boundary.Contains(targetEnd.Value())
      ensures target.Value() == if enableTransition then old(target.Value()) else targetEnd.Value()
      ensures hasUpdated
    {
      xColumn.Set(right);
      yColumn.Set(up);
      xColumn.MultiplyScalar(x);
      yColumn.MultiplyScalar(-y);
      v3A.Copy(xColumn);
      v3A.Add(yColumn);
      KeepInside(targetEnd.Value(), v3A.Value());
      finite := EncloseToBoundary(targetEnd, v3A, boundaryFriction);
      if !enableTransition {
        target.Copy(targetEnd);
      }
      hasUpdated := true;
    }

    /** Moves the target horizontally in the direction the camera faces. */
    method Forward(distance: real, right: Vector3, cameraUp: Vector3, enableTransition: bool) returns (finite: bool)
      requires Valid()
      modifies target, targetEnd, v3A, v3B, v3C, `hasUpdated
      ensures var offset := cameraUp.Cross(right).Times(distance);
              && (finite <==> IsDefined(boundary, old(targetEnd.Value()), offset, boundaryFriction))
              && (finite ==>
                    targetEnd.Value() == Enclosed(boundary, old(targetEnd.Value()), offset, boundaryFriction))
      ensures boundaryFriction == 0.0 && boundary.IsNonEmpty() && boundary.Contains(old(targetEnd.Value()))
              ==> boundary.Contains(targetEnd.Value())
      ensures target.Value() == if enableTransition then old(target.Value()) else targetEnd.Value()
      ensures hasUpdated
    {
      v3A.Set(right);
      v3A.CrossVectors(cameraUp, v3A);
      v3A.MultiplyScalar(distance);
      KeepInside(targetEnd.Value(), v3A.Value());
      finite := EncloseToBoundary(targetEnd, v3A, boundaryFriction);
      if !enableTransition {
        target.Copy(targetEnd);
      }
      hasUpdated := true;
    }

    /** A new boundary pulls the target's end position into it; no box lifts every limit. */
    method SetBoundary(box: Maybe<Box>)
      requires Valid()
      modifies targetEnd, `boundary, `hasUpdated
      ensures box.Nothing? ==> boundary == Box(Range(Open, Open), Range(Open, Open), Range(Open, Open))
      ensures box.Just? ==> boundary == box.value
      ensures targetEnd.Value() == boundary.Clamp(old(targetEnd.Value()))
      ensures boundary.IsNonEmpty() ==> boundary.Contains(targetEnd.Value())
      ensures hasUpdated
    {
      hasUpdated := true;
      if box.Nothing? {
        boundary := Box(Range(Open, Open), Range(Open, Open), Range(Open, Open));
        return;
      }
      boundary := box.value;
      targetEnd.Set(boundary.Clamp(targetEnd.Value()));
    }

    /**
     Turns the camera within its limits; whatever they are, the polar angle stays off the poles. It stays
     within its own limits as well when they leave room off the poles.
     */
    method RotateTo(azimuthAngle: real, polarAngle: real, enableTransition: bool)
      modifies `spherical, `sphericalEnd, `hasUpdated
      ensures sphericalEnd == old(sphericalEnd).(
                theta := azimuthAngles.Clamp(azimuthAngle), phi := MakeSafe(polarAngles.Clamp(polarAngle)))
      ensures spherical == if enableTransition then old(spherical)
                           else old(spherical).(theta := sphericalEnd.theta, phi := sphericalEnd.phi)
      ensures hasUpdated
      ensures azimuthAngles.IsNonEmpty() ==> azimuthAngles.Contains(sphericalEnd.theta)
      ensures IsSafe(End())
      ensures polarAngles.IsNonEmpty() && LeavesRoom(polarAngles) ==> polarAngles.Contains(sphericalEnd.phi)
    {
      var theta := azimuthAngles.Clamp(azimuthAngle);
      var phi := polarAngles.Clamp(polarAngle);
      sphericalEnd := sphericalEnd.(theta := theta, phi := phi);
      sphericalEnd := sphericalEnd.(phi := MakeSafe(sphericalEnd.phi));
      if !enableTransition {
        spherical := spherical.(theta := sphericalEnd.theta, phi := sphericalEnd.phi);
      }
      hasUpdated := true;
    }

    /** Moves the camera towards the target or away from it, within its limits. */
    method DollyTo(distance: real, enableTransition: bool)
      modifies `spherical, `sphericalEnd, `hasUpdated
      ensures sphericalEnd == old(sphericalEnd).(radius := distances.Clamp(distance))
      ensures spherical == if enableTransition then old(spherical) else old(spherical).(radius := sphericalEnd.radius)
      ensures distances.IsNonEmpty() ==> distances.Contains(sphericalEnd.radius)
      ensures hasUpdated
    {
      sphericalEnd := sphericalEnd.(radius := distances.Clamp(distance));
      if !enableTransition {
        spherical := spherical.(radius := sphericalEnd.radius);
      }
      hasUpdated := true;
    }

    /** Follows the end state and reports whether anything has changed since the last call. */
    method Update(ratio: real) returns (updated: bool)
      requires Valid()
      modifies target, v3A, `spherical, `hasUpdated
      ensures Abstract() == CameraDamping.Update(old(Abstract()), ratio)
      ensures updated == Reported(old(Abstract()))
    {
      hide Product, MakeSafe;
      var deltaTheta := sphericalEnd.theta - spherical.theta;
      var deltaPhi := sphericalEnd.phi - spherical.phi;
      var deltaRadius := sphericalEnd.radius - spherical.radius;
      v3A.SubVectors(targetEnd, target);
      if Abs(deltaTheta) > EPSILON || Abs(deltaPhi) > EPSILON || Abs(deltaRadius) > EPSILON
         || Abs(v3A.x) > EPSILON || Abs(v3A.y) > EPSILON || Abs(v3A.z) > EPSILON {
        spherical := Spherical(
          spherical.radius + Product(deltaRadius, ratio), spherical.phi + Product(deltaPhi, ratio),
          spherical.theta + Product(deltaTheta, ratio));
        v3A.MultiplyScalar(ratio);
        target.Add(v3A);
        hasUpdated := true;
      } else {
        spherical := sphericalEnd;
        target.Copy(targetEnd);
      }
      spherical := spherical.(phi := MakeSafe(spherical.phi));
      updated := hasUpdated;
      hasUpdated := false;
    }
  }
}
