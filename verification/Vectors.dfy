/** Vectors of exact coordinates, and the mutable vectors the camera code works on in place. */
module Vectors {
  import opened Reals

  datatype Vector3 = Vector3(x: real, y: real, z: real) {

    function Plus(v: Vector3): Vector3 {
      Vector3(x + v.x, y + v.y, z + v.z)
    }

    function Minus(v: Vector3): Vector3 {
      Vector3(x - v.x, y - v.y, z - v.z)
    }

    function Times(factor: real): Vector3 {
      Vector3(Product(x, factor), Product(y, factor), Product(z, factor))
    }

    function Dot(v: Vector3): real {
      Product(x, v.x) + Product(y, v.y) + Product(z, v.z)
    }

    function Cross(v: Vector3): Vector3 {
      Vector3(y * v.z - z * v.y, z * v.x - x * v.z, x * v.y - y * v.x)
    }
  }

  /** The cross product stands upright on both vectors. */
  lemma CrossIsUpright(a: Vector3, b: Vector3)
    ensures a.Cross(b).Dot(a) == 0.0 && a.Cross(b).Dot(b) == 0.0
  {}

  /** The product with each axis turns a vector by a right angle around it, in the sense of the right hand. */
  lemma CrossIsRightHanded(a: Vector3)
    ensures a.Cross(Vector3(1.0, 0.0, 0.0)) == Vector3(0.0, a.z, -a.y)
    ensures a.Cross(Vector3(0.0, 1.0, 0.0)) == Vector3(-a.z, 0.0, a.x)
    ensures a.Cross(Vector3(0.0, 0.0, 1.0)) == Vector3(a.y, -a.x, 0.0)
  {}

  const ORIGIN := Vector3(0.0, 0.0, 0.0)

  class Vector {
    var x: real
    var y: real
    var z: real

    constructor ()
      ensures Value() == ORIGIN
    {
      x, y, z := 0.0, 0.0, 0.0;
    }

    function Value(): Vector3
      reads this
    {
      Vector3(x, y, z)
    }

    method Copy(v: Vector)
      modifies this
      ensures Value() == old(v.Value())
    {
      x, y, z := v.x, v.y, v.z;
    }

    method Set(v: Vector3)
      modifies this
      ensures Value() == v
    {
      x, y, z := v.x, v.y, v.z;
    }

    method Add(v: Vector)
      modifies this
      ensures Value() == old(Value()).Plus(old(v.Value()))
    {
      x, y, z := x + v.x, y + v.y, z + v.z;
    }

    method Sub(v: Vector)
      modifies this
      ensures Value() == old(Value()).Minus(old(v.Value()))
    {
      x, y, z := x - v.x, y - v.y, z - v.z;
    }

    method SubVectors(v: Vector, w: Vector)
      modifies this
      ensures Value() == old(v.Value()).Minus(old(w.Value()))
    {
      x, y, z := v.x - w.x, v.y - w.y, v.z - w.z;
    }

    method MultiplyScalar(factor: real)
      modifies this
      ensures Value() == old(Value()).Times(factor)
    {
      x, y, z := x * factor, y * factor, z * factor;
    }

    method CrossVectors(v: Vector3, w: Vector)
      modifies this
      ensures Value() == v.Cross(old(w.Value()))
    {
      x, y, z := v.y * w.z - v.z * w.y, v.z * w.x - v.x * w.z, v.x * w.y - v.y * w.x;
    }
  }
}
