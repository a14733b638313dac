/** Points of three-dimensional space over the reals. */
module Vectors {
  datatype V3 = V3(x: real, y: real, z: real) {
    function Plus(o: V3): V3 { V3(x + o.x, y + o.y, z + o.z) }

    function Minus(o: V3): V3 { V3(x - o.x, y - o.y, z - o.z) }

    function Scale(c: real): V3 { V3(c * x, c * y, c * z) }

    function Over(c: real): V3
      requires c != 0.0
    {
      V3(x / c, y / c, z / c)
    }

    function Dot(o: V3): real { x * o.x + y * o.y + z * o.z }

    function At(axis: nat): real
      requires axis < 3
    {
      if axis == 0 then x else if axis == 1 then y else z
    }

    /** This vector with one component moved. */
    function Nudge(axis: nat, delta: real): V3
      requires axis < 3
    {
      if axis == 0 then V3(x + delta, y, z) else if axis == 1 then V3(x, y + delta, z) else V3(x, y, z + delta)
    }

    /** The first n components, the others zero. */
    function Firsts(n: nat): V3 {
      V3(if 0 < n then x else 0.0, if 1 < n then y else 0.0, if 2 < n then z else 0.0)
    }

    /** Every component lies between -limit and limit. */
    predicate Within(limit: real) { -limit <= x <= limit && -limit <= y <= limit && -limit <= z <= limit }
  }

  const ZERO := V3(0.0, 0.0, 0.0)
}
