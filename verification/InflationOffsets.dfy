/** The offset list of the inflation cylinder. */
module InflationOffsets {
  import opened Basics
  import opened VoxelWindow
  import opened Inflation

  function Ceil(r: real): int { -((-r).Floor) }

  function Max0(r: real): real { if r < 0.0 then 0.0 else r }

  /** The planar displacement (x, y) is shorter than the radius; both sides are squared. */
  predicate InDisc(x: int, y: int, resolution: real, radius: real) {
    var px, py := x as real * resolution, y as real * resolution;
    px * px + py * py < radius * radius
  }

  /** The displacements an occupied voxel inflates to. */
  predicate InCylinder(o: Vec, resolution: real, radius: real, up: real, down: real)
    requires resolution > 0.0
  {
    InDisc(o.x, o.y, resolution, radius) && -Ceil(down / resolution) <= o.z <= Ceil(up / resolution)
  }

  /** In lengths: strictly inside the radius, which must be positive, and up or down by less than a voxel more than
      the height. */
  lemma CylinderIff(o: Vec, resolution: real, radius: real, up: real, down: real)
    requires 0.0 < resolution
    ensures InCylinder(o, resolution, Max0(radius), up, down) <==>
            && 0.0 < radius
            && (o.x as real * resolution) * (o.x as real * resolution)
               + (o.y as real * resolution) * (o.y as real * resolution) < radius * radius
            && (o.z - 1) as real * resolution < up && (-o.z - 1) as real * resolution < down
  {
    CeilIff(o.z, up, resolution);
    CeilIff(-o.z, down, resolution);
    var px, py := o.x as real * resolution, o.y as real * resolution;
    SquareNonNegative(px);
    SquareNonNegative(py);
    hide Ceil;
  }

  lemma SquareNonNegative(x: real)
    ensures 0.0 <= x * x
  {
  }

  lemma CeilIff(z: int, height: real, resolution: real)
    requires 0.0 < resolution
    ensures z <= Ceil(height / resolution) <==> (z - 1) as real * resolution < height
  {
    var q := height / resolution;
    assert q * resolution == height;
    ScaledLess((z - 1) as real, q, resolution);
  }

  lemma ScaledLess(a: real, b: real, c: real)
    requires 0.0 < c
    ensures a < b <==> a * c < b * c
  {
  }

  /** No displacement of the disc falls outside the square the loops scan. */
  lemma DiscInsideSquare(x: int, y: int, resolution: real, radius: real)
    requires 0.0 < resolution && 0.0 <= radius && InDisc(x, y, resolution, radius)
    ensures var s := Ceil(radius / resolution); -s <= x <= s && -s <= y <= s
  {
    AxisInsideSquare(x, y as real * resolution, resolution, radius);
    AxisInsideSquare(y, x as real * resolution, resolution, radius);
  }

  lemma AxisInsideSquare(x: int, other: real, resolution: real, radius: real)
    requires 0.0 < resolution && 0.0 <= radius
    requires (x as real * resolution) * (x as real * resolution) + other * other < radius * radius
    ensures -Ceil(radius / resolution) <= x <= Ceil(radius / resolution)
  {
  }

  method RebuildInflationOffsets(cylinderRadius: real, up: real, down: real, resolution: real)
    returns (offsets: seq<Vec>)
    requires 0.0 < resolution
    ensures forall o :: o in offsets <==> InCylinder(o, resolution, Max0(cylinderRadius), up, down)
    ensures Distinct(offsets)
  {
    var radius := Max0(cylinderRadius);
    var stepXy, stepUp, stepDown := Ceil(radius / resolution), Ceil(up / resolution), Ceil(down / resolution);
    offsets := [];
    var x := -stepXy;
    while x <= stepXy
      invariant -stepXy <= x
      invariant Distinct(offsets)
      invariant forall o :: o in offsets <==>
        InCylinder(o, resolution, radius, up, down) && -stepXy <= o.x < x && -stepXy <= o.y <= stepXy
    {
      var y := -stepXy;
      while y <= stepXy
        invariant -stepXy <= y
        invariant Distinct(offsets)
        invariant forall o :: o in offsets <==>
          && InCylinder(o, resolution, radius, up, down) && -stepXy <= o.y <= stepXy
          && (-stepXy <= o.x < x || (o.x == x && o.y < y))
      {
        if InDisc(x, y, resolution, radius) {
          var z := -stepDown;
          while z <= stepUp
            invariant -stepDown <= z
            invariant Distinct(offsets)
            invariant forall o :: o in offsets <==>
              && InCylinder(o, resolution, radius, up, down) && -stepXy <= o.y <= stepXy
              && (-stepXy <= o.x < x || (o.x == x && (o.y < y || (o.y == y && o.z < z))))
          {
            offsets := offsets + [Vec(x, y, z)];
            z := z + 1;
          }
        }
        y := y + 1;
      }
      x := x + 1;
    }
    forall o | InCylinder(o, resolution, radius, up, down)
      ensures -stepXy <= o.x <= stepXy && -stepXy <= o.y <= stepXy
    {
      DiscInsideSquare(o.x, o.y, resolution, radius);
    }
  }
}
