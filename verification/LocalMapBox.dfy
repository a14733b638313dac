/** The cube of the local map that follows the LiDAR, and the boxes deleted when it moves. */
module LocalMapBox {
  import opened Basics

  type Coords = s: seq<real> | |s| == 3 witness [0.0, 0.0, 0.0]

  /** A box that contains its lower faces and not its upper ones, as the deletion of the point tree reads it. */
  datatype Box = Box(vertexMin: Coords, vertexMax: Coords) {
    predicate Holds(p: Coords) { forall i :: 0 <= i < 3 ==> vertexMin[i] <= p[i] < vertexMax[i] }

    function Side(i: nat): real
      requires i < 3
    {
      vertexMax[i] - vertexMin[i]
    }
  }

  const MOV_THRESHOLD := 1.5

  function Distance(a: real, b: real): real { if a < b then b - a else a - b }

  /** Which way an axis moves: towards the near face if the LiDAR is within the threshold of one. */
  ghost function Direction(b: Box, pos: Coords, detRange: real, i: nat): int
    requires i < 3
  {
    if Distance(pos[i], b.vertexMin[i]) <= MOV_THRESHOLD * detRange then -1
    else if Distance(pos[i], b.vertexMax[i]) <= MOV_THRESHOLD * detRange then 1
    else 0
  }

  function Offset(d: int, dist: real): real { if d < 0 then -dist else if 0 < d then dist else 0.0 }

  /** Every axis moves by dist in its direction. */
  ghost predicate Shifted(from: Box, to: Box, dirs: seq<int>, dist: real)
    requires |dirs| == 3
  {
    forall i :: 0 <= i < 3 ==>
      && to.vertexMin[i] == from.vertexMin[i] + Offset(dirs[i], dist)
      && to.vertexMax[i] == from.vertexMax[i] + Offset(dirs[i], dist)
  }

  /** What a step does to one axis of the cube: a LiDAR within one and a half detection ranges of the lower face
      pulls both faces down by dist, else one so near the upper face pulls them up, and else they stay. */
  ghost predicate AxisFollows(from: Box, to: Box, pos: Coords, detRange: real, dist: real, i: nat)
    requires i < 3
  {
    var reach := 1.5 * detRange;
    var move := if -reach <= pos[i] - from.vertexMin[i] <= reach then -dist
                else if -reach <= pos[i] - from.vertexMax[i] <= reach then dist
                else 0.0;
    to.vertexMin[i] == from.vertexMin[i] + move && to.vertexMax[i] == from.vertexMax[i] + move
  }

  lemma ShiftFollows(from: Box, to: Box, dirs: seq<int>, pos: Coords, detRange: real, dist: real)
    requires |dirs| == 3 && Shifted(from, to, dirs, dist)
    requires forall i :: 0 <= i < 3 ==> dirs[i] == Direction(from, pos, detRange, i)
    ensures forall i :: 0 <= i < 3 ==> AxisFollows(from, to, pos, detRange, dist, i)
  {
    forall i | 0 <= i < 3
      ensures AxisFollows(from, to, pos, detRange, dist, i)
    {
      assert dirs[i] == Direction(from, pos, detRange, i);
    }
  }

  /** A LiDAR inside the cube gets farther from the face it is near, by the length of the move, and stays inside
      if the cube is at least that length and one and a half detection ranges wide. */
  lemma StaysInside(from: Box, to: Box, pos: Coords, detRange: real, dist: real, i: nat)
    requires i < 3 && AxisFollows(from, to, pos, detRange, dist, i) && 0.0 <= detRange && 0.0 <= dist
    requires from.vertexMin[i] <= pos[i] <= from.vertexMax[i]
    ensures var (low, high) := (pos[i] - from.vertexMin[i], from.vertexMax[i] - pos[i]);
      && (low <= 1.5 * detRange ==> pos[i] - to.vertexMin[i] == low + dist)
      && (low > 1.5 * detRange >= high ==> to.vertexMax[i] - pos[i] == high + dist)
      && (low > 1.5 * detRange && high > 1.5 * detRange ==> pos[i] - to.vertexMin[i] == low)
    ensures 1.5 * detRange + dist <= from.Side(i) ==> to.vertexMin[i] <= pos[i] <= to.vertexMax[i]
  {
  }

  /** The deleted boxes hold every point of the old box that the new one does not hold, and no point
      of the new box; if the move is no longer than the sides they hold nothing else. */
  ghost predicate DeletesDifference(from: Box, to: Box, deleted: seq<Box>, movDist: real) {
    && (forall p: Coords :: from.Holds(p) && !to.Holds(p) ==> exists b :: b in deleted && b.Holds(p))
    && (forall b: Box, p: Coords :: b in deleted && b.Holds(p) ==> !to.Holds(p))
    && ((forall i :: 0 <= i < 3 ==> movDist <= from.Side(i)) ==>
          forall b: Box, p: Coords :: b in deleted && b.Holds(p) ==> from.Holds(p))
  }

  /** The deleted box of one axis: the part of the old box that a move down or up leaves behind. */
  ghost function Slab(b: Box, i: nat, d: int, dist: real): Box
    requires i < 3
  {
    if d < 0 then b.(vertexMin := b.vertexMin[i := b.vertexMax[i] - dist])
    else b.(vertexMax := b.vertexMax[i := b.vertexMin[i] + dist])
  }

  lemma SlabIsLeftBehind(from: Box, to: Box, i: nat, d: int, dist: real, p: Coords)
    requires i < 3 && d != 0 && 0.0 <= dist
    requires to.vertexMin[i] == from.vertexMin[i] + Offset(d, dist)
             && to.vertexMax[i] == from.vertexMax[i] + Offset(d, dist)
    ensures Slab(from, i, d, dist).Holds(p) ==> !to.Holds(p)
    ensures from.Holds(p) && !(to.vertexMin[i] <= p[i] < to.vertexMax[i]) ==> Slab(from, i, d, dist).Holds(p)
    ensures dist <= from.Side(i) && Slab(from, i, d, dist).Holds(p) ==> from.Holds(p)
  {
  }

  /** The slabs of exactly the axes that move. */
  ghost predicate SlabsOf(from: Box, dirs: seq<int>, dist: real, upTo: nat, deleted: seq<Box>)
    requires |dirs| == 3 && upTo <= 3
  {
    && (forall i :: 0 <= i < upTo && dirs[i] != 0 ==> Slab(from, i, dirs[i], dist) in deleted)
    && forall b :: b in deleted ==> exists i :: 0 <= i < upTo && dirs[i] != 0 && b == Slab(from, i, dirs[i], dist)
  }

  lemma SlabsOfNext(from: Box, dirs: seq<int>, dist: real, i: nat, before: seq<Box>, after: seq<Box>)
    requires |dirs| == 3 && i < 3 && SlabsOf(from, dirs, dist, i, before)
    requires after == before + (if dirs[i] == 0 then [] else [Slab(from, i, dirs[i], dist)])
    ensures SlabsOf(from, dirs, dist, i + 1, after)
  {
  }

  lemma SlabsDeleteDifference(from: Box, to: Box, dirs: seq<int>, deleted: seq<Box>, dist: real)
    requires |dirs| == 3 && Shifted(from, to, dirs, dist) && SlabsOf(from, dirs, dist, 3, deleted)
    requires 0.0 <= dist || forall i :: 0 <= i < 3 ==> dirs[i] == 0
    ensures DeletesDifference(from, to, deleted, dist)
  {
    forall p: Coords | from.Holds(p) && !to.Holds(p)
      ensures exists b :: b in deleted && b.Holds(p)
    {
      var i :| 0 <= i < 3 && !(to.vertexMin[i] <= p[i] < to.vertexMax[i]);
      assert from.vertexMin[i] <= p[i] < from.vertexMax[i];
      SlabIsLeftBehind(from, to, i, dirs[i], dist, p);
    }
    forall b: Box, p: Coords | b in deleted && b.Holds(p)
      ensures !to.Holds(p)
      ensures (forall i :: 0 <= i < 3 ==> dist <= from.Side(i)) ==> from.Holds(p)
    {
      var i :| 0 <= i < 3 && dirs[i] != 0 && b == Slab(from, i, dirs[i], dist);
      SlabIsLeftBehind(from, to, i, dirs[i], dist, p);
    }
  }

  class LocalMap {
    const cubeLen: real
    const detRange: real
    var localMapPoints: Box
    var localmapInitialized: bool
    var cubNeedrm: seq<Box>
    /** The points of the tree. */
    var points: set<Coords>
    /** Points that have been inside the window at the end of some step. */
    ghost var seen: set<Coords>

    constructor (cube: real, range: real)
      ensures Valid() && !localmapInitialized && points == {}
    {
      cubeLen, detRange := cube, range;
      localMapPoints := Box([0.0, 0.0, 0.0], [0.0, 0.0, 0.0]);
      localmapInitialized, cubNeedrm, points, seen := false, [], {}, {};
    }

    /** A point that was once inside the window is inside the current one or has been deleted. */
    ghost predicate Valid()
      reads this
    {
      && (!localmapInitialized ==> seen == {})
      && (localmapInitialized ==> forall i :: 0 <= i < 3 ==> localMapPoints.Side(i) == cubeLen)
      && forall p :: p in points && p in seen ==> localMapPoints.Holds(p)
    }

    function MovDist(): real {
      MaxReal((cubeLen - 2.0 * MOV_THRESHOLD * detRange) * 0.5 * 0.9, detRange * (MOV_THRESHOLD - 1.0))
    }

    /** The move is 0.45 of what the cube has beyond three detection ranges, and at least half a range. */
    lemma MovDistIs()
      ensures var a, b := 0.45 * (cubeLen - 3.0 * detRange), 0.5 * detRange;
        MovDist() == if a < b then b else a
      ensures 0.0 <= detRange && 3.0 * detRange <= cubeLen ==> 0.0 <= MovDist() && 1.5 * detRange + MovDist() <= cubeLen
    {
    }

    lemma KeepsLidar(from: Box, to: Box, pos: Coords)
      requires forall i :: 0 <= i < 3 ==> AxisFollows(from, to, pos, detRange, MovDist(), i)
      requires forall i :: 0 <= i < 3 ==> from.Side(i) == cubeLen
      ensures forall i :: 0 <= i < 3 ==> to.Side(i) == cubeLen
      ensures 0.0 <= detRange && 3.0 * detRange <= cubeLen ==>
        forall i :: 0 <= i < 3 && from.vertexMin[i] <= pos[i] <= from.vertexMax[i] ==>
          to.vertexMin[i] <= pos[i] <= to.vertexMax[i]
    {
      MovDistIs();
      hide MovDist;
      forall i | 0 <= i < 3
        ensures to.Side(i) == cubeLen
        ensures 0.0 <= detRange && 3.0 * detRange <= cubeLen && from.vertexMin[i] <= pos[i] <= from.vertexMax[i] ==>
                to.vertexMin[i] <= pos[i] <= to.vertexMax[i]
      {
        assert AxisFollows(from, to, pos, detRange, MovDist(), i) && from.Side(i) == cubeLen;
        if 0.0 <= detRange && 3.0 * detRange <= cubeLen && from.vertexMin[i] <= pos[i] <= from.vertexMax[i] {
          StaysInside(from, to, pos, detRange, MovDist(), i);
        }
      }
    }

    ghost function Directions(pos: Coords): (dirs: seq<int>)
      reads this`localMapPoints
      ensures |dirs| == 3 && forall i :: 0 <= i < 3 ==> dirs[i] == Direction(localMapPoints, pos, detRange, i)
    {
      [Direction(localMapPoints, pos, detRange, 0), Direction(localMapPoints, pos, detRange, 1),
       Direction(localMapPoints, pos, detRange, 2)]
    }

    /** Follows the LiDAR: the first call centres the cube, later ones shift it near a face. */
    method LasermapFovSegment(pos: Coords)
      requires Valid()
      modifies this
      ensures Valid() && localmapInitialized
      ensures old(localmapInitialized) ==>
        && (forall i :: 0 <= i < 3 ==> AxisFollows(old(localMapPoints), localMapPoints, pos, detRange, MovDist(), i))
        && DeletesDifference(old(localMapPoints), localMapPoints, cubNeedrm, MovDist())
        && points == (set p | p in old(points) && !(exists b :: b in cubNeedrm && b.Holds(p)))
      ensures old(localmapInitialized) && 0.0 <= detRange && 3.0 * detRange <= cubeLen ==>
        forall i :: 0 <= i < 3 && old(localMapPoints).vertexMin[i] <= pos[i] <= old(localMapPoints).vertexMax[i] ==>
          localMapPoints.vertexMin[i] <= pos[i] <= localMapPoints.vertexMax[i]
      ensures !old(localmapInitialized) ==>
        && cubNeedrm == [] && points == old(points)
        && forall i :: 0 <= i < 3 ==>
             localMapPoints.vertexMin[i] == pos[i] - cubeLen / 2.0
               && localMapPoints.vertexMax[i] == pos[i] + cubeLen / 2.0
    {
      cubNeedrm := [];
      if !localmapInitialized {
        localMapPoints := Box([pos[0] - cubeLen / 2.0, pos[1] - cubeLen / 2.0, pos[2] - cubeLen / 2.0],
                              [pos[0] + cubeLen / 2.0, pos[1] + cubeLen / 2.0, pos[2] + cubeLen / 2.0]);
        localmapInitialized := true;
        seen := set p | p in points && localMapPoints.Holds(p);
        return;
      }
      var moved, deleted := SlideBox(pos);
      KeepsLidar(localMapPoints, moved, pos);
      hide AxisFollows;
      localMapPoints := moved;
      cubNeedrm := deleted;
      if deleted != [] {
        points := set p | p in points && !(exists b :: b in deleted && b.Holds(p));
      }
      seen := set p | p in points && (p in seen || moved.Holds(p));
    }

    /** The moved cube and the boxes it leaves behind. */
    method SlideBox(pos: Coords) returns (moved: Box, deleted: seq<Box>)
      ensures forall i :: 0 <= i < 3 ==> AxisFollows(localMapPoints, moved, pos, detRange, MovDist(), i)
      ensures DeletesDifference(localMapPoints, moved, deleted, MovDist())
    {
      hide AxisFollows;
      ghost var dirs := Directions(pos);
      moved, deleted := localMapPoints, [];
      var needMove := NeedMove(pos);
      var movDist := MovDist();
      if needMove {
        MovDistNonNegative(pos);
        for i := 0 to 3
          invariant forall k :: 0 <= k < 3 ==>
            && moved.vertexMin[k] == localMapPoints.vertexMin[k] + (if k < i then Offset(dirs[k], movDist) else 0.0)
            && moved.vertexMax[k] == localMapPoints.vertexMax[k] + (if k < i then Offset(dirs[k], movDist) else 0.0)
          invariant SlabsOf(localMapPoints, dirs, movDist, i, deleted)
        {
          ghost var before := deleted;
          moved, deleted := SlideAxis(pos, i, movDist, moved, deleted);
          SlabsOfNext(localMapPoints, dirs, movDist, i, before, deleted);
        }
      } else {
        forall k | 0 <= k < 3
          ensures dirs[k] == 0
        {
          assert Directions(pos)[k] == 0;
        }
      }
      assert Shifted(localMapPoints, moved, dirs, movDist);
      ShiftFollows(localMapPoints, moved, dirs, pos, detRange, movDist);
      SlabsDeleteDifference(localMapPoints, moved, dirs, deleted, movDist);
    }

    method NeedMove(pos: Coords) returns (needMove: bool)
      ensures needMove <==> exists k :: 0 <= k < 3 && Directions(pos)[k] != 0
    {
      needMove := false;
      for i := 0 to 3
        invariant needMove <==> exists k :: 0 <= k < i && Directions(pos)[k] != 0
      {
        if Distance(pos[i], localMapPoints.vertexMin[i]) <= MOV_THRESHOLD * detRange
           || Distance(pos[i], localMapPoints.vertexMax[i]) <= MOV_THRESHOLD * detRange {
          needMove := true;
          assert Directions(pos)[i] != 0;
        }
      }
    }

    method SlideAxis(pos: Coords, i: nat, movDist: real, box: Box, boxes: seq<Box>)
      returns (moved: Box, deleted: seq<Box>)
      requires i < 3
      ensures moved == Box(box.vertexMin[i := box.vertexMin[i] + Offset(Directions(pos)[i], movDist)],
                           box.vertexMax[i := box.vertexMax[i] + Offset(Directions(pos)[i], movDist)])
      ensures deleted ==
              boxes + (if Directions(pos)[i] == 0 then [] else [Slab(localMapPoints, i, Directions(pos)[i], movDist)])
    {
      moved, deleted := box, boxes;
      var tmp := localMapPoints;
      if Distance(pos[i], localMapPoints.vertexMin[i]) <= MOV_THRESHOLD * detRange {
        moved := Box(box.vertexMin[i := box.vertexMin[i] - movDist], box.vertexMax[i := box.vertexMax[i] - movDist]);
        tmp := tmp.(vertexMin := tmp.vertexMin[i := localMapPoints.vertexMax[i] - movDist]);
        deleted := deleted + [tmp];
      } else if Distance(pos[i], localMapPoints.vertexMax[i]) <= MOV_THRESHOLD * detRange {
        moved := Box(box.vertexMin[i := box.vertexMin[i] + movDist], box.vertexMax[i := box.vertexMax[i] + movDist]);
        tmp := tmp.(vertexMax := tmp.vertexMax[i := localMapPoints.vertexMin[i] + movDist]);
        deleted := deleted + [tmp];
      }
    }

    /** A face can only be near if the detection range, and so the move, is not negative. */
    lemma MovDistNonNegative(pos: Coords)
      requires exists k :: 0 <= k < 3 && Directions(pos)[k] != 0
      ensures 0.0 <= MovDist()
    {
    }

    /** A point joins the tree. */
    method AddPoint(p: Coords)
      requires Valid()
      modifies this`points, this`seen
      ensures Valid() && points == old(points) + {p}
    {
      points := points + {p};
      seen := if localmapInitialized && localMapPoints.Holds(p) then seen + {p} else seen - {p};
    }
  }
}
