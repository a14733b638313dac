/** How check_collision_and_rebound cuts the control points into collision segments and finds a path around each. */
module ReboundSegments {
  import opened Vectors
  import opened BsplineCosts

  /** Control points enter .. exit, the two ends being where the path around the obstacle starts and ends. */
  datatype Segment = Segment(enter: nat, exit: nat)

  datatype Collected = Collected(segments: seq<Segment>) | EndsInObstacle

  /** The last free control point before i, or the first one of all. */
  function Before(occ: seq<bool>, i: nat): (r: nat)
    requires i <= |occ|
    ensures r <= i && (0 < i ==> r < i)
    ensures forall j :: r < j < i ==> occ[j]
    ensures r == 0 || !occ[r]
  {
    if i == 0 then 0 else if !occ[i - 1] then i - 1 else Before(occ, i - 1)
  }

  /** The first free control point from i on, or their number. */
  function After(occ: seq<bool>, i: nat): (r: nat)
    requires i <= |occ|
    ensures i <= r <= |occ|
    ensures forall j :: i <= j < r ==> occ[j]
    ensures r < |occ| ==> !occ[r]
    decreases |occ| - i
  {
    if i == |occ| || !occ[i] then i else After(occ, i + 1)
  }

  /** A free control point at or after c stays in front of the entry found from i. */
  lemma {:induction false} BeforeKeeps(occ: seq<bool>, c: nat, i: nat)
    requires c < i <= |occ| && !occ[c]
    ensures c <= Before(occ, i) && !occ[Before(occ, i)]
  {
  }

  /** The segments found from control point i up to last, the next look being two past each exit. */
  function Collect(occ: seq<bool>, isNew: seq<bool>, i: nat, last: int): Collected
    requires last < |occ| == |isNew|
    decreases last - i
  {
    if last < i then Collected([])
    else if !isNew[i] then Collect(occ, isNew, i + 1, last)
    else
      var exit := After(occ, i + 1);
      if exit == |occ| then EndsInObstacle
      else
        match Collect(occ, isNew, exit + 2, last)
        case EndsInObstacle => EndsInObstacle
        case Collected(rest) => Collected([Segment(Before(occ, i), exit)] + rest)
  }

  /** Each segment ends on a free point, has only occupied ones strictly inside, and starts on a free
      one unless every point up to there is occupied. */
  predicate Proper(occ: seq<bool>, s: Segment) {
    && s.enter < s.exit < |occ| && !occ[s.exit]
    && (forall j :: s.enter < j < s.exit ==> occ[j])
    && (!occ[s.enter] || s.enter == 0)
  }

  /** Segments in order, the exit of each no later than the entry of the next. */
  predicate InOrder(segs: seq<Segment>) {
    && (forall k :: 0 <= k < |segs| ==> segs[k].enter < segs[k].exit)
    && forall k :: 0 <= k < |segs| - 1 ==> segs[k].exit <= segs[k + 1].enter
  }

  predicate Inside(s: Segment, i: int) { s.enter < i < s.exit }

  /** The segments are proper and in order, and start no earlier than a free point below i. */
  lemma {:induction false} CollectIsProper(occ: seq<bool>, isNew: seq<bool>, i: nat, last: int)
    requires last < |occ| == |isNew| && (forall j :: 0 <= j < |occ| && isNew[j] ==> occ[j])
    requires Collect(occ, isNew, i, last).Collected?
    ensures var segs := Collect(occ, isNew, i, last).segments;
      && InOrder(segs) && (forall k :: 0 <= k < |segs| ==> Proper(occ, segs[k]))
      && forall c :: 0 <= c < i && c < |occ| && !occ[c] && 0 < |segs| ==> c <= segs[0].enter && !occ[segs[0].enter]
    decreases last - i
  {
    if last < i {
    } else if !isNew[i] {
      CollectIsProper(occ, isNew, i + 1, last);
    } else {
      var exit := After(occ, i + 1);
      CollectIsProper(occ, isNew, exit + 2, last);
      var rest := Collect(occ, isNew, exit + 2, last).segments;
      var s := Segment(Before(occ, i), exit);
      assert Proper(occ, s);
      assert 0 < |rest| ==> exit <= rest[0].enter;
      forall c | 0 <= c < i && !occ[c]
        ensures c <= s.enter && !occ[s.enter]
      {
        BeforeKeeps(occ, c, i);
      }
    }
  }

  ghost predicate Covered(segs: seq<Segment>, c: int) { exists k :: 0 <= k < |segs| && Inside(segs[k], c) }

  /** The look that begins at first takes x as the exit of a segment: x is the free point behind a
      fresh collision that was not itself stepped over. */
  ghost predicate IsExit(occ: seq<bool>, isNew: seq<bool>, first: nat, x: int)
    requires |occ| == |isNew|
    decreases x
  {
    && first <= x < |occ| && !occ[x]
    && exists p :: first <= p < x && isNew[p] && After(occ, p) == x && !IsExit(occ, isNew, first, p - 1)
  }

  /** A later fresh collision that is looked at lies in the same stretch of occupied points as c. */
  ghost predicate SeenLater(occ: seq<bool>, isNew: seq<bool>, last: int, c: nat)
    requires last < |occ| == |isNew| && c < |occ|
  {
    exists j :: c < j <= last && j < After(occ, c) && isNew[j]
  }

  /** Where nothing fresh is looked at, the look may as well begin one later. */
  lemma {:induction false} ExitSkips(occ: seq<bool>, isNew: seq<bool>, i: nat, x: int)
    requires |occ| == |isNew| && i < |occ| && !isNew[i]
    ensures IsExit(occ, isNew, i, x) <==> IsExit(occ, isNew, i + 1, x)
    decreases x
  {
    forall p {:trigger isNew[p]} | i <= p < x && x < |occ| && isNew[p]
      ensures IsExit(occ, isNew, i, p - 1) <==> IsExit(occ, isNew, i + 1, p - 1)
    {
      ExitSkips(occ, isNew, i, p - 1);
    }
  }

  /** Past a segment the exits are those of a look that begins two after its exit. */
  lemma {:induction false} ExitResumes(occ: seq<bool>, isNew: seq<bool>, i: nat, x: int)
    requires |occ| == |isNew| && i < |occ| && isNew[i] && occ[i] && After(occ, i) < x < |occ|
    ensures IsExit(occ, isNew, i, After(occ, i))
    ensures IsExit(occ, isNew, i, x) <==> IsExit(occ, isNew, After(occ, i) + 2, x)
    decreases x
  {
    var e := After(occ, i);
    assert i < e && !IsExit(occ, isNew, i, i - 1);
    forall p: nat | i <= p <= e
      ensures After(occ, p) == e
    {
      SameStretch(occ, i, p);
    }
    forall p {:trigger isNew[p]} | e + 2 <= p < x && isNew[p]
      ensures IsExit(occ, isNew, i, p - 1) <==> IsExit(occ, isNew, e + 2, p - 1)
    {
      ExitResumes(occ, isNew, i, p - 1);
    }
  }

  lemma {:induction false} SameStretch(occ: seq<bool>, i: nat, p: nat)
    requires i <= |occ| && i <= p <= After(occ, i)
    ensures After(occ, p) == After(occ, i)
    decreases p - i
  {
    if i < p {
      SameStretch(occ, i + 1, p);
    }
  }

  /** What a look that resumes at k, inside the stretch of c, makes of c. */
  lemma {:induction false} ResumedCovers(occ: seq<bool>, isNew: seq<bool>, k: nat, last: int, c: nat)
    requires last < |occ| == |isNew| && (forall j :: 0 <= j < |occ| && isNew[j] ==> occ[j])
    requires 0 < c < |occ| && c < k <= After(occ, c) && !occ[c - 1]
    requires Collect(occ, isNew, k, last).Collected?
    ensures Covered(Collect(occ, isNew, k, last).segments, c) <==>
            exists j :: k <= j <= last && j < After(occ, c) && isNew[j]
    decreases last - k
  {
    var segs := Collect(occ, isNew, k, last).segments;
    if last < k {
    } else if k == After(occ, c) {
      CollectIsProper(occ, isNew, k + 1, last);
      forall m | 0 <= m < |segs|
        ensures c < segs[m].enter
      {
        if 0 < m {
          LaterEnters(segs, 0, m);
        }
      }
    } else if isNew[k] {
      BeforeStretch(occ, c, k);
      assert Inside(segs[0], c);
    } else {
      ResumedCovers(occ, isNew, k + 1, last, c);
    }
  }

  lemma {:induction false} BeforeStretch(occ: seq<bool>, c: nat, k: nat)
    requires 0 < c < |occ| && c < k <= After(occ, c) && !occ[c - 1]
    ensures Before(occ, k) == c - 1
    decreases k
  {
    BeforeKeeps(occ, c - 1, k);
  }

  /** A fresh collision that is looked for ends up strictly inside a segment, unless it comes right
      after an exit and no later fresh collision is looked at before the next free point; then it is missed. */
  lemma {:induction false} FreshCoveredIff(occ: seq<bool>, isNew: seq<bool>, i: nat, last: int, c: nat)
    requires last < |occ| == |isNew| && 0 < c && i <= c <= last && isNew[c]
             && (forall j :: 0 <= j < |occ| && isNew[j] ==> occ[j])
    requires Collect(occ, isNew, i, last).Collected?
    ensures Covered(Collect(occ, isNew, i, last).segments, c) <==>
            !IsExit(occ, isNew, i, c - 1) || SeenLater(occ, isNew, last, c)
    decreases last - i
  {
    hide IsExit;
    if !isNew[i] {
      FreshCoveredIff(occ, isNew, i + 1, last, c);
      ExitSkips(occ, isNew, i, c - 1);
    } else {
      var s, rest := FirstSegment(occ, isNew, i, last);
      var exit := s.exit;
      hide Collect;
      CoveredSplits(s, rest, c);
      hide Covered;
      if c < exit {
        NotExit(occ, isNew, i, c - 1);
      } else if c == exit + 1 {
        ExitResumes(occ, isNew, i, c);
        ResumedCovers(occ, isNew, c + 1, last, c);
      } else {
        FreshCoveredIff(occ, isNew, exit + 2, last, c);
        ExitResumes(occ, isNew, i, c - 1);
      }
    }
  }

  lemma NotExit(occ: seq<bool>, isNew: seq<bool>, first: nat, x: int)
    requires |occ| == |isNew| && x < |occ| && (x < first || occ[x])
    ensures !IsExit(occ, isNew, first, x)
  {
  }

  /** The first segment found from a fresh collision on, and what the look finds after it. */
  lemma FirstSegment(occ: seq<bool>, isNew: seq<bool>, i: nat, last: int) returns (s: Segment, rest: seq<Segment>)
    requires i <= last < |occ| == |isNew| && isNew[i] && occ[i] && Collect(occ, isNew, i, last).Collected?
    ensures Collect(occ, isNew, After(occ, i) + 2, last) == Collected(rest)
    ensures Collect(occ, isNew, i, last) == Collected([s] + rest)
    ensures s == Segment(Before(occ, i), After(occ, i)) && i < s.exit < |occ|
  {
    s := Segment(Before(occ, i), After(occ, i));
    rest := Collect(occ, isNew, After(occ, i) + 2, last).segments;
  }

  lemma CoveredSplits(s: Segment, rest: seq<Segment>, c: int)
    ensures Covered([s] + rest, c) <==> Inside(s, c) || Covered(rest, c)
  {
    var all := [s] + rest;
    if Covered(all, c) {
      var k :| 0 <= k < |all| && Inside(all[k], c);
      assert k == 0 || rest[k - 1] == all[k];
    }
    assert all[0] == s;
    if Covered(rest, c) {
      var k :| 0 <= k < |rest| && Inside(rest[k], c);
      assert all[k + 1] == rest[k];
    }
  }

  ghost predicate EndsSome(segs: seq<Segment>, x: int) { exists k :: 0 <= k < |segs| && segs[k].exit == x }

  /** IsExit tells, from the inputs alone, where the segments end. */
  lemma {:induction false} ExitsAreEnds(occ: seq<bool>, isNew: seq<bool>, i: nat, last: int, x: int)
    requires last < |occ| == |isNew| && x <= last && (forall j :: 0 <= j < |occ| && isNew[j] ==> occ[j])
    requires Collect(occ, isNew, i, last).Collected?
    ensures EndsSome(Collect(occ, isNew, i, last).segments, x) <==> IsExit(occ, isNew, i, x)
    decreases last - i
  {
    if last < i {
    } else if !isNew[i] {
      ExitsAreEnds(occ, isNew, i + 1, last, x);
      ExitSkips(occ, isNew, i, x);
    } else {
      var exit := After(occ, i + 1);
      var rest := Collect(occ, isNew, exit + 2, last).segments;
      var segs := Collect(occ, isNew, i, last).segments;
      assert segs == [Segment(Before(occ, i), exit)] + rest && After(occ, i) == exit;
      EndsSplit(segs[0], rest, x);
      ExitsAreEnds(occ, isNew, exit + 2, last, x);
      if exit < x {
        ExitResumes(occ, isNew, i, x);
      } else if x == exit {
        assert !IsExit(occ, isNew, i, i - 1);
      }
    }
  }

  lemma EndsSplit(s: Segment, rest: seq<Segment>, x: int)
    ensures EndsSome([s] + rest, x) <==> s.exit == x || EndsSome(rest, x)
  {
    var all := [s] + rest;
    if EndsSome(all, x) {
      var k :| 0 <= k < |all| && all[k].exit == x;
      assert k == 0 || rest[k - 1] == all[k];
    }
    assert all[0] == s;
    if EndsSome(rest, x) {
      var k :| 0 <= k < |rest| && rest[k].exit == x;
      assert all[k + 1] == rest[k];
    }
  }

  /** So only the control point right after an exit can be missed. */
  lemma FreshIsCovered(occ: seq<bool>, isNew: seq<bool>, i: nat, last: int, c: nat)
    requires last < |occ| == |isNew| && 0 < c && i <= c <= last && isNew[c]
             && (forall j :: 0 <= j < |occ| && isNew[j] ==> occ[j])
    requires Collect(occ, isNew, i, last).Collected?
    ensures var segs := Collect(occ, isNew, i, last).segments;
      exists k :: 0 <= k < |segs| && (Inside(segs[k], c) || c == segs[k].exit + 1)
  {
    FreshCoveredIff(occ, isNew, i, last, c);
    ExitsAreEnds(occ, isNew, i, last, c - 1);
  }

  /** The exception is real: a lone fresh collision two past another is not in any segment. */
  lemma SteppedOver()
    ensures var occ := [false, false, true, false, true, false, false, false];
      Collect(occ, occ, 2, 5) == Collected([Segment(1, 3)]) && occ[4] && !Inside(Segment(1, 3), 4)
  {
  }

  /** Giving up means a fresh collision after which every control point is occupied. */
  lemma {:induction false} GivesUpInside(occ: seq<bool>, isNew: seq<bool>, i: nat, last: int)
    requires last < |occ| == |isNew| && Collect(occ, isNew, i, last).EndsInObstacle?
    ensures exists c :: i <= c <= last && isNew[c] && After(occ, c + 1) == |occ|
    decreases last - i
  {
    if isNew[i] && After(occ, i + 1) == |occ| {
    } else if isNew[i] {
      GivesUpInside(occ, isNew, After(occ, i + 1) + 2, last);
    } else {
      GivesUpInside(occ, isNew, i + 1, last);
    }
  }

  /** Division as in the original, towards zero. */
  function Truncated(a: int, b: int): int
    requires 0 < b
  {
    if 0 <= a then a / b else -(-a / b)
  }

  /** The last control point looked at: the final third of the inner points is left alone. */
  function LastLooked(size: nat, order: nat): int {
    var endIdx := size - order;
    endIdx - Truncated(endIdx - order, 3)
  }

  lemma LastLookedInside(size: nat, order: nat)
    requires 1 <= order && order - 1 <= LastLooked(size, order)
    ensures LastLooked(size, order) < size
  {
  }

  /** An occupied control point is a fresh collision unless one of its guides already reaches it. */
  predicate IsFresh(p: V3, occupied: bool, guides: seq<Guide>, resolution: real) {
    occupied && forall k :: 0 <= k < |guides| ==> resolution <= p.Minus(guides[k].base).Dot(guides[k].dir)
  }

  function FreshOnes(points: seq<V3>, occ: seq<bool>, guides: seq<seq<Guide>>, resolution: real): (r: seq<bool>)
    requires |points| == |occ| == |guides|
    ensures |r| == |occ| && forall i :: 0 <= i < |occ| ==> r[i] == IsFresh(points[i], occ[i], guides[i], resolution)
  {
    seq(|points|, i requires 0 <= i < |points| => IsFresh(points[i], occ[i], guides[i], resolution))
  }

  method CheckFresh(p: V3, occupied: bool, guides: seq<Guide>, resolution: real) returns (occ: bool)
    ensures occ == IsFresh(p, occupied, guides, resolution)
  {
    occ := occupied;
    if occ {
      for k := 0 to |guides|
        invariant occ && forall m :: 0 <= m < k ==> resolution <= p.Minus(guides[m].base).Dot(guides[m].dir)
      {
        if p.Minus(guides[k].base).Dot(guides[k].dir) < resolution {
          occ := false;
          break;
        }
      }
    }
  }

  method FindBefore(occ: seq<bool>, i: nat) returns (enter: nat)
    requires i <= |occ|
    ensures enter == Before(occ, i)
  {
    var j := i - 1;
    while 0 <= j
      invariant -1 <= j < i || (i == 0 && j == -1)
      invariant Before(occ, i) == Before(occ, j + 1)
    {
      if !occ[j] {
        return j;
      }
      j := j - 1;
    }
    enter := 0;
  }

  method FindAfter(occ: seq<bool>, i: nat) returns (exit: nat)
    requires i <= |occ|
    ensures exit == After(occ, i)
  {
    exit := i;
    while exit < |occ|
      invariant i <= exit <= |occ| && After(occ, i) == After(occ, exit)
    {
      if !occ[exit] {
        return;
      }
      exit := exit + 1;
    }
  }

  function Behind(segs: seq<Segment>, c: Collected): Collected {
    match c
    case EndsInObstacle => EndsInObstacle
    case Collected(rest) => Collected(segs + rest)
  }

  /** From the last free point before i to the first one after it. */
  ghost function Around(occ: seq<bool>, i: nat): (s: Segment)
    requires i < |occ|
    ensures i < s.exit <= |occ|
  {
    Segment(Before(occ, i), After(occ, i + 1))
  }

  method FindAround(occ: seq<bool>, i: nat) returns (s: Segment)
    requires i < |occ|
    ensures s == Around(occ, i)
  {
    var enter := FindBefore(occ, i);
    var exit := FindAfter(occ, i + 1);
    s := Segment(enter, exit);
  }

  /** One turn of the segmentation loop that finds a segment. */
  lemma CollectStep(occ: seq<bool>, isNew: seq<bool>, i: nat, last: int, segs: seq<Segment>)
    requires i <= last < |occ| == |isNew| && isNew[i]
    ensures var s := Around(occ, i);
      Behind(segs, Collect(occ, isNew, i, last)) ==
      if s.exit == |occ| then EndsInObstacle else Behind(segs + [s], Collect(occ, isNew, s.exit + 2, last))
  {
  }

  lemma CollectSkip(occ: seq<bool>, isNew: seq<bool>, i: nat, last: int)
    requires i <= last < |occ| == |isNew| && !isNew[i]
    ensures Collect(occ, isNew, i, last) == Collect(occ, isNew, i + 1, last)
  {
  }

  lemma CollectDone(occ: seq<bool>, isNew: seq<bool>, i: nat, last: int, segs: seq<Segment>)
    requires last < i && last < |occ| == |isNew|
    ensures Behind(segs, Collect(occ, isNew, i, last)) == Collected(segs)
  {
  }

  /** The segmentation loop; ok is false where the original stops with STOP_FOR_ERROR. */
  method CollectSegments(points: seq<V3>, occ: seq<bool>, guides: seq<seq<Guide>>, resolution: real, order: nat)
    returns (ok: bool, segs: seq<Segment>)
    requires |points| == |occ| == |guides| && 1 <= order
    ensures var last := LastLooked(|occ|, order);
      last < |occ| || last < order - 1
    ensures var last, isNew := LastLooked(|occ|, order), FreshOnes(points, occ, guides, resolution);
      if last < order - 1 then ok && segs == []
      else if ok then Collect(occ, isNew, order - 1, last) == Collected(segs)
      else Collect(occ, isNew, order - 1, last) == EndsInObstacle
  {
    var last := LastLooked(|occ|, order);
    if last < order - 1 {
      return true, [];
    }
    LastLookedInside(|occ|, order);
    ok, segs := CollectFrom(points, occ, guides, resolution, order - 1, last);
  }

  method CollectFrom(points: seq<V3>, occ: seq<bool>, guides: seq<seq<Guide>>, resolution: real, first: nat, last: int)
    returns (ok: bool, segs: seq<Segment>)
    requires last < |points| == |occ| == |guides|
    ensures Collect(occ, FreshOnes(points, occ, guides, resolution), first, last)
            == if ok then Collected(segs) else EndsInObstacle
  {
    ghost var isNew := FreshOnes(points, occ, guides, resolution);
    segs, ok := [], true;
    ghost var whole := Collect(occ, isNew, first, last);
    assert whole == Behind(segs, whole);
    hide Behind, IsFresh, FreshOnes, Around, Collect;
    var i := first;
    while i <= last
      invariant whole == Behind(segs, Collect(occ, isNew, i, last))
    {
      var hit := CheckFresh(points[i], occ[i], guides[i], resolution);
      assert hit == isNew[i];
      if hit {
        CollectStep(occ, isNew, i, last, segs);
        var s := FindAround(occ, i);
        if s.exit >= |occ| {
          return false, segs;
        }
        segs := segs + [s];
        i := s.exit + 1;
      } else {
        CollectSkip(occ, isNew, i, last);
      }
      i := i + 1;
    }
    CollectDone(occ, isNew, i, last, segs);
  }

  /** What A* answers for a segment's two ends. */
  datatype Answer = Found(path: seq<V3>) | SearchError | InitError

  /** Which of the collected segments a remaining one spans: from first to final. */
  datatype Span = Span(first: nat, final: nat)

  /** The remaining segments are disjoint runs of the collected ones, in order. */
  ghost predicate Coarsens(segs: seq<Segment>, original: seq<Segment>, spans: seq<Span>) {
    && |spans| == |segs|
    && (forall k :: 0 <= k < |segs| ==>
          && spans[k].first <= spans[k].final < |original|
          && segs[k] == Segment(original[spans[k].first].enter, original[spans[k].final].exit))
    && forall k :: 0 <= k < |segs| - 1 ==> spans[k].final < spans[k + 1].first
  }

  lemma {:induction false} LaterEnters(segs: seq<Segment>, a: nat, b: nat)
    requires InOrder(segs) && a < b < |segs|
    ensures segs[a].exit <= segs[b].enter
    decreases b - a
  {
    if a + 1 < b {
      LaterEnters(segs, a, b - 1);
      assert segs[b - 1].exit <= segs[b - 1 + 1].enter;
    }
  }

  /** Runs of ordered segments are ordered. */
  lemma CoarseInOrder(segs: seq<Segment>, original: seq<Segment>, spans: seq<Span>)
    requires InOrder(original) && Coarsens(segs, original, spans)
    ensures InOrder(segs)
  {
    forall k | 0 <= k < |segs|
      ensures segs[k].enter < segs[k].exit
    {
      if spans[k].first < spans[k].final {
        LaterEnters(original, spans[k].first, spans[k].final);
      }
    }
    forall k | 0 <= k < |segs| - 1
      ensures segs[k].exit <= segs[k + 1].enter
    {
      LaterEnters(original, spans[k].final, spans[k + 1].first);
    }
  }

  /** Without the k-th element. */
  function Without<T>(s: seq<T>, k: nat): (r: seq<T>)
    requires k < |s|
    ensures |r| == |s| - 1
    ensures forall j :: 0 <= j < k ==> r[j] == s[j]
    ensures forall j :: k <= j < |r| ==> r[j] == s[j + 1]
  {
    s[..k] + s[k + 1..]
  }

  lemma DropCoarsens(segs: seq<Segment>, original: seq<Segment>, spans: seq<Span>, k: nat)
    requires InOrder(original) && Coarsens(segs, original, spans) && k < |segs|
    ensures Coarsens(Without(segs, k), original, Without(spans, k))
  {
    var left := Without(spans, k);
    forall j | 0 <= j < |left| - 1
      ensures left[j].final < left[j + 1].first
    {
      if j == k - 1 {
        assert spans[k - 1].final < spans[k - 1 + 1].first <= spans[k].final < spans[k + 1].first;
      } else if k <= j {
        assert spans[j + 1].final < spans[j + 1 + 1].first;
      } else {
        assert spans[j].final < spans[j + 1].first;
      }
    }
  }

  lemma MergeCoarsens(segs: seq<Segment>, original: seq<Segment>, spans: seq<Span>, k: nat)
    requires InOrder(original) && Coarsens(segs, original, spans) && k + 1 < |segs|
    ensures Coarsens(Without(segs[k := Segment(segs[k].enter, segs[k + 1].exit)], k + 1), original,
                     Without(spans[k := Span(spans[k].first, spans[k + 1].final)], k + 1))
  {
    var left := Without(spans[k := Span(spans[k].first, spans[k + 1].final)], k + 1);
    assert spans[k].final < spans[k + 1].first;
    forall j | 0 <= j < |left| - 1
      ensures left[j].final < left[j + 1].first
    {
      if k <= j {
        assert spans[j + 1].final < spans[j + 1 + 1].first;
      } else {
        assert spans[j].final < spans[j + 1].first;
      }
    }
  }

  /** A usable path changes nothing, a search error joins segment i with the next one if there is one, and anything
      else drops it. */
  ghost predicate Taken(segs: seq<Segment>, spans: seq<Span>, i: nat, ret: Answer, left: seq<Segment>,
                        leftSpans: seq<Span>)
    requires i < |segs| == |spans|
  {
    if ret.Found? && 2 <= |ret.path| then left == segs && leftSpans == spans
    else if ret.SearchError? && i + 1 < |segs| then
      && left == Without(segs[i := Segment(segs[i].enter, segs[i + 1].exit)], i + 1)
      && leftSpans == Without(spans[i := Span(spans[i].first, spans[i + 1].final)], i + 1)
    else left == Without(segs, i) && leftSpans == Without(spans, i)
  }

  /** One segment's answer taken in: a usable path keeps the segment, a search error joins it with the
      next one, and anything else drops it. */
  method TakeAnswer(segs: seq<Segment>, ghost spans: seq<Span>, i: nat, ret: Answer, ghost original: seq<Segment>)
    returns (found: bool, left: seq<Segment>, ghost leftSpans: seq<Span>)
    requires i < |segs| == |spans| && InOrder(original) && Coarsens(segs, original, spans)
    ensures found <==> ret.Found? && 2 <= |ret.path|
    ensures Taken(segs, spans, i, ret, left, leftSpans)
    ensures |leftSpans| == |left| && Coarsens(left, original, leftSpans)
    ensures |left| == if found then |segs| else |segs| - 1
  {
    hide Coarsens, Without, InOrder;
    found, left, leftSpans := false, segs, spans;
    if ret.Found? {
      if |ret.path| < 2 {
        DropCoarsens(segs, original, spans, i);
        left, leftSpans := Without(segs, i), Without(spans, i);
      } else {
        found := true;
      }
    } else if ret.SearchError? && i + 1 < |segs| {
      MergeCoarsens(segs, original, spans, i);
      var joined := segs[i := Segment(segs[i].enter, segs[i + 1].exit)];
      left := Without(joined, i + 1);
      leftSpans := Without(spans[i := Span(spans[i].first, spans[i + 1].final)], i + 1);
    } else {
      DropCoarsens(segs, original, spans, i);
      left, leftSpans := Without(segs, i), Without(spans, i);
    }
  }

  /** Path k is what the search answered, at some call, for the ends of segment k. */
  ghost predicate Answered(segs: seq<Segment>, paths: seq<seq<V3>>, search: (nat, Segment) -> Answer, calls: seq<nat>) {
    && |paths| == |calls| <= |segs|
    && forall k :: 0 <= k < |paths| ==> 2 <= |paths[k]| && search(calls[k], segs[k]) == Found(paths[k])
  }

  lemma StillAnswered(segs: seq<Segment>, left: seq<Segment>, paths: seq<seq<V3>>, search: (nat, Segment) -> Answer,
                      calls: seq<nat>, n: nat, more: seq<seq<V3>>)
    requires Answered(segs, paths, search, calls)
    requires |paths| <= |left| && forall k :: 0 <= k < |paths| ==> left[k] == segs[k]
    requires more == [] || (|more| == 1 && |paths| < |left| && 2 <= |more[0]|
                            && search(n, left[|paths|]) == Found(more[0]))
    ensures Answered(left, paths, search, calls)
    ensures more != [] ==> Answered(left, paths + more, search, calls + [n])
  {
  }

  ghost function Singles(n: nat): (r: seq<Span>)
    ensures |r| == n && forall i :: 0 <= i < n ==> r[i] == Span(i, i)
  {
    seq(n, i requires 0 <= i < n => Span(i, i))
  }

  /** One call of the search: for the stretch of collected segments from first to final it answered so. */
  datatype Call = Call(first: nat, final: nat, answer: Answer) {
    /** A usable path. */
    predicate Kept() { answer.Found? && 2 <= |answer.path| }

    /** An answer that drops the stretch: an error to begin with, a path of fewer than two points, or a failed
        search with none of the n collected segments left to join. */
    predicate Drops(n: nat) {
      || answer.InitError? || (answer.Found? && |answer.path| < 2) || (answer.SearchError? && final + 1 == n)
    }
  }

  /** The n-th call is for the first segment, for the stretch whose search failed joined with the next segment, or
      for the segment after the one before was settled. */
  ghost predicate Follows(log: seq<Call>, n: nat, first: nat, final: nat)
    requires n <= |log|
  {
    if n == 0 then first == final == 0
    else if log[n - 1].answer.SearchError? then first == log[n - 1].first && final == log[n - 1].final + 1
    else first == final == log[n - 1].final + 1
  }

  /** The n-th call is in turn and for the ends of its stretch. */
  ghost predicate InTurn(collected: seq<Segment>, search: (nat, Segment) -> Answer, log: seq<Call>, n: nat)
    requires n < |log|
  {
    var call := log[n];
    && call.first <= call.final < |collected| && Follows(log, n, call.first, call.final)
    && call.answer == search(n, Segment(collected[call.first].enter, collected[call.final].exit))
  }

  ghost predicate Asked(collected: seq<Segment>, search: (nat, Segment) -> Answer, log: seq<Call>) {
    forall n: nat :: n < |log| ==> InTurn(collected, search, log, n)
  }

  ghost predicate AllKept(log: seq<Call>) { forall n :: 0 <= n < |log| ==> log[n].Kept() }

  lemma AllKeptGrows(log: seq<Call>, call: Call)
    ensures AllKept(log + [call]) <==> AllKept(log) && call.Kept()
  {
    var log' := log + [call];
    assert log'[|log|] == call && forall m :: 0 <= m < |log| ==> log'[m] == log[m];
  }

  /** The paths are those of the usable answers, in order. */
  ghost predicate KeptInOrder(spans: seq<Span>, log: seq<Call>, calls: seq<nat>) {
    && |calls| <= |spans|
    && (forall k :: 0 <= k < |calls| ==>
          calls[k] < |log| && log[calls[k]].Kept() && spans[k] == Span(log[calls[k]].first, log[calls[k]].final))
    && (forall k :: 0 <= k < |calls| - 1 ==> calls[k] < calls[k + 1])
    && forall n :: 0 <= n < |log| && log[n].Kept() ==> n in calls
  }

  ghost predicate InSpan(spans: seq<Span>, n: nat, c: int) {
    exists k :: 0 <= k < n <= |spans| && spans[k].first <= c <= spans[k].final
  }

  ghost predicate InDropped(log: seq<Call>, size: nat, c: int) {
    exists n :: 0 <= n < |log| && log[n].first <= c <= log[n].final && log[n].Drops(size)
  }

  /** Every collected segment before from has its path or was part of a stretch that an answer dropped. */
  ghost predicate Accounted(spans: seq<Span>, n: nat, log: seq<Call>, size: nat, from: nat) {
    forall c :: 0 <= c < from ==> InSpan(spans, n, c) || InDropped(log, size, c)
  }

  /** From place i on the stretches are consecutive: one under way, then single segments up to the last. */
  ghost predicate Ahead(spans: seq<Span>, i: nat, size: nat) {
    && i <= |spans|
    && (i < |spans| ==> spans[i].first <= spans[i].final && spans[i].final + |spans| - i == size)
    && forall j :: i < j < |spans| ==> spans[j] == Span(size + j - |spans|, size + j - |spans|)
  }

  /** Where the loop stands before its next call. */
  ghost predicate UnderWay(spans: seq<Span>, log: seq<Call>, calls: seq<nat>, size: nat) {
    var i := |calls|;
    && Ahead(spans, i, size) && KeptInOrder(spans, log, calls)
    && Accounted(spans, i, log, size, if i < |spans| then spans[i].first else size)
    && (i < |spans| ==> Follows(log, |log|, spans[i].first, spans[i].final))
  }

  lemma StartsUnderWay(size: nat)
    ensures UnderWay(Singles(size), [], [], size)
  {
  }

  lemma {:induction false} AccountedGrows(spans: seq<Span>, spans': seq<Span>, n: nat, n': nat, log: seq<Call>,
                                          call: Call, size: nat, from: nat, from': nat)
    requires Accounted(spans, n, log, size, from) && n <= n' <= |spans'| && n <= |spans|
    requires forall k :: 0 <= k < n ==> spans'[k] == spans[k]
    requires forall c :: from <= c < from' ==>
      InSpan(spans', n', c) || (call.first <= c <= call.final && call.Drops(size))
    ensures Accounted(spans', n', log + [call], size, from')
  {
    var log' := log + [call];
    forall c | 0 <= c < from'
      ensures InSpan(spans', n', c) || InDropped(log', size, c)
    {
      if c < from {
        if InSpan(spans, n, c) {
          var k :| 0 <= k < n <= |spans| && spans[k].first <= c <= spans[k].final;
          assert spans'[k] == spans[k];
        } else {
          var m :| 0 <= m < |log| && log[m].first <= c <= log[m].final && log[m].Drops(size);
          assert log'[m] == log[m];
        }
      } else if !InSpan(spans', n', c) {
        assert log'[|log|] == call;
      }
    }
  }

  lemma InLast(spans: seq<Span>, i: nat, n: nat)
    requires i < |spans| && n == i + 1
    ensures forall c :: spans[i].first <= c <= spans[i].final ==> InSpan(spans, n, c)
  {
  }

  /** A usable path keeps the stretch and goes on to the next. */
  lemma FoundGoesOn(spans: seq<Span>, log: seq<Call>, calls: seq<nat>, size: nat, call: Call)
    requires UnderWay(spans, log, calls, size) && |calls| < |spans| && call.Kept()
    requires spans[|calls|] == Span(call.first, call.final)
    ensures UnderWay(spans, log + [call], calls + [|log|], size)
  {
    var i, log', calls' := |calls|, log + [call], calls + [|log|];
    var from := if i + 1 < |spans| then spans[i + 1].first else size;
    assert from == call.final + 1;
    InLast(spans, i, i + 1);
    AccountedGrows(spans, spans, i, i + 1, log, call, size, spans[i].first, from);
    assert KeptInOrder(spans, log', calls') by {
      assert forall k :: 0 <= k < i ==> log'[calls[k]] == log[calls[k]];
      assert calls'[i] == |log|;
    }
  }

  /** A failed search joins the stretch with the next segment. */
  lemma JoinGoesOn(spans: seq<Span>, log: seq<Call>, calls: seq<nat>, size: nat, call: Call)
    requires UnderWay(spans, log, calls, size) && |calls| + 1 < |spans| && call.answer.SearchError?
    requires spans[|calls|] == Span(call.first, call.final)
    ensures var i := |calls|;
      UnderWay(Without(spans[i := Span(spans[i].first, spans[i + 1].final)], i + 1), log + [call], calls, size)
  {
    hide Without;
    var i, log' := |calls|, log + [call];
    var spans' := Without(spans[i := Span(spans[i].first, spans[i + 1].final)], i + 1);
    AccountedGrows(spans, spans', i, i, log, call, size, spans[i].first, spans[i].first);
    assert KeptInOrder(spans', log', calls) by {
      assert forall k :: 0 <= k < i ==> log'[calls[k]] == log[calls[k]];
    }
  }

  /** Any other answer drops the stretch. */
  lemma DropGoesOn(spans: seq<Span>, log: seq<Call>, calls: seq<nat>, size: nat, call: Call)
    requires UnderWay(spans, log, calls, size) && |calls| < |spans| && !call.Kept()
    requires call.answer.SearchError? ==> |calls| + 1 == |spans|
    requires spans[|calls|] == Span(call.first, call.final)
    ensures UnderWay(Without(spans, |calls|), log + [call], calls, size)
  {
    hide Without;
    var i, log' := |calls|, log + [call];
    var spans' := Without(spans, i);
    assert call.Drops(size);
    var from := if i < |spans'| then spans'[i].first else size;
    assert from == call.final + 1;
    AccountedGrows(spans, spans', i, i, log, call, size, spans[i].first, from);
    assert KeptInOrder(spans', log', calls) by {
      assert forall k :: 0 <= k < i ==> log'[calls[k]] == log[calls[k]];
    }
  }

  lemma AskedGrows(collected: seq<Segment>, search: (nat, Segment) -> Answer, log: seq<Call>, call: Call)
    requires Asked(collected, search, log) && call.first <= call.final < |collected|
    requires Follows(log, |log|, call.first, call.final)
    requires call.answer == search(|log|, Segment(collected[call.first].enter, collected[call.final].exit))
    ensures Asked(collected, search, log + [call])
  {
    var log' := log + [call];
    forall n: nat | n < |log'|
      ensures InTurn(collected, search, log', n)
    {
      if n < |log| {
        assert InTurn(collected, search, log, n);
        SameTurn(collected, search, log, log', n);
      }
    }
  }

  lemma SameTurn(collected: seq<Segment>, search: (nat, Segment) -> Answer, log: seq<Call>, log': seq<Call>, n: nat)
    requires n < |log| <= |log'| && InTurn(collected, search, log, n)
    requires log'[n] == log[n] && (0 < n ==> log'[n - 1] == log[n - 1])
    ensures InTurn(collected, search, log', n)
  {
  }

  /** The A* loop over the segments. The n-th call of the search answers search(n, segment). Every collected segment
      ends up in a stretch with its path or in one that an answer dropped, stretches are joined only where a search
      failed, and if every answer is a usable path the segments are the collected ones. */
  method FindPaths(collected: seq<Segment>, search: (nat, Segment) -> Answer)
    returns (segs: seq<Segment>, paths: seq<seq<V3>>, ghost spans: seq<Span>, ghost calls: seq<nat>,
             ghost log: seq<Call>)
    requires InOrder(collected)
    ensures InOrder(segs) && Coarsens(segs, collected, spans)
    ensures |paths| == |segs| && Answered(segs, paths, search, calls)
    ensures Asked(collected, search, log) && KeptInOrder(spans, log, calls)
    ensures forall c :: 0 <= c < |collected| ==> InSpan(spans, |spans|, c) || InDropped(log, |collected|, c)
    ensures AllKept(log) ==> segs == collected
  {
    segs, paths, spans, calls, log := collected, [], Singles(|collected|), [], [];
    LoopStarts(collected, search);
    hide LoopOk, Coarsens, Taken, InOrder, Answered, Asked, AllKept, KeptInOrder, InSpan, InDropped, Without;
    var i, n := 0, 0;
    while i < |segs|
      invariant 0 <= i == |paths| == |calls| <= |segs| == |spans| && n == |log|
      invariant LoopOk(collected, search, segs, spans, paths, calls, log)
      decreases |segs| - i
    {
      LoopCoarsens(collected, search, segs, spans, paths, calls, log);
      var ret := search(n, segs[i]);
      var found, left, leftSpans := TakeAnswer(segs, spans, i, ret, collected);
      LoopGoesOn(collected, search, segs, spans, paths, calls, log, ret, left, leftSpans);
      log := log + [Call(spans[i].first, spans[i].final, ret)];
      if found {
        paths, calls, i := paths + [ret.path], calls + [n], i + 1;
      }
      segs, spans, n := left, leftSpans, n + 1;
    }
    LoopEnds(collected, search, segs, spans, paths, calls, log);
  }

  /** What every turn of that loop keeps. */
  ghost predicate LoopOk(collected: seq<Segment>, search: (nat, Segment) -> Answer, segs: seq<Segment>,
                         spans: seq<Span>, paths: seq<seq<V3>>, calls: seq<nat>, log: seq<Call>)
  {
    && |paths| == |calls| <= |segs| == |spans|
    && Coarsens(segs, collected, spans) && Answered(segs, paths, search, calls)
    && UnderWay(spans, log, calls, |collected|) && Asked(collected, search, log)
    && (AllKept(log) ==> segs == collected)
  }

  lemma LoopStarts(collected: seq<Segment>, search: (nat, Segment) -> Answer)
    ensures LoopOk(collected, search, collected, Singles(|collected|), [], [], [])
  {
    StartsUnderWay(|collected|);
  }

  lemma LoopCoarsens(collected: seq<Segment>, search: (nat, Segment) -> Answer, segs: seq<Segment>,
                     spans: seq<Span>, paths: seq<seq<V3>>, calls: seq<nat>, log: seq<Call>)
    requires LoopOk(collected, search, segs, spans, paths, calls, log)
    ensures Coarsens(segs, collected, spans)
  {
  }

  lemma LoopGoesOn(collected: seq<Segment>, search: (nat, Segment) -> Answer, segs: seq<Segment>,
                   spans: seq<Span>, paths: seq<seq<V3>>, calls: seq<nat>, log: seq<Call>, ret: Answer,
                   left: seq<Segment>, leftSpans: seq<Span>)
    requires LoopOk(collected, search, segs, spans, paths, calls, log) && |calls| < |segs|
    requires ret == search(|log|, segs[|calls|]) && Coarsens(left, collected, leftSpans) && |leftSpans| == |left|
    requires Taken(segs, spans, |calls|, ret, left, leftSpans)
    ensures var call := Call(spans[|calls|].first, spans[|calls|].final, ret);
      if call.Kept() then LoopOk(collected, search, left, leftSpans, paths + [ret.path], calls + [|log|], log + [call])
      else LoopOk(collected, search, left, leftSpans, paths, calls, log + [call])
  {
    hide Coarsens, Answered, Asked, UnderWay, AllKept, Without;
    var found := ret.Found? && 2 <= |ret.path|;
    StillAnswered(segs, left, paths, search, calls, |log|, if found then [ret.path] else []);
    CallTaken(segs, collected, spans, leftSpans, search, log, calls, ret);
  }

  lemma LoopEnds(collected: seq<Segment>, search: (nat, Segment) -> Answer, segs: seq<Segment>,
                 spans: seq<Span>, paths: seq<seq<V3>>, calls: seq<nat>, log: seq<Call>)
    requires LoopOk(collected, search, segs, spans, paths, calls, log) && InOrder(collected) && |calls| == |segs|
    ensures InOrder(segs) && Coarsens(segs, collected, spans) && Answered(segs, paths, search, calls)
    ensures Asked(collected, search, log) && KeptInOrder(spans, log, calls)
    ensures forall c :: 0 <= c < |collected| ==> InSpan(spans, |spans|, c) || InDropped(log, |collected|, c)
    ensures AllKept(log) ==> segs == collected
  {
    CoarseInOrder(segs, collected, spans);
    AllAccounted(spans, log, calls, |collected|);
  }

  lemma CallTaken(segs: seq<Segment>, collected: seq<Segment>, spans: seq<Span>, leftSpans: seq<Span>,
                  search: (nat, Segment) -> Answer, log: seq<Call>, calls: seq<nat>, ret: Answer)
    requires |spans| == |segs| && Coarsens(segs, collected, spans) && UnderWay(spans, log, calls, |collected|)
    requires Asked(collected, search, log) && |calls| < |segs| && ret == search(|log|, segs[|calls|])
    requires var i := |calls|;
      leftSpans == if ret.Found? && 2 <= |ret.path| then spans
                   else if ret.SearchError? && i + 1 < |segs|
                   then Without(spans[i := Span(spans[i].first, spans[i + 1].final)], i + 1)
                   else Without(spans, i)
    ensures var call := Call(spans[|calls|].first, spans[|calls|].final, ret);
      && Asked(collected, search, log + [call]) && (AllKept(log + [call]) <==> AllKept(log) && call.Kept())
      && UnderWay(leftSpans, log + [call], if call.Kept() then calls + [|log|] else calls, |collected|)
  {
    hide Coarsens, UnderWay, Asked, AllKept, Without, Follows;
    var i := |calls|;
    var call := Call(spans[i].first, spans[i].final, ret);
    NextCall(segs, collected, spans, log, calls);
    AskedGrows(collected, search, log, call);
    AllKeptGrows(log, call);
    if call.Kept() {
      FoundGoesOn(spans, log, calls, |collected|, call);
    } else if ret.SearchError? && i + 1 < |segs| {
      JoinGoesOn(spans, log, calls, |collected|, call);
    } else {
      DropGoesOn(spans, log, calls, |collected|, call);
    }
  }

  lemma NextCall(segs: seq<Segment>, collected: seq<Segment>, spans: seq<Span>, log: seq<Call>, calls: seq<nat>)
    requires |spans| == |segs| && Coarsens(segs, collected, spans) && UnderWay(spans, log, calls, |collected|)
    requires |calls| < |segs|
    ensures var s := spans[|calls|];
      && s.first <= s.final < |collected| && Follows(log, |log|, s.first, s.final)
      && segs[|calls|] == Segment(collected[s.first].enter, collected[s.final].exit)
  {
  }

  lemma AllAccounted(spans: seq<Span>, log: seq<Call>, calls: seq<nat>, size: nat)
    requires UnderWay(spans, log, calls, size) && |calls| == |spans|
    ensures KeptInOrder(spans, log, calls)
    ensures forall c :: 0 <= c < size ==> InSpan(spans, |spans|, c) || InDropped(log, size, c)
  {
  }

  /** The control points looked at: from the one before the order-th on, all but the final third of the inner ones. */
  ghost predicate LookedAt(size: nat, order: nat, c: nat) {
    && order - 1 <= c < size
    && if 2 * order <= size then 3 * (c + order - size) < 3 + 2 * order - size
       else 3 * (c + order - size) <= 2 * order - size
  }

  lemma LookedAtIff(size: nat, order: nat, c: nat)
    requires 1 <= order
    ensures LookedAt(size, order, c) <==> order - 1 <= c <= LastLooked(size, order)
  {
    if order - 1 <= LastLooked(size, order) {
      LastLookedInside(size, order);
    }
  }

  /** Both loops together: every segment left has the path found around it, segments stay in order, each is a run
      of collected ones, and the collected ones hold the fresh collisions looked at. */
  method CheckCollisionAndRebound(points: seq<V3>, occ: seq<bool>, guides: seq<seq<Guide>>, resolution: real,
                                  order: nat, search: (nat, Segment) -> Answer)
    returns (ok: bool, segs: seq<Segment>, paths: seq<seq<V3>>, ghost collected: seq<Segment>, ghost spans: seq<Span>,
             ghost calls: seq<nat>, ghost log: seq<Call>)
    requires |points| == |occ| == |guides| && 1 <= order
    ensures ok ==> forall k :: 0 <= k < |collected| ==> Proper(occ, collected[k])
    ensures ok ==> forall c: nat :: (
      && 0 < c && LookedAt(|occ|, order, c) && occ[c]
      && (forall k :: 0 <= k < |guides[c]| ==> resolution <= points[c].Minus(guides[c][k].base).Dot(guides[c][k].dir))
      ==> exists k :: 0 <= k < |collected| && (Inside(collected[k], c) || c == collected[k].exit + 1))
    ensures var isNew := FreshOnes(points, occ, guides, resolution);
      ok ==> forall c: nat :: 0 < c && LookedAt(|occ|, order, c) && isNew[c] ==>
        (Covered(collected, c) <==>
         !IsExit(occ, isNew, order - 1, c - 1) || SeenLater(occ, isNew, LastLooked(|occ|, order), c))
    ensures ok ==> InOrder(segs) && Coarsens(segs, collected, spans)
    ensures ok ==> |paths| == |segs| && Answered(segs, paths, search, calls)
    ensures ok ==> Asked(collected, search, log) && KeptInOrder(spans, log, calls)
    ensures ok ==> forall c :: 0 <= c < |collected| ==> InSpan(spans, |spans|, c) || InDropped(log, |collected|, c)
    ensures ok && AllKept(log) ==> segs == collected
    ensures !ok ==> exists c :: order - 1 <= c < |occ| && IsFresh(points[c], occ[c], guides[c], resolution)
                                && After(occ, c + 1) == |occ|
  {
    var got: seq<Segment>;
    ok, got := CollectSegments(points, occ, guides, resolution, order);
    collected, segs, paths, spans, calls, log := got, [], [], [], [], [];
    ghost var last, isNew := LastLooked(|occ|, order), FreshOnes(points, occ, guides, resolution);
    hide Collect, Proper, LastLooked, LookedAt, IsExit, SeenLater, Covered;
    if !ok {
      GivesUpInside(occ, isNew, order - 1, last);
      return;
    }
    if order - 1 <= last {
      CollectIsProper(occ, isNew, order - 1, last);
    }
    FreshOnesHeld(occ, isNew, order, got);
    segs, paths, spans, calls, log := FindPaths(got, search);
  }

  lemma FreshOnesHeld(occ: seq<bool>, isNew: seq<bool>, order: nat, segs: seq<Segment>)
    requires |occ| == |isNew| && 1 <= order && (forall j :: 0 <= j < |occ| && isNew[j] ==> occ[j])
    requires var last := LastLooked(|occ|, order);
      if last < order - 1 then segs == []
      else last < |occ| && Collect(occ, isNew, order - 1, last) == Collected(segs)
    ensures LastLooked(|occ|, order) < |occ| || forall c: nat :: !LookedAt(|occ|, order, c)
    ensures forall c: nat :: 0 < c && LookedAt(|occ|, order, c) && isNew[c] ==>
      && (Covered(segs, c) <==>
          !IsExit(occ, isNew, order - 1, c - 1) || SeenLater(occ, isNew, LastLooked(|occ|, order), c))
      && exists k :: 0 <= k < |segs| && (Inside(segs[k], c) || c == segs[k].exit + 1)
  {
    forall c: nat
      ensures LookedAt(|occ|, order, c) <==> order - 1 <= c <= LastLooked(|occ|, order)
    {
      LookedAtIff(|occ|, order, c);
    }
    hide Collect, Covered, IsExit, SeenLater, LookedAt, LastLooked;
    var last := LastLooked(|occ|, order);
    forall c: nat | 0 < c && LookedAt(|occ|, order, c) && isNew[c]
      ensures Covered(segs, c) <==> !IsExit(occ, isNew, order - 1, c - 1) || SeenLater(occ, isNew, last, c)
      ensures exists k :: 0 <= k < |segs| && (Inside(segs[k], c) || c == segs[k].exit + 1)
    {
      FreshCoveredIff(occ, isNew, order - 1, last, c);
      FreshIsCovered(occ, isNew, order - 1, last, c);
    }
  }
}
