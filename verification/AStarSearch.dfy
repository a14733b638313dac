/** Grid A* over a reused pool of nodes. */
module AStarSearch {
  import opened Basics
  import opened VoxelWindow

  datatype Option<T> = None | Some(value: T)

  datatype NodeState = OpenSet | ClosedSet | Undefined

  /** A pool node; `rounds` tells which search last touched it, everything else may be left over. */
  datatype Node = Node(rounds: int, state: NodeState, gScore: real, cameFrom: Option<Vec>)

  /** The search problem: pool size, occupancy of a cell for the heading it is entered with, height
      of the search plane at (x, y), and length of a displacement. */
  datatype Problem = Problem(pool: Vec, occupied: (Vec, int, int) -> bool, plane: (int, int) -> int,
                             length: (int, int, int) -> real) {

    predicate InBounds(v: Vec) { 1 <= v.x < pool.x - 1 && 1 <= v.y < pool.y - 1 && 1 <= v.z < pool.z - 1 }

    function Neighbor(u: Vec, dx: int, dy: int): Vec { Vec(u.x + dx, u.y + dy, plane(u.x + dx, u.y + dy)) }

    /** One of the eight headings. */
    predicate Heading(dx: int, dy: int) { -1 <= dx <= 1 && -1 <= dy <= 1 && (dx != 0 || dy != 0) }

    /** v is an 8-neighbour of u on the search plane, in bounds, and free for the heading from u. */
    predicate Edge(u: Vec, v: Vec) {
      var dx, dy := v.x - u.x, v.y - u.y;
      && Heading(dx, dy)
      && v == Neighbor(u, dx, dy) && InBounds(v) && !occupied(v, dx, dy)
    }

    function StepCost(u: Vec, v: Vec): real { length(v.x - u.x, v.y - u.y, v.z - u.z) }

    /** The length of a path listed from its goal back to its start. */
    ghost function Cost(path: seq<Vec>): real {
      if |path| <= 1 then 0.0 else StepCost(path[1], path[0]) + Cost(path[1..])
    }

    /** A walk along edges. */
    ghost predicate Walk(path: seq<Vec>) {
      path != [] && forall i {:trigger path[i]} :: 0 < i < |path| ==> Edge(path[i - 1], path[i])
    }

    /** Occupancy is the same for every heading. */
    ghost predicate HeadingFree() {
      forall v, dx, dy, dx', dy' :: Heading(dx, dy) && Heading(dx', dy') ==>
        occupied(v, dx, dy) == occupied(v, dx', dy')
    }

    /** Then every walk is free for all headings. */
    lemma WalksAreFree(path: seq<Vec>)
      requires HeadingFree() && Walk(path)
      ensures FreeWalk(path)
    {
    }

    /** A walk along edges whose later cells are free for every heading. */
    ghost predicate FreeWalk(path: seq<Vec>) {
      && path != []
      && forall i {:trigger path[i]} :: 0 < i < |path| ==> Edge(path[i - 1], path[i]) && !Blocked(path[i])
    }

    /** No walk through cells free for every heading leads from start to end; if occupancy does not
        depend on the heading, no walk at all does. */
    ghost predicate Unreachable(start: Vec, end: Vec) {
      && (forall path :: FreeWalk(path) && path[0] == start ==> path[|path| - 1] != end)
      && (HeadingFree() ==> forall path :: Walk(path) && path[0] == start ==> path[|path| - 1] != end)
    }

    /** Some heading finds the cell occupied. */
    ghost predicate Blocked(v: Vec) { exists dx, dy :: Heading(dx, dy) && occupied(v, dx, dy) }
  }

  /** The state of one search round. */
  datatype Search = Search(p: Problem, start: Vec, nodes: map<Vec, Node>, rounds: int, open: seq<Vec>,
                           closed: seq<Vec>) {

    ghost predicate Pushed(v: Vec) { v in open || v in closed }

    /** v was reached from u by an edge, and its score extends that of u by the edge's length. */
    ghost predicate Linked(u: Vec, v: Vec) {
      && u in nodes && v in nodes
      && nodes[v].cameFrom == Some(u) && p.Edge(u, v)
      && nodes[v].gScore == nodes[u].gScore + p.StepCost(u, v)
    }

    ghost predicate OpenOk(v: Vec) {
      && v in nodes && nodes[v].rounds == rounds && nodes[v].state == OpenSet
      && if v == start then nodes[v].cameFrom == None && nodes[v].gScore == 0.0 && closed == []
         else nodes[v].cameFrom.Some? && nodes[v].cameFrom.value in closed && Linked(nodes[v].cameFrom.value, v)
    }

    ghost predicate ClosedOk(i: nat)
      requires i < |closed|
    {
      var v := closed[i];
      && v in nodes && nodes[v].rounds == rounds && nodes[v].state == ClosedSet
      && if i == 0 then v == start && nodes[v].cameFrom == None && nodes[v].gScore == 0.0
         else nodes[v].cameFrom.Some? && nodes[v].cameFrom.value in closed[..i] && Linked(nodes[v].cameFrom.value, v)
    }

    ghost predicate Valid() {
      && (forall v: Vec :: v.Under(p.pool) ==> v in nodes)
      && Distinct(open) && Distinct(closed) && (forall v :: v in open ==> v !in closed)
      && Pushed(start)
      && (forall v :: v in open ==> OpenOk(v))
      && (forall i: nat :: i < |closed| ==> ClosedOk(i))
      && forall v :: v in nodes && nodes[v].rounds == rounds && !Pushed(v) ==> p.Blocked(v)
    }

    /** Where an expanded cell may lead: into the open or closed set, or to a cell some heading finds occupied. */
    ghost predicate Covered(v: Vec) { Pushed(v) || p.Blocked(v) }

    /** v has been looked at from u: the round has touched it, and if it is open its score is no more than by
        way of u. */
    ghost predicate Looked(u: Vec, v: Vec) {
      && u in nodes && v in nodes && nodes[v].rounds == rounds
      && (v in open ==> nodes[v].gScore <= nodes[u].gScore + p.StepCost(u, v))
    }

    ghost predicate Expanded(u: Vec) { forall v :: p.Edge(u, v) ==> Covered(v) }

    function Pop(j: nat): Search
      requires j < |open| && open[j] in nodes
    {
      var u := open[j];
      this.(open := open[..j] + open[j + 1..], closed := closed + [u],
            nodes := nodes[u := nodes[u].(state := ClosedSet)])
    }

    /** One neighbour v of the cell u under expansion, entered with heading (dx, dy). */
    function Relax(u: Vec, v: Vec, dx: int, dy: int): Search
      requires u in nodes && v in nodes
    {
      var n := nodes[v];
      var explored := n.rounds == rounds;
      if explored && n.state == ClosedSet then this
      else
        var stamped := n.(rounds := rounds);
        if p.occupied(v, dx, dy) then this.(nodes := nodes[v := stamped])
        else
          var g := nodes[u].gScore + p.StepCost(u, v);
          if !explored then
            this.(nodes := nodes[v := stamped.(state := OpenSet, cameFrom := Some(u), gScore := g)], open := open + [v])
          else if g < n.gScore then
            this.(nodes := nodes[v := stamped.(cameFrom := Some(u), gScore := g)])
          else
            this.(nodes := nodes[v := stamped])
    }

    lemma PopKeepsValid(j: nat)
      requires Valid() && j < |open|
      ensures open[j] in nodes && Pop(j).Valid()
      ensures forall v :: Pop(j).Pushed(v) <==> Pushed(v)
    {
      assert OpenOk(open[j]);
      var u, s := open[j], Pop(j);
      assert open == open[..j] + [u] + open[j + 1..];
      forall v | v in s.open
        ensures v in open && v != u && s.OpenOk(v)
      {
        assert OpenOk(v);
      }
      forall i: nat | i < |s.closed|
        ensures s.ClosedOk(i)
      {
        if i < |closed| {
          assert ClosedOk(i);
          assert s.closed[..i] == closed[..i];
        } else {
          assert s.closed[..i] == closed;
          assert closed == [] ==> u == start;
        }
      }
    }

    /** Closing a cell changes no score. */
    lemma PopKeepsLooked(j: nat, u: Vec, v: Vec)
      requires Valid() && j < |open| && Looked(u, v)
      ensures open[j] in nodes && Pop(j).Looked(u, v)
    {
      PopKeepsValid(j);
      assert open == open[..j] + [open[j]] + open[j + 1..];
    }

    /** Rewriting a node the round has not pushed touches no invariant, if some heading blocks it. */
    lemma TouchOutside(v: Vec, n: Node)
      requires Valid() && !Pushed(v) && v in nodes && p.Blocked(v)
      ensures this.(nodes := nodes[v := n]).Valid()
    {
      var s := this.(nodes := nodes[v := n]);
      forall i: nat | i < |closed|
        ensures s.ClosedOk(i)
      {
        assert ClosedOk(i) && closed[i] in closed;
      }
      forall w | w in open
        ensures s.OpenOk(w)
      {
        assert OpenOk(w);
      }
    }

    lemma PushNew(u: Vec, v: Vec, n: Node)
      requires Valid() && !Pushed(v) && v in nodes && u in closed && u in nodes
      requires n == Node(rounds, OpenSet, nodes[u].gScore + p.StepCost(u, v), Some(u)) && p.Edge(u, v)
      ensures this.(nodes := nodes[v := n], open := open + [v]).Valid()
    {
      var s := this.(nodes := nodes[v := n], open := open + [v]);
      forall i: nat | i < |closed|
        ensures s.ClosedOk(i)
      {
        assert ClosedOk(i) && closed[i] in closed;
      }
      forall w | w in s.open
        ensures s.OpenOk(w)
      {
        if w != v {
          assert OpenOk(w);
        }
      }
    }

    lemma TouchOpen(u: Vec, v: Vec, n: Node)
      requires Valid() && v in open && u in closed && u in nodes
      requires n == nodes[v] || (n == Node(rounds, OpenSet, nodes[u].gScore + p.StepCost(u, v), Some(u))
                                 && p.Edge(u, v))
      ensures v in nodes && this.(nodes := nodes[v := n]).Valid()
    {
      assert OpenOk(v);
      var s := this.(nodes := nodes[v := n]);
      forall i: nat | i < |closed|
        ensures s.ClosedOk(i)
      {
        assert ClosedOk(i) && closed[i] in closed;
      }
      StartClosedFirst(u);
      forall w | w in open
        ensures s.OpenOk(w)
      {
        assert OpenOk(w);
      }
    }

    /** Once a cell is closed the start is closed, and stays out of the open set. */
    lemma StartClosedFirst(u: Vec)
      requires Valid() && u in closed
      ensures start in closed && start !in open
    {
    }

    lemma ClosedNode(u: Vec)
      requires Valid() && u in closed
      ensures u in nodes && nodes[u].rounds == rounds && nodes[u].state == ClosedSet
    {
      var k: nat :| k < |closed| && closed[k] == u;
      assert ClosedOk(k);
    }

    /** Looking at a neighbour keeps the invariant, pushes it at most if it was not yet pushed, and
        leaves it covered. */
    lemma RelaxKeepsValid(u: Vec, v: Vec, dx: int, dy: int)
      requires Valid() && u in closed && v in nodes
      requires p.Heading(dx, dy) && v == p.Neighbor(u, dx, dy) && p.InBounds(v)
      ensures u in nodes && Relax(u, v, dx, dy).Valid()
      ensures Relax(u, v, dx, dy).Covered(v)
      ensures Relax(u, v, dx, dy).open == open || (!Pushed(v) && Relax(u, v, dx, dy).open == open + [v])
    {
      hide Problem.StepCost;
      ClosedNode(u);
      var n := nodes[v];
      var linked := n.(rounds := rounds, state := OpenSet, cameFrom := Some(u),
                       gScore := nodes[u].gScore + p.StepCost(u, v));
      var stamped := n.(rounds := rounds);
      if v in closed {
        ClosedNode(v);
      } else if v in open {
        assert OpenOk(v);
        assert stamped == n && nodes[v := n] == nodes;
        if !p.occupied(v, dx, dy) {
          TouchOpen(u, v, linked);
        }
      } else if p.occupied(v, dx, dy) {
        assert p.Blocked(v);
        TouchOutside(v, stamped);
      } else if n.rounds != rounds {
        PushNew(u, v, linked);
      } else {
        assert p.Blocked(v);
        TouchOutside(v, stamped);
        TouchOutside(v, stamped.(cameFrom := Some(u), gScore := linked.gScore));
      }
    }

    /** Looking at a free neighbour leaves it, if it is open, with the lower of its score and the one by way of u. */
    lemma RelaxLooks(u: Vec, v: Vec, dx: int, dy: int)
      requires Valid() && u in closed && v in nodes && !p.occupied(v, dx, dy)
      ensures u in nodes && Relax(u, v, dx, dy).Looked(u, v)
      ensures v in open ==> Relax(u, v, dx, dy).nodes[v].gScore <= nodes[v].gScore
    {
      ClosedNode(u);
    }

    /** What closed cells have looked at keeps scores no more than by way of them. */
    lemma RelaxKeepsLooked(u: Vec, v: Vec, dx: int, dy: int, w: Vec, x: Vec)
      requires Valid() && u in closed && v in nodes && w in closed && Looked(w, x)
      ensures u in nodes && Relax(u, v, dx, dy).Looked(w, x)
    {
      ClosedNode(u);
      ClosedNode(w);
    }

    /** What was covered stays covered. */
    lemma RelaxKeepsCovered(u: Vec, v: Vec, dx: int, dy: int)
      requires u in nodes && v in nodes
      ensures forall w :: Covered(w) ==> Relax(u, v, dx, dy).Covered(w)
    {
    }

    lemma RelaxKeepsPool(u: Vec, v: Vec, dx: int, dy: int)
      requires u in nodes && v in nodes
      ensures Relax(u, v, dx, dy).nodes.Keys == nodes.Keys
      ensures forall w :: w in nodes && nodes[w].rounds <= rounds ==> Relax(u, v, dx, dy).nodes[w].rounds <= rounds
    {
    }

    /** The chain of parents from path[0] back to its last cell. */
    ghost predicate Chain(path: seq<Vec>) {
      && path != [] && (forall i :: 0 <= i < |path| ==> path[i] in nodes)
      && forall i :: 0 <= i < |path| - 1 ==> Linked(path[i + 1], path[i])
    }

    lemma ChainGrows(path: seq<Vec>, parent: Vec)
      requires Chain(path) && Distinct(path) && parent in nodes && parent !in path && Linked(parent, path[|path| - 1])
      ensures Chain(path + [parent]) && Distinct(path + [parent])
    {
    }

    /** The score of the first cell of a chain exceeds that of the last by exactly the chain's cost. */
    lemma {:induction false} ScoreIsCost(path: seq<Vec>)
      requires Chain(path)
      ensures nodes[path[0]].gScore == p.Cost(path) + nodes[path[|path| - 1]].gScore
    {
      if |path| > 1 {
        assert Linked(path[1], path[0]);
        forall i | 0 <= i < |path[1..]| - 1
          ensures Linked(path[1..][i + 1], path[1..][i])
        {
          assert Linked(path[i + 1 + 1], path[i + 1]);
        }
        ScoreIsCost(path[1..]);
      }
    }

    lemma ClosedApart()
      requires Valid()
      ensures Distinct(closed) && forall v :: v in closed ==> v !in open
    {
    }

    /** A pushed cell is the start, without parent, or has a parent that was closed before it. */
    lemma ParentClosed(v: Vec, k: nat)
      requires Valid() && (v in open || (k < |closed| && closed[k] == v))
      ensures v in nodes && (nodes[v].cameFrom == None <==> v == start)
      ensures v == start ==> nodes[v].gScore == 0.0
      ensures v != start ==>
        && Linked(nodes[v].cameFrom.value, v)
        && nodes[v].cameFrom.value in (if v in open then closed else closed[..k])
    {
      if v in open {
        assert OpenOk(v);
      } else {
        assert ClosedOk(k) && ClosedOk(0);
      }
    }
  }

  /** A free walk from a closed cell stays among the closed cells once nothing is open and all are expanded. */
  lemma {:induction false} WalkStaysClosed(s: Search, path: seq<Vec>)
    requires s.Valid() && s.open == [] && (forall u :: u in s.closed ==> s.Expanded(u))
    requires s.p.FreeWalk(path) && path[0] == s.start
    ensures path[|path| - 1] in s.closed
  {
    var n := |path| - 1;
    if n == 0 {
      assert s.Pushed(s.start);
    } else {
      forall i {:trigger path[..n][i]} | 0 < i < n
        ensures s.p.Edge(path[..n][i - 1], path[..n][i]) && !s.p.Blocked(path[..n][i])
      {
        assert s.p.Edge(path[i - 1], path[i]);
      }
      WalkStaysClosed(s, path[..n]);
      assert s.Expanded(path[n - 1]) && s.p.Edge(path[n - 1], path[n]);
    }
  }

  /** An exhausted search has closed all it could reach. */
  lemma ExhaustedMeansUnreachable(s: Search, end: Vec)
    requires s.Valid() && s.open == [] && (forall u :: u in s.closed ==> s.Expanded(u)) && end !in s.closed
    ensures s.p.Unreachable(s.start, end)
  {
    forall path | s.p.FreeWalk(path) && path[0] == s.start
      ensures path[|path| - 1] != end
    {
      WalkStaysClosed(s, path);
    }
    forall path | s.p.HeadingFree() && s.p.Walk(path) && path[0] == s.start
      ensures path[|path| - 1] != end
    {
      s.p.WalksAreFree(path);
    }
  }

  /** The search starts with the start alone, whatever earlier rounds left in the pool. */
  lemma FreshSearchValid(p: Problem, start: Vec, nodes: map<Vec, Node>, rounds: int)
    requires start in nodes && nodes[start] == Node(rounds, OpenSet, 0.0, None)
    requires forall v: Vec :: v.Under(p.pool) ==> v in nodes
    requires forall v :: v in nodes && v != start ==> nodes[v].rounds < rounds
    ensures Search(p, start, nodes, rounds, [start], []).Valid()
  {
  }

  /** Follows the parents from the goal, which has just been taken from the open set. */
  method RetrievePath(nodes: map<Vec, Node>, goal: Vec, ghost s: Search) returns (path: seq<Vec>)
    requires s.Valid() && s.nodes == nodes && goal in s.open
    ensures s.Chain(path) && Distinct(path)
    ensures path[0] == goal && path[|path| - 1] == s.start
    ensures nodes[goal].gScore == s.p.Cost(path)
  {
    hide Search.Valid, Search.Linked;
    path := [goal];
    var current := goal;
    s.ClosedApart();
    ghost var k := |s.closed|;  // the number of cells closed before the current one, and still ahead
    s.ParentClosed(goal, 0);
    while nodes[current].cameFrom != None
      invariant s.Chain(path) && Distinct(path)
      invariant path[0] == goal && path[|path| - 1] == current
      invariant 0 <= k <= |s.closed| && (current in s.open || (k < |s.closed| && s.closed[k] == current))
      invariant current in s.open ==> k == |s.closed|
      invariant forall v :: v in path ==> v !in s.closed[..k]
      decreases k
    {
      s.ParentClosed(current, k);
      var parent := nodes[current].cameFrom.value;
      ghost var j :| 0 <= j < k && s.closed[..k][j] == parent;
      assert s.closed[..k] == s.closed[..j] + [parent] + s.closed[j + 1..k];
      assert parent !in s.open && parent !in path;
      s.ParentClosed(parent, j);
      s.ChainGrows(path, parent);
      current := parent;
      path := path + [current];
      k := j;
    }
    s.ParentClosed(current, k);
    s.ScoreIsCost(path);
  }

  datatype AStarRet = Success | InitErr | SearchErr

  class AStar {
    var nodes: map<Vec, Node>
    var rounds: int
    var openSet: seq<Vec>
    var gridPath: seq<Vec>
    /** This round's closed cells in closing order, and every push on the open set. */
    ghost var closed: seq<Vec>
    ghost var pushes: seq<Vec>

    /** The pool is complete and no node is stamped by a later round; nothing else is known of old nodes. */
    ghost predicate PoolOk(pool: Vec)
      reads this`nodes, this`rounds
    {
      && (forall v: Vec :: v.Under(pool) ==> v in nodes)
      && forall v :: v in nodes ==> nodes[v].rounds <= rounds
    }

    ghost function State(p: Problem, start: Vec): Search
      reads this`nodes, this`rounds, this`openSet, this`closed
    {
      Search(p, start, nodes, rounds, openSet, closed)
    }

    /** Each pushed cell was pushed once. */
    ghost predicate PushesOk()
      reads this`openSet, this`closed, this`pushes
    {
      Distinct(pushes) && forall v :: v in pushes <==> v in openSet || v in closed
    }

    /** One neighbour in bounds, on the nodes themselves. */
    method RelaxNode(p: Problem, ghost start: Vec, current: Vec, neighborIdx: Vec, dx: int, dy: int)
      requires current in nodes && neighborIdx in nodes && dx == neighborIdx.x - current.x
               && dy == neighborIdx.y - current.y
      modifies this`nodes, this`openSet, this`pushes
      ensures State(p, start) == old(State(p, start)).Relax(current, neighborIdx, dx, dy)
      ensures pushes == if openSet == old(openSet) then old(pushes) else old(pushes) + [neighborIdx]
      ensures var through := old(nodes[current].gScore) + p.length(dx, dy, neighborIdx.z - current.z);
        !p.occupied(neighborIdx, dx, dy) ==>
          if old(nodes[neighborIdx].rounds) != rounds then
            openSet == old(openSet) + [neighborIdx] && nodes[neighborIdx].gScore == through
          else if old(nodes[neighborIdx].state) == ClosedSet then nodes[neighborIdx] == old(nodes[neighborIdx])
          else nodes[neighborIdx].gScore == if old(nodes[neighborIdx].gScore) < through
                                            then old(nodes[neighborIdx].gScore) else through
    {
      var node := nodes[neighborIdx];
      var flagExplored := node.rounds == rounds;
      if flagExplored && node.state == ClosedSet {
        return;
      }
      node := node.(rounds := rounds);
      var tentativeGScore := nodes[current].gScore + p.length(dx, dy, neighborIdx.z - current.z);
      nodes := nodes[neighborIdx := node];
      if p.occupied(neighborIdx, dx, dy) {
        return;
      }
      if !flagExplored {
        nodes := nodes[neighborIdx := node.(state := OpenSet, cameFrom := Some(current), gScore := tentativeGScore)];
        openSet := openSet + [neighborIdx];
        pushes := pushes + [neighborIdx];
      } else if tentativeGScore < node.gScore {
        nodes := nodes[neighborIdx := node.(cameFrom := Some(current), gScore := tentativeGScore)];
      }
    }

    /** gridPath runs from the goal back to the start over distinct cells, each entered by an edge from
        the next one, and the goal's score is exactly its length. */
    ghost predicate PathFound(p: Problem, start: Vec, end: Vec)
      reads this`nodes, this`gridPath
    {
      && gridPath != [] && gridPath[0] == end && gridPath[|gridPath| - 1] == start
      && Distinct(gridPath)
      && (forall i :: 0 <= i < |gridPath| - 1 ==> p.Edge(gridPath[i + 1], gridPath[i]))
      && end in nodes && nodes[end].gScore == p.Cost(gridPath)
    }

    method RelaxNeighbor(p: Problem, ghost start: Vec, current: Vec, dx: int, dy: int)
      requires PoolOk(p.pool) && State(p, start).Valid() && PushesOk() && current in closed && current in nodes
      requires p.Heading(dx, dy)
      modifies this`nodes, this`openSet, this`pushes
      ensures PoolOk(p.pool) && State(p, start).Valid() && PushesOk() && nodes.Keys == old(nodes.Keys)
      ensures forall w :: old(State(p, start)).Covered(w) ==> State(p, start).Covered(w)
      ensures forall w, x :: w in closed && old(State(p, start)).Looked(w, x) ==> State(p, start).Looked(w, x)
      ensures p.InBounds(p.Neighbor(current, dx, dy)) ==> State(p, start).Covered(p.Neighbor(current, dx, dy))
      ensures var v := p.Neighbor(current, dx, dy);
        p.InBounds(v) && !p.occupied(v, dx, dy) ==> State(p, start).Looked(current, v)
    {
      ghost var s := State(p, start);
      var x, y := current.x + dx, current.y + dy;
      var neighborIdx := Vec(x, y, p.plane(x, y));
      if x < 1 || x >= p.pool.x - 1 || y < 1 || y >= p.pool.y - 1
         || neighborIdx.z < 1 || neighborIdx.z >= p.pool.z - 1 {
        return;
      }
      assert neighborIdx.Under(p.pool);
      s.RelaxKeepsValid(current, neighborIdx, dx, dy);
      s.RelaxKeepsCovered(current, neighborIdx, dx, dy);
      s.RelaxKeepsPool(current, neighborIdx, dx, dy);
      if !p.occupied(neighborIdx, dx, dy) {
        s.RelaxLooks(current, neighborIdx, dx, dy);
      }
      forall w, x | w in closed && s.Looked(w, x)
        ensures s.Relax(current, neighborIdx, dx, dy).Looked(w, x)
      {
        s.RelaxKeepsLooked(current, neighborIdx, dx, dy, w, x);
      }
      RelaxNode(p, start, current, neighborIdx, dx, dy);
    }

    /** Looks at the eight neighbours of the cell just closed. */
    method Expand(p: Problem, ghost start: Vec, current: Vec)
      requires PoolOk(p.pool) && State(p, start).Valid() && PushesOk() && current in closed && current in nodes
      modifies this`nodes, this`openSet, this`pushes
      ensures PoolOk(p.pool) && State(p, start).Valid() && PushesOk() && nodes.Keys == old(nodes.Keys)
      ensures forall w :: old(State(p, start)).Covered(w) ==> State(p, start).Covered(w)
      ensures forall w, x :: w in closed && old(State(p, start)).Looked(w, x) ==> State(p, start).Looked(w, x)
      ensures State(p, start).Expanded(current)
      ensures forall v :: p.Edge(current, v) ==> State(p, start).Looked(current, v)
    {
      hide Search.Valid, Search.Covered, Search.Looked, Problem.Blocked;
      for dx := -1 to 2
        invariant PoolOk(p.pool) && State(p, start).Valid() && PushesOk() && nodes.Keys == old(nodes.Keys)
        invariant forall w :: old(State(p, start)).Covered(w) ==> State(p, start).Covered(w)
        invariant forall w, x :: w in closed && old(State(p, start)).Looked(w, x) ==> State(p, start).Looked(w, x)
        invariant forall v :: p.Edge(current, v) && v.x - current.x < dx ==>
                    State(p, start).Covered(v) && State(p, start).Looked(current, v)
      {
        ExpandRow(p, start, current, dx);
      }
    }

    /** The neighbours at one x. */
    method ExpandRow(p: Problem, ghost start: Vec, current: Vec, dx: int)
      requires PoolOk(p.pool) && State(p, start).Valid() && PushesOk() && current in closed && current in nodes
      requires -1 <= dx <= 1
      modifies this`nodes, this`openSet, this`pushes
      ensures PoolOk(p.pool) && State(p, start).Valid() && PushesOk() && nodes.Keys == old(nodes.Keys)
      ensures forall w :: old(State(p, start)).Covered(w) ==> State(p, start).Covered(w)
      ensures forall w, x :: w in closed && old(State(p, start)).Looked(w, x) ==> State(p, start).Looked(w, x)
      ensures forall v :: p.Edge(current, v) && v.x - current.x == dx ==>
        State(p, start).Covered(v) && State(p, start).Looked(current, v)
    {
      hide Search.Valid, Search.Covered, Search.Looked, Problem.Blocked;
      for dy := -1 to 2
        invariant PoolOk(p.pool) && State(p, start).Valid() && PushesOk() && nodes.Keys == old(nodes.Keys)
        invariant forall w :: old(State(p, start)).Covered(w) ==> State(p, start).Covered(w)
        invariant forall w, x :: w in closed && old(State(p, start)).Looked(w, x) ==> State(p, start).Looked(w, x)
        invariant forall v :: p.Edge(current, v) && v.x - current.x == dx && v.y - current.y < dy ==>
                    State(p, start).Covered(v) && State(p, start).Looked(current, v)
      {
        if dx != 0 || dy != 0 {
          RelaxNeighbor(p, start, current, dx, dy);
        }
      }
    }

    /** Takes one member of the open set and closes it; which one the heap yields is left open. */
    method CloseOne(p: Problem, ghost start: Vec, current: Vec, j: nat)
      requires PoolOk(p.pool) && State(p, start).Valid() && PushesOk() && j < |openSet| && openSet[j] == current
      modifies this`nodes, this`openSet, this`closed
      ensures PoolOk(p.pool) && State(p, start).Valid() && PushesOk() && nodes.Keys == old(nodes.Keys)
      ensures forall w :: old(State(p, start)).Covered(w) ==> State(p, start).Covered(w)
      ensures forall w, x :: old(State(p, start)).Looked(w, x) ==> State(p, start).Looked(w, x)
      ensures current in nodes && current !in old(closed) && closed == old(closed) + [current]
    {
      State(p, start).PopKeepsValid(j);
      forall w, x | State(p, start).Looked(w, x)
        ensures State(p, start).Pop(j).Looked(w, x)
      {
        State(p, start).PopKeepsLooked(j, w, x);
      }
      assert current in openSet;
      openSet := openSet[..j] + openSet[j + 1..];
      nodes := nodes[current := nodes[current].(state := ClosedSet)];
      closed := closed + [current];
      assert State(p, start) == old(State(p, start)).Pop(j);
    }

    /** What every turn of the search keeps. */
    ghost predicate SearchOk(p: Problem, start: Vec, end: Vec)
      reads this
    {
      && PoolOk(p.pool) && State(p, start).Valid() && PushesOk()
      && end !in closed
      && (forall u :: u in closed ==> u in nodes && State(p, start).Expanded(u))
      && forall u, v :: u in closed && p.Edge(u, v) ==> State(p, start).Looked(u, v)
    }

    ghost function ClosedCells(): set<Vec>
      reads this`closed
    {
      set u | u in closed
    }

    method Begin(p: Problem, start: Vec, ghost end: Vec)
      requires PoolOk(p.pool) && start.Under(p.pool)
      modifies this
      ensures SearchOk(p, start, end) && rounds == old(rounds) + 1 && closed == []
    {
      rounds := rounds + 1;
      nodes := nodes[start := Node(rounds, OpenSet, 0.0, None)];
      openSet := [start];
      closed := [];
      pushes := [start];
      FreshSearchValid(p, start, nodes, rounds);
    }

    /** One turn: closes a member of the open set that is not the goal and looks at its neighbours. */
    method Turn(p: Problem, ghost start: Vec, ghost end: Vec, j: nat)
      requires SearchOk(p, start, end) && j < |openSet| && openSet[j] != end
      modifies this`nodes, this`openSet, this`closed, this`pushes
      ensures SearchOk(p, start, end) && closed == old(closed) + [old(openSet[j])]
      ensures nodes.Keys - ClosedCells() < old(nodes.Keys - ClosedCells())
    {
      hide Search.Valid, Search.Covered, Search.Looked, Problem.Edge;
      var current := openSet[j];
      ghost var before := closed;
      CloseOne(p, start, current, j);
      assert forall u :: u in closed <==> u in before || u == current;
      assert ClosedCells() == (set u | u in before) + {current};
      Expand(p, start, current);
    }

    /** endpoints is what ConvertToIndexAndAdjustStartEndPoints yields; expired(i) says whether the
        time limit has passed when the i-th expansion ends. */
    method AstarSearch(p: Problem, endpoints: Option<(Vec, Vec)>, expired: nat -> bool) returns (ret: AStarRet)
      requires PoolOk(p.pool)
      requires endpoints.Some? ==> endpoints.value.0.Under(p.pool) && endpoints.value.1.Under(p.pool)
      modifies this
      ensures PoolOk(p.pool) && rounds == old(rounds) + 1
      ensures ret == InitErr <==> endpoints == None
      ensures endpoints.Some? ==> Distinct(pushes)
      ensures ret == Success ==> PathFound(p, endpoints.value.0, endpoints.value.1)
      ensures ret == Success ==> forall u :: u in closed && p.Edge(u, endpoints.value.1) ==>
        u in nodes && p.Cost(gridPath) <= nodes[u].gScore + p.StepCost(u, endpoints.value.1)
      ensures ret == SearchErr ==>
        p.Unreachable(endpoints.value.0, endpoints.value.1) || (closed != [] && expired(|closed|))
      ensures endpoints.Some? ==> forall i :: 0 < i < |closed| ==> !expired(i)
    {
      hide Search.Valid, Search.Expanded, Problem.Edge, Problem.Unreachable, Problem.Cost;
      if endpoints == None {
        rounds := rounds + 1;
        return InitErr;
      }
      var start, end := endpoints.value.0, endpoints.value.1;
      Begin(p, start, end);
      var numIter := 0;
      while openSet != []
        invariant SearchOk(p, start, end) && rounds == old(rounds) + 1
        invariant numIter == |closed| && forall i :: 0 < i <= |closed| ==> !expired(i)
        decreases nodes.Keys - ClosedCells()
      {
        numIter := numIter + 1;
        var j :| 0 <= j < |openSet|;
        if openSet[j] == end {
          gridPath := RetrievePath(nodes, openSet[j], State(p, start));
          openSet := openSet[..j] + openSet[j + 1..];
          return Success;
        }
        Turn(p, start, end, j);
        if expired(numIter) {
          return SearchErr;
        }
      }
      ExhaustedMeansUnreachable(State(p, start), end);
      ret := SearchErr;
    }

    /** The found path in travel order. */
    method GetPath(p: Problem, ghost start: Vec, ghost end: Vec) returns (path: seq<Vec>)
      requires PathFound(p, start, end)
      ensures path != [] && path[0] == start && path[|path| - 1] == end
      ensures p.Walk(path)
    {
      var found := gridPath;
      path := seq(|found|, i requires 0 <= i < |found| => found[|found| - 1 - i]);
      ReversedWalk(p, found, path);
    }
  }

  lemma ReversedWalk(p: Problem, found: seq<Vec>, path: seq<Vec>)
    requires found != [] && |path| == |found|
    requires forall i :: 0 <= i < |found| - 1 ==> p.Edge(found[i + 1], found[i])
    requires forall i :: 0 <= i < |path| ==> path[i] == found[|found| - 1 - i]
    ensures p.Walk(path)
  {
  }
}
