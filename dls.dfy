/**
 * DLSSolver and IDDFSSolver: depth-first search that expands a node only
 * while its depth is below a limit.  Iterative deepening runs the
 * depth-limited search (`_dls_limited`) for the limits 1 .. max_depth in
 * turn, on the same grid and without resetting it between rounds.
 */
module DepthLimited {
  import opened Wrappers
  import opened Grids
  import opened Paths
  import opened Search
  import opened DepthFirst

  /** The nodes a depth-limited run has touched: visited or on the stack. */
  ghost function Touched(visited: set<Pos>, frontier: seq<Pos>): set<Pos> {
    visited + set p | p in frontier
  }

  /** The invariant of one depth-limited run: the stack invariant, depths
      consistent with parents over the touched nodes, and no touched node
      with a parent deeper than the limit. */
  ghost predicate LimitInv(s: map<Pos, NodeState>, info: map<Pos, NodeInfo>, start: Pos, visited: set<Pos>,
                           frontier: seq<Pos>, rank: map<Pos, nat>, limit: int)
  {
    TreeInv(s, info, start, visited, frontier, rank) &&
    forall u: Unfolding {:trigger DepthHolds(info, visited, frontier, limit, u)} ::
      DepthHolds(info, visited, frontier, limit, u)
  }

  ghost predicate DepthHolds(info: map<Pos, NodeInfo>, visited: set<Pos>, frontier: seq<Pos>, limit: int, u: Unfolding)
  {
    DepthInv(info, Touched(visited, frontier)) &&
    (forall p :: p in Touched(visited, frontier) && info[p].parent.Some? ==> info[p].depth <= limit)
  }

  /** The prologue of a depth-limited run: the start loses its parent and
      gets depth 0. */
  function RootReset(info: map<Pos, NodeInfo>, start: Pos): (r: map<Pos, NodeInfo>)
    requires start in info
    ensures r.Keys == info.Keys && r[start].parent.None? && r[start].depth == 0
    ensures forall p :: p in info && p != start ==> r[p] == info[p]
  {
    info[start := info[start].(parent := None, depth := 0)]
  }

  lemma LimitInitial(s: map<Pos, NodeState>, info: map<Pos, NodeInfo>, start: Pos, limit: int)
    requires start in info && info[start].parent.None? && info[start].depth == 0
    ensures LimitInv(s, info, start, {}, [start], map[], limit)
  {
    assert Touched({}, [start]) == {start};
    InitialTree(s, info, start);
    assert DepthHolds(info, {}, [start], limit, Unfold);
  }

  /** Popping the top of the stack keeps the invariant; the touched nodes
      stay the same. */
  lemma LimitVisit(s: map<Pos, NodeState>, info: map<Pos, NodeInfo>, start: Pos, visited: set<Pos>,
                   frontier: seq<Pos>, rank: map<Pos, nat>, limit: int)
    requires LimitInv(s, info, start, visited, frontier, rank, limit) && frontier != []
    ensures var k := |frontier| - 1;
      frontier[k] !in visited &&
      LimitInv(s, info, start, visited + {frontier[k]}, frontier[..k], rank[frontier[k] := |visited|], limit)
  {
    var k := |frontier| - 1;
    VisitLast(s, info, start, visited, frontier, rank);
    TouchedPop(visited, frontier);
    assert DepthHolds(info, visited, frontier, limit, Unfold);
    assert DepthHolds(info, visited + {frontier[k]}, frontier[..k], limit, Unfold);
  }

  /** Moving the top of the stack to the visited set leaves the touched
      nodes as they were. */
  lemma TouchedPop(visited: set<Pos>, frontier: seq<Pos>)
    requires frontier != []
    ensures var k := |frontier| - 1;
      Touched(visited + {frontier[k]}, frontier[..k]) == Touched(visited, frontier)
  {
    var k := |frontier| - 1;
    forall p ensures p in Touched(visited + {frontier[k]}, frontier[..k]) <==> p in Touched(visited, frontier) {
      if p in frontier && p != frontier[k] {
        var i :| 0 <= i < |frontier| && frontier[i] == p;
        assert frontier[..k][i] == p;
      }
    }
  }

  /** Pushing the unseen neighbours of a visited node below the limit, one
      deeper than it and linked to it, keeps the invariant. */
  lemma LimitExpand(s: map<Pos, NodeState>, info: map<Pos, NodeInfo>, info': map<Pos, NodeInfo>, start: Pos,
                    visited: set<Pos>, frontier: seq<Pos>, rank: map<Pos, nat>, limit: int, cur: Pos, ns: seq<Pos>)
    requires LimitInv(s, info, start, visited, frontier, rank, limit) && cur in visited && info[cur].depth < limit
    requires forall n :: n in ns ==> n in info && n in Neighbors(s, cur)
    requires info'.Keys == info.Keys
    requires forall p :: p in info && p !in Unseen(ns, visited, frontier) ==> info'[p] == info[p]
    requires forall p :: p in Unseen(ns, visited, frontier) ==>
      info'[p] == info[p].(parent := Some(cur), depth := info[cur].depth + 1)
    ensures LimitInv(s, info', start, visited, frontier + Unseen(ns, visited, frontier), rank, limit)
  {
    var u := Unseen(ns, visited, frontier);
    var f2 := frontier + u;
    assert DepthHolds(info, visited, frontier, limit, Unfold);
    ExpandStep(s, info, info', start, visited, frontier, rank, cur, ns);
    DepthExpand(info, info', Touched(visited, frontier), cur, u);
    TouchedPush(visited, frontier, u);
    assert DepthHolds(info', visited, f2, limit, Unfold);
  }

  /** Pushing entries adds them to the touched nodes. */
  lemma TouchedPush(visited: set<Pos>, frontier: seq<Pos>, u: seq<Pos>)
    ensures Touched(visited, frontier + u) == Touched(visited, frontier) + (set p | p in u)
  {
    forall p ensures p in Touched(visited, frontier + u) <==> p in Touched(visited, frontier) + (set p | p in u) {
      assert p in frontier + u <==> p in frontier || p in u;
    }
  }

  /** The path of a visited node has its depth plus one cells, and so at most
      limit + 1 (a single cell when the limit is below 1). */
  lemma LimitPath(s: map<Pos, NodeState>, info: map<Pos, NodeInfo>, start: Pos, visited: set<Pos>,
                  frontier: seq<Pos>, rank: map<Pos, nat>, limit: int, n: Pos)
    requires LimitInv(s, info, start, visited, frontier, rank, limit) && n in visited
    ensures var c := ParentChain(info, n, rank);
      |c| == info[n].depth + 1 && |c| <= (if limit > 0 then limit else 0) + 1
  {
    assert DepthHolds(info, visited, frontier, limit, Unfold);
    ChainDepth(info, n, rank, Touched(visited, frontier));
    assert n in Touched(visited, frontier);
  }

  /** One pop of a depth-limited run, from stack f0, visited set v0 and
      bookkeeping info0 to frontier, visited and info: the top of the stack
      is visited; found tells whether it is the target, which ends the run
      with the bookkeeping unchanged; any other node below the limit pushes
      its neighbours not yet visited or waiting, last neighbour first, each
      linked to it and one deeper; a node at or beyond the limit pushes
      nothing. */
  ghost predicate LimitedPop(s: map<Pos, NodeState>, target: Pos, limit: int, f0: seq<Pos>, v0: set<Pos>,
                             info0: map<Pos, NodeInfo>, frontier: seq<Pos>, visited: set<Pos>,
                             info: map<Pos, NodeInfo>, found: bool)
  {
    f0 != [] && f0[|f0| - 1] in info0 &&
    var top, rest := f0[|f0| - 1], f0[..|f0| - 1];
    visited == v0 + {top} && found == (top == target) &&
    (found || info0[top].depth >= limit ==> frontier == rest && info == info0) &&
    (!found && info0[top].depth < limit ==>
      var added := Unseen(Reverse(Neighbors(s, top)), visited, rest);
      frontier == rest + added && info.Keys == info0.Keys &&
      forall p :: p in info ==>
        info[p] == if p in added then info0[p].(parent := Some(top), depth := info0[top].depth + 1) else info0[p])
  }

  /** The depth check and the neighbour loop of a depth-limited run: a node
      below the limit pushes its unseen neighbours, last neighbour first,
      each one deeper than it; a node at or beyond the limit pushes nothing. */
  method ExpandLimited(g: Grid, cur: Pos, visited: set<Pos>, frontier: seq<Pos>, limit: int,
                       ghost start: Pos, ghost rank: map<Pos, nat>) returns (next: seq<Pos>)
    requires g.info.Keys == g.state.Keys && cur in visited
    requires LimitInv(g.state, g.info, start, visited, frontier, rank, limit)
    modifies g`info
    ensures LimitInv(g.state, g.info, start, visited, next, rank, limit)
    ensures old(g.info)[cur].depth >= limit ==> next == frontier && g.info == old(g.info)
    ensures old(g.info)[cur].depth < limit ==>
      var added := Unseen(Reverse(Neighbors(g.state, cur)), visited, frontier);
      next == frontier + added && g.info.Keys == old(g.info).Keys &&
      (forall p :: p in g.info ==>
        g.info[p] == if p in added then old(g.info)[p].(parent := Some(cur), depth := old(g.info)[cur].depth + 1)
                     else old(g.info)[p])
  {
    next := frontier;
    if g.info[cur].depth < limit {
      ghost var info0 := g.info;
      var ns := Neighbors(g.state, cur);
      ReverseMembers(ns);
      var order := Reverse(ns);
      next := PushUnseen(g, cur, order, visited, frontier, true);
      LimitExpand(g.state, info0, g.info, start, visited, frontier, rank, limit, cur, order);
    }
  }

  class DlsSolver {
    const grid: Grid
    const start: Pos
    const target: Pos
    const depthLimit: int
    var frontier: seq<Pos>
    var visited: set<Pos>
    var steps: nat
    var pathLength: nat
    /** The generator has returned. */
    var done: bool
    /** Visit order, the termination measure of parent chains. */
    ghost var rank: map<Pos, nat>

    ghost predicate Valid()
      reads this, grid
    {
      grid.info.Keys == grid.state.Keys && steps == |visited| &&
      forall u: Unfolding {:trigger RunHolds(u)} :: RunHolds(u)
    }

    /** The invariant of the run, opened only where a proof names
        RunHolds(Unfold). */
    ghost predicate RunHolds(u: Unfolding)
      reads this`frontier, this`visited, this`rank, grid`state, grid`info
    {
      LimitInv(grid.state, grid.info, start, visited, frontier, rank, depthLimit)
    }

    /** solve's prologue: the stack holds the start, nothing is visited, and
        the start loses its parent and gets depth 0. */
    constructor (g: Grid, limit: int)
      requires g.Valid()
      modifies g`info
      ensures Valid() && grid == g && start == g.startPos && target == g.targetPos && depthLimit == limit
      ensures frontier == [start] && visited == {} && steps == 0 && pathLength == 0 && !done
      ensures g.info == RootReset(old(g.info), start)
    {
      grid := g;
      start := g.startPos;
      target := g.targetPos;
      depthLimit := limit;
      frontier := [g.startPos];
      visited := {};
      steps := 0;
      pathLength := 0;
      done := false;
      rank := map[];
      new;
      g.info := RootReset(g.info, start);
      LimitInitial(g.state, g.info, start, limit);
    }

    /** One resumption of the generator: pop the top of the stack, visit it,
        and either return the reconstructed path (target reached) or, below
        the depth limit, push its unseen neighbours one level deeper; an
        empty stack ends the run with an empty path. */
    method Advance() returns (snap: Snapshot)
      requires Valid() && !done
      modifies this, grid`info
      ensures Valid()
      ensures old(frontier) == [] ==>
        done && frontier == [] && visited == old(visited) && steps == old(steps) && pathLength == old(pathLength) &&
        grid.info == old(grid.info) && snap == Snapshot([], multiset(visited), Some([]))
      ensures old(frontier) != [] ==>
        LimitedPop(grid.state, target, depthLimit, old(frontier), old(visited), old(grid.info), frontier, visited, grid.info, done) &&
        steps == old(steps) + 1 && snap.frontier == frontier && snap.visited == multiset(visited) &&
        (done ==> Ranked(grid.info, rank) && target in rank) &&
        (done ==> snap.path == Some(ParentChain(grid.info, target, rank)) && pathLength == |snap.path.value|) &&
        (!done ==> snap.path == None && pathLength == old(pathLength))
      ensures snap.path.Some? && snap.path.value != [] ==>
        var p := snap.path.value;
        p[0] == start && p[|p| - 1] == target && IsWalk(grid.state, p) && NoDuplicates(p) &&
        |p| == grid.info[target].depth + 1 && |p| <= (if depthLimit > 0 then depthLimit else 0) + 1
    {
      if frontier == [] {
        done := true;
        return Snapshot([], multiset(visited), Some([]));
      }
      var current := VisitTop();
      if current == target {
        snap := Finish(current);
      } else {
        snap := Expand(current);
      }
    }

    /** frontier.pop() and visited.add: the top of the stack becomes visited. */
    method VisitTop() returns (current: Pos)
      requires Valid() && !done && frontier != []
      modifies this`frontier, this`visited, this`steps, this`rank
      ensures Valid() && current == old(frontier)[|old(frontier)| - 1] && current !in old(visited)
      ensures frontier == old(frontier)[..|old(frontier)| - 1] && visited == old(visited) + {current}
      ensures steps == old(steps) + 1 && current in grid.info
    {
      current := frontier[|frontier| - 1];
      assert RunHolds(Unfold);
      LimitVisit(grid.state, grid.info, start, visited, frontier, rank, depthLimit);
      if current in visited {
        // The stack never holds a visited node, so the source's `continue`
        // here is never taken.
        assert false;
      }
      frontier, visited, rank, steps :=
        frontier[..|frontier| - 1], visited + {current}, rank[current := |visited|], steps + 1;
    }

    /** The target was popped: reconstruct its path and end the run. */
    method Finish(current: Pos) returns (snap: Snapshot)
      requires Valid() && current in visited
      modifies this`pathLength, this`done
      ensures Valid() && done && Ranked(grid.info, rank) && current in rank
      ensures snap == Snapshot(frontier, multiset(visited), Some(ParentChain(grid.info, current, rank)))
      ensures pathLength == |snap.path.value|
      ensures var p := snap.path.value;
        p[0] == start && p[|p| - 1] == current && IsWalk(grid.state, p) && NoDuplicates(p) &&
        |p| == grid.info[current].depth + 1 && |p| <= (if depthLimit > 0 then depthLimit else 0) + 1
    {
      assert RunHolds(Unfold);
      var path := ReconstructPath(grid, current, rank);
      TreeRooted(grid.state, grid.info, start, visited, frontier, rank);
      FoundPath(grid.state, grid.info, start, visited, rank, current);
      LimitPath(grid.state, grid.info, start, visited, frontier, rank, depthLimit, current);
      pathLength := |path|;
      done := true;
      snap := Snapshot(frontier, multiset(visited), Some(path));
    }

    /** The depth check and the neighbour loop for the visited node current. */
    method Expand(current: Pos) returns (snap: Snapshot)
      requires Valid() && !done && current in visited && current in grid.info
      modifies this`frontier, grid`info
      ensures Valid()
      ensures old(grid.info)[current].depth >= depthLimit ==> frontier == old(frontier) && grid.info == old(grid.info)
      ensures old(grid.info)[current].depth < depthLimit ==>
        var added := Unseen(Reverse(Neighbors(grid.state, current)), visited, old(frontier));
        frontier == old(frontier) + added && grid.info.Keys == old(grid.info).Keys &&
        (forall p :: p in grid.info ==>
          grid.info[p] == if p in added then old(grid.info)[p].(parent := Some(current), depth := old(grid.info)[current].depth + 1)
                          else old(grid.info)[p])
      ensures snap == Snapshot(frontier, multiset(visited), None)
    {
      assert RunHolds(Unfold);
      frontier := ExpandLimited(grid, current, visited, frontier, depthLimit, start, rank);
      snap := Snapshot(frontier, multiset(visited), None);
    }
  }

  class IddfsSolver {
    const grid: Grid
    const start: Pos
    const target: Pos
    const maxDepth: int
    /** The limit of the current round; 0 before the first round. */
    var limit: int
    var frontier: seq<Pos>
    var visited: set<Pos>
    /** Pops over all rounds so far. */
    var steps: nat
    var pathLength: nat
    /** The generator has returned. */
    var done: bool
    /** Visit order within the current round. */
    ghost var rank: map<Pos, nat>

    ghost predicate Valid()
      reads this, grid
    {
      grid.info.Keys == grid.state.Keys && start in grid.info && 0 <= limit && (limit == 0 || limit <= maxDepth) &&
      (limit == 0 ==> frontier == [] && visited == {}) &&
      |visited| <= steps &&
      forall u: Unfolding {:trigger RoundHolds(u)} :: RoundHolds(u)
    }

    /** The invariant of the current round, opened only where a proof names
        RoundHolds(Unfold). */
    ghost predicate RoundHolds(u: Unfolding)
      reads this`limit, this`frontier, this`visited, this`rank, grid`state, grid`info
    {
      limit > 0 ==> LimitInv(grid.state, grid.info, start, visited, frontier, rank, limit)
    }

    /** solve's prologue: no round has started yet and the grid is untouched. */
    constructor (g: Grid, maxDepth: int)
      requires g.Valid()
      ensures Valid() && grid == g && start == g.startPos && target == g.targetPos && this.maxDepth == maxDepth
      ensures limit == 0 && frontier == [] && visited == {} && steps == 0 && pathLength == 0 && !done
    {
      grid := g;
      start := g.startPos;
      target := g.targetPos;
      this.maxDepth := maxDepth;
      limit := 0;
      frontier := [];
      visited := {};
      steps := 0;
      pathLength := 0;
      done := false;
      rank := map[];
    }

    /** One resumption of the generator.  When the current round's stack is
        empty, the round returned None without yielding: past the last limit
        the generator yields ([], [], []) and ends; otherwise the next round
        starts with the limit one higher (`_dls_limited`'s prologue, grid not
        reset), and its first pop is carried out.  Each pop is the
        depth-limited step; finding the target ends the whole search. */
    method Advance() returns (snap: Snapshot)
      requires Valid() && !done
      modifies this, grid`info
      ensures Valid()
      ensures old(frontier) == [] && old(limit) >= maxDepth ==>
        done && snap == Snapshot([], multiset{}, Some([])) && limit == old(limit) &&
        steps == old(steps) && pathLength == old(pathLength) && grid.info == old(grid.info)
      ensures old(frontier) == [] && old(limit) < maxDepth ==>
        limit == old(limit) + 1 &&
        LimitedPop(grid.state, target, limit, [start], {}, RootReset(old(grid.info), start), frontier, visited, grid.info, done)
      ensures old(frontier) != [] ==>
        limit == old(limit) &&
        LimitedPop(grid.state, target, limit, old(frontier), old(visited), old(grid.info), frontier, visited, grid.info, done)
      ensures !(old(frontier) == [] && old(limit) >= maxDepth) ==>
        steps == old(steps) + 1 && snap.frontier == frontier && snap.visited == multiset(visited) &&
        (done ==> Ranked(grid.info, rank) && target in rank) &&
        (done ==> snap.path == Some(ParentChain(grid.info, target, rank)) && pathLength == |snap.path.value|) &&
        (!done ==> snap.path == None && pathLength == old(pathLength))
      ensures snap.path.Some? && snap.path.value != [] ==>
        var p := snap.path.value;
        p[0] == start && p[|p| - 1] == target && IsWalk(grid.state, p) && NoDuplicates(p) &&
        |p| == grid.info[target].depth + 1 && |p| <= limit + 1
    {
      if frontier == [] {
        if limit >= maxDepth {
          done := true;
          return Snapshot([], multiset{}, Some([]));
        }
        NextRound();
      }
      snap := Step();
    }

    /** The next round's prologue: limit one higher, the stack holds the
        start, nothing is visited, the start loses its parent and gets depth 0. */
    method NextRound()
      requires Valid() && !done && frontier == [] && limit < maxDepth
      modifies this`limit, this`frontier, this`visited, this`rank, grid`info
      ensures Valid() && limit == old(limit) + 1 && frontier == [start] && visited == {}
      ensures grid.info == RootReset(old(grid.info), start)
    {
      grid.info := RootReset(grid.info, start);
      limit, frontier, visited, rank := limit + 1, [start], {}, map[];
      LimitInitial(grid.state, grid.info, start, limit);
    }

    /** One pop of the current round. */
    method Step() returns (snap: Snapshot)
      requires Valid() && !done && frontier != [] && limit > 0
      modifies this`frontier, this`visited, this`steps, this`rank, this`pathLength, this`done, grid`info
      ensures Valid()
      ensures LimitedPop(grid.state, target, limit, old(frontier), old(visited), old(grid.info), frontier, visited, grid.info, done)
      ensures steps == old(steps) + 1 && snap.frontier == frontier && snap.visited == multiset(visited)
      ensures done ==> Ranked(grid.info, rank) && target in rank
      ensures done ==> snap.path == Some(ParentChain(grid.info, target, rank)) && pathLength == |snap.path.value|
      ensures !done ==> snap.path == None && pathLength == old(pathLength)
      ensures snap.path.Some? ==>
        var p := snap.path.value;
        p[0] == start && p[|p| - 1] == target && IsWalk(grid.state, p) && NoDuplicates(p) &&
        |p| == grid.info[target].depth + 1 && |p| <= limit + 1
    {
      var current := VisitTop();
      if current == target {
        snap := Finish(current);
      } else {
        snap := Expand(current);
      }
    }

    /** The depth check and the neighbour loop for the visited node current. */
    method Expand(current: Pos) returns (snap: Snapshot)
      requires Valid() && !done && current in visited && current in grid.info && limit > 0
      modifies this`frontier, grid`info
      ensures Valid()
      ensures old(grid.info)[current].depth >= limit ==> frontier == old(frontier) && grid.info == old(grid.info)
      ensures old(grid.info)[current].depth < limit ==>
        var added := Unseen(Reverse(Neighbors(grid.state, current)), visited, old(frontier));
        frontier == old(frontier) + added && grid.info.Keys == old(grid.info).Keys &&
        (forall p :: p in grid.info ==>
          grid.info[p] == if p in added then old(grid.info)[p].(parent := Some(current), depth := old(grid.info)[current].depth + 1)
                          else old(grid.info)[p])
      ensures snap == Snapshot(frontier, multiset(visited), None)
    {
      assert RoundHolds(Unfold);
      frontier := ExpandLimited(grid, current, visited, frontier, limit, start, rank);
      snap := Snapshot(frontier, multiset(visited), None);
    }

    /** frontier.pop() and visited.add within the current round. */
    method VisitTop() returns (current: Pos)
      requires Valid() && !done && frontier != [] && limit > 0
      modifies this`frontier, this`visited, this`steps, this`rank
      ensures Valid() && current == old(frontier)[|old(frontier)| - 1] && current !in old(visited)
      ensures frontier == old(frontier)[..|old(frontier)| - 1] && visited == old(visited) + {current}
      ensures steps == old(steps) + 1 && current in grid.info
    {
      current := frontier[|frontier| - 1];
      assert RoundHolds(Unfold);
      LimitVisit(grid.state, grid.info, start, visited, frontier, rank, limit);
      if current in visited {
        // As in the depth-limited strategy, the `continue` is never taken.
        assert false;
      }
      frontier, visited, rank, steps :=
        frontier[..|frontier| - 1], visited + {current}, rank[current := |visited|], steps + 1;
    }

    /** The target was popped: reconstruct its path and end the search. */
    method Finish(current: Pos) returns (snap: Snapshot)
      requires Valid() && current in visited && limit > 0
      modifies this`pathLength, this`done
      ensures Valid() && done && Ranked(grid.info, rank) && current in rank
      ensures snap == Snapshot(frontier, multiset(visited), Some(ParentChain(grid.info, current, rank)))
      ensures pathLength == |snap.path.value|
      ensures var p := snap.path.value;
        p[0] == start && p[|p| - 1] == current && IsWalk(grid.state, p) && NoDuplicates(p) &&
        |p| == grid.info[current].depth + 1 && |p| <= limit + 1
    {
      assert RoundHolds(Unfold);
      var path := ReconstructPath(grid, current, rank);
      TreeRooted(grid.state, grid.info, start, visited, frontier, rank);
      FoundPath(grid.state, grid.info, start, visited, rank, current);
      LimitPath(grid.state, grid.info, start, visited, frontier, rank, limit, current);
      pathLength := |path|;
      done := true;
      snap := Snapshot(frontier, multiset(visited), Some(path));
    }
  }
}
