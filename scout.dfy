/**
 * ScoutSolver: one double-ended queue used as a FIFO queue in BFS mode
 * (popleft) and as a stack in DFS mode (pop).  New nodes are always appended
 * one deeper than the node expanded; after an expansion that added nodes,
 * BFS mode gives way to DFS mode once the expanded node is at least
 * bfs_layers deep, and DFS mode gives way to BFS mode once it is at least
 * bfs_layers + dfs_layers deep.
 */
module Scout {
  import opened Wrappers
  import opened Grids
  import opened Paths
  import opened Search
  import opened DepthLimited

  /** current_mode. */
  datatype Mode = BfsMode | DfsMode

  /** The mode after expanding a node of the given depth: only an expansion
      that added nodes can switch it. */
  function NextMode(mode: Mode, added: bool, depth: int, bfsLayers: int, dfsLayers: int): Mode {
    if !added then mode
    else if mode == BfsMode then (if depth >= bfsLayers then DfsMode else BfsMode)
    else (if depth >= bfsLayers + dfsLayers then BfsMode else DfsMode)
  }

  /** The mode switches exactly after an expansion that added nodes, from BFS
      at depth bfs_layers or more, and from DFS at depth bfs_layers +
      dfs_layers or more. */
  lemma ModeSwitch(mode: Mode, added: bool, depth: int, bfsLayers: int, dfsLayers: int)
    ensures NextMode(mode, added, depth, bfsLayers, dfsLayers) != mode <==>
      added &&
      (mode == BfsMode ==> depth >= bfsLayers) &&
      (mode == DfsMode ==> depth >= bfsLayers + dfsLayers)
  {
  }

  /** The node the mode takes from a non-empty queue: its head in BFS mode,
      its tail in DFS mode. */
  function Taken(f: seq<Pos>, mode: Mode): Pos
    requires f != []
  {
    if mode == BfsMode then f[0] else f[|f| - 1]
  }

  /** The queue after that node is taken. */
  function Remaining(f: seq<Pos>, mode: Mode): seq<Pos>
    requires f != []
  {
    if mode == BfsMode then f[1..] else f[..|f| - 1]
  }

  /** The scout invariant: the search-tree invariant of the other queue and
      stack strategies, and depths consistent with parents over the nodes
      visited or waiting. */
  ghost predicate ScoutInv(s: map<Pos, NodeState>, info: map<Pos, NodeInfo>, start: Pos, visited: set<Pos>,
                           frontier: seq<Pos>, rank: map<Pos, nat>)
  {
    TreeInv(s, info, start, visited, frontier, rank) && DepthInv(info, Touched(visited, frontier))
  }

  lemma ScoutInitial(s: map<Pos, NodeState>, info: map<Pos, NodeInfo>, start: Pos)
    requires start in info && info[start].parent.None? && info[start].depth == 0
    ensures ScoutInv(s, info, start, {}, [start], map[])
  {
    assert Touched({}, [start]) == {start};
    InitialTree(s, info, start);
  }

  /** Moving the head of the queue to the visited set leaves the touched
      nodes as they were. */
  lemma TouchedPopHead(visited: set<Pos>, frontier: seq<Pos>)
    requires frontier != []
    ensures Touched(visited + {frontier[0]}, frontier[1..]) == Touched(visited, frontier)
  {
    forall p ensures p in Touched(visited + {frontier[0]}, frontier[1..]) <==> p in Touched(visited, frontier) {
      if p in frontier && p != frontier[0] {
        var i :| 0 <= i < |frontier| && frontier[i] == p;
        assert frontier[1..][i - 1] == p;
      }
    }
  }

  /** popleft in BFS mode keeps the invariant. */
  lemma ScoutVisitHead(s: map<Pos, NodeState>, info: map<Pos, NodeInfo>, start: Pos, visited: set<Pos>,
                       frontier: seq<Pos>, rank: map<Pos, nat>)
    requires ScoutInv(s, info, start, visited, frontier, rank) && frontier != []
    ensures frontier[0] !in visited
    ensures ScoutInv(s, info, start, visited + {frontier[0]}, frontier[1..], rank[frontier[0] := |visited|])
  {
    VisitFirst(s, info, start, visited, frontier, rank);
    TouchedPopHead(visited, frontier);
  }

  /** pop in DFS mode keeps the invariant. */
  lemma ScoutVisitTop(s: map<Pos, NodeState>, info: map<Pos, NodeInfo>, start: Pos, visited: set<Pos>,
                      frontier: seq<Pos>, rank: map<Pos, nat>)
    requires ScoutInv(s, info, start, visited, frontier, rank) && frontier != []
    ensures var k := |frontier| - 1;
      frontier[k] !in visited &&
      ScoutInv(s, info, start, visited + {frontier[k]}, frontier[..k], rank[frontier[k] := |visited|])
  {
    VisitLast(s, info, start, visited, frontier, rank);
    TouchedPop(visited, frontier);
  }

  /** Appending the unseen neighbours of a visited node, linked to it and one
      deeper, keeps the invariant. */
  lemma ScoutExpand(s: map<Pos, NodeState>, info: map<Pos, NodeInfo>, info': map<Pos, NodeInfo>, start: Pos,
                    visited: set<Pos>, frontier: seq<Pos>, rank: map<Pos, nat>, cur: Pos, ns: seq<Pos>)
    requires ScoutInv(s, info, start, visited, frontier, rank) && cur in visited
    requires forall n :: n in ns ==> n in info && n in Neighbors(s, cur)
    requires info'.Keys == info.Keys
    requires forall p :: p in info && p !in Unseen(ns, visited, frontier) ==> info'[p] == info[p]
    requires forall p :: p in Unseen(ns, visited, frontier) ==>
      info'[p] == info[p].(parent := Some(cur), depth := info[cur].depth + 1)
    ensures ScoutInv(s, info', start, visited, frontier + Unseen(ns, visited, frontier), rank)
  {
    var u := Unseen(ns, visited, frontier);
    ExpandStep(s, info, info', start, visited, frontier, rank, cur, ns);
    DepthExpand(info, info', Touched(visited, frontier), cur, u);
    TouchedPush(visited, frontier, u);
  }

  /** The path of a visited node has its depth plus one cells. */
  lemma ScoutPath(s: map<Pos, NodeState>, info: map<Pos, NodeInfo>, start: Pos, visited: set<Pos>,
                  frontier: seq<Pos>, rank: map<Pos, nat>, n: Pos)
    requires ScoutInv(s, info, start, visited, frontier, rank) && n in visited
    ensures var c := ParentChain(info, n, rank);
      c[0] == start && c[|c| - 1] == n && IsWalk(s, c) && NoDuplicates(c) && |c| <= |visited| &&
      |c| == info[n].depth + 1
  {
    TreeRooted(s, info, start, visited, frontier, rank);
    FoundPath(s, info, start, visited, rank, n);
    ChainDepth(info, n, rank, Touched(visited, frontier));
  }

  /** The neighbour loop: append the unseen neighbours of the visited node
      cur, linked to it and one deeper. */
  method ExpandScout(g: Grid, cur: Pos, visited: set<Pos>, frontier: seq<Pos>, ghost start: Pos, ghost rank: map<Pos, nat>)
    returns (next: seq<Pos>)
    requires g.info.Keys == g.state.Keys && cur in visited
    requires ScoutInv(g.state, g.info, start, visited, frontier, rank)
    modifies g`info
    ensures ScoutInv(g.state, g.info, start, visited, next, rank)
    ensures var added := Unseen(Neighbors(g.state, cur), visited, frontier);
      next == frontier + added && g.info.Keys == old(g.info).Keys &&
      (forall p :: p in g.info ==>
        g.info[p] == if p in added then old(g.info)[p].(parent := Some(cur), depth := old(g.info)[cur].depth + 1)
                     else old(g.info)[p])
  {
    ghost var info0 := g.info;
    var ns := Neighbors(g.state, cur);
    next := PushUnseen(g, cur, ns, visited, frontier, true);
    ScoutExpand(g.state, info0, g.info, start, visited, frontier, rank, cur, ns);
  }

  class ScoutSolver {
    const grid: Grid
    const start: Pos
    const target: Pos
    const bfsLayers: int
    const dfsLayers: int
    var frontier: seq<Pos>
    var visited: set<Pos>
    var mode: Mode
    var steps: nat
    var pathLength: nat
    /** The generator has returned. */
    var done: bool
    /** Visit order, the termination measure of parent chains. */
    ghost var rank: map<Pos, nat>

    ghost predicate Valid()
      reads this, grid
    {
      grid.info.Keys == grid.state.Keys && steps == |visited| &&
      forall u: Unfolding {:trigger RunHolds(u)} :: RunHolds(u)
    }

    /** The invariant of the run, opened only where a proof names
        RunHolds(Unfold). */
    ghost predicate RunHolds(u: Unfolding)
      reads this`frontier, this`visited, this`rank, grid`state, grid`info
    {
      ScoutInv(grid.state, grid.info, start, visited, frontier, rank)
    }

    /** solve's prologue: the queue holds the start, nothing is visited, the
        mode is BFS, and the start loses its parent and gets depth 0. */
    constructor (g: Grid, bfs: int, dfs: int)
      requires g.Valid()
      modifies g`info
      ensures Valid() && grid == g && start == g.startPos && target == g.targetPos
      ensures bfsLayers == bfs && dfsLayers == dfs && mode == BfsMode
      ensures frontier == [start] && visited == {} && steps == 0 && pathLength == 0 && !done
      ensures g.info == RootReset(old(g.info), start)
    {
      grid := g;
      start := g.startPos;
      target := g.targetPos;
      bfsLayers := bfs;
      dfsLayers := dfs;
      frontier := [g.startPos];
      visited := {};
      mode := BfsMode;
      steps := 0;
      pathLength := 0;
      done := false;
      rank := map[];
      new;
      g.info := RootReset(g.info, start);
      ScoutInitial(g.state, g.info, start);
    }

    /** One resumption of the generator: pop the head (BFS mode) or the top
        (DFS mode), visit it, and either return the reconstructed path
        (target reached) or append its unseen neighbours one deeper and
        update the mode; an empty queue ends the run with an empty path. */
    method Advance() returns (snap: Snapshot)
      requires Valid() && !done
      modifies this, grid`info
      ensures Valid()
      ensures old(frontier) == [] ==>
        done && frontier == [] && visited == old(visited) && steps == old(steps) && mode == old(mode) && pathLength == old(pathLength) &&
        grid.info == old(grid.info) && snap == Snapshot([], multiset(visited), Some([]))
      ensures old(frontier) != [] ==>
        visited == old(visited) + {Taken(old(frontier), old(mode))} && steps == old(steps) + 1 &&
        snap.frontier == frontier && snap.visited == multiset(visited)
      ensures old(frontier) != [] ==>
        var cur, rest := Taken(old(frontier), old(mode)), Remaining(old(frontier), old(mode));
        (cur == target ==>
          done && frontier == rest && grid.info == old(grid.info) && mode == old(mode) &&
          Ranked(grid.info, rank) && target in rank &&
          snap.path == Some(ParentChain(grid.info, target, rank)) && pathLength == |snap.path.value|) &&
        (cur != target ==>
          var added := Unseen(Neighbors(grid.state, cur), visited, rest);
          !done && snap.path == None && pathLength == old(pathLength) &&
          frontier == rest + added && cur in old(grid.info) &&
          mode == NextMode(old(mode), added != [], old(grid.info)[cur].depth, bfsLayers, dfsLayers) &&
          grid.info.Keys == old(grid.info).Keys &&
          (forall p :: p in grid.info ==>
            grid.info[p] == if p in added then old(grid.info)[p].(parent := Some(cur), depth := old(grid.info)[cur].depth + 1)
                            else old(grid.info)[p]))
      ensures snap.path.Some? && snap.path.value != [] ==>
        var p := snap.path.value;
        p[0] == start && p[|p| - 1] == target && IsWalk(grid.state, p) && NoDuplicates(p) && |p| <= steps &&
        target in grid.info && |p| == grid.info[target].depth + 1
    {
      if frontier == [] {
        done := true;
        return Snapshot([], multiset(visited), Some([]));
      }
      var current := Pop();
      if current == target {
        snap := Finish(current);
      } else {
        snap := Expand(current);
      }
    }

    /** popleft in BFS mode, pop in DFS mode, then visited.add. */
    method Pop() returns (current: Pos)
      requires Valid() && !done && frontier != []
      modifies this`frontier, this`visited, this`steps, this`rank
      ensures current == Taken(old(frontier), mode) && current !in old(visited) && current in grid.info
      ensures frontier == Remaining(old(frontier), mode)
      ensures Valid() && visited == old(visited) + {current} && steps == old(steps) + 1
    {
      assert RunHolds(Unfold);
      current := Taken(frontier, mode);
      if mode == BfsMode {
        ScoutVisitHead(grid.state, grid.info, start, visited, frontier, rank);
      } else {
        ScoutVisitTop(grid.state, grid.info, start, visited, frontier, rank);
      }
      if current in visited {
        // The queue never holds a visited node, so the source's `continue`
        // here is never taken.
        assert false;
      }
      frontier, visited, rank, steps :=
        Remaining(frontier, mode), visited + {current}, rank[current := |visited|], steps + 1;
    }

    /** The target was popped: reconstruct its path and end the run. */
    method Finish(current: Pos) returns (snap: Snapshot)
      requires Valid() && current in visited
      modifies this`pathLength, this`done
      ensures Valid() && done && Ranked(grid.info, rank) && current in rank
      ensures snap == Snapshot(frontier, multiset(visited), Some(ParentChain(grid.info, current, rank)))
      ensures pathLength == |snap.path.value|
      ensures var p := snap.path.value;
        p[0] == start && p[|p| - 1] == current && IsWalk(grid.state, p) && NoDuplicates(p) && |p| <= steps &&
        current in grid.info && |p| == grid.info[current].depth + 1
    {
      assert RunHolds(Unfold);
      var path := ReconstructPath(grid, current, rank);
      ScoutPath(grid.state, grid.info, start, visited, frontier, rank, current);
      pathLength := |path|;
      done := true;
      snap := Snapshot(frontier, multiset(visited), Some(path));
    }

    /** Append the unseen neighbours of the visited node current one deeper,
        then switch the mode if the expansion added nodes and current is deep
        enough. */
    method Expand(current: Pos) returns (snap: Snapshot)
      requires Valid() && current in visited && current in grid.info
      modifies this`frontier, this`mode, grid`info
      ensures Valid()
      ensures var added := Unseen(Neighbors(grid.state, current), visited, old(frontier));
        frontier == old(frontier) + added &&
        mode == NextMode(old(mode), added != [], old(grid.info)[current].depth, bfsLayers, dfsLayers) &&
        grid.info.Keys == old(grid.info).Keys &&
        (forall p :: p in grid.info ==>
          grid.info[p] == if p in added then old(grid.info)[p].(parent := Some(current), depth := old(grid.info)[current].depth + 1)
                          else old(grid.info)[p])
      ensures snap == Snapshot(frontier, multiset(visited), None)
    {
      assert RunHolds(Unfold);
      var depth := grid.info[current].depth;
      var next := ExpandScout(grid, current, visited, frontier, start, rank);
      var added := |next| > |frontier|;
      frontier, mode := next, NextMode(mode, added, depth, bfsLayers, dfsLayers);
      snap := Snapshot(frontier, multiset(visited), None);
    }
  }
}
