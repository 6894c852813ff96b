/**
 * BFSSolver: breadth-first search over a FIFO queue.
 *
 * A solver object stands for one run of `solve`: the constructor performs the
 * prologue up to the loop, and each `Advance` runs the generator up to its
 * next yield and returns what it yields.
 */
module BreadthFirst {
  import opened Wrappers
  import opened Grids
  import opened Paths
  import opened Search

  /** p's level is one more than its parent's, and 0 when it has none. */
  ghost predicate LevelLink(info: map<Pos, NodeInfo>, level: map<Pos, nat>, p: Pos)
    requires p in level
  {
    p in info &&
    (info[p].parent.None? ==> level[p] == 0) &&
    (info[p].parent.Some? ==> info[p].parent.value in level && level[p] == level[info[p].parent.value] + 1)
  }

  /** Every visited or queued cell has a level, and only those. */
  ghost predicate LevelKeys(level: map<Pos, nat>, visited: set<Pos>, frontier: seq<Pos>) {
    forall p :: p in level <==> p in visited || p in frontier
  }

  /** Levels count the parent links back to the start. */
  ghost predicate LevelLinks(info: map<Pos, NodeInfo>, level: map<Pos, nat>) {
    forall p :: p in level ==> LevelLink(info, level, p)
  }

  /** The queue is in nondecreasing level order and spans at most two
      consecutive levels. */
  ghost predicate QueueLevels(frontier: seq<Pos>, level: map<Pos, nat>) {
    (forall i :: 0 <= i < |frontier| ==> frontier[i] in level) &&
    (forall i, j :: 0 <= i <= j < |frontier| ==> level[frontier[i]] <= level[frontier[j]]) &&
    (forall i :: 0 <= i < |frontier| ==> level[frontier[i]] <= level[frontier[0]] + 1)
  }

  /** No visited cell lies below the head of the queue. */
  ghost predicate VisitedBelow(visited: set<Pos>, frontier: seq<Pos>, level: map<Pos, nat>) {
    frontier != [] ==>
      frontier[0] in level && forall v :: v in visited ==> v in level && level[v] <= level[frontier[0]]
  }

  /** Every open neighbour of an expanded cell has been seen, at most one
      level below it. */
  ghost predicate Closed(s: map<Pos, NodeState>, expanded: set<Pos>, level: map<Pos, nat>) {
    forall v, n :: v in expanded && n in Neighbors(s, v) ==> v in level && n in level && level[n] <= level[v] + 1
  }

  /** The breadth-first layering of the visited and queued cells, with the
      expanded cells closed. */
  ghost predicate Layered(s: map<Pos, NodeState>, info: map<Pos, NodeInfo>, expanded: set<Pos>, visited: set<Pos>,
                          frontier: seq<Pos>, level: map<Pos, nat>)
  {
    forall u: Unfolding {:trigger LayerHolds(s, info, expanded, visited, frontier, level, u)} ::
      LayerHolds(s, info, expanded, visited, frontier, level, u)
  }

  /** The body of Layered, opened only where a proof names
      LayerHolds(..., Unfold). */
  ghost predicate LayerHolds(s: map<Pos, NodeState>, info: map<Pos, NodeInfo>, expanded: set<Pos>, visited: set<Pos>,
                             frontier: seq<Pos>, level: map<Pos, nat>, u: Unfolding)
  {
    LevelKeys(level, visited, frontier) && LevelLinks(info, level) && QueueLevels(frontier, level) &&
    VisitedBelow(visited, frontier, level) && Closed(s, expanded, level)
  }

  /** Right after popping cur: no visited cell lies below cur, and the queue
      holds cur's level and the next one only. */
  ghost predicate HeadLevel(level: map<Pos, nat>, cur: Pos, visited: set<Pos>, frontier: seq<Pos>) {
    cur in level &&
    (forall v :: v in visited ==> v in level && level[v] <= level[cur]) &&
    (forall f :: f in frontier ==> f in level && level[cur] <= level[f] <= level[cur] + 1)
  }

  /** The levels after appending the cells added, all at level d. */
  ghost function Deeper(level: map<Pos, nat>, added: seq<Pos>, d: nat): (r: map<Pos, nat>)
    ensures forall p :: p in r <==> p in level || p in added
    ensures forall p :: p in r ==> r[p] == if p in added then d else level[p]
  {
    map p | p in level.Keys + Members(added) :: if p in added then d else level[p]
  }

  /** The prologue's state is layered: the start alone, at level 0. */
  lemma LayerInitial(s: map<Pos, NodeState>, info: map<Pos, NodeInfo>, start: Pos)
    requires start in info && info[start].parent.None?
    ensures Layered(s, info, {}, {}, [start], map[start := 0])
  {
    var level := map[start := 0];
    assert LevelLink(info, level, start);
  }

  /** popleft: the rest of the queue stays ordered, at the popped cell's
      level or the next. */
  lemma QueuePop(frontier: seq<Pos>, level: map<Pos, nat>)
    requires QueueLevels(frontier, level) && frontier != []
    ensures QueueLevels(frontier[1..], level)
    ensures forall f :: f in frontier[1..] ==> f in level && level[frontier[0]] <= level[f] <= level[frontier[0]] + 1
  {
    var f2 := frontier[1..];
    forall i, j | 0 <= i <= j < |f2| ensures level[f2[i]] <= level[f2[j]] {
      assert f2[i] == frontier[i + 1] && f2[j] == frontier[j + 1];
    }
    forall f | f in f2 ensures f in level && level[frontier[0]] <= level[f] <= level[frontier[0]] + 1 {
      var i :| 0 <= i < |f2| && f2[i] == f;
      assert f == frontier[i + 1];
    }
  }

  /** popleft and visited.add: the popped cell joins the visited cells, none
      of which lies below it or below the new head. */
  lemma VisitedPop(visited: set<Pos>, frontier: seq<Pos>, level: map<Pos, nat>)
    requires VisitedBelow(visited, frontier, level) && QueueLevels(frontier, level) && frontier != []
    ensures VisitedBelow(visited + {frontier[0]}, frontier[1..], level)
    ensures forall v :: v in visited + {frontier[0]} ==> v in level && level[v] <= level[frontier[0]]
  {
    if |frontier| > 1 {
      assert level[frontier[0]] <= level[frontier[1]];
    }
  }

  /** popleft and visited.add keep the layering, with the popped cell not
      yet expanded, and the popped cell is the lowest: no visited cell is
      below it and the rest of the queue is at its level or the next. */
  lemma LayerPop(s: map<Pos, NodeState>, info: map<Pos, NodeInfo>, visited: set<Pos>, frontier: seq<Pos>, level: map<Pos, nat>)
    requires Layered(s, info, visited, visited, frontier, level) && frontier != [] && frontier[0] !in visited
    ensures var cur := frontier[0];
      Layered(s, info, visited, visited + {cur}, frontier[1..], level) &&
      HeadLevel(level, cur, visited + {cur}, frontier[1..]) && (visited + {cur}) - {cur} == visited
  {
    assert LayerHolds(s, info, visited, visited, frontier, level, Unfold);
    QueuePop(frontier, level);
    VisitedPop(visited, frontier, level);
    var cur := frontier[0];
    assert LevelKeys(level, visited + {cur}, frontier[1..]) by {
      assert frontier == [cur] + frontier[1..];
    }
    assert LayerHolds(s, info, visited, visited + {cur}, frontier[1..], level, Unfold);
  }

  /** Appending cells one level below the popped cell keeps the queue
      ordered and within two levels, its head no lower than cur. */
  lemma QueueAppend(frontier: seq<Pos>, level: map<Pos, nat>, cur: Pos, added: seq<Pos>)
    requires QueueLevels(frontier, level) && cur in level
    requires forall f :: f in frontier ==> f in level && level[cur] <= level[f] <= level[cur] + 1
    requires forall p :: p in added ==> p !in level
    ensures var level' := Deeper(level, added, level[cur] + 1);
      QueueLevels(frontier + added, level') &&
      (frontier + added != [] ==> level[cur] <= level'[(frontier + added)[0]])
  {
    var d := level[cur] + 1;
    var level' := Deeper(level, added, d);
    var f2 := frontier + added;
    forall i | 0 <= i < |f2|
      ensures f2[i] in level' && level'[f2[i]] == (if i < |frontier| then level[frontier[i]] else d)
      ensures level[cur] <= level'[f2[i]] <= d
    {
      if i < |frontier| {
        assert frontier[i] in frontier;
      } else {
        assert f2[i] == added[i - |frontier|];
      }
    }
  }

  /** The parent links of the appended cells, to cur, give them cur's level
      plus one; all other links are unchanged. */
  lemma LinksAppend(info: map<Pos, NodeInfo>, info': map<Pos, NodeInfo>, level: map<Pos, nat>, cur: Pos, added: seq<Pos>)
    requires LevelLinks(info, level) && cur in level
    requires forall p :: p in added ==> p !in level
    requires info'.Keys == info.Keys
    requires forall p :: p in info && p !in added ==> info'[p] == info[p]
    requires forall p :: p in added ==> p in info' && info'[p].parent == Some(cur)
    ensures LevelLinks(info', Deeper(level, added, level[cur] + 1))
  {
    var level' := Deeper(level, added, level[cur] + 1);
    forall p | p in level' ensures LevelLink(info', level', p) {
      if p !in added {
        assert LevelLink(info, level, p);
      }
    }
  }

  /** Once cur's unseen neighbours are appended one level below it, cur is
      closed too. */
  lemma ClosedAppend(s: map<Pos, NodeState>, visited: set<Pos>, frontier: seq<Pos>, level: map<Pos, nat>, cur: Pos)
    requires Closed(s, visited - {cur}, level) && LevelKeys(level, visited, frontier) && cur in visited
    requires HeadLevel(level, cur, visited, frontier)
    ensures var added := Unseen(Neighbors(s, cur), visited, frontier);
      Closed(s, visited, Deeper(level, added, level[cur] + 1))
  {
    var added := Unseen(Neighbors(s, cur), visited, frontier);
    UnseenFacts(Neighbors(s, cur), visited, frontier);
    ClosedExtend(s, visited, frontier, level, Deeper(level, added, level[cur] + 1), added, cur);
  }

  /** The same, with the added cells and the new levels given by their
      defining facts. */
  lemma ClosedExtend(s: map<Pos, NodeState>, visited: set<Pos>, frontier: seq<Pos>, level: map<Pos, nat>,
                     level': map<Pos, nat>, added: seq<Pos>, cur: Pos)
    requires Closed(s, visited - {cur}, level) && LevelKeys(level, visited, frontier) && cur in visited
    requires HeadLevel(level, cur, visited, frontier)
    requires forall p :: p in added <==> p in Neighbors(s, cur) && p !in visited && p !in frontier
    requires forall p :: p in level' <==> p in level || p in added
    requires forall p :: p in level' ==> level'[p] == if p in added then level[cur] + 1 else level[p]
    ensures Closed(s, visited, level')
  {
    forall v, n | v in visited && n in Neighbors(s, v) ensures v in level' && n in level' && level'[n] <= level'[v] + 1 {
      if v != cur {
        assert v in visited - {cur};
        assert n !in added && v !in added;
      } else if n in visited || n in frontier {
        assert n !in added;
      } else {
        assert n in added;
      }
    }
  }

  /** Appending the unseen neighbours of the popped cell cur, one level
      below it and linked to it, keeps the layering with cur expanded. */
  lemma LayerExpand(s: map<Pos, NodeState>, info: map<Pos, NodeInfo>, info': map<Pos, NodeInfo>, visited: set<Pos>,
                    frontier: seq<Pos>, level: map<Pos, nat>, cur: Pos)
    requires cur in visited && Layered(s, info, visited - {cur}, visited, frontier, level)
    requires HeadLevel(level, cur, visited, frontier)
    requires var added := Unseen(Neighbors(s, cur), visited, frontier);
      info'.Keys == info.Keys &&
      (forall p :: p in info && p !in added ==> info'[p] == info[p]) &&
      (forall p :: p in added ==> p in info' && info'[p].parent == Some(cur))
    ensures var added := Unseen(Neighbors(s, cur), visited, frontier);
      Layered(s, info', visited, visited, frontier + added, Deeper(level, added, level[cur] + 1))
  {
    assert LayerHolds(s, info, visited - {cur}, visited, frontier, level, Unfold);
    var added := Unseen(Neighbors(s, cur), visited, frontier);
    var level' := Deeper(level, added, level[cur] + 1);
    assert forall p :: p in added ==> p !in level;
    QueueAppend(frontier, level, cur, added);
    LinksAppend(info, info', level, cur, added);
    ClosedAppend(s, visited, frontier, level, cur);
    assert LevelKeys(level', visited, frontier + added);
    assert VisitedBelow(visited, frontier + added, level');
    assert LayerHolds(s, info', visited, visited, frontier + added, level', Unfold);
  }

  /** The levels along a walk from the start: until the walk has overtaken
      the level of the popped cell t, the walk stays among the expanded
      cells, no higher than its length so far. */
  lemma {:induction false} WalkLevels(s: map<Pos, NodeState>, info: map<Pos, NodeInfo>, start: Pos, visited: set<Pos>,
                                      frontier: seq<Pos>, level: map<Pos, nat>, t: Pos, w: seq<Pos>, i: int)
    requires Layered(s, info, visited - {t}, visited, frontier, level) && t in visited && t in level
    requires forall f :: f in frontier ==> f in level && level[t] <= level[f]
    requires start in visited && start in info && info[start].parent.None?
    requires IsWalk(s, w) && 0 <= i < |w| && w[0] == start
    ensures level[t] <= i || (w[i] in visited && w[i] != t && w[i] in level && level[w[i]] <= i)
    decreases i
  {
    assert LayerHolds(s, info, visited - {t}, visited, frontier, level, Unfold);
    if i == 0 {
      assert LevelLink(info, level, start);
    } else {
      WalkLevels(s, info, start, visited, frontier, level, t, w, i - 1);
      if level[t] > i - 1 {
        assert w[i] in Neighbors(s, w[i - 1]);
      }
    }
  }

  /** Breadth-first search finds a shortest path: when the popped cell t is
      at level k, every walk from the start to t has at least k + 1 cells. */
  lemma BfsShortest(s: map<Pos, NodeState>, info: map<Pos, NodeInfo>, start: Pos, visited: set<Pos>,
                    frontier: seq<Pos>, level: map<Pos, nat>, t: Pos, w: seq<Pos>)
    requires Layered(s, info, visited - {t}, visited, frontier, level) && t in visited && t in level
    requires forall f :: f in frontier ==> f in level && level[t] <= level[f]
    requires start in visited && start in info && info[start].parent.None?
    requires w != [] && IsWalk(s, w) && w[0] == start && w[|w| - 1] == t
    ensures level[t] + 1 <= |w|
  {
    WalkLevels(s, info, start, visited, frontier, level, t, w, |w| - 1);
  }

  /** The reconstructed path of the popped cell t is a shortest walk: no
      walk from the start to t has fewer cells. */
  lemma ChainShortest(s: map<Pos, NodeState>, info: map<Pos, NodeInfo>, start: Pos, visited: set<Pos>,
                      frontier: seq<Pos>, level: map<Pos, nat>, rank: map<Pos, nat>, t: Pos)
    requires Layered(s, info, visited - {t}, visited, frontier, level) && HeadLevel(level, t, visited, frontier)
    requires Ranked(info, rank) && rank.Keys == visited && t in visited
    requires start in visited && start in info && info[start].parent.None?
    ensures forall w :: w != [] && IsWalk(s, w) && w[0] == start && w[|w| - 1] == t ==>
      |ParentChain(info, t, rank)| <= |w|
  {
    ChainLevel(s, info, visited - {t}, visited, frontier, level, rank, t);
    forall w | w != [] && IsWalk(s, w) && w[0] == start && w[|w| - 1] == t
      ensures |ParentChain(info, t, rank)| <= |w|
    {
      BfsShortest(s, info, start, visited, frontier, level, t, w);
    }
  }

  lemma {:induction false} AncestryLevel(info: map<Pos, NodeInfo>, n: Pos, rank: map<Pos, nat>, level: map<Pos, nat>)
    requires Ranked(info, rank) && n in rank && rank.Keys <= level.Keys
    requires forall p :: p in level ==> LevelLink(info, level, p)
    ensures |Ancestry(info, n, rank)| == level[n] + 1
    decreases rank[n]
  {
    assert RankedAt(info, rank, n) && LevelLink(info, level, n);
    if info[n].parent.Some? {
      AncestryLevel(info, info[n].parent.value, rank, level);
    }
  }

  /** A visited cell's reconstructed path has one cell per level, its own
      level plus one. */
  lemma ChainLevel(s: map<Pos, NodeState>, info: map<Pos, NodeInfo>, expanded: set<Pos>, visited: set<Pos>,
                   frontier: seq<Pos>, level: map<Pos, nat>, rank: map<Pos, nat>, n: Pos)
    requires Layered(s, info, expanded, visited, frontier, level)
    requires Ranked(info, rank) && n in rank && rank.Keys == visited
    ensures n in level && |ParentChain(info, n, rank)| == level[n] + 1
  {
    assert LayerHolds(s, info, expanded, visited, frontier, level, Unfold);
    AncestryLevel(info, n, rank, level);
  }

  /** With the queue empty every visited cell is expanded and its open
      neighbours are visited too, so a target never visited cannot be
      reached from the start: the empty path means there is no path. */
  lemma ExhaustedUnreachable(s: map<Pos, NodeState>, info: map<Pos, NodeInfo>, visited: set<Pos>,
                             level: map<Pos, nat>, start: Pos, target: Pos)
    requires Layered(s, info, visited, visited, [], level)
    requires start in visited && target !in visited
    ensures Unreachable(s, start, target)
  {
    LayerClosure(s, info, visited, level);
    forall w | w != [] && IsWalk(s, w) && w[0] == start ensures w[|w| - 1] != target {
      WalkStaysIn(s, visited, w, |w| - 1);
    }
  }

  /** The closure part of an exhausted layering: the visited cells are
      closed under taking neighbours. */
  lemma LayerClosure(s: map<Pos, NodeState>, info: map<Pos, NodeInfo>, visited: set<Pos>, level: map<Pos, nat>)
    requires Layered(s, info, visited, visited, [], level)
    ensures forall p, n :: p in visited && n in Neighbors(s, p) ==> n in visited
  {
    assert LayerHolds(s, info, visited, visited, [], level, Unfold);
    ClosedKeys(s, visited, level);
  }

  lemma ClosedKeys(s: map<Pos, NodeState>, visited: set<Pos>, level: map<Pos, nat>)
    requires LevelKeys(level, visited, []) && Closed(s, visited, level)
    ensures forall p, n :: p in visited && n in Neighbors(s, p) ==> n in visited
  {
    forall p, n | p in visited && n in Neighbors(s, p) ensures n in visited {
      assert n in level;
    }
  }

  class BfsSolver {
    const grid: Grid
    const start: Pos
    const target: Pos
    var frontier: seq<Pos>
    var visited: set<Pos>
    var steps: nat
    var pathLength: nat
    /** The generator has returned. */
    var done: bool
    /** Visit order, the termination measure of parent chains. */
    ghost var rank: map<Pos, nat>
    /** The breadth-first level of every visited or queued cell. */
    ghost var level: map<Pos, nat>

    ghost predicate Valid()
      reads this, grid
    {
      Sound() && (!done ==> target !in visited && Layered(grid.state, grid.info, visited, visited, frontier, level))
    }

    /** The invariant that also holds between a pop and the expansion. */
    ghost predicate Sound()
      reads this, grid
    {
      grid.info.Keys == grid.state.Keys && steps == |visited| &&
      forall u: Unfolding {:trigger RunHolds(u)} :: RunHolds(u)
    }

    /** The invariant of the run, opened only where a proof names
        RunHolds(Unfold). */
    ghost predicate RunHolds(u: Unfolding)
      reads this`frontier, this`visited, this`rank, grid`state, grid`info
    {
      TreeInv(grid.state, grid.info, start, visited, frontier, rank)
    }

    /** solve's prologue: the queue holds the start, nothing is visited, and
        the start loses its parent. */
    constructor (g: Grid)
      requires g.Valid()
      modifies g`info
      ensures Valid() && grid == g && start == g.startPos && target == g.targetPos
      ensures frontier == [start] && visited == {} && steps == 0 && pathLength == 0 && !done
      ensures g.info == old(g.info)[start := old(g.info)[start].(parent := None)]
    {
      grid := g;
      start := g.startPos;
      target := g.targetPos;
      frontier := [g.startPos];
      visited := {};
      steps := 0;
      pathLength := 0;
      done := false;
      rank := map[];
      level := map[g.startPos := 0];
      new;
      g.info := g.info[start := g.info[start].(parent := None)];
      InitialTree(g.state, g.info, start);
      LayerInitial(g.state, g.info, start);
    }

    /** One resumption of the generator: pop the queue's head, visit it, and
        either return the reconstructed path (target reached) or append its
        unseen neighbours in expansion order; an empty queue ends the run
        with an empty path.  A returned path is a shortest walk from start
        to target. */
    method Advance() returns (snap: Snapshot)
      requires Valid() && !done
      modifies this, grid`info
      ensures Valid()
      ensures old(frontier) == [] ==>
        done && frontier == [] && visited == old(visited) && steps == old(steps) && pathLength == old(pathLength) &&
        grid.info == old(grid.info) && snap == Snapshot([], multiset(visited), Some([])) &&
        Unreachable(grid.state, start, target)
      ensures old(frontier) != [] ==>
        visited == old(visited) + {old(frontier)[0]} && steps == old(steps) + 1 &&
        snap.frontier == frontier && snap.visited == multiset(visited)
      ensures old(frontier) != [] && old(frontier)[0] == target ==>
        Ranked(grid.info, rank) && target in rank
      ensures old(frontier) != [] && old(frontier)[0] == target ==>
        done && frontier == old(frontier)[1..] && grid.info == old(grid.info) &&
        snap.path == Some(ParentChain(grid.info, target, rank)) && pathLength == |snap.path.value|
      ensures old(frontier) != [] && old(frontier)[0] != target ==>
        var added := Unseen(Neighbors(grid.state, old(frontier)[0]), visited, old(frontier)[1..]);
        !done && snap.path == None && pathLength == old(pathLength) &&
        frontier == old(frontier)[1..] + added &&
        grid.info.Keys == old(grid.info).Keys &&
        (forall p :: p in grid.info ==>
          grid.info[p] == if p in added then old(grid.info)[p].(parent := Some(old(frontier)[0])) else old(grid.info)[p])
      ensures snap.path.Some? && snap.path.value != [] ==>
        var p := snap.path.value;
        p[0] == start && p[|p| - 1] == target && IsWalk(grid.state, p) && NoDuplicates(p) && |p| <= steps &&
        forall w :: w != [] && IsWalk(grid.state, w) && w[0] == start && w[|w| - 1] == target ==> |p| <= |w|
    {
      if frontier == [] {
        assert RunHolds(Unfold);
        ExhaustedStart(grid.state, grid.info, start, visited, rank);
        ExhaustedUnreachable(grid.state, grid.info, visited, level, start, target);
        done := true;
        return Snapshot([], multiset(visited), Some([]));
      }
      var current := VisitHead();
      if current == target {
        snap := Finish(current);
      } else {
        snap := Expand(current);
      }
    }

    /** popleft and visited.add: the queue's head becomes visited.  It is
        the lowest cell: nothing visited lies below it, and the queue holds
        its level and the next one only. */
    method VisitHead() returns (current: Pos)
      requires Valid() && !done && frontier != []
      modifies this`frontier, this`visited, this`steps, this`rank
      ensures Sound() && current == old(frontier)[0] && current !in old(visited)
      ensures frontier == old(frontier)[1..] && visited == old(visited) + {current} && steps == old(steps) + 1
      ensures Layered(grid.state, grid.info, visited - {current}, visited, frontier, level)
      ensures HeadLevel(level, current, visited, frontier)
    {
      current := frontier[0];
      assert RunHolds(Unfold);
      VisitFirst(grid.state, grid.info, start, visited, frontier, rank);
      LayerPop(grid.state, grid.info, visited, frontier, level);
      if current in visited {
        // The frontier never holds a visited node, so the source's
        // `continue` here is never taken.
        assert false;
      }
      frontier, visited, rank, steps := frontier[1..], visited + {current}, rank[current := |visited|], steps + 1;
    }

    /** The target was popped: reconstruct its path and end the run.  The
        path has one cell per level, and no walk from the start is shorter. */
    method Finish(current: Pos) returns (snap: Snapshot)
      requires Sound() && current in visited
      requires Layered(grid.state, grid.info, visited - {current}, visited, frontier, level)
      requires HeadLevel(level, current, visited, frontier)
      modifies this`pathLength, this`done
      ensures Valid() && done && Ranked(grid.info, rank) && current in rank
      ensures snap == Snapshot(frontier, multiset(visited), Some(ParentChain(grid.info, current, rank)))
      ensures pathLength == |snap.path.value|
      ensures var p := snap.path.value;
        p[0] == start && p[|p| - 1] == current && IsWalk(grid.state, p) && NoDuplicates(p) && |p| <= steps &&
        forall w :: w != [] && IsWalk(grid.state, w) && w[0] == start && w[|w| - 1] == current ==> |p| <= |w|
    {
      assert RunHolds(Unfold);
      var path := ReconstructPath(grid, current, rank);
      TreeRooted(grid.state, grid.info, start, visited, frontier, rank);
      FoundPath(grid.state, grid.info, start, visited, rank, current);
      ChainShortest(grid.state, grid.info, start, visited, frontier, level, rank, current);
      pathLength := |path|;
      done := true;
      snap := Snapshot(frontier, multiset(visited), Some(path));
    }

    /** Append the unseen neighbours of the popped node current, one level
        below it. */
    method Expand(current: Pos) returns (snap: Snapshot)
      requires Sound() && !done && current in visited && target !in visited
      requires Layered(grid.state, grid.info, visited - {current}, visited, frontier, level)
      requires HeadLevel(level, current, visited, frontier)
      modifies this`frontier, this`level, grid`info
      ensures Valid()
      ensures var added := Unseen(Neighbors(grid.state, current), visited, old(frontier));
        frontier == old(frontier) + added &&
        grid.info.Keys == old(grid.info).Keys &&
        (forall p :: p in grid.info ==>
          grid.info[p] == if p in added then old(grid.info)[p].(parent := Some(current)) else old(grid.info)[p])
      ensures snap == Snapshot(frontier, multiset(visited), None)
    {
      ghost var info0, f0 := grid.info, frontier;
      snap := Append(current);
      LayerExpand(grid.state, info0, grid.info, visited, f0, level, current);
      level := Deeper(level, Unseen(Neighbors(grid.state, current), visited, f0), level[current] + 1);
    }

    /** The neighbour loop: link and append the unseen neighbours of the
        visited node current. */
    method Append(current: Pos) returns (snap: Snapshot)
      requires Sound() && current in visited
      modifies this`frontier, grid`info
      ensures Sound()
      ensures var added := Unseen(Neighbors(grid.state, current), visited, old(frontier));
        frontier == old(frontier) + added &&
        grid.info.Keys == old(grid.info).Keys &&
        (forall p :: p in grid.info ==>
          grid.info[p] == if p in added then old(grid.info)[p].(parent := Some(current)) else old(grid.info)[p])
      ensures snap == Snapshot(frontier, multiset(visited), None)
    {
      assert RunHolds(Unfold);
      ghost var info0 := grid.info;
      var ns := Neighbors(grid.state, current);
      frontier := PushUnseen(grid, current, ns, visited, frontier, false);
      ExpandStep(grid.state, info0, grid.info, start, visited, old(frontier), rank, current, ns);
      snap := Snapshot(frontier, multiset(visited), None);
    }
  }
}
