/**
 * CustomSolver: beam search, a breadth-first search whose queue is cut back
 * from its tail to beam_width entries before every pop, and which appends
 * the neighbours of a node in increasing Manhattan distance to the target.
 */
module Beam {
  import opened Wrappers
  import opened Grids
  import opened Paths
  import opened Search

  /** The sort key abs(n.row - target.row) + abs(n.col - target.col). */
  function Distance(p: Pos, t: Pos): nat {
    Abs(p.row - t.row) + Abs(p.col - t.col)
  }

  function Min(a: int, b: int): int {
    if a <= b then a else b
  }

  /** Every cell of s is at most as far from t as every later one. */
  predicate SortedBy(s: seq<Pos>, t: Pos) {
    forall i, j :: 0 <= i < j < |s| ==> Distance(s[i], t) <= Distance(s[j], t)
  }

  /** x placed in front of the first cell that is at least as far from t. */
  function InsertByDistance(x: Pos, s: seq<Pos>, t: Pos): (r: seq<Pos>)
    ensures multiset(r) == multiset(s) + multiset{x}
    decreases |s|
  {
    if s == [] || Distance(x, t) <= Distance(s[0], t) then [x] + s
    else
      assert s == [s[0]] + s[1..];
      [s[0]] + InsertByDistance(x, s[1..], t)
  }

  /** list.sort(key=distance to t): an insertion sort, which like Python's
      sort is stable. */
  function SortByDistance(s: seq<Pos>, t: Pos): (r: seq<Pos>)
    ensures multiset(r) == multiset(s)
    decreases |s|
  {
    if s == [] then []
    else
      assert s == [s[0]] + s[1..];
      InsertByDistance(s[0], SortByDistance(s[1..], t), t)
  }

  /** The cells of s at distance k from t, in their order in s. */
  function AtDistance(s: seq<Pos>, t: Pos, k: nat): seq<Pos>
    decreases |s|
  {
    if s == [] then []
    else (if Distance(s[0], t) == k then [s[0]] else []) + AtDistance(s[1..], t, k)
  }

  lemma {:induction false} InsertSorted(x: Pos, s: seq<Pos>, t: Pos)
    requires SortedBy(s, t)
    ensures SortedBy(InsertByDistance(x, s, t), t)
    decreases |s|
  {
    var r := InsertByDistance(x, s, t);
    if s != [] && Distance(x, t) > Distance(s[0], t) {
      var rest := InsertByDistance(x, s[1..], t);
      InsertSorted(x, s[1..], t);
      assert r == [s[0]] + rest;
      forall i, j | 0 <= i < j < |r| ensures Distance(r[i], t) <= Distance(r[j], t) {
        if i == 0 {
          assert r[j] in multiset(rest);
          if r[j] != x {
            assert r[j] in multiset(s[1..]);
            var m :| 0 <= m < |s[1..]| && s[1..][m] == r[j];
            assert s[m + 1] == r[j];
          }
        } else {
          assert r[i] == rest[i - 1] && r[j] == rest[j - 1];
        }
      }
    }
  }

  /** x lands in front of the cells at its own distance, and the cells at
      any other distance are untouched. */
  lemma {:induction false} InsertStable(x: Pos, s: seq<Pos>, t: Pos, k: nat)
    ensures AtDistance(InsertByDistance(x, s, t), t, k) == (if Distance(x, t) == k then [x] else []) + AtDistance(s, t, k)
    decreases |s|
  {
    var r := InsertByDistance(x, s, t);
    if s == [] || Distance(x, t) <= Distance(s[0], t) {
      AtDistanceCons(x, s, t, k);
    } else {
      InsertStable(x, s[1..], t, k);
      InsertPast(x, s, t, k);
    }
  }

  /** The step of InsertStable where x goes past s[0]: x and s[0] are not
      both at distance k, since x is farther than s[0]. */
  lemma InsertPast(x: Pos, s: seq<Pos>, t: Pos, k: nat)
    requires s != [] && Distance(x, t) > Distance(s[0], t)
    requires AtDistance(InsertByDistance(x, s[1..], t), t, k) == (if Distance(x, t) == k then [x] else []) + AtDistance(s[1..], t, k)
    ensures AtDistance(InsertByDistance(x, s, t), t, k) == (if Distance(x, t) == k then [x] else []) + AtDistance(s, t, k)
  {
    var r, rest := InsertByDistance(x, s, t), InsertByDistance(x, s[1..], t);
    var tail := AtDistance(s[1..], t, k);
    var hx, h0 := (if Distance(x, t) == k then [x] else []), (if Distance(s[0], t) == k then [s[0]] else []);
    assert r == [s[0]] + rest;
    AtDistanceCons(s[0], rest, t, k);
    assert AtDistance(r, t, k) == h0 + (hx + tail);
    assert s == [s[0]] + s[1..];
    AtDistanceCons(s[0], s[1..], t, k);
    assert AtDistance(s, t, k) == h0 + tail;
    ConcatSwap(h0, hx, tail);
  }

  lemma ConcatSwap(a: seq<Pos>, b: seq<Pos>, c: seq<Pos>)
    requires a == [] || b == []
    ensures a + (b + c) == b + (a + c)
  {
    if a == [] {
      assert [] + (b + c) == b + c == b + ([] + c);
    } else {
      assert a + ([] + c) == a + c == [] + (a + c);
    }
  }

  lemma AtDistanceCons(a: Pos, s: seq<Pos>, t: Pos, k: nat)
    ensures AtDistance([a] + s, t, k) == (if Distance(a, t) == k then [a] else []) + AtDistance(s, t, k)
  {
    assert ([a] + s)[1..] == s;
  }

  /** The sort orders by distance, keeps the cells, and keeps the relative
      order of cells at the same distance. */
  lemma {:induction false} SortFacts(s: seq<Pos>, t: Pos)
    ensures var r := SortByDistance(s, t);
      SortedBy(r, t) && multiset(r) == multiset(s) && (forall x :: x in r <==> x in s) &&
      forall k: nat :: AtDistance(r, t, k) == AtDistance(s, t, k)
    decreases |s|
  {
    var r := SortByDistance(s, t);
    assert forall x :: x in r <==> x in multiset(r);
    if s != [] {
      SortFacts(s[1..], t);
      InsertSorted(s[0], SortByDistance(s[1..], t), t);
      forall k: nat ensures AtDistance(r, t, k) == AtDistance(s, t, k) {
        InsertStable(s[0], SortByDistance(s[1..], t), t, k);
      }
    }
  }

  class BeamSolver {
    const grid: Grid
    const start: Pos
    const target: Pos
    /** beam_width. */
    const beamWidth: int
    var frontier: seq<Pos>
    var visited: set<Pos>
    var steps: nat
    var pathLength: nat
    /** The generator has returned. */
    var done: bool
    /** Visit order, the termination measure of parent chains. */
    ghost var rank: map<Pos, nat>

    ghost predicate Valid()
      reads this, grid
    {
      grid.info.Keys == grid.state.Keys &&
      (!done ==> steps == |visited| && forall u: Unfolding {:trigger RunHolds(u)} :: RunHolds(u))
    }

    /** The invariant of the run, opened only where a proof names
        RunHolds(Unfold). */
    ghost predicate RunHolds(u: Unfolding)
      reads this`frontier, this`visited, this`rank, grid`state, grid`info
    {
      TreeInv(grid.state, grid.info, start, visited, frontier, rank)
    }

    /** solve's prologue: the queue holds the start, nothing is visited, and
        the start loses its parent. */
    constructor (g: Grid, width: int)
      requires g.Valid()
      modifies g`info
      ensures Valid() && grid == g && start == g.startPos && target == g.targetPos && beamWidth == width
      ensures frontier == [start] && visited == {} && steps == 0 && pathLength == 0 && !done
      ensures g.info == old(g.info)[start := old(g.info)[start].(parent := None)]
    {
      grid := g;
      start := g.startPos;
      target := g.targetPos;
      beamWidth := width;
      frontier := [g.startPos];
      visited := {};
      steps := 0;
      pathLength := 0;
      done := false;
      rank := map[];
      new;
      g.info := g.info[start := g.info[start].(parent := None)];
      InitialTree(g.state, g.info, start);
    }

    /** One resumption of the generator: cut the queue back to beamWidth
        entries, pop its head, visit it, and either return the reconstructed
        path (target reached) or append its unseen neighbours nearest to the
        target first.  A width below 1 empties the queue, so that the pop
        fails and the error handler yields ([], [], []).  An empty queue ends
        the run with an empty path. */
    method Advance() returns (snap: Snapshot)
      requires Valid() && !done
      modifies this, grid`info
      ensures Valid()
      ensures old(frontier) == [] ==>
        done && frontier == [] && visited == old(visited) && steps == old(steps) && pathLength == old(pathLength) &&
        grid.info == old(grid.info) && snap == Snapshot([], multiset(visited), Some([]))
      ensures old(frontier) != [] && beamWidth < 1 ==>
        done && frontier == [] && visited == old(visited) && steps == old(steps) + 1 && pathLength == old(pathLength) &&
        grid.info == old(grid.info) && snap == Snapshot([], multiset{}, Some([]))
      ensures old(frontier) != [] && beamWidth >= 1 ==>
        visited == old(visited) + {old(frontier)[0]} && steps == old(steps) + 1 &&
        snap.frontier == frontier && snap.visited == multiset(visited)
      ensures old(frontier) != [] && beamWidth >= 1 && old(frontier)[0] == target ==>
        done && frontier == old(frontier)[1..Min(|old(frontier)|, beamWidth)] && grid.info == old(grid.info) &&
        Ranked(grid.info, rank) && target in rank &&
        snap.path == Some(ParentChain(grid.info, target, rank)) && pathLength == |snap.path.value|
      ensures old(frontier) != [] && beamWidth >= 1 && old(frontier)[0] != target ==>
        var rest := old(frontier)[1..Min(|old(frontier)|, beamWidth)];
        var added := Unseen(SortByDistance(Neighbors(grid.state, old(frontier)[0]), target), visited, rest);
        !done && snap.path == None && pathLength == old(pathLength) &&
        frontier == rest + added &&
        grid.info.Keys == old(grid.info).Keys &&
        (forall p :: p in grid.info ==>
          grid.info[p] == if p in added then old(grid.info)[p].(parent := Some(old(frontier)[0])) else old(grid.info)[p])
      ensures snap.path.Some? && snap.path.value != [] ==>
        var p := snap.path.value;
        p[0] == start && p[|p| - 1] == target && IsWalk(grid.state, p) && NoDuplicates(p) && |p| <= steps
    {
      if frontier == [] {
        done := true;
        return Snapshot([], multiset(visited), Some([]));
      }
      var failed := Trim();
      if failed || frontier == [] {
        // popleft (or pop) on the emptied deque raises IndexError.
        steps, done := steps + 1, true;
        return Snapshot([], multiset{}, Some([]));
      }
      var current := VisitHead();
      if current == target {
        snap := Finish(current);
      } else {
        snap := Expand(current);
      }
    }

    /** `while len(frontier) > beam_width: frontier.pop()`: drop entries from
        the tail down to beamWidth.  failed tells that a negative width made
        it pop from the empty deque. */
    method Trim() returns (failed: bool)
      requires Valid() && !done && frontier != []
      modifies this`frontier
      ensures failed <==> beamWidth < 0
      ensures beamWidth < 1 ==> frontier == []
      ensures beamWidth >= 1 ==> frontier == old(frontier)[..Min(|old(frontier)|, beamWidth)] && frontier != []
      ensures |frontier| <= Min(|old(frontier)|, if beamWidth < 0 then 0 else beamWidth)
      ensures frontier != [] ==> Valid()
    {
      assert RunHolds(Unfold);
      ghost var f0 := frontier;
      failed := false;
      while |frontier| > beamWidth
        invariant |frontier| <= |f0| && frontier == f0[..|frontier|]
        invariant frontier == [] ==> beamWidth <= 0
        invariant |frontier| < |f0| ==> |frontier| >= beamWidth
        decreases |frontier|
      {
        if frontier == [] {
          failed := true;
          return;
        }
        frontier := frontier[..|frontier| - 1];
      }
      if frontier != [] {
        TrimStep(grid.state, grid.info, start, visited, f0, rank, |frontier|);
      }
    }

    /** popleft, steps += 1 and visited.add: the queue's head becomes visited. */
    method VisitHead() returns (current: Pos)
      requires Valid() && !done && frontier != []
      modifies this`frontier, this`visited, this`steps, this`rank
      ensures Valid() && current == old(frontier)[0] && current !in old(visited)
      ensures frontier == old(frontier)[1..] && visited == old(visited) + {current} && steps == old(steps) + 1
    {
      current := frontier[0];
      assert RunHolds(Unfold);
      VisitFirst(grid.state, grid.info, start, visited, frontier, rank);
      if current in visited {
        // The queue never holds a visited node, so the source's `continue`
        // here is never taken.
        assert false;
      }
      frontier, visited, rank, steps := frontier[1..], visited + {current}, rank[current := |visited|], steps + 1;
    }

    /** The target was popped: reconstruct its path and end the run. */
    method Finish(current: Pos) returns (snap: Snapshot)
      requires Valid() && !done && current in visited
      modifies this`pathLength, this`done
      ensures Valid() && done && Ranked(grid.info, rank) && current in rank
      ensures snap == Snapshot(frontier, multiset(visited), Some(ParentChain(grid.info, current, rank)))
      ensures pathLength == |snap.path.value|
      ensures var p := snap.path.value;
        p[0] == start && p[|p| - 1] == current && IsWalk(grid.state, p) && NoDuplicates(p) && |p| <= steps
    {
      assert RunHolds(Unfold);
      var path := ReconstructPath(grid, current, rank);
      TreeRooted(grid.state, grid.info, start, visited, frontier, rank);
      FoundPath(grid.state, grid.info, start, visited, rank, current);
      pathLength := |path|;
      done := true;
      snap := Snapshot(frontier, multiset(visited), Some(path));
    }

    /** Sort the neighbours of the visited node current by distance to the
        target and append the unseen ones. */
    method Expand(current: Pos) returns (snap: Snapshot)
      requires Valid() && !done && current in visited
      modifies this`frontier, grid`info
      ensures Valid()
      ensures var added := Unseen(SortByDistance(Neighbors(grid.state, current), target), visited, old(frontier));
        frontier == old(frontier) + added &&
        grid.info.Keys == old(grid.info).Keys &&
        (forall p :: p in grid.info ==>
          grid.info[p] == if p in added then old(grid.info)[p].(parent := Some(current)) else old(grid.info)[p])
      ensures snap == Snapshot(frontier, multiset(visited), None)
    {
      assert RunHolds(Unfold);
      ghost var info0 := grid.info;
      var ns := Neighbors(grid.state, current);
      var order := SortByDistance(ns, target);
      SortFacts(ns, target);
      frontier := PushUnseen(grid, current, order, visited, frontier, false);
      ExpandStep(grid.state, info0, grid.info, start, visited, old(frontier), rank, current, order);
      snap := Snapshot(frontier, multiset(visited), None);
    }
  }
}
