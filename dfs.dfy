/**
 * DFSSolver and RandomizedDFSSolver: depth-first search over a list used as
 * a stack.  The plain strategy pushes the neighbours in reverse so that the
 * first one in neighbour order ends up on top; the randomized one shuffles
 * them first (random.shuffle, whose random choices are a parameter here).
 */
module DepthFirst {
  import opened Wrappers
  import opened Grids
  import opened Paths
  import opened Search

  /** s with the entries at i and j exchanged. */
  function Swap(s: seq<Pos>, i: int, j: int): (r: seq<Pos>)
    requires 0 <= i < |s| && 0 <= j < |s|
    ensures |r| == |s| && r[i] == s[j] && r[j] == s[i]
    ensures forall k :: 0 <= k < |s| && k != i && k != j ==> r[k] == s[k]
  {
    s[i := s[j]][j := s[i]]
  }

  /** random.shuffle's Fisher-Yates pass from position i down to 1: position
      i is exchanged with position draws[|s| - 1 - i] mod (i + 1), the value
      randbelow(i + 1) would have produced. */
  function ShuffleFrom(s: seq<Pos>, draws: seq<nat>, i: int): seq<Pos>
    requires i < |s| && |s| <= |draws| + 1
    decreases i
  {
    if i <= 0 then s
    else ShuffleFrom(Swap(s, i, draws[|s| - 1 - i] % (i + 1)), draws, i - 1)
  }

  /** random.shuffle(s) with the given random choices. */
  function Shuffled(s: seq<Pos>, draws: seq<nat>): seq<Pos>
    requires |s| <= |draws| + 1
  {
    ShuffleFrom(s, draws, |s| - 1)
  }

  lemma SwapPermutes(s: seq<Pos>, i: int, j: int)
    requires 0 <= i < |s| && 0 <= j < |s|
    ensures multiset(Swap(s, i, j)) == multiset(s)
  {
    if i != j {
      var t := s[i := s[j]];
      assert multiset(t) == multiset(s) - multiset{s[i]} + multiset{s[j]};
      assert multiset(t[j := s[i]]) == multiset(t) - multiset{t[j]} + multiset{s[i]};
    }
  }

  /** Shuffling only reorders: the result is a permutation of the input. */
  lemma {:induction false} ShuffleFromPermutes(s: seq<Pos>, draws: seq<nat>, i: int)
    requires i < |s| && |s| <= |draws| + 1
    ensures |ShuffleFrom(s, draws, i)| == |s|
    ensures multiset(ShuffleFrom(s, draws, i)) == multiset(s)
    decreases i
  {
    if i > 0 {
      var j := draws[|s| - 1 - i] % (i + 1);
      SwapPermutes(s, i, j);
      ShuffleFromPermutes(Swap(s, i, j), draws, i - 1);
    }
  }

  /** The shuffled neighbour list holds the same cells, each as often, so it
      still has no repeats. */
  lemma ShuffledPermutes(s: seq<Pos>, draws: seq<nat>)
    requires |s| <= |draws| + 1
    ensures var r := Shuffled(s, draws);
      |r| == |s| && multiset(r) == multiset(s) && (forall x :: x in r <==> x in s) &&
      (NoDuplicates(s) ==> NoDuplicates(r))
  {
    var r := Shuffled(s, draws);
    ShuffleFromPermutes(s, draws, |s| - 1);
    PermutedMembers(r, s);
    if NoDuplicates(s) {
      PermutedDistinct(s, r);
    }
  }

  /** Two lists with the same multiset of cells hold the same cells. */
  lemma PermutedMembers(r: seq<Pos>, s: seq<Pos>)
    requires multiset(r) == multiset(s)
    ensures forall x :: x in r <==> x in s
  {
    forall x ensures x in r <==> x in s {
      assert x in r <==> x in multiset(r);
      assert x in s <==> x in multiset(s);
    }
  }

  /** A reordering of a list without repeats has none either. */
  lemma PermutedDistinct(s: seq<Pos>, r: seq<Pos>)
    requires multiset(r) == multiset(s) && NoDuplicates(s)
    ensures NoDuplicates(r)
  {
    if !NoDuplicates(r) {
      var i, j :| 0 <= i < j < |r| && r[i] == r[j];
      assert multiset(r)[r[i]] >= 2 by {
        assert r == r[..i] + [r[i]] + r[i + 1..j] + [r[j]] + r[j + 1..];
      }
      DistinctCount(s, r[i]);
      assert false;
    }
  }

  /** In a sequence without repeats every element occurs once. */
  lemma {:induction false} DistinctCount(s: seq<Pos>, x: Pos)
    requires NoDuplicates(s)
    ensures multiset(s)[x] <= 1
    decreases |s|
  {
    if s != [] {
      DistinctCount(s[1..], x);
      assert s == [s[0]] + s[1..];
      if s[0] == x {
        assert x !in s[1..];
      }
    }
  }

  /** random.shuffle on the list in place. */
  method Shuffle(a: array<Pos>, draws: seq<nat>)
    requires a.Length <= |draws| + 1
    modifies a
    ensures a[..] == Shuffled(old(a[..]), draws)
  {
    var i := a.Length - 1;
    while i > 0
      invariant i < a.Length
      invariant ShuffleFrom(a[..], draws, i) == Shuffled(old(a[..]), draws)
      decreases i
    {
      var j := draws[a.Length - 1 - i] % (i + 1);
      ghost var before := a[..];
      Exchange(a, i, j);
      ShuffleStep(before, draws, i, j);
      i := i - 1;
    }
  }

  /** random.shuffle on a copy of the neighbour list: the shuffled order,
      holding the same cells. */
  method ShuffleList(ns: seq<Pos>, draws: seq<nat>) returns (order: seq<Pos>)
    requires |ns| <= |draws| + 1
    ensures order == Shuffled(ns, draws)
    ensures |order| == |ns| && multiset(order) == multiset(ns) && (forall x :: x in order <==> x in ns)
  {
    var a := new Pos[|ns|](k requires 0 <= k < |ns| => ns[k]);
    assert a[..] == ns;
    Shuffle(a, draws);
    order := a[..];
    ShuffledPermutes(ns, draws);
  }

  /** One exchange of the Fisher-Yates pass, then the rest of the pass. */
  lemma ShuffleStep(s: seq<Pos>, draws: seq<nat>, i: int, j: int)
    requires 0 < i < |s| && |s| <= |draws| + 1 && j == draws[|s| - 1 - i] % (i + 1)
    ensures ShuffleFrom(s, draws, i) == ShuffleFrom(Swap(s, i, j), draws, i - 1)
  {
  }

  /** One exchange of the shuffle: the entries at i and j trade places. */
  method Exchange(a: array<Pos>, i: int, j: int)
    requires 0 <= i < a.Length && 0 <= j < a.Length
    modifies a
    ensures a[..] == Swap(old(a[..]), i, j)
  {
    a[i], a[j] := a[j], a[i];
  }

  lemma ReverseMembers(s: seq<Pos>)
    ensures forall x :: x in Reverse(s) <==> x in s
  {
    var r := Reverse(s);
    forall x ensures x in r <==> x in s {
      if x in r {
        var i :| 0 <= i < |r| && r[i] == x;
        assert s[|s| - 1 - i] == x;
      }
      if x in s {
        var i :| 0 <= i < |s| && s[i] == x;
        assert r[|s| - 1 - i] == x;
      }
    }
  }

  /** Pushing the neighbours reversed leaves the first new one, in neighbour
      order, on top of the stack. */
  lemma FirstFreshOnTop(ns: seq<Pos>, visited: set<Pos>, frontier: seq<Pos>, j: int)
    requires NoDuplicates(ns) && 0 <= j < |ns| && ns[j] !in visited && ns[j] !in frontier
    requires forall k :: 0 <= k < j ==> ns[k] in visited || ns[k] in frontier
    ensures var u := Unseen(Reverse(ns), visited, frontier); u != [] && u[|u| - 1] == ns[j]
  {
    var r := Reverse(ns);
    forall i, k | 0 <= i < k < |r| ensures r[i] != r[k] {
      assert r[i] == ns[|ns| - 1 - i] && r[k] == ns[|ns| - 1 - k];
    }
    var jr := |ns| - 1 - j;
    assert r[jr] == ns[j];
    forall k | jr < k < |r| ensures r[k] in visited || r[k] in frontier {
      assert r[k] == ns[|ns| - 1 - k];
    }
    UnseenLast(r, visited, frontier, jr);
  }

  class DfsSolver {
    const grid: Grid
    const start: Pos
    const target: Pos
    var frontier: seq<Pos>
    var visited: set<Pos>
    var steps: nat
    var pathLength: nat
    /** The generator has returned. */
    var done: bool
    /** Visit order, the termination measure of parent chains. */
    ghost var rank: map<Pos, nat>

    ghost predicate Valid()
      reads this, grid
    {
      grid.info.Keys == grid.state.Keys && steps == |visited| &&
      forall u: Unfolding {:trigger RunHolds(u)} :: RunHolds(u)
    }

    /** The invariant of the run, opened only where a proof names
        RunHolds(Unfold). */
    ghost predicate RunHolds(u: Unfolding)
      reads this`frontier, this`visited, this`rank, grid`state, grid`info
    {
      TreeInv(grid.state, grid.info, start, visited, frontier, rank)
    }

    /** solve's prologue: the stack holds the start, nothing is visited, and
        the start loses its parent. */
    constructor (g: Grid)
      requires g.Valid()
      modifies g`info
      ensures Valid() && grid == g && start == g.startPos && target == g.targetPos
      ensures frontier == [start] && visited == {} && steps == 0 && pathLength == 0 && !done
      ensures g.info == old(g.info)[start := old(g.info)[start].(parent := None)]
    {
      grid := g;
      start := g.startPos;
      target := g.targetPos;
      frontier := [g.startPos];
      visited := {};
      steps := 0;
      pathLength := 0;
      done := false;
      rank := map[];
      new;
      g.info := g.info[start := g.info[start].(parent := None)];
      InitialTree(g.state, g.info, start);
    }

    /** One resumption of the generator: pop the top of the stack, visit it,
        and either return the reconstructed path (target reached) or push its
        unseen neighbours in reverse neighbour order; an empty stack ends the
        run with an empty path. */
    method Advance() returns (snap: Snapshot)
      requires Valid() && !done
      modifies this, grid`info
      ensures Valid()
      ensures old(frontier) == [] ==>
        done && frontier == [] && visited == old(visited) && steps == old(steps) && pathLength == old(pathLength) &&
        grid.info == old(grid.info) && snap == Snapshot([], multiset(visited), Some([]))
      ensures old(frontier) != [] ==>
        var top := old(frontier)[|old(frontier)| - 1];
        visited == old(visited) + {top} && steps == old(steps) + 1 &&
        snap.frontier == frontier && snap.visited == multiset(visited)
      ensures old(frontier) != [] && old(frontier)[|old(frontier)| - 1] == target ==>
        Ranked(grid.info, rank) && target in rank
      ensures old(frontier) != [] && old(frontier)[|old(frontier)| - 1] == target ==>
        done && frontier == old(frontier)[..|old(frontier)| - 1] && grid.info == old(grid.info) &&
        snap.path == Some(ParentChain(grid.info, target, rank)) && pathLength == |snap.path.value|
      ensures old(frontier) != [] && old(frontier)[|old(frontier)| - 1] != target ==>
        !done && snap.path == None && pathLength == old(pathLength)
      ensures old(frontier) != [] && old(frontier)[|old(frontier)| - 1] != target ==>
        var top := old(frontier)[|old(frontier)| - 1];
        var rest := old(frontier)[..|old(frontier)| - 1];
        var added := Unseen(Reverse(Neighbors(grid.state, top)), visited, rest);
        frontier == rest + added &&
        grid.info.Keys == old(grid.info).Keys &&
        (forall p :: p in grid.info ==>
          grid.info[p] == if p in added then old(grid.info)[p].(parent := Some(top)) else old(grid.info)[p])
      ensures snap.path.Some? && snap.path.value != [] ==>
        var p := snap.path.value;
        p[0] == start && p[|p| - 1] == target && IsWalk(grid.state, p) && NoDuplicates(p) && |p| <= steps
    {
      if frontier == [] {
        done := true;
        return Snapshot([], multiset(visited), Some([]));
      }
      var current := VisitTop();
      if current == target {
        snap := Finish(current);
      } else {
        snap := Expand(current);
      }
    }

    /** frontier.pop() and visited.add: the top of the stack becomes visited. */
    method VisitTop() returns (current: Pos)
      requires Valid() && !done && frontier != []
      modifies this`frontier, this`visited, this`steps, this`rank
      ensures Valid() && current == old(frontier)[|old(frontier)| - 1] && current !in old(visited)
      ensures frontier == old(frontier)[..|old(frontier)| - 1] && visited == old(visited) + {current}
      ensures steps == old(steps) + 1
    {
      current := frontier[|frontier| - 1];
      assert RunHolds(Unfold);
      VisitLast(grid.state, grid.info, start, visited, frontier, rank);
      if current in visited {
        // The stack never holds a visited node, so the source's `continue`
        // here is never taken.
        assert false;
      }
      frontier, visited, rank, steps :=
        frontier[..|frontier| - 1], visited + {current}, rank[current := |visited|], steps + 1;
    }

    /** The target was popped: reconstruct its path and end the run. */
    method Finish(current: Pos) returns (snap: Snapshot)
      requires Valid() && current in visited
      modifies this`pathLength, this`done
      ensures Valid() && done && Ranked(grid.info, rank) && current in rank
      ensures snap == Snapshot(frontier, multiset(visited), Some(ParentChain(grid.info, current, rank)))
      ensures pathLength == |snap.path.value|
      ensures var p := snap.path.value;
        p[0] == start && p[|p| - 1] == current && IsWalk(grid.state, p) && NoDuplicates(p) && |p| <= steps
    {
      assert RunHolds(Unfold);
      var path := ReconstructPath(grid, current, rank);
      TreeRooted(grid.state, grid.info, start, visited, frontier, rank);
      FoundPath(grid.state, grid.info, start, visited, rank, current);
      pathLength := |path|;
      done := true;
      snap := Snapshot(frontier, multiset(visited), Some(path));
    }

    /** Push the unseen neighbours of the visited node current, last
        neighbour first. */
    method Expand(current: Pos) returns (snap: Snapshot)
      requires Valid() && current in visited
      modifies this`frontier, grid`info
      ensures Valid()
      ensures var added := Unseen(Reverse(Neighbors(grid.state, current)), visited, old(frontier));
        frontier == old(frontier) + added &&
        grid.info.Keys == old(grid.info).Keys &&
        (forall p :: p in grid.info ==>
          grid.info[p] == if p in added then old(grid.info)[p].(parent := Some(current)) else old(grid.info)[p])
      ensures snap == Snapshot(frontier, multiset(visited), None)
    {
      assert RunHolds(Unfold);
      ghost var info0 := grid.info;
      var ns := Neighbors(grid.state, current);
      ReverseMembers(ns);
      var order := Reverse(ns);
      frontier := PushUnseen(grid, current, order, visited, frontier, false);
      ExpandStep(grid.state, info0, grid.info, start, visited, old(frontier), rank, current, order);
      snap := Snapshot(frontier, multiset(visited), None);
    }
  }

  class RandomizedDfsSolver {
    const grid: Grid
    const start: Pos
    const target: Pos
    var frontier: seq<Pos>
    var visited: set<Pos>
    var steps: nat
    var pathLength: nat
    /** The generator has returned. */
    var done: bool
    /** Visit order, the termination measure of parent chains. */
    ghost var rank: map<Pos, nat>

    ghost predicate Valid()
      reads this, grid
    {
      grid.info.Keys == grid.state.Keys && steps == |visited| &&
      forall u: Unfolding {:trigger RunHolds(u)} :: RunHolds(u)
    }

    /** The invariant of the run, opened only where a proof names
        RunHolds(Unfold). */
    ghost predicate RunHolds(u: Unfolding)
      reads this`frontier, this`visited, this`rank, grid`state, grid`info
    {
      TreeInv(grid.state, grid.info, start, visited, frontier, rank)
    }

    /** solve's prologue, as for the plain depth-first strategy. */
    constructor (g: Grid)
      requires g.Valid()
      modifies g`info
      ensures Valid() && grid == g && start == g.startPos && target == g.targetPos
      ensures frontier == [start] && visited == {} && steps == 0 && pathLength == 0 && !done
      ensures g.info == old(g.info)[start := old(g.info)[start].(parent := None)]
    {
      grid := g;
      start := g.startPos;
      target := g.targetPos;
      frontier := [g.startPos];
      visited := {};
      steps := 0;
      pathLength := 0;
      done := false;
      rank := map[];
      new;
      g.info := g.info[start := g.info[start].(parent := None)];
      InitialTree(g.state, g.info, start);
    }

    /** One resumption of the generator, with `draws` the random choices the
        shuffle of this expansion makes: pop and visit the top of the stack,
        then either return the path or push the unseen neighbours in shuffled
        order. */
    method Advance(draws: seq<nat>) returns (snap: Snapshot)
      requires Valid() && !done && |draws| >= 5
      modifies this, grid`info
      ensures Valid()
      ensures old(frontier) == [] ==>
        done && frontier == [] && visited == old(visited) && steps == old(steps) && pathLength == old(pathLength) &&
        grid.info == old(grid.info) && snap == Snapshot([], multiset(visited), Some([]))
      ensures old(frontier) != [] ==>
        var top := old(frontier)[|old(frontier)| - 1];
        visited == old(visited) + {top} && steps == old(steps) + 1 &&
        snap.frontier == frontier && snap.visited == multiset(visited)
      ensures old(frontier) != [] && old(frontier)[|old(frontier)| - 1] == target ==>
        Ranked(grid.info, rank) && target in rank
      ensures old(frontier) != [] && old(frontier)[|old(frontier)| - 1] == target ==>
        done && frontier == old(frontier)[..|old(frontier)| - 1] && grid.info == old(grid.info) &&
        snap.path == Some(ParentChain(grid.info, target, rank)) && pathLength == |snap.path.value|
      ensures old(frontier) != [] && old(frontier)[|old(frontier)| - 1] != target ==>
        var top := old(frontier)[|old(frontier)| - 1];
        var rest := old(frontier)[..|old(frontier)| - 1];
        var added := Unseen(Shuffled(Neighbors(grid.state, top), draws), visited, rest);
        !done && snap.path == None && pathLength == old(pathLength) &&
        frontier == rest + added &&
        grid.info.Keys == old(grid.info).Keys &&
        (forall p :: p in grid.info ==>
          grid.info[p] == if p in added then old(grid.info)[p].(parent := Some(top)) else old(grid.info)[p])
      ensures snap.path.Some? && snap.path.value != [] ==>
        var p := snap.path.value;
        p[0] == start && p[|p| - 1] == target && IsWalk(grid.state, p) && NoDuplicates(p) && |p| <= steps
    {
      if frontier == [] {
        done := true;
        return Snapshot([], multiset(visited), Some([]));
      }
      var current := VisitTop();
      if current == target {
        snap := Finish(current);
      } else {
        snap := Expand(current, draws);
      }
    }

    /** frontier.pop() and visited.add. */
    method VisitTop() returns (current: Pos)
      requires Valid() && !done && frontier != []
      modifies this`frontier, this`visited, this`steps, this`rank
      ensures Valid() && current == old(frontier)[|old(frontier)| - 1] && current !in old(visited)
      ensures frontier == old(frontier)[..|old(frontier)| - 1] && visited == old(visited) + {current}
      ensures steps == old(steps) + 1
    {
      current := frontier[|frontier| - 1];
      assert RunHolds(Unfold);
      VisitLast(grid.state, grid.info, start, visited, frontier, rank);
      if current in visited {
        // The stack never holds a visited node, so the source's `continue`
        // here is never taken.
        assert false;
      }
      frontier, visited, rank, steps :=
        frontier[..|frontier| - 1], visited + {current}, rank[current := |visited|], steps + 1;
    }

    /** The target was popped: reconstruct its path and end the run. */
    method Finish(current: Pos) returns (snap: Snapshot)
      requires Valid() && current in visited
      modifies this`pathLength, this`done
      ensures Valid() && done && Ranked(grid.info, rank) && current in rank
      ensures snap == Snapshot(frontier, multiset(visited), Some(ParentChain(grid.info, current, rank)))
      ensures pathLength == |snap.path.value|
      ensures var p := snap.path.value;
        p[0] == start && p[|p| - 1] == current && IsWalk(grid.state, p) && NoDuplicates(p) && |p| <= steps
    {
      assert RunHolds(Unfold);
      var path := ReconstructPath(grid, current, rank);
      TreeRooted(grid.state, grid.info, start, visited, frontier, rank);
      FoundPath(grid.state, grid.info, start, visited, rank, current);
      pathLength := |path|;
      done := true;
      snap := Snapshot(frontier, multiset(visited), Some(path));
    }

    /** Shuffle the neighbour list in place, then push its unseen entries in
        that order. */
    method Expand(current: Pos, draws: seq<nat>) returns (snap: Snapshot)
      requires Valid() && current in visited && |draws| >= 5
      modifies this`frontier, grid`info
      ensures Valid()
      ensures var added := Unseen(Shuffled(Neighbors(grid.state, current), draws), visited, old(frontier));
        frontier == old(frontier) + added &&
        grid.info.Keys == old(grid.info).Keys &&
        (forall p :: p in grid.info ==>
          grid.info[p] == if p in added then old(grid.info)[p].(parent := Some(current)) else old(grid.info)[p])
      ensures snap == Snapshot(frontier, multiset(visited), None)
    {
      assert RunHolds(Unfold);
      ghost var info0 := grid.info;
      var order := ShuffleList(Neighbors(grid.state, current), draws);
      frontier := PushUnseen(grid, current, order, visited, frontier, false);
      ExpandStep(grid.state, info0, grid.info, start, visited, old(frontier), rank, current, order);
      snap := Snapshot(frontier, multiset(visited), None);
    }
  }
}
