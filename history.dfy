/**
 * The step driver of SearchAlgorithmSimulator: the rewind history of state
 * tables, rewinding and restoring, and the application of one solver yield
 * (frontier, visited, path) to the cell states and the telemetry counts.
 *
 * The solver generator is not called here: a step takes what it yielded,
 * None standing for StopIteration, and the solver's step count.
 */
module Simulator {
  import opened Wrappers
  import opened Grids
  import opened Search

  /** max_history_size. */
  const MaxHistorySize := 1000

  /** The marks a repaint or a restore never overwrites. */
  predicate Fixed(x: NodeState) {
    x == Start || x == Target || x == Wall
  }

  /** The table s with every cell that is not START, TARGET or WALL taken
      from o. */
  function Overlay(s: map<Pos, NodeState>, o: map<Pos, NodeState>): (r: map<Pos, NodeState>)
    requires s.Keys <= o.Keys
    ensures r.Keys == s.Keys
    ensures forall p :: p in s && Fixed(s[p]) ==> r[p] == s[p]
    ensures forall p :: p in s && !Fixed(s[p]) ==> r[p] == o[p]
  {
    map p | p in s :: if Fixed(s[p]) then s[p] else o[p]
  }

  /** A table of EMPTY cells over the cells of s. */
  function Blank(s: map<Pos, NodeState>): (r: map<Pos, NodeState>)
    ensures r.Keys == s.Keys && forall p :: p in r ==> r[p] == Empty
  {
    map p | p in s :: Empty
  }

  /** Whether a pass over a list of cells rewrites a cell holding x: never
      START or TARGET, and with skipFrontier never FRONTIER. */
  predicate Markable(x: NodeState, skipFrontier: bool) {
    x != Start && x != Target && !(skipFrontier && x == Frontier)
  }

  /** One pass over a list of cells, giving mark to each markable cell. */
  function Mark(s: map<Pos, NodeState>, cells: set<Pos>, mark: NodeState, skipFrontier: bool): map<Pos, NodeState> {
    map p | p in s :: if p in cells && Markable(s[p], skipFrontier) then mark else s[p]
  }

  /** All four passes for one yield: clear every cell that is not START,
      TARGET or WALL, then mark the frontier, then the visited cells that are
      not frontier, then the path, which is only painted when non-empty. */
  function Repaint(s: map<Pos, NodeState>, snap: Snapshot): map<Pos, NodeState> {
    var s1 := Mark(Overlay(s, Blank(s)), Members(snap.frontier), Frontier, false);
    var s2 := Mark(s1, (set x | x in snap.visited), Visited, true);
    if snap.path.Some? && snap.path.value != [] then Mark(s2, Members(snap.path.value), Path, false) else s2
  }

  /** The state a repaint gives one cell: START and TARGET stay; otherwise a
      cell of the path is PATH, then a frontier cell FRONTIER, then a visited
      cell VISITED; a remaining WALL stays and every other cell is EMPTY. */
  function Painted(x: NodeState, inFrontier: bool, inVisited: bool, inPath: bool): NodeState {
    if x == Start || x == Target then x
    else if inPath then Path
    else if inFrontier then Frontier
    else if inVisited then Visited
    else if x == Wall then Wall
    else Empty
  }

  /** The four passes in sequence paint every cell by Painted. */
  lemma RepaintCells(s: map<Pos, NodeState>, snap: Snapshot)
    ensures var r := Repaint(s, snap);
      r.Keys == s.Keys &&
      forall p :: p in s ==>
        r[p] == Painted(s[p], p in snap.frontier, p in snap.visited,
                        snap.path.Some? && p in snap.path.value)
  {
    forall p | p in s
      ensures Repaint(s, snap)[p] == Painted(s[p], p in snap.frontier, p in snap.visited, snap.path.Some? && p in snap.path.value)
    {
      RepaintCell(s, snap, p);
    }
  }

  /** RepaintCells for the single cell p. */
  lemma RepaintCell(s: map<Pos, NodeState>, snap: Snapshot, p: Pos)
    requires p in s
    ensures p in Repaint(s, snap)
    ensures Repaint(s, snap)[p] == Painted(s[p], p in snap.frontier, p in snap.visited,
                                           snap.path.Some? && p in snap.path.value)
  {
    var s0 := Overlay(s, Blank(s));
    assert s0[p] == if Fixed(s[p]) then s[p] else Empty;
    var s1 := Mark(s0, Members(snap.frontier), Frontier, false);
    assert s1[p] == if p in snap.frontier && Markable(s0[p], false) then Frontier else s0[p];
    var s2 := Mark(s1, (set x | x in snap.visited), Visited, true);
    assert s2[p] == if p in snap.visited && Markable(s1[p], true) then Visited else s1[p];
  }

  /** Repainting with the same yield twice paints as once. */
  lemma RepaintIdempotent(s: map<Pos, NodeState>, snap: Snapshot)
    ensures Repaint(Repaint(s, snap), snap) == Repaint(s, snap)
  {
    var r := Repaint(s, snap);
    RepaintCells(s, snap);
    RepaintCells(r, snap);
  }

  /** a and b hold the same cells and the same START, TARGET and WALL marks. */
  ghost predicate SameFixed(a: map<Pos, NodeState>, b: map<Pos, NodeState>) {
    a.Keys == b.Keys && forall p :: p in a ==> (Fixed(a[p]) || Fixed(b[p]) ==> a[p] == b[p])
  }

  /** No cell that is a WALL in s is listed in the yield. */
  ghost predicate NoWallListed(s: map<Pos, NodeState>, snap: Snapshot) {
    forall p :: p in s && s[p] == Wall ==>
      p !in snap.frontier && p !in snap.visited && (snap.path.Some? ==> p !in snap.path.value)
  }

  lemma SameFixedTrans(a: map<Pos, NodeState>, b: map<Pos, NodeState>, c: map<Pos, NodeState>)
    requires SameFixed(a, b) && SameFixed(b, c)
    ensures SameFixed(a, c)
  {
  }

  /** A repaint keeps START and TARGET, and keeps every WALL the yield does
      not list. */
  lemma RepaintKeepsFixed(s: map<Pos, NodeState>, snap: Snapshot)
    requires NoWallListed(s, snap)
    ensures SameFixed(Repaint(s, snap), s)
  {
    RepaintCells(s, snap);
  }

  /** A repaint listing no WALL keeps the marks every entry shares with base. */
  lemma RepaintStable(s: map<Pos, NodeState>, snap: Snapshot, base: map<Pos, NodeState>)
    requires SameFixed(s, base) && NoWallListed(s, snap)
    ensures SameFixed(Repaint(s, snap), base)
  {
    RepaintKeepsFixed(s, snap);
    SameFixedTrans(Repaint(s, snap), s, base);
  }

  /** Restoring a saved table over one with the same fixed marks gives the
      saved table back exactly. */
  lemma RestoreExact(s: map<Pos, NodeState>, h: map<Pos, NodeState>)
    requires SameFixed(s, h)
    ensures Overlay(s, h) == h
  {
  }

  /** The history after saving s: the oldest entry is dropped first when it is
      full, then s is appended. */
  function Saved(h: seq<map<Pos, NodeState>>, s: map<Pos, NodeState>): seq<map<Pos, NodeState>> {
    (if |h| >= MaxHistorySize then h[1..] else h) + [s]
  }

  /** Saving keeps the newest entries: s last, before it the latest
      min(|h|, max - 1) entries of h in order, and never more than the
      maximum. */
  lemma SavedNewest(h: seq<map<Pos, NodeState>>, s: map<Pos, NodeState>)
    requires |h| <= MaxHistorySize
    ensures var r := Saved(h, s);
      |r| == (if |h| < MaxHistorySize then |h| + 1 else MaxHistorySize) &&
      r[|r| - 1] == s && r[..|r| - 1] == h[|h| - (|r| - 1)..]
  {
    var r := Saved(h, s);
    assert r[..|r| - 1] == if |h| >= MaxHistorySize then h[1..] else h;
  }

  /** One run of a row-by-row pass over the cells (r, 0) .. (r, cols - 1):
      those that hold none of the fixed marks take o's state. */
  method OverlayRow(s0: map<Pos, NodeState>, o: map<Pos, NodeState>, r: int, cols: int) returns (s: map<Pos, NodeState>)
    requires s0.Keys <= o.Keys && cols >= 0
    ensures s.Keys == s0.Keys
    ensures forall p :: p in s && p.row == r && 0 <= p.col < cols ==> s[p] == Overlay(s0, o)[p]
    ensures forall p :: p in s && !(p.row == r && 0 <= p.col < cols) ==> s[p] == s0[p]
  {
    s := s0;
    for c := 0 to cols
      invariant s.Keys == s0.Keys
      invariant forall p :: p in s && p.row == r && 0 <= p.col < c ==> s[p] == Overlay(s0, o)[p]
      invariant forall p :: p in s && !(p.row == r && 0 <= p.col < c) ==> s[p] == s0[p]
    {
      var p := Pos(r, c);
      if p in s && !Fixed(s[p]) {
        s := s[p := o[p]];
      }
    }
  }

  /** The nested loop over the rows x cols cells applying Overlay. */
  method OverlayGrid(s0: map<Pos, NodeState>, o: map<Pos, NodeState>, rows: int, cols: int) returns (s: map<Pos, NodeState>)
    requires s0.Keys <= o.Keys && rows >= 0 && cols >= 0
    requires forall p :: p in s0 <==> 0 <= p.row < rows && 0 <= p.col < cols
    ensures s == Overlay(s0, o)
  {
    s := s0;
    for r := 0 to rows
      invariant s.Keys == s0.Keys
      invariant forall p :: p in s && p.row < r ==> s[p] == Overlay(s0, o)[p]
      invariant forall p :: p in s && p.row >= r ==> s[p] == s0[p]
    {
      s := OverlayRow(s, o, r, cols);
    }
  }

  /** One pass over the cells of a list, one cell at a time. */
  method MarkCells(s0: map<Pos, NodeState>, cells: set<Pos>, mark: NodeState, skipFrontier: bool) returns (s: map<Pos, NodeState>)
    ensures s == Mark(s0, cells, mark, skipFrontier)
  {
    s := s0;
    var rest := cells;
    while rest != {}
      invariant rest <= cells
      invariant s.Keys == s0.Keys
      invariant forall p :: p in s ==>
        s[p] == if p in cells - rest && Markable(s0[p], skipFrontier) then mark else s0[p]
      decreases rest
    {
      var p :| p in rest;
      if p in s && Markable(s[p], skipFrontier) {
        s := s[p := mark];
      }
      rest := rest - {p};
    }
  }

  /** The four repaint loops of one yield over a rows x cols table. */
  method RepaintTable(s0: map<Pos, NodeState>, snap: Snapshot, rows: int, cols: int) returns (s: map<Pos, NodeState>)
    requires rows >= 0 && cols >= 0
    requires forall p :: p in s0 <==> 0 <= p.row < rows && 0 <= p.col < cols
    ensures s == Repaint(s0, snap) && s.Keys == s0.Keys
  {
    RepaintCells(s0, snap);
    s := OverlayGrid(s0, Blank(s0), rows, cols);
    s := MarkCells(s, Members(snap.frontier), Frontier, false);
    s := MarkCells(s, (set x | x in snap.visited), Visited, true);
    if snap.path.Some? && |snap.path.value| > 0 {
      s := MarkCells(s, Members(snap.path.value), Path, false);
    }
  }

  /** The counts of search_stats shown by the telemetry panel. */
  datatype Stats = Stats(steps: nat, pathLength: nat, nodesVisited: nat, frontierSize: nat)

  /**
   * The run state of SearchAlgorithmSimulator: the grid, the rewind history
   * with its index, the is_running / is_paused flags, whether a solver
   * generator is live, and the telemetry counts.
   */
  class Simulator {
    const grid: Grid
    /** state_history: the state table saved before each single step. */
    var history: seq<map<Pos, NodeState>>
    /** current_history_index. */
    var index: int
    var running: bool
    var paused: bool
    /** solver_generator is not None. */
    var active: bool
    var stats: Stats
    /** Whether a rewind happened since the run began. */
    ghost var rewound: bool
    /** The table when the run began. */
    ghost var base: map<Pos, NodeState>

    ghost predicate Valid()
      reads this`history, this`index, this`rewound, grid
    {
      grid.Valid() && |history| <= MaxHistorySize &&
      (history == [] ==> index == -1) &&
      (history != [] ==> 0 <= index < |history|) &&
      (!rewound ==> index == |history| - 1) &&
      forall k :: 0 <= k < |history| ==> history[k].Keys == grid.state.Keys
    }

    /** The table and every saved entry carry the fixed marks of the run's
        first table. */
    ghost predicate Stable()
      reads this`history, this`base, grid`state
    {
      SameFixed(grid.state, base) && forall k :: 0 <= k < |history| ==> SameFixed(history[k], base)
    }

    constructor(g: Grid)
      requires g.Valid()
      ensures Valid() && Stable() && grid == g
      ensures history == [] && !running && !paused && !active && stats == Stats(0, 0, 0, 0)
    {
      grid := g;
      history := [];
      index := -1;
      running, paused, active := false, false, false;
      stats := Stats(0, 0, 0, 0);
      rewound := false;
      base := g.state;
    }

    /** What _on_run and _on_step_forward do to start a run: reset the
        search marks, start the generator, zero the counts, empty the
        history. */
    method Begin(stepMode: bool)
      requires Valid()
      modifies this, grid`state, grid`info, grid`startPos, grid`targetPos
      ensures Valid() && Stable() && grid.SearchCleared()
      ensures grid.startPos == old(grid.startPos) && grid.targetPos == old(grid.targetPos)
      ensures grid.state == ResetStates(old(grid.state), grid.startPos, grid.targetPos)
      ensures running && paused == stepMode && active && stats == Stats(0, 0, 0, 0)
      ensures history == [] && index == -1 && !rewound
    {
      grid.ResetSearch();
      running, paused, active := true, stepMode, true;
      stats := Stats(0, 0, 0, 0);
      history, index := [], -1;
      rewound, base := false, grid.state;
    }

    /** _on_run: starts a run unless one is going. */
    method Run()
      requires Valid()
      modifies this, grid`state, grid`info, grid`startPos, grid`targetPos
      ensures Valid()
      ensures old(running) ==> unchanged(this) && unchanged(grid)
      ensures !old(running) ==>
        Stable() && running && !paused && active && history == [] && index == -1 && !rewound &&
        stats == Stats(0, 0, 0, 0) && grid.SearchCleared() &&
        grid.startPos == old(grid.startPos) && grid.targetPos == old(grid.targetPos) &&
        grid.state == ResetStates(old(grid.state), grid.startPos, grid.targetPos)
    {
      if !running {
        Begin(false);
      }
    }

    /** _on_pause: toggles pausing while a run is going. */
    method Pause()
      modifies this`paused
      ensures paused == (if running then !old(paused) else old(paused))
    {
      if running {
        paused := !paused;
      }
    }

    /** _save_current_state_to_history: append the current table, dropping
        the oldest entry first when the history is full. */
    method Save()
      requires Valid()
      modifies this`history, this`index
      ensures Valid()
      ensures history == Saved(old(history), grid.state)
      ensures index == if |old(history)| >= MaxHistorySize then old(index) else old(index) + 1
      ensures old(Stable()) ==> Stable()
    {
      var snapshot := grid.state;
      if |history| >= MaxHistorySize {
        history := history[1..];
        index := index - 1;
      }
      history := history + [snapshot];
      index := index + 1;
    }

    /** _restore_state_from_history: an index out of range changes nothing;
        otherwise the saved states come back on every cell that is not
        START, TARGET or WALL, which gives the saved table back exactly. */
    method Restore(k: int)
      requires Valid()
      modifies grid`state
      ensures Valid()
      ensures grid.state == if 0 <= k < |history| then Overlay(old(grid.state), history[k]) else old(grid.state)
      ensures old(Stable()) ==> Stable() && (0 <= k < |history| ==> grid.state == history[k])
    {
      if k < 0 || k >= |history| {
        return;
      }
      var h := history[k];
      var s := OverlayGrid(grid.state, h, grid.rows, grid.cols);
      if Stable() {
        SameFixedTrans(grid.state, base, h);
        RestoreExact(grid.state, h);
      }
      grid.state := s;
    }

    /** _on_rewind: unless the index is 0 (or there is no history), move it
        back one entry, restore that entry and pause. */
    method Rewind()
      requires Valid()
      modifies this`index, this`paused, this`rewound, grid`state
      ensures Valid()
      ensures old(index) <= 0 ==> index == old(index) && paused == old(paused) && grid.state == old(grid.state)
      ensures old(index) > 0 ==>
        index == old(index) - 1 && paused &&
        grid.state == Overlay(old(grid.state), history[index])
      ensures old(Stable()) ==> Stable() && (old(index) > 0 ==> grid.state == history[index])
    {
      if index > 0 {
        index := index - 1;
        rewound := true;
        Restore(index);
        paused := true;
      }
    }

    /** The repaint loops of one yield applied to the grid. */
    method Paint(snap: Snapshot)
      requires Valid()
      modifies grid`state
      ensures Valid()
      ensures grid.state == Repaint(old(grid.state), snap)
      ensures old(Stable()) && NoWallListed(old(grid.state), snap) ==> Stable()
    {
      var s := RepaintTable(grid.state, snap, grid.rows, grid.cols);
      ghost var keep := Stable() && NoWallListed(grid.state, snap);
      if keep {
        RepaintStable(grid.state, snap, base);
      }
      ghost var keys := grid.state.Keys;
      grid.state := s;
      assert grid.state.Keys == keys;
      assert grid.Valid();
    }

    /** The telemetry of one yield: the sizes of the visited and frontier
        lists; a final yield (a path, even an empty one) ends the run and
        takes the solver's step count, and a non-empty path its length. */
    method Record(snap: Snapshot, solverSteps: nat)
      requires Valid()
      modifies this`running, this`active, this`stats
      ensures Valid() && Stable() == old(Stable())
      ensures stats.nodesVisited == |snap.visited| && stats.frontierSize == |snap.frontier|
      ensures stats.steps == if snap.path.Some? then solverSteps else old(stats.steps)
      ensures stats.pathLength == if snap.path.Some? && snap.path.value != [] then |snap.path.value| else old(stats.pathLength)
      ensures running == (old(running) && snap.path.None?) && active == (old(active) && snap.path.None?)
    {
      var st := stats;
      if snap.path.Some? {
        if |snap.path.value| > 0 {
          st := st.(pathLength := |snap.path.value|);
        }
        running, active := false, false;
        st := st.(steps := solverSteps);
      }
      stats := st.(nodesVisited := |snap.visited|, frontierSize := |snap.frontier|);
    }

    /** The shared body of _execute_single_step and _update_visualization
        for one yielded (frontier, visited, path). */
    method Apply(snap: Snapshot, solverSteps: nat)
      requires Valid()
      modifies this`running, this`active, this`stats, grid`state
      ensures Valid()
      ensures grid.state == Repaint(old(grid.state), snap)
      ensures stats.nodesVisited == |snap.visited| && stats.frontierSize == |snap.frontier|
      ensures stats.steps == if snap.path.Some? then solverSteps else old(stats.steps)
      ensures stats.pathLength == if snap.path.Some? && snap.path.value != [] then |snap.path.value| else old(stats.pathLength)
      ensures running == (old(running) && snap.path.None?) && active == (old(active) && snap.path.None?)
      ensures old(Stable()) && NoWallListed(old(grid.state), snap) ==> Stable()
    {
      Paint(snap);
      Record(snap, solverSteps);
    }

    /** _execute_single_step: without a live generator nothing happens;
        otherwise the table is saved first, then the next yield is painted
        and recorded, and an exhausted generator (None) ends the run. */
    method ExecuteSingleStep(next: Option<Snapshot>, solverSteps: nat)
      requires Valid()
      modifies this`history, this`index, this`running, this`active, this`stats, grid`state
      ensures Valid()
      ensures !old(active) ==> unchanged(this) && grid.state == old(grid.state)
      ensures old(active) ==>
        history == Saved(old(history), old(grid.state)) &&
        index == (if |old(history)| >= MaxHistorySize then old(index) else old(index) + 1)
      ensures old(active) && next.None? ==>
        !running && !active && grid.state == old(grid.state) && stats == old(stats)
      ensures old(active) && next.Some? ==>
        grid.state == Repaint(old(grid.state), next.value) &&
        stats.nodesVisited == |next.value.visited| && stats.frontierSize == |next.value.frontier| &&
        stats.steps == (if next.value.path.Some? then solverSteps else old(stats.steps)) &&
        stats.pathLength == (if next.value.path.Some? && next.value.path.value != [] then |next.value.path.value|
                             else old(stats.pathLength)) &&
        running == (old(running) && next.value.path.None?) && active == next.value.path.None?
      ensures old(Stable()) && (next.Some? ==> NoWallListed(old(grid.state), next.value)) ==> Stable()
    {
      if !active {
        return;
      }
      Save();
      match next
      case None =>
        running, active := false, false;
      case Some(snap) =>
        Apply(snap, solverSteps);
    }

    /** The state one executed step leaves, from the table s and the counts
        st before it: an exhausted generator ends the run with nothing
        else changed; a yield is painted over s and recorded in the counts,
        and a final one ends the run. */
    ghost predicate Stepped(s: map<Pos, NodeState>, st: Stats, next: Option<Snapshot>, solverSteps: nat)
      reads this`running, this`active, this`stats, grid`state
    {
      match next
      case None => !running && !active && grid.state == s && stats == st
      case Some(snap) =>
        grid.state == Repaint(s, snap) &&
        stats == Stats(if snap.path.Some? then solverSteps else st.steps,
                       if snap.path.Some? && snap.path.value != [] then |snap.path.value| else st.pathLength,
                       |snap.visited|, |snap.frontier|) &&
        running == snap.path.None? && active == snap.path.None?
    }

    /** _on_step_forward: start a paused run if none is going, then, while the
        run is paused with a live generator, execute one step. */
    method StepForward(next: Option<Snapshot>, solverSteps: nat)
      requires Valid()
      modifies this, grid`state, grid`info, grid`startPos, grid`targetPos
      ensures Valid()
      ensures old(running) && !old(paused) ==> unchanged(this) && unchanged(grid)
      ensures old(running) && old(paused) && !old(active) ==> unchanged(this) && unchanged(grid)
      ensures old(running) && old(paused) && old(active) ==>
        paused && grid.startPos == old(grid.startPos) && grid.targetPos == old(grid.targetPos) &&
        grid.info == old(grid.info) &&
        history == Saved(old(history), old(grid.state)) &&
        index == (if |old(history)| >= MaxHistorySize then old(index) else old(index) + 1) &&
        Stepped(old(grid.state), old(stats), next, solverSteps)
      ensures !old(running) ==>
        paused && grid.startPos == old(grid.startPos) && grid.targetPos == old(grid.targetPos) &&
        grid.SearchCleared() && history == [ResetStates(old(grid.state), grid.startPos, grid.targetPos)] && index == 0 &&
        Stepped(ResetStates(old(grid.state), grid.startPos, grid.targetPos), Stats(0, 0, 0, 0), next, solverSteps)
    {
      if !running {
        Begin(true);
      }
      if paused && active {
        ExecuteSingleStep(next, solverSteps);
      }
    }

    /** One due frame of _update_visualization: while the run is going and not
        paused, paint and record the next yield without saving history; an
        exhausted generator ends the run. */
    method Tick(next: Option<Snapshot>, solverSteps: nat)
      requires Valid()
      modifies this`running, this`active, this`stats, grid`state
      ensures Valid() && history == old(history) && index == old(index)
      ensures !(old(running) && !paused && old(active)) ==> unchanged(this) && grid.state == old(grid.state)
      ensures old(running) && !paused && old(active) && next.None? ==>
        !running && !active && grid.state == old(grid.state) && stats == old(stats)
      ensures old(running) && !paused && old(active) && next.Some? ==>
        grid.state == Repaint(old(grid.state), next.value) &&
        stats.nodesVisited == |next.value.visited| && stats.frontierSize == |next.value.frontier| &&
        stats.steps == (if next.value.path.Some? then solverSteps else old(stats.steps)) &&
        stats.pathLength == (if next.value.path.Some? && next.value.path.value != [] then |next.value.path.value|
                             else old(stats.pathLength)) &&
        running == next.value.path.None? && active == next.value.path.None?
      ensures old(Stable()) && (next.Some? ==> NoWallListed(old(grid.state), next.value)) ==> Stable()
    {
      if !running || paused || !active {
        return;
      }
      match next
      case None =>
        running, active := false, false;
      case Some(snap) =>
        Apply(snap, solverSteps);
    }
  }
}
