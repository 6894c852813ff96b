/** Small value types shared by every module of the model. */
module Wrappers {
  datatype Option<T> = None | Some(value: T)
}

/**
 * The search grid: a rectangle of cells, each with a display state and the
 * transient search bookkeeping (parent link, accumulated cost, depth) that the
 * solvers write, plus the fixed six-direction neighbour rule.
 *
 * A Node of the source is identified by its coordinates only (its equality and
 * hash use (row, col)), so a node is modelled by a `Pos`; its display state and
 * its search bookkeeping are kept in two tables keyed by position whose domain
 * is exactly the in-bound cells.
 */
module Grids {
  import opened Wrappers

  /** Display and occupancy state of one cell. */
  datatype NodeState = Empty | Wall | Start | Target | Frontier | Visited | Path

  datatype Pos = Pos(row: int, col: int)

  /** Accumulated uniform-cost-search cost, in thousandths of a step.  The
      source stores a float whose default is +infinity. */
  datatype Cost = Infinite | Finite(milli: int)

  /** The search bookkeeping of one node: parent link, cost, depth. */
  datatype NodeInfo = NodeInfo(parent: Option<Pos>, cost: Cost, depth: int)

  /** Bookkeeping of a fresh node, and after reset_search_state. */
  const DefaultInfo := NodeInfo(None, Infinite, 0)

  /** Offsets of the clockwise-plus-main-diagonal rule, in expansion order:
      Up, Right, Down, Down-Right, Left, Up-Left. */
  const Directions: seq<(int, int)> := [(-1, 0), (0, 1), (1, 0), (1, 1), (0, -1), (-1, -1)]

  function Offset(p: Pos, d: (int, int)): Pos {
    Pos(p.row + d.0, p.col + d.1)
  }

  /** The cells reached from p by the offsets ds, in order, unfiltered. */
  function Shifted(p: Pos, ds: seq<(int, int)>): seq<Pos> {
    if ds == [] then [] else [Offset(p, ds[0])] + Shifted(p, ds[1..])
  }

  /** The six candidate cells around p, before bounds and walls are checked. */
  function Candidates(p: Pos): seq<Pos> {
    Shifted(p, Directions)
  }

  /** a is obtained from b by deleting elements (order is kept). */
  predicate IsSubsequence<T(==)>(a: seq<T>, b: seq<T>) {
    if a == [] then true
    else if b == [] then false
    else if a[0] == b[0] then IsSubsequence(a[1..], b[1..])
    else IsSubsequence(a, b[1..])
  }

  predicate NoDuplicates<T(==)>(s: seq<T>) {
    forall i, j :: 0 <= i < j < |s| ==> s[i] != s[j]
  }

  /** The search-state reset of one cell (reset_search_state): frontier,
      visited and path marks go back to empty, everything else is kept. */
  function ResetNodeState(s: NodeState): NodeState {
    if s == Frontier || s == Visited || s == Path then Empty else s
  }

  /** One cell of the reset pass: clear_all empties it, reset_search applies
      reset_search_state. */
  function CellReset(s: NodeState, clearWalls: bool): NodeState {
    if clearWalls then Empty else ResetNodeState(s)
  }

  function Abs(x: int): nat {
    if x < 0 then -x else x
  }

  /** Chebyshev (king-move) distance between two cells. */
  function Chebyshev(a: Pos, b: Pos): nat {
    var dr := if a.row >= b.row then a.row - b.row else b.row - a.row;
    var dc := if a.col >= b.col then a.col - b.col else b.col - a.col;
    if dr >= dc then dr else dc
  }

  /** Effect of set_start / set_target on the state table: the old endpoint
      cell is emptied, then the new cell receives `mark` unless it holds the
      `other` endpoint's mark.  A wall on the new cell is overwritten. */
  function MoveEndpoint(s: map<Pos, NodeState>, from: Pos, to: Pos, mark: NodeState, other: NodeState): map<Pos, NodeState>
    requires from in s && to in s
  {
    var cleared := s[from := Empty];
    cleared[to := if cleared[to] == other then other else mark]
  }

  /** set_start followed by set_target on the current positions, as done at
      the end of reset_search and clear_all. */
  function Remark(s: map<Pos, NodeState>, start: Pos, target: Pos): map<Pos, NodeState>
    requires start in s && target in s
  {
    var s1 := MoveEndpoint(s, start, start, Start, Target);
    MoveEndpoint(s1, target, target, Target, Start)
  }

  /** The reset pass over every cell, before the endpoints are re-marked. */
  function ResetAll(s: map<Pos, NodeState>, clearWalls: bool): map<Pos, NodeState> {
    map p | p in s :: CellReset(s[p], clearWalls)
  }

  /** State table after reset_search. */
  function ResetStates(s: map<Pos, NodeState>, start: Pos, target: Pos): map<Pos, NodeState>
    requires start in s && target in s
  {
    Remark(ResetAll(s, false), start, target)
  }

  /** State table after clear_all. */
  function ClearStates(s: map<Pos, NodeState>, start: Pos, target: Pos): map<Pos, NodeState>
    requires start in s && target in s
  {
    Remark(ResetAll(s, true), start, target)
  }

  lemma MoveEndpointCells(s: map<Pos, NodeState>, from: Pos, to: Pos, mark: NodeState, other: NodeState)
    requires from in s && to in s && other != Empty
    ensures MoveEndpoint(s, from, to, mark, other).Keys == s.Keys
    ensures forall q :: q in s && q != from && q != to ==> MoveEndpoint(s, from, to, mark, other)[q] == s[q]
    ensures from != to ==> MoveEndpoint(s, from, to, mark, other)[from] == Empty
    ensures MoveEndpoint(s, from, to, mark, other)[to] == if from != to && s[to] == other then other else mark
  {
  }

  lemma ResetStatesCells(s: map<Pos, NodeState>, start: Pos, target: Pos)
    requires start in s && target in s
    ensures ResetStates(s, start, target).Keys == s.Keys
    ensures forall q :: q in s && q != start && q != target ==> ResetStates(s, start, target)[q] == ResetNodeState(s[q])
    ensures ResetStates(s, start, target)[target] == Target
    ensures ResetStates(s, start, target)[start] == if start == target then Target else Start
  {
  }

  lemma ClearStatesCells(s: map<Pos, NodeState>, start: Pos, target: Pos)
    requires start in s && target in s
    ensures ClearStates(s, start, target).Keys == s.Keys
    ensures forall q :: q in s && q != start && q != target ==> ClearStates(s, start, target)[q] == Empty
    ensures ClearStates(s, start, target)[target] == Target
    ensures ClearStates(s, start, target)[start] == if start == target then Target else Start
  {
  }

  /** The coordinates of a rows x cols grid. */
  function AllCells(rows: int, cols: int): (r: set<Pos>)
    ensures forall p :: p in r <==> 0 <= p.row < rows && 0 <= p.col < cols
  {
    var r := set i, j | 0 <= i < rows && 0 <= j < cols :: Pos(i, j);
    assert forall p: Pos :: 0 <= p.row < rows && 0 <= p.col < cols ==> p == Pos(p.row, p.col) && p in r;
    r
  }

  /** The WALL cells of a state table. */
  function WallsOf(s: map<Pos, NodeState>): set<Pos> {
    set p | p in s && s[p] == Wall
  }

  /** One row of the reset pass of reset_search (clearWalls = false) and
      clear_all (clearWalls = true), on the two tables. */
  method ResetRow(s0: map<Pos, NodeState>, k0: map<Pos, NodeInfo>, r: int, cols: int, clearWalls: bool)
    returns (s: map<Pos, NodeState>, k: map<Pos, NodeInfo>)
    requires 0 <= cols && forall c :: 0 <= c < cols ==> Pos(r, c) in s0 && Pos(r, c) in k0
    ensures s.Keys == s0.Keys && k.Keys == k0.Keys
    ensures forall p :: p in s && p.row == r && 0 <= p.col < cols ==> s[p] == CellReset(s0[p], clearWalls)
    ensures forall p :: p in s && !(p.row == r && 0 <= p.col < cols) ==> s[p] == s0[p]
    ensures forall p :: p in k && p.row == r && 0 <= p.col < cols ==> k[p] == DefaultInfo
    ensures forall p :: p in k && !(p.row == r && 0 <= p.col < cols) ==> k[p] == k0[p]
  {
    s, k := s0, k0;
    for c := 0 to cols
      invariant s.Keys == s0.Keys && k.Keys == k0.Keys
      invariant forall p :: p in s && p.row == r && 0 <= p.col < c ==> s[p] == CellReset(s0[p], clearWalls)
      invariant forall p :: p in s && !(p.row == r && 0 <= p.col < c) ==> s[p] == s0[p]
      invariant forall p :: p in k && p.row == r && 0 <= p.col < c ==> k[p] == DefaultInfo
      invariant forall p :: p in k && !(p.row == r && 0 <= p.col < c) ==> k[p] == k0[p]
    {
      var p := Pos(r, c);
      s := s[p := CellReset(s[p], clearWalls)];
      k := k[p := DefaultInfo];
    }
  }

  /** The attempt loop of generate_random_walls on a state table: draws[k] is
      the cell drawn at the k-th attempt.  Protected cells and cells that
      already hold a wall are skipped; every other drawn cell becomes a wall. */
  method PlaceWalls(s0: map<Pos, NodeState>, targetWalls: int, draws: seq<Pos>, maxAttempts: nat, protectedCells: set<Pos>)
    returns (s: map<Pos, NodeState>, placed: nat, attempts: nat)
    requires WallsOf(s0) == {}
    requires |draws| >= maxAttempts
    requires forall k :: 0 <= k < |draws| ==> draws[k] in s0
    ensures s.Keys == s0.Keys
    ensures attempts <= maxAttempts
    ensures placed == |WallsOf(s)| && (placed == 0 || placed <= targetWalls)
    ensures attempts < maxAttempts ==> placed == targetWalls || targetWalls <= 0
    ensures forall p :: p in s ==> (s[p] == Wall <==> p in draws[..attempts] && p !in protectedCells)
    ensures forall p :: p in s && s[p] != Wall ==> s[p] == s0[p]
  {
    s, placed, attempts := s0, 0, 0;
    assert forall p :: p in s ==> s[p] != Wall by {
      forall p | p in s ensures s[p] != Wall {
        assert p !in WallsOf(s0);
      }
    }
    while placed < targetWalls && attempts < maxAttempts
      invariant s.Keys == s0.Keys
      invariant attempts <= maxAttempts && (placed == 0 || placed <= targetWalls)
      invariant placed == |WallsOf(s)|
      invariant forall p :: p in s ==> (s[p] == Wall <==> p in draws[..attempts] && p !in protectedCells)
      invariant forall p :: p in s && s[p] != Wall ==> s[p] == s0[p]
    {
      attempts := attempts + 1;
      var p := draws[attempts - 1];
      assert draws[..attempts] == draws[..attempts - 1] + [p];
      if p in protectedCells {
        continue;
      }
      if s[p] == Wall {
        continue;
      }
      ghost var before := WallsOf(s);
      s := s[p := Wall];
      assert WallsOf(s) == before + {p};
      placed := placed + 1;
    }
  }

  /** A cell that can be entered: a cell of the table that is not a wall. */
  predicate Open(s: map<Pos, NodeState>, q: Pos) {
    q in s && s[q] != Wall
  }

  /** The open cells among those reached from p by the offsets ds, in order. */
  function OpenAlong(s: map<Pos, NodeState>, p: Pos, ds: seq<(int, int)>): (r: seq<Pos>)
    ensures |r| <= |ds|
    ensures forall q :: q in r ==> Open(s, q)
  {
    if ds == [] then []
    else
      var q := Offset(p, ds[0]);
      (if Open(s, q) then [q] else []) + OpenAlong(s, p, ds[1..])
  }

  /** get_neighbors_clockwise_diagonal on the grid whose state table is s:
      the cells among Up, Right, Down, Down-Right, Left, Up-Left of p that
      exist (get_node is not None) and are not walls, in that order.  The
      table's domain is exactly the in-bound cells (Grid.Valid), so table
      membership is the bounds check. */
  function Neighbors(s: map<Pos, NodeState>, p: Pos): (r: seq<Pos>)
    ensures |r| <= 6
    ensures forall q :: q in r ==> Open(s, q)
  {
    OpenAlong(s, p, Directions)
  }

  class Grid {
    const rows: int
    const cols: int
    /** Node.state of every cell. */
    var state: map<Pos, NodeState>
    /** Node.parent, Node.cost and Node.depth of every cell. */
    var info: map<Pos, NodeInfo>
    var startPos: Pos
    var targetPos: Pos

    function InBounds(p: Pos): bool {
      0 <= p.row < rows && 0 <= p.col < cols
    }

    ghost predicate Valid()
      reads this
    {
      rows > 0 && cols > 0 &&
      (forall p :: p in state <==> InBounds(p)) &&
      info.Keys == state.Keys &&
      InBounds(startPos) && InBounds(targetPos)
    }

    /** Every cell carries the default bookkeeping: no parent, infinite cost, depth 0. */
    ghost predicate SearchCleared()
      reads this`info
    {
      forall p :: p in info ==> info[p] == DefaultInfo
    }

    /** get_node: the node at (row, col), or None out of bounds. */
    function GetNode(row: int, col: int): (r: Option<Pos>)
      ensures r.Some? <==> 0 <= row < rows && 0 <= col < cols
      ensures r.Some? ==> r.value == Pos(row, col) && InBounds(r.value)
    {
      if 0 <= row < rows && 0 <= col < cols then Some(Pos(row, col)) else None
    }

    /** Grid(rows, cols): every cell empty with default bookkeeping, then
        start at (rows/4, cols/4) and target at (rows/4, 3*cols/4). */
    constructor (rows: int, cols: int)
      requires rows >= 1 && cols >= 1
      ensures Valid() && SearchCleared()
      ensures this.rows == rows && this.cols == cols
      ensures startPos == Pos(rows / 4, cols / 4) && targetPos == Pos(rows / 4, 3 * cols / 4)
      ensures state == Remark(map p | p in AllCells(rows, cols) :: Empty, startPos, targetPos)
    {
      this.rows := rows;
      this.cols := cols;
      var cells := AllCells(rows, cols);
      state := map p | p in cells :: Empty;
      info := map p | p in cells :: DefaultInfo;
      startPos := Pos(rows / 4, cols / 4);
      targetPos := Pos(rows / 4, 3 * cols / 4);
      new;
      var ok := SetStart(startPos.row, startPos.col);
      ok := SetTarget(targetPos.row, targetPos.col);
    }

    /** set_start: out of bounds fails and changes nothing; otherwise the old
        start cell is emptied, the position moves, and the new cell is marked
        START unless it holds TARGET. */
    method SetStart(row: int, col: int) returns (ok: bool)
      requires Valid()
      modifies this`state, this`startPos
      ensures Valid() && targetPos == old(targetPos)
      ensures ok <==> InBounds(Pos(row, col))
      ensures !ok ==> state == old(state) && startPos == old(startPos)
      ensures ok ==> startPos == Pos(row, col) &&
                     state == MoveEndpoint(old(state), old(startPos), startPos, Start, Target)
    {
      if !(0 <= row < rows && 0 <= col < cols) {
        return false;
      }
      state := state[startPos := Empty];
      startPos := Pos(row, col);
      if state[startPos] != Target {
        state := state[startPos := Start];
      }
      return true;
    }

    /** set_target: the mirror image of set_start. */
    method SetTarget(row: int, col: int) returns (ok: bool)
      requires Valid()
      modifies this`state, this`targetPos
      ensures Valid() && startPos == old(startPos)
      ensures ok <==> InBounds(Pos(row, col))
      ensures !ok ==> state == old(state) && targetPos == old(targetPos)
      ensures ok ==> targetPos == Pos(row, col) &&
                     state == MoveEndpoint(old(state), old(targetPos), targetPos, Target, Start)
    {
      if !(0 <= row < rows && 0 <= col < cols) {
        return false;
      }
      state := state[targetPos := Empty];
      targetPos := Pos(row, col);
      if state[targetPos] != Start {
        state := state[targetPos := Target];
      }
      return true;
    }

    /** toggle_wall: fails (changing nothing) out of bounds or on a cell
        marked START or TARGET; otherwise the cell becomes WALL or EMPTY. */
    method ToggleWall(row: int, col: int, placeWall: bool) returns (ok: bool)
      requires Valid()
      modifies this`state
      ensures Valid()
      ensures ok <==> InBounds(Pos(row, col)) && old(state)[Pos(row, col)] != Start && old(state)[Pos(row, col)] != Target
      ensures !ok ==> state == old(state)
      ensures ok ==> state == old(state)[Pos(row, col) := if placeWall then Wall else Empty]
    {
      if !(0 <= row < rows && 0 <= col < cols) {
        return false;
      }
      var p := Pos(row, col);
      if state[p] == Start || state[p] == Target {
        return false;
      }
      state := state[p := if placeWall then Wall else Empty];
      return true;
    }

    /** reset_search: every cell gets reset_search_state, then start and
        target are re-marked. */
    method ResetSearch()
      requires Valid()
      modifies this`state, this`info, this`startPos, this`targetPos
      ensures Valid() && SearchCleared()
      ensures startPos == old(startPos) && targetPos == old(targetPos)
      ensures state == ResetStates(old(state), startPos, targetPos)
    {
      ResetCells(false);
      var ok := SetStart(startPos.row, startPos.col);
      ok := SetTarget(targetPos.row, targetPos.col);
    }

    /** clear_all: every cell becomes EMPTY with default bookkeeping, then
        start and target are re-marked. */
    method ClearAll()
      requires Valid()
      modifies this`state, this`info, this`startPos, this`targetPos
      ensures Valid() && SearchCleared()
      ensures startPos == old(startPos) && targetPos == old(targetPos)
      ensures state == ClearStates(old(state), startPos, targetPos)
    {
      ResetCells(true);
      var ok := SetStart(startPos.row, startPos.col);
      ok := SetTarget(targetPos.row, targetPos.col);
    }

    /** The row-by-row pass shared by reset_search and clear_all. */
    method ResetCells(clearWalls: bool)
      requires Valid()
      modifies this`state, this`info
      ensures Valid() && SearchCleared()
      ensures state == ResetAll(old(state), clearWalls)
    {
      var s, k := state, info;
      ghost var s0 := state;
      for r := 0 to rows
        invariant s.Keys == s0.Keys && k.Keys == s0.Keys
        invariant forall p :: p in s && p.row < r ==> s[p] == CellReset(s0[p], clearWalls)
        invariant forall p :: p in s && p.row >= r ==> s[p] == s0[p]
        invariant forall p :: p in k && p.row < r ==> k[p] == DefaultInfo
      {
        assert forall c :: 0 <= c < cols ==> Pos(r, c) in s0;
        s, k := ResetRow(s, k, r, cols, clearWalls);
      }
      assert s == ResetAll(s0, clearWalls);
      state, info := s, k;
    }

    /** The in-bound cells within Chebyshev distance 1 of c. */
    function Buffer(c: Pos): set<Pos> {
      set i, j | c.row - 1 <= i <= c.row + 1 && c.col - 1 <= j <= c.col + 1 && 0 <= i < rows && 0 <= j < cols :: Pos(i, j)
    }

    /** generate_random_walls with the wall count already computed
        (int(rows*cols*wall_percentage)) and the random cell choices supplied:
        draws[k] is the (randint(0, rows-1), randint(0, cols-1)) pair of the
        k-th attempt.  Returns the walls placed and the attempts made. */
    method GenerateRandomWalls(targetWalls: int, draws: seq<Pos>) returns (placed: nat, attempts: nat)
      requires Valid()
      requires |draws| >= rows * cols * 2
      requires forall k :: 0 <= k < |draws| ==> InBounds(draws[k])
      modifies this`state, this`info, this`startPos, this`targetPos
      ensures Valid() && SearchCleared()
      ensures startPos == old(startPos) && targetPos == old(targetPos)
      ensures attempts <= rows * cols * 2
      ensures placed == |WallsOf(state)| && (placed == 0 || placed <= targetWalls)
      ensures attempts < rows * cols * 2 ==> placed == targetWalls || targetWalls <= 0
      ensures forall p :: p in state ==>
        (state[p] == Wall <==> p in draws[..attempts] && p !in Buffer(startPos) && p !in Buffer(targetPos))
      ensures forall p :: p in state && state[p] != Wall ==> state[p] == ClearStates(old(state), startPos, targetPos)[p]
      ensures forall p :: p in state && state[p] == Wall ==> Chebyshev(p, startPos) > 1 && Chebyshev(p, targetPos) > 1
    {
      ClearAll();
      ClearStatesCells(old(state), startPos, targetPos);
      placed, attempts := PlaceRandomWalls(targetWalls, draws);
    }

    /** The attempt loop of generate_random_walls on the cleared grid. */
    method PlaceRandomWalls(targetWalls: int, draws: seq<Pos>) returns (placed: nat, attempts: nat)
      requires Valid() && forall p :: p in state ==> state[p] != Wall
      requires |draws| >= rows * cols * 2
      requires forall k :: 0 <= k < |draws| ==> InBounds(draws[k])
      modifies this`state
      ensures Valid()
      ensures attempts <= rows * cols * 2
      ensures placed == |WallsOf(state)| && (placed == 0 || placed <= targetWalls)
      ensures attempts < rows * cols * 2 ==> placed == targetWalls || targetWalls <= 0
      ensures forall p :: p in state ==>
        (state[p] == Wall <==> p in draws[..attempts] && p !in Buffer(startPos) && p !in Buffer(targetPos))
      ensures forall p :: p in state && state[p] != Wall ==> state[p] == old(state)[p]
      ensures forall p :: p in state && state[p] == Wall ==> Chebyshev(p, startPos) > 1 && Chebyshev(p, targetPos) > 1
    {
      assert WallsOf(state) == {};
      var protectedCells := Buffer(startPos) + Buffer(targetPos);
      var totalCells := rows * cols;
      var s;
      s, placed, attempts := PlaceWalls(state, targetWalls, draws, totalCells * 2, protectedCells);
      state := s;
      forall p | p in state && state[p] == Wall
        ensures Chebyshev(p, startPos) > 1 && Chebyshev(p, targetPos) > 1
      {
        OutsideBuffer(this, startPos, p);
        OutsideBuffer(this, targetPos, p);
      }
    }
  }

  /** A cell outside a protection buffer is more than one king move away
      from its centre. */
  lemma OutsideBuffer(g: Grid, c: Pos, p: Pos)
    requires g.InBounds(p) && p !in g.Buffer(c)
    ensures Chebyshev(p, c) > 1
  {
  }

  /** The six candidate cells written out. */
  lemma CandidatesExplicit(p: Pos)
    ensures Candidates(p) == [Pos(p.row - 1, p.col), Pos(p.row, p.col + 1), Pos(p.row + 1, p.col),
                              Pos(p.row + 1, p.col + 1), Pos(p.row, p.col - 1), Pos(p.row - 1, p.col - 1)]
  {
    var ds := Directions;
    assert Shifted(p, ds[5..]) == [Offset(p, ds[5])];
    assert Shifted(p, ds[4..]) == [Offset(p, ds[4])] + Shifted(p, ds[5..]);
    assert Shifted(p, ds[3..]) == [Offset(p, ds[3])] + Shifted(p, ds[4..]);
    assert Shifted(p, ds[2..]) == [Offset(p, ds[2])] + Shifted(p, ds[3..]);
    assert Shifted(p, ds[1..]) == [Offset(p, ds[1])] + Shifted(p, ds[2..]);
  }

  lemma {:induction false} OpenAlongMembers(s: map<Pos, NodeState>, p: Pos, ds: seq<(int, int)>, q: Pos)
    ensures q in OpenAlong(s, p, ds) <==> q in Shifted(p, ds) && Open(s, q)
    decreases |ds|
  {
    if ds != [] {
      OpenAlongMembers(s, p, ds[1..], q);
    }
  }

  /** A cell is a neighbour of p exactly when it is one of the six candidate
      cells and is in bounds and not a wall. */
  lemma NeighborsMembers(s: map<Pos, NodeState>, p: Pos, q: Pos)
    ensures q in Neighbors(s, p) <==> q in Candidates(p) && Open(s, q)
  {
    OpenAlongMembers(s, p, Directions, q);
  }

  /** On a grid, a neighbour is a candidate cell that is in bounds and is not
      a wall: get_node's bounds check and the WALL test. */
  lemma NeighborsOnGrid(g: Grid, p: Pos, q: Pos)
    requires g.Valid()
    ensures q in Neighbors(g.state, p) <==> q in Candidates(p) && g.InBounds(q) && g.state[q] != Wall
  {
    NeighborsMembers(g.state, p, q);
  }

  lemma {:induction false} OpenAlongOrder(s: map<Pos, NodeState>, p: Pos, ds: seq<(int, int)>)
    ensures IsSubsequence(OpenAlong(s, p, ds), Shifted(p, ds))
    decreases |ds|
  {
    if ds != [] {
      OpenAlongOrder(s, p, ds[1..]);
      var q := Offset(p, ds[0]);
      var rest := OpenAlong(s, p, ds[1..]);
      assert Shifted(p, ds)[1..] == Shifted(p, ds[1..]);
      if Open(s, q) {
        assert OpenAlong(s, p, ds)[1..] == rest;
      } else {
        assert OpenAlong(s, p, ds) == rest;
        assert rest != [] ==> Open(s, rest[0]) && rest[0] != q;
      }
    }
  }

  /** Neighbours keep the fixed expansion order: they are the candidate list
      with the blocked cells deleted. */
  lemma NeighborsOrder(s: map<Pos, NodeState>, p: Pos)
    ensures IsSubsequence(Neighbors(s, p), Candidates(p))
  {
    OpenAlongOrder(s, p, Directions);
  }

  lemma {:induction false} OpenAlongAllOpen(s: map<Pos, NodeState>, p: Pos, ds: seq<(int, int)>)
    requires forall q :: q in Shifted(p, ds) ==> Open(s, q)
    ensures OpenAlong(s, p, ds) == Shifted(p, ds)
    decreases |ds|
  {
    if ds != [] {
      OpenAlongAllOpen(s, p, ds[1..]);
    }
  }

  /** A cell whose six candidates are all open has exactly those six
      neighbours, in the order Up, Right, Down, Down-Right, Left, Up-Left. */
  lemma NeighborsInterior(s: map<Pos, NodeState>, p: Pos)
    requires forall q :: q in Candidates(p) ==> Open(s, q)
    ensures Neighbors(s, p) == Candidates(p)
    ensures |Neighbors(s, p)| == 6
  {
    OpenAlongAllOpen(s, p, Directions);
    CandidatesExplicit(p);
  }

  /** The top-left corner of a grid with at least two rows and columns has
      Right, Down and Down-Right as its only neighbours when those are open. */
  lemma NeighborsCorner(g: Grid)
    requires g.Valid() && g.rows >= 2 && g.cols >= 2
    requires g.state[Pos(0, 1)] != Wall && g.state[Pos(1, 0)] != Wall && g.state[Pos(1, 1)] != Wall
    ensures Neighbors(g.state, Pos(0, 0)) == [Pos(0, 1), Pos(1, 0), Pos(1, 1)]
  {
    var s := g.state;
    assert !Open(s, Pos(-1, 0)) && !Open(s, Pos(0, -1)) && !Open(s, Pos(-1, -1));
    assert Open(s, Pos(0, 1)) && Open(s, Pos(1, 0)) && Open(s, Pos(1, 1));
    CornerAlong(s, Pos(0, 0));
  }

  /** The neighbour filter at p when Up, Left and Up-Left are closed and
      Right, Down and Down-Right are open. */
  lemma CornerAlong(s: map<Pos, NodeState>, p: Pos)
    requires !Open(s, Pos(p.row - 1, p.col)) && !Open(s, Pos(p.row, p.col - 1)) && !Open(s, Pos(p.row - 1, p.col - 1))
    requires Open(s, Pos(p.row, p.col + 1)) && Open(s, Pos(p.row + 1, p.col)) && Open(s, Pos(p.row + 1, p.col + 1))
    ensures Neighbors(s, p) == [Pos(p.row, p.col + 1), Pos(p.row + 1, p.col), Pos(p.row + 1, p.col + 1)]
  {
    var ds := Directions;
    assert OpenAlong(s, p, ds[5..]) == [];
    assert OpenAlong(s, p, ds[4..]) == [];
    assert OpenAlong(s, p, ds[3..]) == [Pos(p.row + 1, p.col + 1)];
    assert OpenAlong(s, p, ds[2..]) == [Pos(p.row + 1, p.col), Pos(p.row + 1, p.col + 1)];
    assert OpenAlong(s, p, ds[1..]) == [Pos(p.row, p.col + 1), Pos(p.row + 1, p.col), Pos(p.row + 1, p.col + 1)];
  }

  lemma {:induction false} OpenAlongDistinct(s: map<Pos, NodeState>, p: Pos, ds: seq<(int, int)>)
    requires NoDuplicates(Shifted(p, ds))
    ensures NoDuplicates(OpenAlong(s, p, ds))
    decreases |ds|
  {
    if ds != [] {
      var rest := Shifted(p, ds[1..]);
      assert NoDuplicates(rest) by {
        forall i, j | 0 <= i < j < |rest| ensures rest[i] != rest[j] {
          assert rest[i] == Shifted(p, ds)[i + 1] && rest[j] == Shifted(p, ds)[j + 1];
        }
      }
      OpenAlongDistinct(s, p, ds[1..]);
      var q := Offset(p, ds[0]);
      if Open(s, q) {
        OpenAlongMembers(s, p, ds[1..], q);
        assert q !in rest by {
          forall i | 0 <= i < |rest| ensures rest[i] != q {
            assert rest[i] == Shifted(p, ds)[i + 1] && q == Shifted(p, ds)[0];
          }
        }
      }
    }
  }

  /** No cell appears twice among the neighbours. */
  lemma NeighborsDistinct(s: map<Pos, NodeState>, p: Pos)
    ensures NoDuplicates(Neighbors(s, p))
  {
    CandidatesExplicit(p);
    OpenAlongDistinct(s, p, Directions);
  }

  /** The rule is symmetric: each offset's opposite is also an offset, so an
      open cell is a neighbour of each of its neighbours. */
  lemma NeighborsSymmetric(s: map<Pos, NodeState>, p: Pos, q: Pos)
    requires q in Neighbors(s, p) && Open(s, p)
    ensures p in Neighbors(s, q)
  {
    NeighborsMembers(s, p, q);
    NeighborsMembers(s, q, p);
    CandidatesExplicit(p);
    CandidatesExplicit(q);
  }

  /** Every neighbour is one king move away. */
  lemma NeighborsAdjacent(s: map<Pos, NodeState>, p: Pos, q: Pos)
    requires q in Neighbors(s, p)
    ensures Chebyshev(p, q) == 1
  {
    NeighborsMembers(s, p, q);
    CandidatesExplicit(p);
  }
}
