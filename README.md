# Search simulator core, modelled in Dafny

This project models the non-graphical core of `search_simulator.py`, a
step-by-step grid path-finding simulator:

- the grid of cells, each with a `NodeState`, a parent, a cost and a depth;
- the grid edits: setting start and target, toggling walls, resetting the
  search, clearing the board, and placing random walls;
- the fixed six-direction neighbour rule (Up, Right, Down, Down-Right,
  Left, Up-Left);
- `reconstruct_path`;
- the nine search strategies, each a Python generator: BFS, DFS,
  randomized DFS, UCS, DLS, IDDFS, bidirectional BFS, the beam search of
  `CustomSolver`, and Scout;
- the driver's rewind history, and how one yielded
  `(frontier, visited, path)` triple is painted onto the cells and the
  telemetry counts.

Modules follow the program's structure.

| module | file | models |
|---|---|---|
| `Wrappers`, `Grids` | `grid.dfy` | `Option`; `NodeState`, `Pos` (a cell is identified by its coordinates, as `Node.__eq__`/`__hash__` do), and `Grid` as a class over a state table and a bookkeeping table (parent, cost, depth) |
| `Paths` | `paths.dfy` | `reconstruct_path`: a loop over parent links, specified by a ghost parent-chain function; a ghost rank (visit order) is the termination measure |
| `Search` | `search.dfy` | the yielded triple (`Snapshot`), the "push the unseen neighbours" loop shared by the strategies, and the search-tree invariant shared by the strategies |
| `BreadthFirst`, `DepthFirst`, `UniformCost`, `DepthLimited`, `Bidirectional`, `Beam`, `Scout` | one file each | one class per solver; the constructor is the prologue of `solve`, and `Advance` runs the generator up to its next `yield` |
| `Simulator` | `history.dfy` | `SearchAlgorithmSimulator`'s history list, index, run flags and stats |

Each solver's `Advance` states the whole new state as a function of the old
one:

- which cell was popped and marked visited;
- the new frontier, which is the rest plus `Unseen(...)`, the unseen
  neighbours in the order the strategy pushes them;
- the new parent/depth/cost table;
- `steps`;
- the yielded snapshot.

The class invariant `Valid()` of BFS, DFS, randomized DFS, DLS, IDDFS,
beam and Scout says that:

- the frontier is duplicate-free and disjoint from the visited set;
- parents are written only on unvisited cells and always point to a
  visited neighbour;
- start has no parent.

These facts make every parent chain finite and rooted at start. As a
result, every path a solver returns starts at start, ends at target, moves
between grid neighbours and never repeats a cell.

Design choices:

- Random draws are parameters. `generate_random_walls` takes the sequence
  of `(randint(0, rows-1), randint(0, cols-1))` pairs. `random.shuffle` is
  the Fisher–Yates algorithm driven by a sequence of draws.
- UCS costs are integer thousandths: 1000 orthogonal, 1414 diagonal.
  `heapq` is modelled as its entries kept sorted by `(cost, counter)`.
- Solver parameters are constructor arguments: the beam width (10 in the
  source), Scout's layers (5 and 5), the DLS limit (20) and the IDDFS
  maximum depth (50).
- Where the published description and the code disagree, the model
  follows the code. IDDFS does not reset the grid's bookkeeping between
  rounds: each round only re-roots the start, so parents and depths from
  earlier rounds stay in the table.

Bidirectional search is modelled as written:

- Both sides mark cells visited on discovery.
- A meeting is a newly appended neighbour that the other side already holds.
- `_reconstruct_bidirectional_path` returns only the start side's walk.
- When the target side finds the meeting cell, it has already overwritten
  that cell's parent. The path is then start, target, …, meeting.
  `Bidirectional.CorridorJump` shows this on a one-row, three-cell grid:
  the returned path is `[(0,0), (0,2), (0,1)]`, which is not a walk.

## Model

| member | source | states |
|---|---|---|
| Grids.Grid.GetNode | search_simulator.py:199-216 | a node is returned exactly for in-bounds coordinates, and it is the cell at those coordinates |
| Grids.Grid.constructor | search_simulator.py:166-197 | a rows×cols board of EMPTY cells with start at (rows/4, cols/4), target at (rows/4, 3·cols/4), both marked, and cleared bookkeeping |
| Grids.Grid.SetStart | search_simulator.py:218-246 | out of bounds: returns False and changes nothing; otherwise the old start cell becomes EMPTY, the position moves, and the new cell becomes START unless it holds TARGET (a WALL is overwritten); target unchanged |
| Grids.Grid.SetTarget | search_simulator.py:248-276 | the mirror image of SetStart, with START protected |
| Grids.MoveEndpointCells | search_simulator.py:218-276 | cell-by-cell effect of moving an endpoint: other cells are kept, the old cell becomes EMPTY when it moved, and the new cell gets the mark unless it holds the other endpoint |
| Grids.Grid.ToggleWall | search_simulator.py:278-305 | succeeds exactly on in-bounds cells that hold neither START nor TARGET, and then writes WALL or EMPTY there alone; on failure nothing changes |
| Grids.Grid.ResetSearch | search_simulator.py:307-318 | every cell is reset (FRONTIER/VISITED/PATH become EMPTY, walls stay), parent/cost/depth cleared, start and target re-marked, endpoints kept |
| Grids.ResetStatesCells | search_simulator.py:129-135 | cells other than the endpoints keep WALL and EMPTY and lose the search marks; target is TARGET, start is START (TARGET if they coincide) |
| Grids.Grid.ClearAll | search_simulator.py:320-332 | as ResetSearch, but every cell other than the endpoints becomes EMPTY, removing walls |
| Grids.ClearStatesCells | search_simulator.py:320-332 | cells other than the endpoints are EMPTY; endpoints re-marked |
| Grids.Grid.ResetCells | search_simulator.py:310-326 | the row-by-row reset loop: every cell reset (walls optionally cleared) and its bookkeeping restored to the default |
| Grids.Grid.GenerateRandomWalls | search_simulator.py:334-399 | for any draws: board cleared first; at most 2·rows·cols draws; the number of walls is at most the target count and equals it unless the draws ran out; a cell is a wall exactly when it was drawn and lies outside both 3×3 buffers; no wall within Chebyshev distance 1 of start or target; other cells as after clear_all |
| Grids.Grid.PlaceRandomWalls | search_simulator.py:374-394 | the attempt loop alone, on a wall-free board, with the same guarantees |
| Grids.OutsideBuffer | search_simulator.py:355-368 | a cell outside an endpoint's protected 3×3 block is at Chebyshev distance greater than 1 from it |
| Grids.Neighbors | search_simulator.py:401-437 | at most six cells, each in bounds and not a wall |
| Grids.NeighborsMembers | search_simulator.py:423-437 | a cell is a neighbour exactly when it is one of the six direction offsets and is open |
| Grids.NeighborsOnGrid | search_simulator.py:423-437 | the same membership on a grid, phrased with the grid's own bounds and wall marks |
| Grids.NeighborsOrder | search_simulator.py:419-437 | the result is a subsequence of Up, Right, Down, Down-Right, Left, Up-Left |
| Grids.CandidatesExplicit | search_simulator.py:423-430 | the direction list, as explicit cells in that order |
| Grids.NeighborsInterior | search_simulator.py:423-437 | a cell whose six offsets are all open has exactly those six neighbours in order |
| Grids.NeighborsCorner | search_simulator.py:423-437 | corner (0,0) of a grid of at least 2×2 with open (0,1), (1,0), (1,1) has exactly Right, Down, Down-Right |
| Grids.CornerAlong | search_simulator.py:423-437 | a cell whose Up, Left and Up-Left are closed and whose Right, Down and Down-Right are open has exactly those three neighbours |
| Grids.NeighborsDistinct | search_simulator.py:423-437 | the neighbour list never repeats a cell |
| Grids.NeighborsSymmetric | search_simulator.py:423-437 | the directions come in opposite pairs, so an open p is a neighbour of each of its neighbours (the relation is symmetric on open cells) |
| Grids.NeighborsAdjacent | search_simulator.py:423-437 | every neighbour is at Chebyshev distance 1 |
| Grids.AllCells | search_simulator.py:186-190 | the cells of a rows×cols board |
| Paths.ReconstructPath | search_simulator.py:533-549 | the loop returns the reversed ancestry of the node, i.e. its parent chain |
| Paths.Ancestry | search_simulator.py:543-547 | the node, its parent, its parent's parent…; non-empty, starting at the node |
| Paths.ParentChain | search_simulator.py:533-549 | non-empty, ends at the node, all nodes ranked |
| Paths.Reverse | search_simulator.py:548 | the reversal: same length, index i holds element len-1-i |
| Paths.AncestryShape | search_simulator.py:543-547 | each element's parent is the next, the last has none, ranks strictly decrease, length at most rank+1 |
| Paths.ChainEnds | search_simulator.py:533-549 | the path starts at a parentless node and ends at the argument |
| Paths.ChainLinks | search_simulator.py:533-549 | each node of the path is the parent of the next |
| Paths.ChainDistinct | search_simulator.py:533-549 | ranks strictly increase along the path, so no node repeats |
| Paths.ChainSingle | search_simulator.py:533-549 | a parentless node yields the one-element list |
| Paths.ChainOfFive | search_simulator.py:533-549 | a five-node chain (0,0)…(0,4) yields those five nodes in order |
| Paths.ChainIsWalk | search_simulator.py:533-549 | when parents are neighbours, the path is a walk |
| Paths.WalkStaysIn | test_search_simulator.py:404-418 | a walk that starts inside a set of cells closed under taking neighbours never leaves it, which is why an exhausted search with the target outside its visited cells means "no solution" |
| Paths.RankedAdd | search_simulator.py:610-613 | linking a new node to an earlier-ranked parent keeps chains well founded |
| Paths.RankedFrame | search_simulator.py:610-613 | writes outside the ranked nodes keep chains intact |
| Search.Unseen | search_simulator.py:610-613 | the neighbours pushed: members of the list, neither visited nor already in the frontier |
| Search.UnseenFacts | search_simulator.py:610-613 | the pushed list keeps the order, has no duplicates, and holds exactly the unseen members |
| Search.PushUnseen | search_simulator.py:610-613 | the neighbour loop: the frontier gains exactly Unseen(...), and only those cells get the current node as parent (and depth+1 when tracked) |
| Search.ListOf | search_simulator.py:747-772 | `list(set)`: duplicate-free, same members, same size |
| Search.FoundPath | search_simulator.py:603-607 | under the search-tree invariant, a visited node's reconstructed path starts at start, ends at the node, is a walk, repeats no cell and uses only visited cells |
| Search.RootedVisit | search_simulator.py:741 | visiting a linked cell keeps every visited cell rooted at start |
| Search.InitialTree | search_simulator.py:588-591 | the prologue (frontier = [start], nothing visited, start parentless) satisfies the search-tree invariant |
| Search.VisitFirst | search_simulator.py:593-600 | popping the head of the queue visits a cell not yet visited and keeps the invariant |
| Search.VisitLast | search_simulator.py:660-667 | popping the top of the stack does the same |
| Search.ExpandStep | search_simulator.py:610-613 | pushing the unseen neighbours with the current node as parent keeps the invariant |
| Search.TrimStep | search_simulator.py:1113-1115 | dropping the tail of the frontier keeps the invariant |
| Search.ExhaustedStart | search_simulator.py:588-600 | once the frontier is empty, the start has been visited |
| Search.ChainDepth | search_simulator.py:831-837 | with consistent depths, a node's path has depth+1 cells |
| Search.DepthExpand | search_simulator.py:831-837 | children at parent depth + 1 keep the depths consistent |
| BreadthFirst.BfsSolver.constructor | search_simulator.py:576-591 | deque = [start], nothing visited, start parentless |
| BreadthFirst.BfsSolver.Advance | search_simulator.py:563-623 | one `next()`: the head is popped, visited and counted; the target yields its reconstructed path with path_length = its length; otherwise the unseen neighbours are appended in neighbour order, each with the popped cell as parent, and path None is yielded; an empty deque yields path [] and leaves path_length alone, and then no walk leads from start to target; any returned path starts at start, ends at target, is a walk without repeats, has at most `steps` cells, and no walk from start to target has fewer cells |
| BreadthFirst.LayerInitial | search_simulator.py:588-591 | the prologue is layered: start alone at level 0 |
| BreadthFirst.LayerPop | search_simulator.py:594-600 | `popleft` and `visited.add` keep the layering; no visited cell lies below the popped cell and the rest of the queue is at its level or the next |
| BreadthFirst.LayerExpand | search_simulator.py:610-613 | appending the unseen neighbours one level below the popped cell, linked to it, keeps the layering with the popped cell expanded: every open neighbour of an expanded cell is seen at most one level below it |
| BreadthFirst.ChainLevel | search_simulator.py:603-605 | a visited cell's reconstructed path has its level plus one cells |
| BreadthFirst.WalkLevels | search_simulator.py:574 | along any walk from start, until the walk has passed the popped cell's level, each cell is expanded and its level is at most its index |
| BreadthFirst.BfsShortest | search_simulator.py:574 | every walk from start to the popped cell has more cells than its level |
| BreadthFirst.ChainShortest | search_simulator.py:573-574 | at the target pop, the reconstructed path has no more cells than any walk from start to the target |
| BreadthFirst.LayerClosure | search_simulator.py:593-613 | once the deque is empty, every open neighbour of a visited cell is visited |
| BreadthFirst.ExhaustedUnreachable | search_simulator.py:593-619 | once the deque is empty with the target never visited, no walk leads from start to target: the yielded [] means there is no path |
| DepthFirst.DfsSolver.Advance | search_simulator.py:630-691 | as BFS but popping the top of the stack and pushing the unseen neighbours in reversed neighbour order |
| DepthFirst.FirstFreshOnTop | search_simulator.py:677-681 | after the reversed push, the first unseen neighbour (in neighbour order) is on top of the stack |
| DepthFirst.RandomizedDfsSolver.Advance | search_simulator.py:1153-1217 | as DFS, with the neighbours in the order `Shuffled` gives for the supplied draws |
| DepthFirst.Shuffle | search_simulator.py:1202 | the in-place Fisher–Yates loop on an array yields `Shuffled(old, draws)` |
| DepthFirst.ShuffledPermutes | search_simulator.py:1202 | the shuffle is a permutation: same length and multiset, same members, duplicate-free when the input is |
| DepthFirst.SwapPermutes | search_simulator.py:1202 | a swap keeps the multiset |
| DepthFirst.Swap | search_simulator.py:1202 | a swap exchanges two positions and keeps the others |
| UniformCost.UcsSolver.constructor | search_simulator.py:722-731 | queue = [(0, 0, start)], frontier_set = {start}, start with cost 0 and no parent |
| UniformCost.UcsSolver.Advance | search_simulator.py:698-776 | one `next()`: the leading entries of visited cells are popped and counted (each a step); the first unvisited entry is visited; the target yields its path, whose cost is the target's recorded cost and no more than that of any walk from start to the target; otherwise every neighbour is relaxed (RelaxAll); an empty queue yields path [] and leaves path_length alone, and a yielded [] means no walk leads from start to target; the yielded frontier is `list(frontier_set)`; the invariant keeps all popped entries in nondecreasing (cost, counter) order |
| UniformCost.UcsSolver.Finish | search_simulator.py:744-748 | at the target pop: the yielded path is the target's parent chain, a repeat-free walk from start, its cost is the target's recorded cost, and no walk from start to the target costs less |
| UniformCost.UcsSolver.PopHead | search_simulator.py:733-741 | the popped node's recorded cost is the entry's cost; every visited node costs at most that, and every waiting node at least that |
| UniformCost.WalkCost | search_simulator.py:753-756 | a walk's cost in thousandths, the sum of its step costs: 0 for the empty walk, between 1000 and 1414 per step |
| UniformCost.WalkCostStep | search_simulator.py:756 | one more cell adds the step cost from the last cell |
| UniformCost.CostInitial | search_simulator.py:723-731 | the prologue satisfies the cost invariant: start at cost 0 with a live entry, nothing expanded |
| UniformCost.CostPop | search_simulator.py:735-741 | the head entry carries its node's recorded cost, which lies between every visited node's cost and every waiting node's; visiting it keeps the cost invariant |
| UniformCost.VisitCosts | search_simulator.py:733-741 | the pop of an unvisited head keeps the structural and cost invariants, with every earlier expanded node still settled |
| UniformCost.CostRelink | search_simulator.py:758-768 | writing a cost and parent for n from the popped node and pushing its entry keeps the cost invariant and settles n |
| UniformCost.CostRelaxOne | search_simulator.py:756-768 | one neighbour keeps the cost invariant and settles that neighbour: afterwards it is visited or waiting at no more than the popped cost plus the step |
| UniformCost.CostRelaxAll | search_simulator.py:751-768 | the whole neighbour loop keeps the cost invariant and settles every neighbour |
| UniformCost.CostExpand | search_simulator.py:750-770 | after the neighbour loop the popped node joins the expanded nodes with all its neighbours settled |
| UniformCost.ChainCost | search_simulator.py:759-766 | a visited node's recorded cost is the cost of its reconstructed path |
| UniformCost.WalkCosts | search_simulator.py:708-709 | along any walk from start, either the popped node costs no more than the walk, or the walk ends at an expanded node that does |
| UniformCost.ChainCheapest | search_simulator.py:708-709 | when the popped node is the cheapest waiting one, its reconstructed path costs its recorded cost and no walk from start to it costs less |
| UniformCost.ExhaustedClosure | search_simulator.py:733-772 | once the queue is empty, the start is visited, frontier_set is empty, and every open neighbour of a visited node is visited |
| UniformCost.ExhaustedUnreachable | search_simulator.py:733-772 | once the queue is empty with the target never visited, no walk leads from start to target: the yielded [] means there is no path |
| UniformCost.Push | search_simulator.py:762-768 | `heappush`: the entries gain exactly the new one |
| UniformCost.PushOrdered | search_simulator.py:762-768 | pushing keeps the entries sorted by (cost, counter) |
| UniformCost.PopLeast | search_simulator.py:735 | the head is no greater than every other entry, and the rest stays sorted |
| UniformCost.StepCostOfMove | search_simulator.py:755 | a Down-Right or Up-Left step costs 1414 thousandths, every other move 1000 |
| UniformCost.Discover | search_simulator.py:758-763 | a new neighbour enters frontier_set and gets a pushed entry |
| UniformCost.Improve | search_simulator.py:764-768 | a cheaper route re-pushes without changing frontier_set |
| UniformCost.RelaxOne | search_simulator.py:752-768 | one neighbour: discovered when neither visited nor waiting, improved when waiting and strictly cheaper, else untouched; the table keeps its cells |
| UniformCost.RelaxOneCosts | search_simulator.py:756-768 | the facts of RelaxAllCosts for one neighbour |
| UniformCost.RelaxAllCosts | search_simulator.py:751-768 | over the whole neighbour loop: visited nodes keep their bookkeeping, waiting nodes stay waiting and their costs never go up, no entry leaves the queue, and every new entry is for an unvisited node and, for a node already waiting, at a strictly lower cost (re-push only on improvement) |
| UniformCost.RelaxAbove | search_simulator.py:751-768 | entries pushed during an expansion come after the popped entry in (cost, counter) order |
| UniformCost.Relax | search_simulator.py:751-768 | the neighbour loop computes RelaxAll |
| UniformCost.Skipped | search_simulator.py:733-739 | the entries skipped as visited are the leading run of visited cells |
| UniformCost.RelaxAllInv | search_simulator.py:751-768 | the neighbour loop keeps the UCS invariant |
| DepthLimited.DlsSolver.constructor | search_simulator.py:797-812 | stack = [start], start parentless at depth 0 |
| DepthLimited.DlsSolver.Advance | search_simulator.py:783-845 | one `next()`: the top is popped and visited; the target yields its path; a node at depth ≥ limit pushes nothing; otherwise the unseen neighbours are pushed reversed, each one deeper with the popped cell as parent; a returned path is a walk from start to target of depth+1 ≤ limit+1 cells |
| DepthLimited.ExpandLimited | search_simulator.py:831-837 | a node at depth ≥ limit pushes nothing and leaves the table alone; below the limit its unseen neighbours are pushed in reversed order, each with the node as parent and depth one more than the node's, and no other cell changes; the depth-bounded tree invariant is kept |
| DepthLimited.RootReset | search_simulator.py:894-895 | only the start's parent and depth change |
| DepthLimited.LimitExpand | search_simulator.py:831-837 | expansion below the limit keeps depths consistent and below limit+1 |
| DepthLimited.IddfsSolver.constructor | search_simulator.py:866-877 | no round started yet: limit 0, nothing visited |
| DepthLimited.IddfsSolver.Advance | search_simulator.py:852-922 | limits go 1, 2, … one at a time; a round that empties its stack starts the next limit with only the start re-rooted (bookkeeping not reset); after max_depth it yields ([], [], []) and ends; `steps` accumulates across rounds; the first success ends the search with a path of at most limit+1 cells |
| DepthLimited.IddfsSolver.NextRound | search_simulator.py:877-895 | the next round's prologue: the limit goes up by one, the stack is [start], nothing is visited, and in the table only the start is re-rooted (parent None, depth 0) |
| Bidirectional.Scan | search_simulator.py:972-999 | the neighbour loop of one side: appended cells, and the meeting cell if one was appended that the other side holds |
| Bidirectional.ScanFacts | search_simulator.py:972-999 | appended cells are distinct unvisited neighbours; without a meeting none is held by the other side and all unvisited neighbours are appended; with one, the meeting cell is the last appended and the first held by the other side |
| Bidirectional.SideScan | search_simulator.py:969-999 | one side's expansion keeps it rooted at its root; without a meeting the sides stay apart |
| Bidirectional.ScanSide | search_simulator.py:972-999 | the loop computes Scan and links exactly the appended cells |
| Bidirectional.ReconstructHalf | search_simulator.py:1026-1060 | the loop returns HalfPath |
| Bidirectional.HalfPath | search_simulator.py:1026-1060 | non-empty, starting at start |
| Bidirectional.MetPath | search_simulator.py:1026-1060 | at a meeting, the returned path is as AsWrittenPath says: from start to the meeting cell, a walk when the start side met, and start then target then a walk when the target side met |
| Bidirectional.ClimbRooted | search_simulator.py:1030-1034 | within a side, walking parents back stops exactly at the root |
| Bidirectional.BidirectionalSolver.constructor | search_simulator.py:942-963 | both frontiers and visited sets hold their endpoint, both endpoints parentless |
| Bidirectional.BidirectionalSolver.Advance | search_simulator.py:929-1060 | one round: an empty side yields path [] and ends; otherwise the start side expands, then, without a meeting, the target side; the yielded visited multiset is both sets; a meeting yields the path MetPath describes |
| Bidirectional.CorridorJump | search_simulator.py:965-1035 | on the three-cell corridor, the target side meets at (0,1) and the returned path [start, target, (0,1)] is not a walk |
| Beam.InsertByDistance | search_simulator.py:1132-1133 | inserting keeps the multiset |
| Beam.SortByDistance | search_simulator.py:1132-1133 | the sort is a permutation |
| Beam.SortFacts | search_simulator.py:1132-1133 | the sort is ordered by Manhattan distance to the target, and stable: the cells at each distance keep their order |
| Beam.InsertSorted | search_simulator.py:1132-1133 | insertion keeps the order |
| Beam.InsertStable | search_simulator.py:1132-1133 | insertion keeps each distance class in order |
| Beam.BeamSolver.constructor | search_simulator.py:1093-1108 | deque = [start], nothing visited, start parentless |
| Beam.BeamSolver.Trim | search_simulator.py:1113-1115 | the frontier keeps its first min(len, beam_width) cells; a width below 1 empties it |
| Beam.BeamSolver.Advance | search_simulator.py:1067-1146 | one `next()`: trim to beam_width, pop the head, visit it; the target yields its path; otherwise append the unseen neighbours sorted by Manhattan distance; a width below 1 ends with ([], [], []); a returned path is a walk from start to target |
| Scout.NextMode | search_simulator.py:1315-1331 | the mode after an expansion |
| Scout.ModeSwitch | search_simulator.py:1315-1331 | the mode changes exactly after an expansion that added nodes: BFS→DFS at depth ≥ bfs_layers, DFS→BFS at depth ≥ bfs_layers + dfs_layers |
| Scout.ScoutVisitHead | search_simulator.py:1275-1283 | taking the head in BFS mode keeps the invariant |
| Scout.ScoutVisitTop | search_simulator.py:1277-1283 | taking the tail in DFS mode keeps the invariant |
| Scout.ScoutExpand | search_simulator.py:1301-1311 | pushing the unseen neighbours one level deeper keeps the invariant |
| Scout.ScoutPath | search_simulator.py:1290-1292 | a visited node's path is a walk from start with depth+1 cells |
| Scout.ExpandScout | search_simulator.py:1297-1311 | the push loop, each new cell one deeper with the current node as parent |
| Scout.ScoutSolver.constructor | search_simulator.py:1249-1269 | one deque = [start], BFS mode, start parentless at depth 0 |
| Scout.ScoutSolver.Advance | search_simulator.py:1224-1341 | one `next()`: pop the head in BFS mode or the tail in DFS mode and visit it; the target yields its path of depth+1 cells; otherwise append the unseen neighbours and update the mode by NextMode |
| Simulator.Overlay | search_simulator.py:1830-1839 | START, TARGET and WALL cells are kept, all others are taken from the snapshot |
| Simulator.OverlayGrid | search_simulator.py:1835-1839 | the row-by-row restore loop computes Overlay |
| Simulator.MarkCells | search_simulator.py:1784-1790 | the loop over a yielded list marks exactly its markable cells |
| Simulator.RepaintTable | search_simulator.py:1778-1794 | the four painting passes compute Repaint |
| Simulator.RepaintCells | search_simulator.py:1778-1794 | per cell: fixed marks stay; otherwise PATH if on a non-empty path, else FRONTIER if in the frontier, else VISITED if visited, else EMPTY |
| Simulator.RepaintIdempotent | search_simulator.py:1778-1794 | painting the same yield twice equals painting it once |
| Simulator.RepaintKeepsFixed | search_simulator.py:1778-1794 | when no listed cell is a wall, painting changes no START, TARGET or WALL cell and creates none |
| Simulator.RestoreExact | search_simulator.py:1830-1839 | a snapshot with the same fixed cells is restored exactly |
| Simulator.SavedNewest | search_simulator.py:1822-1828 | saving keeps at most max_history_size entries, evicts the oldest first, and appends the new entry last |
| Simulator.Simulator.constructor | search_simulator.py:1593-1605 | empty history, not running, zero stats |
| Simulator.Simulator.Begin | search_simulator.py:1696-1751 | reset_search, fresh stats, empty history, index −1; step mode starts paused |
| Simulator.Simulator.Run | search_simulator.py:1694-1707 | changes nothing while a run is going; otherwise resets the search, zeroes the stats, empties the history with index −1, and starts running unpaused with the generator live |
| Simulator.Simulator.Pause | search_simulator.py:1733-1737 | toggles pause only while running |
| Simulator.Simulator.Save | search_simulator.py:1812-1828 | appends the current table, evicting the oldest at the cap, with the index following; the invariant keeps the length ≤ 1000 and the index in range |
| Simulator.Simulator.Restore | search_simulator.py:1830-1839 | out-of-range indices change nothing; otherwise Overlay, which is the stored table exactly while the fixed cells have not changed |
| Simulator.Simulator.Rewind | search_simulator.py:1759-1765 | a no-op unless index > 0; otherwise index − 1, restore that entry, pause |
| Simulator.Simulator.Paint | search_simulator.py:1778-1794 | the table becomes Repaint of one yield |
| Simulator.Simulator.Record | search_simulator.py:1791-1803 | telemetry counts; a final yield stops the run and copies the solver's steps, and path_length is updated only for a non-empty path |
| Simulator.Simulator.Apply | search_simulator.py:1778-1803 | Paint then Record |
| Simulator.Simulator.ExecuteSingleStep | search_simulator.py:1767-1810 | without a generator nothing happens; otherwise the pre-step table is saved, then StopIteration ends the run with table and stats kept, and a yield repaints the table and sets the visited and frontier counts, the step count and path_length (for a final yield) and the run flags |
| Simulator.Simulator.StepForward | search_simulator.py:1739-1757 | a running unpaused run, or one without a generator, is left alone; a paused run executes one step (history saved, then table, stats and flags as ExecuteSingleStep); with no run, the search is reset, a paused run begins, the reset table is saved and the step is applied to it from zeroed stats |
| Simulator.Simulator.Tick | search_simulator.py:1899-1950 | one animation frame, only while running, unpaused and with a generator: history untouched; StopIteration stops the run; a yield repaints the table, sets the counts, step count and path_length as ExecuteSingleStep, and a final yield stops the run |

## Left out

- Grids.Grid.constructor: requires at least one row and one column. On an empty board the source keeps endpoints that lie outside the grid, and no modelled operation is meaningful there.
- Rendering and UI are left out, because they are presentation over pygame: colours, `draw`, `screen_to_grid`, buttons, sliders, dropdowns, the sidebar, the mouse and keyboard handlers, `run`, and `pause_button.text`.
- The UI handlers `_on_reset`, `_on_clear_walls`, `_on_random_walls`, `_on_speed_change` and `_on_algorithm_change` are not modelled as driver methods. Their grid effects are the modelled `ResetSearch`, `ClearAll` and `GenerateRandomWalls`.
- Timing is left out: `pygame.time.get_ticks`, `animation_delay`, `last_step_time` and `execution_time_ms`. `Tick` models one frame after the delay has passed.
- Solver dispatch is left out. A driver step takes the solver's yield (or None for StopIteration) and its step count as parameters.
- Randomness is replaced by supplied draws. The float `wall_percentage` product becomes an integer target count.
- Grids.Grid.GenerateRandomWalls: the wall count is the caller's integer, standing for `int(rows*cols*pct)`.
- UCS costs are exact thousandths. With Python floats, sums of 1.414 can round, so exactly tied costs could order differently.
- `heapq` is modelled as a sorted list, not a binary heap. Pop order is the same, because every `(cost, counter)` key is distinct.
- Error plumbing is left out: the `try/except` handlers that print and yield `([], [], [])`, the start/target-not-found guard, and `print` diagnostics.
- Beam.BeamSolver.Advance: the one exception path kept is a beam width below 1. There `popleft` fails on an empty deque and the handler yields `([], [], [])`.
- The `if current in visited: continue` branches of BFS, DFS, randomized DFS, DLS, IDDFS, beam and Scout are dead, because no visited cell is ever in the frontier. They appear as proved-unreachable branches. UCS keeps its real skip loop.
- Bidirectional.BidirectionalSolver.Advance: the `_bidirectional_parent` scan (search_simulator.py:1039-1057) is not modelled, because it is dead code and its result is discarded.
- Bidirectional.BidirectionalSolver.Advance: the returned path is the start-side half only, as the code does it. The docstring of `_reconstruct_bidirectional_path` (search_simulator.py:1027) and the comment on `solve` (search_simulator.py:939) describe a path from start to target through the meeting cell. The code itself marks returning the start side alone as a simplification (search_simulator.py:1059). No corrected two-halves path is modelled: both sides write the one `parent` field, so the meeting cell keeps only the link its last discoverer wrote and the other side's link through it is lost; a corrected version would need a second parent table that the program does not keep. The model returns what the code returns.
- Bidirectional.MetPath: when the target side met, it states only "starts at start, ends at the meeting cell, and the rest is a walk from the target". It does not claim the path is a walk (see CorridorJump).
- DepthLimited.IddfsSolver.Advance: rounds do not reset the grid bookkeeping, as in the code. The visited list of the final `([], [], [])` yield is empty.
- Simulator.Simulator.Rewind: history entries are tables saved before each step, so one rewind shows the state two steps back. A step after a rewind appends to the history without truncating it, just as the code does. The index then no longer tracks the last entry; `Valid` promises index = length − 1 only without a rewind.
- Simulator.Simulator.Restore: the exact-restore guarantee holds only while every yield lists no WALL cell. Solvers never list walls, but the driver does not check this.
- `path_length` is never reset on a reused solver object. The model gives each run a fresh solver object.
- Completeness of DLS and beam is not proved, because the source does not promise it: DLS "may not find the target if it's beyond the depth limit" (search_simulator.py:796), and beam trimming (search_simulator.py:1113-1115) can drop the only route to the target.
- DepthLimited.IddfsSolver.Advance: completeness is not proved, although the docstring (search_simulator.py:864) promises "completeness of BFS". The code does not deliver it in general. Limits stop at `max_depth` (search_simulator.py:877). Within a round, a cell first pushed at a deep level is never pushed again when a shorter route to it turns up later, because the push skips cells already visited or on the stack (search_simulator.py:915, as in DLS at search_simulator.py:834); so a round can miss a target that lies within its limit.
- Scout's `layers_in_current_mode` and `max_depth_in_mode` counters are not modelled, because they are written but never read.
- DepthFirst.DfsSolver.Advance: when the stack empties it yields path []; the model does not prove that no walk then leads from start to target.
- DepthFirst.RandomizedDfsSolver.Advance: the same fact is not proved for its empty stack.
- Scout.ScoutSolver.Advance: the same fact is not proved for its empty frontier.
- Bidirectional.BidirectionalSolver.Advance: the same fact is not proved when either side's frontier empties.
- UniformCost.UcsSolver.Advance: optimality is proved for the integer thousandths model of step costs, not for Python's float sums.
