/**
 * BidirectionalSolver: two breadth-first searches, one from the start and
 * one from the target, advanced in turn until a newly discovered cell is
 * already known to the other side.
 *
 * Unlike the single-queue strategies, a node is marked visited when it is
 * discovered, both sides write the one `parent` field of the nodes, and the
 * path returned is built from the meeting cell by the start side's rule only
 * (`_reconstruct_bidirectional_path`, whose second half has no effect).
 * What that path is, as written, is stated by AsWrittenPath below.
 */
module Bidirectional {
  import opened Wrappers
  import opened Grids
  import opened Paths
  import opened Search

  /** The neighbour loop of one side.  Walking ns in order, every neighbour
      not yet in own is linked, added to own and appended to the side's
      queue; the loop breaks at the first such neighbour that the other side
      already holds.  Returns the appended neighbours and the meeting cell,
      if the loop broke at one. */
  function Scan(ns: seq<Pos>, own: set<Pos>, other: set<Pos>): (r: (seq<Pos>, Option<Pos>))
    decreases |ns|
  {
    if ns == [] then ([], None)
    else if ns[0] in own then Scan(ns[1..], own, other)
    else if ns[0] in other then ([ns[0]], Some(ns[0]))
    else
      var r := Scan(ns[1..], own + {ns[0]}, other);
      ([ns[0]] + r.0, r.1)
  }

  /** The appended neighbours are distinct neighbours the side did not hold.
      Without a meeting they are exactly the neighbours outside own, none of
      them held by the other side; with a meeting, the meeting cell is the
      last one appended, it is held by the other side, and no earlier one is. */
  lemma {:induction false} ScanFacts(ns: seq<Pos>, own: set<Pos>, other: set<Pos>)
    ensures var r := Scan(ns, own, other);
      NoDuplicates(r.0) &&
      (forall x :: x in r.0 ==> x in ns && x !in own) &&
      (r.1.None? ==> (forall x :: x in r.0 ==> x !in other) && (forall x :: x in ns && x !in own ==> x in r.0)) &&
      (r.1.Some? ==> r.0 != [] && r.0[|r.0| - 1] == r.1.value && r.1.value in other &&
                     (forall i :: 0 <= i < |r.0| - 1 ==> r.0[i] !in other))
    decreases |ns|
  {
    if ns != [] {
      var n := ns[0];
      if n in own {
        ScanFacts(ns[1..], own, other);
        assert forall x :: x in ns ==> x == n || x in ns[1..];
      } else if n !in other {
        ScanFacts(ns[1..], own + {n}, other);
        var r := Scan(ns[1..], own + {n}, other);
        assert Scan(ns, own, other).0 == [n] + r.0;
        assert forall x :: x in ns ==> x == n || x in ns[1..];
      }
    }
  }

  /** The parent table after the appended cells a were linked to cur. */
  function Link(info: map<Pos, NodeInfo>, a: seq<Pos>, cur: Pos): (r: map<Pos, NodeInfo>)
  {
    map p | p in info :: if p in a then info[p].(parent := Some(cur)) else info[p]
  }

  /** Visit ranks for the appended cells: each one ranks above every cell the
      side held before it. */
  ghost function Extend(rank: map<Pos, nat>, a: seq<Pos>, v: set<Pos>): map<Pos, nat>
    decreases |a|
  {
    if a == [] then rank
    else
      var init := a[..|a| - 1];
      Extend(rank, init, v)[a[|a| - 1] := |v + Members(init)|]
  }

  /** The nodes of one side hang off its root, and its queue holds only nodes
      of that side. */
  ghost predicate SideInv(s: map<Pos, NodeState>, info: map<Pos, NodeInfo>, root: Pos, v: set<Pos>, f: seq<Pos>, rank: map<Pos, nat>) {
    root in v && (forall i :: 0 <= i < |f| ==> f[i] in v) && AllRooted(s, info, root, v, rank)
  }

  /** Rooted, expanded only where a proof names SideRooted(..., Unfold). */
  ghost predicate AllRooted(s: map<Pos, NodeState>, info: map<Pos, NodeInfo>, root: Pos, v: set<Pos>, rank: map<Pos, nat>) {
    forall u: Unfolding {:trigger SideRooted(s, info, root, v, rank, u)} :: SideRooted(s, info, root, v, rank, u)
  }

  ghost predicate SideRooted(s: map<Pos, NodeState>, info: map<Pos, NodeInfo>, root: Pos, v: set<Pos>, rank: map<Pos, nat>, u: Unfolding) {
    Rooted(s, info, root, v, rank)
  }

  /** Before the two sides meet, they share no cell but a common root. */
  ghost predicate Apart(a: set<Pos>, b: set<Pos>, ra: Pos, rb: Pos) {
    forall p :: p in a && p in b ==> p == ra && p == rb
  }

  /** The invariant of the search while the sides have not met. */
  ghost predicate BidirInv(s: map<Pos, NodeState>, info: map<Pos, NodeInfo>, start: Pos, target: Pos,
                           fs: seq<Pos>, ft: seq<Pos>, vs: set<Pos>, vt: set<Pos>, rs: map<Pos, nat>, rt: map<Pos, nat>) {
    SideInv(s, info, start, vs, fs, rs) && SideInv(s, info, target, vt, ft, rt) && Apart(vs, vt, start, target)
  }

  /** Linking one new neighbour x of a held node keeps a side rooted. */
  lemma RootedLink(s: map<Pos, NodeState>, info: map<Pos, NodeInfo>, root: Pos, v: set<Pos>, rank: map<Pos, nat>, x: Pos, cur: Pos,
                    info': map<Pos, NodeInfo>, v': set<Pos>, rank': map<Pos, nat>)
    requires Rooted(s, info, root, v, rank) && root in v && cur in v
    requires x in info && x !in v && x in Neighbors(s, cur)
    requires info' == info[x := info[x].(parent := Some(cur))] && v' == v + {x} && rank' == rank[x := |v|]
    ensures Rooted(s, info', root, v', rank')
  {
    RankedFrame(info, info', rank);
    RankedAdd(info', rank, x, |v|);
    forall p | p in v + {x} ensures Linked(s, info', root, p) {
      if p != x {
        assert Linked(s, info, root, p);
      }
    }
  }

  /** Linking a run of distinct new neighbours of a held node, in order,
      keeps the side rooted. */
  lemma {:induction false} LinkRooted(s: map<Pos, NodeState>, info: map<Pos, NodeInfo>, root: Pos, v: set<Pos>, rank: map<Pos, nat>,
                                      cur: Pos, a: seq<Pos>)
    requires Rooted(s, info, root, v, rank) && root in v && cur in v && NoDuplicates(a)
    requires forall x :: x in a ==> x in info && x !in v && x in Neighbors(s, cur)
    ensures Rooted(s, Link(info, a, cur), root, v + Members(a), Extend(rank, a, v))
    decreases |a|
  {
    if a == [] {
      assert v + Members(a) == v && Link(info, a, cur) == info;
    } else {
      var init, x := a[..|a| - 1], a[|a| - 1];
      assert a == init + [x];
      LinkRooted(s, info, root, v, rank, cur, init);
      LinkLast(s, info, root, v, rank, cur, init, x);
    }
  }

  /** The step of LinkRooted: linking x after the cells init. */
  lemma LinkLast(s: map<Pos, NodeState>, info: map<Pos, NodeInfo>, root: Pos, v: set<Pos>, rank: map<Pos, nat>,
                 cur: Pos, init: seq<Pos>, x: Pos)
    requires root in v && cur in v && x in info && x !in v && x !in init && x in Neighbors(s, cur)
    requires Rooted(s, Link(info, init, cur), root, v + Members(init), Extend(rank, init, v))
    ensures Rooted(s, Link(info, init + [x], cur), root, v + Members(init + [x]), Extend(rank, init + [x], v))
  {
    var a := init + [x];
    assert a[..|a| - 1] == init;
    var l := Link(info, init, cur);
    LinkSnoc(info, a, cur);
    RootedLink(s, l, root, v + Members(init), Extend(rank, init, v), x, cur,
               Link(info, a, cur), v + Members(a), Extend(rank, a, v));
  }

  /** Linking a is linking all of a but its last cell, then that cell. */
  lemma LinkSnoc(info: map<Pos, NodeInfo>, a: seq<Pos>, cur: Pos)
    requires a != [] && a[|a| - 1] in info
    ensures var l, x := Link(info, a[..|a| - 1], cur), a[|a| - 1];
      Link(info, a, cur) == l[x := l[x].(parent := Some(cur))] &&
      Members(a) == Members(a[..|a| - 1]) + {x}
  {
    assert a == a[..|a| - 1] + [a[|a| - 1]];
  }

  /** A side whose cells the new links avoid stays rooted. */
  lemma RootedFrame(s: map<Pos, NodeState>, info: map<Pos, NodeInfo>, info': map<Pos, NodeInfo>, root: Pos, v: set<Pos>, rank: map<Pos, nat>)
    requires Rooted(s, info, root, v, rank) && root in v
    requires forall p :: p in v ==> p in info' && info'[p] == info[p]
    ensures Rooted(s, info', root, v, rank)
  {
    RankedFrame(info, info', rank);
    forall p | p in v ensures Linked(s, info', root, p) {
      assert Linked(s, info, root, p);
    }
  }

  /** One side's expansion: pop the head of its queue and scan its
      neighbours.  The side stays rooted with the appended cells; without a
      meeting the other side is untouched and the sides stay apart; with a
      meeting the meeting cell is the only cell the expansion brought into
      both sides. */
  lemma SideScan(s: map<Pos, NodeState>, info: map<Pos, NodeInfo>, root: Pos, own: set<Pos>, fOwn: seq<Pos>, rank: map<Pos, nat>,
                 root2: Pos, other: set<Pos>, fOther: seq<Pos>, rank2: map<Pos, nat>)
    requires info.Keys == s.Keys && fOwn != []
    requires SideInv(s, info, root, own, fOwn, rank) && SideInv(s, info, root2, other, fOther, rank2) && Apart(own, other, root, root2)
    ensures var cur := fOwn[0];
      var r := Scan(Neighbors(s, cur), own, other);
      var info' := Link(info, r.0, cur);
      var own' := own + Members(r.0);
      SideInv(s, info', root, own', fOwn[1..] + r.0, Extend(rank, r.0, own)) &&
      (r.1.None? ==> SideInv(s, info', root2, other, fOther, rank2) && Apart(own', other, root, root2)) &&
      (r.1.Some? ==> r.1.value in own' && r.1.value in other &&
                     forall x :: x in own' && x in other && x !in own ==> x == r.1.value)
  {
    var cur := fOwn[0];
    var ns := Neighbors(s, cur);
    var r := Scan(ns, own, other);
    var info' := Link(info, r.0, cur);
    var own' := own + Members(r.0);
    ScanFacts(ns, own, other);
    SideScanOwn(s, info, root, own, fOwn, rank, other);
    if r.1.None? {
      assert SideRooted(s, info, root2, other, rank2, Unfold);
      RootedFrame(s, info, info', root2, other, rank2);
    } else {
      forall x | x in own' && x in other && x !in own ensures x == r.1.value {
        var i :| 0 <= i < |r.0| && r.0[i] == x;
        assert i == |r.0| - 1;
      }
    }
  }

  /** The expanding side's part of SideScan: it stays rooted, and its queue
      holds only its own cells. */
  lemma SideScanOwn(s: map<Pos, NodeState>, info: map<Pos, NodeInfo>, root: Pos, own: set<Pos>, fOwn: seq<Pos>, rank: map<Pos, nat>,
                    other: set<Pos>)
    requires info.Keys == s.Keys && fOwn != []
    requires SideInv(s, info, root, own, fOwn, rank)
    ensures var cur := fOwn[0];
      var r := Scan(Neighbors(s, cur), own, other);
      SideInv(s, Link(info, r.0, cur), root, own + Members(r.0), fOwn[1..] + r.0, Extend(rank, r.0, own))
  {
    var cur := fOwn[0];
    var ns := Neighbors(s, cur);
    var r := Scan(ns, own, other);
    var own' := own + Members(r.0);
    assert SideRooted(s, info, root, own, rank, Unfold);
    ScanFacts(ns, own, other);
    assert cur in own;
    LinkRooted(s, info, root, own, rank, cur, r.0);
    var f' := fOwn[1..] + r.0;
    forall i | 0 <= i < |f'| ensures f'[i] in own' {
      if i < |fOwn| - 1 {
        assert f'[i] == fOwn[i + 1];
      } else {
        assert f'[i] == r.0[i - |fOwn| + 1];
      }
    }
    assert SideRooted(s, Link(info, r.0, cur), root, own', Extend(rank, r.0, own), Unfold);
  }

  /** The start side's walk back from n: n, its parent, its parent's parent,
      ... stopping before the start, or after a node without a parent. */
  ghost function Climb(info: map<Pos, NodeInfo>, n: Pos, stop: Pos, rank: map<Pos, nat>): seq<Pos>
    requires Ranked(info, rank) && n in rank
    decreases rank[n]
  {
    if n == stop then []
    else
      assert RankedAt(info, rank, n);
      match info[n].parent
      case None => [n]
      case Some(q) => [n] + Climb(info, q, stop, rank)
  }

  /** _reconstruct_bidirectional_path as written: the walk back from the
      meeting cell, then the start, all reversed. */
  ghost function HalfPath(info: map<Pos, NodeInfo>, m: Pos, start: Pos, rank: map<Pos, nat>): (r: seq<Pos>)
    requires Ranked(info, rank) && m in rank
    ensures r != [] && r[0] == start
  {
    Reverse(Climb(info, m, start, rank) + [start])
  }

  /** Within a side rooted at root, walking back from n stops exactly at the
      root: the walk and the root make up n's ancestry. */
  lemma {:induction false} ClimbRooted(s: map<Pos, NodeState>, info: map<Pos, NodeInfo>, root: Pos, v: set<Pos>, rank: map<Pos, nat>, n: Pos)
    requires Rooted(s, info, root, v, rank) && n in v
    ensures Climb(info, n, root, rank) + [root] == Ancestry(info, n, rank)
    decreases rank[n]
  {
    assert RankedAt(info, rank, n);
    assert Linked(s, info, root, n);
    if n != root {
      var q := info[n].parent.value;
      ClimbRooted(s, info, root, v, rank, q);
    }
  }

  /** When the stop cell is not ranked, the walk back is the whole ancestry. */
  lemma {:induction false} ClimbAvoids(info: map<Pos, NodeInfo>, n: Pos, stop: Pos, rank: map<Pos, nat>)
    requires Ranked(info, rank) && n in rank && stop !in rank
    ensures Climb(info, n, stop, rank) == Ancestry(info, n, rank)
    decreases rank[n]
  {
    assert RankedAt(info, rank, n);
    if info[n].parent.Some? {
      ClimbAvoids(info, info[n].parent.value, stop, rank);
    }
  }

  lemma ReverseSnoc(a: seq<Pos>, x: Pos)
    ensures Reverse(a + [x]) == [x] + Reverse(a)
  {
    var l, r := Reverse(a + [x]), [x] + Reverse(a);
    forall i | 0 <= i < |l| ensures l[i] == r[i] {
      if i > 0 {
        assert (a + [x])[|a| - i] == a[|a| - 1 - (i - 1)];
      }
    }
  }

  /** What the path returned at a meeting cell m is.  It always starts at the
      start and ends at m, a cell both sides hold.  When the start side found
      m, or the target side found it with start and target the same cell or
      m the start itself, it is a walk of distinct cells.  When the target
      side found m otherwise, m's parent points into the target side, so
      after the start come the target and the target side's walk to m: the
      path jumps from the start to the target. */
  ghost predicate AsWrittenPath(s: map<Pos, NodeState>, start: Pos, target: Pos, m: Pos, fromStart: bool,
                                vs: set<Pos>, vt: set<Pos>, p: seq<Pos>) {
    p != [] && p[0] == start && p[|p| - 1] == m && m in vs && m in vt &&
    (fromStart ==> IsWalk(s, p) && NoDuplicates(p) && forall i :: 0 <= i < |p| ==> p[i] in vs) &&
    (!fromStart && (start == target || m == start) ==>
      IsWalk(s, p) && NoDuplicates(p) && forall i :: 0 <= i < |p| ==> p[i] in vt) &&
    (!fromStart && start != target && m != start ==>
      |p| >= 2 && p[1] == target && IsWalk(s, p[1..]) && NoDuplicates(p[1..]) && forall i :: 1 <= i < |p| ==> p[i] in vt)
  }

  /** What the finishing step knows at a meeting: the side that found m is
      rooted under rank, and if it was the target side, the start belongs to
      it only when it is the target or the meeting cell. */
  ghost predicate MetInv(s: map<Pos, NodeState>, info: map<Pos, NodeInfo>, start: Pos, target: Pos,
                         vs: set<Pos>, vt: set<Pos>, rank: map<Pos, nat>, fromStart: bool, m: Pos) {
    m in vs && m in vt && start in vs &&
    (fromStart ==> AllRooted(s, info, start, vs, rank)) &&
    (!fromStart ==> AllRooted(s, info, target, vt, rank) && (start != target && m != start ==> start !in vt))
  }

  /** At a meeting, the reconstructed path is the one AsWrittenPath describes. */
  lemma MetPath(s: map<Pos, NodeState>, info: map<Pos, NodeInfo>, start: Pos, target: Pos,
                vs: set<Pos>, vt: set<Pos>, rank: map<Pos, nat>, fromStart: bool, m: Pos)
    requires MetInv(s, info, start, target, vs, vt, rank, fromStart, m)
    ensures Ranked(info, rank) && m in rank
    ensures AsWrittenPath(s, start, target, m, fromStart, vs, vt, HalfPath(info, m, start, rank))
  {
    if fromStart {
      assert SideRooted(s, info, start, vs, rank, Unfold);
    } else {
      assert SideRooted(s, info, target, vt, rank, Unfold);
    }
    var p := HalfPath(info, m, start, rank);
    if fromStart || start == target {
      var v := if fromStart then vs else vt;
      ClimbRooted(s, info, start, v, rank, m);
      FoundPath(s, info, start, v, rank, m);
    } else if m == start {
      assert p == [start];
    } else {
      ClimbAvoids(info, m, start, rank);
      ReverseSnoc(Ancestry(info, m, rank), start);
      assert p[1..] == ParentChain(info, m, rank);
      FoundPath(s, info, target, vt, rank, m);
    }
  }

  /** One side's neighbour loop on the grid: link, record and append each
      new neighbour, and stop at the first one the other side holds. */
  method ScanSide(g: Grid, cur: Pos, ns: seq<Pos>, own: set<Pos>, other: set<Pos>) returns (added: seq<Pos>, meet: Option<Pos>)
    modifies g`info
    ensures (added, meet) == Scan(ns, own, other)
    ensures g.info == Link(old(g.info), added, cur)
  {
    added, meet := [], None;
    var seen := own;
    var i := 0;
    assert ns[0..] == ns && [] + Scan(ns, own, other).0 == Scan(ns, own, other).0;
    while i < |ns| && meet.None?
      invariant 0 <= i <= |ns|
      invariant seen == own + Members(added)
      invariant g.info == Link(old(g.info), added, cur)
      invariant meet.None? ==>
        Scan(ns, own, other) == (added + Scan(ns[i..], seen, other).0, Scan(ns[i..], seen, other).1)
      invariant meet.Some? ==> Scan(ns, own, other) == (added, meet)
    {
      var n := ns[i];
      assert ns[i..][0] == n && ns[i..][1..] == ns[i + 1..];
      if n !in seen {
        if n in g.info {
          g.info := g.info[n := g.info[n].(parent := Some(cur))];
        }
        assert g.info == Link(old(g.info), added + [n], cur);
        ghost var rest := Scan(ns[i + 1..], seen + {n}, other);
        assert n !in other ==> added + Scan(ns[i..], seen, other).0 == (added + [n]) + rest.0;
        added := added + [n];
        seen := seen + {n};
        if n in other {
          meet := Some(n);
        }
      }
      i := i + 1;
    }
    if meet.None? {
      assert ns[i..] == [] && added + [] == added;
    }
  }

  /** One side's expansion on the grid: pop the head of the side's queue,
      scan its neighbours and rank the appended cells.  The facts of SideScan
      hold of the new table. */
  method ExpandSide(g: Grid, root: Pos, own: set<Pos>, fOwn: seq<Pos>, ghost rank: map<Pos, nat>,
                    ghost root2: Pos, other: set<Pos>, ghost fOther: seq<Pos>, ghost rank2: map<Pos, nat>)
    returns (f: seq<Pos>, v: set<Pos>, meet: Option<Pos>, ghost rank': map<Pos, nat>)
    requires g.info.Keys == g.state.Keys && fOwn != []
    requires SideInv(g.state, g.info, root, own, fOwn, rank) && SideInv(g.state, g.info, root2, other, fOther, rank2)
    requires Apart(own, other, root, root2)
    modifies g`info
    ensures var r := Scan(Neighbors(g.state, fOwn[0]), own, other);
      f == fOwn[1..] + r.0 && v == own + Members(r.0) && meet == r.1 && g.info == Link(old(g.info), r.0, fOwn[0])
    ensures SideInv(g.state, g.info, root, v, f, rank')
    ensures meet.None? ==> SideInv(g.state, g.info, root2, other, fOther, rank2) && Apart(v, other, root, root2)
    ensures meet.Some? ==>
      meet.value in v && meet.value in other && (forall x :: x in v && x in other && x !in own ==> x == meet.value)
  {
    var cur := fOwn[0];
    var ns := Neighbors(g.state, cur);
    SideScan(g.state, g.info, root, own, fOwn, rank, root2, other, fOther, rank2);
    var added;
    added, meet := ScanSide(g, cur, ns, own, other);
    rank' := Extend(rank, added, own);
    f, v := fOwn[1..] + added, own + Members(added);
  }

  /** _reconstruct_bidirectional_path: collect the meeting cell and its
      ancestors until the start or a node without a parent, append the start
      and reverse. */
  method ReconstructHalf(g: Grid, m: Pos, start: Pos, ghost rank: map<Pos, nat>) returns (path: seq<Pos>)
    requires Ranked(g.info, rank) && m in rank
    ensures path == HalfPath(g.info, m, start, rank)
  {
    var collected: seq<Pos> := [];
    var current: Option<Pos> := Some(m);
    while current.Some? && current.value != start
      invariant current.Some? ==>
        current.value in rank && collected + Climb(g.info, current.value, start, rank) == Climb(g.info, m, start, rank)
      invariant current.None? ==> collected == Climb(g.info, m, start, rank)
      decreases if current.Some? then rank[current.value] + 1 else 0
    {
      var n := current.value;
      assert RankedAt(g.info, rank, n);
      collected := collected + [n];
      current := g.info[n].parent;
    }
    path := Reverse(collected + [start]);
  }

  class BidirectionalSolver {
    const grid: Grid
    const start: Pos
    const target: Pos
    var frontierStart: seq<Pos>
    var frontierTarget: seq<Pos>
    var visitedStart: set<Pos>
    var visitedTarget: set<Pos>
    /** meeting_point. */
    var meeting: Option<Pos>
    var steps: nat
    var pathLength: nat
    /** The generator has returned. */
    var done: bool
    /** Discovery order of each side, the termination measure of its parent chains. */
    ghost var rankStart: map<Pos, nat>
    ghost var rankTarget: map<Pos, nat>
    /** At a meeting: which side found it, and that side's ranks. */
    ghost var metFromStart: bool
    ghost var pathRank: map<Pos, nat>

    ghost predicate Valid()
      reads this, grid
    {
      grid.info.Keys == grid.state.Keys &&
      (!done ==> meeting.None? && forall u: Unfolding {:trigger Holds(u)} :: Holds(u))
    }

    ghost predicate Holds(u: Unfolding)
      reads this`frontierStart, this`frontierTarget, this`visitedStart, this`visitedTarget,
            this`rankStart, this`rankTarget, grid`state, grid`info
    {
      BidirInv(grid.state, grid.info, start, target, frontierStart, frontierTarget,
               visitedStart, visitedTarget, rankStart, rankTarget)
    }

    /** solve's prologue: each side's queue and visited set hold its own
        root, and both roots lose their parents. */
    constructor (g: Grid)
      requires g.Valid()
      modifies g`info
      ensures Valid() && grid == g && start == g.startPos && target == g.targetPos
      ensures frontierStart == [start] && frontierTarget == [target]
      ensures visitedStart == {start} && visitedTarget == {target}
      ensures meeting.None? && steps == 0 && pathLength == 0 && !done
      ensures g.info == old(g.info)[start := old(g.info)[start].(parent := None)][target := old(g.info)[target].(parent := None)]
    {
      grid := g;
      start := g.startPos;
      target := g.targetPos;
      frontierStart, frontierTarget := [g.startPos], [g.targetPos];
      visitedStart, visitedTarget := {g.startPos}, {g.targetPos};
      meeting := None;
      steps, pathLength, done := 0, 0, false;
      rankStart, rankTarget := map[g.startPos := 0], map[g.targetPos := 0];
      metFromStart, pathRank := false, map[];
      new;
      if start == target {
        g.info := g.info[start := g.info[start].(parent := None)];
      } else {
        g.info := g.info[start := g.info[start].(parent := None)][target := g.info[target].(parent := None)];
      }
      assert Holds(Unfold);
    }

    /** One resumption of the generator.  With both queues non-empty it is
        one round: the start side expands its head, and, unless that met the
        target side, the target side expands its head; a meeting ends the run
        with the reconstructed path, otherwise the combined queues and visited
        sets are yielded.  An empty queue ends the run with an empty path. */
    method Advance() returns (snap: Snapshot)
      requires Valid() && !done
      modifies this, grid`info
      ensures Valid()
      ensures old(frontierStart) == [] || old(frontierTarget) == [] ==>
        done && meeting.None? && frontierStart == old(frontierStart) && frontierTarget == old(frontierTarget) &&
        visitedStart == old(visitedStart) && visitedTarget == old(visitedTarget) &&
        steps == old(steps) && pathLength == old(pathLength) && grid.info == old(grid.info) &&
        snap == Snapshot(frontierStart + frontierTarget, multiset(visitedStart) + multiset(visitedTarget), Some([]))
      ensures old(frontierStart) != [] && old(frontierTarget) != [] ==>
        var cs := old(frontierStart)[0];
        var rs := Scan(Neighbors(grid.state, cs), old(visitedStart), old(visitedTarget));
        var info1 := Link(old(grid.info), rs.0, cs);
        steps == old(steps) + 1 &&
        frontierStart == old(frontierStart)[1..] + rs.0 && visitedStart == old(visitedStart) + Members(rs.0) &&
        (rs.1.Some? ==>
          meeting == rs.1 && metFromStart && frontierTarget == old(frontierTarget) &&
          visitedTarget == old(visitedTarget) && grid.info == info1) &&
        (rs.1.None? ==>
          var ct := old(frontierTarget)[0];
          var rt := Scan(Neighbors(grid.state, ct), old(visitedTarget), visitedStart);
          meeting == rt.1 && !metFromStart &&
          frontierTarget == old(frontierTarget)[1..] + rt.0 && visitedTarget == old(visitedTarget) + Members(rt.0) &&
          grid.info == Link(info1, rt.0, ct)) &&
        done == meeting.Some? &&
        snap.frontier == frontierStart + frontierTarget &&
        snap.visited == multiset(visitedStart) + multiset(visitedTarget) &&
        (snap.path.Some? <==> done) && (!done ==> pathLength == old(pathLength))
      ensures done && meeting.Some? ==>
        Ranked(grid.info, pathRank) && meeting.value in pathRank &&
        snap.path == Some(HalfPath(grid.info, meeting.value, start, pathRank)) && pathLength == |snap.path.value| &&
        AsWrittenPath(grid.state, start, target, meeting.value, metFromStart, visitedStart, visitedTarget, snap.path.value)
    {
      if frontierStart == [] || frontierTarget == [] {
        done := true;
        return Snapshot(frontierStart + frontierTarget, multiset(visitedStart) + multiset(visitedTarget), Some([]));
      }
      StepStart();
      if meeting.Some? {
        snap := Finish();
      } else {
        snap := StepTarget();
      }
    }

    /** The start side's half of a round (with the round's step count). */
    method StepStart()
      requires Valid() && !done && frontierStart != []
      modifies this`frontierStart, this`visitedStart, this`rankStart, this`steps, this`meeting,
               this`metFromStart, this`pathRank, grid`info
      ensures grid.info.Keys == grid.state.Keys && (meeting.None? ==> Valid()) && steps == old(steps) + 1
      ensures var cs := old(frontierStart)[0];
        var rs := Scan(Neighbors(grid.state, cs), old(visitedStart), visitedTarget);
        frontierStart == old(frontierStart)[1..] + rs.0 && visitedStart == old(visitedStart) + Members(rs.0) &&
        grid.info == Link(old(grid.info), rs.0, cs) && meeting == rs.1 && metFromStart == rs.1.Some?
      ensures meeting.Some? ==>
        MetInv(grid.state, grid.info, start, target, visitedStart, visitedTarget, pathRank, true, meeting.value)
    {
      assert Holds(Unfold);
      var f, v, meet, rank' := ExpandSide(grid, start, visitedStart, frontierStart, rankStart,
                                          target, visitedTarget, frontierTarget, rankTarget);
      frontierStart, visitedStart, steps, meeting, rankStart, metFromStart, pathRank :=
        f, v, steps + 1, meet, rank', meet.Some?, rank';
    }

    /** The target side's half of a round, and the round's yield. */
    method StepTarget() returns (snap: Snapshot)
      requires Valid() && !done && !metFromStart && frontierTarget != []
      modifies this`frontierTarget, this`visitedTarget, this`rankTarget, this`meeting, this`pathRank,
               this`pathLength, this`done, grid`info
      ensures Valid()
      ensures var ct := old(frontierTarget)[0];
        var rt := Scan(Neighbors(grid.state, ct), old(visitedTarget), visitedStart);
        frontierTarget == old(frontierTarget)[1..] + rt.0 && visitedTarget == old(visitedTarget) + Members(rt.0) &&
        grid.info == Link(old(grid.info), rt.0, ct) && meeting == rt.1
      ensures done == meeting.Some?
      ensures snap.frontier == frontierStart + frontierTarget && snap.visited == multiset(visitedStart) + multiset(visitedTarget)
      ensures !done ==> snap.path == None && pathLength == old(pathLength)
      ensures done ==>
        Ranked(grid.info, pathRank) && meeting.value in pathRank &&
        snap.path == Some(HalfPath(grid.info, meeting.value, start, pathRank)) && pathLength == |snap.path.value| &&
        AsWrittenPath(grid.state, start, target, meeting.value, metFromStart, visitedStart, visitedTarget, snap.path.value)
    {
      assert Holds(Unfold);
      var f, v, meet, rank' := ExpandSide(grid, target, visitedTarget, frontierTarget, rankTarget,
                                          start, visitedStart, frontierStart, rankStart);
      frontierTarget, visitedTarget, meeting, rankTarget, pathRank := f, v, meet, rank', rank';
      if meet.Some? {
        snap := Finish();
      } else {
        snap := Snapshot(frontierStart + frontierTarget, multiset(visitedStart) + multiset(visitedTarget), None);
      }
    }

    /** After the loop, at a meeting: reconstruct the path and end the run. */
    method Finish() returns (snap: Snapshot)
      requires grid.info.Keys == grid.state.Keys && !done && meeting.Some?
      requires MetInv(grid.state, grid.info, start, target, visitedStart, visitedTarget, pathRank, metFromStart, meeting.value)
      modifies this`pathLength, this`done
      ensures Valid() && done
      ensures Ranked(grid.info, pathRank) && meeting.value in pathRank
      ensures snap == Snapshot(frontierStart + frontierTarget, multiset(visitedStart) + multiset(visitedTarget),
                               Some(HalfPath(grid.info, meeting.value, start, pathRank)))
      ensures pathLength == |snap.path.value|
      ensures AsWrittenPath(grid.state, start, target, meeting.value, metFromStart, visitedStart, visitedTarget, snap.path.value)
    {
      MetPath(grid.state, grid.info, start, target, visitedStart, visitedTarget, pathRank, metFromStart, meeting.value);
      var path := ReconstructHalf(grid, meeting.value, start, pathRank);
      pathLength := |path|;
      done := true;
      snap := Snapshot(frontierStart + frontierTarget, multiset(visitedStart) + multiset(visitedTarget), Some(path));
    }
  }

  /** A corridor of one row of three cells, as Grid(1, 3) lays it out: the
      start (0, 0), the target (0, 2) and between them an open (0, 1).  Each
      end has the middle cell as its only neighbour. */
  lemma CorridorNeighbors(s: map<Pos, NodeState>)
    requires forall q :: q in s <==> q.row == 0 && 0 <= q.col < 3
    requires s[Pos(0, 1)] != Wall
    ensures Neighbors(s, Pos(0, 0)) == [Pos(0, 1)] && Neighbors(s, Pos(0, 2)) == [Pos(0, 1)]
  {
    CorridorEnd(s, Pos(0, 0));
    CorridorEnd(s, Pos(0, 2));
  }

  lemma CorridorEnd(s: map<Pos, NodeState>, p: Pos)
    requires forall q :: q in s <==> q.row == 0 && 0 <= q.col < 3
    requires s[Pos(0, 1)] != Wall && (p == Pos(0, 0) || p == Pos(0, 2))
    ensures Neighbors(s, p) == [Pos(0, 1)]
  {
    var ds := Directions;
    var e := if p.col == 0 then [] else [Pos(0, 1)];
    assert OpenAlong(s, p, ds[6..]) == [];
    assert OpenAlong(s, p, ds[5..]) == [];
    assert OpenAlong(s, p, ds[4..]) == e;
    assert OpenAlong(s, p, ds[3..]) == e;
    assert OpenAlong(s, p, ds[2..]) == e;
    assert OpenAlong(s, p, ds[1..]) == [Pos(0, 1)];
  }

  /** The corridor's first round, following Advance's contract: the start
      side appends (0, 1) without meeting; the target side then finds (0, 1),
      already held by the start side, and relinks it to the target.  The path
      returned is start, target, (0, 1): its first step is not a move between
      neighbours. */
  lemma CorridorJump(s: map<Pos, NodeState>, info0: map<Pos, NodeInfo>)
    requires forall q :: q in s <==> q.row == 0 && 0 <= q.col < 3
    requires s[Pos(0, 1)] != Wall
    requires info0.Keys == s.Keys && info0[Pos(0, 2)].parent == None
    ensures var a, b, c := Pos(0, 0), Pos(0, 1), Pos(0, 2);
      var rs := Scan(Neighbors(s, a), {a}, {c});
      var rt := Scan(Neighbors(s, c), {c}, {a} + Members(rs.0));
      var info := Link(Link(info0, rs.0, a), rt.0, c);
      var rank := map[c := 0, b := 1];
      rs == ([b], None) && rt == ([b], Some(b)) &&
      Ranked(info, rank) && HalfPath(info, b, a, rank) == [a, c, b]
    ensures !IsWalk(s, [Pos(0, 0), Pos(0, 2), Pos(0, 1)])
  {
    var a, b, c := Pos(0, 0), Pos(0, 1), Pos(0, 2);
    CorridorNeighbors(s);
    assert [b][1..] == [] && [b] + [] == [b];
    assert Scan([b], {a}, {c}) == ([b], None);
    assert Members([b]) == {b};
    assert Scan([b], {c}, {a, b}) == ([b], Some(b));
    var info := Link(Link(info0, [b], a), [b], c);
    var rank := map[c := 0, b := 1];
    assert info[b].parent == Some(c) && info[c].parent == None;
    assert RankedAt(info, rank, b) && RankedAt(info, rank, c);
    assert Climb(info, b, a, rank) == [b, c];
    assert Reverse([b, c, a]) == [a, c, b];
    var w := [a, c, b];
    assert w[1] !in Neighbors(s, w[0]);
  }
}
