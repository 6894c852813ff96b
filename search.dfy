/**
 * What the strategies share: the snapshot each advance yields, the expansion
 * step "link and append every neighbour seen for the first time", and the
 * invariant of the queue- and stack-based strategies (breadth-first,
 * depth-first, randomized depth-first, depth-limited, iterative deepening,
 * beam and scout) that makes their reconstructed paths real paths.
 */
module Search {
  import opened Wrappers
  import opened Grids
  import opened Paths

  /** One yield of a solver: (frontier, visited, path).  `path` is None while
      the search goes on, Some([]) when it ended without reaching the target,
      and Some(p) with p the reconstructed path on success.  The visited list
      is a multiset because the source builds it from sets (whose order is
      unspecified) and the bidirectional strategy concatenates two of them. */
  datatype Snapshot = Snapshot(frontier: seq<Pos>, visited: multiset<Pos>, path: Option<seq<Pos>>)

  /** The cells of a sequence. */
  function Members(a: seq<Pos>): (r: set<Pos>)
    ensures forall x :: x in r <==> x in a
  {
    set x | x in a
  }

  /** A type with the single value Unfold.  An invariant stated as "for
      every u: Unfolding, Holds(..., u)" is only expanded where a proof names
      Holds(..., Unfold): the solver methods pass such an invariant on whole,
      and the lemmas about one step open it. */
  datatype Unfolding = Unfold

  /** The neighbours ns picks up, in order, when each one not in visited and
      not in the (growing) frontier is appended: the `if neighbor not in
      visited and neighbor not in frontier` loop. */
  function Unseen(ns: seq<Pos>, visited: set<Pos>, frontier: seq<Pos>): (r: seq<Pos>)
    ensures forall x :: x in r ==> x in ns && x !in visited && x !in frontier
  {
    if ns == [] then []
    else
      var u := Unseen(ns[..|ns| - 1], visited, frontier);
      var n := ns[|ns| - 1];
      if n in visited || n in frontier || n in u then u else u + [n]
  }

  /** The appended neighbours are exactly the candidates outside visited and
      frontier, each once, and no more of them than there are candidates. */
  lemma {:induction false} UnseenFacts(ns: seq<Pos>, visited: set<Pos>, frontier: seq<Pos>)
    ensures var u := Unseen(ns, visited, frontier);
      (forall x :: x in ns && x !in visited && x !in frontier ==> x in u) &&
      NoDuplicates(u) && |u| <= |ns|
    decreases |ns|
  {
    if ns != [] {
      var init := ns[..|ns| - 1];
      UnseenFacts(init, visited, frontier);
      assert ns == init + [ns[|ns| - 1]];
    }
  }

  /** The last appended neighbour is the last candidate that was neither
      visited nor waiting. */
  lemma {:induction false} UnseenLast(ns: seq<Pos>, visited: set<Pos>, frontier: seq<Pos>, j: int)
    requires NoDuplicates(ns) && 0 <= j < |ns| && ns[j] !in visited && ns[j] !in frontier
    requires forall k :: j < k < |ns| ==> ns[k] in visited || ns[k] in frontier
    ensures var u := Unseen(ns, visited, frontier); u != [] && u[|u| - 1] == ns[j]
    decreases |ns|
  {
    var init := ns[..|ns| - 1];
    if j < |ns| - 1 {
      UnseenLast(init, visited, frontier, j);
    } else {
      assert ns[j] !in init;
    }
  }

  /** Expansion: the loop over ns appending each neighbour not in visited
      and not yet in the frontier, after setting its parent to cur (and, for
      the depth-tracking strategies, its depth to cur's depth plus one). */
  method PushUnseen(g: Grid, cur: Pos, ns: seq<Pos>, visited: set<Pos>, frontier: seq<Pos>, setDepth: bool)
    returns (next: seq<Pos>)
    requires cur in g.info && cur in visited
    requires forall n :: n in ns ==> n in g.info
    modifies g`info
    ensures next == frontier + Unseen(ns, visited, frontier)
    ensures g.info.Keys == old(g.info).Keys
    ensures forall p :: p in g.info && p !in Unseen(ns, visited, frontier) ==> g.info[p] == old(g.info)[p]
    ensures forall p :: p in Unseen(ns, visited, frontier) ==>
      g.info[p] == old(g.info)[p].(parent := Some(cur),
                                   depth := if setDepth then old(g.info)[cur].depth + 1 else old(g.info)[p].depth)
  {
    next := frontier;
    for i := 0 to |ns|
      invariant next == frontier + Unseen(ns[..i], visited, frontier)
      invariant g.info.Keys == old(g.info).Keys && g.info[cur] == old(g.info)[cur]
      invariant forall p :: p in g.info && p !in Unseen(ns[..i], visited, frontier) ==> g.info[p] == old(g.info)[p]
      invariant forall p :: p in Unseen(ns[..i], visited, frontier) ==>
        g.info[p] == old(g.info)[p].(parent := Some(cur),
                                     depth := if setDepth then old(g.info)[cur].depth + 1 else old(g.info)[p].depth)
    {
      var n := ns[i];
      assert ns[..i + 1][..i] == ns[..i];
      UnseenFacts(ns[..i], visited, frontier);
      if n !in visited && n !in next {
        var d := if setDepth then g.info[cur].depth + 1 else g.info[n].depth;
        g.info := g.info[n := g.info[n].(parent := Some(cur), depth := d)];
        next := next + [n];
      }
    }
    assert ns[..|ns|] == ns;
  }

  /** list(s) for a set: its elements in some order, each once. */
  method ListOf(s: set<Pos>) returns (r: seq<Pos>)
    ensures forall x :: x in r <==> x in s
    ensures NoDuplicates(r) && |r| == |s|
  {
    r := [];
    var rest := s;
    while rest != {}
      invariant rest <= s
      invariant forall x :: x in r <==> x in s && x !in rest
      invariant NoDuplicates(r) && |r| + |rest| == |s|
      decreases |rest|
    {
      var x :| x in rest;
      r := r + [x];
      rest := rest - {x};
    }
  }

  /** p is linked the way every strategy links it: only the start has no
      parent, and any other node hangs off a grid neighbour. */
  ghost predicate Linked(s: map<Pos, NodeState>, info: map<Pos, NodeInfo>, start: Pos, p: Pos)
  {
    p in info &&
    (info[p].parent.None? ==> p == start) &&
    (info[p].parent.Some? ==> p in Neighbors(s, info[p].parent.value))
  }

  /** The part of the search invariant every strategy keeps about visited
      nodes: the root has no parent, visit ranks order parents before
      children, and every visited node is linked. */
  ghost predicate Rooted(s: map<Pos, NodeState>, info: map<Pos, NodeInfo>, start: Pos, visited: set<Pos>, rank: map<Pos, nat>)
  {
    start in info && info[start].parent.None? &&
    rank.Keys == visited && (forall p :: p in rank ==> rank[p] < |visited|) &&
    Ranked(info, rank) &&
    (forall p :: p in visited ==> Linked(s, info, start, p))
  }

  /** Visiting one more node, linked to a visited node (or the start, as
      the first one), keeps the visited nodes rooted. */
  lemma RootedVisit(s: map<Pos, NodeState>, info: map<Pos, NodeInfo>, start: Pos, visited: set<Pos>, rank: map<Pos, nat>, n: Pos)
    requires Rooted(s, info, start, visited, rank) && n !in visited && Linked(s, info, start, n)
    requires info[n].parent.Some? ==> info[n].parent.value in visited
    ensures Rooted(s, info, start, visited + {n}, rank[n := |visited|])
  {
    assert |visited + {n}| == |visited| + 1;
    RankedAdd(info, rank, n, |visited|);
  }

  /** The invariant of a queue- or stack-based search: the visited nodes are
      rooted at the start, which is visited from the first pop on; the
      frontier holds no visited node and no node twice, and waiting nodes are
      linked and hang off visited ones. */
  ghost predicate TreeInv(s: map<Pos, NodeState>, info: map<Pos, NodeInfo>, start: Pos, visited: set<Pos>, frontier: seq<Pos>, rank: map<Pos, nat>)
  {
    rank.Keys == visited && Ranked(info, rank) &&
    forall u: Unfolding {:trigger TreeHolds(s, info, start, visited, frontier, rank, u)} ::
      TreeHolds(s, info, start, visited, frontier, rank, u)
  }

  /** The body of TreeInv, opened only where a proof names
      TreeHolds(..., Unfold). */
  ghost predicate TreeHolds(s: map<Pos, NodeState>, info: map<Pos, NodeInfo>, start: Pos, visited: set<Pos>, frontier: seq<Pos>,
                            rank: map<Pos, nat>, u: Unfolding)
  {
    Rooted(s, info, start, visited, rank) &&
    (start in visited || (visited == {} && frontier == [start])) &&
    NoDuplicates(frontier) &&
    (forall i :: 0 <= i < |frontier| ==>
      frontier[i] !in visited && Linked(s, info, start, frontier[i]) &&
      (info[frontier[i]].parent.Some? ==> info[frontier[i]].parent.value in visited))
  }

  /** The visited part of the invariant. */
  lemma TreeRooted(s: map<Pos, NodeState>, info: map<Pos, NodeInfo>, start: Pos, visited: set<Pos>, frontier: seq<Pos>, rank: map<Pos, nat>)
    requires TreeInv(s, info, start, visited, frontier, rank)
    ensures Rooted(s, info, start, visited, rank)
  {
    assert TreeHolds(s, info, start, visited, frontier, rank, Unfold);
  }

  /** Once the frontier is empty the start has been visited. */
  lemma ExhaustedStart(s: map<Pos, NodeState>, info: map<Pos, NodeInfo>, start: Pos, visited: set<Pos>, rank: map<Pos, nat>)
    requires TreeInv(s, info, start, visited, [], rank)
    ensures start in visited
  {
    assert TreeHolds(s, info, start, visited, [], rank, Unfold);
  }

  /** The state right after a solver's prologue: frontier [start], nothing
      visited, start without a parent. */
  lemma InitialTree(s: map<Pos, NodeState>, info: map<Pos, NodeInfo>, start: Pos)
    requires start in info && info[start].parent.None?
    ensures TreeInv(s, info, start, {}, [start], map[])
  {
  }

  /** Removing one element from a sequence without duplicates. */
  lemma RemoveAt(s: seq<Pos>, k: int)
    requires NoDuplicates(s) && 0 <= k < |s|
    ensures var r := s[..k] + s[k + 1..];
      NoDuplicates(r) && |r| == |s| - 1 && s[k] !in r &&
      (forall x :: x in r <==> x in s && x != s[k]) &&
      (forall i :: 0 <= i < |r| ==> r[i] == if i < k then s[i] else s[i + 1])
  {
    var r := s[..k] + s[k + 1..];
    forall i | 0 <= i < |r| ensures r[i] == if i < k then s[i] else s[i + 1] {}
    forall x | x in s && x != s[k] ensures x in r {
      var i :| 0 <= i < |s| && s[i] == x;
      assert r[if i < k then i else i - 1] == x;
    }
  }

  /** Visiting the k-th frontier node keeps the invariant. */
  lemma VisitStep(s: map<Pos, NodeState>, info: map<Pos, NodeInfo>, start: Pos, visited: set<Pos>, frontier: seq<Pos>, rank: map<Pos, nat>, k: int)
    requires TreeInv(s, info, start, visited, frontier, rank) && 0 <= k < |frontier|
    ensures frontier[k] !in visited
    ensures TreeInv(s, info, start, visited + {frontier[k]}, frontier[..k] + frontier[k + 1..], rank[frontier[k] := |visited|])
  {
    assert TreeHolds(s, info, start, visited, frontier, rank, Unfold);
    var cur := frontier[k];
    var v2, f2, r2 := visited + {cur}, frontier[..k] + frontier[k + 1..], rank[cur := |visited|];
    RemoveAt(frontier, k);
    assert |v2| == |visited| + 1;
    RankedAdd(info, rank, cur, |visited|);
    forall i | 0 <= i < |f2|
      ensures f2[i] !in v2 && Linked(s, info, start, f2[i]) &&
        (info[f2[i]].parent.Some? ==> info[f2[i]].parent.value in v2)
    {
      assert f2[i] in frontier;
    }
  }

  /** Visiting the head of the frontier (popleft) keeps the invariant. */
  lemma VisitFirst(s: map<Pos, NodeState>, info: map<Pos, NodeInfo>, start: Pos, visited: set<Pos>, frontier: seq<Pos>, rank: map<Pos, nat>)
    requires TreeInv(s, info, start, visited, frontier, rank) && frontier != []
    ensures frontier[0] !in visited
    ensures TreeInv(s, info, start, visited + {frontier[0]}, frontier[1..], rank[frontier[0] := |visited|])
  {
    VisitStep(s, info, start, visited, frontier, rank, 0);
    assert frontier[..0] + frontier[1..] == frontier[1..];
  }

  /** Visiting the top of the frontier (pop from the end) keeps the invariant. */
  lemma VisitLast(s: map<Pos, NodeState>, info: map<Pos, NodeInfo>, start: Pos, visited: set<Pos>, frontier: seq<Pos>, rank: map<Pos, nat>)
    requires TreeInv(s, info, start, visited, frontier, rank) && frontier != []
    ensures frontier[|frontier| - 1] !in visited
    ensures TreeInv(s, info, start, visited + {frontier[|frontier| - 1]}, frontier[..|frontier| - 1],
                    rank[frontier[|frontier| - 1] := |visited|])
  {
    var k := |frontier| - 1;
    VisitStep(s, info, start, visited, frontier, rank, k);
    assert frontier[..k] + frontier[k + 1..] == frontier[..k];
  }

  /** Appending the unseen neighbours of a visited node, linked to it, keeps
      the invariant. */
  lemma ExpandStep(s: map<Pos, NodeState>, info: map<Pos, NodeInfo>, info': map<Pos, NodeInfo>, start: Pos, visited: set<Pos>, frontier: seq<Pos>,
                   rank: map<Pos, nat>, cur: Pos, ns: seq<Pos>)
    requires TreeInv(s, info, start, visited, frontier, rank) && cur in visited
    requires forall n :: n in ns ==> n in info && n in Neighbors(s, cur)
    requires info'.Keys == info.Keys
    requires forall p :: p in info && p !in Unseen(ns, visited, frontier) ==> info'[p] == info[p]
    requires forall p :: p in Unseen(ns, visited, frontier) ==> info'[p].parent == Some(cur)
    ensures TreeInv(s, info', start, visited, frontier + Unseen(ns, visited, frontier), rank)
  {
    assert TreeHolds(s, info, start, visited, frontier, rank, Unfold);
    var u := Unseen(ns, visited, frontier);
    var f2 := frontier + u;
    UnseenFacts(ns, visited, frontier);
    assert start !in u;
    RankedFrame(info, info', rank);
    forall p | p in visited ensures Linked(s, info', start, p) {
      assert p !in u;
    }
    forall i | 0 <= i < |f2|
      ensures f2[i] !in visited && Linked(s, info', start, f2[i]) &&
        (info'[f2[i]].parent.Some? ==> info'[f2[i]].parent.value in visited)
    {
      if i < |frontier| {
        assert f2[i] == frontier[i] && frontier[i] !in u;
      } else {
        assert f2[i] == u[i - |frontier|];
      }
    }
    forall i, j | 0 <= i < j < |f2| ensures f2[i] != f2[j] {
      if j >= |frontier| && i < |frontier| {
        assert f2[j] in u && f2[i] in frontier;
      } else if i >= |frontier| {
        assert f2[i] == u[i - |frontier|] && f2[j] == u[j - |frontier|];
      }
    }
  }

  /** Keeping only the first w >= 1 frontier entries keeps the invariant. */
  lemma TrimStep(s: map<Pos, NodeState>, info: map<Pos, NodeInfo>, start: Pos, visited: set<Pos>, frontier: seq<Pos>, rank: map<Pos, nat>, w: int)
    requires TreeInv(s, info, start, visited, frontier, rank) && 1 <= w <= |frontier|
    ensures TreeInv(s, info, start, visited, frontier[..w], rank)
  {
    assert TreeHolds(s, info, start, visited, frontier, rank, Unfold);
    forall i, j | 0 <= i < j < w ensures frontier[..w][i] != frontier[..w][j] {
      assert frontier[i] != frontier[j];
    }
  }

  /** On success the reconstructed path of a visited node starts at the start,
      ends at the node, moves between grid neighbours, never repeats a cell,
      and uses only visited cells. */
  lemma FoundPath(s: map<Pos, NodeState>, info: map<Pos, NodeInfo>, start: Pos, visited: set<Pos>, rank: map<Pos, nat>, n: Pos)
    requires Rooted(s, info, start, visited, rank) && n in visited
    ensures var c := ParentChain(info, n, rank);
      c[0] == start && c[|c| - 1] == n && IsWalk(s, c) && NoDuplicates(c) &&
      (forall i :: 0 <= i < |c| ==> c[i] in visited) && |c| <= |visited|
  {
    var c := ParentChain(info, n, rank);
    ChainEnds(info, n, rank);
    ChainLinks(info, n, rank);
    ChainDistinct(info, n, rank);
    assert Linked(s, info, start, c[0]);
    forall i | 0 <= i < |c| - 1 ensures c[i + 1] in Neighbors(s, c[i]) {
      assert Linked(s, info, start, c[i + 1]);
    }
  }

  /** Depth bookkeeping of the depth-tracking strategies over a set of nodes
      closed under parents: a parentless node has depth 0 and every other node
      is one deeper than its parent. */
  ghost predicate DepthInv(info: map<Pos, NodeInfo>, nodes: set<Pos>) {
    forall p :: p in nodes ==>
      p in info &&
      (info[p].parent.None? ==> info[p].depth == 0) &&
      (info[p].parent.Some? ==> info[p].parent.value in nodes && info[p].parent.value in info &&
                                info[p].depth == info[info[p].parent.value].depth + 1)
  }

  lemma {:induction false} AncestryDepth(info: map<Pos, NodeInfo>, n: Pos, rank: map<Pos, nat>, nodes: set<Pos>)
    requires Ranked(info, rank) && n in rank && rank.Keys <= nodes && DepthInv(info, nodes)
    ensures |Ancestry(info, n, rank)| == info[n].depth + 1
    decreases rank[n]
  {
    assert RankedAt(info, rank, n);
    if info[n].parent.Some? {
      AncestryDepth(info, info[n].parent.value, rank, nodes);
    }
  }

  /** With consistent depths, the reconstructed path of n has depth(n) + 1 nodes. */
  lemma ChainDepth(info: map<Pos, NodeInfo>, n: Pos, rank: map<Pos, nat>, nodes: set<Pos>)
    requires Ranked(info, rank) && n in rank && rank.Keys <= nodes && DepthInv(info, nodes)
    ensures |ParentChain(info, n, rank)| == info[n].depth + 1
  {
    AncestryDepth(info, n, rank, nodes);
  }

  /** The depth bookkeeping survives expansion of a node of the set. */
  lemma DepthExpand(info: map<Pos, NodeInfo>, info': map<Pos, NodeInfo>, nodes: set<Pos>, cur: Pos, added: seq<Pos>)
    requires DepthInv(info, nodes) && cur in nodes && cur !in added
    requires info'.Keys == info.Keys
    requires forall p :: p in info && p !in added ==> info'[p] == info[p]
    requires forall p :: p in added ==> p in info && info'[p].parent == Some(cur) && info'[p].depth == info[cur].depth + 1
    requires forall p :: p in added ==> p !in nodes
    ensures DepthInv(info', nodes + (set p | p in added))
  {
  }
}
