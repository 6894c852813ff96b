/**
 * Path reconstruction from parent links (Solver.reconstruct_path) and the
 * facts about parent chains that every strategy relies on.
 *
 * A parent chain cannot be followed forever: every strategy links a node only
 * to a node visited before it.  The model makes that explicit with a ghost
 * `rank` (the visit order): a node's parent always has a smaller rank.
 */
module Paths {
  import opened Wrappers
  import opened Grids

  /** Parent links go to strictly earlier nodes of `rank`. */
  ghost predicate Ranked(info: map<Pos, NodeInfo>, rank: map<Pos, nat>) {
    (forall p :: p in rank ==> p in info) &&
    (forall p {:trigger RankedAt(info, rank, p)} :: p in rank ==> RankedAt(info, rank, p))
  }

  /** p is in the table, and its parent, if any, has a smaller rank.  Ranked
      is only ever unfolded one node at a time, at a mention of RankedAt, so
      that the prover does not chase parent links on its own. */
  ghost predicate RankedAt(info: map<Pos, NodeInfo>, rank: map<Pos, nat>, p: Pos)
    requires p in rank
  {
    p in info &&
    (info[p].parent.Some? ==> info[p].parent.value in rank && rank[info[p].parent.value] < rank[p])
  }

  /** Ranking one more node, above its parent, keeps the ranking. */
  lemma RankedAdd(info: map<Pos, NodeInfo>, rank: map<Pos, nat>, p: Pos, r: nat)
    requires Ranked(info, rank) && p in info && p !in rank
    requires info[p].parent.Some? ==> info[p].parent.value in rank && rank[info[p].parent.value] < r
    ensures Ranked(info, rank[p := r])
  {
    var rank' := rank[p := r];
    forall q | q in rank' ensures RankedAt(info, rank', q) {
      if q != p {
        assert RankedAt(info, rank, q);
      }
    }
  }

  /** Changing the bookkeeping of unranked nodes only keeps the ranking. */
  lemma RankedFrame(info: map<Pos, NodeInfo>, info': map<Pos, NodeInfo>, rank: map<Pos, nat>)
    requires Ranked(info, rank)
    requires forall p :: p in rank ==> p in info' && info'[p] == info[p]
    ensures Ranked(info', rank)
  {
    forall q | q in rank ensures RankedAt(info', rank, q) {
      assert RankedAt(info, rank, q);
    }
  }

  /** The sequence in reverse order (list.reverse()). */
  function Reverse<T>(s: seq<T>): (r: seq<T>)
    ensures |r| == |s|
    ensures forall i :: 0 <= i < |s| ==> r[i] == s[|s| - 1 - i]
  {
    if s == [] then [] else Reverse(s[1..]) + [s[0]]
  }

  /** n, its parent, its parent's parent, ... up to the node without a parent:
      the order in which reconstruct_path collects them. */
  ghost function Ancestry(info: map<Pos, NodeInfo>, n: Pos, rank: map<Pos, nat>): (r: seq<Pos>)
    requires Ranked(info, rank) && n in rank
    ensures r != [] && r[0] == n
    ensures forall i :: 0 <= i < |r| ==> r[i] in rank
    decreases rank[n]
  {
    assert RankedAt(info, rank, n);
    match info[n].parent
    case None => [n]
    case Some(q) => [n] + Ancestry(info, q, rank)
  }

  /** The path reconstruct_path returns for n: its ancestry, root first. */
  ghost function ParentChain(info: map<Pos, NodeInfo>, n: Pos, rank: map<Pos, nat>): (r: seq<Pos>)
    requires Ranked(info, rank) && n in rank
    ensures r != [] && r[|r| - 1] == n
    ensures forall i :: 0 <= i < |r| ==> r[i] in rank
  {
    Reverse(Ancestry(info, n, rank))
  }

  /** reconstruct_path: follow parent links from node, collecting each node,
      until there is no parent; then reverse the collected list. */
  method ReconstructPath(g: Grid, node: Pos, ghost rank: map<Pos, nat>) returns (path: seq<Pos>)
    requires Ranked(g.info, rank) && node in rank
    ensures path == ParentChain(g.info, node, rank)
  {
    var collected: seq<Pos> := [];
    var current: Option<Pos> := Some(node);
    while current.Some?
      invariant current.Some? ==>
        current.value in rank && collected + Ancestry(g.info, current.value, rank) == Ancestry(g.info, node, rank)
      invariant current.None? ==> collected == Ancestry(g.info, node, rank)
      decreases if current.Some? then rank[current.value] + 1 else 0
    {
      var n := current.value;
      assert RankedAt(g.info, rank, n);
      collected := collected + [n];
      current := g.info[n].parent;
    }
    path := Reverse(collected);
  }

  lemma {:induction false} AncestryShape(info: map<Pos, NodeInfo>, n: Pos, rank: map<Pos, nat>)
    requires Ranked(info, rank) && n in rank
    ensures var a := Ancestry(info, n, rank);
      (forall i :: 0 <= i < |a| ==> a[i] in rank) &&
      info[a[|a| - 1]].parent.None? &&
      (forall i :: 0 <= i < |a| - 1 ==> info[a[i]].parent == Some(a[i + 1])) &&
      (forall i, j :: 0 <= i < j < |a| ==> rank[a[j]] < rank[a[i]]) &&
      |a| <= rank[n] + 1
    decreases rank[n]
  {
    assert RankedAt(info, rank, n);
    match info[n].parent
    case None =>
    case Some(q) =>
      AncestryShape(info, q, rank);
      var a, t := Ancestry(info, n, rank), Ancestry(info, q, rank);
      assert a == [n] + t;
      forall i, j | 0 <= i < j < |a| ensures rank[a[j]] < rank[a[i]] {
        if i > 0 {
          assert a[i] == t[i - 1] && a[j] == t[j - 1];
        } else {
          assert a[j] == t[j - 1] && t[0] == q;
          if j - 1 > 0 {
            assert rank[t[j - 1]] < rank[t[0]];
          }
        }
      }
  }

  /** reconstruct_path runs from a parentless node to its argument, through
      nodes of the rank, and is at most one longer than the argument's rank. */
  lemma ChainEnds(info: map<Pos, NodeInfo>, n: Pos, rank: map<Pos, nat>)
    requires Ranked(info, rank) && n in rank
    ensures var c := ParentChain(info, n, rank);
      c != [] && c[|c| - 1] == n && c[0] in rank && info[c[0]].parent.None? &&
      (forall i :: 0 <= i < |c| ==> c[i] in rank) &&
      |c| <= rank[n] + 1
  {
    AncestryShape(info, n, rank);
  }

  /** In the reconstructed path every node is the parent of the next one. */
  lemma ChainLinks(info: map<Pos, NodeInfo>, n: Pos, rank: map<Pos, nat>)
    requires Ranked(info, rank) && n in rank
    ensures var c := ParentChain(info, n, rank);
      forall i :: 0 <= i < |c| - 1 ==> info[c[i + 1]].parent == Some(c[i])
  {
    AncestryShape(info, n, rank);
    var a, c := Ancestry(info, n, rank), ParentChain(info, n, rank);
    forall i | 0 <= i < |c| - 1 ensures info[c[i + 1]].parent == Some(c[i]) {
      assert c[i + 1] == a[|a| - 2 - i] && c[i] == a[|a| - 1 - i];
    }
  }

  /** No node repeats in the reconstructed path: its ranks strictly increase. */
  lemma ChainDistinct(info: map<Pos, NodeInfo>, n: Pos, rank: map<Pos, nat>)
    requires Ranked(info, rank) && n in rank
    ensures var c := ParentChain(info, n, rank);
      (forall i, j :: 0 <= i < j < |c| ==> rank[c[i]] < rank[c[j]]) && NoDuplicates(c)
  {
    AncestryShape(info, n, rank);
    var a, c := Ancestry(info, n, rank), ParentChain(info, n, rank);
    forall i, j | 0 <= i < j < |c| ensures rank[c[i]] < rank[c[j]] {
      assert c[i] == a[|a| - 1 - i] && c[j] == a[|a| - 1 - j];
    }
  }

  /** A node without a parent reconstructs to the path holding only itself. */
  lemma ChainSingle(info: map<Pos, NodeInfo>, n: Pos, rank: map<Pos, nat>)
    requires Ranked(info, rank) && n in rank && info[n].parent.None?
    ensures ParentChain(info, n, rank) == [n]
  {
  }

  /** Five cells (0,0)..(0,4), each the parent of the next, reconstruct from
      (0,4) to all five cells in order. */
  lemma ChainOfFive(info: map<Pos, NodeInfo>, rank: map<Pos, nat>)
    requires Ranked(info, rank)
    requires forall i :: 0 <= i < 5 ==> Pos(0, i) in rank
    requires info[Pos(0, 0)].parent.None?
    requires forall i :: 1 <= i < 5 ==> info[Pos(0, i)].parent == Some(Pos(0, i - 1))
    ensures ParentChain(info, Pos(0, 4), rank) == [Pos(0, 0), Pos(0, 1), Pos(0, 2), Pos(0, 3), Pos(0, 4)]
  {
    assert info[Pos(0, 1)].parent == Some(Pos(0, 0));
    assert Ancestry(info, Pos(0, 0), rank) == [Pos(0, 0)];
    assert Ancestry(info, Pos(0, 1), rank) == [Pos(0, 1), Pos(0, 0)];
    assert info[Pos(0, 2)].parent == Some(Pos(0, 1));
    assert Ancestry(info, Pos(0, 2), rank) == [Pos(0, 2), Pos(0, 1), Pos(0, 0)];
    assert info[Pos(0, 3)].parent == Some(Pos(0, 2));
    assert Ancestry(info, Pos(0, 3), rank) == [Pos(0, 3), Pos(0, 2), Pos(0, 1), Pos(0, 0)];
    assert info[Pos(0, 4)].parent == Some(Pos(0, 3));
    assert Ancestry(info, Pos(0, 4), rank) == [Pos(0, 4), Pos(0, 3), Pos(0, 2), Pos(0, 1), Pos(0, 0)];
  }

  /** Consecutive cells of the path are grid neighbours. */
  ghost predicate IsWalk(s: map<Pos, NodeState>, path: seq<Pos>) {
    forall i :: 0 <= i < |path| - 1 ==> path[i + 1] in Neighbors(s, path[i])
  }

  /** No walk through the grid leads from a to b. */
  ghost predicate Unreachable(s: map<Pos, NodeState>, a: Pos, b: Pos) {
    forall w {:trigger IsWalk(s, w)} :: w != [] && IsWalk(s, w) && w[0] == a ==> w[|w| - 1] != b
  }

  /** A walk without its last cell is a walk. */
  lemma WalkPrefix(s: map<Pos, NodeState>, w: seq<Pos>)
    requires IsWalk(s, w) && w != []
    ensures IsWalk(s, w[..|w| - 1])
  {
    var v := w[..|w| - 1];
    forall i | 0 <= i < |v| - 1 ensures v[i + 1] in Neighbors(s, v[i]) {
      assert w[i + 1] in Neighbors(s, w[i]);
    }
  }

  /** A walk that starts inside a set closed under taking neighbours never
      leaves it. */
  lemma {:induction false} WalkStaysIn(s: map<Pos, NodeState>, v: set<Pos>, w: seq<Pos>, i: int)
    requires forall p, n :: p in v && n in Neighbors(s, p) ==> n in v
    requires IsWalk(s, w) && w != [] && w[0] in v && 0 <= i < |w|
    ensures w[i] in v
    decreases i
  {
    if i > 0 {
      WalkStaysIn(s, v, w, i - 1);
      assert w[i - 1 + 1] in Neighbors(s, w[i - 1]);
    }
  }

  /** When every parent link joins neighbours, reconstruct_path yields a walk
      through the grid from a parentless node to n. */
  lemma ChainIsWalk(s: map<Pos, NodeState>, info: map<Pos, NodeInfo>, n: Pos, rank: map<Pos, nat>)
    requires Ranked(info, rank) && n in rank
    requires forall p :: p in rank && info[p].parent.Some? ==> p in Neighbors(s, info[p].parent.value)
    ensures IsWalk(s, ParentChain(info, n, rank))
  {
    ChainEnds(info, n, rank);
    ChainLinks(info, n, rank);
  }
}
