/**
 * UCSSolver: uniform-cost search over a priority queue of (cost, counter,
 * node) entries.
 *
 * Costs are kept in integer thousandths (an orthogonal step costs 1000, a
 * diagonal one 1414).  The priority queue is modelled by the sorted list of
 * its entries: heapq's pops return the smallest entry, and since counters are
 * unique the (cost, counter) order is total, so the sequence of pops is the
 * same.  A node is "waiting" while it is in frontier_set.
 */
module UniformCost {
  import opened Wrappers
  import opened Grids
  import opened Paths
  import opened Search

  /** One priority-queue entry (cost, counter, node). */
  datatype Entry = Entry(cost: int, counter: int, node: Pos)

  /** Tuple order on (cost, counter); the node is never compared, because no
      two entries share a counter. */
  predicate Before(a: Entry, b: Entry) {
    a.cost < b.cost || (a.cost == b.cost && a.counter < b.counter)
  }

  /** Every entry comes before all later ones: the list is sorted. */
  predicate Ordered(h: seq<Entry>) {
    forall i, j {:trigger OrderedAt(h, i, j)} :: 0 <= i < j < |h| ==> OrderedAt(h, i, j)
  }

  /** Entry i comes before entry j.  Ordered is only unfolded at a mention
      of OrderedAt, so that the prover does not compare every pair of
      entries of every queue it meets. */
  predicate OrderedAt(h: seq<Entry>, i: int, j: int)
    requires 0 <= i < j < |h|
  {
    Before(h[i], h[j])
  }

  /** heappush: the entry joins the queue. */
  function Push(h: seq<Entry>, e: Entry): (r: seq<Entry>)
    ensures multiset(r) == multiset(h) + multiset{e}
    ensures forall x :: x in r <==> x in h || x == e
    decreases |h|
  {
    if h == [] || Before(e, h[0]) then [e] + h
    else
      assert h == [h[0]] + h[1..];
      [h[0]] + Push(h[1..], e)
  }

  /** A push with a counter above every counter in the queue keeps the list
      sorted, so heappop still returns its head. */
  lemma {:induction false} PushOrdered(h: seq<Entry>, e: Entry)
    requires Ordered(h) && forall x :: x in h ==> x.counter < e.counter
    ensures Ordered(Push(h, e))
    decreases |h|
  {
    if h == [] || Before(e, h[0]) {
      var r := [e] + h;
      forall i, j | 0 <= i < j < |r| ensures OrderedAt(r, i, j) {
        if i > 0 {
          assert OrderedAt(h, i - 1, j - 1);
        } else if j > 1 {
          assert OrderedAt(h, 0, j - 1);
        }
      }
    } else {
      PopLeast(h);
      PushOrdered(h[1..], e);
      var t := Push(h[1..], e);
      var r := [h[0]] + t;
      forall i, j | 0 <= i < j < |r| ensures OrderedAt(r, i, j) {
        if i == 0 {
          assert r[j] in t;
          if r[j] != e {
            var k :| 0 <= k < |h[1..]| && h[1..][k] == r[j];
            assert OrderedAt(h, 0, k + 1);
          }
        } else {
          assert OrderedAt(t, i - 1, j - 1);
        }
      }
    }
  }

  /** The head of a sorted queue comes before every other entry: heappop
      returns the least (cost, counter). */
  lemma PopLeast(h: seq<Entry>)
    requires Ordered(h) && h != []
    ensures forall x :: x in h[1..] ==> Before(h[0], x)
    ensures Ordered(h[1..])
  {
    forall x | x in h[1..] ensures Before(h[0], x) {
      var k :| 0 <= k < |h[1..]| && h[1..][k] == x;
      assert OrderedAt(h, 0, k + 1);
    }
    forall i, j | 0 <= i < j < |h[1..]| ensures OrderedAt(h[1..], i, j) {
      assert OrderedAt(h, i + 1, j + 1);
    }
  }

  /** step_cost in thousandths: 1.414 when both coordinates differ by one,
      1.0 otherwise. */
  function StepCost(a: Pos, b: Pos): int {
    if Abs(b.row - a.row) == 1 && Abs(b.col - a.col) == 1 then 1414 else 1000
  }

  /** Between neighbours the step costs 1414 exactly for the two diagonal
      moves (Down-Right, Up-Left) and 1000 for the four orthogonal ones. */
  lemma StepCostOfMove(s: map<Pos, NodeState>, p: Pos, q: Pos)
    requires q in Neighbors(s, p)
    ensures StepCost(p, q) == if q == Pos(p.row + 1, p.col + 1) || q == Pos(p.row - 1, p.col - 1) then 1414 else 1000
  {
    NeighborsMembers(s, p, q);
    CandidatesExplicit(p);
  }

  /** new_cost < neighbor.cost, where the cost may still be infinity. */
  predicate Cheaper(c: int, old_: Cost) {
    old_.Infinite? || c < old_.milli
  }

  /** a <= b on costs with infinity on top. */
  predicate CostAtMost(a: Cost, b: Cost) {
    b.Infinite? || (a.Finite? && a.milli <= b.milli)
  }

  /** The state the expansion loop changes: node bookkeeping, the queue,
      frontier_set and the counter. */
  datatype Queue = Queue(info: map<Pos, NodeInfo>, heap: seq<Entry>, waiting: set<Pos>, counter: int)

  /** The queue is sorted and no entry's counter is above the counter. */
  predicate QueueOk(q: Queue) {
    Ordered(q.heap) && forall x :: x in q.heap ==> x.counter <= q.counter
  }

  /** First discovery of n from cur at cost nc: cost and parent are set, the
      counter is bumped, n is pushed and joins frontier_set. */
  function Discover(q: Queue, cur: Pos, n: Pos, nc: int): (r: Queue)
    requires n in q.info
    ensures r.info.Keys == q.info.Keys && r.waiting == q.waiting + {n} && r.counter == q.counter + 1
  {
    Queue(q.info[n := q.info[n].(cost := Finite(nc), parent := Some(cur))],
          Push(q.heap, Entry(nc, q.counter + 1, n)), q.waiting + {n}, q.counter + 1)
  }

  /** A cheaper way to the waiting node n: cost and parent are updated, the
      counter is bumped and n is pushed once more. */
  function Improve(q: Queue, cur: Pos, n: Pos, nc: int): (r: Queue)
    requires n in q.info
    ensures r.info.Keys == q.info.Keys && r.waiting == q.waiting && r.counter == q.counter + 1
  {
    Queue(q.info[n := q.info[n].(cost := Finite(nc), parent := Some(cur))],
          Push(q.heap, Entry(nc, q.counter + 1, n)), q.waiting, q.counter + 1)
  }

  /** One iteration of the neighbour loop for neighbour n of cur, popped at
      cost c: a node neither visited nor waiting is discovered; a waiting
      node reached more cheaply is improved; otherwise nothing happens. */
  function RelaxOne(q: Queue, visited: set<Pos>, cur: Pos, c: int, n: Pos): (r: Queue)
    requires n in q.info
    ensures r.info.Keys == q.info.Keys
  {
    var nc := c + StepCost(cur, n);
    if n !in visited && n !in q.waiting then Discover(q, cur, n, nc)
    else if n in q.waiting && Cheaper(nc, q.info[n].cost) then Improve(q, cur, n, nc)
    else q
  }

  /** The whole neighbour loop over ns. */
  function RelaxAll(q: Queue, visited: set<Pos>, cur: Pos, c: int, ns: seq<Pos>): (r: Queue)
    requires forall n :: n in ns ==> n in q.info
    ensures r.info.Keys == q.info.Keys
    decreases |ns|
  {
    if ns == [] then q else RelaxAll(RelaxOne(q, visited, cur, c, ns[0]), visited, cur, c, ns[1..])
  }

  /** The neighbour loop of solve. */
  method Relax(q0: Queue, visited: set<Pos>, cur: Pos, c: int, ns: seq<Pos>) returns (q: Queue)
    requires forall n :: n in ns ==> n in q0.info
    ensures q == RelaxAll(q0, visited, cur, c, ns)
  {
    q := q0;
    for i := 0 to |ns|
      invariant q.info.Keys == q0.info.Keys
      invariant RelaxAll(q, visited, cur, c, ns[i..]) == RelaxAll(q0, visited, cur, c, ns)
    {
      assert ns[i..][0] == ns[i] && ns[i..][1..] == ns[i + 1..];
      q := RelaxNeighbor(q, visited, cur, c, ns[i]);
    }
  }

  /** The body of the neighbour loop for the neighbour n. */
  method RelaxNeighbor(q0: Queue, visited: set<Pos>, cur: Pos, c: int, n: Pos) returns (q: Queue)
    requires n in q0.info
    ensures q == RelaxOne(q0, visited, cur, c, n)
  {
    q := q0;
    var newCost := c + StepCost(cur, n);
    if n !in visited && n !in q.waiting {
      q := Discover(q, cur, n, newCost);
    } else if n in q.waiting && Cheaper(newCost, q.info[n].cost) {
      q := Improve(q, cur, n, newCost);
    }
  }

  /** The cost facts of RelaxAllCosts for a single iteration. */
  lemma RelaxOneCosts(q: Queue, visited: set<Pos>, cur: Pos, c: int, n: Pos)
    requires n in q.info && q.waiting <= q.info.Keys && q.waiting !! visited
    requires forall x :: x in q.heap ==> x.counter <= q.counter
    ensures var r := RelaxOne(q, visited, cur, c, n);
      r.waiting <= r.info.Keys && r.waiting !! visited && (forall x :: x in r.heap ==> x.counter <= r.counter) &&
      (forall p :: p in visited && p in q.info ==> r.info[p] == q.info[p]) &&
      (forall p :: p in q.waiting ==> p in r.waiting && CostAtMost(r.info[p].cost, q.info[p].cost)) &&
      r.counter >= q.counter &&
      multiset(q.heap) <= multiset(r.heap) &&
      (forall e :: e in r.heap ==> e in q.heap || e.counter > q.counter) &&
      (forall e :: e in r.heap && e.counter > q.counter ==>
        e.node !in visited && (e.node in q.waiting ==> Cheaper(e.cost, q.info[e.node].cost)))
  {
    var nc := c + StepCost(cur, n);
    var e := Entry(nc, q.counter + 1, n);
    if n !in visited && n !in q.waiting {
      assert RelaxOne(q, visited, cur, c, n).heap == Push(q.heap, e);
    } else if n in q.waiting && Cheaper(nc, q.info[n].cost) {
      assert RelaxOne(q, visited, cur, c, n).heap == Push(q.heap, e);
    }
  }

  /** What the neighbour loop promises about costs: visited nodes keep their
      bookkeeping, waiting nodes stay waiting and their costs never go up,
      no old entry leaves the queue, and every new entry is for a node that
      is not visited and, when that node was already waiting, carries a
      strictly lower cost than it had (a re-push only on improvement). */
  lemma {:induction false} RelaxAllCosts(q: Queue, visited: set<Pos>, cur: Pos, c: int, ns: seq<Pos>)
    requires forall n :: n in ns ==> n in q.info
    requires q.waiting <= q.info.Keys && q.waiting !! visited
    requires forall x :: x in q.heap ==> x.counter <= q.counter
    ensures var r := RelaxAll(q, visited, cur, c, ns);
      (forall p :: p in visited && p in q.info ==> r.info[p] == q.info[p]) &&
      (forall p :: p in q.waiting ==> p in r.waiting && CostAtMost(r.info[p].cost, q.info[p].cost)) &&
      r.counter >= q.counter &&
      multiset(q.heap) <= multiset(r.heap) &&
      (forall e :: e in r.heap ==> e in q.heap || e.counter > q.counter) &&
      (forall e :: e in r.heap && e.counter > q.counter ==>
        e.node !in visited && (e.node in q.waiting ==> Cheaper(e.cost, q.info[e.node].cost)))
    decreases |ns|
  {
    if ns != [] {
      var q1 := RelaxOne(q, visited, cur, c, ns[0]);
      RelaxOneCosts(q, visited, cur, c, ns[0]);
      RelaxAllCosts(q1, visited, cur, c, ns[1..]);
      var r := RelaxAll(q1, visited, cur, c, ns[1..]);
      assert r == RelaxAll(q, visited, cur, c, ns);
      forall e | e in r.heap && e.counter > q.counter
        ensures e.node !in visited && (e.node in q.waiting ==> Cheaper(e.cost, q.info[e.node].cost))
      {
        if e.counter <= q1.counter {
          assert e in q1.heap;
        }
      }
    }
  }

  /** Entries pushed by the neighbour loop of a node popped at cost c cost
      more than c, so they come after any entry k of cost at most c that
      came before the whole queue. */
  lemma {:induction false} RelaxAbove(q: Queue, visited: set<Pos>, cur: Pos, c: int, ns: seq<Pos>, k: Entry)
    requires forall n :: n in ns ==> n in q.info
    requires k.cost <= c && forall x :: x in q.heap ==> Before(k, x)
    ensures forall x :: x in RelaxAll(q, visited, cur, c, ns).heap ==> Before(k, x)
    decreases |ns|
  {
    if ns != [] {
      RelaxAbove(RelaxOne(q, visited, cur, c, ns[0]), visited, cur, c, ns[1..], k);
    }
  }

  /** The uniform-cost search invariant: the visited nodes are rooted at the
      start, which is visited from the first pop on; waiting nodes are not
      visited, are linked and hang off visited nodes; every entry is for a
      waiting or a visited node; the queue is sorted. */
  ghost predicate UcsInv(s: map<Pos, NodeState>, start: Pos, visited: set<Pos>, q: Queue, rank: map<Pos, nat>)
  {
    q.info.Keys == s.Keys &&
    forall u: Unfolding {:trigger UcsHolds(s, start, visited, q, rank, u)} :: UcsHolds(s, start, visited, q, rank, u)
  }

  /** The body of UcsInv. */
  ghost predicate UcsHolds(s: map<Pos, NodeState>, start: Pos, visited: set<Pos>, q: Queue, rank: map<Pos, nat>, u: Unfolding)
  {
    q.info.Keys == s.Keys &&
    Rooted(s, q.info, start, visited, rank) &&
    (start in visited || (visited == {} && q.waiting == {start} && q.heap == [Entry(0, 0, start)])) &&
    QueueOk(q) &&
    (forall p :: p in q.waiting ==>
      p !in visited && Linked(s, q.info, start, p) &&
      (q.info[p].parent.Some? ==> q.info[p].parent.value in visited)) &&
    (forall x :: x in q.heap ==> x.node in q.waiting || x.node in visited)
  }

  /** What the solver methods need to know of the invariant. */
  lemma UcsFacts(s: map<Pos, NodeState>, start: Pos, visited: set<Pos>, q: Queue, rank: map<Pos, nat>)
    requires UcsInv(s, start, visited, q, rank)
    ensures q.info.Keys == s.Keys && Rooted(s, q.info, start, visited, rank) && QueueOk(q)
    ensures q.waiting <= q.info.Keys && q.waiting !! visited && (visited != {} ==> start in visited)
    ensures forall x :: x in q.heap ==> x.node in q.waiting || x.node in visited
  {
    assert UcsHolds(s, start, visited, q, rank, Unfold);
  }

  /** The state after solve's prologue. */
  lemma UcsInitial(s: map<Pos, NodeState>, info: map<Pos, NodeInfo>, start: Pos)
    requires info.Keys == s.Keys && start in info && info[start].parent.None?
    ensures UcsInv(s, start, {}, Queue(info, [Entry(0, 0, start)], {start}, 0), map[])
  {
  }

  /** Popping and skipping the first k entries, all of visited nodes (the
      `continue`), keeps the invariant; none of their nodes is waiting, so
      discarding them from frontier_set changes nothing. */
  lemma UcsDrop(s: map<Pos, NodeState>, start: Pos, visited: set<Pos>, q: Queue, rank: map<Pos, nat>, k: int)
    requires UcsInv(s, start, visited, q, rank) && 0 <= k <= |q.heap|
    requires forall i :: 0 <= i < k ==> q.heap[i].node in visited
    ensures forall i :: 0 <= i < k ==> q.heap[i].node !in q.waiting
    ensures UcsInv(s, start, visited, q.(heap := q.heap[k..]), rank)
  {
    assert UcsHolds(s, start, visited, q, rank, Unfold);
    var h := q.heap[k..];
    forall i, j | 0 <= i < j < |h| ensures OrderedAt(h, i, j) {
      assert OrderedAt(q.heap, i + k, j + k);
    }
    if k == 0 {
      assert h == q.heap;
    } else {
      assert q.heap[0].node in visited;
    }
  }

  /** Popping an entry of an unvisited node and visiting it keeps the
      invariant. */
  lemma UcsVisit(s: map<Pos, NodeState>, start: Pos, visited: set<Pos>, q: Queue, rank: map<Pos, nat>)
    requires UcsInv(s, start, visited, q, rank) && q.heap != [] && q.heap[0].node !in visited
    ensures var n := q.heap[0].node;
      n in q.waiting &&
      UcsInv(s, start, visited + {n}, q.(heap := q.heap[1..], waiting := q.waiting - {n}), rank[n := |visited|])
  {
    assert UcsHolds(s, start, visited, q, rank, Unfold);
    var n := q.heap[0].node;
    assert n in q.waiting;
    RootedVisit(s, q.info, start, visited, rank, n);
    WaitingPop(s, start, visited, q, n);
    HeapPop(visited, q);
  }

  /** The popped node leaves frontier_set for the visited set: the other
      waiting nodes stay linked to visited nodes. */
  lemma WaitingPop(s: map<Pos, NodeState>, start: Pos, visited: set<Pos>, q: Queue, n: Pos)
    requires forall p :: p in q.waiting ==>
      p !in visited && Linked(s, q.info, start, p) && (q.info[p].parent.Some? ==> q.info[p].parent.value in visited)
    ensures forall p :: p in q.waiting - {n} ==>
      p !in visited + {n} && Linked(s, q.info, start, p) && (q.info[p].parent.Some? ==> q.info[p].parent.value in visited + {n})
  {
  }

  /** heappop keeps the queue sorted, and every remaining entry is for a
      waiting or a visited node once its node is visited. */
  lemma HeapPop(visited: set<Pos>, q: Queue)
    requires QueueOk(q) && q.heap != [] && forall x :: x in q.heap ==> x.node in q.waiting || x.node in visited
    ensures var n := q.heap[0].node;
      QueueOk(q.(heap := q.heap[1..], waiting := q.waiting - {n})) &&
      forall x :: x in q.heap[1..] ==> x.node in q.waiting - {n} || x.node in visited + {n}
  {
    PopLeast(q.heap);
  }

  /** Relinking a node n outside the visited set leaves the visited nodes
      rooted. */
  lemma DiscoverRooted(s: map<Pos, NodeState>, start: Pos, visited: set<Pos>, info: map<Pos, NodeInfo>, rank: map<Pos, nat>, cur: Pos, n: Pos, nc: int)
    requires Rooted(s, info, start, visited, rank) && n in info && n !in visited && n != start
    ensures Rooted(s, info[n := info[n].(cost := Finite(nc), parent := Some(cur))], start, visited, rank)
  {
    var info' := info[n := info[n].(cost := Finite(nc), parent := Some(cur))];
    RankedFrame(info, info', rank);
    forall p | p in visited ensures Linked(s, info', start, p) {
      assert Linked(s, info, start, p);
    }
  }

  /** Linking an unvisited neighbour n of the visited node cur, pushing it
      and letting it wait keeps the invariant. */
  lemma DiscoverInv(s: map<Pos, NodeState>, start: Pos, visited: set<Pos>, q: Queue, rank: map<Pos, nat>, cur: Pos, n: Pos, nc: int)
    requires UcsInv(s, start, visited, q, rank) && cur in visited && n in Neighbors(s, cur) && n !in visited
    ensures UcsInv(s, start, visited, Discover(q, cur, n, nc), rank)
  {
    assert UcsHolds(s, start, visited, q, rank, Unfold);
    DiscoverQueue(visited, q, cur, n, nc);
    DiscoverRooted(s, start, visited, q.info, rank, cur, n, nc);
    DiscoverWaiting(s, start, visited, q, cur, n, nc);
  }

  /** A discovery keeps the queue sorted and every entry for a waiting or a
      visited node. */
  lemma DiscoverQueue(visited: set<Pos>, q: Queue, cur: Pos, n: Pos, nc: int)
    requires n in q.info && QueueOk(q) && forall x :: x in q.heap ==> x.node in q.waiting || x.node in visited
    ensures var r := Discover(q, cur, n, nc);
      QueueOk(r) && forall x :: x in r.heap ==> x.node in r.waiting || x.node in visited
  {
    PushOrdered(q.heap, Entry(nc, q.counter + 1, n));
  }

  /** After a discovery from the visited node cur, every waiting node is
      still unvisited, linked and hanging off a visited node. */
  lemma DiscoverWaiting(s: map<Pos, NodeState>, start: Pos, visited: set<Pos>, q: Queue, cur: Pos, n: Pos, nc: int)
    requires n in q.info && cur in visited && n in Neighbors(s, cur) && n !in visited
    requires forall p :: p in q.waiting ==>
      p !in visited && Linked(s, q.info, start, p) && (q.info[p].parent.Some? ==> q.info[p].parent.value in visited)
    ensures var r := Discover(q, cur, n, nc);
      forall p :: p in r.waiting ==>
        p !in visited && Linked(s, r.info, start, p) && (r.info[p].parent.Some? ==> r.info[p].parent.value in visited)
  {
    var r := Discover(q, cur, n, nc);
    forall p | p in r.waiting
      ensures p !in visited && Linked(s, r.info, start, p) &&
        (r.info[p].parent.Some? ==> r.info[p].parent.value in visited)
    {
      if p != n {
        assert p in q.waiting;
      }
    }
  }

  /** One neighbour loop iteration keeps the invariant; an improvement is a
      discovery whose node was already waiting. */
  lemma RelaxOneInv(s: map<Pos, NodeState>, start: Pos, visited: set<Pos>, q: Queue, rank: map<Pos, nat>, cur: Pos, c: int, n: Pos)
    requires UcsInv(s, start, visited, q, rank) && cur in visited && n in Neighbors(s, cur)
    ensures UcsInv(s, start, visited, RelaxOne(q, visited, cur, c, n), rank)
  {
    assert UcsHolds(s, start, visited, q, rank, Unfold);
    var nc := c + StepCost(cur, n);
    if n !in visited && n !in q.waiting {
      DiscoverInv(s, start, visited, q, rank, cur, n, nc);
    } else if n in q.waiting && Cheaper(nc, q.info[n].cost) {
      DiscoverInv(s, start, visited, q, rank, cur, n, nc);
      assert q.waiting + {n} == q.waiting;
      assert Improve(q, cur, n, nc) == Discover(q, cur, n, nc);
    }
  }

  /** The whole neighbour loop keeps the invariant. */
  lemma {:induction false} RelaxAllInv(s: map<Pos, NodeState>, start: Pos, visited: set<Pos>, q: Queue, rank: map<Pos, nat>, cur: Pos, c: int, ns: seq<Pos>)
    requires UcsInv(s, start, visited, q, rank) && cur in visited
    requires forall n :: n in ns ==> n in Neighbors(s, cur)
    ensures forall n :: n in ns ==> n in q.info
    ensures UcsInv(s, start, visited, RelaxAll(q, visited, cur, c, ns), rank)
    decreases |ns|
  {
    UcsFacts(s, start, visited, q, rank);
    if ns != [] {
      RelaxOneInv(s, start, visited, q, rank, cur, c, ns[0]);
      RelaxAllInv(s, start, visited, RelaxOne(q, visited, cur, c, ns[0]), rank, cur, c, ns[1..]);
    }
  }

  /** Pops so far come in strictly increasing (cost, counter) order, and the
      last one comes before everything still queued. */
  ghost predicate PopsOrdered(pops: seq<Entry>, heap: seq<Entry>) {
    Ordered(pops) &&
    (pops != [] ==> forall x :: x in heap ==> Before(pops[|pops| - 1], x))
  }

  /** The neighbour loop of the node cur, popped last at cost c, keeps the
      invariant and the pop order. */
  lemma ExpandKeeps(s: map<Pos, NodeState>, start: Pos, visited: set<Pos>, q: Queue, rank: map<Pos, nat>,
                    pops: seq<Entry>, cur: Pos, c: int, ns: seq<Pos>)
    requires UcsInv(s, start, visited, q, rank) && cur in visited
    requires PopsOrdered(pops, q.heap) && pops != [] && pops[|pops| - 1].cost == c
    requires forall n :: n in ns ==> n in Neighbors(s, cur)
    ensures forall n :: n in ns ==> n in q.info
    ensures UcsInv(s, start, visited, RelaxAll(q, visited, cur, c, ns), rank)
    ensures PopsOrdered(pops, RelaxAll(q, visited, cur, c, ns).heap)
  {
    RelaxAllInv(s, start, visited, q, rank, cur, c, ns);
    RelaxAbove(q, visited, cur, c, ns, pops[|pops| - 1]);
  }

  /** heappop keeps the pop order. */
  lemma PopsStep(pops: seq<Entry>, heap: seq<Entry>)
    requires PopsOrdered(pops, heap) && Ordered(heap) && heap != []
    ensures PopsOrdered(pops + [heap[0]], heap[1..])
  {
    PopLeast(heap);
    assert heap[0] in heap;
    var p := pops + [heap[0]];
    forall i, j | 0 <= i < j < |p| ensures OrderedAt(p, i, j) {
      if j < |pops| {
        assert OrderedAt(pops, i, j);
      } else if i < |pops| - 1 {
        assert OrderedAt(pops, i, |pops| - 1);
      }
    }
  }

  /** Popping the first k entries of the queue keeps the pop order. */
  lemma PopsDrop(pops: seq<Entry>, heap: seq<Entry>, k: int)
    requires PopsOrdered(pops, heap) && Ordered(heap) && 0 <= k <= |heap|
    ensures PopsOrdered(pops + heap[..k], heap[k..])
  {
    var p := pops + heap[..k];
    forall i, j | 0 <= i < j < |p| ensures OrderedAt(p, i, j) {
      if j < |pops| {
        assert OrderedAt(pops, i, j);
      } else if i >= |pops| {
        assert OrderedAt(heap, i - |pops|, j - |pops|);
      } else {
        assert p[j] == heap[j - |pops|] && p[j] in heap;
        if i < |pops| - 1 {
          assert OrderedAt(pops, i, |pops| - 1);
        }
      }
    }
    if p != [] {
      forall x | x in heap[k..] ensures Before(p[|p| - 1], x) {
        var m :| k <= m < |heap| && heap[m] == x;
        if k > 0 {
          assert OrderedAt(heap, k - 1, m);
        } else {
          assert x in heap;
        }
      }
    }
  }

  /** How many leading entries of h are for visited nodes: the entries a
      resumption pops and skips before it visits a node. */
  function Skipped(h: seq<Entry>, visited: set<Pos>): (k: nat)
    ensures k <= |h| && (k < |h| ==> h[k].node !in visited)
    ensures forall i :: 0 <= i < k ==> h[i].node in visited
    decreases |h|
  {
    if h != [] && h[0].node in visited then 1 + Skipped(h[1..], visited) else 0
  }

  /** The count of leading visited entries is determined by its two ensures. */
  lemma SkippedUnique(h: seq<Entry>, visited: set<Pos>, k: int)
    requires 0 <= k <= |h| && (k < |h| ==> h[k].node !in visited)
    requires forall i :: 0 <= i < k ==> h[i].node in visited
    ensures Skipped(h, visited) == k
  {
  }

  /** Skipping k entries and then popping one more pops the first k + 1. */
  lemma SliceStep(pops: seq<Entry>, h: seq<Entry>, k: int)
    requires 0 <= k < |h|
    ensures pops + h[..k] + [h[k..][0]] == pops + h[..k + 1]
    ensures h[k..][1..] == h[k + 1..]
  {
    assert h[..k + 1] == h[..k] + [h[k]];
  }

  /** What a walk costs: the step costs between its consecutive cells, added
      up, in thousandths.  Each step costs between 1000 and 1414. */
  function WalkCost(w: seq<Pos>): (c: int)
    ensures w == [] ==> c == 0
    ensures w != [] ==> 1000 * (|w| - 1) <= c <= 1414 * (|w| - 1)
    decreases |w|
  {
    if |w| < 2 then 0 else WalkCost(w[..|w| - 1]) + StepCost(w[|w| - 2], w[|w| - 1])
  }

  /** One more cell costs one more step. */
  lemma WalkCostStep(w: seq<Pos>, n: Pos)
    requires w != []
    ensures WalkCost(w + [n]) == WalkCost(w) + StepCost(w[|w| - 1], n)
  {
    assert (w + [n])[..|w|] == w;
  }

  /** n's cost is the one its parent link gives: 0 without a parent, and
      otherwise the cost of the parent, a visited node, plus the step from
      there to n. */
  ghost predicate Priced(info: map<Pos, NodeInfo>, visited: set<Pos>, n: Pos) {
    n in info && info[n].cost.Finite? &&
    match info[n].parent
    case None => info[n].cost.milli == 0
    case Some(p) =>
      p in visited && p in info && info[p].cost.Finite? && info[n].cost.milli == info[p].cost.milli + StepCost(p, n)
  }

  /** The waiting node n has an entry at its current cost. */
  ghost predicate Live(q: Queue, n: Pos) {
    n in q.info && exists x :: x in q.heap && x.node == n && q.info[n].cost == Finite(x.cost)
  }

  /** The cost invariant of uniform-cost search. */
  ghost predicate CostInv(visited: set<Pos>, q: Queue) {
    forall u: Unfolding {:trigger CostHolds(visited, q, u)} :: CostHolds(visited, q, u)
  }

  /** The body of CostInv. */
  ghost predicate CostHolds(visited: set<Pos>, q: Queue, u: Unfolding) {
    AllPriced(visited, q) && VisitedCheap(visited, q) && AllLive(q) && Floored(q)
  }

  /** Every visited or waiting node is priced by its parent link. */
  ghost predicate AllPriced(visited: set<Pos>, q: Queue) {
    forall n :: n in visited || n in q.waiting ==> Priced(q.info, visited, n)
  }

  /** No visited node costs more than any queued entry. */
  ghost predicate VisitedCheap(visited: set<Pos>, q: Queue) {
    forall v, x :: v in visited && x in q.heap ==> v in q.info && CostAtMost(q.info[v].cost, Finite(x.cost))
  }

  /** Every waiting node has an entry at its current cost. */
  ghost predicate AllLive(q: Queue) {
    forall n :: n in q.waiting ==> Live(q, n)
  }

  /** No entry of a waiting node is below that node's current cost. */
  ghost predicate Floored(q: Queue) {
    forall x :: x in q.heap && x.node in q.waiting ==> x.node in q.info && CostAtMost(q.info[x.node].cost, Finite(x.cost))
  }

  /** The neighbour m of v is visited or waiting, at a cost no more than v's
      plus the step from v to m. */
  ghost predicate Settled(q: Queue, visited: set<Pos>, v: Pos, m: Pos) {
    (m in visited || m in q.waiting) && v in q.info && m in q.info && q.info[v].cost.Finite? &&
    CostAtMost(q.info[m].cost, Finite(q.info[v].cost.milli + StepCost(v, m)))
  }

  /** Every neighbour of every expanded node is settled. */
  ghost predicate CostClosed(s: map<Pos, NodeState>, expanded: set<Pos>, visited: set<Pos>, q: Queue) {
    forall u: Unfolding {:trigger ClosedHolds(s, expanded, visited, q, u)} :: ClosedHolds(s, expanded, visited, q, u)
  }

  /** The body of CostClosed. */
  ghost predicate ClosedHolds(s: map<Pos, NodeState>, expanded: set<Pos>, visited: set<Pos>, q: Queue, u: Unfolding) {
    forall v, m :: v in expanded && m in Neighbors(s, v) ==> Settled(q, visited, v, m)
  }

  /** What the solver methods need to know of the cost invariant. */
  lemma CostFacts(visited: set<Pos>, q: Queue)
    requires CostInv(visited, q)
    ensures forall n :: n in visited || n in q.waiting ==> Priced(q.info, visited, n)
  {
    assert CostHolds(visited, q, Unfold);
  }

  /** The state after solve's prologue: only the start waits, at cost 0. */
  lemma CostInitial(s: map<Pos, NodeState>, info: map<Pos, NodeInfo>, start: Pos)
    requires start in info && info[start].cost == Finite(0) && info[start].parent.None?
    ensures CostInv({}, Queue(info, [Entry(0, 0, start)], {start}, 0))
    ensures CostClosed(s, {}, {}, Queue(info, [Entry(0, 0, start)], {start}, 0))
  {
    var q := Queue(info, [Entry(0, 0, start)], {start}, 0);
    assert q.heap[0] in q.heap;
    assert Live(q, start);
  }

  /** Skipping the first k entries, all of visited nodes, keeps the cost
      invariant: no live entry is among them. */
  lemma CostDrop(visited: set<Pos>, q: Queue, k: int)
    requires CostInv(visited, q) && 0 <= k <= |q.heap| && q.waiting !! visited
    requires forall i :: 0 <= i < k ==> q.heap[i].node in visited
    ensures CostInv(visited, q.(heap := q.heap[k..]))
  {
    assert CostHolds(visited, q, Unfold);
    var r := q.(heap := q.heap[k..]);
    forall x | x in r.heap ensures x in q.heap {
    }
    forall n | n in r.waiting ensures Live(r, n) {
      assert Live(q, n);
      var x :| x in q.heap && x.node == n && q.info[n].cost == Finite(x.cost);
      var i :| 0 <= i < |q.heap| && q.heap[i] == x;
      assert q.heap[k..][i - k] == x;
    }
  }

  /** Popping the head entry e of the sorted queue, for the waiting node n,
      and visiting n keeps the cost invariant.  The head's cost is n's cost,
      and it lies between every visited node's cost and every waiting node's:
      n is a cheapest waiting node. */
  lemma CostPop(visited: set<Pos>, q: Queue)
    requires CostInv(visited, q) && Ordered(q.heap) && q.heap != []
    requires q.heap[0].node in q.waiting && q.waiting !! visited
    ensures var e := q.heap[0];
      e.node in q.info && q.info[e.node].cost == Finite(e.cost) &&
      (forall v :: v in visited ==> v in q.info && CostAtMost(q.info[v].cost, Finite(e.cost))) &&
      (forall w :: w in q.waiting ==> w in q.info && q.info[w].cost.Finite? && e.cost <= q.info[w].cost.milli)
    ensures var n := q.heap[0].node;
      CostInv(visited + {n}, q.(heap := q.heap[1..], waiting := q.waiting - {n}))
  {
    assert CostHolds(visited, q, Unfold);
    var e := q.heap[0];
    var n := e.node;
    PopLeast(q.heap);
    assert q.heap == [e] + q.heap[1..];
    forall w | w in q.waiting ensures w in q.info && q.info[w].cost.Finite? && e.cost <= q.info[w].cost.milli {
      assert Live(q, w);
      var x :| x in q.heap && x.node == w && q.info[w].cost == Finite(x.cost);
      if x != e {
        assert Before(e, x);
      }
    }
    assert e in q.heap;
    var r := q.(heap := q.heap[1..], waiting := q.waiting - {n});
    forall m | m in visited + {n} || m in r.waiting ensures Priced(r.info, visited + {n}, m) {
      assert Priced(q.info, visited, m);
    }
    forall w | w in r.waiting ensures Live(r, w) {
      assert Live(q, w);
      var x :| x in q.heap && x.node == w && q.info[w].cost == Finite(x.cost);
      assert x in r.heap;
    }
  }

  /** Popping the head of the queue, an entry of an unvisited node n, and
      visiting n keeps both invariants; the closure now holds of every
      visited node but n, and n is a cheapest waiting node, at the head's
      cost. */
  lemma VisitCosts(s: map<Pos, NodeState>, start: Pos, visited: set<Pos>, q: Queue, rank: map<Pos, nat>)
    requires UcsInv(s, start, visited, q, rank) && CostInv(visited, q) && CostClosed(s, visited, visited, q)
    requires q.heap != [] && q.heap[0].node !in visited
    ensures var e := q.heap[0];
      var n, r := e.node, q.(heap := q.heap[1..], waiting := q.waiting - {e.node});
      UcsInv(s, start, visited + {n}, r, rank[n := |visited|]) && QueueOk(q) &&
      CostInv(visited + {n}, r) && CostClosed(s, (visited + {n}) - {n}, visited + {n}, r) &&
      n in q.info && q.info[n].cost == Finite(e.cost) &&
      (forall v :: v in visited + {n} ==> v in q.info && CostAtMost(q.info[v].cost, Finite(e.cost))) &&
      (forall w :: w in q.waiting - {n} ==> w in q.info && q.info[w].cost.Finite? && e.cost <= q.info[w].cost.milli)
  {
    var n := q.heap[0].node;
    UcsVisit(s, start, visited, q, rank);
    UcsFacts(s, start, visited, q, rank);
    CostPop(visited, q);
    ClosedFrame(s, visited, visited, q, visited + {n}, q.(heap := q.heap[1..], waiting := q.waiting - {n}));
    assert (visited + {n}) - {n} == visited;
  }

  /** The closure facts about expanded nodes survive a change of the queue
      that leaves the bookkeeping alone and only moves nodes from waiting to
      visited. */
  lemma ClosedFrame(s: map<Pos, NodeState>, expanded: set<Pos>, visited: set<Pos>, q: Queue, visited': set<Pos>, r: Queue)
    requires CostClosed(s, expanded, visited, q) && r.info == q.info
    requires forall m :: m in visited || m in q.waiting ==> m in visited' || m in r.waiting
    ensures CostClosed(s, expanded, visited', r)
  {
    assert ClosedHolds(s, expanded, visited, q, Unfold);
    forall v, m | v in expanded && m in Neighbors(s, v) ensures Settled(r, visited', v, m) {
      assert Settled(q, visited, v, m);
    }
  }

  /** A settled neighbour stays settled when the visited bookkeeping is kept
      and waiting nodes only get cheaper. */
  lemma SettledKeeps(q: Queue, r: Queue, visited: set<Pos>, v: Pos, m: Pos)
    requires Settled(q, visited, v, m) && v in visited
    requires forall p :: p in visited && p in q.info ==> p in r.info && r.info[p] == q.info[p]
    requires forall p :: p in q.waiting && p in q.info ==> p in r.waiting && p in r.info && CostAtMost(r.info[p].cost, q.info[p].cost)
    ensures Settled(r, visited, v, m)
  {
  }

  /** Linking n, outside the visited set, to the visited node cur at cur's
      cost plus the step prices n and leaves every other node priced. */
  lemma PricedRelink(visited: set<Pos>, q: Queue, cur: Pos, c: int, n: Pos)
    requires forall m :: m in visited || m in q.waiting ==> Priced(q.info, visited, m)
    requires cur in visited && cur in q.info && q.info[cur].cost == Finite(c) && n in q.info && n !in visited
    ensures var info := q.info[n := q.info[n].(cost := Finite(c + StepCost(cur, n)), parent := Some(cur))];
      forall m :: m in visited || m in q.waiting || m == n ==> Priced(info, visited, m)
  {
    var info := q.info[n := q.info[n].(cost := Finite(c + StepCost(cur, n)), parent := Some(cur))];
    forall m | m in visited || m in q.waiting || m == n ensures Priced(info, visited, m) {
      if m != n {
        assert Priced(q.info, visited, m);
      }
    }
  }

  /** Pushing an entry for n at its new cost keeps every waiting node's
      entry live. */
  lemma PushLive(q: Queue, r: Queue, n: Pos, e: Entry)
    requires forall w :: w in q.waiting ==> Live(q, w)
    requires r.waiting == q.waiting + {n} && r.heap == Push(q.heap, e) && e.node == n
    requires n in r.info && r.info[n].cost == Finite(e.cost)
    requires forall p :: p != n && p in q.info ==> p in r.info && r.info[p] == q.info[p]
    ensures forall w :: w in r.waiting ==> Live(r, w)
  {
    forall w | w in r.waiting ensures Live(r, w) {
      if w == n {
        assert e in r.heap;
      } else {
        assert Live(q, w);
        var x :| x in q.heap && x.node == w && q.info[w].cost == Finite(x.cost);
        assert x in r.heap;
      }
    }
  }

  /** Linking n, not yet visited, to the visited node cur popped at cost c,
      and pushing it at cur's cost plus the step keeps the cost invariant and
      settles n, provided no older entry of n is below the new cost.  This is
      a discovery, and an improvement of a waiting n. */
  lemma CostRelink(visited: set<Pos>, q: Queue, cur: Pos, c: int, n: Pos)
    requires CostInv(visited, q) && cur in visited && cur in q.info && q.info[cur].cost == Finite(c)
    requires forall v :: v in visited ==> v in q.info && CostAtMost(q.info[v].cost, Finite(c))
    requires n in q.info && n !in visited
    requires forall x :: x in q.heap && x.node == n ==> c + StepCost(cur, n) <= x.cost
    ensures var r := Discover(q, cur, n, c + StepCost(cur, n));
      CostInv(visited, r) && Settled(r, visited, cur, n)
  {
    assert CostHolds(visited, q, Unfold);
    var nc := c + StepCost(cur, n);
    var e := Entry(nc, q.counter + 1, n);
    var r := Discover(q, cur, n, nc);
    PricedRelink(visited, q, cur, c, n);
    PushLive(q, r, n, e);
    PushCheap(visited, q, r, e, c);
    PushFloor(q, r, n, e);
    assert CostHolds(visited, r, Unfold);
  }

  /** An entry costing at least c, pushed while no visited node costs more
      than c and the visited bookkeeping stays, keeps visited nodes cheap. */
  lemma PushCheap(visited: set<Pos>, q: Queue, r: Queue, e: Entry, c: int)
    requires VisitedCheap(visited, q) && r.heap == Push(q.heap, e) && c <= e.cost
    requires forall v :: v in visited ==> v in q.info && CostAtMost(q.info[v].cost, Finite(c))
    requires forall v :: v in visited && v in q.info ==> v in r.info && r.info[v] == q.info[v]
    ensures VisitedCheap(visited, r)
  {
  }

  /** Pushing an entry for n at n's new cost, no more than any older entry of
      n, keeps every waiting node's entries at or above its cost. */
  lemma PushFloor(q: Queue, r: Queue, n: Pos, e: Entry)
    requires Floored(q) && r.heap == Push(q.heap, e) && e.node == n && r.waiting == q.waiting + {n}
    requires n in r.info && r.info[n].cost == Finite(e.cost)
    requires forall x :: x in q.heap && x.node == n ==> e.cost <= x.cost
    requires forall p :: p != n && p in q.info ==> p in r.info && r.info[p] == q.info[p]
    ensures Floored(r)
  {
  }

  /** One neighbour loop iteration keeps the cost invariant and settles its
      neighbour. */
  lemma CostRelaxOne(visited: set<Pos>, q: Queue, cur: Pos, c: int, n: Pos)
    requires CostInv(visited, q) && cur in visited && cur in q.info && q.info[cur].cost == Finite(c)
    requires forall v :: v in visited ==> v in q.info && CostAtMost(q.info[v].cost, Finite(c))
    requires n in q.info && q.waiting !! visited
    requires forall x :: x in q.heap ==> x.node in q.waiting || x.node in visited
    ensures var r := RelaxOne(q, visited, cur, c, n);
      CostInv(visited, r) && Settled(r, visited, cur, n) &&
      forall x :: x in r.heap ==> x.node in r.waiting || x.node in visited
  {
    var nc := c + StepCost(cur, n);
    if n !in visited && n !in q.waiting {
      CostRelink(visited, q, cur, c, n);
    } else if n in q.waiting && Cheaper(nc, q.info[n].cost) {
      assert CostHolds(visited, q, Unfold);
      CostRelink(visited, q, cur, c, n);
      assert q.waiting + {n} == q.waiting;
      assert Improve(q, cur, n, nc) == Discover(q, cur, n, nc);
    } else {
      CostFacts(visited, q);
      assert Priced(q.info, visited, n);
    }
  }

  /** The whole neighbour loop of cur, popped at cost c, keeps the cost
      invariant and settles every neighbour it runs over. */
  lemma {:induction false} CostRelaxAll(visited: set<Pos>, q: Queue, cur: Pos, c: int, ns: seq<Pos>)
    requires CostInv(visited, q) && cur in visited && cur in q.info && q.info[cur].cost == Finite(c)
    requires forall v :: v in visited ==> v in q.info && CostAtMost(q.info[v].cost, Finite(c))
    requires forall n :: n in ns ==> n in q.info
    requires q.waiting <= q.info.Keys && q.waiting !! visited && forall x :: x in q.heap ==> x.counter <= q.counter
    requires forall x :: x in q.heap ==> x.node in q.waiting || x.node in visited
    ensures var r := RelaxAll(q, visited, cur, c, ns);
      CostInv(visited, r) && forall m :: m in ns ==> Settled(r, visited, cur, m)
    decreases |ns|
  {
    if ns != [] {
      var q1 := RelaxOne(q, visited, cur, c, ns[0]);
      CostRelaxOne(visited, q, cur, c, ns[0]);
      RelaxOneCosts(q, visited, cur, c, ns[0]);
      CostRelaxAll(visited, q1, cur, c, ns[1..]);
      RelaxAllCosts(q1, visited, cur, c, ns[1..]);
      var r := RelaxAll(q1, visited, cur, c, ns[1..]);
      SettledKeeps(q1, r, visited, cur, ns[0]);
      forall m | m in ns ensures Settled(r, visited, cur, m) {
        if m != ns[0] {
          assert m in ns[1..];
        }
      }
    }
  }

  /** Expanding cur closes it: once its neighbour loop has settled all of its
      neighbours, and nothing the earlier expansions settled came undone,
      every visited node is expanded and closed. */
  lemma ClosedExpand(s: map<Pos, NodeState>, visited: set<Pos>, q: Queue, r: Queue, cur: Pos)
    requires CostClosed(s, visited - {cur}, visited, q) && cur in visited
    requires forall m :: m in Neighbors(s, cur) ==> Settled(r, visited, cur, m)
    requires forall p :: p in visited && p in q.info ==> p in r.info && r.info[p] == q.info[p]
    requires forall p :: p in q.waiting && p in q.info ==> p in r.waiting && p in r.info && CostAtMost(r.info[p].cost, q.info[p].cost)
    ensures CostClosed(s, visited, visited, r)
  {
    assert ClosedHolds(s, visited - {cur}, visited, q, Unfold);
    forall v, m | v in visited && m in Neighbors(s, v) ensures Settled(r, visited, v, m) {
      if v != cur {
        SettledKeeps(q, r, visited, v, m);
      }
    }
  }

  /** The neighbour loop of cur, popped at cost c, keeps the cost invariant
      and closes cur. */
  lemma CostExpand(s: map<Pos, NodeState>, start: Pos, visited: set<Pos>, q: Queue, rank: map<Pos, nat>, cur: Pos, c: int)
    requires UcsInv(s, start, visited, q, rank) && CostInv(visited, q) && CostClosed(s, visited - {cur}, visited, q)
    requires cur in visited && cur in q.info && q.info[cur].cost == Finite(c)
    requires forall v :: v in visited ==> v in q.info && CostAtMost(q.info[v].cost, Finite(c))
    requires forall n :: n in Neighbors(s, cur) ==> n in q.info
    ensures var r := RelaxAll(q, visited, cur, c, Neighbors(s, cur));
      CostInv(visited, r) && CostClosed(s, visited, visited, r)
  {
    var ns := Neighbors(s, cur);
    UcsFacts(s, start, visited, q, rank);
    CostRelaxAll(visited, q, cur, c, ns);
    RelaxAllCosts(q, visited, cur, c, ns);
    ClosedExpand(s, visited, q, RelaxAll(q, visited, cur, c, ns), cur);
  }

  /** One instance of the closure. */
  lemma ClosedAt(s: map<Pos, NodeState>, expanded: set<Pos>, visited: set<Pos>, q: Queue, v: Pos, m: Pos)
    requires CostClosed(s, expanded, visited, q) && v in expanded && m in Neighbors(s, v)
    ensures Settled(q, visited, v, m)
  {
    assert ClosedHolds(s, expanded, visited, q, Unfold);
  }

  /** What a walk of cost c ending at n tells about the popped node t:
      either t costs no more than c, or n is an expanded node that does. */
  ghost predicate WalkBound(visited: set<Pos>, q: Queue, t: Pos, n: Pos, c: int)
    requires t in q.info && q.info[t].cost.Finite?
  {
    q.info[t].cost.milli <= c ||
    (n in visited - {t} && n in q.info && q.info[n].cost.Finite? && q.info[n].cost.milli <= c)
  }

  /** One more step a -> b keeps the bound: a settled neighbour of an
      expanded node is visited or waiting, and waiting nodes cost at least t. */
  lemma WalkBoundStep(s: map<Pos, NodeState>, visited: set<Pos>, q: Queue, t: Pos, a: Pos, b: Pos, ca: int, cb: int)
    requires CostClosed(s, visited - {t}, visited, q) && t in visited && t in q.info && q.info[t].cost.Finite?
    requires forall n :: n in q.waiting ==> n in q.info && q.info[n].cost.Finite? && q.info[t].cost.milli <= q.info[n].cost.milli
    requires WalkBound(visited, q, t, a, ca) && b in Neighbors(s, a) && cb == ca + StepCost(a, b)
    ensures WalkBound(visited, q, t, b, cb)
  {
    if q.info[t].cost.milli > ca {
      ClosedAt(s, visited - {t}, visited, q, a, b);
    }
  }

  /** Along a walk from the start, either the popped node t costs no more
      than the walk, or the walk ends at an expanded node that costs no more
      than the walk. */
  lemma {:induction false} WalkCosts(s: map<Pos, NodeState>, visited: set<Pos>, q: Queue, start: Pos, t: Pos, w: seq<Pos>)
    requires CostClosed(s, visited - {t}, visited, q) && t in visited && t in q.info && q.info[t].cost.Finite?
    requires forall n :: n in q.waiting ==> n in q.info && q.info[n].cost.Finite? && q.info[t].cost.milli <= q.info[n].cost.milli
    requires start in visited && start in q.info && q.info[start].cost == Finite(0)
    requires w != [] && IsWalk(s, w) && w[0] == start
    ensures WalkBound(visited, q, t, w[|w| - 1], WalkCost(w))
    decreases |w|
  {
    if |w| > 1 {
      var v := w[..|w| - 1];
      var a, b := w[|w| - 2], w[|w| - 1];
      WalkPrefix(s, w);
      WalkCosts(s, visited, q, start, t, v);
      assert w == v + [b] && v[|v| - 1] == a;
      WalkCostStep(v, b);
      assert b in Neighbors(s, a);
      WalkBoundStep(s, visited, q, t, a, b, WalkCost(v), WalkCost(w));
    }
  }

  /** A visited node's cost is what its reconstructed path costs. */
  lemma {:induction false} ChainCost(info: map<Pos, NodeInfo>, visited: set<Pos>, rank: map<Pos, nat>, n: Pos)
    requires Ranked(info, rank) && rank.Keys == visited && n in rank
    requires forall p :: p in visited ==> Priced(info, visited, p)
    ensures info[n].cost == Finite(WalkCost(ParentChain(info, n, rank)))
    decreases rank[n]
  {
    assert RankedAt(info, rank, n) && Priced(info, visited, n);
    match info[n].parent
    case None =>
      assert ParentChain(info, n, rank) == [n];
    case Some(p) =>
      ChainCost(info, visited, rank, p);
      var a := Ancestry(info, p, rank);
      assert Ancestry(info, n, rank) == [n] + a;
      assert ([n] + a)[1..] == a;
      assert ParentChain(info, n, rank) == ParentChain(info, p, rank) + [n];
      WalkCostStep(ParentChain(info, p, rank), n);
  }

  /** The path reconstructed at the pop of t is a cheapest walk to t, and t's
      recorded cost is its cost. */
  lemma ChainCheapest(s: map<Pos, NodeState>, visited: set<Pos>, q: Queue, rank: map<Pos, nat>, start: Pos, t: Pos)
    requires CostInv(visited, q) && CostClosed(s, visited - {t}, visited, q)
    requires t in visited && t in q.info && q.info[t].cost.Finite?
    requires Ranked(q.info, rank) && rank.Keys == visited
    requires start in visited && start in q.info && q.info[start].parent.None?
    requires forall n :: n in q.waiting ==> n in q.info && q.info[n].cost.Finite? && q.info[t].cost.milli <= q.info[n].cost.milli
    ensures var p := ParentChain(q.info, t, rank);
      q.info[t].cost == Finite(WalkCost(p)) &&
      forall w :: w != [] && IsWalk(s, w) && w[0] == start && w[|w| - 1] == t ==> WalkCost(p) <= WalkCost(w)
  {
    CostFacts(visited, q);
    assert Priced(q.info, visited, start) && Priced(q.info, visited, t);
    ChainCost(q.info, visited, rank, t);
    forall w | w != [] && IsWalk(s, w) && w[0] == start && w[|w| - 1] == t
      ensures q.info[t].cost.milli <= WalkCost(w)
    {
      WalkCosts(s, visited, q, start, t, w);
    }
  }

  /** An exhausted queue: the start has been visited, nothing waits, and
      the visited nodes are closed under taking neighbours. */
  lemma ExhaustedClosure(s: map<Pos, NodeState>, start: Pos, visited: set<Pos>, q: Queue, rank: map<Pos, nat>)
    requires UcsInv(s, start, visited, q, rank) && CostInv(visited, q) && CostClosed(s, visited, visited, q)
    requires q.heap == []
    ensures start in visited && q.waiting == {}
    ensures forall p, n :: p in visited && n in Neighbors(s, p) ==> n in visited
  {
    assert UcsHolds(s, start, visited, q, rank, Unfold);
    assert CostHolds(visited, q, Unfold);
    assert ClosedHolds(s, visited, visited, q, Unfold);
    assert q.waiting == {};
    forall p, n | p in visited && n in Neighbors(s, p) ensures n in visited {
      assert Settled(q, visited, p, n);
    }
  }

  /** With the queue exhausted, a target never visited cannot be reached
      from the start: the empty path means there is no path. */
  lemma ExhaustedUnreachable(s: map<Pos, NodeState>, start: Pos, visited: set<Pos>, q: Queue, rank: map<Pos, nat>,
                             target: Pos)
    requires UcsInv(s, start, visited, q, rank) && CostInv(visited, q) && CostClosed(s, visited, visited, q)
    requires q.heap == [] && target !in visited
    ensures Unreachable(s, start, target)
  {
    ExhaustedClosure(s, start, visited, q, rank);
    forall w | w != [] && IsWalk(s, w) && w[0] == start ensures w[|w| - 1] != target {
      WalkStaysIn(s, visited, w, |w| - 1);
    }
  }

  /** The target has not been visited: the run goes on. */
  ghost predicate Pending(target: Pos, visited: set<Pos>) {
    forall u: Unfolding {:trigger PendingHolds(target, visited, u)} :: PendingHolds(target, visited, u)
  }

  /** The body of Pending. */
  ghost predicate PendingHolds(target: Pos, visited: set<Pos>, u: Unfolding) {
    target !in visited
  }

  class UcsSolver {
    const grid: Grid
    const start: Pos
    const target: Pos
    /** The priority queue, as its sorted list of entries. */
    var heap: seq<Entry>
    /** frontier_set. */
    var waiting: set<Pos>
    var counter: int
    var visited: set<Pos>
    var steps: nat
    var pathLength: nat
    /** The generator has returned. */
    var done: bool
    /** Visit order, the termination measure of parent chains. */
    ghost var rank: map<Pos, nat>
    /** Every entry popped so far, in pop order. */
    ghost var pops: seq<Entry>

    ghost predicate Valid()
      reads this`heap, this`waiting, this`counter, this`visited, this`steps, this`rank, this`pops, this`done
      reads grid`state, grid`info
    {
      Sound() &&
      (!done ==> Pending(target, visited) && CostClosed(grid.state, visited, visited, Queue(grid.info, heap, waiting, counter)))
    }

    /** The invariant that also holds between a pop and the expansion. */
    ghost predicate Sound()
      reads this`heap, this`waiting, this`counter, this`visited, this`steps, this`rank, this`pops
      reads grid`state, grid`info
    {
      UcsInv(grid.state, start, visited, Queue(grid.info, heap, waiting, counter), rank) &&
      CostInv(visited, Queue(grid.info, heap, waiting, counter)) &&
      steps == |pops| && |visited| <= steps && PopsOrdered(pops, heap)
    }

    /** solve's prologue: the queue holds (0, 0, start), frontier_set is
        {start}, and the start gets cost 0 and no parent. */
    constructor (g: Grid)
      requires g.Valid()
      modifies g`info
      ensures Valid() && grid == g && start == g.startPos && target == g.targetPos
      ensures heap == [Entry(0, 0, start)] && waiting == {start} && counter == 0
      ensures visited == {} && steps == 0 && pathLength == 0 && !done && pops == []
      ensures g.info == old(g.info)[start := old(g.info)[start].(cost := Finite(0), parent := None)]
    {
      grid := g;
      start := g.startPos;
      target := g.targetPos;
      heap := [Entry(0, 0, g.startPos)];
      waiting := {g.startPos};
      counter := 0;
      visited := {};
      steps := 0;
      pathLength := 0;
      done := false;
      rank := map[];
      pops := [];
      new;
      g.info := g.info[start := g.info[start].(cost := Finite(0), parent := None)];
      UcsInitial(g.state, g.info, start);
      CostInitial(g.state, g.info, start);
    }

    /** One resumption of the generator: pop entries, counting a step for
        each, until one of an unvisited node comes up; visit it and either
        return its path (target) or run the neighbour loop.  An exhausted
        queue ends the run with an empty path. */
    method Advance() returns (snap: Snapshot)
      requires Valid() && !done
      modifies this, grid`info
      ensures Valid()
      ensures var k := Skipped(old(heap), old(visited));
        k == |old(heap)| ==>
          done && heap == [] && visited == old(visited) && waiting == old(waiting) && counter == old(counter) &&
          grid.info == old(grid.info) && steps == old(steps) + k && pops == old(pops) + old(heap) &&
          pathLength == old(pathLength) && snap.path == Some([])
      ensures var k := Skipped(old(heap), old(visited));
        k < |old(heap)| ==>
          visited == old(visited) + {old(heap)[k].node} && steps == old(steps) + k + 1 &&
          pops == old(pops) + old(heap)[..k + 1]
      ensures Ranked(grid.info, rank) && rank.Keys == visited
      ensures var k := Skipped(old(heap), old(visited));
        k < |old(heap)| && old(heap)[k].node == target ==>
          done && heap == old(heap)[k + 1..] && waiting == old(waiting) - {target} && counter == old(counter) &&
          grid.info == old(grid.info) &&
          snap.path == Some(ParentChain(grid.info, target, rank)) && pathLength == |snap.path.value|
      ensures var k := Skipped(old(heap), old(visited));
        k < |old(heap)| && old(heap)[k].node == target ==>
          var p := snap.path.value;
          grid.info[target].cost == Finite(WalkCost(p)) &&
          forall w :: w != [] && IsWalk(grid.state, w) && w[0] == start && w[|w| - 1] == target ==> WalkCost(p) <= WalkCost(w)
      ensures var k := Skipped(old(heap), old(visited));
        k < |old(heap)| && old(heap)[k].node != target ==>
          var e := old(heap)[k];
          !done && snap.path == None && pathLength == old(pathLength) &&
          (forall n :: n in Neighbors(grid.state, e.node) ==> n in old(grid.info)) &&
          Queue(grid.info, heap, waiting, counter) ==
            RelaxAll(Queue(old(grid.info), old(heap)[k + 1..], old(waiting) - {e.node}, old(counter)),
                     visited, e.node, e.cost, Neighbors(grid.state, e.node))
      ensures (forall x :: x in snap.frontier <==> x in waiting) && NoDuplicates(snap.frontier)
      ensures snap.visited == multiset(visited)
      ensures snap.path.Some? && snap.path.value != [] ==>
        var p := snap.path.value;
        p[0] == start && p[|p| - 1] == target && IsWalk(grid.state, p) && NoDuplicates(p) && |p| <= steps
      ensures snap.path == Some([]) ==> Unreachable(grid.state, start, target)
    {
      ghost var heap0, pops0 := heap, pops;
      SkipVisited();
      if heap != [] {
        SliceStep(pops0, heap0, Skipped(heap0, visited));
      }
      snap := Resume();
    }

    /** What one resumption does, from the state it starts in to the state it
        leaves: an empty queue ends the run with an empty path; otherwise the
        head is visited, and either it is the target, whose path comes back
        as a cheapest walk to it, or its neighbour loop runs. */
    twostate predicate Resumed(snap: Snapshot)
      reads this, grid
    {
      Reported(snap) &&
      (old(heap) == [] ==> Exhausted(snap)) &&
      (old(heap) != [] && old(heap)[0].node == target ==> Reached(snap)) &&
      (old(heap) != [] && old(heap)[0].node != target ==> Expanded(snap))
    }

    /** What every resumption reports: the ranks, the frontier, the visited
        nodes and, for a non-empty path, a walk from the start to the target. */
    twostate predicate Reported(snap: Snapshot)
      reads this, grid
    {
      Ranked(grid.info, rank) && rank.Keys == visited &&
      (forall x :: x in snap.frontier <==> x in waiting) && NoDuplicates(snap.frontier) &&
      snap.visited == multiset(visited) &&
      (snap.path.Some? && snap.path.value != [] ==>
        var p := snap.path.value;
        p[0] == start && p[|p| - 1] == target && IsWalk(grid.state, p) && NoDuplicates(p) && |p| <= steps)
    }

    /** The queue was empty: the run ends with an empty path. */
    twostate predicate Exhausted(snap: Snapshot)
      reads this, grid
    {
      old(heap) == [] &&
      done && heap == [] && visited == old(visited) && waiting == old(waiting) && counter == old(counter) &&
      grid.info == old(grid.info) && steps == old(steps) && pops == old(pops) && pathLength == old(pathLength) &&
      snap.path == Some([])
    }

    /** The head was the target: it is visited and its path is a cheapest
        walk to it. */
    twostate predicate Reached(snap: Snapshot)
      reads this, grid
    {
      old(heap) != [] && old(heap)[0].node == target &&
      visited == old(visited) + {target} && steps == old(steps) + 1 && pops == old(pops) + [old(heap)[0]] &&
      done && heap == old(heap)[1..] && waiting == old(waiting) - {target} && counter == old(counter) &&
      grid.info == old(grid.info) && Ranked(grid.info, rank) && target in rank &&
      snap.path == Some(ParentChain(grid.info, target, rank)) && pathLength == |snap.path.value| &&
      var p := snap.path.value;
      grid.info[target].cost == Finite(WalkCost(p)) &&
      forall w :: w != [] && IsWalk(grid.state, w) && w[0] == start && w[|w| - 1] == target ==> WalkCost(p) <= WalkCost(w)
    }

    /** The head was another node: it is visited and its neighbour loop ran. */
    twostate predicate Expanded(snap: Snapshot)
      reads this, grid
    {
      old(heap) != [] && old(heap)[0].node != target &&
      var e := old(heap)[0];
      visited == old(visited) + {e.node} && steps == old(steps) + 1 && pops == old(pops) + [e] &&
      !done && snap.path == None && pathLength == old(pathLength) &&
      (forall n :: n in Neighbors(grid.state, e.node) ==> n in old(grid.info)) &&
      Queue(grid.info, heap, waiting, counter) ==
        RelaxAll(Queue(old(grid.info), old(heap)[1..], old(waiting) - {e.node}, old(counter)),
                 visited, e.node, e.cost, Neighbors(grid.state, e.node))
    }

    /** Advance once the head of the queue, if any, is an unvisited node. */
    method Resume() returns (snap: Snapshot)
      requires Valid() && !done && (heap == [] || heap[0].node !in visited)
      modifies this, grid`info
      ensures Valid()
      ensures Resumed(snap)
      ensures snap.path == Some([]) ==> Unreachable(grid.state, start, target)
    {
      if heap == [] {
        snap := Exhaust();
      } else if heap[0].node == target {
        snap := ReachTarget();
      } else {
        snap := ExpandHead();
      }
    }

    /** Resume on an empty queue: the search fails with an empty path. */
    method Exhaust() returns (snap: Snapshot)
      requires Valid() && !done && heap == []
      modifies this`done
      ensures Valid() && Reported(snap) && Exhausted(snap)
      ensures Unreachable(grid.state, start, target)
    {
      assert PendingHolds(target, visited, Unfold);
      ExhaustedUnreachable(grid.state, start, visited, Queue(grid.info, heap, waiting, counter), rank, target);
      done := true;
      var f := ListOf(waiting);
      snap := Snapshot(f, multiset(visited), Some([]));
      UcsFacts(grid.state, start, visited, Queue(grid.info, heap, waiting, counter), rank);
    }

    /** Resume when the head of the queue is the unvisited target: pop it and
        return its path, a cheapest walk to it. */
    method ReachTarget() returns (snap: Snapshot)
      requires Valid() && !done && heap != [] && heap[0].node !in visited && heap[0].node == target
      modifies this`heap, this`waiting, this`visited, this`steps, this`pops, this`rank, this`pathLength, this`done
      ensures Valid() && Reported(snap) && Reached(snap)
    {
      var current, cost := PopHead();
      snap := Finish(current);
      UcsFacts(grid.state, start, visited, Queue(grid.info, heap, waiting, counter), rank);
    }

    /** Resume when the head of the queue is an unvisited node other than the
        target: pop it and run its neighbour loop. */
    method ExpandHead() returns (snap: Snapshot)
      requires Valid() && !done && heap != [] && heap[0].node !in visited && heap[0].node != target
      modifies this`heap, this`waiting, this`visited, this`steps, this`pops, this`rank, this`counter, grid`info
      ensures Valid() && Reported(snap) && Expanded(snap)
    {
      var current, cost := PopHead();
      assert PendingHolds(target, old(visited), Unfold);
      snap := Expand(current, cost);
      UcsFacts(grid.state, start, visited, Queue(grid.info, heap, waiting, counter), rank);
    }

    /** Pop and skip the entries of visited nodes at the head of the queue,
        one step each. */
    method SkipVisited()
      requires Valid() && !done
      modifies this`heap, this`steps, this`pops
      ensures Valid()
      ensures var k := Skipped(old(heap), visited);
        heap == old(heap)[k..] && steps == old(steps) + k && pops == old(pops) + old(heap)[..k]
    {
      var k := 0;
      while k < |heap| && heap[k].node in visited
        invariant 0 <= k <= |heap|
        invariant forall i :: 0 <= i < k ==> heap[i].node in visited
      {
        k := k + 1;
      }
      SkippedUnique(heap, visited, k);
      var q := Queue(grid.info, heap, waiting, counter);
      UcsDrop(grid.state, start, visited, q, rank, k);
      UcsFacts(grid.state, start, visited, q, rank);
      CostDrop(visited, q, k);
      ClosedFrame(grid.state, visited, visited, q, visited, q.(heap := heap[k..]));
      PopsDrop(pops, heap, k);
      heap, steps, pops := heap[k..], steps + k, pops + heap[..k];
    }

    /** heappop of an entry of an unvisited node, frontier_set.discard and
        visited.add. */
    method PopHead() returns (current: Pos, cost: int)
      requires Valid() && !done && heap != [] && heap[0].node !in visited
      modifies this`heap, this`waiting, this`visited, this`steps, this`pops, this`rank
      ensures Sound() && !done && current == old(heap)[0].node && cost == old(heap)[0].cost
      ensures heap == old(heap)[1..] && waiting == old(waiting) - {current}
      ensures visited == old(visited) + {current} && steps == old(steps) + 1 && pops == old(pops) + [old(heap)[0]]
      ensures CostClosed(grid.state, visited - {current}, visited, Queue(grid.info, heap, waiting, counter))
      ensures current in grid.info && grid.info[current].cost == Finite(cost)
      ensures forall v :: v in visited ==> v in grid.info && CostAtMost(grid.info[v].cost, Finite(cost))
      ensures forall w :: w in waiting ==> w in grid.info && grid.info[w].cost.Finite? && cost <= grid.info[w].cost.milli
    {
      var e := heap[0];
      current, cost := e.node, e.cost;
      VisitCosts(grid.state, start, visited, Queue(grid.info, heap, waiting, counter), rank);
      PopsStep(pops, heap);
      heap, waiting, visited, rank, steps, pops :=
        heap[1..], waiting - {current}, visited + {current}, rank[current := |visited|], steps + 1, pops + [e];
    }

    /** The target was popped: reconstruct its path and end the run. */
    method Finish(current: Pos) returns (snap: Snapshot)
      requires Sound() && current in visited
      requires CostClosed(grid.state, visited - {current}, visited, Queue(grid.info, heap, waiting, counter))
      requires current in grid.info && grid.info[current].cost.Finite?
      requires forall w :: w in waiting ==>
        w in grid.info && grid.info[w].cost.Finite? && grid.info[current].cost.milli <= grid.info[w].cost.milli
      modifies this`pathLength, this`done
      ensures Valid() && done && Ranked(grid.info, rank) && current in rank
      ensures snap.visited == multiset(visited) && snap.path == Some(ParentChain(grid.info, current, rank))
      ensures (forall x :: x in snap.frontier <==> x in waiting) && NoDuplicates(snap.frontier)
      ensures pathLength == |snap.path.value|
      ensures var p := snap.path.value;
        p[0] == start && p[|p| - 1] == current && IsWalk(grid.state, p) && NoDuplicates(p) && |p| <= steps
      ensures var p := snap.path.value;
        grid.info[current].cost == Finite(WalkCost(p)) &&
        forall w :: w != [] && IsWalk(grid.state, w) && w[0] == start && w[|w| - 1] == current ==> WalkCost(p) <= WalkCost(w)
    {
      var q := Queue(grid.info, heap, waiting, counter);
      UcsFacts(grid.state, start, visited, q, rank);
      var path := ReconstructPath(grid, current, rank);
      FoundPath(grid.state, grid.info, start, visited, rank, current);
      ChainCheapest(grid.state, visited, q, rank, start, current);
      pathLength := |path|;
      done := true;
      var f := ListOf(waiting);
      snap := Snapshot(f, multiset(visited), Some(path));
    }

    /** The neighbour loop for the node current, popped at cost. */
    method Expand(current: Pos, cost: int) returns (snap: Snapshot)
      requires Sound() && !done && current in visited && target !in visited && pops != [] && pops[|pops| - 1].cost == cost
      requires CostClosed(grid.state, visited - {current}, visited, Queue(grid.info, heap, waiting, counter))
      requires current in grid.info && grid.info[current].cost == Finite(cost)
      requires forall v :: v in visited ==> v in grid.info && CostAtMost(grid.info[v].cost, Finite(cost))
      modifies this`heap, this`waiting, this`counter, grid`info
      ensures Valid()
      ensures forall n :: n in Neighbors(grid.state, current) ==> n in old(grid.info)
      ensures Queue(grid.info, heap, waiting, counter) ==
        RelaxAll(Queue(old(grid.info), old(heap), old(waiting), old(counter)), visited, current, cost, Neighbors(grid.state, current))
      ensures (forall x :: x in snap.frontier <==> x in waiting) && NoDuplicates(snap.frontier)
      ensures snap.visited == multiset(visited) && snap.path == None
    {
      var ns := Neighbors(grid.state, current);
      var q0 := Queue(grid.info, heap, waiting, counter);
      ExpandKeeps(grid.state, start, visited, q0, rank, pops, current, cost, ns);
      CostExpand(grid.state, start, visited, q0, rank, current, cost);
      var q := Relax(q0, visited, current, cost, ns);
      grid.info, heap, waiting, counter := q.info, q.heap, q.waiting, q.counter;
      var f := ListOf(waiting);
      snap := Snapshot(f, multiset(visited), None);
    }
  }
}
