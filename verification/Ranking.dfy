/** Ranking a graph for the sequence layout, with cycles broken at the lowest remaining id. */
module Ranking {
  import opened GraphEdges

  // ---- Walks -----------------------------------------------------------------------------------

  ghost predicate Walk(edges: set<Edge>, w: seq<nat>) {
    w != [] && forall k :: 0 <= k < |w| - 1 ==> (w[k], w[k + 1]) in edges
  }

  ghost predicate Cycle(edges: set<Edge>, w: seq<nat>) {
    Walk(edges, w) && |w| > 1 && w[0] == w[|w| - 1]
  }

  ghost predicate Acyclic(edges: set<Edge>) {
    !exists w :: Cycle(edges, w)
  }

  /** Every node of u has a predecessor in u: no node of u can be ranked before another. */
  ghost predicate Stuck(edges: set<Edge>, u: set<nat>) {
    u != {} && forall v :: v in u ==> Preds(edges, v) * u != {}
  }

  /** A walk of n edges inside a stuck set that ends at a given node. */
  lemma {:induction false} WalkInto(edges: set<Edge>, u: set<nat>, v: nat, n: nat) returns (w: seq<nat>)
    requires Stuck(edges, u) && v in u
    ensures |w| == n + 1 && Walk(edges, w) && w[n] == v && forall k :: 0 <= k < |w| ==> w[k] in u
    decreases n
  {
    if n == 0 {
      w := [v];
    } else {
      var p :| p in Preds(edges, v) * u;
      w := WalkInto(edges, u, p, n - 1);
      w := w + [v];
    }
  }

  /** A list longer than the set it draws from repeats an element. */
  lemma {:induction false} Pigeonhole(s: seq<nat>, u: set<nat>) returns (i: nat, j: nat)
    requires |s| > |u| && forall k :: 0 <= k < |s| ==> s[k] in u
    ensures i < j < |s| && s[i] == s[j]
    decreases |s|
  {
    if k :| 1 <= k < |s| && s[k] == s[0] {
      i, j := 0, k;
    } else {
      i, j := Pigeonhole(s[1..], u - {s[0]});
      i, j := i + 1, j + 1;
    }
  }

  /** A cycle, and a walk from it to v. */
  ghost predicate LeadsFromCycle(edges: set<Edge>, cycle: seq<nat>, tail: seq<nat>, v: nat) {
    Cycle(edges, cycle) && Walk(edges, tail) && tail[0] == cycle[0] && tail[|tail| - 1] == v
  }

  ghost predicate DownstreamOfCycle(edges: set<Edge>, v: nat) {
    exists cycle, tail :: LeadsFromCycle(edges, cycle, tail, v)
  }

  ghost predicate OnCycle(edges: set<Edge>, v: nat) {
    exists w :: Cycle(edges, w) && v in w
  }

  /** Every node of a stuck set is downstream of a cycle, by a walk and a cycle inside the set. */
  lemma StuckIsDownstreamOfCycle(edges: set<Edge>, u: set<nat>, v: nat) returns (cycle: seq<nat>, tail: seq<nat>)
    requires Stuck(edges, u) && v in u
    ensures LeadsFromCycle(edges, cycle, tail, v) && Elements(cycle) <= u && Elements(tail) <= u
  {
    var w := WalkInto(edges, u, v, |u|);
    var i, j := Pigeonhole(w, u);
    cycle, tail := w[i..j + 1], w[j..];
  }

  // ---- What a ranking is -------------------------------------------------------------------------

  /** The nodes among `left` none of whose predecessors in `edges` is left. */
  ghost function Ready(edges: set<Edge>, left: set<nat>): set<nat> {
    set v | v in left && Preds(edges, v) * left == {}
  }

  ghost predicate Lowest(s: set<nat>, v: nat) {
    v in s && forall u :: u in s ==> v <= u
  }

  /** Which node is placed next: the lowest ready one, or, when none is ready, the lowest of all. */
  ghost predicate Chosen(edges: set<Edge>, left: set<nat>, v: nat) {
    if Ready(edges, left) != {} then Lowest(Ready(edges, left), v) else Lowest(left, v)
  }

  ghost function Left(nodes: set<nat>, order: seq<nat>, i: nat): set<nat>
    requires i <= |order|
  {
    nodes - Elements(order[..i])
  }

  /** Each node of the order is the one chosen among those not placed before it. */
  ghost predicate PlacementOrder(edges: set<Edge>, nodes: set<nat>, order: seq<nat>) {
    forall i :: 0 <= i < |order| ==> order[i] in Left(nodes, order, i) && Chosen(edges, Left(nodes, order, i), order[i])
  }

  /** The i-th node was placed while some node it follows was still waiting. */
  ghost predicate Forced(edges: set<Edge>, nodes: set<nat>, order: seq<nat>, i: nat)
    requires i < |order|
  {
    Ready(edges, Left(nodes, order, i)) == {}
  }

  /** How many of the placements were forced. */
  ghost function Breaks(edges: set<Edge>, nodes: set<nat>, order: seq<nat>): nat {
    if order == [] then 0
    else
      Breaks(edges, nodes, order[..|order| - 1]) + if Ready(edges, Left(nodes, order, |order| - 1)) == {} then 1 else 0
  }

  /** r is one more than the highest rank among preds, or 0 when there are none. */
  ghost predicate RankAbove(rank: map<nat, nat>, preds: set<nat>, r: nat) {
    && (forall u :: u in preds ==> u in rank && rank[u] < r)
    && (r > 0 ==> exists u :: u in preds && u in rank && rank[u] + 1 == r)
  }

  /** Every placed node ranks just above those of its predecessors that were placed before it. */
  ghost predicate RanksFollow(edges: set<Edge>, order: seq<nat>, rank: map<nat, nat>) {
    forall i :: 0 <= i < |order| ==>
      order[i] in rank && RankAbove(rank, Preds(edges, order[i]) * Elements(order[..i]), rank[order[i]])
  }

  ghost predicate IsRanking(edges: set<Edge>, nodes: set<nat>, order: seq<nat>, rank: map<nat, nat>) {
    && Elements(order) == nodes
    && PlacementOrder(edges, nodes, order)
    && RanksFollow(edges, order, rank)
  }

  // ---- The ranking loop --------------------------------------------------------------------------

  /** The edges whose source has not been placed yet. */
  ghost function From(edges: set<Edge>, left: set<nat>): set<Edge> {
    set e | e in edges && e.0 in left
  }

  ghost function Free(waiting: set<Edge>, left: set<nat>): set<nat> {
    set v | v in left && Preds(waiting, v) == {}
  }

  ghost predicate Counted(waiting: set<Edge>, left: set<nat>, indeg: map<nat, int>) {
    forall v :: v in left ==> v in indeg && indeg[v] == |Preds(waiting, v)|
  }

  ghost predicate Queued(waiting: set<Edge>, left: set<nat>, ready: seq<nat>) {
    Ascending(ready) && Elements(ready) == Free(waiting, left)
  }

  ghost predicate RanksReached(settled: set<Edge>, left: set<nat>, rank: map<nat, nat>) {
    forall v :: v in left ==> v in rank && RankAbove(rank, Preds(settled, v), rank[v])
  }

  /** The loop's view of the nodes still left: `left` and `from` differ while one node's edges are followed. */
  ghost predicate Waiting(edges: set<Edge>, from: set<nat>, left: set<nat>, indeg: map<nat, int>, ready: seq<nat>,
                          rank: map<nat, nat>) {
    && Counted(From(edges, from), left, indeg)
    && Queued(From(edges, from), left, ready)
    && RanksReached(edges - From(edges, from), left, rank)
  }

  lemma PredsFrom(edges: set<Edge>, left: set<nat>)
    ensures forall v: nat :: Preds(From(edges, left), v) == Preds(edges, v) * left
    ensures forall v: nat :: Preds(edges - From(edges, left), v) == Preds(edges, v) - left
    ensures Free(From(edges, left), left) == Ready(edges, left)
  {
  }

  lemma PredsLess(waiting: set<Edge>, e: Edge, v: nat)
    requires e in waiting
    ensures Preds(waiting - {e}, v) == if v == e.1 then Preds(waiting, v) - {e.0} else Preds(waiting, v)
    ensures v == e.1 ==> e.0 in Preds(waiting, v) && |Preds(waiting - {e}, v)| == |Preds(waiting, v)| - 1
  {
  }

  lemma PredsMore(settled: set<Edge>, e: Edge, v: nat)
    ensures Preds(settled + {e}, v) == if v == e.1 then Preds(settled, v) + {e.0} else Preds(settled, v)
  {
  }

  /** An edge into a placed node can be dropped without touching what is known of the others. */
  lemma SkipEdge(waiting: set<Edge>, settled: set<Edge>, left: set<nat>, e: Edge,
                 indeg: map<nat, int>, ready: seq<nat>, rank: map<nat, nat>)
    requires e in waiting && e.1 !in left
    requires Counted(waiting, left, indeg) && Queued(waiting, left, ready) && RanksReached(settled, left, rank)
    ensures Counted(waiting - {e}, left, indeg) && Queued(waiting - {e}, left, ready)
    ensures RanksReached(settled + {e}, left, rank)
  {
    forall v | v in left
      ensures Preds(waiting - {e}, v) == Preds(waiting, v) && Preds(settled + {e}, v) == Preds(settled, v)
    {
      PredsLess(waiting, e, v);
      PredsMore(settled, e, v);
    }
    assert Free(waiting - {e}, left) == Free(waiting, left);
  }

  lemma CountDown(waiting: set<Edge>, left: set<nat>, e: Edge, indeg: map<nat, int>)
    requires e in waiting && e.1 in left && Counted(waiting, left, indeg)
    ensures Counted(waiting - {e}, left, indeg[e.1 := indeg[e.1] - 1])
  {
    forall v | v in left
      ensures |Preds(waiting - {e}, v)| == |Preds(waiting, v)| - if v == e.1 then 1 else 0
    {
      PredsLess(waiting, e, v);
    }
  }

  lemma QueueAfter(waiting: set<Edge>, left: set<nat>, e: Edge, ready: seq<nat>)
    requires e in waiting && e.1 in left && Queued(waiting, left, ready)
    ensures e.1 !in ready
    ensures Free(waiting - {e}, left) ==
            Elements(ready) + if |Preds(waiting - {e}, e.1)| == 0 then {e.1} else {}
  {
    PredsLess(waiting, e, e.1);
    assert e.1 !in Elements(ready);
    forall v | v in left && v != e.1 ensures v in Free(waiting - {e}, left) <==> v in Free(waiting, left) {
      PredsLess(waiting, e, v);
    }
  }

  lemma RankRises(settled: set<Edge>, left: set<nat>, e: Edge, rank: map<nat, nat>, r: nat)
    requires e.1 in left && e.0 !in left && e.0 in rank && RanksReached(settled, left, rank)
    requires forall f :: f in settled ==> f.0 !in left
    requires r == if rank[e.0] + 1 > rank[e.1] then rank[e.0] + 1 else rank[e.1]
    ensures RanksReached(settled + {e}, left, rank[e.1 := r])
  {
    var after := rank[e.1 := r];
    forall v | v in left ensures v in after && RankAbove(after, Preds(settled + {e}, v), after[v]) {
      PredsMore(settled, e, v);
      assert RankAbove(rank, Preds(settled, v), rank[v]);
      assert forall u :: u in Preds(settled, v) ==> u !in left;
    }
  }

  /** Follows one edge, to a node that has not been placed. */
  method FollowOne(ghost edges: set<Edge>, ghost waiting: set<Edge>, ghost left: set<nat>, id: nat, next: nat,
                   indeg0: map<nat, int>, ready0: seq<nat>, rank0: map<nat, nat>)
    returns (indeg: map<nat, int>, ready: seq<nat>, rank: map<nat, nat>)
    requires (id, next) in waiting && waiting <= edges && next in left && id !in left && id in rank0
    requires forall f :: f in edges - waiting ==> f.0 !in left
    requires Counted(waiting, left, indeg0) && Queued(waiting, left, ready0) && RanksReached(edges - waiting, left, rank0)
    ensures var still := waiting - {(id, next)};
            Counted(still, left, indeg) && Queued(still, left, ready) && RanksReached(edges - still, left, rank)
    ensures rank.Keys == rank0.Keys && forall v :: v in rank && v != next ==> rank[v] == rank0[v]
  {
    assert Ascending(ready0);
    hide Counted, Queued, RanksReached, Sorted, Inserted;
    indeg, ready, rank := indeg0, ready0, rank0;
    ghost var e := (id, next);
    assert edges - (waiting - {e}) == edges - waiting + {e};
    CountDown(waiting, left, e, indeg);
    QueueAfter(waiting, left, e, ready);
    Known(waiting, edges - waiting, left, indeg, ready, rank, next);
    var r := rank[id] + 1;
    ghost var high := if r > rank[next] then r else rank[next];
    RankRises(edges - waiting, left, e, rank, high);
    if r > rank[next] {
      rank := rank[next := r];
    } else {
      assert rank[next := rank[next]] == rank;
    }
    indeg := indeg[next := indeg[next] - 1];
    Known(waiting - {e}, edges - waiting + {e}, left, indeg, ready, rank, next);
    if indeg[next] == 0 {
      AscendingIsSorted(ready);
      ready := InsertSorted(ready, next);
    }
    Requeued(waiting - {e}, left, ready);
  }

  /** Follows the edges out of a node just placed: each unplaced successor ranks above it and waits for one node
      less, and joins the queue when it waits for none. `before` is what was left with the node itself. */
  method Follow(ghost edges: set<Edge>, ghost before: set<nat>, id: nat, succs: seq<nat>, left: set<nat>,
                indeg0: map<nat, int>, ready0: seq<nat>, rank0: map<nat, nat>)
    returns (indeg: map<nat, int>, ready: seq<nat>, rank: map<nat, nat>)
    requires id in before && left == before - {id} && id in rank0
    requires Ascending(succs) && Elements(succs) == Succs(edges, id)
    requires Waiting(edges, before, left, indeg0, ready0, rank0)
    ensures Waiting(edges, left, left, indeg, ready, rank)
    ensures rank.Keys == rank0.Keys && forall v :: v in rank && v !in left ==> rank[v] == rank0[v]
  {
    indeg, ready, rank := indeg0, ready0, rank0;
    ghost var waiting := From(edges, before);
    for k := 0 to |succs|
      invariant waiting == set e | e in From(edges, before) && (e.0 == id ==> e.1 !in succs[..k])
      invariant Counted(waiting, left, indeg) && Queued(waiting, left, ready)
      invariant RanksReached(edges - waiting, left, rank)
      invariant rank.Keys == rank0.Keys && forall v :: v in rank && v !in left ==> rank[v] == rank0[v]
    {
      hide Counted, Queued, RanksReached, Sorted, Inserted;
      var next := succs[k];
      ghost var e := (id, next);
      assert next in Succs(edges, id);
      assert succs[..k + 1] == succs[..k] + [next];
      assert e in waiting && edges - (waiting - {e}) == edges - waiting + {e};
      if next !in left {
        SkipEdge(waiting, edges - waiting, left, e, indeg, ready, rank);
      } else {
        indeg, ready, rank := FollowOne(edges, waiting, left, id, next, indeg, ready, rank);
      }
      waiting := waiting - {e};
    }
    forall e | e in edges && e.0 == id ensures e.1 in succs[..|succs|] {
      assert e.1 in Succs(edges, id);
    }
    assert waiting == From(edges, left);
  }

  lemma Requeued(waiting: set<Edge>, left: set<nat>, ready: seq<nat>)
    requires Ascending(ready) && Elements(ready) == Free(waiting, left)
    ensures Queued(waiting, left, ready)
  {
  }

  lemma Known(waiting: set<Edge>, settled: set<Edge>, left: set<nat>, indeg: map<nat, int>, ready: seq<nat>,
              rank: map<nat, nat>, v: nat)
    requires v in left && Counted(waiting, left, indeg) && RanksReached(settled, left, rank)
    ensures v in indeg && indeg[v] == |Preds(waiting, v)| && v in rank
  {
  }

  /** Before anything is placed, the counts are the numbers of edges into each node. */
  lemma StartCounts(nodes: seq<nat>, edges: set<Edge>, into: Adjacency, indeg: map<nat, int>)
    requires ListsPreds(into, edges) && indeg == map v | v in Present(nodes) :: |Neighbours(into, v)|
    ensures Counted(edges, Present(nodes), indeg)
    ensures Free(edges, Present(nodes)) == set v | v in nodes && indeg[v] == 0
  {
    hide Ascending;
    forall v | v in nodes ensures indeg[v] == |Preds(edges, v)| {
      AscendingSize(Neighbours(into, v));
    }
  }

  lemma StartOrder(nodes: seq<nat>, edges: set<Edge>, rank: map<nat, nat>)
    requires rank == map v | v in Present(nodes) :: 0
    requires forall e :: e in edges ==> e.0 in nodes
    ensures From(edges, Present(nodes)) == edges && Elements([]) == {}
    ensures RanksReached({}, Present(nodes), rank) && RanksFollow(edges, [], rank)
    ensures PlacementOrder(edges, Present(nodes), []) && Breaks(edges, Present(nodes), []) == 0
  {
  }

  /** The nodes no edge enters, in the order they are listed. */
  method Sources(nodes: seq<nat>, indeg: map<nat, int>) returns (ready: seq<nat>)
    requires Ascending(nodes) && forall v :: v in nodes ==> v in indeg
    ensures Ascending(ready) && Elements(ready) == set v | v in nodes && indeg[v] == 0
  {
    ready := [];
    for i := 0 to |nodes|
      invariant Ascending(ready)
      invariant forall x :: x in ready <==> x in nodes[..i] && indeg[x] == 0
    {
      assert nodes[..i + 1] == nodes[..i] + [nodes[i]];
      if indeg[nodes[i]] == 0 {
        assert forall k :: 0 <= k < |ready| ==> ready[k] in ready && ready[k] in nodes[..i];
        ready := ready + [nodes[i]];
      }
    }
    assert nodes[..|nodes|] == nodes;
  }

  method LowestUnplaced(nodes: seq<nat>, placed: set<nat>) returns (v: nat)
    requires Ascending(nodes) && Present(nodes) - placed != {}
    ensures Lowest(Present(nodes) - placed, v)
  {
    var u :| u in Present(nodes) - placed;
    var i := 0;
    while nodes[i] in placed
      invariant i < |nodes| && u in nodes[i..]
      invariant forall k :: 0 <= k < i ==> nodes[k] in placed
      decreases |nodes| - i
    {
      assert nodes[i..] == [nodes[i]] + nodes[i + 1..];
      i := i + 1;
    }
    v := nodes[i];
  }

  lemma Unqueued(edges: set<Edge>, left: set<nat>, v: nat, indeg: map<nat, int>, rank: map<nat, nat>)
    requires Counted(From(edges, left), left, indeg) && RanksReached(edges - From(edges, left), left, rank)
    ensures Counted(From(edges, left), left - {v}, indeg)
    ensures RanksReached(edges - From(edges, left), left - {v}, rank)
    ensures v in left ==> v in rank && RankAbove(rank, Preds(edges - From(edges, left), v), rank[v])
  {
  }

  lemma FirstIsLowest(edges: set<Edge>, left: set<nat>, indeg: map<nat, int>, ready: seq<nat>, rank: map<nat, nat>)
    requires Waiting(edges, left, left, indeg, ready, rank) && ready != []
    ensures ready[0] in left && Chosen(edges, left, ready[0]) && Ready(edges, left) != {}
    ensures Waiting(edges, left, left - {ready[0]}, indeg, ready[1..], rank)
    ensures ready[0] in rank && RankAbove(rank, Preds(edges - From(edges, left), ready[0]), rank[ready[0]])
  {
    hide RankAbove, Counted, RanksReached;
    Unqueued(edges, left, ready[0], indeg, rank);
    PredsFrom(edges, left);
    var v, rest := ready[0], ready[1..];
    assert ready == [v] + rest;
    assert v in Elements(ready);
    assert Elements(rest) == Elements(ready) - {v};
  }

  lemma NoneIsReady(edges: set<Edge>, left: set<nat>, v: nat, indeg: map<nat, int>, rank: map<nat, nat>)
    requires Waiting(edges, left, left, indeg, [], rank) && Lowest(left, v)
    ensures Chosen(edges, left, v) && Ready(edges, left) == {}
    ensures Waiting(edges, left, left - {v}, indeg[v := 0], [], rank)
    ensures v in rank && RankAbove(rank, Preds(edges - From(edges, left), v), rank[v])
  {
    hide RankAbove;
    PredsFrom(edges, left);
    assert Free(From(edges, left), left) == {};
    assert Free(From(edges, left), left - {v}) == {};
  }

  /** Placing the chosen node extends the order. */
  lemma OrderGrows(edges: set<Edge>, nodes: set<nat>, order: seq<nat>, left: set<nat>, v: nat)
    requires left == nodes - Elements(order) && v in left && Chosen(edges, left, v)
    requires PlacementOrder(edges, nodes, order)
    ensures PlacementOrder(edges, nodes, order + [v])
    ensures Breaks(edges, nodes, order + [v]) ==
            Breaks(edges, nodes, order) + if Ready(edges, left) == {} then 1 else 0
    ensures Elements(order + [v]) == Elements(order) + {v}
  {
    hide Chosen, Ready;
    var more := order + [v];
    assert more[..|order|] == order;
    forall i | 0 <= i < |more|
      ensures more[i] in Left(nodes, more, i) && Chosen(edges, Left(nodes, more, i), more[i])
    {
      if i < |order| {
        assert more[..i] == order[..i];
      }
    }
  }

  lemma RanksGrow(edges: set<Edge>, nodes: set<nat>, order: seq<nat>, left: set<nat>, v: nat, rank: map<nat, nat>)
    requires left == nodes - Elements(order) && forall e :: e in edges ==> e.0 in nodes
    requires RanksFollow(edges, order, rank)
    requires v in rank && RankAbove(rank, Preds(edges - From(edges, left), v), rank[v])
    ensures RanksFollow(edges, order + [v], rank)
  {
    hide RankAbove;
    var more := order + [v];
    forall i | 0 <= i < |more| ensures more[..i] == if i < |order| then order[..i] else order {
    }
    PredsFrom(edges, left);
    assert Preds(edges, v) - left == Preds(edges, v) * Elements(order) by {
      forall u | u in Preds(edges, v) ensures u in nodes {
        assert (u, v) in edges;
      }
    }
  }

  /** Ranks that change only at nodes still waiting leave the placed ones as they were. */
  lemma PlacedRanksStay(edges: set<Edge>, order: seq<nat>, left: set<nat>, rank: map<nat, nat>, after: map<nat, nat>)
    requires RanksFollow(edges, order, rank) && Elements(order) !! left
    requires after.Keys == rank.Keys && forall v :: v in after && v !in left ==> after[v] == rank[v]
    ensures RanksFollow(edges, order, after)
  {
  }

  lemma Bounded(nodes: seq<nat>, rels: seq<Link>)
    requires Ascending(nodes)
    ensures forall e :: e in EdgeSet(Present(nodes), rels) ==> e.0 in nodes && e.1 in nodes
    ensures |Present(nodes)| == |nodes| && forall v :: v in Present(nodes) <==> v in nodes
  {
    AscendingSize(nodes);
    assert Elements(nodes) == Present(nodes);
  }

  lemma SuccsOf(adj: Adjacency, edges: set<Edge>, u: nat)
    requires ListsSuccs(adj, edges)
    ensures Ascending(Neighbours(adj, u)) && Elements(Neighbours(adj, u)) == Succs(edges, u)
  {
  }

  /** Ranks every node, and counts how often no node was ready and the lowest remaining one was placed anyway.
      A node enters the queue once, so the queue never offers a node already placed. */
  method RankNodes(nodes: seq<nat>, rels: seq<Link>) returns (rank: map<nat, nat>, broken: nat, ghost order: seq<nat>)
    requires Ascending(nodes)
    ensures rank.Keys == Present(nodes)
    ensures IsRanking(EdgeSet(Present(nodes), rels), Present(nodes), order, rank)
    ensures broken == Breaks(EdgeSet(Present(nodes), rels), Present(nodes), order)
  {
    hide *;
    ghost var all, edges := Present(nodes), EdgeSet(Present(nodes), rels);
    var out, into := BuildEdges(nodes, rels);
    var indeg: map<nat, int> := map v | v in Present(nodes) :: |Neighbours(into, v)|;
    rank := map v | v in Present(nodes) :: 0;
    Bounded(nodes, rels);
    StartCounts(nodes, edges, into, indeg);
    StartOrder(nodes, edges, rank);
    var ready := Sources(nodes, indeg);
    var placed: set<nat> := {};
    ghost var left := all;
    broken, order := 0, [];
    Assembled(edges, all, indeg, ready, rank);
    while |placed| < |nodes|
      invariant placed == Elements(order) && placed <= all && left == all - placed
      invariant PlacementOrder(edges, all, order) && RanksFollow(edges, order, rank)
      invariant broken == Breaks(edges, all, order)
      invariant Waiting(edges, left, left, indeg, ready, rank)
      invariant rank.Keys == all
      decreases |nodes| - |placed|
    {
      SomeLeft(placed, all);
      var id: nat;
      if |ready| == 0 {
        var forced := LowestUnplaced(nodes, placed);
        NoneIsReady(edges, left, forced, indeg, rank);
        broken := broken + 1;
        indeg := indeg[forced := 0];
        ready := ready + [forced];
        assert ready[1..] == [];
      } else {
        FirstIsLowest(edges, left, indeg, ready, rank);
      }
      id := ready[0];
      ready := ready[1..];
      OrderGrows(edges, all, order, left, id);
      RanksGrow(edges, all, order, left, id, rank);
      order := order + [id];
      placed := placed + {id};
      SuccsOf(out, edges, id);
      ghost var rank0 := rank;
      indeg, ready, rank := Follow(edges, left, id, Neighbours(out, id), Present(nodes) - placed, indeg, ready, rank);
      left := left - {id};
      PlacedRanksStay(edges, order, left, rank0, rank);
    }
    SubsetSize(placed, all);
    Finished(edges, all, order, rank);
  }

  lemma Finished(edges: set<Edge>, all: set<nat>, order: seq<nat>, rank: map<nat, nat>)
    requires Elements(order) == all && PlacementOrder(edges, all, order) && RanksFollow(edges, order, rank)
    ensures IsRanking(edges, all, order, rank)
  {
  }

  lemma SomeLeft(placed: set<nat>, all: set<nat>)
    requires placed <= all && |placed| < |all|
    ensures all - placed != {}
  {
    assert all == placed + (all - placed);
  }

  lemma Assembled(edges: set<Edge>, all: set<nat>, indeg: map<nat, int>, ready: seq<nat>, rank: map<nat, nat>)
    requires From(edges, all) == edges && Counted(edges, all, indeg) && RanksReached({}, all, rank)
    requires Ascending(ready) && Elements(ready) == Free(edges, all)
    ensures Waiting(edges, all, all, indeg, ready, rank)
  {
  }

  // ---- What a ranking says -----------------------------------------------------------------------

  ghost predicate Within(edges: set<Edge>, nodes: set<nat>) {
    forall e :: e in edges ==> e.0 in nodes && e.1 in nodes
  }

  lemma PlacedIsChosen(edges: set<Edge>, nodes: set<nat>, order: seq<nat>, i: nat)
    requires PlacementOrder(edges, nodes, order) && i < |order|
    ensures order[i] in Left(nodes, order, i) && Chosen(edges, Left(nodes, order, i), order[i])
  {
  }

  lemma RanksAbovePlaced(edges: set<Edge>, order: seq<nat>, rank: map<nat, nat>, i: nat)
    requires RanksFollow(edges, order, rank) && i < |order|
    ensures order[i] in rank && RankAbove(rank, Preds(edges, order[i]) * Elements(order[..i]), rank[order[i]])
  {
  }

  /** A node that was not forced comes after every node with an edge to it. */
  lemma PredsComeFirst(edges: set<Edge>, nodes: set<nat>, order: seq<nat>, i: nat)
    requires PlacementOrder(edges, nodes, order) && Within(edges, nodes)
    requires i < |order| && !Forced(edges, nodes, order, i)
    ensures Preds(edges, order[i]) <= Elements(order[..i])
  {
    hide PlacementOrder;
    PlacedIsChosen(edges, nodes, order, i);
    var v, left := order[i], Left(nodes, order, i);
    assert v in Ready(edges, left);
    var preds := Preds(edges, v);
    assert preds * left == {};
    forall u | u in preds ensures u in Elements(order[..i]) {
      assert (u, v) in edges;
      assert u in left ==> u in preds * left;
    }
  }

  /** Only an edge into a forced node can point anywhere but forward. */
  lemma EdgesPointForward(edges: set<Edge>, nodes: set<nat>, order: seq<nat>, rank: map<nat, nat>, u: nat, i: nat)
    requires IsRanking(edges, nodes, order, rank) && Within(edges, nodes)
    requires i < |order| && (u, order[i]) in edges && !Forced(edges, nodes, order, i)
    ensures u in rank && order[i] in rank && rank[u] < rank[order[i]]
  {
    hide PlacementOrder, RanksFollow, Within;
    PredsComeFirst(edges, nodes, order, i);
    RanksAbovePlaced(edges, order, rank, i);
    assert u in Preds(edges, order[i]);
  }

  lemma NoneReadyIsStuck(edges: set<Edge>, left: set<nat>)
    requires Ready(edges, left) == {} && left != {}
    ensures Stuck(edges, left)
  {
    forall v | v in left ensures Preds(edges, v) * left != {} {
      assert v !in Ready(edges, left);
    }
  }

  /** Whenever a node is forced, it and every other node still waiting is downstream of a cycle of waiting nodes. */
  lemma ForcedIsDownstreamOfCycle(edges: set<Edge>, nodes: set<nat>, order: seq<nat>, i: nat, v: nat)
    returns (cycle: seq<nat>, tail: seq<nat>)
    requires PlacementOrder(edges, nodes, order) && i < |order| && Forced(edges, nodes, order, i)
    requires v in Left(nodes, order, i)
    ensures order[i] in Left(nodes, order, i)
    ensures LeadsFromCycle(edges, cycle, tail, v)
    ensures Elements(cycle) <= Left(nodes, order, i) && Elements(tail) <= Left(nodes, order, i)
  {
    NoneReadyIsStuck(edges, Left(nodes, order, i));
    cycle, tail := StuckIsDownstreamOfCycle(edges, Left(nodes, order, i), v);
  }

  /** Up to the first break, a walk to a placed node was placed from its start on, one node after the other. */
  lemma {:induction false} WalkWasPlaced(edges: set<Edge>, nodes: set<nat>, order: seq<nat>, w: seq<nat>, j: nat)
    returns (a: nat)
    requires PlacementOrder(edges, nodes, order) && Within(edges, nodes) && Walk(edges, w)
    requires j < |order| && order[j] == w[|w| - 1]
    requires forall k :: 0 <= k <= j ==> !Forced(edges, nodes, order, k)
    ensures a + |w| - 1 <= j && order[a] == w[0]
    decreases |w|
  {
    if |w| == 1 {
      a := j;
    } else {
      hide PlacementOrder, Within, Forced;
      var u := w[|w| - 2];
      assert (u, w[|w| - 1]) in edges;
      PredsComeFirst(edges, nodes, order, j);
      assert u in Preds(edges, order[j]);
      var i :| 0 <= i < j && order[i] == u;
      a := WalkWasPlaced(edges, nodes, order, w[..|w| - 1], i);
    }
  }

  lemma PlacedOnce(edges: set<Edge>, nodes: set<nat>, order: seq<nat>, i: nat, j: nat)
    requires PlacementOrder(edges, nodes, order) && i < j < |order|
    ensures order[i] != order[j]
  {
    assert order[j] in Left(nodes, order, j);
    assert order[..j][i] == order[i];
  }

  /** A node downstream of a cycle is only placed once some node has been forced. */
  lemma CycleNeedsBreak(edges: set<Edge>, nodes: set<nat>, order: seq<nat>, cycle: seq<nat>, tail: seq<nat>, v: nat, j: nat)
    returns (i: nat)
    requires PlacementOrder(edges, nodes, order) && Within(edges, nodes) && LeadsFromCycle(edges, cycle, tail, v)
    requires j < |order| && order[j] == v
    ensures i <= j && Forced(edges, nodes, order, i)
  {
    hide PlacementOrder, Within, Forced;
    if forall k :: 0 <= k <= j ==> !Forced(edges, nodes, order, k) {
      var a := WalkWasPlaced(edges, nodes, order, tail, j);
      var b := WalkWasPlaced(edges, nodes, order, cycle, a);
      PlacedOnce(edges, nodes, order, b, a);
      assert false;
    }
    i :| 0 <= i <= j && Forced(edges, nodes, order, i);
  }

  /** Where the first node is forced, the nodes still waiting are exactly those downstream of a cycle. */
  lemma FirstBreakLeaves(edges: set<Edge>, nodes: set<nat>, order: seq<nat>, i: nat, v: nat)
    requires PlacementOrder(edges, nodes, order) && Within(edges, nodes) && Elements(order) == nodes
    requires i < |order| && Forced(edges, nodes, order, i) && forall k :: 0 <= k < i ==> !Forced(edges, nodes, order, k)
    ensures v in Left(nodes, order, i) <==> DownstreamOfCycle(edges, v)
  {
    if v in Left(nodes, order, i) {
      var cycle, tail := ForcedIsDownstreamOfCycle(edges, nodes, order, i, v);
    }
    if cycle, tail :| LeadsFromCycle(edges, cycle, tail, v) {
      hide PlacementOrder, Forced, LeadsFromCycle;
      DownstreamIsNode(edges, nodes, cycle, tail, v);
      var j :| 0 <= j < |order| && order[j] == v;
      var k := CycleNeedsBreak(edges, nodes, order, cycle, tail, v, j);
      NotYetPlaced(edges, nodes, order, i, j);
    }
  }

  lemma DownstreamIsNode(edges: set<Edge>, nodes: set<nat>, cycle: seq<nat>, tail: seq<nat>, v: nat)
    requires Within(edges, nodes) && LeadsFromCycle(edges, cycle, tail, v)
    ensures v in nodes
  {
    var w := if |tail| > 1 then tail else cycle;
    assert (w[|w| - 2], w[|w| - 1]) in edges;
  }

  lemma NotYetPlaced(edges: set<Edge>, nodes: set<nat>, order: seq<nat>, i: nat, j: nat)
    requires PlacementOrder(edges, nodes, order) && i <= j < |order|
    ensures order[j] in Left(nodes, order, i)
  {
    assert order[j] in Left(nodes, order, j);
    assert Elements(order[..i]) <= Elements(order[..j]);
  }

  /** The source's comment at a break: every node still waiting is inside a cycle. */
  ghost predicate LeftIsOnCycles(edges: set<Edge>, nodes: set<nat>, order: seq<nat>, i: nat)
    requires i < |order|
  {
    forall v :: v in Left(nodes, order, i) ==> OnCycle(edges, v)
  }

  /** A cycle no node of which leads off all cycles. */
  ghost predicate CyclesAreClosed(edges: set<Edge>) {
    forall u: nat, v: nat :: OnCycle(edges, u) && (u, v) in edges ==> OnCycle(edges, v)
  }

  lemma {:induction false} WalkStaysOnCycles(edges: set<Edge>, tail: seq<nat>)
    requires CyclesAreClosed(edges) && Walk(edges, tail) && OnCycle(edges, tail[0])
    ensures OnCycle(edges, tail[|tail| - 1])
  {
    if |tail| > 1 {
      WalkStaysOnCycles(edges, tail[..|tail| - 1]);
      assert (tail[|tail| - 2], tail[|tail| - 1]) in edges;
    }
  }

  lemma {:induction false} FirstBreak(edges: set<Edge>, nodes: set<nat>, order: seq<nat>, i: nat) returns (first: nat)
    requires i < |order| && Forced(edges, nodes, order, i)
    ensures first <= i && Forced(edges, nodes, order, first)
    ensures forall k :: 0 <= k < first ==> !Forced(edges, nodes, order, k)
  {
    first := i;
    if k: nat :| k < i && Forced(edges, nodes, order, k) {
      first := FirstBreak(edges, nodes, order, k);
    }
  }

  lemma CycleIsBroken(edges: set<Edge>, nodes: set<nat>, order: seq<nat>, cycle: seq<nat>, tail: seq<nat>, v: nat)
    returns (first: nat)
    requires PlacementOrder(edges, nodes, order) && Within(edges, nodes) && Elements(order) == nodes
    requires LeadsFromCycle(edges, cycle, tail, v)
    ensures first < |order| && Forced(edges, nodes, order, first) && v in Left(nodes, order, first)
    ensures forall k :: 0 <= k < first ==> !Forced(edges, nodes, order, k)
  {
    hide PlacementOrder, Within, Forced, LeadsFromCycle, Left;
    DownstreamIsNode(edges, nodes, cycle, tail, v);
    var j :| 0 <= j < |order| && order[j] == v;
    var i := CycleNeedsBreak(edges, nodes, order, cycle, tail, v, j);
    first := FirstBreak(edges, nodes, order, i);
    assert DownstreamOfCycle(edges, v);
    FirstBreakLeaves(edges, nodes, order, first, v);
  }

  lemma OneStepDown(edges: set<Edge>, u: nat, v: nat) returns (cycle: seq<nat>, tail: seq<nat>)
    requires OnCycle(edges, u) && (u, v) in edges
    ensures LeadsFromCycle(edges, cycle, tail, v)
  {
    cycle :| Cycle(edges, cycle) && u in cycle;
    var k :| 0 <= k < |cycle| && cycle[k] == u;
    tail := cycle[..k + 1] + [v];
  }

  /** The comment is true of every break of a layout exactly when no edge leads from a cycle to a node on none. */
  lemma LeftIsOnCyclesIff(edges: set<Edge>, nodes: set<nat>, order: seq<nat>)
    requires PlacementOrder(edges, nodes, order) && Within(edges, nodes) && Elements(order) == nodes
    ensures (forall i :: 0 <= i < |order| && Forced(edges, nodes, order, i) ==> LeftIsOnCycles(edges, nodes, order, i)) <==>
            CyclesAreClosed(edges)
  {
    hide PlacementOrder, Within, Forced, Left, Walk;
    if forall i :: 0 <= i < |order| && Forced(edges, nodes, order, i) ==> LeftIsOnCycles(edges, nodes, order, i) {
      forall u: nat, v: nat | OnCycle(edges, u) && (u, v) in edges ensures OnCycle(edges, v) {
        var cycle, tail := OneStepDown(edges, u, v);
        var first := CycleIsBroken(edges, nodes, order, cycle, tail, v);
        assert LeftIsOnCycles(edges, nodes, order, first);
      }
    }
    if CyclesAreClosed(edges) {
      forall i, v | 0 <= i < |order| && Forced(edges, nodes, order, i) && v in Left(nodes, order, i) ensures OnCycle(edges, v) {
        var cycle, tail := ForcedIsDownstreamOfCycle(edges, nodes, order, i, v);
        assert cycle[0] in cycle;
        WalkStaysOnCycles(edges, tail);
      }
    }
  }

  lemma {:induction false} BreaksCount(edges: set<Edge>, nodes: set<nat>, order: seq<nat>)
    ensures Breaks(edges, nodes, order) > 0 <==> exists i :: 0 <= i < |order| && Forced(edges, nodes, order, i)
  {
    hide Ready;
    if order != [] {
      var n := |order| - 1;
      var less := order[..n];
      BreaksCount(edges, nodes, less);
      forall i | 0 <= i < n ensures Forced(edges, nodes, less, i) == Forced(edges, nodes, order, i) {
        assert less[..i] == order[..i];
      }
      assert Forced(edges, nodes, order, n) <==> Ready(edges, Left(nodes, order, n)) == {};
    }
  }

  lemma {:induction false} RanksClimb(edges: set<Edge>, nodes: set<nat>, order: seq<nat>, rank: map<nat, nat>, w: seq<nat>)
    requires IsRanking(edges, nodes, order, rank) && Within(edges, nodes)
    requires Breaks(edges, nodes, order) == 0 && Walk(edges, w) && w[|w| - 1] in nodes
    ensures w[0] in rank && w[|w| - 1] in rank && rank[w[0]] + |w| - 1 <= rank[w[|w| - 1]]
  {
    hide PlacementOrder, RanksFollow, Forced, Left, Breaks;
    BreaksCount(edges, nodes, order);
    var v := w[|w| - 1];
    assert v in Elements(order);
    var i :| 0 <= i < |order| && order[i] == v;
    RanksAbovePlaced(edges, order, rank, i);
    if |w| > 1 {
      var u := w[|w| - 2];
      assert (u, v) in edges;
      EdgesPointForward(edges, nodes, order, rank, u, i);
      RanksClimb(edges, nodes, order, rank, w[..|w| - 1]);
    }
  }

  /** Something is broken exactly when the graph has a cycle. */
  lemma BreaksIffCyclic(edges: set<Edge>, nodes: set<nat>, order: seq<nat>, rank: map<nat, nat>)
    requires IsRanking(edges, nodes, order, rank) && Within(edges, nodes)
    ensures Breaks(edges, nodes, order) == 0 <==> Acyclic(edges)
  {
    BreaksCount(edges, nodes, order);
    if Breaks(edges, nodes, order) > 0 {
      var i :| 0 <= i < |order| && Forced(edges, nodes, order, i);
      assert order[i] in Left(nodes, order, i);
      var cycle, tail := ForcedIsDownstreamOfCycle(edges, nodes, order, i, order[i]);
    } else if w :| Cycle(edges, w) {
      assert (w[|w| - 2], w[|w| - 1]) in edges;
      RanksClimb(edges, nodes, order, rank, w);
      assert false;
    }
  }

  lemma AllRanked(edges: set<Edge>, nodes: set<nat>, order: seq<nat>, rank: map<nat, nat>, w: seq<nat>)
    requires IsRanking(edges, nodes, order, rank) && Within(edges, nodes) && Cycle(edges, w)
    ensures forall k :: 0 <= k < |w| ==> w[k] in rank
  {
    AllPlaced(edges, nodes, order, w);
  }

  /** An edge that leads to a smaller rank, so to a column further left. */
  ghost predicate Leftward(edges: set<Edge>, rank: map<nat, nat>, u: nat, v: nat) {
    (u, v) in edges && u in rank && v in rank && rank[u] > rank[v]
  }

  /** The one of these that is placed last. */
  lemma {:induction false} LastPlaced(order: seq<nat>, w: seq<nat>) returns (i: nat)
    requires w != [] && w[0] in order
    ensures i < |order| && order[i] in w && forall j :: i < j < |order| ==> order[j] !in w
  {
    var n := |order| - 1;
    if order[n] in w {
      i := n;
    } else {
      assert order == order[..n] + [order[n]];
      i := LastPlaced(order[..n], w);
    }
  }

  /** On every cycle an edge leads to a larger rank: the one into the node placed last. */
  lemma CycleRises(edges: set<Edge>, nodes: set<nat>, order: seq<nat>, rank: map<nat, nat>, w: seq<nat>) returns (k: nat)
    requires IsRanking(edges, nodes, order, rank) && Within(edges, nodes) && Cycle(edges, w)
    requires forall e :: e in edges ==> e.0 != e.1
    ensures k < |w| - 1 && w[k] in rank && w[k + 1] in rank && rank[w[k]] < rank[w[k + 1]]
  {
    AllPlaced(edges, nodes, order, w);
    var i := LastPlaced(order, w);
    k := StepInto(edges, w, order[i]);
    hide PlacementOrder, Within, Cycle, Preds;
    PlacedEarlier(order, w, i, w[k]);
    RanksAbovePlaced(edges, order, rank, i);
    PredOf(edges, w[k], order[i]);
  }

  lemma AllPlaced(edges: set<Edge>, nodes: set<nat>, order: seq<nat>, w: seq<nat>)
    requires Elements(order) == nodes && Within(edges, nodes) && Cycle(edges, w)
    ensures forall k :: 0 <= k < |w| ==> w[k] in order
  {
    forall k | 0 <= k < |w| ensures w[k] in order {
      var e := if k > 0 then (w[k - 1], w[k]) else (w[0], w[1]);
      assert e in edges && w[k] in Elements(order);
    }
  }

  /** The step of a cycle that leads to one of its nodes. */
  lemma StepInto(edges: set<Edge>, w: seq<nat>, v: nat) returns (k: nat)
    requires Cycle(edges, w) && v in w
    ensures k < |w| - 1 && w[k + 1] == v && (w[k], v) in edges
  {
    var j :| 0 <= j < |w| && w[j] == v;
    k := if j > 0 then j - 1 else |w| - 2;
    assert (w[k], w[k + 1]) in edges;
  }

  lemma PlacedEarlier(order: seq<nat>, w: seq<nat>, i: nat, u: nat)
    requires i < |order| && (forall j :: i < j < |order| ==> order[j] !in w) && u in w && u in order && u != order[i]
    ensures u in Elements(order[..i])
  {
    var m :| 0 <= m < |order| && order[m] == u;
    assert order[..i][m] == u;
  }

  lemma PredOf(edges: set<Edge>, u: nat, v: nat)
    requires (u, v) in edges
    ensures u in Preds(edges, v)
  {
  }

  lemma {:induction false} NeverFalls(rank: map<nat, nat>, w: seq<nat>, j: nat, n: nat)
    requires j <= n < |w| && forall k :: 0 <= k < |w| ==> w[k] in rank
    requires forall k :: 0 <= k < |w| - 1 ==> rank[w[k]] <= rank[w[k + 1]]
    ensures rank[w[j]] <= rank[w[n]]
  {
    if j < n {
      NeverFalls(rank, w, j, n - 1);
    }
  }

  /** So one leads to a smaller rank. */
  lemma CycleFalls(edges: set<Edge>, rank: map<nat, nat>, w: seq<nat>, k: nat) returns (i: nat)
    requires Cycle(edges, w) && (forall j :: 0 <= j < |w| ==> w[j] in rank)
    requires k < |w| - 1 && rank[w[k]] < rank[w[k + 1]]
    ensures i < |w| - 1 && Leftward(edges, rank, w[i], w[i + 1])
  {
    if forall j :: 0 <= j < |w| - 1 ==> rank[w[j]] <= rank[w[j + 1]] {
      NeverFalls(rank, w, 0, k);
      NeverFalls(rank, w, k + 1, |w| - 1);
      assert false;
    }
    i :| 0 <= i < |w| - 1 && rank[w[i]] > rank[w[i + 1]];
    assert (w[i], w[i + 1]) in edges;
  }

  /** The note says some edges point leftward. With no edge from a node to itself, some edge leads to a smaller rank
      exactly when something was broken. */
  lemma LeftwardIffBroken(edges: set<Edge>, nodes: set<nat>, order: seq<nat>, rank: map<nat, nat>)
    requires IsRanking(edges, nodes, order, rank) && Within(edges, nodes)
    requires forall e :: e in edges ==> e.0 != e.1
    ensures Breaks(edges, nodes, order) > 0 <==> exists u, v :: Leftward(edges, rank, u, v)
  {
    hide PlacementOrder, RanksFollow, Breaks, Within, Cycle;
    BreaksIffCyclic(edges, nodes, order, rank);
    if Breaks(edges, nodes, order) > 0 {
      var w := SomeCycle(edges);
      AllRanked(edges, nodes, order, rank, w);
      var k := CycleRises(edges, nodes, order, rank, w);
      var i := CycleFalls(edges, rank, w, k);
    } else {
      forall u, v ensures !Leftward(edges, rank, u, v) {
        ForwardUnlessBroken(edges, nodes, order, rank, u, v);
      }
    }
  }

  lemma SomeCycle(edges: set<Edge>) returns (w: seq<nat>)
    requires !Acyclic(edges)
    ensures Cycle(edges, w)
  {
    w :| Cycle(edges, w);
  }

  lemma ForwardUnlessBroken(edges: set<Edge>, nodes: set<nat>, order: seq<nat>, rank: map<nat, nat>, u: nat, v: nat)
    requires IsRanking(edges, nodes, order, rank) && Within(edges, nodes) && Breaks(edges, nodes, order) == 0
    ensures !Leftward(edges, rank, u, v)
  {
    hide PlacementOrder, RanksFollow, Breaks;
    if (u, v) in edges {
      assert Walk(edges, [u, v]);
      RanksClimb(edges, nodes, order, rank, [u, v]);
    }
  }

  lemma {:induction false} WalkOfRank(edges: set<Edge>, nodes: set<nat>, order: seq<nat>, rank: map<nat, nat>, i: nat)
    returns (w: seq<nat>)
    requires IsRanking(edges, nodes, order, rank) && Within(edges, nodes)
    requires Breaks(edges, nodes, order) == 0 && i < |order|
    ensures Walk(edges, w) && w[|w| - 1] == order[i] && Preds(edges, w[0]) == {} && |w| - 1 == rank[order[i]]
    decreases i
  {
    hide PlacementOrder, RanksFollow, Within, Left, Ready;
    var v := order[i];
    BreaksCount(edges, nodes, order);
    var before := Preds(edges, v) * Elements(order[..i]);
    RanksAbovePlaced(edges, order, rank, i);
    PredsComeFirst(edges, nodes, order, i);
    if rank[v] == 0 {
      w := [v];
      assert before == Preds(edges, v);
    } else {
      var u :| u in before && rank[u] + 1 == rank[v];
      assert (u, v) in edges;
      var j :| 0 <= j < i && order[j] == u;
      w := WalkOfRank(edges, nodes, order, rank, j);
      w := w + [v];
    }
  }

  /** Without cycles, a node's rank is the length of the longest walk that ends at it; such a walk starts at a
      node nothing leads to. */
  lemma RankIsLongestWalk(edges: set<Edge>, nodes: set<nat>, order: seq<nat>, rank: map<nat, nat>, v: nat)
    requires IsRanking(edges, nodes, order, rank) && Within(edges, nodes)
    requires Acyclic(edges) && v in nodes
    ensures v in rank
    ensures forall w :: Walk(edges, w) && w[|w| - 1] == v ==> |w| - 1 <= rank[v]
    ensures exists w :: Walk(edges, w) && w[|w| - 1] == v && |w| - 1 == rank[v] && Preds(edges, w[0]) == {}
  {
    BreaksIffCyclic(edges, nodes, order, rank);
    assert v in Elements(order);
    var i :| 0 <= i < |order| && order[i] == v;
    var longest := WalkOfRank(edges, nodes, order, rank, i);
    forall w | Walk(edges, w) && w[|w| - 1] == v ensures |w| - 1 <= rank[v] {
      RanksClimb(edges, nodes, order, rank, w);
    }
  }

  /** When no node is ready the source's comment says every remaining node is inside a cycle. Here the remaining
      nodes are 1, 2 and 3, none is ready, 1 is the one forced, and 1 leads nowhere. */
  lemma ForcedOffCycle(edges: set<Edge>, nodes: set<nat>, order: seq<nat>)
    requires edges == {(2, 3), (3, 2), (3, 1)} && nodes == {1, 2, 3}
    requires PlacementOrder(edges, nodes, order) && Elements(order) == nodes
    ensures order != [] && order[0] == 1 && Forced(edges, nodes, order, 0) && Succs(edges, 1) == {}
  {
    hide PlacementOrder, Ready;
    NothingReady(edges, nodes);
    assert 1 in Elements(order);
    PlacedIsChosen(edges, nodes, order, 0);
    FirstLeft(nodes, order);
    hide Left;
    assert Lowest(nodes, order[0]);
  }

  lemma FirstLeft(nodes: set<nat>, order: seq<nat>)
    ensures Left(nodes, order, 0) == nodes
  {
  }

  lemma NothingReady(edges: set<Edge>, nodes: set<nat>)
    requires edges == {(2, 3), (3, 2), (3, 1)} && nodes == {1, 2, 3}
    ensures Ready(edges, nodes) == {}
  {
    forall v | v in nodes ensures Preds(edges, v) * nodes != {} {
      var u := if v == 3 then 2 else 3;
      assert (u, v) in edges;
      assert u in Preds(edges, v) * nodes;
    }
  }

  /** The source reports the number of breaks as the number of cycles broken. The same graph has one cycle and two
      breaks: first 1 is forced, which breaks nothing, then 2. */
  lemma TwoBreaksOneCycle(edges: set<Edge>, nodes: set<nat>, order: seq<nat>)
    requires edges == {(2, 3), (3, 2), (3, 1)} && nodes == {1, 2, 3} && order == [1, 2, 3]
    ensures PlacementOrder(edges, nodes, order) && Breaks(edges, nodes, order) == 2
  {
    hide *;
    InTurn(edges);
    LeftOf123(nodes, order);
    TwoForced(edges, nodes, order);
    PlacedInTurn(edges, nodes, order);
  }

  lemma PlacedInTurn(edges: set<Edge>, nodes: set<nat>, order: seq<nat>)
    requires order == [1, 2, 3] && Left(nodes, order, 0) == {1, 2, 3} && Left(nodes, order, 1) == {2, 3}
    requires Left(nodes, order, 2) == {3}
    requires Chosen(edges, {1, 2, 3}, 1) && Chosen(edges, {2, 3}, 2) && Chosen(edges, {3}, 3)
    ensures PlacementOrder(edges, nodes, order)
  {
    hide Chosen, Left;
  }

  lemma TwoForced(edges: set<Edge>, nodes: set<nat>, order: seq<nat>)
    requires order == [1, 2, 3] && Left(nodes, [1], 0) == {1, 2, 3} && Left(nodes, [1, 2], 1) == {2, 3}
    requires Left(nodes, order, 2) == {3}
    requires Ready(edges, {1, 2, 3}) == {} == Ready(edges, {2, 3}) && Ready(edges, {3}) == {3}
    ensures Breaks(edges, nodes, order) == 2
  {
    hide Ready, Left;
    assert order[..2] == [1, 2] && [1, 2][..1] == [1] && [1][..0] == [];
    assert Breaks(edges, nodes, []) == 0;
    assert Breaks(edges, nodes, [1]) == 1;
    assert Breaks(edges, nodes, [1, 2]) == 2;
  }

  lemma InTurn(edges: set<Edge>)
    requires edges == {(2, 3), (3, 2), (3, 1)}
    ensures Ready(edges, {1, 2, 3}) == {} == Ready(edges, {2, 3}) && Ready(edges, {3}) == {3}
    ensures Chosen(edges, {1, 2, 3}, 1) && Chosen(edges, {2, 3}, 2) && Chosen(edges, {3}, 3)
  {
    hide Ready, Lowest;
    NothingReady(edges, {1, 2, 3});
    OnlyTheCycle(edges);
    LowestOf123();
  }

  lemma LowestOf123()
    ensures Lowest({1, 2, 3}, 1) && Lowest({2, 3}, 2) && Lowest({3}, 3)
  {
  }

  lemma LeftOf123(nodes: set<nat>, order: seq<nat>)
    requires nodes == {1, 2, 3} && order == [1, 2, 3]
    ensures Left(nodes, order, 0) == nodes == Left(nodes, [1], 0)
    ensures Left(nodes, order, 1) == {2, 3} == Left(nodes, [1, 2], 1) && Left(nodes, order, 2) == {3}
  {
    assert order[..0] == [] && order[..1] == [1] && order[..2] == [1, 2] && [1, 2][..1] == [1];
    assert Elements([]) == {} && Elements([1]) == {1} && Elements([1, 2]) == {1, 2};
  }

  lemma OnlyTheCycle(edges: set<Edge>)
    requires edges == {(2, 3), (3, 2), (3, 1)}
    ensures Ready(edges, {2, 3}) == {} && Ready(edges, {3}) == {3}
  {
    assert (2, 3) in edges && (3, 2) in edges;
    assert 2 in Preds(edges, 3) * {2, 3} && 3 in Preds(edges, 2) * {2, 3};
    assert Preds(edges, 3) == {2};
  }
}
