/** The edges a layout sees: relations between two nodes that are both on the canvas, without repeats and without
    self-loops, listed from either end in ascending order. */
module GraphEdges {

  /** A stored relation, or a hole in the list. */
  datatype Link = Missing | Link(source: nat, target: nat)

  type Edge = (nat, nat)
  type Adjacency = map<nat, seq<nat>>

  function Present(nodes: seq<nat>): set<nat> {
    set n | n in nodes
  }

  predicate Drawn(present: set<nat>, r: Link) {
    r.Link? && r.source != r.target && r.source in present && r.target in present
  }

  function EdgeSet(present: set<nat>, rels: seq<Link>): set<Edge> {
    set i | 0 <= i < |rels| && Drawn(present, rels[i]) :: (rels[i].source, rels[i].target)
  }

  function Preds(edges: set<Edge>, v: nat): set<nat> {
    set e | e in edges && e.1 == v :: e.0
  }

  function Succs(edges: set<Edge>, u: nat): set<nat> {
    set e | e in edges && e.0 == u :: e.1
  }

  function Neighbours(adj: Adjacency, v: nat): seq<nat> {
    if v in adj then adj[v] else []
  }

  ghost predicate Ascending(s: seq<nat>) {
    forall i, j :: 0 <= i < j < |s| ==> s[i] < s[j]
  }

  function Elements(s: seq<nat>): set<nat> {
    set x | x in s
  }

  lemma {:induction false} AscendingSize(s: seq<nat>)
    requires Ascending(s)
    ensures |Elements(s)| == |s|
  {
    if s != [] {
      AscendingSize(s[1..]);
      assert s == [s[0]] + s[1..];
      assert Elements(s) == {s[0]} + Elements(s[1..]);
    }
  }

  lemma {:induction false} SubsetSize(s: set<nat>, t: set<nat>)
    requires s <= t
    ensures |s| <= |t| && (|s| == |t| ==> s == t)
  {
    if s != {} {
      var x :| x in s;
      SubsetSize(s - {x}, t - {x});
    }
  }

  ghost predicate Sorted(s: seq<nat>) {
    forall i, j :: 0 <= i < j < |s| ==> s[i] <= s[j]
  }

  ghost predicate Inserted(s: seq<nat>, v: nat, r: seq<nat>) {
    Sorted(r) && multiset(r) == multiset(s) + multiset{v}
  }

  /** Puts v in front of everything not below it. A list without repeats that does not hold v gets none. */
  method InsertSorted(s: seq<nat>, v: nat) returns (r: seq<nat>)
    requires Sorted(s)
    ensures Inserted(s, v, r)
    ensures Ascending(s) && v !in s ==> Ascending(r)
    ensures Elements(r) == Elements(s) + {v} && |r| == |s| + 1
  {
    var lo, hi := 0, |s|;
    while lo < hi
      invariant 0 <= lo <= hi <= |s|
      invariant forall k :: 0 <= k < lo ==> s[k] < v
      invariant forall k :: hi <= k < |s| ==> v <= s[k]
    {
      var mid := (lo + hi) / 2;
      if s[mid] >= v {
        hi := mid;
      } else {
        lo := mid + 1;
      }
    }
    r := s[..lo] + [v] + s[lo..];
    SplicedAt(s, lo, v);
  }

  lemma SplicedAt(s: seq<nat>, at: nat, v: nat)
    requires Sorted(s) && at <= |s|
    requires (forall k :: 0 <= k < at ==> s[k] < v) && forall k :: at <= k < |s| ==> v <= s[k]
    ensures var r := s[..at] + [v] + s[at..];
            && Inserted(s, v, r) && Elements(r) == Elements(s) + {v}
            && (Ascending(s) && v !in s ==> Ascending(r))
  {
    var low, high := s[..at], s[at..];
    assert s == low + high;
    assert (forall x :: x in low ==> x < v) && forall x :: x in high ==> v <= x;
    assert v in high ==> v in s;
    SlicesSorted(s, at);
    hide Sorted, Ascending, Inserted, Elements;
    Spliced(low, v, high);
  }

  lemma SlicesSorted(s: seq<nat>, at: nat)
    requires at <= |s|
    ensures Sorted(s) ==> Sorted(s[..at]) && Sorted(s[at..])
    ensures Ascending(s) ==> Ascending(s[..at]) && Ascending(s[at..])
  {
  }

  lemma AscendingIsSorted(s: seq<nat>)
    requires Ascending(s)
    ensures Sorted(s)
  {
  }

  lemma Spliced(low: seq<nat>, v: nat, high: seq<nat>)
    requires Sorted(low) && Sorted(high) && (forall x :: x in low ==> x < v) && forall x :: x in high ==> v <= x
    ensures Inserted(low + high, v, low + [v] + high)
    ensures Elements(low + [v] + high) == Elements(low + high) + {v}
    ensures Ascending(high) && Ascending(low) && v !in high ==> Ascending(low + [v] + high)
  {
    var r, n := low + [v] + high, |low|;
    forall i, j | 0 <= i < j < |r|
      ensures r[i] <= r[j]
      ensures Ascending(high) && Ascending(low) && v !in high ==> r[i] < r[j]
    {
      if j < n {
        assert r[i] == low[i] && r[j] == low[j];
      } else if i > n {
        assert r[i] == high[i - n - 1] && r[j] == high[j - n - 1];
      } else {
        assert i < n ==> r[i] == low[i] && low[i] in low;
        assert j > n ==> r[j] == high[j - n - 1] && high[j - n - 1] in high;
      }
    }
  }

  /** Ascending neighbour lists, holding exactly the successors (or predecessors) in an edge set. */
  ghost predicate ListsSuccs(adj: Adjacency, edges: set<Edge>) {
    forall u :: Ascending(Neighbours(adj, u)) && Elements(Neighbours(adj, u)) == Succs(edges, u)
  }

  ghost predicate ListsPreds(adj: Adjacency, edges: set<Edge>) {
    forall v :: Ascending(Neighbours(adj, v)) && Elements(Neighbours(adj, v)) == Preds(edges, v)
  }

  lemma EdgeSetNext(present: set<nat>, rels: seq<Link>, r: Link)
    ensures EdgeSet(present, rels + [r]) ==
            if Drawn(present, r) then EdgeSet(present, rels) + {(r.source, r.target)} else EdgeSet(present, rels)
  {
    var more := rels + [r];
    forall e | e in EdgeSet(present, rels) ensures e in EdgeSet(present, more) {
      var i :| 0 <= i < |rels| && Drawn(present, rels[i]) && e == (rels[i].source, rels[i].target);
      assert more[i] == rels[i];
    }
    if Drawn(present, r) {
      assert more[|rels|] == r;
    }
  }

  /** Reduces relations to adjacency, keeping each pair once. Each list is kept in ascending order as it grows,
      the order that sorting it once at the end leaves it in. */
  method BuildEdges(nodes: seq<nat>, rels: seq<Link>) returns (out: Adjacency, into: Adjacency)
    ensures ListsSuccs(out, EdgeSet(Present(nodes), rels)) && ListsPreds(into, EdgeSet(Present(nodes), rels))
  {
    var present := Present(nodes);
    var seen: set<Edge> := {};
    out, into := map[], map[];
    for i := 0 to |rels|
      invariant seen == EdgeSet(present, rels[..i])
      invariant ListsSuccs(out, seen) && ListsPreds(into, seen)
    {
      hide ListsSuccs, ListsPreds;
      var r := rels[i];
      EdgeSetNext(present, rels[..i], r);
      assert rels[..i + 1] == rels[..i] + [r];
      if !Drawn(present, r) {
        continue;
      }
      var key := (r.source, r.target);
      if key in seen {
        assert seen + {key} == seen;
        continue;
      }
      NewSucc(out, seen, key);
      NewPred(into, seen, key);
      AscendingIsSorted(Neighbours(out, r.source));
      AscendingIsSorted(Neighbours(into, r.target));
      var outs := InsertSorted(Neighbours(out, r.source), r.target);
      var ins := InsertSorted(Neighbours(into, r.target), r.source);
      AddSucc(out, seen, key, outs);
      AddPred(into, seen, key, ins);
      seen := seen + {key};
      out := out[r.source := outs];
      into := into[r.target := ins];
    }
    assert rels[..|rels|] == rels;
  }

  lemma NewSucc(adj: Adjacency, edges: set<Edge>, e: Edge)
    requires ListsSuccs(adj, edges) && e !in edges
    ensures Ascending(Neighbours(adj, e.0)) && e.1 !in Neighbours(adj, e.0)
  {
    assert e.1 in Neighbours(adj, e.0) ==> e.1 in Succs(edges, e.0);
  }

  lemma NewPred(adj: Adjacency, edges: set<Edge>, e: Edge)
    requires ListsPreds(adj, edges) && e !in edges
    ensures Ascending(Neighbours(adj, e.1)) && e.0 !in Neighbours(adj, e.1)
  {
    assert e.0 in Neighbours(adj, e.1) ==> e.0 in Preds(edges, e.1);
  }

  lemma AddSucc(adj: Adjacency, edges: set<Edge>, e: Edge, list: seq<nat>)
    requires ListsSuccs(adj, edges) && Ascending(list) && Elements(list) == Elements(Neighbours(adj, e.0)) + {e.1}
    ensures ListsSuccs(adj[e.0 := list], edges + {e})
  {
    forall u ensures Succs(edges + {e}, u) == Succs(edges, u) + if u == e.0 then {e.1} else {} {
    }
  }

  lemma AddPred(adj: Adjacency, edges: set<Edge>, e: Edge, list: seq<nat>)
    requires ListsPreds(adj, edges) && Ascending(list) && Elements(list) == Elements(Neighbours(adj, e.1)) + {e.0}
    ensures ListsPreds(adj[e.1 := list], edges + {e})
  {
    forall v ensures Preds(edges + {e}, v) == Preds(edges, v) + if v == e.1 then {e.0} else {} {
    }
  }
}
