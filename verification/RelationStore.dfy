/** Relations as edges, and the index that finds a graph's edges. */
module RelationStore {

  /** What a matcher found, before the build says which rule and graph it belongs to. */
  datatype Finding = Finding(source: nat, target: nat, kind: string, matchId: string, step: nat, basis: seq<string>)

  datatype Relation = Relation(finding: Finding, graphId: nat, ruleId: string, algorithm: string, createdAt: int)

  /** A committed edge. `indexed` says whether its index entries were registered. */
  datatype Edge = Edge(id: nat, relation: Relation, indexed: bool)

  /** A graph's relations, in the order their edges were added: the truth, whatever the index says. */
  function InGraph(edges: seq<Edge>, g: nat): seq<Relation> {
    if edges == [] then []
    else
      var last := edges[|edges| - 1];
      InGraph(edges[..|edges| - 1], g) + if last.relation.graphId == g then [last.relation] else []
  }

  /** The part of them that a query by graph does not see. */
  function Hidden(edges: seq<Edge>, g: nat): seq<Relation> {
    if edges == [] then []
    else
      var last := edges[|edges| - 1];
      Hidden(edges[..|edges| - 1], g) + if last.relation.graphId == g && !last.indexed then [last.relation] else []
  }

  lemma {:induction false} InGraphJoin(a: seq<Edge>, b: seq<Edge>, g: nat)
    ensures InGraph(a + b, g) == InGraph(a, g) + InGraph(b, g)
    ensures Hidden(a + b, g) == Hidden(a, g) + Hidden(b, g)
  {
    if b == [] {
      assert a + b == a;
    } else {
      hide InGraph, Hidden;
      var front, e := b[..|b| - 1], b[|b| - 1];
      assert b == front + [e] && a + b == a + front + [e];
      InGraphJoin(a, front, g);
      OneMore(a + front, e, g);
      OneMore(front, e, g);
    }
  }

  lemma OneMore(edges: seq<Edge>, e: Edge, g: nat)
    ensures InGraph(edges + [e], g) == InGraph(edges, g) + if e.relation.graphId == g then [e.relation] else []
    ensures Hidden(edges + [e], g) ==
            Hidden(edges, g) + if e.relation.graphId == g && !e.indexed then [e.relation] else []
  {
  }

  ghost predicate DistinctIds(edges: seq<Edge>, nextId: nat) {
    && (forall i :: 0 <= i < |edges| ==> edges[i].id < nextId)
    && (forall i, j :: 0 <= i < j < |edges| ==> edges[i].id != edges[j].id)
  }

  ghost predicate AllIndexed(edges: seq<Edge>) {
    forall i :: 0 <= i < |edges| ==> edges[i].indexed
  }

  /** The same edges, of which some more may be indexed. */
  ghost predicate MoreIndexed(was: seq<Edge>, now: seq<Edge>) {
    |now| == |was| && forall i :: 0 <= i < |was| ==> now[i] == was[i] || now[i] == was[i].(indexed := true)
  }

  lemma {:induction false} IndexingKeepsContent(was: seq<Edge>, now: seq<Edge>, g: nat)
    requires MoreIndexed(was, now)
    ensures InGraph(now, g) == InGraph(was, g)
    ensures AllIndexed(now) ==> Hidden(now, g) == []
  {
    if was != [] {
      var n := |was| - 1;
      IndexingKeepsContent(was[..n], now[..n], g);
    }
  }

  /** Edges a query by graph does not find, or of other graphs. */
  function Without(edges: seq<Edge>, g: nat): seq<Edge> {
    if edges == [] then []
    else
      var last := edges[|edges| - 1];
      Without(edges[..|edges| - 1], g) + if last.relation.graphId == g && last.indexed then [] else [last]
  }

  lemma {:induction false} ClearingKeepsOthers(edges: seq<Edge>, g: nat, other: nat)
    ensures InGraph(Without(edges, g), g) == Hidden(edges, g) == Hidden(Without(edges, g), g)
    ensures other != g ==>
              InGraph(Without(edges, g), other) == InGraph(edges, other) &&
              Hidden(Without(edges, g), other) == Hidden(edges, other)
  {
    if edges != [] {
      var n := |edges| - 1;
      var last := edges[n];
      ClearingKeepsOthers(edges[..n], g, other);
      assert edges == edges[..n] + [last];
      OneMore(edges[..n], last, g);
      OneMore(edges[..n], last, other);
      if !(last.relation.graphId == g && last.indexed) {
        OneMore(Without(edges[..n], g), last, g);
        OneMore(Without(edges[..n], g), last, other);
      } else {
        assert Without(edges, g) == Without(edges[..n], g);
      }
    }
  }

  lemma {:induction false} WithoutIsPart(edges: seq<Edge>, g: nat, nextId: nat)
    requires DistinctIds(edges, nextId)
    ensures DistinctIds(Without(edges, g), nextId)
    ensures forall e :: e in Without(edges, g) ==> e in edges
  {
    if edges != [] {
      var n := |edges| - 1;
      WithoutIsPart(edges[..n], g, nextId);
      assert edges == edges[..n] + [edges[n]];
      forall e | e in Without(edges[..n], g) ensures e.id != edges[n].id {
        assert e in edges[..n];
      }
    }
  }

  /** New edges for relations, numbered from `first`; the first `indexed` of them are registered. */
  function Edges(rels: seq<Relation>, first: nat, indexed: nat): (r: seq<Edge>)
    ensures |r| == |rels|
    ensures forall i :: 0 <= i < |r| ==> r[i] == Edge(first + i, rels[i], i < indexed)
  {
    seq(|rels|, i requires 0 <= i < |rels| => Edge(first + i, rels[i], i < indexed))
  }

  function OfGraph(rels: seq<Relation>, g: nat): seq<Relation> {
    if rels == [] then []
    else OfGraph(rels[..|rels| - 1], g) + if rels[|rels| - 1].graphId == g then [rels[|rels| - 1]] else []
  }

  lemma {:induction false} NewEdgesContent(rels: seq<Relation>, first: nat, indexed: nat, g: nat)
    ensures InGraph(Edges(rels, first, indexed), g) == OfGraph(rels, g)
    ensures indexed >= |rels| ==> Hidden(Edges(rels, first, indexed), g) == []
  {
    if rels != [] {
      var n := |rels| - 1;
      NewEdgesContent(rels[..n], first, indexed, g);
      assert Edges(rels, first, indexed)[..n] == Edges(rels[..n], first, indexed);
    }
  }

  /** One more of the new edges is registered. */
  lemma NextIndexed(before: seq<Edge>, rels: seq<Relation>, first: nat, i: nat, nextId: nat)
    requires i < |rels|
    ensures var edges := before + Edges(rels, first, i); var k := |before| + i;
            edges[k := edges[k].(indexed := true)] == before + Edges(rels, first, i + 1)
    ensures DistinctIds(before + Edges(rels, first, i), nextId) ==> DistinctIds(before + Edges(rels, first, i + 1), nextId)
  {
    var less, more := before + Edges(rels, first, i), before + Edges(rels, first, i + 1);
    assert forall j :: 0 <= j < |more| ==> more[j].id == less[j].id;
  }

  class Store {
    var edges: seq<Edge>
    var nextId: nat
    /** No access fails. */
    const reliable: bool

    ghost predicate Valid()
      reads this
    {
      DistinctIds(edges, nextId)
    }

    /** What a previous run left, wherever it stopped: any edges, any of them not indexed. */
    constructor (edges: seq<Edge>, nextId: nat, reliable: bool)
      requires DistinctIds(edges, nextId)
      ensures Valid() && this.edges == edges && this.reliable == reliable
    {
      this.edges, this.nextId, this.reliable := edges, nextId, reliable;
    }

    /** Commits the relations together, then registers them one by one. */
    method InsertRelations(rels: seq<Relation>) returns (ok: bool)
      requires Valid()
      modifies this
      ensures Valid()
      ensures edges == old(edges) ||
              exists k :: 0 <= k <= |rels| && edges == old(edges) + Edges(rels, old(nextId), k)
      ensures ok ==> edges == old(edges) + Edges(rels, old(nextId), |rels|)
      ensures reliable ==> ok
    {
      if |rels| == 0 {
        assert Edges(rels, nextId, 0) == [];
        return true;
      }
      var fails: bool := *;
      if fails && !reliable {
        return false;
      }
      var first := nextId;
      var before := edges;
      edges := edges + Edges(rels, first, 0);
      nextId := nextId + |rels|;
      assert Valid();
      hide Edges, DistinctIds;
      for i := 0 to |rels|
        invariant edges == before + Edges(rels, first, i) && nextId == first + |rels|
        invariant Valid()
      {
        var fails: bool := *;
        if fails && !reliable {
          return false;
        }
        NextIndexed(before, rels, first, i, nextId);
        edges := edges[|before| + i := edges[|before| + i].(indexed := true)];
      }
      ok := true;
    }

    /** Removes, in one commit, every edge the index reports for the graph. */
    method DeleteGraphRelations(g: nat) returns (ok: bool)
      requires Valid()
      modifies this`edges
      ensures Valid()
      ensures edges == if ok then Without(old(edges), g) else old(edges)
      ensures reliable ==> ok
    {
      WithoutIsPart(edges, g, nextId);
      var fails: bool := *;
      if fails && !reliable {
        return false;
      }
      edges := Without(edges, g);
      ok := true;
    }

    /** Registers the edges whose entries are missing. */
    method RepairRelationIndex() returns (ok: bool, repaired: nat)
      requires Valid()
      modifies this`edges
      ensures Valid() && MoreIndexed(old(edges), edges)
      ensures ok ==> AllIndexed(edges)
      ensures reliable ==> ok
    {
      ok, repaired := true, 0;
      var fails: bool := *;
      if fails && !reliable {
        return false, 0;
      }
      for i := 0 to |edges|
        invariant |edges| == |old(edges)| && MoreIndexed(old(edges), edges) && Valid()
        invariant forall k :: 0 <= k < i ==> edges[k].indexed
      {
        if edges[i].indexed {
          continue;
        }
        var fails: bool := *;
        if fails && !reliable {
          return false, repaired;
        }
        edges := edges[i := edges[i].(indexed := true)];
        repaired := repaired + 1;
      }
    }
  }
}
