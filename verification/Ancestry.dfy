/** What a lineage layout shows of the graph it is drawn from. */
module Ancestry {
  import opened Cards
  import opened GraphEdges
  import opened Sorting
  import opened TidyForest

  // ---- The trees one after the other -----------------------------------------------------------------

  /** Each tree starts at a node not drawn before, and leaves nothing it leads to undrawn. */
  ghost predicate Closes(adj: Adjacency, f: Forest, before: set<nat>) {
    match f
    case Nil => true
    case Grow(root, kids, rest) =>
      var after := before + {root} + Elements(Nodes(kids));
      && root !in before && Settled(adj, before, before) && Settled(adj, after, after) && Closes(adj, rest, after)
  }

  lemma TreeNodes(f: Forest, before: set<nat>)
    requires f.Grow?
    ensures before + {f.root} + Elements(Nodes(f.kids)) + Elements(Nodes(f.rest)) == before + Elements(Nodes(f))
  {
    ElementsOfThree([f.root], Nodes(f.kids), Nodes(f.rest));
    assert Elements([f.root]) == {f.root};
  }

  lemma {:induction false} ClosesJoin(adj: Adjacency, f: Forest, g: Forest, before: set<nat>)
    requires Closes(adj, f, before) && Closes(adj, g, before + Elements(Nodes(f)))
    ensures Closes(adj, Join(f, g), before)
  {
    hide Settled;
    match f
    case Nil =>
      assert before + Elements(Nodes(f)) == before;
    case Grow(root, kids, rest) =>
      TreeNodes(f, before);
      ClosesJoin(adj, rest, g, before + {root} + Elements(Nodes(kids)));
  }

  lemma OneTreeCloses(adj: Adjacency, t: Forest, before: set<nat>)
    requires t.Grow? && t.rest.Nil? && t.root !in before && Settled(adj, before, before)
    requires Settled(adj, before + Elements(Nodes(t)), before + Elements(Nodes(t)))
    ensures Closes(adj, t, before)
  {
    TreeNodes(t, before);
    assert Elements(Nodes(Nil)) == {};
    assert before + {t.root} + Elements(Nodes(t.kids)) == before + Elements(Nodes(t));
  }

  lemma RootsOfOne(t: Forest, id: nat)
    requires Roots(t) == [id]
    ensures t.Grow? && t.root == id && t.rest.Nil?
  {
    RootCount(t);
    if t.Grow? {
      RootCount(t.rest);
      assert Roots(t) == [t.root] + Roots(t.rest) && Roots(t)[0] == t.root;
    }
  }

  lemma RootCount(t: Forest)
    ensures |Roots(t)| > 0 <==> t.Grow?
  {
  }

  lemma {:induction false} RunCloses(adj: Adjacency, meta: map<nat, Card>, all: set<nat>, ids: seq<nat>)
    requires Closed(adj, all) && Elements(ids) <= all
    ensures Closes(adj, Run(adj, meta, all, {}, ids).forest, {})
  {
    if ids != [] {
      hide Plant, Closed, NoRepeat, Settled, FirstClaims;
      var n := |ids| - 1;
      assert ids == ids[..n] + [ids[n]] && ids[n] in Elements(ids) && Elements(ids[..n]) <= Elements(ids);
      RunCloses(adj, meta, all, ids[..n]);
      RunIsExact(adj, meta, all, {}, ids[..n]);
      var r := Run(adj, meta, all, {}, ids[..n]);
      if ids[n] !in r.visited {
        var t := Plant(adj, meta, all, r.visited + {ids[n]}, [ids[n]]);
        RootPlanted(adj, meta, all, r.visited, ids[n]);
        RunClaimsFirst(adj, meta, all, ids[..n]);
        RunClaimsFirst(adj, meta, all, ids);
        RootsOfOne(t.forest, ids[n]);
        assert r.visited + Elements(Nodes(t.forest)) == t.visited;
        hide Closes;
        OneTreeCloses(adj, t.forest, r.visited);
        assert {} + Elements(Nodes(r.forest)) == r.visited;
        ClosesJoin(adj, r.forest, t.forest, {});
      }
    }
  }

  /** No node drawn before a root leads to it. */
  lemma {:induction false} RootIsNew(adj: Adjacency, f: Forest, before: set<nat>, r: nat) returns (k: nat)
    requires Closes(adj, f, before) && r in Roots(f)
    ensures k < |Nodes(f)| && Nodes(f)[k] == r && forall i :: 0 <= i < k ==> r !in Neighbours(adj, Nodes(f)[i])
    ensures forall q :: q in before ==> r !in Neighbours(adj, q)
  {
    if r == f.root {
      k := 0;
      forall q | q in before ensures r !in Neighbours(adj, q) {
        assert r in Neighbours(adj, q) ==> r in Elements(Neighbours(adj, q));
      }
    } else {
      hide Settled;
      var after := before + {f.root} + Elements(Nodes(f.kids));
      var i := RootIsNew(adj, f.rest, after, r);
      k := 1 + |Nodes(f.kids)| + i;
      forall j | 0 <= j < k ensures r !in Neighbours(adj, Nodes(f)[j]) {
        if 1 <= j < 1 + |Nodes(f.kids)| {
          assert Nodes(f)[j] == Nodes(f.kids)[j - 1] && Nodes(f.kids)[j - 1] in Elements(Nodes(f.kids));
        }
      }
    }
  }

  // ---- Who hangs under whom -----------------------------------------------------------------------------

  /** a comes before b in the order nodes are placed in. */
  ghost predicate DrawnBefore(f: Forest, a: nat, b: nat) {
    Ordered(Nodes(f), a, b)
  }

  ghost predicate Ordered(s: seq<nat>, a: nat, b: nat) {
    exists i, k :: 0 <= i < k < |s| && s[i] == a && s[k] == b
  }

  lemma {:induction false} ChildIsLater(f: Forest, p: nat, c: nat) returns (i: nat, k: nat)
    requires ChildOf(f, p, c)
    ensures i < k < |Nodes(f)| && Nodes(f)[i] == p && Nodes(f)[k] == c
  {
    if f.root == p && c in Roots(f.kids) {
      RootsAreNodes(f.kids);
      assert c in Elements(Roots(f.kids));
      var j :| 0 <= j < |Nodes(f.kids)| && Nodes(f.kids)[j] == c;
      i, k := 0, j + 1;
    } else if ChildOf(f.kids, p, c) {
      i, k := ChildIsLater(f.kids, p, c);
      i, k := i + 1, k + 1;
    } else {
      i, k := ChildIsLater(f.rest, p, c);
      i, k := i + 1 + |Nodes(f.kids)|, k + 1 + |Nodes(f.kids)|;
    }
  }

  lemma {:induction false} ChildOrRoot(f: Forest, c: nat) returns (p: nat)
    requires c in Nodes(f) && c !in Roots(f)
    ensures ChildOf(f, p, c)
  {
    if c in Nodes(f.kids) {
      if c in Roots(f.kids) {
        p := f.root;
      } else {
        p := ChildOrRoot(f.kids, c);
      }
    } else {
      p := ChildOrRoot(f.rest, c);
    }
  }

  /** p leads to c, is placed before it, and nothing placed before p leads to c. */
  ghost predicate LeadsFirst(adj: Adjacency, s: seq<nat>, p: nat, c: nat) {
    exists i, k :: 0 <= i < k < |s| && s[i] == p && s[k] == c && c in Neighbours(adj, p)
                   && forall j :: 0 <= j < i ==> c !in Neighbours(adj, s[j])
  }

  lemma OnlyOnce(s: seq<nat>, i: nat, k: nat)
    requires NoRepeat(s) && i < |s| && k < |s| && s[i] == s[k]
    ensures i == k
  {
  }

  lemma HangsUnderFirstIff(adj: Adjacency, f: Forest, p: nat, c: nat)
    requires FirstClaims(adj, f, {}) && Closes(adj, f, {}) && NoRepeat(Nodes(f))
    ensures ChildOf(f, p, c) <==> LeadsFirst(adj, Nodes(f), p, c)
  {
    hide FirstClaims, Closes, ChildOf, NoRepeat;
    if ChildOf(f, p, c) {
      var i := ParentIsFirst(adj, f, {}, p, c);
      var j, k := ChildIsLater(f, p, c);
      OnlyOnce(Nodes(f), i, j);
    }
    if i, k :| 0 <= i < k < |Nodes(f)| && Nodes(f)[i] == p && Nodes(f)[k] == c && c in Neighbours(adj, p)
               && forall j :: 0 <= j < i ==> c !in Neighbours(adj, Nodes(f)[j]) {
      if c in Roots(f) {
        var r := RootIsNew(adj, f, {}, c);
        OnlyOnce(Nodes(f), r, k);
        assert false;
      }
      var q := ChildOrRoot(f, c);
      var m := ParentIsFirst(adj, f, {}, q, c);
      assert m == i;
    }
  }

  /** What a layout's forest is, whatever it was laid out from. */
  lemma LineageShape(cards: seq<Card>, edges: set<Edge>, opts: Options, adj: Adjacency, forest: Forest,
                     positions: Positions, forced: nat)
    requires IsLineage(cards, edges, opts, adj, forest, positions, forced)
    ensures FirstClaims(adj, forest, {}) && Closes(adj, forest, {}) && NoRepeat(Nodes(forest))
    ensures Elements(Nodes(forest)) == Present(Ids(cards))
  {
    EveryNodeOnce(cards, edges, opts, adj, forest, positions, forced);
    var all, meta, sources := Present(Ids(cards)), IndexById(cards), Ids(SortBy(SourceCards(cards, edges), Before));
    assert Elements(sources + Ids(cards)) <= all by {
      SortedSources(cards, edges);
    }
    hide Run, LaidOut, ListsSuccs, SourceCards, IndexById, FirstClaims, Closed, SortBy;
    RunAppend(adj, meta, all, {}, sources, Ids(cards));
    RunCloses(adj, meta, all, sources + Ids(cards));
  }

  /** Edges between the cards of a layout. */
  ghost predicate Between(edges: set<Edge>, cards: seq<Card>) {
    forall e :: e in edges ==> e.0 in Present(Ids(cards)) && e.1 in Present(Ids(cards))
  }

  /** A node hangs under the one of its predecessors that is placed first, if that is placed before it, and under no
      other. The source's comment names the lowest of them, which is true exactly when that is placed first. */
  lemma HangsUnderIff(cards: seq<Card>, edges: set<Edge>, opts: Options, adj: Adjacency, forest: Forest,
                      positions: Positions, forced: nat, p: nat, c: nat)
    requires IsLineage(cards, edges, opts, adj, forest, positions, forced) && Between(edges, cards)
    ensures ChildOf(forest, p, c) <==>
            && p in Preds(edges, c) && DrawnBefore(forest, p, c)
            && forall q :: q in Preds(edges, c) && q != p ==> DrawnBefore(forest, p, q)
  {
    LineageShape(cards, edges, opts, adj, forest, positions, forced);
    LeadsTo(adj, edges, c);
    assert forall q :: q in Preds(edges, c) ==> q in Nodes(forest) by {
      forall q | q in Preds(edges, c) ensures q in Elements(Nodes(forest)) {
        assert (q, c) in edges;
      }
    }
    HangsUnderFirstIff(adj, forest, p, c);
    hide IsLineage, FirstClaims, Closes, ChildOf, Preds, LeadsFirst;
    FirstOfPreds(adj, Nodes(forest), Preds(edges, c), p, c);
  }

  lemma FirstOfPreds(adj: Adjacency, s: seq<nat>, preds: set<nat>, p: nat, c: nat)
    requires NoRepeat(s) && forall q :: q in preds ==> q in s
    requires forall q: nat :: c in Neighbours(adj, q) <==> q in preds
    ensures LeadsFirst(adj, s, p, c) <==> p in preds && Ordered(s, p, c) && forall q :: q in preds && q != p ==> Ordered(s, p, q)
  {
    hide Neighbours;
    if LeadsFirst(adj, s, p, c) {
      var i, k :| 0 <= i < k < |s| && s[i] == p && s[k] == c && c in Neighbours(adj, p)
                  && forall j :: 0 <= j < i ==> c !in Neighbours(adj, s[j]);
      forall q | q in preds && q != p ensures Ordered(s, p, q) {
        var j :| 0 <= j < |s| && s[j] == q;
        assert i < j;
      }
    }
    if p in preds && Ordered(s, p, c) && forall q :: q in preds && q != p ==> Ordered(s, p, q) {
      var i, k :| 0 <= i < k < |s| && s[i] == p && s[k] == c;
      forall q | q in preds ensures exists m :: i <= m < |s| && s[m] == q {
        if q == p {
          assert s[i] == q;
        } else {
          var n, m :| 0 <= n < m < |s| && s[n] == p && s[m] == q;
          OnlyOnce(s, n, i);
          assert s[m] == q;
        }
      }
      assert forall j :: 0 <= j < i ==> s[j] !in preds;
      assert LeadsFirst(adj, s, p, c);
    }
  }

  lemma LeadsTo(adj: Adjacency, edges: set<Edge>, c: nat)
    requires ListsSuccs(adj, edges)
    ensures forall q: nat :: c in Neighbours(adj, q) <==> q in Preds(edges, c)
  {
    forall q: nat ensures c in Neighbours(adj, q) <==> (q, c) in edges {
      assert c in Neighbours(adj, q) <==> c in Elements(Neighbours(adj, q));
    }
  }

  // ---- Children of sources --------------------------------------------------------------------------------

  /** Nothing leads to these nodes. */
  ghost predicate Unled(adj: Adjacency, ids: seq<nat>) {
    forall id, u: nat :: id in ids ==> id !in Neighbours(adj, u)
  }

  lemma UnledParts(adj: Adjacency, ids: seq<nat>, n: nat)
    requires Unled(adj, ids) && n < |ids|
    ensures Unled(adj, ids[..n]) && Unled(adj, [ids[n]])
  {
    forall id, u: nat | id in ids[..n] || id in [ids[n]] ensures id !in Neighbours(adj, u) {
      assert id in ids;
    }
  }

  lemma NeverClaimed(adj: Adjacency, f: Forest, c: nat)
    requires FirstClaims(adj, f, {}) && Unled(adj, [c]) && c in Nodes(f)
    ensures c in Roots(f)
  {
    assert c in [c];
    if c !in Roots(f) {
      var p := ChildOrRoot(f, c);
      var i := ParentIsFirst(adj, f, {}, p, c);
    }
  }

  /** Sources are never claimed: each is the root of its own tree, in the order they are listed. */
  lemma {:induction false} SourcesAreRoots(adj: Adjacency, meta: map<nat, Card>, all: set<nat>, ids: seq<nat>)
    requires Closed(adj, all) && Elements(ids) <= all && NoRepeat(ids) && Unled(adj, ids)
    ensures Roots(Run(adj, meta, all, {}, ids).forest) == ids
  {
    if ids != [] {
      var n := |ids| - 1;
      assert ids == ids[..n] + [ids[n]] && ids[n] in Elements(ids) && Elements(ids[..n]) <= Elements(ids);
      UnledParts(adj, ids, n);
      assert ids[n] !in ids[..n];
      hide Plant, Closed, Settled, FirstClaims, Unled, NoRepeat;
      SourcesAreRoots(adj, meta, all, ids[..n]);
      RunIsExact(adj, meta, all, {}, ids[..n]);
      RunClaimsFirst(adj, meta, all, ids[..n]);
      var r := Run(adj, meta, all, {}, ids[..n]);
      if ids[n] in Nodes(r.forest) {
        NeverClaimed(adj, r.forest, ids[n]);
      }
      assert ids[n] !in Elements(Nodes(r.forest));
      RootPlanted(adj, meta, all, r.visited, ids[n]);
      JoinShape(r.forest, Plant(adj, meta, all, r.visited + {ids[n]}, [ids[n]]).forest);
    }
  }

  lemma {:induction false} RootsInOrder(f: Forest, i: nat, j: nat)
    requires i < j < |Roots(f)|
    ensures DrawnBefore(f, Roots(f)[i], Roots(f)[j])
  {
    var n := 1 + |Nodes(f.kids)|;
    if i == 0 {
      RootsAreNodes(f.rest);
      assert Roots(f)[j] == Roots(f.rest)[j - 1] && Roots(f.rest)[j - 1] in Elements(Roots(f.rest));
      var k :| 0 <= k < |Nodes(f.rest)| && Nodes(f.rest)[k] == Roots(f)[j];
      assert Nodes(f)[0] == Roots(f)[0] && Nodes(f)[n + k] == Roots(f)[j];
    } else {
      RootsInOrder(f.rest, i - 1, j - 1);
      var a, b :| 0 <= a < b < |Nodes(f.rest)| && Nodes(f.rest)[a] == Roots(f.rest)[i - 1] && Nodes(f.rest)[b] == Roots(f.rest)[j - 1];
      assert Nodes(f)[n + a] == Roots(f)[i] && Nodes(f)[n + b] == Roots(f)[j];
    }
  }

  lemma {:induction false} SourcesAreDistinct(cards: seq<Card>, edges: set<Edge>)
    requires DistinctIds(cards)
    ensures DistinctIds(SourceCards(cards, edges))
  {
    if cards != [] {
      var n := |cards| - 1;
      SourcesAreDistinct(cards[..n], edges);
      SourcesAreCards(cards[..n], edges);
      var before := SourceCards(cards[..n], edges);
      forall i | 0 <= i < |before| ensures before[i].id != cards[n].id {
        assert before[i] in before && before[i] in cards[..n];
      }
    }
  }

  lemma AscendingIsDistinct(cards: seq<Card>)
    requires Ascending(Ids(cards))
    ensures DistinctIds(cards)
  {
    forall i, j | 0 <= i < j < |cards| ensures cards[i].id != cards[j].id {
      assert Ids(cards)[i] < Ids(cards)[j];
    }
  }

  /** The trees of the sources come first, by time and then id. */
  lemma SourcesInOrder(cards: seq<Card>, edges: set<Edge>, opts: Options, adj: Adjacency, forest: Forest,
                       positions: Positions, forced: nat, a: Card, b: Card)
    requires IsLineage(cards, edges, opts, adj, forest, positions, forced) && Ascending(Ids(cards))
    requires a in cards && b in cards && Preds(edges, a.id) == {} == Preds(edges, b.id) && Before(a, b)
    ensures DrawnBefore(forest, a.id, b.id)
  {
    var all, meta := Present(Ids(cards)), IndexById(cards);
    AscendingIsDistinct(cards);
    SourcesAreDistinct(cards, edges);
    SourcesAreCards(cards, edges);
    var sorted := SortedCards(SourceCards(cards, edges));
    var sources := Ids(sorted);
    var first := Run(adj, meta, all, {}, sources);
    var second := Run(adj, meta, all, first.visited, Ids(cards));
    assert forest == Join(first.forest, second.forest) && Closed(adj, all);
    assert Unled(adj, sources) by {
      SourcesAreUnled(adj, edges, sorted);
    }
    assert Elements(sources) <= all && NoRepeat(sources) by {
      SortedSources(cards, edges);
    }
    hide IsLineage, Run, Closed, SortBy, SourceCards, IndexById, Present;
    SourcesAreRoots(adj, meta, all, sources);
    var i :| 0 <= i < |sorted| && sorted[i] == a;
    var j :| 0 <= j < |sorted| && sorted[j] == b;
    BeforeIsStrict();
    assert i < j;
    RootsInOrder(first.forest, i, j);
    JoinShape(first.forest, second.forest);
    OrderedInJoin(Nodes(first.forest), Nodes(second.forest), a.id, b.id);
  }

  lemma SourcesAreUnled(adj: Adjacency, edges: set<Edge>, sources: seq<Card>)
    requires ListsSuccs(adj, edges) && forall c :: c in sources ==> Preds(edges, c.id) == {}
    ensures Unled(adj, Ids(sources))
  {
    forall id, u: nat | id in Ids(sources) ensures id !in Neighbours(adj, u) {
      var i :| 0 <= i < |sources| && Ids(sources)[i] == id;
      LeadsTo(adj, edges, id);
      assert sources[i] in sources;
    }
  }

  lemma OrderedInJoin(s: seq<nat>, t: seq<nat>, a: nat, b: nat)
    requires Ordered(s, a, b)
    ensures Ordered(s + t, a, b)
  {
    var i, k :| 0 <= i < k < |s| && s[i] == a && s[k] == b;
    assert (s + t)[i] == a && (s + t)[k] == b;
  }

  /** For a node that only sources lead to, the parent is the earliest of them. So the source's comment, which names the
      lowest, holds of such a node exactly when the lowest is also the earliest. */
  lemma HangsUnderEarliestIff(cards: seq<Card>, edges: set<Edge>, opts: Options, adj: Adjacency, forest: Forest,
                              positions: Positions, forced: nat, p: Card, c: nat)
    requires IsLineage(cards, edges, opts, adj, forest, positions, forced) && Between(edges, cards) && Ascending(Ids(cards))
    requires p in cards && (p.id, c) in edges && forall q :: q in Preds(edges, c) ==> Preds(edges, q) == {}
    ensures ChildOf(forest, p.id, c) <==>
            forall q :: q in cards && (q.id, c) in edges && q != p ==> Before(p, q)
  {
    AscendingIsDistinct(cards);
    if ChildOf(forest, p.id, c) {
      forall q | q in cards && (q.id, c) in edges && q != p ensures Before(p, q) {
        EarlierParent(cards, edges, opts, adj, forest, positions, forced, p, q, c);
      }
    }
    if forall q :: q in cards && (q.id, c) in edges && q != p ==> Before(p, q) {
      OnlyEarliest(cards, edges, opts, adj, forest, positions, forced, p, c);
    }
  }

  lemma EarlierParent(cards: seq<Card>, edges: set<Edge>, opts: Options, adj: Adjacency, forest: Forest,
                      positions: Positions, forced: nat, p: Card, q: Card, c: nat)
    requires IsLineage(cards, edges, opts, adj, forest, positions, forced) && Between(edges, cards) && Ascending(Ids(cards))
    requires p in cards && q in cards && p != q && (p.id, c) in edges && (q.id, c) in edges
    requires Preds(edges, p.id) == {} == Preds(edges, q.id) && ChildOf(forest, p.id, c)
    ensures Before(p, q)
  {
    SameIdSameCard(cards, p, q);
    ParentBeforePred(cards, edges, opts, adj, forest, positions, forced, p.id, q.id, c);
    if !Before(p, q) {
      hide IsLineage, ChildOf, Ordered, NoRepeat, Ascending, Preds;
      SourcesInOrder(cards, edges, opts, adj, forest, positions, forced, q, p);
      OneOrder(Nodes(forest), p.id, q.id);
    }
  }

  lemma SameIdSameCard(cards: seq<Card>, p: Card, q: Card)
    requires Ascending(Ids(cards)) && p in cards && q in cards && p != q
    ensures p.id != q.id && (Before(p, q) || Before(q, p))
  {
    AscendingIsDistinct(cards);
  }

  lemma ParentBeforePred(cards: seq<Card>, edges: set<Edge>, opts: Options, adj: Adjacency, forest: Forest,
                         positions: Positions, forced: nat, p: nat, q: nat, c: nat)
    requires IsLineage(cards, edges, opts, adj, forest, positions, forced) && Between(edges, cards)
    requires ChildOf(forest, p, c) && (q, c) in edges && p != q
    ensures NoRepeat(Nodes(forest)) && Ordered(Nodes(forest), p, q)
  {
    assert q in Preds(edges, c);
    hide IsLineage, FirstClaims, Closes, ChildOf, Between, Ordered, NoRepeat, Preds;
    LineageShape(cards, edges, opts, adj, forest, positions, forced);
    HangsUnderIff(cards, edges, opts, adj, forest, positions, forced, p, c);
  }

  lemma OneOrder(s: seq<nat>, a: nat, b: nat)
    requires NoRepeat(s) && Ordered(s, a, b)
    ensures !Ordered(s, b, a)
  {
  }

  /** The trees of the sources hold everything a source leads to, so such a node is a child, of one of them. */
  lemma OnlyEarliest(cards: seq<Card>, edges: set<Edge>, opts: Options, adj: Adjacency, forest: Forest,
                     positions: Positions, forced: nat, p: Card, c: nat)
    requires IsLineage(cards, edges, opts, adj, forest, positions, forced) && Between(edges, cards) && Ascending(Ids(cards))
    requires p in cards && (p.id, c) in edges && forall q :: q in Preds(edges, c) ==> Preds(edges, q) == {}
    requires forall q :: q in cards && (q.id, c) in edges && q != p ==> Before(p, q)
    ensures ChildOf(forest, p.id, c)
  {
    LineageShape(cards, edges, opts, adj, forest, positions, forced);
    LeadsTo(adj, edges, c);
    var q := SourceChild(cards, edges, opts, adj, forest, positions, forced, p.id, c);
    HangsUnderIff(cards, edges, opts, adj, forest, positions, forced, q, c);
    assert (q, c) in edges;
    var i :| 0 <= i < |cards| && Ids(cards)[i] == q;
    var card := cards[i];
    if card != p {
      EarlierParent(cards, edges, opts, adj, forest, positions, forced, card, p, c);
      BeforeIsStrict();
    }
  }

  lemma SourceChild(cards: seq<Card>, edges: set<Edge>, opts: Options, adj: Adjacency, forest: Forest,
                    positions: Positions, forced: nat, p: nat, c: nat) returns (q: nat)
    requires IsLineage(cards, edges, opts, adj, forest, positions, forced) && Between(edges, cards) && Ascending(Ids(cards))
    requires (p, c) in edges && Preds(edges, p) == {}
    ensures ChildOf(forest, q, c)
  {
    var all, meta, sources := Present(Ids(cards)), IndexById(cards), Ids(SortBy(SourceCards(cards, edges), Before));
    var first := Run(adj, meta, all, {}, sources);
    var second := Run(adj, meta, all, first.visited, Ids(cards));
    assert forest == Join(first.forest, second.forest) && Closed(adj, all);
    SortedSources(cards, edges);
    assert Elements(sources) <= all && p in sources && p in Preds(edges, c) && c !in sources;
    LeadsTo(adj, edges, c);
    hide IsLineage, Run, Closed, SortBy, SourceCards, IndexById, Between;
    assert Path(adj, [p, c]) && [p, c][0] == p && [p, c][1] == c;
    RunPlacesReachable(adj, meta, all, sources, c);
    RunIsExact(adj, meta, all, {}, sources);
    RunRoots(adj, meta, all, {}, sources);
    assert c in Elements(Nodes(first.forest)) && c !in Elements(sources);
    q := ChildOrRoot(first.forest, c);
    ChildOfJoin(first.forest, second.forest, q, c);
  }

  lemma {:induction false} ChildOfJoin(f: Forest, g: Forest, p: nat, c: nat)
    requires ChildOf(f, p, c)
    ensures ChildOf(Join(f, g), p, c)
  {
    if ChildOf(f.rest, p, c) {
      ChildOfJoin(f.rest, g, p, c);
    }
  }

  lemma ThreeCards(cards: seq<Card>, edges: set<Edge>)
    requires cards == [Card(1, 20, true), Card(5, 10, true), Card(9, 30, true)] && edges == {(1, 9), (5, 9)}
    ensures Between(edges, cards) && Ascending(Ids(cards))
    ensures Preds(edges, 1) == {} == Preds(edges, 5) && Preds(edges, 9) == {1, 5}
  {
    assert Ids(cards)[0] == 1 && Ids(cards)[1] == 5 && Ids(cards)[2] == 9;
  }

  /** The source's comment says a node with several parents joins the one with the lowest id. Here 1 and 5 both lead to
      9, 5 is earlier, and 9 hangs under 5. */
  lemma NotTheLowestParent(cards: seq<Card>, edges: set<Edge>, opts: Options, adj: Adjacency, forest: Forest,
                           positions: Positions, forced: nat)
    requires cards == [Card(1, 20, true), Card(5, 10, true), Card(9, 30, true)] && edges == {(1, 9), (5, 9)}
    requires IsLineage(cards, edges, opts, adj, forest, positions, forced)
    ensures ChildOf(forest, 5, 9) && !ChildOf(forest, 1, 9)
  {
    var one, five := cards[0], cards[1];
    hide IsLineage, ChildOf;
    ThreeCards(cards, edges);
    hide Between, Preds, Ascending;
    assert forall q :: q in cards && (q.id, 9) in edges && q != five ==> q == one;
    HangsUnderEarliestIff(cards, edges, opts, adj, forest, positions, forced, five, 9);
    HangsUnderEarliestIff(cards, edges, opts, adj, forest, positions, forced, one, 9);
  }

  // ---- Forced trees -----------------------------------------------------------------------------------------

  /** The tree at r holds the nodes of `kids` below it. */
  ghost predicate HasTree(f: Forest, r: nat, kids: Forest) {
    match f
    case Nil => false
    case Grow(root, below, rest) => (root == r && below == kids) || HasTree(rest, r, kids)
  }

  /** Every event of a group has a parent inside the group. */
  ghost predicate ParentsInside(adj: Adjacency, group: seq<nat>) {
    forall n :: n in group ==> ParentInside(adj, group, n)
  }

  ghost predicate ParentInside(adj: Adjacency, group: seq<nat>, n: nat) {
    exists p :: p in group && n in Neighbours(adj, p)
  }

  ghost predicate OnCycle(adj: Adjacency, r: nat) {
    exists w :: Path(adj, w) && |w| > 1 && w[0] == r == w[|w| - 1]
  }

  /** Below a root everything has a parent; the root has one just when it leads back to itself. */
  lemma {:induction false} InsideIffCycle(adj: Adjacency, f: Forest, before: set<nat>, r: nat, kids: Forest)
    requires FirstClaims(adj, f, before) && Closes(adj, f, before) && HasTree(f, r, kids)
    ensures ParentsInside(adj, [r] + Nodes(kids)) <==> OnCycle(adj, r)
  {
    if f.root == r && f.kids == kids {
      TreeInsideIffCycle(adj, r, kids, before);
    } else {
      hide Settled, ParentsInside, OnCycle, NewTo;
      InsideIffCycle(adj, f.rest, before + {f.root} + Elements(Nodes(f.kids)), r, kids);
    }
  }

  lemma TreeInsideIffCycle(adj: Adjacency, r: nat, kids: Forest, before: set<nat>)
    requires Elements(Roots(kids)) <= Elements(Neighbours(adj, r)) && FirstClaims(adj, kids, before + {r})
    requires r !in before && Settled(adj, before, before)
    requires var after := before + {r} + Elements(Nodes(kids)); Settled(adj, after, after)
    ensures ParentsInside(adj, [r] + Nodes(kids)) <==> OnCycle(adj, r)
  {
    hide Settled, FirstClaims, Path;
    if ParentsInside(adj, [r] + Nodes(kids)) {
      InsideIsCycle(adj, r, kids, before);
    }
    if w :| Path(adj, w) && |w| > 1 && w[0] == r == w[|w| - 1] {
      LastStepInside(adj, r, kids, before, w);
      forall n | n in [r] + Nodes(kids) ensures ParentInside(adj, [r] + Nodes(kids), n) {
        if n != r {
          var p := ParentBelow(adj, r, kids, before, n);
        }
      }
    }
  }

  lemma InsideIsCycle(adj: Adjacency, r: nat, kids: Forest, before: set<nat>)
    requires Elements(Roots(kids)) <= Elements(Neighbours(adj, r)) && FirstClaims(adj, kids, before + {r})
    requires ParentsInside(adj, [r] + Nodes(kids))
    ensures OnCycle(adj, r)
  {
    hide *;
    assert ([r] + Nodes(kids))[0] == r;
    var p := SomeParent(adj, [r] + Nodes(kids), r);
    var w := FromRoot(adj, r, kids, before, p);
    BackToRoot(adj, w, r);
  }

  lemma SomeParent(adj: Adjacency, group: seq<nat>, r: nat) returns (p: nat)
    requires ParentsInside(adj, group) && r in group
    ensures p in group && r in Neighbours(adj, p)
  {
    assert ParentInside(adj, group, r);
    hide ParentsInside, Neighbours;
    p :| p in group && r in Neighbours(adj, p);
  }

  lemma BackToRoot(adj: Adjacency, w: seq<nat>, r: nat)
    requires Path(adj, w) && w[0] == r && r in Neighbours(adj, w[|w| - 1])
    ensures OnCycle(adj, r)
  {
    assert Path(adj, w + [r]);
  }

  lemma FromRoot(adj: Adjacency, r: nat, kids: Forest, before: set<nat>, p: nat) returns (w: seq<nat>)
    requires Elements(Roots(kids)) <= Elements(Neighbours(adj, r)) && FirstClaims(adj, kids, before + {r})
    requires p in [r] + Nodes(kids)
    ensures Path(adj, w) && w[0] == r && w[|w| - 1] == p
  {
    if p == r {
      w := [r];
    } else {
      var v := PathDown(adj, kids, before + {r}, p);
      assert v[0] in Elements(Roots(kids));
      w := [r] + v;
    }
  }

  lemma ParentBelow(adj: Adjacency, r: nat, kids: Forest, before: set<nat>, n: nat) returns (p: nat)
    requires Elements(Roots(kids)) <= Elements(Neighbours(adj, r)) && FirstClaims(adj, kids, before + {r})
    requires n in Nodes(kids)
    ensures p in [r] + Nodes(kids) && n in Neighbours(adj, p)
  {
    if n in Roots(kids) {
      assert n in Elements(Roots(kids));
      p := r;
    } else {
      p := ChildOrRoot(kids, n);
      var i := ParentIsFirst(adj, kids, before + {r}, p, n);
      assert Nodes(kids)[i] in Nodes(kids);
    }
  }

  /** A way from the root back to it never leaves its tree: it cannot enter an earlier one, and nothing else is drawn. */
  lemma LastStepInside(adj: Adjacency, r: nat, kids: Forest, before: set<nat>, w: seq<nat>)
    requires r !in before && Settled(adj, before, before)
    requires var after := before + {r} + Elements(Nodes(kids)); Settled(adj, after, after)
    requires Path(adj, w) && |w| > 1 && w[0] == r == w[|w| - 1]
    ensures w[|w| - 2] in [r] + Nodes(kids) && r in Neighbours(adj, w[|w| - 2])
  {
    var after, u := before + {r} + Elements(Nodes(kids)), w[|w| - 2];
    PathStays(adj, after, w[..|w| - 1]);
    assert r in Neighbours(adj, u) && r in Elements(Neighbours(adj, u));
    assert u !in before;
    assert u == r || u in Elements(Nodes(kids));
  }

  lemma {:induction false} TreesOf(f: Forest, r: nat) returns (kids: Forest)
    requires r in Roots(f)
    ensures HasTree(f, r, kids)
  {
    if r == f.root {
      kids := f.kids;
    } else {
      kids := TreesOf(f.rest, r);
    }
  }

  /** The note a layout with forced trees carries: every event of such a group has a parent inside the group. */
  ghost predicate NoteHolds(adj: Adjacency, edges: set<Edge>, forest: Forest) {
    forall r, kids :: HasTree(forest, r, kids) && Preds(edges, r) != {} ==> ParentsInside(adj, [r] + Nodes(kids))
  }

  /** Some path leads to r from one of these nodes. */
  ghost predicate Reached(adj: Adjacency, from: seq<nat>, r: nat) {
    exists w :: Path(adj, w) && w[0] in from && w[|w| - 1] == r
  }

  /** A tree is planted where a node is listed that nothing listed before leads to. */
  lemma {:induction false} RunRoot(adj: Adjacency, meta: map<nat, Card>, all: set<nat>, ids: seq<nat>, r: nat)
    requires Closed(adj, all) && Elements(ids) <= all
    ensures r in Roots(Run(adj, meta, all, {}, ids).forest) <==>
            exists k :: 0 <= k < |ids| && ids[k] == r && !Reached(adj, ids[..k], r)
  {
    if ids != [] {
      var n := |ids| - 1;
      var less := ids[..n];
      assert ids == less + [ids[n]] && Elements(less) <= Elements(ids);
      assert forall k :: 0 <= k < n ==> less[..k] == ids[..k] && less[k] == ids[k];
      RunRoot(adj, meta, all, less, r);
      RunRootNext(adj, meta, all, less, ids[n], r);
    }
  }

  lemma RunRootNext(adj: Adjacency, meta: map<nat, Card>, all: set<nat>, less: seq<nat>, id: nat, r: nat)
    requires Closed(adj, all) && Elements(less + [id]) <= all
    ensures r in Roots(Run(adj, meta, all, {}, less + [id]).forest) <==>
            r in Roots(Run(adj, meta, all, {}, less).forest) || (id == r && !Reached(adj, less, r))
  {
    assert (less + [id])[..|less|] == less && id in Elements(less + [id]) && Elements(less) <= Elements(less + [id]);
    hide Plant, Closed, NoRepeat;
    RunIsExact(adj, meta, all, {}, less);
    RunPlacesReachable(adj, meta, all, less, id);
    var before := Run(adj, meta, all, {}, less);
    if id !in before.visited {
      RootPlanted(adj, meta, all, before.visited, id);
      JoinShape(before.forest, Plant(adj, meta, all, before.visited + {id}, [id]).forest);
    }
  }

  /** No path leads to r from a node without predecessors, or from a node with a lower id. */
  ghost predicate Unreached(cards: seq<Card>, edges: set<Edge>, adj: Adjacency, r: nat) {
    forall w :: Path(adj, w) && w[|w| - 1] == r && w[0] in Ids(cards) ==> Preds(edges, w[0]) != {} && w[0] >= r
  }

  /** The forced roots are a matter of the graph alone. */
  lemma ForcedRootIff(cards: seq<Card>, edges: set<Edge>, opts: Options, adj: Adjacency, forest: Forest,
                      positions: Positions, forced: nat, r: nat)
    requires IsLineage(cards, edges, opts, adj, forest, positions, forced) && Ascending(Ids(cards)) && r in Ids(cards)
    ensures r in Roots(forest) && Preds(edges, r) != {} <==> Unreached(cards, edges, adj, r)
  {
    var all, meta, sources := Present(Ids(cards)), IndexById(cards), Ids(SortBy(SourceCards(cards, edges), Before));
    SortedSources(cards, edges);
    assert Elements(sources + Ids(cards)) <= all && Closed(adj, all);
    hide LaidOut, SortBy, SourceCards, IndexById, Path, Run, Preds, Ids, Ascending, Unreached, Reached;
    RunAppend(adj, meta, all, {}, sources, Ids(cards));
    assert forest == Run(adj, meta, all, {}, sources + Ids(cards)).forest;
    hide IsLineage;
    RunRoot(adj, meta, all, sources + Ids(cards), r);
    if Preds(edges, r) != {} {
      WhereListed(sources, Ids(cards), adj, r);
      UnreachedIs(cards, edges, adj, sources, r);
    } else {
      SourceIsReached(cards, edges, adj, r);
    }
  }

  lemma SourceIsReached(cards: seq<Card>, edges: set<Edge>, adj: Adjacency, r: nat)
    requires r in Ids(cards) && Preds(edges, r) == {}
    ensures !Unreached(cards, edges, adj, r)
  {
    assert Path(adj, [r]) && [r][0] == r;
  }

  /** Before its one place in the list come the sources and the lower ids. */
  lemma WhereListed(sources: seq<nat>, ids: seq<nat>, adj: Adjacency, r: nat)
    requires Ascending(ids) && r in ids && r !in sources
    ensures (exists k :: 0 <= k < |sources + ids| && (sources + ids)[k] == r && !Reached(adj, (sources + ids)[..k], r)) <==>
            exists i :: 0 <= i < |ids| && ids[i] == r && !Reached(adj, sources + ids[..i], r)
  {
    hide Reached;
    var all := sources + ids;
    forall i | 0 <= i < |ids| ensures all[..|sources| + i] == sources + ids[..i] && all[|sources| + i] == ids[i] {
    }
    if k :| 0 <= k < |all| && all[k] == r && !Reached(adj, all[..k], r) {
      assert k >= |sources|;
      assert ids[k - |sources|] == r;
    }
    if i :| 0 <= i < |ids| && ids[i] == r && !Reached(adj, sources + ids[..i], r) {
      assert all[|sources| + i] == r;
    }
  }

  lemma UnreachedIs(cards: seq<Card>, edges: set<Edge>, adj: Adjacency, sources: seq<nat>, r: nat)
    requires Ascending(Ids(cards)) && r in Ids(cards) && Preds(edges, r) != {}
    requires forall n: nat :: n in sources <==> n in Ids(cards) && Preds(edges, n) == {}
    ensures Unreached(cards, edges, adj, r) <==>
            exists i :: 0 <= i < |cards| && Ids(cards)[i] == r && !Reached(adj, sources + Ids(cards)[..i], r)
  {
    var i :| 0 <= i < |cards| && Ids(cards)[i] == r;
    var ids := Ids(cards);
    forall n: nat ensures n in sources + ids[..i] <==> n in ids && (Preds(edges, n) == {} || n < r) {
      if n in ids && n < r {
        var j :| 0 <= j < |ids| && ids[j] == n;
        assert ids[..i][j] == n;
      }
    }
    hide Path, Preds, Ascending;
  }

  /** It holds exactly when every forced root lies on a cycle. */
  lemma NoteHoldsIff(cards: seq<Card>, edges: set<Edge>, opts: Options, adj: Adjacency, forest: Forest,
                     positions: Positions, forced: nat)
    requires IsLineage(cards, edges, opts, adj, forest, positions, forced) && Ascending(Ids(cards))
    ensures NoteHolds(adj, edges, forest) <==>
            forall r :: r in Ids(cards) && Unreached(cards, edges, adj, r) ==> OnCycle(adj, r)
  {
    LineageShape(cards, edges, opts, adj, forest, positions, forced);
    RootsAreNodes(forest);
    hide FirstClaims, Closes, OnCycle, ParentsInside, Preds, IsLineage, Unreached;
    forall r, kids | HasTree(forest, r, kids)
      ensures r in Roots(forest) && (ParentsInside(adj, [r] + Nodes(kids)) <==> OnCycle(adj, r))
    {
      RootHasTree(forest, r, kids);
      InsideIffCycle(adj, forest, {}, r, kids);
    }
    forall r | r in Roots(forest) ensures r in Ids(cards) && exists kids :: HasTree(forest, r, kids) {
      assert r in Elements(Roots(forest));
      var kids := TreesOf(forest, r);
    }
    forall r | r in Ids(cards) ensures r in Roots(forest) && Preds(edges, r) != {} <==> Unreached(cards, edges, adj, r) {
      ForcedRootIff(cards, edges, opts, adj, forest, positions, forced, r);
    }
  }

  lemma {:induction false} RootHasTree(f: Forest, r: nat, kids: Forest)
    requires HasTree(f, r, kids)
    ensures r in Roots(f)
  {
    if f.root != r {
      RootHasTree(f.rest, r, kids);
    }
  }

  /** Here 2 and 3 form a cycle that leads on to 1; nothing is a source, the lowest id is 1, it leads nowhere, and the
      note is not true of its group. */
  lemma ForcedGroupWithoutParent(cards: seq<Card>, edges: set<Edge>, opts: Options, adj: Adjacency, forest: Forest,
                                 positions: Positions, forced: nat)
    requires Ids(cards) == [1, 2, 3] && edges == {(2, 3), (3, 2), (3, 1)}
    requires IsLineage(cards, edges, opts, adj, forest, positions, forced)
    ensures !NoteHolds(adj, edges, forest)
  {
    assert ListsSuccs(adj, edges);
    hide *;
    OneLeadsNowhere(adj, edges);
    LowestIsUnreached(cards, edges, adj);
    NoWayOn(adj, 1);
    NoteHoldsIff(cards, edges, opts, adj, forest, positions, forced);
  }

  lemma LowestIsUnreached(cards: seq<Card>, edges: set<Edge>, adj: Adjacency)
    requires Ids(cards) == [1, 2, 3] && Preds(edges, 1) != {} && Preds(edges, 2) != {} && Preds(edges, 3) != {}
    ensures Unreached(cards, edges, adj, 1) && Ascending(Ids(cards)) && 1 in Ids(cards)
  {
    assert Ids(cards)[0] == 1;
    hide Path, Preds;
  }

  lemma OneLeadsNowhere(adj: Adjacency, edges: set<Edge>)
    requires ListsSuccs(adj, edges) && edges == {(2, 3), (3, 2), (3, 1)}
    ensures Elements(Neighbours(adj, 1)) == {}
    ensures Preds(edges, 1) != {} && Preds(edges, 2) != {} && Preds(edges, 3) != {}
  {
    assert 3 in Preds(edges, 1) && 3 in Preds(edges, 2) && 2 in Preds(edges, 3);
    assert Succs(edges, 1) == {};
  }

  lemma NoWayOn(adj: Adjacency, r: nat)
    requires Elements(Neighbours(adj, r)) == {}
    ensures !OnCycle(adj, r)
  {
    forall w | Path(adj, w) && |w| > 1 ensures w[0] != r {
      assert w[1] in Neighbours(adj, w[0]) && w[1] in Elements(Neighbours(adj, w[0]));
    }
  }

  // ---- How edges are drawn -----------------------------------------------------------------------------------

  /** The edge from p to its child c, with p at level k. */
  ghost predicate EdgeAt(f: Forest, depth: nat, p: nat, c: nat, k: nat) {
    match f
    case Nil => false
    case Grow(root, kids, rest) =>
      (root == p && k == depth && c in Roots(kids)) || EdgeAt(kids, depth + 1, p, c, k) || EdgeAt(rest, depth, p, c, k)
  }

  lemma {:induction false} RootsAtLevel(f: Forest, depth: nat, c: nat)
    requires c in Roots(f)
    ensures AtLevel(f, depth, c, depth)
  {
    if c != f.root {
      RootsAtLevel(f.rest, depth, c);
    }
  }

  lemma {:induction false} EdgeEnds(f: Forest, depth: nat, p: nat, c: nat, k: nat)
    requires EdgeAt(f, depth, p, c, k)
    ensures k >= depth && AtLevel(f, depth, p, k) && AtLevel(f, depth, c, k + 1)
  {
    if f.root == p && k == depth && c in Roots(f.kids) {
      RootsAtLevel(f.kids, depth + 1, c);
    } else if EdgeAt(f.kids, depth + 1, p, c, k) {
      EdgeEnds(f.kids, depth + 1, p, c, k);
    } else {
      EdgeEnds(f.rest, depth, p, c, k);
    }
  }

  lemma {:induction false} ChildHasEdge(f: Forest, depth: nat, p: nat, c: nat) returns (k: nat)
    requires ChildOf(f, p, c)
    ensures EdgeAt(f, depth, p, c, k)
  {
    if f.root == p && c in Roots(f.kids) {
      k := depth;
    } else if ChildOf(f.kids, p, c) {
      k := ChildHasEdge(f.kids, depth + 1, p, c);
    } else {
      k := ChildHasEdge(f.rest, depth, p, c);
    }
  }

  ghost predicate LeftOf(pos: Positions, m: nat, n: nat, gapX: real) {
    m in pos && n in pos && pos[m].x + gapX <= pos[n].x
  }

  /** Edges that leave one level at different nodes arrive in the same order as they leave: they do not cross. */
  lemma {:induction false} EdgesStayInOrder(f: Forest, depth: nat, left: real, opts: Options, pos: Positions,
                                            p: nat, c: nat, q: nat, d: nat, k: nat)
    requires LaidOut(f, depth, left, opts, pos) && p != q && EdgeAt(f, depth, p, c, k) && EdgeAt(f, depth, q, d, k)
    ensures var g := opts.GapX();
            (LeftOf(pos, p, q, g) && LeftOf(pos, c, d, g)) || (LeftOf(pos, q, p, g) && LeftOf(pos, d, c, g))
  {
    var first := Grow(f.root, f.kids, Nil);
    var mid := TreeEnd(f, left, opts.GapX());
    var inFirst, alsoInFirst := EdgeAt(first, depth, p, c, k), EdgeAt(first, depth, q, d, k);
    assert !EdgeAt(Nil, depth, p, c, k) && !EdgeAt(Nil, depth, q, d, k);
    if inFirst && alsoInFirst {
      if k == depth {
        RootEdgesOnly(f, depth, p, c);
        RootEdgesOnly(f, depth, q, d);
      }
      EdgesStayInOrder(f.kids, depth + 1, left, opts, pos, p, c, q, d, k);
    } else if inFirst {
      EdgeWithin(first, depth, left, opts, pos, p, c, k);
      EdgeWithin(f.rest, depth, mid, opts, pos, q, d, k);
    } else if alsoInFirst {
      EdgeWithin(first, depth, left, opts, pos, q, d, k);
      EdgeWithin(f.rest, depth, mid, opts, pos, p, c, k);
    } else {
      EdgesStayInOrder(f.rest, depth, mid, opts, pos, p, c, q, d, k);
    }
  }

  lemma RootEdgesOnly(f: Forest, depth: nat, p: nat, c: nat)
    requires f.Grow? && EdgeAt(Grow(f.root, f.kids, Nil), depth, p, c, depth)
    ensures p == f.root
  {
    if EdgeAt(f.kids, depth + 1, p, c, depth) {
      EdgeEnds(f.kids, depth + 1, p, c, depth);
    }
  }

  lemma EdgeWithin(f: Forest, depth: nat, left: real, opts: Options, pos: Positions, p: nat, c: nat, k: nat)
    requires LaidOut(f, depth, left, opts, pos) && EdgeAt(f, depth, p, c, k)
    ensures p in pos && c in pos
    ensures left <= pos[p].x <= After(f, left, opts.GapX()) - opts.GapX()
    ensures left <= pos[c].x <= After(f, left, opts.GapX()) - opts.GapX()
  {
    EdgeEnds(f, depth, p, c, k);
    StaysInColumns(f, depth, left, opts, pos, p, k);
    StaysInColumns(f, depth, left, opts, pos, c, k + 1);
  }

  /** In the finished layout no two edges between a row and the next cross: of two parents in one row, the children of
      the left one are all left of those of the right one. */
  lemma EdgesDoNotCross(cards: seq<Card>, edges: set<Edge>, opts: Options, adj: Adjacency, forest: Forest,
                        positions: Positions, forced: nat, p: nat, c: nat, q: nat, d: nat)
    requires IsLineage(cards, edges, opts, adj, forest, positions, forced)
    requires ChildOf(forest, p, c) && ChildOf(forest, q, d) && p in positions && q in positions
    requires positions[p].y == positions[q].y && positions[p].x < positions[q].x
    ensures LeftOf(positions, p, q, opts.GapX()) && LeftOf(positions, c, d, opts.GapX())
    ensures positions[c].y == positions[d].y == positions[p].y + opts.GapY()
  {
    assert LaidOut(forest, 0, 0.0, opts, positions);
    hide IsLineage, LaidOut, ChildOf, Row;
    var k := ChildHasEdge(forest, 0, p, c);
    var j := ChildHasEdge(forest, 0, q, d);
    EdgeEnds(forest, 0, p, c, k);
    EdgeEnds(forest, 0, q, d, j);
    StaysInColumns(forest, 0, 0.0, opts, positions, p, k);
    StaysInColumns(forest, 0, 0.0, opts, positions, q, j);
    OneRowPerLevel(k, j, opts.GapY());
    StaysInColumns(forest, 0, 0.0, opts, positions, c, k + 1);
    StaysInColumns(forest, 0, 0.0, opts, positions, d, k + 1);
    EdgesStayInOrder(forest, 0, 0.0, opts, positions, p, c, q, d, k);
    NextRow(k, opts.GapY());
  }

  lemma NextRow(k: nat, gapY: real)
    ensures Row(k + 1, gapY) == Row(k, gapY) + gapY
  {
  }
}
