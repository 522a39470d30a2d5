/** In which order a lineage layout places its nodes, in terms of its roots and of the order of children. */
module Precedence {
  import opened Cards
  import opened GraphEdges
  import opened Sorting
  import opened TidyForest
  import opened Ancestry

  // ---- On any forest -------------------------------------------------------------------------------------

  /** b hangs somewhere below a. */
  ghost predicate Above(f: Forest, a: nat, b: nat) {
    match f
    case Nil => false
    case Grow(root, kids, rest) => (root == a && b in Nodes(kids)) || Above(kids, a, b) || Above(rest, a, b)
  }

  /** n is x or hangs somewhere below it. */
  ghost predicate Holds(f: Forest, x: nat, n: nat) {
    (x == n && n in Nodes(f)) || Above(f, x, n)
  }

  /** x and y are children of p, x before y. */
  ghost predicate Brothers(f: Forest, p: nat, x: nat, y: nat) {
    match f
    case Nil => false
    case Grow(root, kids, rest) => (root == p && Ordered(Roots(kids), x, y)) || Brothers(kids, p, x, y) || Brothers(rest, p, x, y)
  }

  /** Two roots, or two children of one node, the first before the second. */
  ghost predicate Elder(f: Forest, x: nat, y: nat) {
    Ordered(Roots(f), x, y) || exists p :: Brothers(f, p, x, y)
  }

  /** They stand in two such branches, a in the one before. */
  ghost predicate Branched(f: Forest, a: nat, b: nat) {
    exists x, y :: Elder(f, x, y) && Holds(f, x, a) && Holds(f, y, b)
  }

  lemma OrderedInBoth(s: seq<nat>, t: seq<nat>, a: nat, b: nat)
    ensures Ordered(s + t, a, b) <==> Ordered(s, a, b) || Ordered(t, a, b) || (a in s && b in t)
  {
    if Ordered(s + t, a, b) {
      var i, k :| 0 <= i < k < |s + t| && (s + t)[i] == a && (s + t)[k] == b;
      assert i >= |s| ==> t[i - |s|] == a;
      assert k >= |s| ==> t[k - |s|] == b;
    }
    if Ordered(s, a, b) {
      OrderedInJoin(s, t, a, b);
    }
    if i, k :| 0 <= i < k < |t| && t[i] == a && t[k] == b {
      assert (s + t)[|s| + i] == a && (s + t)[|s| + k] == b;
    }
    if a in s && b in t {
      var i :| 0 <= i < |s| && s[i] == a;
      var k :| 0 <= k < |t| && t[k] == b;
      assert (s + t)[i] == a && (s + t)[|s| + k] == b;
    }
  }

  lemma OrderedBehind(r: nat, s: seq<nat>, a: nat, b: nat)
    ensures Ordered([r] + s, a, b) <==> Ordered(s, a, b) || (a == r && b in s)
  {
    OrderedInBoth([r], s, a, b);
  }

  lemma PlacedUnfolds(f: Forest, a: nat, b: nat)
    requires f.Grow?
    ensures DrawnBefore(f, a, b) <==>
            || (a == f.root && b in Nodes(f.kids) + Nodes(f.rest))
            || (a in Nodes(f.kids) && b in Nodes(f.rest))
            || DrawnBefore(f.kids, a, b) || DrawnBefore(f.rest, a, b)
  {
    var kids, rest := Nodes(f.kids), Nodes(f.rest);
    hide Nodes, Ordered;
    NodesInParts(f);
    OrderedBehind(f.root, kids + rest, a, b);
    OrderedInBoth(kids, rest, a, b);
  }

  lemma ElderUnfolds(f: Forest, x: nat, y: nat)
    requires f.Grow?
    ensures Elder(f, x, y) <==> (x == f.root && y in Roots(f.rest)) || Elder(f.kids, x, y) || Elder(f.rest, x, y)
  {
    assert Roots(f) == [f.root] + Roots(f.rest);
    OrderedBehind(f.root, Roots(f.rest), x, y);
    hide Ordered;
    assert forall p :: Brothers(f, p, x, y) <==>
                       (f.root == p && Ordered(Roots(f.kids), x, y)) || Brothers(f.kids, p, x, y) || Brothers(f.rest, p, x, y);
    if Ordered(Roots(f.kids), x, y) {
      assert Brothers(f, f.root, x, y);
    }
    if p :| Brothers(f.kids, p, x, y) {
      assert Brothers(f, p, x, y);
    }
    if p :| Brothers(f.rest, p, x, y) {
      assert Brothers(f, p, x, y);
    }
  }

  lemma {:induction false} AboveAreNodes(f: Forest, a: nat, b: nat)
    requires Above(f, a, b)
    ensures a in Nodes(f) && b in Nodes(f)
  {
    if Above(f.kids, a, b) {
      AboveAreNodes(f.kids, a, b);
    } else if Above(f.rest, a, b) {
      AboveAreNodes(f.rest, a, b);
    }
  }

  lemma {:induction false} ElderAreNodes(f: Forest, x: nat, y: nat)
    requires Elder(f, x, y)
    ensures x in Nodes(f) && y in Nodes(f)
  {
    if f.Grow? {
      RootInNodes(f.rest, y);
      ElderUnfolds(f, x, y);
      if Elder(f.kids, x, y) {
        ElderAreNodes(f.kids, x, y);
      } else if Elder(f.rest, x, y) {
        ElderAreNodes(f.rest, x, y);
      }
    }
  }

  lemma RootInNodes(f: Forest, y: nat)
    ensures y in Roots(f) ==> y in Nodes(f)
  {
    RootsAreNodes(f);
    assert y in Roots(f) ==> y in Elements(Roots(f));
  }

  /** Every node hangs under some root, or is one. */
  lemma {:induction false} RootAbove(f: Forest, n: nat) returns (r: nat)
    requires n in Nodes(f)
    ensures r in Roots(f) && Holds(f, r, n)
  {
    if n == f.root || n in Nodes(f.kids) {
      r := f.root;
    } else {
      r := RootAbove(f.rest, n);
    }
  }

  lemma PartsNoRepeat(f: Forest)
    requires f.Grow? && NoRepeat(Nodes(f))
    ensures NoRepeat(Nodes(f.kids)) && NoRepeat(Nodes(f.rest))
    ensures f.root !in Nodes(f.kids) && f.root !in Nodes(f.rest)
    ensures forall n :: n in Nodes(f.kids) ==> n !in Nodes(f.rest)
  {
    hide Nodes, NoRepeat;
    NodesInParts(f);
    OthersStayApart(f.root, Nodes(f.kids) + Nodes(f.rest));
    BothNoRepeat(Nodes(f.kids), Nodes(f.rest));
  }

  lemma NodesInParts(f: Forest)
    requires f.Grow?
    ensures Nodes(f) == [f.root] + (Nodes(f.kids) + Nodes(f.rest))
  {
  }

  lemma BothNoRepeat(s: seq<nat>, t: seq<nat>)
    requires NoRepeat(s + t)
    ensures NoRepeat(s) && NoRepeat(t) && forall n :: n in s ==> n !in t
  {
    assert forall i :: 0 <= i < |s| ==> (s + t)[i] == s[i];
    assert forall i :: 0 <= i < |t| ==> (s + t)[|s| + i] == t[i];
  }

  /** A branch lies where its top does. */
  lemma HeldInPart(f: Forest, x: nat, n: nat)
    requires f.Grow? && NoRepeat(Nodes(f)) && Holds(f, x, n)
    ensures x == f.root ==> n == f.root || n in Nodes(f.kids)
    ensures x in Nodes(f.kids) ==> Holds(f.kids, x, n) && n in Nodes(f.kids)
    ensures x in Nodes(f.rest) ==> Holds(f.rest, x, n) && n in Nodes(f.rest)
  {
    PartsNoRepeat(f);
    hide NoRepeat;
    if Above(f.kids, x, n) {
      AboveAreNodes(f.kids, x, n);
    } else if Above(f.rest, x, n) {
      AboveAreNodes(f.rest, x, n);
    }
  }

  lemma {:induction false} AboveIsEarlier(f: Forest, a: nat, b: nat)
    requires Above(f, a, b)
    ensures DrawnBefore(f, a, b)
  {
    hide Ordered;
    PlacedUnfolds(f, a, b);
    if Above(f.kids, a, b) {
      AboveIsEarlier(f.kids, a, b);
    } else if Above(f.rest, a, b) {
      AboveIsEarlier(f.rest, a, b);
    }
  }

  lemma {:induction false} ElderIsEarlier(f: Forest, x: nat, y: nat, a: nat, b: nat)
    requires NoRepeat(Nodes(f)) && Elder(f, x, y) && Holds(f, x, a) && Holds(f, y, b)
    ensures DrawnBefore(f, a, b)
  {
    if f.Grow? {
      ElderUnfolds(f, x, y);
      PlacedUnfolds(f, a, b);
      PartsNoRepeat(f);
      HeldInPart(f, x, a);
      HeldInPart(f, y, b);
      hide NoRepeat, Elder, Holds, Ordered, DrawnBefore;
      if Elder(f.kids, x, y) {
        ElderAreNodes(f.kids, x, y);
        ElderIsEarlier(f.kids, x, y, a, b);
      } else if Elder(f.rest, x, y) {
        ElderAreNodes(f.rest, x, y);
        ElderIsEarlier(f.rest, x, y, a, b);
      } else {
        RootInNodes(f.rest, y);
      }
    }
  }

  lemma BranchedInPart(f: Forest, a: nat, b: nat)
    requires f.Grow? && (Branched(f.kids, a, b) || Branched(f.rest, a, b))
    ensures Branched(f, a, b)
  {
    hide Elder;
    if x, y :| Elder(f.kids, x, y) && Holds(f.kids, x, a) && Holds(f.kids, y, b) {
      ElderUnfolds(f, x, y);
      assert Holds(f, x, a) && Holds(f, y, b);
    } else {
      var x, y :| Elder(f.rest, x, y) && Holds(f.rest, x, a) && Holds(f.rest, y, b);
      ElderUnfolds(f, x, y);
      assert Holds(f, x, a) && Holds(f, y, b);
    }
  }

  lemma LaterTree(f: Forest, a: nat, b: nat)
    requires f.Grow? && (a == f.root || a in Nodes(f.kids)) && b in Nodes(f.rest)
    ensures Branched(f, a, b)
  {
    var y := RootAbove(f.rest, b);
    ElderUnfolds(f, f.root, y);
    hide Elder;
    assert Holds(f, f.root, a) && Holds(f, y, b);
  }

  lemma {:induction false} EarlierIs(f: Forest, a: nat, b: nat)
    requires DrawnBefore(f, a, b)
    ensures Above(f, a, b) || Branched(f, a, b)
  {
    if f.Grow? {
      PlacedUnfolds(f, a, b);
      hide Ordered, Branched, DrawnBefore;
      if DrawnBefore(f.kids, a, b) {
        EarlierIs(f.kids, a, b);
        if Branched(f.kids, a, b) {
          BranchedInPart(f, a, b);
        }
      } else if DrawnBefore(f.rest, a, b) {
        EarlierIs(f.rest, a, b);
        if Branched(f.rest, a, b) {
          BranchedInPart(f, a, b);
        }
      } else if b in Nodes(f.rest) {
        LaterTree(f, a, b);
      }
    }
  }

  /** A node is placed before another exactly when the other hangs below it, or they hang under two roots, or two
      children of one node, of which the first's is the earlier. */
  lemma PlacedBeforeIff(f: Forest, a: nat, b: nat)
    requires NoRepeat(Nodes(f))
    ensures DrawnBefore(f, a, b) <==> Above(f, a, b) || Branched(f, a, b)
  {
    hide NoRepeat, DrawnBefore, Elder, Holds;
    if DrawnBefore(f, a, b) {
      EarlierIs(f, a, b);
    }
    if Above(f, a, b) {
      AboveIsEarlier(f, a, b);
    } else if x, y :| Elder(f, x, y) && Holds(f, x, a) && Holds(f, y, b) {
      ElderIsEarlier(f, x, y, a, b);
    }
  }

  // ---- In a layout -----------------------------------------------------------------------------------------

  ghost predicate Sooner(meta: map<nat, Card>, x: nat, y: nat) {
    Before(CardOf(meta, x), CardOf(meta, y))
  }

  ghost predicate InTime(meta: map<nat, Card>, s: seq<nat>) {
    forall i, j :: 0 <= i < j < |s| ==> Sooner(meta, s[i], s[j])
  }

  /** Every node's children stand in the order of time. */
  ghost predicate ChildrenInTime(meta: map<nat, Card>, f: Forest) {
    match f
    case Nil => true
    case Grow(_, kids, rest) => InTime(meta, Roots(kids)) && ChildrenInTime(meta, kids) && ChildrenInTime(meta, rest)
  }

  lemma ClaimInTime(adj: Adjacency, meta: map<nat, Card>, visited: set<nat>, id: nat)
    ensures InTime(meta, Claim(adj, meta, visited, id))
  {
    var free := Fresh(Neighbours(adj, id), visited);
    var cards := CardsOf(meta, free);
    FreshIsExact(Neighbours(adj, id), visited);
    assert DistinctIds(cards);
    var sorted := SortedCards(cards);
    forall i | 0 <= i < |sorted| ensures sorted[i] == CardOf(meta, sorted[i].id) {
      assert sorted[i] in cards;
    }
    SortedInTime(meta, sorted);
  }

  lemma SortedInTime(meta: map<nat, Card>, sorted: seq<Card>)
    requires SortedBy(sorted, Before) && DistinctIds(sorted)
    requires forall i :: 0 <= i < |sorted| ==> sorted[i] == CardOf(meta, sorted[i].id)
    ensures InTime(meta, Ids(sorted))
  {
    forall i, j | 0 <= i < j < |sorted| ensures Sooner(meta, sorted[i].id, sorted[j].id) {
      assert !Before(sorted[j], sorted[i]) && sorted[i].id != sorted[j].id;
    }
  }

  lemma {:induction false} PlantedInTime(adj: Adjacency, meta: map<nat, Card>, all: set<nat>, visited: set<nat>, ids: seq<nat>)
    requires Closed(adj, all) && Elements(ids) <= visited <= all && NoRepeat(ids)
    ensures ChildrenInTime(meta, Plant(adj, meta, all, visited, ids).forest)
    decreases |all - visited|, |ids|
  {
    hide Claim, Plant, NoRepeat, Closed, InTime;
    if ids == [] {
      NothingPlanted(adj, meta, all, visited);
    } else {
      var id, others := ids[0], ids[1..];
      assert ids == [id] + others;
      assert id in Elements(ids) && Elements(others) <= visited;
      OthersStayApart(id, others);
      PlantUnfolds(adj, meta, all, visited, ids);
      ClaimStaysWithin(adj, meta, all, visited, id);
      ClaimInTime(adj, meta, visited, id);
      var claim := Claim(adj, meta, visited, id);
      var claimed := visited + Elements(claim);
      var below := Plant(adj, meta, all, claimed, claim);
      if claim != [] {
        PlantIsExact(adj, meta, all, claimed, claim);
        PlantedInTime(adj, meta, all, claimed, claim);
      } else {
        NothingPlanted(adj, meta, all, claimed);
      }
      Smaller(all, visited, below.visited);
      PlantedInTime(adj, meta, all, below.visited, others);
    }
  }

  lemma {:induction false} JoinInTime(meta: map<nat, Card>, f: Forest, g: Forest)
    requires ChildrenInTime(meta, f) && ChildrenInTime(meta, g)
    ensures ChildrenInTime(meta, Join(f, g))
  {
    if f.Grow? {
      JoinInTime(meta, f.rest, g);
    }
  }

  lemma {:induction false} RunInTime(adj: Adjacency, meta: map<nat, Card>, all: set<nat>, visited: set<nat>, ids: seq<nat>)
    requires Closed(adj, all) && visited <= all && Elements(ids) <= all
    ensures ChildrenInTime(meta, Run(adj, meta, all, visited, ids).forest)
  {
    if ids != [] {
      hide Plant, Closed, RunExact, NoRepeat;
      var n := |ids| - 1;
      assert ids == ids[..n] + [ids[n]] && ids[n] in Elements(ids) && Elements(ids[..n]) <= Elements(ids);
      RunInTime(adj, meta, all, visited, ids[..n]);
      RunIsExact(adj, meta, all, visited, ids[..n]);
      var r := Run(adj, meta, all, visited, ids[..n]);
      if ids[n] !in r.visited {
        RunWithin(r, all, visited, ids[..n]);
        TreeInTime(adj, meta, all, r.visited, ids[n]);
        JoinInTime(meta, r.forest, Plant(adj, meta, all, r.visited + {ids[n]}, [ids[n]]).forest);
      }
    }
  }

  lemma TreeInTime(adj: Adjacency, meta: map<nat, Card>, all: set<nat>, visited: set<nat>, id: nat)
    requires Closed(adj, all) && visited <= all && id in all && id !in visited
    ensures ChildrenInTime(meta, Plant(adj, meta, all, visited + {id}, [id]).forest)
  {
    assert Elements([id]) == {id};
    PlantedInTime(adj, meta, all, visited + {id}, [id]);
  }

  /** Children of one node stand as time and id say. */
  lemma {:induction false} BrothersIff(meta: map<nat, Card>, f: Forest, p: nat, x: nat, y: nat)
    requires ChildrenInTime(meta, f) && NoRepeat(Nodes(f))
    ensures Brothers(f, p, x, y) <==> ChildOf(f, p, x) && ChildOf(f, p, y) && Sooner(meta, x, y)
  {
    if f.Grow? {
      PartsNoRepeat(f);
      hide NoRepeat, Ordered;
      BrothersIff(meta, f.kids, p, x, y);
      BrothersIff(meta, f.rest, p, x, y);
      ParentIsNode(f.kids, p);
      ParentIsNode(f.rest, p);
      InTimeIff(meta, Roots(f.kids), x, y);
    }
  }

  lemma {:induction false} ParentIsNode(f: Forest, p: nat)
    ensures p !in Nodes(f) ==> forall c :: !ChildOf(f, p, c)
    ensures p !in Nodes(f) ==> forall x, y :: !Brothers(f, p, x, y)
  {
    if f.Grow? {
      ParentIsNode(f.kids, p);
      ParentIsNode(f.rest, p);
    }
  }

  lemma InTimeIff(meta: map<nat, Card>, s: seq<nat>, x: nat, y: nat)
    requires InTime(meta, s)
    ensures Ordered(s, x, y) <==> x in s && y in s && Sooner(meta, x, y)
  {
    if x in s && y in s && Sooner(meta, x, y) {
      var i :| 0 <= i < |s| && s[i] == x;
      var j :| 0 <= j < |s| && s[j] == y;
      assert j < i ==> Sooner(meta, y, x);
    }
  }

  /** Which of two roots comes first: sources before forced ones, sources by time, forced ones by id. */
  ghost predicate RootSooner(meta: map<nat, Card>, edges: set<Edge>, x: nat, y: nat) {
    if Preds(edges, x) == {} then Preds(edges, y) != {} || Sooner(meta, x, y) else Preds(edges, y) != {} && x < y
  }

  lemma {:induction false} RootsAscend(adj: Adjacency, meta: map<nat, Card>, all: set<nat>, visited: set<nat>, ids: seq<nat>)
    requires Closed(adj, all) && visited <= all && Elements(ids) <= all && Ascending(ids)
    ensures Ascending(Roots(Run(adj, meta, all, visited, ids).forest))
  {
    if ids != [] {
      hide Plant, Closed, NoRepeat, RunExact;
      var n := |ids| - 1;
      assert ids == ids[..n] + [ids[n]] && ids[n] in Elements(ids) && Elements(ids[..n]) <= Elements(ids);
      RootsAscend(adj, meta, all, visited, ids[..n]);
      RunRoots(adj, meta, all, visited, ids[..n]);
      RunIsExact(adj, meta, all, visited, ids[..n]);
      var r := Run(adj, meta, all, visited, ids[..n]);
      if ids[n] !in r.visited {
        RunWithin(r, all, visited, ids[..n]);
        RootPlanted(adj, meta, all, r.visited, ids[n]);
        JoinShape(r.forest, Plant(adj, meta, all, r.visited + {ids[n]}, [ids[n]]).forest);
        OneMore(Roots(r.forest), ids[..n], ids[n]);
      }
    }
  }

  lemma OneMore(s: seq<nat>, ids: seq<nat>, id: nat)
    requires Ascending(s) && Elements(s) <= Elements(ids) && Ascending(ids + [id])
    ensures Ascending(s + [id])
  {
    forall i | 0 <= i < |s| ensures s[i] < id {
      assert s[i] in Elements(s);
      var j :| 0 <= j < |ids| && ids[j] == s[i];
      assert (ids + [id])[j] < (ids + [id])[|ids|];
    }
  }

  lemma AscendingIff(s: seq<nat>, x: nat, y: nat)
    requires Ascending(s)
    ensures Ordered(s, x, y) <==> x in s && y in s && x < y
  {
    if x in s && y in s && x < y {
      var i :| 0 <= i < |s| && s[i] == x;
      var j :| 0 <= j < |s| && s[j] == y;
      assert j < i ==> y < x;
    }
  }

  lemma {:induction false} Indexed(cards: seq<Card>, i: nat)
    requires DistinctIds(cards) && i < |cards|
    ensures CardOf(IndexById(cards), cards[i].id) == cards[i]
  {
    var n := |cards| - 1;
    if i < n {
      Indexed(cards[..n], i);
    }
  }

  lemma SourcesInTime(cards: seq<Card>, edges: set<Edge>)
    requires Ascending(Ids(cards))
    ensures InTime(IndexById(cards), Ids(SortBy(SourceCards(cards, edges), Before)))
  {
    AscendingIsDistinct(cards);
    SourcesAreDistinct(cards, edges);
    SourcesAreCards(cards, edges);
    var sorted := SortedCards(SourceCards(cards, edges));
    hide IndexById, CardOf;
    forall i | 0 <= i < |sorted| ensures sorted[i] == CardOf(IndexById(cards), sorted[i].id) {
      assert sorted[i] in cards;
      var k :| 0 <= k < |cards| && cards[k] == sorted[i];
      Indexed(cards, k);
    }
    SortedInTime(IndexById(cards), sorted);
  }

  /** The roots of a layout: the sources, and then nodes that are none, by id. */
  lemma LayoutRoots(cards: seq<Card>, edges: set<Edge>, opts: Options, adj: Adjacency, forest: Forest,
                    positions: Positions, forced: nat) returns (sources: seq<nat>, others: seq<nat>)
    requires IsLineage(cards, edges, opts, adj, forest, positions, forced) && Ascending(Ids(cards))
    ensures Roots(forest) == sources + others && InTime(IndexById(cards), sources) && Ascending(others)
    ensures forall n :: n in sources ==> Preds(edges, n) == {}
    ensures forall n :: n in others ==> Preds(edges, n) != {}
    ensures ChildrenInTime(IndexById(cards), forest)
  {
    var all, meta := Present(Ids(cards)), IndexById(cards);
    sources := Ids(SortBy(SourceCards(cards, edges), Before));
    var first := Run(adj, meta, all, {}, sources);
    var second := Run(adj, meta, all, first.visited, Ids(cards));
    others := Roots(second.forest);
    assert forest == Join(first.forest, second.forest) && Closed(adj, all) && ListsSuccs(adj, edges);
    SortedSources(cards, edges);
    SourcesInTime(cards, edges);
    assert Elements(sources) <= all && Elements(Ids(cards)) <= all;
    hide IsLineage, Run, Closed, SortBy, SourceCards, IndexById, Present;
    assert Unled(adj, sources) && NoRepeat(sources) by {
      UnledIfNoPreds(adj, edges, sources);
      InTimeIsDistinct(meta, sources);
    }
    hide Unled, NoRepeat, InTime, ListsSuccs;
    SourcesAreRoots(adj, meta, all, sources);
    RunIsExact(adj, meta, all, {}, sources);
    RootsAscend(adj, meta, all, first.visited, Ids(cards));
    RunInTime(adj, meta, all, {}, sources);
    RunInTime(adj, meta, all, first.visited, Ids(cards));
    JoinInTime(meta, first.forest, second.forest);
    JoinShape(first.forest, second.forest);
    OthersAreForced(adj, meta, all, first.visited, Ids(cards), sources, edges);
  }

  lemma UnledIfNoPreds(adj: Adjacency, edges: set<Edge>, sources: seq<nat>)
    requires ListsSuccs(adj, edges) && forall n :: n in sources ==> Preds(edges, n) == {}
    ensures Unled(adj, sources)
  {
    forall id, u: nat | id in sources ensures id !in Neighbours(adj, u) {
      LeadsTo(adj, edges, id);
    }
  }

  lemma InTimeIsDistinct(meta: map<nat, Card>, s: seq<nat>)
    requires InTime(meta, s)
    ensures NoRepeat(s)
  {
    forall i, j | 0 <= i < j < |s| ensures s[i] != s[j] {
      assert Sooner(meta, s[i], s[j]);
    }
  }

  lemma OthersAreForced(adj: Adjacency, meta: map<nat, Card>, all: set<nat>, visited: set<nat>, ids: seq<nat>,
                        sources: seq<nat>, edges: set<Edge>)
    requires Closed(adj, all) && Elements(sources) <= visited <= all && Elements(ids) <= all
    requires forall n: nat :: n in sources <==> n in ids && Preds(edges, n) == {}
    ensures forall n :: n in Roots(Run(adj, meta, all, visited, ids).forest) ==> Preds(edges, n) != {}
  {
    var r := Run(adj, meta, all, visited, ids);
    RunRoots(adj, meta, all, visited, ids);
    RunIsExact(adj, meta, all, visited, ids);
    RootsAreNodes(r.forest);
    hide Run, Closed;
    forall n | n in Roots(r.forest) ensures Preds(edges, n) != {} {
      assert n in Elements(Roots(r.forest)) && n in Elements(Nodes(r.forest));
      assert n in ids && n !in Elements(sources);
    }
  }

  /** x comes before y as roots or as children of one node do. */
  ghost predicate Stands(meta: map<nat, Card>, edges: set<Edge>, f: Forest, x: nat, y: nat) {
    || (x in Roots(f) && y in Roots(f) && RootSooner(meta, edges, x, y))
    || exists p :: ChildOf(f, p, x) && ChildOf(f, p, y) && Sooner(meta, x, y)
  }

  lemma ElderIff(cards: seq<Card>, edges: set<Edge>, opts: Options, adj: Adjacency, forest: Forest,
                 positions: Positions, forced: nat, x: nat, y: nat)
    requires IsLineage(cards, edges, opts, adj, forest, positions, forced) && Ascending(Ids(cards))
    ensures NoRepeat(Nodes(forest))
    ensures Elder(forest, x, y) <==> Stands(IndexById(cards), edges, forest, x, y)
  {
    var meta := IndexById(cards);
    LineageShape(cards, edges, opts, adj, forest, positions, forced);
    var sources, others := LayoutRoots(cards, edges, opts, adj, forest, positions, forced);
    hide IsLineage, IndexById, FirstClaims, Closes, Ordered, InTime, Sooner, NoRepeat, Preds;
    OrderedInBoth(sources, others, x, y);
    InTimeIff(meta, sources, x, y);
    AscendingIff(others, x, y);
    forall p ensures Brothers(forest, p, x, y) <==> ChildOf(forest, p, x) && ChildOf(forest, p, y) && Sooner(meta, x, y) {
      BrothersIff(meta, forest, p, x, y);
    }
  }

  /** a is placed before b, told by parents, times and ids alone: b hangs below a, or they hang under two roots or two
      children of one node, and that of a comes first. */
  ghost predicate Precedes(meta: map<nat, Card>, edges: set<Edge>, f: Forest, a: nat, b: nat) {
    Above(f, a, b) || exists x, y :: Stands(meta, edges, f, x, y) && Holds(f, x, a) && Holds(f, y, b)
  }

  lemma PrecedesIff(cards: seq<Card>, edges: set<Edge>, opts: Options, adj: Adjacency, forest: Forest,
                    positions: Positions, forced: nat, a: nat, b: nat)
    requires IsLineage(cards, edges, opts, adj, forest, positions, forced) && Ascending(Ids(cards))
    ensures DrawnBefore(forest, a, b) <==> Precedes(IndexById(cards), edges, forest, a, b)
  {
    hide IsLineage, IndexById, NoRepeat, DrawnBefore, Elder, Stands, Above, Holds;
    forall x, y ensures Elder(forest, x, y) <==> Stands(IndexById(cards), edges, forest, x, y) {
      ElderIff(cards, edges, opts, adj, forest, positions, forced, x, y);
    }
    ElderIff(cards, edges, opts, adj, forest, positions, forced, a, b);
    PlacedBeforeIff(forest, a, b);
  }

  /** So a node hangs under the one of its predecessors that precedes it and all the others. */
  lemma HangsUnderFirstOf(cards: seq<Card>, edges: set<Edge>, opts: Options, adj: Adjacency, forest: Forest,
                          positions: Positions, forced: nat, p: nat, c: nat)
    requires IsLineage(cards, edges, opts, adj, forest, positions, forced) && Between(edges, cards) && Ascending(Ids(cards))
    ensures var meta := IndexById(cards);
            ChildOf(forest, p, c) <==>
            && p in Preds(edges, c) && Precedes(meta, edges, forest, p, c)
            && forall q :: q in Preds(edges, c) && q != p ==> Precedes(meta, edges, forest, p, q)
  {
    hide IsLineage, IndexById, DrawnBefore, Precedes, Between, Ascending, ChildOf;
    forall q ensures DrawnBefore(forest, p, q) <==> Precedes(IndexById(cards), edges, forest, p, q) {
      PrecedesIff(cards, edges, opts, adj, forest, positions, forced, p, q);
    }
    HangsUnderIff(cards, edges, opts, adj, forest, positions, forced, p, c);
  }

  // ---- Where a parent stands -----------------------------------------------------------------------------

  lemma {:induction false} RootLevel(f: Forest, depth: nat, r: nat)
    requires r in Roots(f)
    ensures AtLevel(f, depth, r, depth)
  {
    if r != f.root {
      RootLevel(f.rest, depth, r);
    }
  }

  /** The roots stand between the first and the last of them. */
  lemma {:induction false} RootsBetween(f: Forest, depth: nat, left: real, opts: Options, pos: Positions, r: nat)
    requires LaidOut(f, depth, left, opts, pos) && r in Roots(f)
    ensures f.root in pos && r in pos && LastRoot(f) in pos
    ensures pos[f.root].x <= pos[r].x <= pos[LastRoot(f)].x
  {
    var first, mid := Grow(f.root, f.kids, Nil), TreeEnd(f, left, opts.GapX());
    assert LaidOut(Nil, depth, mid, opts, pos) && After(Nil, mid, opts.GapX()) == mid;
    assert LaidOut(first, depth, left, opts, pos) && After(first, left, opts.GapX()) == mid;
    StaysInColumns(first, depth, left, opts, pos, f.root, depth);
    if f.rest.Grow? {
      var next := if r == f.root then f.rest.root else r;
      RootsBetween(f.rest, depth, mid, opts, pos, next);
      RootLevel(f.rest, depth, next);
      StaysInColumns(f.rest, depth, mid, opts, pos, next, depth);
    }
  }

  /** A parent stands midway between its first and its last child, with all its children from the one to the other, one
      row below. */
  lemma {:induction false} ParentIsMidway(f: Forest, depth: nat, left: real, opts: Options, pos: Positions, p: nat, c: nat)
    returns (first: nat, last: nat)
    requires LaidOut(f, depth, left, opts, pos) && NoRepeat(Nodes(f)) && ChildOf(f, p, c)
    ensures ChildOf(f, p, first) && ChildOf(f, p, last) && first in pos && last in pos && p in pos
    ensures 2.0 * pos[p].x == pos[first].x + pos[last].x
    ensures forall d :: ChildOf(f, p, d) ==>
              d in pos && pos[first].x <= pos[d].x <= pos[last].x && pos[d].y == pos[p].y + opts.GapY()
  {
    PartsNoRepeat(f);
    ParentIsNode(f.kids, p);
    ParentIsNode(f.rest, p);
    if p == f.root {
      first, last := f.kids.root, LastRoot(f.kids);
      LastRootListed(f.kids);
      hide NoRepeat;
      forall d | d in Roots(f.kids)
        ensures d in pos && pos[first].x <= pos[d].x <= pos[last].x && pos[d].y == pos[p].y + opts.GapY()
      {
        RootsBetween(f.kids, depth + 1, left, opts, pos, d);
        RootLevel(f.kids, depth + 1, d);
        StaysInColumns(f.kids, depth + 1, left, opts, pos, d, depth + 1);
        NextRow(depth, opts.GapY());
      }
    } else if ChildOf(f.kids, p, c) {
      hide NoRepeat, Centred;
      InOnePart(f, p);
      first, last := ParentIsMidway(f.kids, depth + 1, left, opts, pos, p, c);
    } else {
      hide NoRepeat, Centred;
      InOnePart(f, p);
      first, last := ParentIsMidway(f.rest, depth, TreeEnd(f, left, opts.GapX()), opts, pos, p, c);
    }
  }

  /** Only one part of a forest has children of p. */
  lemma InOnePart(f: Forest, p: nat)
    requires f.Grow? && NoRepeat(Nodes(f)) && p != f.root
    ensures (exists c :: ChildOf(f.kids, p, c)) ==> forall c :: ChildOf(f, p, c) <==> ChildOf(f.kids, p, c)
    ensures (exists c :: ChildOf(f.rest, p, c)) ==> forall c :: ChildOf(f, p, c) <==> ChildOf(f.rest, p, c)
  {
    PartsNoRepeat(f);
    ParentIsNode(f.kids, p);
    ParentIsNode(f.rest, p);
  }

  lemma {:induction false} LastRootListed(f: Forest)
    requires f.Grow?
    ensures LastRoot(f) in Roots(f)
  {
    if f.rest.Grow? {
      LastRootListed(f.rest);
    }
  }
}
