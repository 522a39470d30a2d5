/** The lineage layout: which node hangs under which, where each one is drawn, and why every node is drawn once. */
module TidyForest {
  import opened Cards
  import opened GraphEdges
  import opened Sorting

  /** An ordered forest: a first tree and the trees after it. */
  datatype Forest = Nil | Grow(root: nat, kids: Forest, rest: Forest)

  // ---- Shape -------------------------------------------------------------------------------------

  /** Every node in pre-order, tree after tree. */
  function Nodes(f: Forest): seq<nat> {
    match f
    case Nil => []
    case Grow(root, kids, rest) => [root] + Nodes(kids) + Nodes(rest)
  }

  function Roots(f: Forest): seq<nat> {
    match f
    case Nil => []
    case Grow(root, _, rest) => [root] + Roots(rest)
  }

  function Join(f: Forest, g: Forest): Forest {
    match f
    case Nil => g
    case Grow(root, kids, rest) => Grow(root, kids, Join(rest, g))
  }

  lemma {:induction false} JoinShape(f: Forest, g: Forest)
    ensures Nodes(Join(f, g)) == Nodes(f) + Nodes(g)
    ensures Roots(Join(f, g)) == Roots(f) + Roots(g)
  {
    if f.Grow? {
      JoinShape(f.rest, g);
    }
  }

  lemma {:induction false} JoinNil(f: Forest)
    ensures Join(f, Nil) == f
  {
    if f.Grow? {
      JoinNil(f.rest);
    }
  }

  lemma {:induction false} JoinAssociates(f: Forest, g: Forest, h: Forest)
    ensures Join(Join(f, g), h) == Join(f, Join(g, h))
  {
    if f.Grow? {
      JoinAssociates(f.rest, g, h);
    }
  }

  lemma {:induction false} RootsAreNodes(f: Forest)
    ensures Elements(Roots(f)) <= Elements(Nodes(f))
  {
    if f.Grow? {
      RootsAreNodes(f.rest);
      assert forall x :: x in Roots(f) ==> x == f.root || x in Elements(Roots(f.rest));
    }
  }

  // ---- Claiming children ---------------------------------------------------------------------------

  function CardOf(meta: map<nat, Card>, id: nat): (c: Card)
    ensures c.id == id
  {
    if id in meta then meta[id].(id := id) else Card(id, 0, false)
  }

  /** The listed nodes that are still unclaimed, each once. */
  function Fresh(listed: seq<nat>, visited: set<nat>): seq<nat> {
    if listed == [] then []
    else
      var last, before := listed[|listed| - 1], Fresh(listed[..|listed| - 1], visited);
      if last in visited || last in before then before else before + [last]
  }

  function CardsOf(meta: map<nat, Card>, ids: seq<nat>): (r: seq<Card>)
    ensures |r| == |ids| && forall i :: 0 <= i < |r| ==> r[i] == CardOf(meta, ids[i])
  {
    seq(|ids|, i requires 0 <= i < |ids| => CardOf(meta, ids[i]))
  }

  /** The children a node claims, in the order they are placed. */
  function Claim(adj: Adjacency, meta: map<nat, Card>, visited: set<nat>, id: nat): seq<nat> {
    Ids(SortBy(CardsOf(meta, Fresh(Neighbours(adj, id), visited)), Before))
  }

  ghost predicate NoRepeat(s: seq<nat>) {
    forall i, j :: 0 <= i < j < |s| ==> s[i] != s[j]
  }

  lemma {:induction false} FreshIsExact(listed: seq<nat>, visited: set<nat>)
    ensures NoRepeat(Fresh(listed, visited)) && Elements(Fresh(listed, visited)) == Elements(listed) - visited
  {
    if listed != [] {
      FreshIsExact(listed[..|listed| - 1], visited);
      assert listed == listed[..|listed| - 1] + [listed[|listed| - 1]];
      var before := Fresh(listed[..|listed| - 1], visited);
      assert forall x :: x in before <==> x in Elements(before);
    }
  }

  lemma ClaimIsExact(adj: Adjacency, meta: map<nat, Card>, visited: set<nat>, id: nat)
    ensures NoRepeat(Claim(adj, meta, visited, id))
    ensures Elements(Claim(adj, meta, visited, id)) == Elements(Neighbours(adj, id)) - visited
  {
    var free := Fresh(Neighbours(adj, id), visited);
    var cards := CardsOf(meta, free);
    FreshIsExact(Neighbours(adj, id), visited);
    assert DistinctIds(cards);
    var sorted := SortedCards(cards);
    var claim := Ids(sorted);
    forall x ensures x in claim <==> x in free {
      if x in free {
        var i :| 0 <= i < |free| && free[i] == x;
        assert cards[i] in sorted;
        var j :| 0 <= j < |sorted| && sorted[j] == cards[i];
        assert claim[j] == x;
      }
      if x in claim {
        var j :| 0 <= j < |claim| && claim[j] == x;
        assert sorted[j] in cards;
      }
    }
    assert forall x :: x in free <==> x in Elements(free);
  }

  // ---- Planting ------------------------------------------------------------------------------------

  ghost predicate Closed(adj: Adjacency, all: set<nat>) {
    forall u :: Elements(Neighbours(adj, u)) <= all
  }

  datatype Planted = Planted(forest: Forest, visited: set<nat>)

  /** Places the given nodes one after the other, each with everything it can still claim. */
  ghost function Plant(adj: Adjacency, meta: map<nat, Card>, all: set<nat>, visited: set<nat>, ids: seq<nat>): (r: Planted)
    requires Closed(adj, all)
    ensures visited <= r.visited
    decreases |all - visited|, |ids|
  {
    if ids == [] then Planted(Nil, visited)
    else
      var claim := Claim(adj, meta, visited + {ids[0]}, ids[0]);
      ClaimShrinks(adj, meta, all, visited, ids[0]);
      var below := Plant(adj, meta, all, visited + {ids[0]} + Elements(claim), claim);
      Smaller(all, visited, below.visited);
      var after := Plant(adj, meta, all, below.visited, ids[1..]);
      Planted(Grow(ids[0], below.forest, after.forest), after.visited)
  }

  lemma Smaller(all: set<nat>, less: set<nat>, more: set<nat>)
    requires less <= more
    ensures |all - more| <= |all - less|
  {
    SubsetSize(all - more, all - less);
  }

  lemma ClaimShrinks(adj: Adjacency, meta: map<nat, Card>, all: set<nat>, visited: set<nat>, id: nat)
    requires Closed(adj, all)
    ensures var claim := Claim(adj, meta, visited + {id}, id);
            var after := visited + {id} + Elements(claim);
            |all - after| < |all - visited| || (|all - after| == |all - visited| && claim == [])
  {
    var claim := Claim(adj, meta, visited + {id}, id);
    var after := visited + {id} + Elements(claim);
    ClaimIsExact(adj, meta, visited + {id}, id);
    SubsetSize(all - after, all - visited);
    if claim != [] {
      assert claim[0] in Elements(claim);
      assert claim[0] in all - visited && claim[0] !in all - after;
    }
  }

  lemma NoRepeatJoin(s: seq<nat>, t: seq<nat>)
    requires NoRepeat(s) && NoRepeat(t) && Elements(s) !! Elements(t)
    ensures NoRepeat(s + t) && Elements(s + t) == Elements(s) + Elements(t)
  {
    forall i, j | 0 <= i < |s| && 0 <= j < |t| ensures s[i] != t[j] {
      assert s[i] in Elements(s) && t[j] in Elements(t);
    }
  }

  lemma GrowIsExact(id: nat, claim: seq<nat>, others: seq<nat>, below: seq<nat>, after: seq<nat>,
                    visited: set<nat>, v1: set<nat>, v2: set<nat>)
    requires id in visited && id !in others && Elements(others) <= visited && Elements(claim) !! visited
    requires visited + Elements(claim) <= v1 <= v2
    requires NoRepeat(below) && Elements(below) == Elements(claim) + (v1 - (visited + Elements(claim)))
    requires NoRepeat(after) && Elements(after) == Elements(others) + (v2 - v1)
    ensures NoRepeat([id] + below + after)
    ensures Elements([id] + below + after) == Elements([id] + others) + (v2 - visited)
  {
    NoRepeatJoin([id], below);
    NoRepeatJoin([id] + below, after);
    assert Elements([id] + others) == {id} + Elements(others);
    assert Elements(below) == v1 - visited;
  }

  /** Planting a claimed node: its children are planted below it, then the nodes after it. */
  lemma PlantUnfolds(adj: Adjacency, meta: map<nat, Card>, all: set<nat>, visited: set<nat>, ids: seq<nat>)
    requires Closed(adj, all) && ids != [] && ids[0] in visited
    ensures var claim := Claim(adj, meta, visited, ids[0]);
            var below := Plant(adj, meta, all, visited + Elements(claim), claim);
            var after := Plant(adj, meta, all, below.visited, ids[1..]);
            Plant(adj, meta, all, visited, ids) == Planted(Grow(ids[0], below.forest, after.forest), after.visited)
  {
    assert visited + {ids[0]} == visited;
  }

  lemma ClaimStaysWithin(adj: Adjacency, meta: map<nat, Card>, all: set<nat>, visited: set<nat>, id: nat)
    requires Closed(adj, all) && visited <= all && id in visited
    ensures var claim := Claim(adj, meta, visited, id);
            && NoRepeat(claim) && Elements(claim) !! visited && visited + Elements(claim) <= all
            && (|all - (visited + Elements(claim))| < |all - visited| || claim == [])
  {
    ClaimIsExact(adj, meta, visited, id);
    assert visited + {id} == visited;
    ClaimShrinks(adj, meta, all, visited, id);
    assert Elements(Neighbours(adj, id)) <= all;
  }

  /** Planting claimed nodes places each of them, and each node it newly visits, exactly once. */
  lemma {:induction false} PlantIsExact(adj: Adjacency, meta: map<nat, Card>, all: set<nat>, visited: set<nat>, ids: seq<nat>)
    requires Closed(adj, all) && Elements(ids) <= visited <= all && NoRepeat(ids)
    ensures var r := Plant(adj, meta, all, visited, ids);
            && r.visited <= all && Roots(r.forest) == ids
            && NoRepeat(Nodes(r.forest)) && Elements(Nodes(r.forest)) == Elements(ids) + (r.visited - visited)
    decreases |all - visited|, |ids|
  {
    hide Claim, Plant, NoRepeat, Closed;
    if ids == [] {
      NothingPlanted(adj, meta, all, visited);
    } else {
      var id, others := ids[0], ids[1..];
      assert ids == [id] + others;
      assert id in Elements(ids) && Elements(others) <= visited;
      OthersStayApart(id, others);
      PlantUnfolds(adj, meta, all, visited, ids);
      ClaimStaysWithin(adj, meta, all, visited, id);
      var claim := Claim(adj, meta, visited, id);
      var claimed := visited + Elements(claim);
      var below := Plant(adj, meta, all, claimed, claim);
      var after := Plant(adj, meta, all, below.visited, others);
      if claim != [] {
        PlantIsExact(adj, meta, all, claimed, claim);
      } else {
        NothingPlanted(adj, meta, all, claimed);
      }
      Smaller(all, visited, below.visited);
      PlantIsExact(adj, meta, all, below.visited, others);
      GrowIsExact(id, claim, others, Nodes(below.forest), Nodes(after.forest), visited, below.visited, after.visited);
    }
  }

  lemma NothingPlanted(adj: Adjacency, meta: map<nat, Card>, all: set<nat>, visited: set<nat>)
    requires Closed(adj, all)
    ensures Plant(adj, meta, all, visited, []) == Planted(Nil, visited) && NoRepeat([])
  {
  }

  lemma OthersStayApart(id: nat, others: seq<nat>)
    requires NoRepeat([id] + others)
    ensures NoRepeat(others) && id !in others
  {
    var ids := [id] + others;
    assert forall i :: 0 <= i < |others| ==> others[i] == ids[i + 1];
    assert ids[0] == id;
    forall i | 0 <= i < |others| ensures others[i] != id {
      assert ids[i + 1] != ids[0];
    }
  }

  lemma {:induction false} PlantAppend(adj: Adjacency, meta: map<nat, Card>, all: set<nat>, visited: set<nat>,
                                       a: seq<nat>, b: seq<nat>)
    requires Closed(adj, all)
    ensures var r := Plant(adj, meta, all, visited, a); var q := Plant(adj, meta, all, r.visited, b);
            Plant(adj, meta, all, visited, a + b) == Planted(Join(r.forest, q.forest), q.visited)
    decreases |a|
  {
    if a == [] {
      assert a + b == b;
    } else {
      assert (a + b)[0] == a[0] && (a + b)[1..] == a[1..] + b;
      var claim := Claim(adj, meta, visited + {a[0]}, a[0]);
      ClaimShrinks(adj, meta, all, visited, a[0]);
      var below := Plant(adj, meta, all, visited + {a[0]} + Elements(claim), claim);
      PlantAppend(adj, meta, all, below.visited, a[1..], b);
    }
  }

  // ---- Who hangs under whom ------------------------------------------------------------------------

  /** Nothing a settled node leads to is still unclaimed. */
  ghost predicate Settled(adj: Adjacency, placed: set<nat>, visited: set<nat>) {
    forall q :: q in placed ==> Elements(Neighbours(adj, q)) <= visited
  }

  /** No node of `placed` leads to any of `ids`. */
  ghost predicate NewTo(adj: Adjacency, placed: set<nat>, ids: set<nat>) {
    forall q :: q in placed ==> Elements(Neighbours(adj, q)) !! ids
  }

  /** Each child is a successor of its parent, and of nothing placed before its parent. */
  ghost predicate FirstClaims(adj: Adjacency, f: Forest, before: set<nat>) {
    match f
    case Nil => true
    case Grow(root, kids, rest) =>
      && Elements(Roots(kids)) <= Elements(Neighbours(adj, root)) && NewTo(adj, before, Elements(Roots(kids)))
      && FirstClaims(adj, kids, before + {root})
      && FirstClaims(adj, rest, before + {root} + Elements(Nodes(kids)))
  }

  lemma Settles(adj: Adjacency, meta: map<nat, Card>, visited: set<nat>, id: nat, placed: set<nat>)
    requires Settled(adj, placed, visited) && id in visited
    ensures var claim := Claim(adj, meta, visited, id);
            && Settled(adj, placed + {id}, visited + Elements(claim))
            && NewTo(adj, placed, Elements(claim)) && Elements(claim) <= Elements(Neighbours(adj, id))
  {
    ClaimIsExact(adj, meta, visited, id);
  }

  lemma GrowClaimsFirst(adj: Adjacency, id: nat, claim: seq<nat>, below: Forest, after: Forest, placed: set<nat>)
    requires NewTo(adj, placed, Elements(claim)) && Elements(claim) <= Elements(Neighbours(adj, id))
    requires Roots(below) == claim && FirstClaims(adj, below, placed + {id})
    requires FirstClaims(adj, after, placed + {id} + Elements(Nodes(below)))
    ensures FirstClaims(adj, Grow(id, below, after), placed)
    ensures placed + {id} + Elements(Nodes(below)) + Elements(Nodes(after)) ==
            placed + Elements(Nodes(Grow(id, below, after)))
  {
    hide NewTo;
    assert Nodes(Grow(id, below, after)) == [id] + Nodes(below) + Nodes(after);
    ElementsOfThree([id], Nodes(below), Nodes(after));
    assert Elements([id]) == {id};
  }

  lemma ElementsOfThree(a: seq<nat>, b: seq<nat>, c: seq<nat>)
    ensures Elements(a + b + c) == Elements(a) + Elements(b) + Elements(c)
  {
  }

  lemma {:induction false} PlantClaimsFirst(adj: Adjacency, meta: map<nat, Card>, all: set<nat>, visited: set<nat>,
                                            ids: seq<nat>, placed: set<nat>)
    requires Closed(adj, all) && Elements(ids) <= visited <= all && NoRepeat(ids) && Settled(adj, placed, visited)
    ensures var r := Plant(adj, meta, all, visited, ids);
            FirstClaims(adj, r.forest, placed) && Settled(adj, placed + Elements(Nodes(r.forest)), r.visited)
    decreases |all - visited|, |ids|
  {
    hide *;
    if ids == [] {
      NothingClaimed(adj, meta, all, visited, placed);
    } else {
      var id, others := ids[0], ids[1..];
      assert ids == [id] + others;
      Heads(id, others, visited);
      OthersStayApart(id, others);
      PlantUnfolds(adj, meta, all, visited, ids);
      ClaimStaysWithin(adj, meta, all, visited, id);
      Settles(adj, meta, visited, id, placed);
      var claim := Claim(adj, meta, visited, id);
      var claimed := visited + Elements(claim);
      var below := Plant(adj, meta, all, claimed, claim);
      if claim != [] {
        PlantClaimsFirst(adj, meta, all, claimed, claim, placed + {id});
      } else {
        NothingClaimed(adj, meta, all, claimed, placed + {id});
      }
      PlantIsExact(adj, meta, all, claimed, claim);
      Smaller(all, visited, below.visited);
      PlantClaimsFirst(adj, meta, all, below.visited, others, placed + {id} + Elements(Nodes(below.forest)));
      GrowClaimsFirst(adj, id, claim, below.forest, Plant(adj, meta, all, below.visited, others).forest, placed);
    }
  }

  lemma Heads(id: nat, others: seq<nat>, s: set<nat>)
    requires Elements([id] + others) <= s
    ensures id in s && Elements(others) <= s
  {
  }

  lemma NothingClaimed(adj: Adjacency, meta: map<nat, Card>, all: set<nat>, visited: set<nat>, placed: set<nat>)
    requires Closed(adj, all) && Settled(adj, placed, visited)
    ensures var r := Plant(adj, meta, all, visited, []);
            FirstClaims(adj, r.forest, placed) && Settled(adj, placed + Elements(Nodes(r.forest)), r.visited)
  {
  }

  ghost predicate ChildOf(f: Forest, parent: nat, child: nat) {
    match f
    case Nil => false
    case Grow(root, kids, rest) =>
      (root == parent && child in Roots(kids)) || ChildOf(kids, parent, child) || ChildOf(rest, parent, child)
  }

  /** In placement order, a child's parent is the first of the nodes that lead to it. */
  lemma {:induction false} ParentIsFirst(adj: Adjacency, f: Forest, before: set<nat>, parent: nat, child: nat)
    returns (i: nat)
    requires FirstClaims(adj, f, before) && ChildOf(f, parent, child)
    ensures i < |Nodes(f)| && Nodes(f)[i] == parent && child in Neighbours(adj, parent)
    ensures forall j :: 0 <= j < i ==> child !in Neighbours(adj, Nodes(f)[j])
    ensures forall q :: q in before ==> child !in Neighbours(adj, q)
  {
    var root, kids, rest := f.root, f.kids, f.rest;
    if root == parent && child in Roots(kids) {
      i := 0;
      assert child in Elements(Roots(kids));
    } else if ChildOf(kids, parent, child) {
      i := ParentIsFirst(adj, kids, before + {root}, parent, child);
      i := i + 1;
    } else {
      i := ParentIsFirst(adj, rest, before + {root} + Elements(Nodes(kids)), parent, child);
      i := i + 1 + |Nodes(kids)|;
    }
  }

  // ---- Where nodes are drawn ------------------------------------------------------------------------

  type Positions = map<nat, Point>

  function Row(depth: nat, gapY: real): real {
    depth as real * gapY
  }

  function LastRoot(f: Forest): nat
    requires f.Grow?
  {
    if f.rest.Nil? then f.root else LastRoot(f.rest)
  }

  /** The free column after a forest drawn from column `left` on: one column for each leaf. */
  function After(f: Forest, left: real, gapX: real): real {
    match f
    case Nil => left
    case Grow(_, kids, rest) => After(rest, if kids.Nil? then left + gapX else After(kids, left, gapX), gapX)
  }

  /** The first tree of a forest ends here. */
  function TreeEnd(f: Forest, left: real, gapX: real): real
    requires f.Grow?
  {
    if f.kids.Nil? then left + gapX else After(f.kids, left, gapX)
  }

  /** Where a node goes: a leaf takes the free column, a parent sits midway between its first and last child. */
  ghost predicate Centred(f: Forest, left: real, pos: Positions)
    requires f.Grow?
  {
    && f.root in pos
    && if f.kids.Nil? then pos[f.root].x == left
       else
         && f.kids.root in pos && LastRoot(f.kids) in pos
         && pos[f.root].x == (pos[f.kids.root].x + pos[LastRoot(f.kids)].x) / 2.0
  }

  ghost predicate LaidOut(f: Forest, depth: nat, left: real, opts: Options, pos: Positions) {
    match f
    case Nil => true
    case Grow(root, kids, rest) =>
      && Centred(f, left, pos) && pos[root].y == Row(depth, opts.GapY())
      && LaidOut(kids, depth + 1, left, opts, pos)
      && LaidOut(rest, depth, TreeEnd(f, left, opts.GapX()), opts, pos)
  }

  /** Node n stands at level k of a forest whose roots are at level `depth`. */
  ghost predicate AtLevel(f: Forest, depth: nat, n: nat, k: nat) {
    match f
    case Nil => false
    case Grow(root, kids, rest) => (n == root && k == depth) || AtLevel(kids, depth + 1, n, k) || AtLevel(rest, depth, n, k)
  }

  lemma {:induction false} AfterIsRight(f: Forest, left: real, gapX: real)
    requires gapX > 0.0
    ensures After(f, left, gapX) >= left + if f.Nil? then 0.0 else gapX
  {
    if f.Grow? {
      AfterIsRight(f.kids, left, gapX);
      AfterIsRight(f.rest, TreeEnd(f, left, gapX), gapX);
    }
  }

  /** Everything in a forest is drawn at least one gap before the column after it. */
  lemma {:induction false} StaysInColumns(f: Forest, depth: nat, left: real, opts: Options, pos: Positions, n: nat, k: nat)
    requires LaidOut(f, depth, left, opts, pos) && AtLevel(f, depth, n, k)
    ensures k >= depth && n in pos && pos[n].y == Row(k, opts.GapY())
    ensures left <= pos[n].x <= After(f, left, opts.GapX()) - opts.GapX()
  {
    var gapX := opts.GapX();
    AfterIsRight(f.kids, left, gapX);
    AfterIsRight(f.rest, TreeEnd(f, left, gapX), gapX);
    if n == f.root && k == depth {
      if f.kids.Grow? {
        LastRootLevel(f.kids, depth + 1);
        StaysInColumns(f.kids, depth + 1, left, opts, pos, f.kids.root, depth + 1);
        StaysInColumns(f.kids, depth + 1, left, opts, pos, LastRoot(f.kids), depth + 1);
      }
    } else if AtLevel(f.kids, depth + 1, n, k) {
      StaysInColumns(f.kids, depth + 1, left, opts, pos, n, k);
    } else {
      StaysInColumns(f.rest, depth, TreeEnd(f, left, gapX), opts, pos, n, k);
    }
  }

  lemma {:induction false} LastRootLevel(f: Forest, depth: nat)
    requires f.Grow?
    ensures AtLevel(f, depth, LastRoot(f), depth)
  {
    if f.rest.Grow? {
      LastRootLevel(f.rest, depth);
    }
  }

  ghost predicate Apart(pos: Positions, m: nat, n: nat, gapX: real) {
    m in pos && n in pos && (pos[m].x + gapX <= pos[n].x || pos[n].x + gapX <= pos[m].x)
  }

  lemma {:induction false} LevelBound(f: Forest, depth: nat, n: nat, k: nat)
    ensures AtLevel(f, depth, n, k) ==> k >= depth
  {
    if f.Grow? {
      LevelBound(f.kids, depth + 1, n, k);
      LevelBound(f.rest, depth, n, k);
    }
  }

  /** Two nodes at one level are never drawn closer than one column. */
  lemma {:induction false} LevelsDoNotOverlap(f: Forest, depth: nat, left: real, opts: Options, pos: Positions,
                                              m: nat, n: nat, k: nat)
    requires LaidOut(f, depth, left, opts, pos) && m != n && AtLevel(f, depth, m, k) && AtLevel(f, depth, n, k)
    ensures Apart(pos, m, n, opts.GapX())
  {
    var first := Grow(f.root, f.kids, Nil);
    var inFirst, alsoInFirst := AtLevel(first, depth, m, k), AtLevel(first, depth, n, k);
    var mid := TreeEnd(f, left, opts.GapX());
    if inFirst && alsoInFirst {
      LevelBound(f.kids, depth + 1, m, k);
      LevelBound(f.kids, depth + 1, n, k);
      assert !AtLevel(Nil, depth, m, k) && !AtLevel(Nil, depth, n, k);
      LevelsDoNotOverlap(f.kids, depth + 1, left, opts, pos, m, n, k);
    } else if inFirst {
      StaysInColumns(first, depth, left, opts, pos, m, k);
      StaysInColumns(f.rest, depth, mid, opts, pos, n, k);
    } else if alsoInFirst {
      StaysInColumns(first, depth, left, opts, pos, n, k);
      StaysInColumns(f.rest, depth, mid, opts, pos, m, k);
    } else {
      LevelsDoNotOverlap(f.rest, depth, mid, opts, pos, m, n, k);
    }
  }

  lemma {:induction false} NodesHaveLevels(f: Forest, depth: nat, n: nat) returns (k: nat)
    requires n in Nodes(f)
    ensures AtLevel(f, depth, n, k)
  {
    if n == f.root {
      k := depth;
    } else if n in Nodes(f.kids) {
      k := NodesHaveLevels(f.kids, depth + 1, n);
    } else {
      k := NodesHaveLevels(f.rest, depth, n);
    }
  }

  // ---- Drawing forests next to each other -----------------------------------------------------------

  lemma {:induction false} AfterJoin(f: Forest, g: Forest, left: real, gapX: real)
    ensures After(Join(f, g), left, gapX) == After(g, After(f, left, gapX), gapX)
  {
    if f.Grow? {
      AfterJoin(f.rest, g, TreeEnd(f, left, gapX), gapX);
    }
  }

  lemma {:induction false} LaidOutJoin(f: Forest, g: Forest, depth: nat, left: real, opts: Options, pos: Positions)
    requires LaidOut(f, depth, left, opts, pos) && LaidOut(g, depth, After(f, left, opts.GapX()), opts, pos)
    ensures LaidOut(Join(f, g), depth, left, opts, pos)
  {
    if f.Grow? {
      LaidOutJoin(f.rest, g, depth, TreeEnd(f, left, opts.GapX()), opts, pos);
    }
  }

  lemma {:induction false} RootsListed(f: Forest)
    requires f.Grow?
    ensures Roots(f)[0] == f.root && LastRoot(f) == Roots(f)[|Roots(f)| - 1]
  {
    if f.rest.Grow? {
      RootsListed(f.rest);
    }
  }

  /** Positions elsewhere do not matter. */
  lemma {:induction false} LaidOutFrame(f: Forest, depth: nat, left: real, opts: Options, pos: Positions, more: Positions)
    requires LaidOut(f, depth, left, opts, pos)
    requires forall n :: n in Nodes(f) && n in pos ==> n in more && more[n] == pos[n]
    ensures LaidOut(f, depth, left, opts, more)
  {
    if f.Grow? {
      assert forall n :: n in Nodes(f.kids) || n in Nodes(f.rest) || n == f.root ==> n in Nodes(f);
      if f.kids.Grow? {
        RootsListed(f.kids);
        RootsAreNodes(f.kids);
        assert f.kids.root in Elements(Roots(f.kids)) && LastRoot(f.kids) in Elements(Roots(f.kids));
      }
      LaidOutFrame(f.kids, depth + 1, left, opts, pos, more);
      LaidOutFrame(f.rest, depth, TreeEnd(f, left, opts.GapX()), opts, pos, more);
    }
  }

  // ---- What is recorded about each node ---------------------------------------------------------------

  type Children = map<nat, seq<nat>>

  ghost predicate Recorded(f: Forest, depth: nat, depths: map<nat, nat>, kids: Children) {
    match f
    case Nil => true
    case Grow(root, below, rest) =>
      && root in depths && depths[root] == depth && root in kids && kids[root] == Roots(below)
      && Recorded(below, depth + 1, depths, kids) && Recorded(rest, depth, depths, kids)
  }

  lemma {:induction false} RecordedJoin(f: Forest, g: Forest, depth: nat, depths: map<nat, nat>, kids: Children)
    requires Recorded(f, depth, depths, kids) && Recorded(g, depth, depths, kids)
    ensures Recorded(Join(f, g), depth, depths, kids)
  {
    if f.Grow? {
      RecordedJoin(f.rest, g, depth, depths, kids);
    }
  }

  lemma {:induction false} RecordedFrame(f: Forest, depth: nat, depths: map<nat, nat>, kids: Children,
                                         depths': map<nat, nat>, kids': Children)
    requires Recorded(f, depth, depths, kids)
    requires forall n :: n in Nodes(f) && n in depths ==> n in depths' && depths'[n] == depths[n]
    requires forall n :: n in Nodes(f) && n in kids ==> n in kids' && kids'[n] == kids[n]
    ensures Recorded(f, depth, depths', kids')
  {
    if f.Grow? {
      assert forall n :: n in Nodes(f.kids) || n in Nodes(f.rest) || n == f.root ==> n in Nodes(f);
      RecordedFrame(f.kids, depth + 1, depths, kids, depths', kids');
      RecordedFrame(f.rest, depth, depths, kids, depths', kids');
    }
  }

  function Size(f: Forest): nat {
    match f
    case Nil => 0
    case Grow(_, kids, rest) => 1 + Size(kids) + Size(rest)
  }

  lemma FirstTree(f: Forest, roots: seq<nat>, depth: nat, depths: map<nat, nat>, kids: Children)
    requires Roots(f) == roots && roots != [] && Recorded(f, depth, depths, kids)
    ensures f.Grow? && f.root == roots[0] && Roots(f.rest) == roots[1..] && Size(f.kids) + Size(f.rest) < Size(f)
    ensures Recorded(Grow(f.root, f.kids, Nil), depth, depths, kids) && Recorded(f.rest, depth, depths, kids)
    ensures Nodes(f) == [f.root] + Nodes(f.kids) + Nodes(f.rest)
  {
  }

  /** A tree's members in pre-order, read off the recorded children. `below` is the forest under the root. */
  method Subtree(root: nat, kids: Children, ghost below: Forest, ghost depths: map<nat, nat>, ghost depth: nat)
    returns (members: seq<nat>)
    requires Recorded(Grow(root, below, Nil), depth, depths, kids)
    ensures members == [root] + Nodes(below)
    decreases Size(below)
  {
    members := [root];
    var children := kids[root];
    ghost var rest := below;
    for i := 0 to |children|
      invariant Roots(rest) == children[i..] && Size(rest) <= Size(below)
      invariant Recorded(rest, depth + 1, depths, kids)
      invariant members + Nodes(rest) == [root] + Nodes(below)
    {
      assert children[i..] == [children[i]] + children[i + 1..];
      FirstTree(rest, children[i..], depth + 1, depths, kids);
      var sub := Subtree(children[i], kids, rest.kids, depths, depth + 1);
      members := members + sub;
      rest := rest.rest;
    }
  }

  // ---- The layout ------------------------------------------------------------------------------------

  /** Everything a layout in progress has written down. */
  datatype Drawing = Drawing(positions: Positions, depths: map<nat, nat>, kids: Children, cursor: real)

  ghost predicate Kept<V>(was: map<nat, V>, now: map<nat, V>, except: seq<nat>) {
    forall n :: n in was && n !in except ==> n in now && now[n] == was[n]
  }

  /** Nothing was written down about any node outside `nodes`. */
  ghost predicate OnlyAbout(was: Drawing, now: Drawing, nodes: seq<nat>) {
    && now.positions.Keys == was.positions.Keys + Elements(nodes)
    && Kept(was.positions, now.positions, nodes) && Kept(was.depths, now.depths, nodes)
    && Kept(was.kids, now.kids, nodes)
  }

  /** From `was` to `now` the forest was drawn at level d, from the free column on, and nothing else changed. */
  ghost predicate Draws(was: Drawing, now: Drawing, f: Forest, d: nat, opts: Options) {
    && LaidOut(f, d, was.cursor, opts, now.positions) && now.cursor == After(f, was.cursor, opts.GapX())
    && Recorded(f, d, now.depths, now.kids) && OnlyAbout(was, now, Nodes(f))
  }

  lemma OnlyAboutBoth(a: Drawing, b: Drawing, c: Drawing, s: seq<nat>, t: seq<nat>)
    requires OnlyAbout(a, b, s) && OnlyAbout(b, c, t)
    ensures OnlyAbout(a, c, s + t)
  {
  }

  /** What was drawn stays as it is while other nodes are drawn. */
  lemma DrawnStays(b: Drawing, c: Drawing, f: Forest, d: nat, left: real, opts: Options, others: seq<nat>)
    requires LaidOut(f, d, left, opts, b.positions) && Recorded(f, d, b.depths, b.kids)
    requires OnlyAbout(b, c, others) && Elements(Nodes(f)) !! Elements(others)
    ensures LaidOut(f, d, left, opts, c.positions) && Recorded(f, d, c.depths, c.kids)
  {
    hide LaidOut, Recorded;
    forall n | n in Nodes(f) ensures n !in others {
      assert n in Elements(Nodes(f));
    }
    LaidOutFrame(f, d, left, opts, b.positions, c.positions);
    RecordedFrame(f, d, b.depths, b.kids, c.depths, c.kids);
  }

  lemma DrawsJoin(a: Drawing, b: Drawing, c: Drawing, f: Forest, g: Forest, d: nat, opts: Options)
    requires Draws(a, b, f, d, opts) && Draws(b, c, g, d, opts) && Elements(Nodes(f)) !! Elements(Nodes(g))
    ensures Draws(a, c, Join(f, g), d, opts)
  {
    hide LaidOut, Recorded, OnlyAbout;
    JoinShape(f, g);
    OnlyAboutBoth(a, b, c, Nodes(f), Nodes(g));
    DrawnStays(b, c, f, d, a.cursor, opts, Nodes(g));
    LaidOutJoin(f, g, d, a.cursor, opts, c.positions);
    AfterJoin(f, g, a.cursor, opts.GapX());
    RecordedJoin(f, g, d, c.depths, c.kids);
  }

  /** The drawing a node's children are drawn into. */
  ghost function Entered(a: Drawing, id: nat, d: nat): Drawing {
    a.(depths := a.depths[id := d], kids := a.kids - {id})
  }

  /** Listing children under a node that is not drawn yet disturbs nothing. */
  lemma DrawsBeside(a: Drawing, b: Drawing, f: Forest, d: nat, opts: Options, n: nat, children: seq<nat>)
    requires Draws(a, b, f, d, opts) && n !in Nodes(f) && n !in a.kids
    ensures Draws(a, b.(kids := b.kids[n := children]), f, d, opts)
  {
    RecordedFrame(f, d, b.depths, b.kids, b.depths, b.kids[n := children]);
  }

  lemma DrawsNothing(a: Drawing, id: nat, d: nat, opts: Options)
    ensures var e := Entered(a, id, d);
            Draws(e, e.(kids := a.kids[id := []]), Nil, d + 1, opts) && id !in e.kids && e.cursor == a.cursor
  {
  }

  lemma DrawsLeaf(a: Drawing, id: nat, d: nat, opts: Options)
    ensures Draws(a, Drawing(a.positions[id := Point(a.cursor, Row(d, opts.GapY()))], a.depths[id := d],
                             a.kids[id := []], a.cursor + opts.GapX()), Grow(id, Nil, Nil), d, opts)
  {
  }

  lemma OnlyAboutParent(a: Drawing, b: Drawing, id: nat, d: nat, below: seq<nat>, p: Point)
    requires OnlyAbout(Entered(a, id, d), b, below)
    ensures OnlyAbout(a, b.(positions := b.positions[id := p]), [id] + below)
  {
  }

  lemma DepthStays(a: Drawing, b: Drawing, id: nat, d: nat, below: seq<nat>)
    requires OnlyAbout(Entered(a, id, d), b, below) && id !in below
    ensures id in b.depths && b.depths[id] == d
  {
  }

  lemma DrawsParent(a: Drawing, b: Drawing, below: Forest, id: nat, d: nat, opts: Options, x: real)
    requires below.Grow? && id !in Nodes(below)
    requires Draws(Entered(a, id, d), b, below, d + 1, opts)
    requires id in b.kids && b.kids[id] == Roots(below)
    requires below.root in b.positions && LastRoot(below) in b.positions
    requires x == (b.positions[below.root].x + b.positions[LastRoot(below)].x) / 2.0
    ensures Draws(a, b.(positions := b.positions[id := Point(x, Row(d, opts.GapY()))]), Grow(id, below, Nil), d, opts)
  {
    hide LaidOut, Recorded, OnlyAbout;
    var tree, p := Grow(id, below, Nil), Point(x, Row(d, opts.GapY()));
    var pos := b.positions[id := p];
    assert Nodes(tree) == [id] + Nodes(below);
    OnlyAboutParent(a, b, id, d, Nodes(below), p);
    DepthStays(a, b, id, d, Nodes(below));
    LaidOutFrame(below, d + 1, a.cursor, opts, b.positions, pos);
    RootsListed(below);
    RootsAreNodes(below);
    assert below.root in Elements(Roots(below)) && LastRoot(below) in Elements(Roots(below));
    assert Centred(tree, a.cursor, pos);
    assert After(tree, a.cursor, opts.GapX()) == After(below, a.cursor, opts.GapX());
    Assembled(tree, d, a.cursor, opts, pos, b.depths, b.kids);
  }

  lemma Assembled(f: Forest, d: nat, left: real, opts: Options, pos: Positions, depths: map<nat, nat>, kids: Children)
    requires f.Grow? && f.rest.Nil? && Centred(f, left, pos) && pos[f.root].y == Row(d, opts.GapY())
    requires LaidOut(f.kids, d + 1, left, opts, pos) && Recorded(f.kids, d + 1, depths, kids)
    requires f.root in depths && depths[f.root] == d && f.root in kids && kids[f.root] == Roots(f.kids)
    ensures LaidOut(f, d, left, opts, pos) && Recorded(f, d, depths, kids)
  {
  }

  /** The state of one lineage layout while it is being built. */
  class TidyLayout {
    const adj: Adjacency
    const meta: map<nat, Card>
    const opts: Options
    ghost const all: set<nat>

    var visited: set<nat>
    var depths: map<nat, nat>
    var kids: Children
    var positions: Positions
    var cursor: real

    constructor (adj: Adjacency, meta: map<nat, Card>, opts: Options, ghost all: set<nat>)
      ensures this.adj == adj && this.meta == meta && this.opts == opts && this.all == all
      ensures visited == {} && Drawn() == Drawing(map[], map[], map[], 0.0)
    {
      this.adj, this.meta, this.opts, this.all := adj, meta, opts, all;
      visited, depths, kids, positions, cursor := {}, map[], map[], map[], 0.0;
    }

    ghost function Drawn(): Drawing
      reads this
    {
      Drawing(positions, depths, kids, cursor)
    }

    /** Marks the unvisited successors of a node as visited and returns them in the order they are placed. */
    method ClaimChildren(id: nat) returns (children: seq<nat>)
      modifies this`visited
      ensures children == Claim(adj, meta, old(visited), id)
      ensures visited == old(visited) + Elements(children)
    {
      var listed := Neighbours(adj, id);
      var claimed: seq<nat> := [];
      for i := 0 to |listed|
        invariant claimed == Fresh(listed[..i], old(visited)) && visited == old(visited) + Elements(claimed)
      {
        assert listed[..i + 1][..i] == listed[..i];
        if listed[i] !in visited {
          visited := visited + {listed[i]};
          claimed := claimed + [listed[i]];
        }
      }
      assert listed[..|listed|] == listed;
      children := Ids(SortBy(CardsOf(meta, claimed), Before));
      ClaimIsExact(adj, meta, old(visited), id);
      FreshIsExact(listed, old(visited));
    }

    /** Part-way through the children of `id`: the first i have been planted and drawn. */
    ghost predicate Midway(id: nat, d: nat, entered: Drawing, v1: set<nat>, children: seq<nat>, i: nat, below: Forest,
                           visited: set<nat>, now: Drawing)
      requires i <= |children| && Closed(adj, all)
    {
      && Planted(below, visited) == Plant(adj, meta, all, v1, children[..i])
      && Draws(entered, now, below, d + 1, opts)
      && id in now.kids && now.kids[id] == children[..i]
    }

    /** Children just claimed by a node that is itself not drawn yet. */
    ghost predicate Claimed(id: nat, entered: Drawing, v1: set<nat>, children: seq<nat>) {
      && NoRepeat(children) && Elements(children) <= v1 <= all && id in v1 && id !in children && id !in entered.kids
      && id !in entered.positions
      && entered.positions.Keys <= v1 && entered.positions.Keys !! Elements(children)
    }

    method PlaceChild(id: nat, d: nat, children: seq<nat>, i: nat, ghost entered: Drawing, ghost v1: set<nat>,
                      ghost below: Forest)
      returns (ghost more: Forest)
      requires Closed(adj, all) && i < |children| && Claimed(id, entered, v1, children)
      requires Midway(id, d, entered, v1, children, i, below, visited, Drawn())
      modifies this
      ensures Midway(id, d, entered, v1, children, i + 1, more, visited, Drawn())
      ensures children[i] in positions
      ensures forall n :: n in old(positions) ==> n in positions && positions[n] == old(positions[n])
      decreases |all - v1|, 1
    {
      hide Draws, Plant, Closed, NoRepeat, Join, Kept, Midway, Claimed;
      var child := children[i];
      ghost var v, before := visited, Drawn();
      MayPlace(id, d, entered, v1, children, i, below, v, before);
      ghost var sub := Place(child, d + 1);
      ghost var after := Drawn();
      ChildPlaced(id, d, entered, v1, children, i, below, v, before, sub, visited, after);
      more := Join(below, sub);
      kids := kids[id := kids[id] + [child]];
    }

    lemma MayPlace(id: nat, d: nat, entered: Drawing, v1: set<nat>, children: seq<nat>, i: nat, below: Forest,
                   v: set<nat>, before: Drawing)
      requires Closed(adj, all) && i < |children| && Claimed(id, entered, v1, children)
      requires Midway(id, d, entered, v1, children, i, below, v, before)
      ensures children[i] in v && v <= all && before.positions.Keys <= v && children[i] !in before.positions
      ensures |all - v| <= |all - v1|
    {
      hide Draws, Plant, Closed, NoRepeat, Kept;
      PlantedSoFar(adj, meta, all, v1, children, i, below, v);
      PlacedSoFar(entered, before, below, d + 1, opts);
      Smaller(all, v1, v);
      assert children[i] in Elements(children);
      assert children[i] in Elements(Nodes(below)) <==> children[i] in Nodes(below);
      assert Elements(children[..i]) <= v1;
    }

    lemma ChildPlaced(id: nat, d: nat, entered: Drawing, v1: set<nat>, children: seq<nat>, i: nat, below: Forest,
                      v: set<nat>, before: Drawing, sub: Forest, v': set<nat>, after: Drawing)
      requires Closed(adj, all) && i < |children| && Claimed(id, entered, v1, children)
      requires Midway(id, d, entered, v1, children, i, below, v, before)
      requires Planted(sub, v') == Plant(adj, meta, all, v, [children[i]])
      requires Draws(before, after, sub, d + 1, opts)
      ensures id in after.kids && children[i] in after.positions
      ensures Midway(id, d, entered, v1, children, i + 1, Join(below, sub), v',
                     after.(kids := after.kids[id := after.kids[id] + [children[i]]]))
      ensures forall n :: n in before.positions ==> n in after.positions && after.positions[n] == before.positions[n]
    {
      hide Draws, Plant, Closed, NoRepeat, Kept;
      MayPlace(id, d, entered, v1, children, i, below, v, before);
      PlantedNext(adj, meta, all, v1, children, i, below, v, sub, v');
      PlacedSoFar(before, after, sub, d + 1, opts);
      DrawsJoin(entered, before, after, below, sub, d + 1, opts);
      PlantedSoFar(adj, meta, all, v1, children, i, below, v);
      assert children[i] in Elements(children) && Elements(children[..i]) <= Elements(children);
      assert id !in Elements(Nodes(sub)) && id !in Elements(Nodes(below));
      KeptAll(before.positions, after.positions, sub, v, children[i]);
      StillListed(before.kids, after.kids, sub, id);
      assert children[..i + 1] == children[..i] + [children[i]];
      JoinShape(below, sub);
      DrawsBeside(entered, after, Join(below, sub), d + 1, opts, id, children[..i + 1]);
    }

    /** Places a claimed node and, below it, everything it can still claim. */
    method Place(id: nat, d: nat) returns (ghost tree: Forest)
      requires Closed(adj, all) && id in visited && visited <= all
      requires positions.Keys <= visited && id !in positions
      modifies this
      ensures Planted(tree, visited) == Plant(adj, meta, all, old(visited), [id])
      ensures Draws(old(Drawn()), Drawn(), tree, d, opts)
      decreases |all - visited|, 0
    {
      hide Draws, Plant, Claim, Closed, NoRepeat, Row, Midway, Claimed, Entered;
      ghost var v0, was := visited, Drawn();
      depths := depths[id := d];
      var children := ClaimChildren(id);
      ghost var v1 := visited;
      Entering(was, id, d, v0);
      kids := kids[id := []];
      if |children| == 0 {
        positions := positions[id := Point(cursor, Row(d, opts.GapY()))];
        cursor := cursor + opts.GapX();
        tree := Grow(id, Nil, Nil);
        EnteringLeaf(was, id, d, v0);
        return;
      }
      var first, last := 0.0, 0.0;
      ghost var below := Nil;
      ghost var entered := Entered(was, id, d);
      for i := 0 to |children|
        invariant Midway(id, d, entered, v1, children, i, below, visited, Drawn())
        invariant i > 0 ==> children[0] in positions && positions[children[0]].x == first
        invariant i > 0 ==> children[i - 1] in positions && positions[children[i - 1]].x == last
      {
        below := PlaceChild(id, d, children, i, entered, v1, below);
        if i == 0 {
          first := positions[children[i]].x;
        }
        last := positions[children[i]].x;
      }
      MidwayDone(id, d, was, v0, v1, children, below, (first + last) / 2.0);
      positions := positions[id := Point((first + last) / 2.0, Row(d, opts.GapY()))];
      tree := Grow(id, below, Nil);
    }

    /** What is known once a node has claimed its children, before any of them is placed. */
    lemma Entering(was: Drawing, id: nat, d: nat, v0: set<nat>)
      requires Closed(adj, all) && v0 <= all && id in v0 && was.positions.Keys <= v0 && id !in was.positions
      ensures var children := Claim(adj, meta, v0, id);
              var v1, entered := v0 + Elements(children), Entered(was, id, d);
              && Claimed(id, entered, v1, children)
              && Midway(id, d, entered, v1, children, 0, Nil, v1,
                        Drawing(was.positions, was.depths[id := d], was.kids[id := []], was.cursor))
              && (children != [] ==> |all - v1| < |all - v0|)
    {
      hide Draws, Plant, Claim, Closed, NoRepeat, Row, Nodes;
      ClaimStaysWithin(adj, meta, all, v0, id);
      var children := Claim(adj, meta, v0, id);
      NothingPlanted(adj, meta, all, v0 + Elements(children));
      assert children[..0] == [];
      assert id in children ==> id in Elements(children);
      DrawsNothing(was, id, d, opts);
    }

    /** A node with nothing left to claim is a leaf. */
    lemma EnteringLeaf(was: Drawing, id: nat, d: nat, v0: set<nat>)
      requires Closed(adj, all) && id in v0 && Claim(adj, meta, v0, id) == []
      ensures Plant(adj, meta, all, v0, [id]) == Planted(Grow(id, Nil, Nil), v0 + Elements(Claim(adj, meta, v0, id)))
      ensures Draws(was, Drawing(was.positions[id := Point(was.cursor, Row(d, opts.GapY()))], was.depths[id := d],
                                 was.kids[id := []], was.cursor + opts.GapX()), Grow(id, Nil, Nil), d, opts)
    {
      hide Draws, Plant, Claim, Closed, Row;
      OneTree(adj, meta, all, v0, id);
      NothingPlanted(adj, meta, all, v0 + Elements(Claim(adj, meta, v0, id)));
      DrawsLeaf(was, id, d, opts);
    }

    /** Places a tree at each listed node that is not placed yet. At this level everything visited is placed. */
    method PlaceRoots(ids: seq<nat>, ghost planted: Forest, ghost was: Drawing) returns (roots: seq<nat>, ghost forest: Forest)
      requires Closed(adj, all) && visited <= all && Elements(ids) <= all
      requires positions.Keys == visited == Elements(Nodes(planted)) && Draws(was, Drawn(), planted, 0, opts)
      modifies this
      ensures Planted(forest, visited) == Run(adj, meta, all, old(visited), ids)
      ensures visited <= all && positions.Keys == visited == Elements(Nodes(Join(planted, forest)))
      ensures Draws(was, Drawn(), Join(planted, forest), 0, opts)
      ensures roots == Roots(forest)
    {
      hide Closed, Draws, Join, Plant, Nodes, Roots;
      roots, forest := [], Nil;
      JoinNil(planted);
      NoRoots();
      for i := 0 to |ids|
        invariant Planted(forest, visited) == Run(adj, meta, all, old(visited), ids[..i])
        invariant visited <= all && positions.Keys == visited == Elements(Nodes(Join(planted, forest)))
        invariant Draws(was, Drawn(), Join(planted, forest), 0, opts)
        invariant roots == Roots(forest)
      {
        var id := ids[i];
        assert ids[..i + 1][..i] == ids[..i] && id in Elements(ids);
        if id in visited {
          continue;
        }
        ghost var v, before := visited, Drawn();
        visited := visited + {id};
        ghost var tree := Place(id, 0);
        RootPlanted(adj, meta, all, v, id);
        JoinShape(Join(planted, forest), tree);
        JoinAssociates(planted, forest, tree);
        JoinShape(forest, tree);
        DrawsJoin(was, before, Drawn(), Join(planted, forest), tree, 0, opts);
        PlacedSoFar(before, Drawn(), tree, 0, opts);
        forest := Join(forest, tree);
        roots := roots + [id];
      }
      assert ids[..|ids|] == ids;
    }

    lemma MidwayDone(id: nat, d: nat, was: Drawing, v0: set<nat>, v1: set<nat>, children: seq<nat>, below: Forest, x: real)
      requires Closed(adj, all) && children != [] && Claimed(id, Entered(was, id, d), v1, children)
      requires Midway(id, d, Entered(was, id, d), v1, children, |children|, below, visited, Drawn())
      requires children[0] in positions && children[|children| - 1] in positions
      requires x == (positions[children[0]].x + positions[children[|children| - 1]].x) / 2.0
      requires id in v0 && children == Claim(adj, meta, v0, id) && v1 == v0 + Elements(children)
      ensures Planted(Grow(id, below, Nil), visited) == Plant(adj, meta, all, v0, [id])
      ensures Draws(was, Drawn().(positions := positions[id := Point(x, Row(d, opts.GapY()))]), Grow(id, below, Nil), d, opts)
    {
      hide Draws, Plant, Closed, NoRepeat, Row, Claim;
      OneTree(adj, meta, all, v0, id);
      assert children[..|children|] == children;
      PlantedSoFar(adj, meta, all, v1, children, |children|, below, visited);
      RootsListed(below);
      assert id !in Nodes(below) by {
        assert id in Elements(Nodes(below)) <==> id in Nodes(below);
      }
      DrawsParent(was, Drawn(), below, id, d, opts, x);
    }
  }

  lemma KeptAll(before: Positions, after: Positions, sub: Forest, v: set<nat>, child: nat)
    requires Kept(before, after, Nodes(sub)) && after.Keys == before.Keys + Elements(Nodes(sub))
    requires before.Keys !! Elements(Nodes(sub)) && child in Nodes(sub)
    ensures child in after && forall n :: n in before ==> n in after && after[n] == before[n]
  {
  }

  lemma StillListed(before: Children, after: Children, sub: Forest, id: nat)
    requires Kept(before, after, Nodes(sub)) && id in before && id !in Nodes(sub)
    ensures id in after && after[id] == before[id]
  {
  }

  lemma PlacedSoFar(a: Drawing, b: Drawing, f: Forest, d: nat, opts: Options)
    requires Draws(a, b, f, d, opts)
    ensures b.positions.Keys == a.positions.Keys + Elements(Nodes(f))
    ensures Kept(a.positions, b.positions, Nodes(f)) && Kept(a.kids, b.kids, Nodes(f))
  {
  }

  lemma PlantedSoFar(adj: Adjacency, meta: map<nat, Card>, all: set<nat>, v1: set<nat>, children: seq<nat>, i: nat,
                     below: Forest, v: set<nat>)
    requires Closed(adj, all) && NoRepeat(children) && Elements(children) <= v1 <= all && i <= |children|
    requires Planted(below, v) == Plant(adj, meta, all, v1, children[..i])
    ensures v1 <= v <= all && Roots(below) == children[..i] && (i > 0 ==> below.Grow?)
    ensures Elements(Nodes(below)) == Elements(children[..i]) + (v - v1)
    ensures i < |children| ==> children[i] !in Nodes(below) && children[i] in v1
  {
    PlantIsExact(adj, meta, all, v1, children[..i]);
    if i < |children| {
      var child := children[i];
      assert child in Elements(children) && child !in children[..i];
      assert child in Elements(Nodes(below)) <==> child in Nodes(below);
    }
  }

  lemma PlantedNext(adj: Adjacency, meta: map<nat, Card>, all: set<nat>, v1: set<nat>, children: seq<nat>, i: nat,
                    below: Forest, v: set<nat>, sub: Forest, after: set<nat>)
    requires Closed(adj, all) && NoRepeat(children) && Elements(children) <= v1 <= all && i < |children|
    requires Planted(below, v) == Plant(adj, meta, all, v1, children[..i])
    requires Planted(sub, after) == Plant(adj, meta, all, v, [children[i]])
    ensures Planted(Join(below, sub), after) == Plant(adj, meta, all, v1, children[..i + 1])
    ensures Elements(Nodes(below)) !! Elements(Nodes(sub)) && children[i] in Nodes(sub)
    ensures Elements(Nodes(sub)) == {children[i]} + (after - v)
  {
    hide Plant;
    PlantedSoFar(adj, meta, all, v1, children, i, below, v);
    PlantAppend(adj, meta, all, v1, children[..i], [children[i]]);
    assert children[..i + 1] == children[..i] + [children[i]];
    PlantIsExact(adj, meta, all, v, [children[i]]);
    assert children[i] in [children[i]] && children[i] in Elements([children[i]]);
    assert children[i] in Elements(Nodes(sub));
  }

  lemma OneTree(adj: Adjacency, meta: map<nat, Card>, all: set<nat>, visited: set<nat>, id: nat)
    requires Closed(adj, all) && id in visited
    ensures var claim := Claim(adj, meta, visited, id);
            var below := Plant(adj, meta, all, visited + Elements(claim), claim);
            Plant(adj, meta, all, visited, [id]) == Planted(Grow(id, below.forest, Nil), below.visited)
  {
    PlantUnfolds(adj, meta, all, visited, [id]);
  }

  lemma NoRoots()
    ensures Roots(Nil) == []
  {
  }

  /** Planting trees one after the other at the listed nodes, skipping those already in an earlier tree. */
  ghost function Run(adj: Adjacency, meta: map<nat, Card>, all: set<nat>, visited: set<nat>, ids: seq<nat>): Planted
    requires Closed(adj, all)
  {
    if ids == [] then Planted(Nil, visited)
    else
      var last := ids[|ids| - 1];
      var r := Run(adj, meta, all, visited, ids[..|ids| - 1]);
      if last in r.visited then r
      else
        var t := Plant(adj, meta, all, r.visited + {last}, [last]);
        Planted(Join(r.forest, t.forest), t.visited)
  }

  lemma RootPlanted(adj: Adjacency, meta: map<nat, Card>, all: set<nat>, visited: set<nat>, id: nat)
    requires Closed(adj, all) && visited <= all && id in all && id !in visited
    ensures var t := Plant(adj, meta, all, visited + {id}, [id]);
            && visited + {id} <= t.visited <= all && Roots(t.forest) == [id]
            && NoRepeat(Nodes(t.forest)) && Elements(Nodes(t.forest)) == t.visited - visited
  {
    assert Elements([id]) == {id};
    PlantIsExact(adj, meta, all, visited + {id}, [id]);
  }

  ghost predicate RunExact(r: Planted, all: set<nat>, visited: set<nat>, ids: seq<nat>) {
    && visited + Elements(ids) <= r.visited <= all
    && NoRepeat(Nodes(r.forest)) && Elements(Nodes(r.forest)) == r.visited - visited
  }

  lemma RunExactNext(r: Planted, t: Planted, all: set<nat>, visited: set<nat>, ids: seq<nat>, id: nat)
    requires RunExact(r, all, visited, ids)
    requires r.visited + {id} <= t.visited <= all
    requires NoRepeat(Nodes(t.forest)) && Elements(Nodes(t.forest)) == t.visited - r.visited
    ensures RunExact(Planted(Join(r.forest, t.forest), t.visited), all, visited, ids + [id])
  {
    hide NoRepeat;
    JoinShape(r.forest, t.forest);
    NoRepeatJoin(Nodes(r.forest), Nodes(t.forest));
    assert Elements(ids + [id]) == Elements(ids) + {id};
  }

  lemma RunExactSame(r: Planted, all: set<nat>, visited: set<nat>, ids: seq<nat>, id: nat)
    requires RunExact(r, all, visited, ids) && id in r.visited
    ensures RunExact(r, all, visited, ids + [id])
  {
  }

  /** A run places every listed node, and everything it places exactly once. */
  lemma {:induction false} RunIsExact(adj: Adjacency, meta: map<nat, Card>, all: set<nat>, visited: set<nat>, ids: seq<nat>)
    requires Closed(adj, all) && visited <= all && Elements(ids) <= all
    ensures RunExact(Run(adj, meta, all, visited, ids), all, visited, ids)
  {
    if ids != [] {
      hide Plant, Closed, RunExact, NoRepeat;
      var n := |ids| - 1;
      assert ids == ids[..n] + [ids[n]] && ids[n] in Elements(ids) && Elements(ids[..n]) <= Elements(ids);
      RunIsExact(adj, meta, all, visited, ids[..n]);
      var r := Run(adj, meta, all, visited, ids[..n]);
      if ids[n] in r.visited {
        RunExactSame(r, all, visited, ids[..n], ids[n]);
      } else {
        RunWithin(r, all, visited, ids[..n]);
        RootPlanted(adj, meta, all, r.visited, ids[n]);
        RunExactNext(r, Plant(adj, meta, all, r.visited + {ids[n]}, [ids[n]]), all, visited, ids[..n], ids[n]);
      }
    }
  }

  lemma RunWithin(r: Planted, all: set<nat>, visited: set<nat>, ids: seq<nat>)
    requires RunExact(r, all, visited, ids)
    ensures r.visited <= all
  {
  }

  lemma {:induction false} FirstClaimsJoin(adj: Adjacency, f: Forest, g: Forest, before: set<nat>)
    requires FirstClaims(adj, f, before) && FirstClaims(adj, g, before + Elements(Nodes(f)))
    ensures FirstClaims(adj, Join(f, g), before)
  {
    if f.Grow? {
      var mid := before + {f.root} + Elements(Nodes(f.kids));
      assert before + Elements(Nodes(f)) == mid + Elements(Nodes(f.rest));
      FirstClaimsJoin(adj, f.rest, g, mid);
    } else {
      assert before + Elements(Nodes(f)) == before;
    }
  }

  /** In a whole run every child hangs under the first of the nodes that lead to it, and every successor of a
      placed node is placed. */
  lemma {:induction false} RunClaimsFirst(adj: Adjacency, meta: map<nat, Card>, all: set<nat>, ids: seq<nat>)
    requires Closed(adj, all) && Elements(ids) <= all
    ensures var r := Run(adj, meta, all, {}, ids);
            FirstClaims(adj, r.forest, {}) && Settled(adj, r.visited, r.visited)
  {
    if ids != [] {
      hide Plant, Closed, NoRepeat, NewTo, FirstClaims, Settled;
      var n := |ids| - 1;
      assert ids == ids[..n] + [ids[n]] && ids[n] in Elements(ids);
      assert Elements(ids[..n]) <= Elements(ids);
      RunClaimsFirst(adj, meta, all, ids[..n]);
      RunIsExact(adj, meta, all, {}, ids[..n]);
      var r := Run(adj, meta, all, {}, ids[..n]);
      if ids[n] !in r.visited {
        RootClaimsFirst(adj, meta, all, r, ids[n]);
      }
    } else {
      assert Settled(adj, {}, {});
    }
  }

  /** One more tree after those of a run. */
  lemma RootClaimsFirst(adj: Adjacency, meta: map<nat, Card>, all: set<nat>, r: Planted, id: nat)
    requires Closed(adj, all) && r.visited <= all && id in all && id !in r.visited
    requires Elements(Nodes(r.forest)) == r.visited && FirstClaims(adj, r.forest, {}) && Settled(adj, r.visited, r.visited)
    ensures var t := Plant(adj, meta, all, r.visited + {id}, [id]);
            FirstClaims(adj, Join(r.forest, t.forest), {}) && Settled(adj, t.visited, t.visited)
  {
    hide *;
    RootPlanted(adj, meta, all, r.visited, id);
    var t := Plant(adj, meta, all, r.visited + {id}, [id]);
    SettledGrows(adj, r.visited, r.visited + {id});
    OneIsDistinct(id);
    PlantClaimsFirst(adj, meta, all, r.visited + {id}, [id], r.visited);
    assert {} + Elements(Nodes(r.forest)) == r.visited;
    FirstClaimsJoin(adj, r.forest, t.forest, {});
    assert r.visited + Elements(Nodes(t.forest)) == t.visited;
  }

  lemma OneIsDistinct(id: nat)
    ensures NoRepeat([id]) && Elements([id]) == {id}
  {
  }

  lemma SettledGrows(adj: Adjacency, placed: set<nat>, more: set<nat>)
    requires Settled(adj, placed, placed) && placed <= more
    ensures Settled(adj, placed, more)
  {
  }

  // ---- Reach -----------------------------------------------------------------------------------------

  ghost predicate Path(adj: Adjacency, w: seq<nat>) {
    w != [] && forall k :: 0 <= k < |w| - 1 ==> w[k + 1] in Neighbours(adj, w[k])
  }

  lemma {:induction false} PathDown(adj: Adjacency, f: Forest, before: set<nat>, n: nat) returns (w: seq<nat>)
    requires FirstClaims(adj, f, before) && n in Nodes(f)
    ensures Path(adj, w) && w[0] in Roots(f) && w[|w| - 1] == n
  {
    if n == f.root {
      w := [n];
    } else if n in Nodes(f.kids) {
      var v := PathDown(adj, f.kids, before + {f.root}, n);
      assert v[0] in Elements(Roots(f.kids));
      w := [f.root] + v;
    } else {
      w := PathDown(adj, f.rest, before + {f.root} + Elements(Nodes(f.kids)), n);
    }
  }

  lemma {:induction false} PathStays(adj: Adjacency, s: set<nat>, w: seq<nat>)
    requires Settled(adj, s, s) && Path(adj, w) && w[0] in s
    ensures w[|w| - 1] in s
  {
    if |w| > 1 {
      assert w[1] in Elements(Neighbours(adj, w[0]));
      PathStays(adj, s, w[1..]);
    }
  }

  lemma {:induction false} RunRoots(adj: Adjacency, meta: map<nat, Card>, all: set<nat>, visited: set<nat>, ids: seq<nat>)
    requires Closed(adj, all) && visited <= all && Elements(ids) <= all
    ensures Elements(Roots(Run(adj, meta, all, visited, ids).forest)) <= Elements(ids)
  {
    if ids != [] {
      hide Plant, Closed, NoRepeat;
      var n := |ids| - 1;
      assert ids == ids[..n] + [ids[n]] && ids[n] in Elements(ids);
      assert Elements(ids) == Elements(ids[..n]) + {ids[n]};
      RunRoots(adj, meta, all, visited, ids[..n]);
      RunIsExact(adj, meta, all, visited, ids[..n]);
      var r := Run(adj, meta, all, visited, ids[..n]);
      if ids[n] !in r.visited {
        RootPlanted(adj, meta, all, r.visited, ids[n]);
        JoinShape(r.forest, Plant(adj, meta, all, r.visited + {ids[n]}, [ids[n]]).forest);
      }
    }
  }

  /** Placing trees at some nodes places exactly what can be reached from them. */
  lemma RunPlacesReachable(adj: Adjacency, meta: map<nat, Card>, all: set<nat>, ids: seq<nat>, n: nat)
    requires Closed(adj, all) && Elements(ids) <= all
    ensures n in Run(adj, meta, all, {}, ids).visited <==>
            exists w :: Path(adj, w) && w[0] in ids && w[|w| - 1] == n
  {
    hide Closed, NoRepeat, Run, FirstClaims, Settled;
    var r := Run(adj, meta, all, {}, ids);
    RunIsExact(adj, meta, all, {}, ids);
    RunClaimsFirst(adj, meta, all, ids);
    RunRoots(adj, meta, all, {}, ids);
    if n in r.visited {
      assert n in Elements(Nodes(r.forest));
      var w := PathDown(adj, r.forest, {}, n);
      assert w[0] in Elements(Roots(r.forest));
    }
    forall w | Path(adj, w) && w[0] in ids && w[|w| - 1] == n ensures n in r.visited {
      assert w[0] in Elements(ids);
      PathStays(adj, r.visited, w);
    }
  }

  lemma {:induction false} RunAppend(adj: Adjacency, meta: map<nat, Card>, all: set<nat>, visited: set<nat>,
                                     a: seq<nat>, b: seq<nat>)
    requires Closed(adj, all)
    ensures var r := Run(adj, meta, all, visited, a); var q := Run(adj, meta, all, r.visited, b);
            Run(adj, meta, all, visited, a + b) == Planted(Join(r.forest, q.forest), q.visited)
  {
    if b == [] {
      assert a + b == a;
      JoinNil(Run(adj, meta, all, visited, a).forest);
    } else {
      hide Plant, Closed;
      var n, m := |b| - 1, |a + b| - 1;
      assert (a + b)[..m] == a + b[..n] && (a + b)[m] == b[n];
      RunAppend(adj, meta, all, visited, a, b[..n]);
      var r := Run(adj, meta, all, visited, a);
      var q := Run(adj, meta, all, r.visited, b[..n]);
      if b[n] !in q.visited {
        JoinAssociates(r.forest, q.forest, Plant(adj, meta, all, q.visited + {b[n]}, [b[n]]).forest);
      }
    }
  }

  // ---- The whole layout --------------------------------------------------------------------------------

  function IndexById(cards: seq<Card>): map<nat, Card> {
    if cards == [] then map[]
    else IndexById(cards[..|cards| - 1])[cards[|cards| - 1].id := cards[|cards| - 1]]
  }

  /** The cards no edge leads to. */
  ghost function SourceCards(cards: seq<Card>, edges: set<Edge>): seq<Card> {
    if cards == [] then []
    else
      var last := cards[|cards| - 1];
      SourceCards(cards[..|cards| - 1], edges) + if Preds(edges, last.id) == {} then [last] else []
  }

  /** Each tree's members, tree by tree. */
  function Trees(f: Forest): seq<seq<nat>> {
    match f
    case Nil => []
    case Grow(root, kids, rest) => [[root] + Nodes(kids)] + Trees(rest)
  }

  function Flatten(lists: seq<seq<nat>>): seq<nat> {
    if lists == [] then [] else lists[0] + Flatten(lists[1..])
  }

  lemma {:induction false} TreesHoldEveryNode(f: Forest)
    ensures Flatten(Trees(f)) == Nodes(f) && |Trees(f)| == |Roots(f)|
  {
    if f.Grow? {
      TreesHoldEveryNode(f.rest);
      assert Trees(f)[1..] == Trees(f.rest);
    }
  }

  /** What the lineage layout of a set of cards is: the trees of the sources, then the trees of what those do not
      reach, in order of id. */
  ghost predicate IsLineage(cards: seq<Card>, edges: set<Edge>, opts: Options, adj: Adjacency, forest: Forest,
                            positions: Positions, forced: nat)
  {
    var all, meta, sources := Present(Ids(cards)), IndexById(cards), Ids(SortBy(SourceCards(cards, edges), Before));
    && Closed(adj, all) && ListsSuccs(adj, edges)
    && var first := Run(adj, meta, all, {}, sources);
       var second := Run(adj, meta, all, first.visited, Ids(cards));
       && forest == Join(first.forest, second.forest) && forced == |Roots(second.forest)|
       && LaidOut(forest, 0, 0.0, opts, positions) && positions.Keys == Elements(Nodes(forest))
  }

  lemma SuccsAreClosed(adj: Adjacency, edges: set<Edge>, all: set<nat>)
    requires ListsSuccs(adj, edges) && forall e :: e in edges ==> e.1 in all
    ensures Closed(adj, all)
  {
  }

  lemma NoPreds(adj: Adjacency, edges: set<Edge>, v: nat)
    requires ListsPreds(adj, edges)
    ensures |Neighbours(adj, v)| == 0 <==> Preds(edges, v) == {}
  {
    assert Neighbours(adj, v) != [] ==> Neighbours(adj, v)[0] in Elements(Neighbours(adj, v));
  }

  method FindSources(cards: seq<Card>, into: Adjacency, ghost edges: set<Edge>)
    returns (sources: seq<Card>, meta: map<nat, Card>)
    requires ListsPreds(into, edges)
    ensures sources == SourceCards(cards, edges) && meta == IndexById(cards)
  {
    hide ListsPreds;
    sources, meta := [], map[];
    for i := 0 to |cards|
      invariant sources == SourceCards(cards[..i], edges) && meta == IndexById(cards[..i])
    {
      assert cards[..i + 1][..i] == cards[..i];
      NoPreds(into, edges, cards[i].id);
      if |Neighbours(into, cards[i].id)| == 0 {
        sources := sources + [cards[i]];
      }
      meta := meta[cards[i].id := cards[i]];
    }
    assert cards[..|cards|] == cards;
  }

  lemma {:induction false} SourcesAreCards(cards: seq<Card>, edges: set<Edge>)
    ensures forall c: Card :: c in SourceCards(cards, edges) <==> c in cards && Preds(edges, c.id) == {}
  {
    if cards != [] {
      var n := |cards| - 1;
      assert cards == cards[..n] + [cards[n]];
      SourcesAreCards(cards[..n], edges);
    }
  }

  lemma SortedIds(cards: seq<Card>)
    ensures forall n: nat :: n in Ids(SortBy(cards, Before)) <==> exists c :: c in cards && c.id == n
  {
    var sorted := SortBy(cards, Before);
    BeforeIsStrict();
    SortBySorts(cards, Before);
    forall c ensures c in sorted <==> c in cards {
      assert c in multiset(sorted) <==> c in multiset(cards);
    }
    hide SortBy;
    forall n: nat ensures n in Ids(sorted) <==> exists c :: c in cards && c.id == n {
      if c :| c in cards && c.id == n {
        var i :| 0 <= i < |sorted| && sorted[i] == c;
        assert Ids(sorted)[i] == n;
      }
      if i :| 0 <= i < |sorted| && sorted[i].id == n {
        assert sorted[i] in cards;
      }
    }
  }

  lemma SortedSources(cards: seq<Card>, edges: set<Edge>)
    ensures forall n: nat :: n in Ids(SortBy(SourceCards(cards, edges), Before)) <==> n in Ids(cards) && Preds(edges, n) == {}
  {
    SourcesAreCards(cards, edges);
    SortedIds(SourceCards(cards, edges));
    forall n: nat ensures n in Ids(cards) <==> exists c :: c in cards && c.id == n {
      if c :| c in cards && c.id == n {
        var i :| 0 <= i < |cards| && cards[i] == c;
        assert Ids(cards)[i] == n;
      }
    }
  }

  method LineageLayout(cards: seq<Card>, rels: seq<Link>, opts: Options)
    returns (positions: Positions, groups: seq<seq<nat>>, forced: nat, ghost adj: Adjacency, ghost forest: Forest)
    requires Ascending(Ids(cards))
    ensures IsLineage(cards, EdgeSet(Present(Ids(cards)), rels), opts, adj, forest, positions, forced)
    ensures groups == Trees(forest)
    ensures positions.Keys == Present(Ids(cards))
  {
    ghost var edges, all := EdgeSet(Present(Ids(cards)), rels), Present(Ids(cards));
    var out, into := BuildEdges(Ids(cards), rels);
    adj := out;
    SuccsAreClosed(out, edges, all);
    var starts, meta := FindSources(cards, into, edges);
    var sources := Ids(SortBy(starts, Before));
    SortedSources(cards, edges);
    hide ListsSuccs, ListsPreds, Run, EdgeSet, Closed, SourceCards, IndexById, SortBy, Draws, Ascending;
    var layout := new TidyLayout(out, meta, opts, all);
    ghost var blank := layout.Drawn();
    BlankDrawing(blank, opts);
    assert Elements(sources) <= all && Elements(Ids(cards)) <= all;
    var roots;
    ghost var first, second;
    roots, first := layout.PlaceRoots(sources, Nil, blank);
    var more;
    more, second := layout.PlaceRoots(Ids(cards), first, blank);
    forced := |more|;
    positions := layout.positions;
    forest := Join(first, second);
    DrawnForest(blank, layout.Drawn(), forest, opts);
    JoinShape(first, second);
    groups := Groups(roots + more, layout.kids, forest, layout.depths);
    EveryNodeOnce(cards, edges, opts, adj, forest, positions, forced);
  }

  lemma BlankDrawing(blank: Drawing, opts: Options)
    requires blank == Drawing(map[], map[], map[], 0.0)
    ensures Draws(blank, blank, Nil, 0, opts) && Elements(Nodes(Nil)) == {} && forall f :: Join(Nil, f) == f
  {
  }

  lemma DrawnForest(blank: Drawing, now: Drawing, f: Forest, opts: Options)
    requires Draws(blank, now, f, 0, opts)
    ensures LaidOut(f, 0, blank.cursor, opts, now.positions) && Recorded(f, 0, now.depths, now.kids)
  {
  }

  method Groups(roots: seq<nat>, kids: Children, ghost forest: Forest, ghost depths: map<nat, nat>)
    returns (groups: seq<seq<nat>>)
    requires Recorded(forest, 0, depths, kids) && roots == Roots(forest)
    ensures groups == Trees(forest)
  {
    groups := [];
    ghost var rest := forest;
    for i := 0 to |roots|
      invariant Roots(rest) == roots[i..] && Recorded(rest, 0, depths, kids)
      invariant groups + Trees(rest) == Trees(forest)
    {
      assert roots[i..] == [roots[i]] + roots[i + 1..];
      var members := Subtree(roots[i], kids, rest.kids, depths, 0);
      groups := groups + [members];
      rest := rest.rest;
    }
  }

  // ---- What the layout promises --------------------------------------------------------------------------

  /** Every node is drawn, in exactly one place of exactly one tree. */
  lemma EveryNodeOnce(cards: seq<Card>, edges: set<Edge>, opts: Options, adj: Adjacency, forest: Forest,
                      positions: Positions, forced: nat)
    requires IsLineage(cards, edges, opts, adj, forest, positions, forced)
    ensures NoRepeat(Nodes(forest)) && Elements(Nodes(forest)) == Present(Ids(cards)) == positions.Keys
    ensures FirstClaims(adj, forest, {}) && Flatten(Trees(forest)) == Nodes(forest)
  {
    hide Run, LaidOut, ListsSuccs, SourceCards, IndexById, FirstClaims;
    var all, meta, sources := Present(Ids(cards)), IndexById(cards), Ids(SortBy(SourceCards(cards, edges), Before));
    SortedSources(cards, edges);
    assert Elements(sources + Ids(cards)) == all;
    RunAppend(adj, meta, all, {}, sources, Ids(cards));
    RunIsExact(adj, meta, all, {}, sources + Ids(cards));
    RunClaimsFirst(adj, meta, all, sources + Ids(cards));
    TreesHoldEveryNode(forest);
  }

  lemma OneRowPerLevel(j: nat, k: nat, gapY: real)
    requires gapY > 0.0 && Row(j, gapY) == Row(k, gapY)
    ensures j == k
  {
  }

  /** No two nodes drawn in the same row are closer than one column gap. */
  lemma RowsDoNotOverlap(cards: seq<Card>, edges: set<Edge>, opts: Options, adj: Adjacency, forest: Forest,
                         positions: Positions, forced: nat, m: nat, n: nat)
    requires IsLineage(cards, edges, opts, adj, forest, positions, forced)
    requires m != n && m in positions && n in positions && positions[m].y == positions[n].y
    ensures Apart(positions, m, n, opts.GapX())
  {
    hide Run, ListsSuccs, SourceCards, IndexById, Closed, Row, LaidOut;
    assert m in Elements(Nodes(forest)) && n in Elements(Nodes(forest));
    var j := NodesHaveLevels(forest, 0, m);
    var k := NodesHaveLevels(forest, 0, n);
    StaysInColumns(forest, 0, 0.0, opts, positions, m, j);
    StaysInColumns(forest, 0, 0.0, opts, positions, n, k);
    OneRowPerLevel(j, k, opts.GapY());
    LevelsDoNotOverlap(forest, 0, 0.0, opts, positions, m, n, k);
  }

  /** Some path leads to n from a node without predecessors. */
  ghost predicate Descends(cards: seq<Card>, edges: set<Edge>, adj: Adjacency, n: nat) {
    exists w :: Path(adj, w) && w[0] in Ids(cards) && Preds(edges, w[0]) == {} && w[|w| - 1] == n
  }

  /** A root is forced exactly when some node cannot be reached from a node without predecessors. */
  lemma ForcedIffUnreachable(cards: seq<Card>, edges: set<Edge>, opts: Options, adj: Adjacency, forest: Forest,
                             positions: Positions, forced: nat)
    requires IsLineage(cards, edges, opts, adj, forest, positions, forced)
    ensures forced == 0 <==> forall n :: n in Ids(cards) ==> Descends(cards, edges, adj, n)
  {
    hide Run, LaidOut, ListsSuccs, SourceCards, IndexById, Closed;
    var all, meta, sources := Present(Ids(cards)), IndexById(cards), Ids(SortBy(SourceCards(cards, edges), Before));
    SortedSources(cards, edges);
    assert Elements(sources) <= all && Elements(Ids(cards)) == all;
    RunIsExact(adj, meta, all, {}, sources);
    var first := Run(adj, meta, all, {}, sources);
    RunIsExact(adj, meta, all, first.visited, Ids(cards));
    var second := Run(adj, meta, all, first.visited, Ids(cards));
    assert second.visited == all;
    if forced == 0 {
      assert second.forest.Grow? ==> Roots(second.forest) != [];
      assert Nodes(second.forest) == [] && Elements([]) == {};
    } else {
      RootsAreNodes(second.forest);
      var n := Roots(second.forest)[0];
      assert n in Elements(Roots(second.forest));
      assert n in all && n !in first.visited;
    }
    forall n | n in Ids(cards) ensures n in first.visited <==> Descends(cards, edges, adj, n) {
      RunPlacesReachable(adj, meta, all, sources, n);
    }
  }
}
