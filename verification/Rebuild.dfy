/** Building each selected rule's graph anew, over whatever earlier runs left. */
module Rebuild {
  import opened GraphRegistry
  import opened RelationStore

  const BATCH_SIZE := 512

  /** A rule, with what its matcher finds in the events of this build. */
  datatype Rule = Rule(id: string, name: string, description: string, algorithm: string, findings: seq<Finding>)

  /** A finding with the rule, the graph and the time the build stamps on it. */
  function Stamp(f: Finding, rule: Rule, g: nat, now: int): Relation {
    Relation(f, g, rule.id, rule.algorithm, now)
  }

  function Stamped(rule: Rule, g: nat, now: int): (r: seq<Relation>)
    ensures |r| == |rule.findings| && forall i :: 0 <= i < |r| ==> r[i] == Stamp(rule.findings[i], rule, g, now)
    ensures forall i :: 0 <= i < |r| ==> r[i].finding == rule.findings[i] && r[i].graphId == g && r[i].ruleId == rule.id
                                         && r[i].algorithm == rule.algorithm && r[i].createdAt == now
  {
    seq(|rule.findings|, i requires 0 <= i < |rule.findings| => Stamp(rule.findings[i], rule, g, now))
  }

  lemma {:induction false} StampedContent(rels: seq<Relation>, g: nat, other: nat)
    requires forall i :: 0 <= i < |rels| ==> rels[i].graphId == g
    ensures OfGraph(rels, g) == rels && (other != g ==> OfGraph(rels, other) == [])
  {
    if rels != [] {
      StampedContent(rels[..|rels| - 1], g, other);
      assert rels == rels[..|rels| - 1] + [rels[|rels| - 1]];
    }
  }

  /** Every graph but g has the relations, and the unindexed ones, it had. */
  ghost predicate OthersKept(was: seq<Edge>, now: seq<Edge>, g: nat) {
    forall other :: other != g ==> InGraph(now, other) == InGraph(was, other) && Hidden(now, other) == Hidden(was, other)
  }

  lemma Appended(edges: seq<Edge>, rels: seq<Relation>, first: nat, k: nat, g: nat)
    requires forall i :: 0 <= i < |rels| ==> rels[i].graphId == g
    ensures var now := edges + Edges(rels, first, k);
            InGraph(now, g) == InGraph(edges, g) + rels && OthersContent(edges, now, g) &&
            (k >= |rels| ==> Hidden(now, g) == Hidden(edges, g) && OthersKept(edges, now, g))
  {
    var more := Edges(rels, first, k);
    InGraphJoin(edges, more, g);
    NewEdgesContent(rels, first, k, g);
    StampedContent(rels, g, g);
    forall other | other != g
      ensures InGraph(edges + more, other) == InGraph(edges, other)
      ensures k >= |rels| ==> Hidden(edges + more, other) == Hidden(edges, other)
    {
      InGraphJoin(edges, more, other);
      NewEdgesContent(rels, first, k, other);
      StampedContent(rels, g, other);
    }
  }

  ghost predicate OthersContent(was: seq<Edge>, now: seq<Edge>, g: nat) {
    forall other :: other != g ==> InGraph(now, other) == InGraph(was, other)
  }

  lemma Cleared(edges: seq<Edge>, g: nat)
    ensures InGraph(Without(edges, g), g) == Hidden(edges, g) == Hidden(Without(edges, g), g)
    ensures OthersKept(edges, Without(edges, g), g)
  {
    forall other | other != g
      ensures InGraph(Without(edges, g), other) == InGraph(edges, other)
      ensures Hidden(Without(edges, g), other) == Hidden(edges, other)
    {
      ClearingKeepsOthers(edges, g, other);
    }
    ClearingKeepsOthers(edges, g, g);
  }

  lemma KeptTwice(a: seq<Edge>, b: seq<Edge>, c: seq<Edge>, g: nat)
    requires OthersKept(a, b, g)
    ensures OthersKept(b, c, g) ==> OthersKept(a, c, g)
    ensures OthersContent(b, c, g) ==> OthersContent(a, c, g)
    ensures OthersContent(a, b, g)
  {
  }

  datatype Discard = Discarded | Stays | CannotDiscard

  class Builder {
    const store: Store
    const graphs: Registry
    /** Nobody cancels the build. */
    const undisturbed: bool

    constructor (store: Store, graphs: Registry, undisturbed: bool)
      ensures this.store == store && this.graphs == graphs && this.undisturbed == undisturbed
    {
      this.store, this.graphs, this.undisturbed := store, graphs, undisturbed;
    }

    /** Nothing can keep a build from ending. */
    predicate Smooth() {
      undisturbed && store.reliable && graphs.reliable
    }

    ghost predicate Valid()
      reads store, graphs
    {
      store.Valid() && graphs.Valid()
    }

    /** Removes a graph a run left empty, unless it is the one being looked at or the last. */
    method DiscardEmptyGraph(g: nat) returns (d: Discard)
      requires Valid()
      modifies graphs
      ensures Valid() && graphs.nextId == old(graphs.nextId) && graphs.issued == old(graphs.issued)
      ensures d == Stays <==> g == old(graphs.activeId) || |old(graphs.graphs)| == 1 || !Has(old(graphs.graphs), g)
      ensures d == Stays ==> graphs.graphs == old(graphs.graphs)
      ensures d == Discarded ==> !Has(graphs.graphs, g)
      ensures Shrunk(old(graphs.graphs), graphs.graphs, g) && graphs.activeId == old(graphs.activeId)
      ensures graphs.reliable ==> d != CannotDiscard
    {
      if graphs.activeId == g {
        return Stays;
      }
      var a := graphs.Delete(g);
      match a
      case Ok(_) => d := Discarded;
      case NotFound => d := Stays;
      case LastGraph => d := Stays;
      case Failed => d := CannotDiscard;
    }

    method WriteBatch(batch: seq<Relation>, g: nat) returns (ok: bool)
      requires store.Valid() && forall k :: 0 <= k < |batch| ==> batch[k].graphId == g
      modifies store
      ensures store.Valid() && OthersContent(old(store.edges), store.edges, g)
      ensures ok ==> OthersKept(old(store.edges), store.edges, g)
      ensures ok ==> InGraph(store.edges, g) == InGraph(old(store.edges), g) + batch
      ensures ok ==> Hidden(store.edges, g) == Hidden(old(store.edges), g)
      ensures store.reliable ==> ok
    {
      ok := store.InsertRelations(batch);
      forall k: nat ensures OthersContent(old(store.edges), old(store.edges) + Edges(batch, old(store.nextId), k), g) {
        Appended(old(store.edges), batch, old(store.nextId), k, g);
      }
      Appended(old(store.edges), batch, old(store.nextId), |batch|, g);
    }

    /** Clears a rule's graph and writes what the rule finds now, a batch at a time. Stopped anywhere, it leaves
        every other graph's relations alone. */
    method WriteGraph(rule: Rule, g: nat, now: int) returns (ok: bool, written: nat)
      requires store.Valid()
      modifies store
      ensures store.Valid() && OthersContent(old(store.edges), store.edges, g)
      ensures ok ==> OthersKept(old(store.edges), store.edges, g) && written == |rule.findings|
      ensures ok ==> InGraph(store.edges, g) == Hidden(old(store.edges), g) + Stamped(rule, g, now)
      ensures ok ==> Hidden(store.edges, g) == Hidden(old(store.edges), g)
      ensures undisturbed && store.reliable ==> ok
    {
      hide OthersKept, OthersContent, Stamped, InGraph, Hidden, Without;
      ok, written := false, 0;
      Cleared(old(store.edges), g);
      ghost var base := Without(old(store.edges), g);
      KeptTwice(old(store.edges), base, base, g);
      SameEdges(old(store.edges), g);
      SameEdges(base, g);
      var cleared := store.DeleteGraphRelations(g);
      if !cleared {
        return;
      }
      ghost var all := Stamped(rule, g, now);
      var batch: seq<Relation> := [];
      for i := 0 to |rule.findings|
        invariant store.Valid() && OthersKept(base, store.edges, g) && |all| == |rule.findings|
        invariant |batch| < BATCH_SIZE && written + |batch| == i
        invariant forall k :: 0 <= k < |batch| ==> batch[k].graphId == g
        invariant Hidden(store.edges, g) == Hidden(base, g)
        invariant InGraph(store.edges, g) + batch == InGraph(base, g) + all[..i]
      {
        KeptTwice(base, store.edges, store.edges, g);
        KeptTwice(old(store.edges), base, store.edges, g);
        var cancelled: bool := *;
        if cancelled && !undisturbed {
          ok := false;
          return;
        }
        var rel := Stamp(rule.findings[i], rule, g, now);
        assert InGraph(store.edges, g) + (batch + [rel]) == InGraph(store.edges, g) + batch + [rel];
        batch := batch + [rel];
        NextStamp(rule, g, now, i);
        assert all[..i + 1] == all[..i] + [rel];
        assert InGraph(base, g) + all[..i] + [rel] == InGraph(base, g) + all[..i + 1];
        if |batch| >= BATCH_SIZE {
          ghost var before := store.edges;
          ok := WriteBatch(batch, g);
          KeptTwice(base, before, store.edges, g);
          KeptTwice(old(store.edges), base, store.edges, g);
          if !ok {
            return;
          }
          written := written + |batch|;
          batch := [];
        }
      }
      assert all[..|rule.findings|] == all;
      ghost var before := store.edges;
      ok := WriteBatch(batch, g);
      KeptTwice(base, before, store.edges, g);
      KeptTwice(old(store.edges), base, store.edges, g);
      if ok {
        written := written + |batch|;
      }
    }

    /** Builds one rule's graph: finds or creates it, clears it, writes it, and drops it again when the rule found
        nothing. */
    method RunRule(rule: Rule, now: int) returns (ok: bool, g: nat)
      requires Valid() && rule.id != ""
      modifies store, graphs
      ensures Valid() && old(graphs.issued) <= graphs.issued && OthersContent(old(store.edges), store.edges, g)
      ensures OwnersKept(old(graphs.graphs), old(graphs.issued), graphs.graphs, graphs.issued, rule, g, ok)
      ensures Claims(old(graphs.graphs), old(graphs.issued), rule, g) && Kin(old(graphs.graphs), graphs.graphs, old(graphs.issued), [rule])
      ensures ok ==> Rebuilt(old(store.edges), store.edges, rule, g, now)
      ensures ok ==> Belongs(graphs.graphs, graphs.issued, g, rule.id)
      ensures ok && rule.findings != [] ==> Bound(graphs.graphs, g, rule.id)
      ensures Smooth() ==> ok
    {
      hide OthersKept, OthersContent, Stamped, InGraph, Hidden, WellKept, Bound, Grown, Shrunk, Belongs, Has, DistinctIds, Claims, Kin, TookFirst;
      ok, g := false, 0;
      assert g !in graphs.issued;
      SameEdges(store.edges, g);
      ghost var was, issued := graphs.graphs, graphs.issued;
      var a := graphs.EnsureForRule(rule.id, rule.name, rule.description, now);
      ghost var mid := graphs.graphs;
      OwnersOnGrowing(was, issued, mid, graphs.issued, rule);
      KinOnGrowing(was, mid, issued, rule);
      NotIssued(was, issued, rule, g);
      if !a.Ok? {
        return;
      }
      g := a.graph.id;
      Listed(mid, graphs.issued, g, rule.id);
      ClaimsBound(was, mid, issued, rule, g);
      var written;
      ok, written := WriteGraph(rule, g, now);
      if ok && written == 0 {
        var d := DiscardEmptyGraph(g);
        OwnersOnShrinking(was, issued, mid, graphs.graphs, graphs.issued, rule, g);
        KinOnShrinking(was, mid, graphs.graphs, issued, [rule], g);
        ok := d != CannotDiscard;
      }
    }

    /** Builds the i-th rule's graph on top of those before it. `was` is what the store held before the build, `left` what
        it held after the repair, and `listed` the graphs there were. */
    method RunNext(rules: seq<Rule>, i: nat, now: int, ghost was: seq<Edge>, ghost left: seq<Edge>,
                   ghost listed: seq<Graph>, ghost known: set<nat>, ghost touched: seq<nat>)
      returns (ok: bool, g: nat)
      requires Valid() && Selection(rules) && i < |rules| && |touched| == i
      requires Finished(left, store.edges, rules[..i], touched, now)
      requires Owned(graphs.graphs, graphs.issued, rules[..i], touched)
      requires forall x :: InGraph(left, x) == InGraph(was, x)
      requires WellKept(listed, known) && known <= graphs.issued
      requires Kin(listed, graphs.graphs, known, rules) && NoneTaken(listed, rules, touched)
      modifies store, graphs
      ensures Valid() && old(graphs.issued) <= graphs.issued && NoneTaken(listed, rules, touched + [g])
      ensures forall x :: x !in touched + [g] ==> InGraph(store.edges, x) == InGraph(was, x)
      ensures ok ==> Finished(left, store.edges, rules[..i + 1], touched + [g], now)
      ensures ok ==> Owned(graphs.graphs, graphs.issued, rules[..i + 1], touched + [g])
      ensures ok ==> Kin(listed, graphs.graphs, known, rules)
      ensures Smooth() ==> ok
    {
      hide Claims, Kin, NoneTaken, Finished, Owned, Selection, InGraph, Hidden, OwnersKept, Rebuilt, Belongs, Bound, WellKept, OthersContent, DistinctIds, Has;
      OnlyTouched(was, left, store.edges, rules[..i], touched, now);
      ghost var before, issued, edges := graphs.graphs, graphs.issued, store.edges;
      SelectedRule(rules, i);
      ok, g := RunRule(rules[i], now);
      TakenIsClaimed(listed, known, before, issued, rules, i, g, touched);
      KinTwice(listed, before, graphs.graphs, known, issued, rules, i);
      OneMoreTouched(was, edges, store.edges, touched, g);
      if ok {
        OwnedNext(before, issued, graphs.graphs, graphs.issued, rules, touched, i, g);
        FinishedNext(left, edges, store.edges, rules, touched, i, g, now);
      }
    }

    /** One build: repairs the index, then builds each selected rule's graph, until it is cancelled or a step fails.
        Repairing may fail; the build goes on all the same. `touched` is the graph of each rule begun. No other graph
        changes, and none that was listed is touched unless it is a selected rule's, or free under the name of one. */
    method Run(rules: seq<Rule>, now: int)
      returns (ok: bool, repaired: bool, touched: seq<nat>, ghost left: seq<Edge>)
      requires Valid() && Selection(rules)
      modifies store, graphs
      ensures Valid() && MoreIndexed(old(store.edges), left) && (repaired && rules != [] ==> AllIndexed(left))
      ensures old(graphs.issued) <= graphs.issued
      ensures forall g :: g !in touched ==> InGraph(store.edges, g) == InGraph(old(store.edges), g)
      ensures forall h :: h in old(graphs.graphs) && !MayTake(h, rules) ==>
                h.id !in touched && InGraph(store.edges, h.id) == InGraph(old(store.edges), h.id)
      ensures ok ==> |touched| == |rules| && Finished(left, store.edges, rules, touched, now)
      ensures ok ==> Owned(graphs.graphs, graphs.issued, rules, touched)
      ensures (Smooth() ==> ok) && (store.reliable && rules != [] ==> repaired)
    {
      hide Claims, Kin, MayTake, Finished, Owned, Selection, InGraph, Hidden, MoreIndexed, AllIndexed, Belongs, Bound, OthersContent, DistinctIds, Has;
      ghost var was, listed, known := store.edges, graphs.graphs, graphs.issued;
      assert WellKept(listed, known);
      hide WellKept, Kept;
      KinAtFirst(listed, known, rules);
      ok, repaired, touched, left := true, false, [], store.edges;
      NotIndexedYet(left);
      if |rules| == 0 {
        NothingBuilt(left, graphs.graphs, graphs.issued, rules, now);
        return;
      }
      var count;
      repaired, count := store.RepairRelationIndex();
      left := store.edges;
      NothingBuilt(left, graphs.graphs, graphs.issued, rules, now);
      RepairKeepsContent(was, left);
      for i := 0 to |rules|
        invariant Valid() && |touched| == i && ok && known <= graphs.issued
        invariant Finished(left, store.edges, rules[..i], touched, now)
        invariant Owned(graphs.graphs, graphs.issued, rules[..i], touched)
        invariant Kin(listed, graphs.graphs, known, rules) && NoneTaken(listed, rules, touched)
        invariant forall g :: g !in touched ==> InGraph(store.edges, g) == InGraph(was, g)
      {
        var cancelled: bool := *;
        if cancelled && !undisturbed {
          ok := false;
          return;
        }
        var g;
        ok, g := RunNext(rules, i, now, was, left, listed, known, touched);
        touched := touched + [g];
        if !ok {
          return;
        }
      }
      assert rules[..|rules|] == rules;
    }
  }

  /** Rules as a build selects them: each with an id, and the same rule for the same id. */
  ghost predicate Selection(rules: seq<Rule>) {
    && (forall i :: 0 <= i < |rules| ==> rules[i].id != "")
    && forall i, j :: 0 <= i < |rules| && 0 <= j < |rules| && rules[i].id == rules[j].id ==> rules[i] == rules[j]
  }

  lemma SelectedRule(rules: seq<Rule>, i: nat)
    requires Selection(rules) && i < |rules|
    ensures rules[i].id != ""
  {
  }

  /** Each rule's graph holds exactly what the rule finds now, after what the repair left hidden; every other graph is
      as it was. */
  ghost predicate Finished(left: seq<Edge>, edges: seq<Edge>, rules: seq<Rule>, built: seq<nat>, now: int)
    requires |built| == |rules|
  {
    && (forall k :: 0 <= k < |built| ==> InGraph(edges, built[k]) == Hidden(left, built[k]) + Stamped(rules[k], built[k], now))
    && (forall g :: g !in built ==> InGraph(edges, g) == InGraph(left, g))
    && (forall g :: Hidden(edges, g) == Hidden(left, g))
  }

  /** Each graph is its rule's own, two rules never share one, and a rule that found something has one. */
  ghost predicate Owned(graphs: seq<Graph>, issued: set<nat>, rules: seq<Rule>, built: seq<nat>)
    requires |built| == |rules|
  {
    && (forall k :: 0 <= k < |built| ==> Belongs(graphs, issued, built[k], rules[k].id))
    && (forall k :: 0 <= k < |built| && rules[k].findings != [] ==> Bound(graphs, built[k], rules[k].id))
    && (forall j, k :: 0 <= j < k < |built| && rules[j].id != rules[k].id ==> built[j] != built[k])
  }

  lemma NotIndexedYet(edges: seq<Edge>)
    ensures MoreIndexed(edges, edges)
  {
  }

  lemma NothingBuilt(left: seq<Edge>, graphs: seq<Graph>, issued: set<nat>, rules: seq<Rule>, now: int)
    ensures Finished(left, left, [], [], now) && Owned(graphs, issued, [], []) && rules[..0] == []
    ensures rules == [] ==> Finished(left, left, rules, [], now) && Owned(graphs, issued, rules, [])
  {
  }

  lemma RepairKeepsContent(was: seq<Edge>, left: seq<Edge>)
    requires MoreIndexed(was, left)
    ensures forall g :: InGraph(left, g) == InGraph(was, g)
  {
    forall g ensures InGraph(left, g) == InGraph(was, g) {
      IndexingKeepsContent(was, left, g);
    }
  }

  lemma OnlyTouched(was: seq<Edge>, left: seq<Edge>, edges: seq<Edge>, rules: seq<Rule>, built: seq<nat>, now: int)
    requires |built| == |rules| && Finished(left, edges, rules, built, now)
    requires forall g :: InGraph(left, g) == InGraph(was, g)
    ensures forall g :: g !in built ==> InGraph(edges, g) == InGraph(was, g)
  {
  }

  lemma OneMoreTouched(was: seq<Edge>, before: seq<Edge>, edges: seq<Edge>, touched: seq<nat>, g: nat)
    requires forall x :: x !in touched ==> InGraph(before, x) == InGraph(was, x)
    requires OthersContent(before, edges, g)
    ensures forall x :: x !in touched + [g] ==> InGraph(edges, x) == InGraph(was, x)
  {
  }

  lemma OwnedNext(was: seq<Graph>, issued: set<nat>, now: seq<Graph>, more: set<nat>, rules: seq<Rule>, built: seq<nat>,
                  i: nat, g: nat)
    requires i < |rules| && |built| == i && Selection(rules) && Owned(was, issued, rules[..i], built)
    requires OwnersKept(was, issued, now, more, rules[i], g, true)
    requires Belongs(now, more, g, rules[i].id) && (rules[i].findings != [] ==> Bound(now, g, rules[i].id))
    ensures Owned(now, more, rules[..i + 1], built + [g])
    ensures forall k :: 0 <= k < i && rules[k].id != rules[i].id ==> built[k] != g
  {
    hide Belongs, Bound;
    var all := built + [g];
    forall k | 0 <= k < i
      ensures Belongs(now, more, built[k], rules[k].id)
      ensures rules[k].findings != [] ==> Bound(now, built[k], rules[k].id)
      ensures rules[k].id != rules[i].id ==> built[k] != g
    {
      assert rules[..i][k] == rules[k];
      assert OwnerKept(was, issued, now, more, rules[i], g, true, built[k], rules[k].id);
    }
  }

  lemma FinishedNext(left: seq<Edge>, edges: seq<Edge>, after: seq<Edge>, rules: seq<Rule>, built: seq<nat>, i: nat, g: nat,
                     now: int)
    requires i < |rules| && |built| == i && Selection(rules) && Finished(left, edges, rules[..i], built, now)
    requires Rebuilt(edges, after, rules[i], g, now)
    requires forall k :: 0 <= k < i && rules[k].id != rules[i].id ==> built[k] != g
    ensures Finished(left, after, rules[..i + 1], built + [g], now)
  {
  }

  /** A rule's graph holds exactly the freshly stamped findings if and only if the repair left none of its edges
      hidden; when the repair ran to its end, none is. */
  lemma RebuiltExactlyIff(left: seq<Edge>, edges: seq<Edge>, rules: seq<Rule>, built: seq<nat>, now: int, k: nat)
    requires |built| == |rules| && k < |rules| && Finished(left, edges, rules, built, now)
    ensures InGraph(edges, built[k]) == Stamped(rules[k], built[k], now) <==> Hidden(left, built[k]) == []
    ensures AllIndexed(left) ==> InGraph(edges, built[k]) == Stamped(rules[k], built[k], now)
  {
    var g := built[k];
    if AllIndexed(left) {
      IndexingKeepsContent(left, left, g);
    }
    hide InGraph, Hidden, Stamped;
    assert InGraph(edges, g) == Hidden(left, g) + Stamped(rules[k], g, now);
    if Hidden(left, g) == [] {
      assert Hidden(left, g) + Stamped(rules[k], g, now) == Stamped(rules[k], g, now);
    } else {
      assert |InGraph(edges, g)| > |Stamped(rules[k], g, now)|;
    }
  }

  /** After a rule's run its graph holds what it finds now, after whatever was hidden from the clearing; every other
      graph is as it was. */
  ghost predicate Rebuilt(was: seq<Edge>, now: seq<Edge>, rule: Rule, g: nat, time: int) {
    && InGraph(now, g) == Hidden(was, g) + Stamped(rule, g, time) && Hidden(now, g) == Hidden(was, g)
    && OthersKept(was, now, g)
  }

  /** A run for one rule takes no graph from another, and loses the rule's own only when it finds nothing. */
  ghost predicate OwnersKept(was: seq<Graph>, issued: set<nat>, now: seq<Graph>, more: set<nat>, rule: Rule, g: nat,
                             ok: bool) {
    forall id, r :: r != "" ==> OwnerKept(was, issued, now, more, rule, g, ok, id, r)
  }

  ghost predicate OwnerKept(was: seq<Graph>, issued: set<nat>, now: seq<Graph>, more: set<nat>, rule: Rule, g: nat,
                            ok: bool, id: nat, r: string) {
    && (Belongs(was, issued, id, r) ==> Belongs(now, more, id, r) && (ok && r != rule.id ==> id != g))
    && (Bound(was, id, r) && (r != rule.id || rule.findings != []) ==> Bound(now, id, r))
  }

  /** The graph found for a rule is its own, and no other rule's. */
  lemma Listed(graphs: seq<Graph>, issued: set<nat>, g: nat, ruleId: string)
    requires Bound(graphs, g, ruleId) && WellKept(graphs, issued)
    ensures Belongs(graphs, issued, g, ruleId)
  {
  }

  lemma OwnersOnGrowing(was: seq<Graph>, issued: set<nat>, mid: seq<Graph>, more: set<nat>, rule: Rule)
    requires WellKept(was, issued) && WellKept(mid, more) && issued <= more && Grown(was, mid, issued, rule.id, rule.name)
    ensures forall g :: Bound(mid, g, rule.id) ==> OwnersKept(was, issued, mid, more, rule, g, true)
    ensures forall g :: OwnersKept(was, issued, mid, more, rule, g, false)
  {
  }

  // ---- Which graphs a build may take -----------------------------------------------------------------

  /** The graph is one of these rules', or is free under the name of one. */
  ghost predicate MayTake(h: Graph, rules: seq<Rule>) {
    exists r :: r in rules && (h.ruleId == r.id || Free(h, r.name))
  }

  ghost predicate NoneTaken(listed: seq<Graph>, rules: seq<Rule>, touched: seq<nat>) {
    forall h :: h in listed && !MayTake(h, rules) ==> h.id !in touched
  }

  /** This graph is new, or the rule may take it. */
  ghost predicate Claims(was: seq<Graph>, issued: set<nat>, rule: Rule, g: nat) {
    g !in issued || exists y :: y in was && y.id == g && MayTake(y, [rule])
  }

  /** Every graph listed now is new, or was listed under its name and its owner before, or was free under the name of the
      rule that has it now. */
  ghost predicate Kin(was: seq<Graph>, now: seq<Graph>, issued: set<nat>, rules: seq<Rule>) {
    forall x :: x in now && x.id in issued ==> exists y :: y in was && Became(y, x, rules)
  }

  ghost predicate Became(y: Graph, x: Graph, rules: seq<Rule>) {
    && y.id == x.id && y.name == x.name
    && (y.ruleId == x.ruleId || exists r :: r in rules && x.ruleId == r.id && Free(y, r.name))
  }

  lemma KinAtFirst(was: seq<Graph>, issued: set<nat>, rules: seq<Rule>)
    ensures Kin(was, was, issued, rules)
  {
    forall x | x in was ensures Became(x, x, rules) {
    }
  }

  lemma KinOnGrowing(was: seq<Graph>, mid: seq<Graph>, issued: set<nat>, rule: Rule)
    requires Grown(was, mid, issued, rule.id, rule.name)
    ensures Kin(was, mid, issued, [rule])
  {
    forall x | x in mid && x.id in issued ensures exists y :: y in was && Became(y, x, [rule]) {
      var k :| 0 <= k < |mid| && mid[k] == x;
      assert rule in [rule] && was[k] in was && Became(was[k], x, [rule]);
    }
  }

  lemma KinOnShrinking(was: seq<Graph>, mid: seq<Graph>, now: seq<Graph>, issued: set<nat>, rules: seq<Rule>, g: nat)
    requires Kin(was, mid, issued, rules) && Shrunk(mid, now, g)
    ensures Kin(was, now, issued, rules)
  {
    hide Became;
  }

  lemma NotIssued(was: seq<Graph>, issued: set<nat>, rule: Rule, g: nat)
    requires g !in issued
    ensures Claims(was, issued, rule, g)
  {
  }

  lemma ClaimsBound(was: seq<Graph>, mid: seq<Graph>, issued: set<nat>, rule: Rule, g: nat)
    requires Grown(was, mid, issued, rule.id, rule.name) && Bound(mid, g, rule.id)
    ensures Claims(was, issued, rule, g)
  {
    var k :| 0 <= k < |mid| && mid[k].id == g && mid[k].ruleId == rule.id;
    if g in issued {
      assert rule in [rule] && was[k] in was && MayTake(was[k], [rule]);
    }
  }

  lemma BecameTwice(z: Graph, y: Graph, x: Graph, rules: seq<Rule>, i: nat)
    requires i < |rules| && Became(z, y, rules) && Became(y, x, [rules[i]])
    ensures Became(z, x, rules)
  {
    assert rules[i] in rules;
  }

  lemma KinTwice(listed: seq<Graph>, was: seq<Graph>, now: seq<Graph>, known: set<nat>, issued: set<nat>, rules: seq<Rule>,
                 i: nat)
    requires i < |rules| && known <= issued && Kin(listed, was, known, rules) && Kin(was, now, issued, [rules[i]])
    ensures Kin(listed, now, known, rules)
  {
    forall x | x in now && x.id in known ensures exists z :: z in listed && Became(z, x, rules) {
      var y :| y in was && Became(y, x, [rules[i]]);
      var z :| z in listed && Became(z, y, rules);
      BecameTwice(z, y, x, rules, i);
    }
  }

  /** What the rule takes was no graph a build of these rules may not take. */
  lemma TakenIsClaimed(listed: seq<Graph>, known: set<nat>, was: seq<Graph>, issued: set<nat>, rules: seq<Rule>, i: nat,
                       g: nat, touched: seq<nat>)
    requires WellKept(listed, known) && Kin(listed, was, known, rules) && known <= issued && i < |rules|
    requires Claims(was, issued, rules[i], g) && NoneTaken(listed, rules, touched)
    ensures NoneTaken(listed, rules, touched + [g])
  {
    forall h | h in listed && h.id == g ensures MayTake(h, rules) {
      assert g in known;
      var y :| y in was && y.id == g && MayTake(y, [rules[i]]);
      var z :| z in listed && Became(z, y, rules);
      assert z == h && rules[i] in rules;
    }
  }

  lemma NextStamp(rule: Rule, g: nat, now: int, i: nat)
    requires i < |rule.findings|
    ensures Stamped(rule, g, now)[i] == Stamp(rule.findings[i], rule, g, now)
  {
  }

  lemma SameEdges(edges: seq<Edge>, g: nat)
    ensures OthersContent(edges, edges, g) && OthersKept(edges, edges, g)
  {
  }

  lemma OwnersOnShrinking(was: seq<Graph>, issued: set<nat>, mid: seq<Graph>, now: seq<Graph>, more: set<nat>, rule: Rule,
                          g: nat)
    requires WellKept(mid, more) && WellKept(now, more) && Shrunk(mid, now, g)
    requires OwnersKept(was, issued, mid, more, rule, g, true) && Bound(mid, g, rule.id) && rule.findings == []
    ensures forall ok :: OwnersKept(was, issued, now, more, rule, g, ok)
    ensures Belongs(now, more, g, rule.id)
  {
    Listed(mid, more, g, rule.id);
    hide WellKept, Belongs, Shrunk;
    forall ok, id, r | r != "" ensures OwnerKept(was, issued, now, more, rule, g, ok, id, r) {
      assert OwnerKept(was, issued, mid, more, rule, g, true, id, r);
      ShrinkingKeepsOwners(mid, now, more, g, id, r);
      if id == g && Bound(mid, g, r) {
        BoundOnce(mid, more, g, rule.id, r);
      }
    }
    ShrinkingKeepsOwners(mid, now, more, g, g, rule.id);
  }

  lemma BoundOnce(graphs: seq<Graph>, issued: set<nat>, g: nat, r: string, s: string)
    requires WellKept(graphs, issued) && Bound(graphs, g, r) && Bound(graphs, g, s)
    ensures r == s
  {
  }
}
