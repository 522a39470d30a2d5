/** The registry of named graphs, in memory and as its document holds it, and which rule each of them belongs to. */
module GraphRegistry {

  /** ruleId is empty for a graph no rule produced. */
  datatype Graph = Graph(id: nat, ruleId: string, name: string, description: string, created: int, updated: int)

  datatype Answer = Ok(graph: Graph) | NotFound | LastGraph | Failed

  /** The registry's document. Where there is none it reads as the empty one. */
  datatype Saved = Saved(nextId: nat, activeId: nat, graphs: seq<Graph>)

  function Index(graphs: seq<Graph>, id: nat): (i: int)
    ensures -1 <= i < |graphs|
    ensures i >= 0 ==> graphs[i].id == id && forall k :: 0 <= k < i ==> graphs[k].id != id
    ensures i == -1 ==> forall k :: 0 <= k < |graphs| ==> graphs[k].id != id
  {
    if graphs == [] then -1
    else if graphs[0].id == id then 0
    else
      var i := Index(graphs[1..], id);
      if i < 0 then -1 else i + 1
  }

  ghost predicate Has(graphs: seq<Graph>, id: nat) {
    exists i :: 0 <= i < |graphs| && graphs[i].id == id
  }

  /** A graph bound to this rule is listed under this id. */
  ghost predicate Bound(graphs: seq<Graph>, id: nat, ruleId: string) {
    exists i :: 0 <= i < |graphs| && graphs[i].id == id && graphs[i].ruleId == ruleId
  }

  /** No id twice, none not handed out, and no rule with two graphs. */
  ghost predicate WellKept(graphs: seq<Graph>, issued: set<nat>) {
    && (forall i :: 0 <= i < |graphs| ==> graphs[i].id in issued)
    && (forall i, j :: 0 <= i < j < |graphs| ==> graphs[i].id != graphs[j].id)
    && (forall i, j :: 0 <= i < j < |graphs| && graphs[i].ruleId != "" ==> graphs[i].ruleId != graphs[j].ruleId)
  }

  lemma Removing(graphs: seq<Graph>, issued: set<nat>, i: nat)
    requires WellKept(graphs, issued) && i < |graphs|
    ensures var rest := graphs[..i] + graphs[i + 1..];
            && WellKept(rest, issued) && !Has(rest, graphs[i].id) && Shrunk(graphs, rest, graphs[i].id)
            && (forall id :: id != graphs[i].id && Has(graphs, id) ==> Has(rest, id))
  {
  }

  /** No rule has this graph, and it has the name: a rule of that name may adopt it. */
  predicate Free(g: Graph, name: string) {
    g.ruleId == "" && g.name == name
  }

  /** Graphs keep their ids and names; only one free under the rule's name may have been bound to the rule, and a new one
      is bound to it. */
  ghost predicate Grown(was: seq<Graph>, now: seq<Graph>, issued: set<nat>, ruleId: string, name: string) {
    && |now| >= |was|
    && (forall k :: 0 <= k < |was| ==>
          now[k].id == was[k].id && now[k].name == was[k].name &&
          (now[k].ruleId == was[k].ruleId || (was[k].ruleId == "" && was[k].name == name && now[k].ruleId == ruleId)))
    && (forall k :: |was| <= k < |now| ==> now[k].id !in issued && now[k].ruleId == ruleId && now[k].name == name)
  }

  /** Of the graphs listed only the first free one changed hands; with none free, one graph more is listed. */
  ghost predicate TookFirst(was: seq<Graph>, now: seq<Graph>, ruleId: string, name: string) {
    && |was| <= |now|
    && (forall k :: 0 <= k < |was| ==>
          if Free(was[k], name) && forall j :: 0 <= j < k ==> !Free(was[j], name) then
            now[k].ruleId == ruleId && now[k].id == was[k].id && now[k].name == name
          else now[k] == was[k])
    && |now| == |was| + if exists k :: 0 <= k < |was| && Free(was[k], name) then 0 else 1
  }

  /** At most the graph with this id is gone. */
  ghost predicate Shrunk(was: seq<Graph>, now: seq<Graph>, id: nat) {
    (forall g :: g in now ==> g in was) && (forall g :: g in was && g.id != id ==> g in now)
  }

  /** The id was handed out for this rule: if it is still listed, it is bound to the rule. */
  ghost predicate Belongs(graphs: seq<Graph>, issued: set<nat>, id: nat, ruleId: string) {
    id in issued && (Has(graphs, id) ==> Bound(graphs, id, ruleId))
  }

  lemma GrowingKeepsOwners(was: seq<Graph>, now: seq<Graph>, issued: set<nat>, more: set<nat>, ruleId: string,
                           name: string, id: nat, r: string)
    requires WellKept(was, issued) && WellKept(now, more) && issued <= more && Grown(was, now, issued, ruleId, name) && r != ""
    ensures Belongs(was, issued, id, r) ==> Belongs(now, more, id, r)
    ensures Bound(was, id, r) ==> Bound(now, id, r)
    ensures Belongs(was, issued, id, r) && r != ruleId ==> !Bound(now, id, ruleId)
  {
  }

  lemma ShrinkingKeepsOwners(was: seq<Graph>, now: seq<Graph>, issued: set<nat>, gone: nat, id: nat, r: string)
    requires WellKept(was, issued) && WellKept(now, issued) && Shrunk(was, now, gone)
    ensures Belongs(was, issued, id, r) ==> Belongs(now, issued, id, r)
    ensures Bound(was, id, r) && id != gone ==> Bound(now, id, r)
  {
  }

  /** The ids below this one. */
  ghost function Below(nextId: nat): (ids: set<nat>)
    ensures forall id :: id in ids <==> 0 < id < nextId
  {
    if nextId <= 1 then {} else Below(nextId - 1) + {nextId - 1}
  }

  /** A list of graphs as a registry keeps it, with the next id and the active graph's. */
  ghost predicate Kept(s: Saved) {
    s.nextId > 0 && WellKept(s.graphs, Below(s.nextId)) && (s.activeId != 0 ==> Has(s.graphs, s.activeId))
  }

  /** A graph bound to this rule is listed. */
  ghost predicate HasRule(graphs: seq<Graph>, ruleId: string) {
    ruleId != "" && exists i :: 0 <= i < |graphs| && graphs[i].ruleId == ruleId
  }

  lemma Adding(s: Saved, g: Graph)
    requires Kept(s) && g.id == s.nextId && !HasRule(s.graphs, g.ruleId)
    ensures g.id !in Below(s.nextId) && Below(s.nextId) + {g.id} == Below(s.nextId + 1)
    ensures Kept(Saved(s.nextId + 1, s.activeId, s.graphs + [g])) && Has(s.graphs + [g], g.id)
  {
    var all := s.graphs + [g];
    assert all[|s.graphs|] == g;
    if s.activeId != 0 {
      var i :| 0 <= i < |s.graphs| && s.graphs[i].id == s.activeId;
      assert all[i].id == s.activeId;
    }
  }

  lemma Binding(s: Saved, i: nat, ruleId: string, now: int)
    requires Kept(s) && i < |s.graphs| && ruleId != "" && !HasRule(s.graphs, ruleId)
    ensures Kept(s.(graphs := s.graphs[i := s.graphs[i].(ruleId := ruleId, updated := now)]))
  {
    if s.activeId != 0 {
      var bound := s.graphs[i := s.graphs[i].(ruleId := ruleId, updated := now)];
      var k :| 0 <= k < |s.graphs| && s.graphs[k].id == s.activeId;
      assert bound[k].id == s.activeId;
    }
  }

  // ---- What a reopened registry hands out ------------------------------------------------------------

  /** What a call that changes something does: it hands out the next id, or changes something else. `saved` tells
      whether the document was written. */
  datatype Step = Issue(saved: bool) | Change(saved: bool)

  /** The next id in memory and in the document, after a run that began with both the same. */
  function NextIds(first: nat, steps: seq<Step>): (nat, nat) {
    if steps == [] then (first, first)
    else
      var s, before := steps[|steps| - 1], NextIds(first, steps[..|steps| - 1]);
      var next := if s.Issue? then before.0 + 1 else before.0;
      (next, if s.saved then next else before.1)
  }

  lemma NextStep(first: nat, steps: seq<Step>, s: Step)
    ensures var before := NextIds(first, steps); var next := if s.Issue? then before.0 + 1 else before.0;
            NextIds(first, steps + [s]) == (next, if s.saved then next else before.1)
  {
    assert (steps + [s])[..|steps|] == steps;
  }

  /** Some id was handed out by a call that failed to write the document, and no call has written it since. */
  ghost predicate Unsaved(steps: seq<Step>) {
    exists i :: 0 <= i < |steps| && steps[i] == Issue(false) && forall j :: i < j < |steps| ==> !steps[j].saved
  }

  /** The document's next id is behind exactly then. */
  lemma {:induction false} BehindIffUnsaved(first: nat, steps: seq<Step>)
    ensures first <= NextIds(first, steps).1 <= NextIds(first, steps).0
    ensures NextIds(first, steps).1 < NextIds(first, steps).0 <==> Unsaved(steps)
  {
    if steps != [] {
      var n := |steps| - 1;
      var before, s := steps[..n], steps[n];
      BehindIffUnsaved(first, before);
      if Unsaved(steps) {
        var i :| 0 <= i < |steps| && steps[i] == Issue(false) && forall j :: i < j < |steps| ==> !steps[j].saved;
        assert i < n ==> before[i] == Issue(false) && forall j :: i < j < n ==> before[j] == steps[j];
      }
      if s == Issue(false) {
        assert steps[n] == Issue(false);
      } else if !s.saved && Unsaved(before) {
        var i :| 0 <= i < n && before[i] == Issue(false) && forall j :: i < j < n ==> !before[j].saved;
        assert steps[i] == Issue(false) && forall j :: i < j < |steps| ==> !steps[j].saved;
      }
    }
  }

  class Registry {
    var nextId: nat
    var activeId: nat
    var graphs: seq<Graph>
    var document: Saved
    /** Writing the document never fails. */
    const reliable: bool
    /** Every id handed out, and every one the registry was opened with. */
    ghost var issued: set<nat>
    /** What the calls since it was opened did, from the next id it was opened with. */
    ghost const first: nat
    ghost var steps: seq<Step>

    ghost predicate Valid()
      reads this
    {
      Pending(0)
    }

    /** Everything is in order, but so many ids handed out are not among the steps yet. */
    ghost predicate Pending(ids: nat)
      reads this
    {
      && Kept(Current()) && Kept(document) && issued == Below(nextId)
      && ids <= nextId && NextIds(first, steps) == (nextId - ids, document.nextId)
    }

    /** A call that changed something wrote the document, or failed to. */
    ghost predicate Wrote(ok: bool, was: Saved)
      reads this
    {
      document == if ok then Current() else was
    }

    /** What the document would hold if it were written now. */
    function Current(): Saved
      reads this
    {
      Saved(nextId, activeId, graphs)
    }

    /** Opens a registry on what its document holds. */
    constructor (document: Saved, reliable: bool)
      requires Kept(document)
      ensures this.reliable == reliable && Valid() && Current() == this.document == document && first == document.nextId && steps == []
    {
      nextId, activeId, graphs, this.document := document.nextId, document.activeId, document.graphs, document;
      issued, first, steps, this.reliable := Below(document.nextId), document.nextId, [], reliable;
    }

    /** Writing the document may fail; what is in memory stands. */
    method Persist(ghost issuing: bool) returns (ok: bool)
      requires Pending(if issuing then 1 else 0)
      modifies this`document, this`steps
      ensures Valid() && Wrote(ok, old(document)) && (reliable ==> ok)
      ensures steps == old(steps) + [if issuing then Issue(ok) else Change(ok)]
    {
      hide Kept, Below, NextIds;
      ok := false;
      var fails: bool := *;
      if !fails || reliable {
        document := Saved(nextId, activeId, graphs);
        ok := true;
      }
      NextStep(first, steps, if issuing then Issue(ok) else Change(ok));
      steps := steps + [if issuing then Issue(ok) else Change(ok)];
    }

    /** Opens the registry again on its document. An id handed out before is handed out again exactly when one was
        handed out without being saved, and nothing has been saved since. */
    method Reopened() returns (r: Registry)
      requires Valid()
      ensures fresh(r) && r.Valid() && r.Current() == r.document == document
      ensures r.nextId in issued <==> Unsaved(steps)
      ensures forall id :: id in issued && id !in r.issued <==> r.nextId <= id < nextId
    {
      r := new Registry(document, reliable);
      BehindIffUnsaved(first, steps);
    }

    /** Lists a new graph under an id not handed out before. */
    method Add(ruleId: string, name: string, description: string, now: int) returns (g: Graph)
      requires Valid() && !HasRule(graphs, ruleId)
      modifies this`nextId, this`graphs, this`issued
      ensures Pending(1) && g.id == old(nextId) && g.id !in old(issued) && issued == old(issued) + {g.id}
      ensures graphs == old(graphs) + [g] && g == Graph(g.id, ruleId, name, description, now, now) && Has(graphs, g.id)
    {
      g := Graph(nextId, ruleId, name, description, now, now);
      Adding(Current(), g);
      nextId := nextId + 1;
      graphs := graphs + [g];
      issued := issued + {g.id};
    }

    /** Makes sure some graph exists and one is active. */
    method EnsureDefault(name: string, now: int) returns (a: Answer)
      requires Valid()
      modifies this
      ensures Valid() && graphs != [] && activeId != 0 && old(issued) <= issued
      ensures old(graphs) != [] ==> graphs == old(graphs) && issued == old(issued)
      ensures old(graphs) != [] && old(activeId) != 0 ==> Current() == old(Current()) && document == old(document) && a.Ok?
      ensures a.Ok? ==> a.graph.id == activeId && a.graph in graphs
      ensures if old(graphs) != [] && old(activeId) != 0 then steps == old(steps)
              else Wrote(a.Ok?, old(document)) &&
                   steps == old(steps) + [if old(graphs) == [] then Issue(a.Ok?) else Change(a.Ok?)]
      ensures reliable ==> a.Ok?
    {
      if |graphs| == 0 {
        var g := Add("", name, "", now);
        activeId := g.id;
        assert graphs[0] == g;
        var ok := Persist(true);
        return if ok then Ok(g) else Failed;
      }
      if activeId == 0 {
        activeId := graphs[0].id;
        var ok := Persist(false);
        if !ok {
          return Failed;
        }
      }
      a := Ok(graphs[Index(graphs, activeId)]);
    }

    /** Adds a graph and makes it active. */
    method Create(name: string, description: string, now: int) returns (a: Answer)
      requires Valid()
      modifies this
      ensures Valid() && |graphs| == |old(graphs)| + 1 && graphs[..|old(graphs)|] == old(graphs)
      ensures activeId !in old(issued) && activeId == graphs[|old(graphs)|].id && old(issued) <= issued
      ensures Wrote(a.Ok?, old(document)) && steps == old(steps) + [Issue(a.Ok?)]
      ensures reliable ==> a.Ok?
    {
      var g := Add("", name, description, now);
      activeId := g.id;
      assert graphs[|old(graphs)|] == g;
      var ok := Persist(true);
      a := if ok then Ok(g) else Failed;
    }

    /** The graph of a rule: the one bound to it, else an unbound one of its name, else a new one. One already bound is
        handed back without writing, even when the call that bound it could not write it. */
    method EnsureForRule(ruleId: string, name: string, description: string, now: int) returns (a: Answer)
      requires Valid() && ruleId != ""
      modifies this`nextId, this`graphs, this`issued, this`document, this`steps
      ensures Valid() && old(issued) <= issued
      ensures activeId == old(activeId) && nextId >= old(nextId)
      ensures a.Ok? ==> Bound(graphs, a.graph.id, ruleId)
      ensures Grown(old(graphs), graphs, old(issued), ruleId, name)
      ensures !HasRule(old(graphs), ruleId) ==> TookFirst(old(graphs), graphs, ruleId, name)
      ensures if HasRule(old(graphs), ruleId) then a.Ok? && Current() == old(Current()) && document == old(document) && steps == old(steps)
              else Wrote(a.Ok?, old(document)) &&
                   steps == old(steps) + [if nextId > old(nextId) then Issue(a.Ok?) else Change(a.Ok?)]
      ensures a.Ok? ==> (Bound(document.graphs, a.graph.id, ruleId) <==>
                         !HasRule(old(graphs), ruleId) || Bound(old(document.graphs), a.graph.id, ruleId))
      ensures reliable ==> a.Ok?
    {
      hide Kept, WellKept, NextIds, Below;
      for i := 0 to |graphs|
        invariant Current() == old(Current()) && Valid() && issued == old(issued) && document == old(document)
        invariant steps == old(steps) && forall k :: 0 <= k < i ==> graphs[k].ruleId != ruleId
      {
        if graphs[i].ruleId != "" && graphs[i].ruleId == ruleId {
          return Ok(graphs[i]);
        }
      }
      for i := 0 to |graphs|
        invariant Current() == old(Current()) && Valid() && issued == old(issued) && document == old(document)
        invariant steps == old(steps) && forall k :: 0 <= k < i ==> !Free(graphs[k], name)
      {
        if graphs[i].ruleId == "" && graphs[i].name == name {
          Binding(Current(), i, ruleId, now);
          graphs := graphs[i := graphs[i].(ruleId := ruleId, updated := now)];
          assert graphs[i].ruleId == ruleId;
          var ok := Persist(false);
          return if ok then Ok(graphs[i]) else Failed;
        }
      }
      var g := Add(ruleId, name, description, now);
      assert graphs[|graphs| - 1] == g;
      var ok := Persist(true);
      a := if ok then Ok(g) else Failed;
    }

    /** Takes a graph off the list, unless it is the last. The first one left becomes active if it was. */
    method Delete(id: nat) returns (a: Answer)
      requires Valid()
      modifies this`activeId, this`graphs, this`document, this`steps
      ensures Valid()
      ensures a.NotFound? <==> !Has(old(graphs), id)
      ensures a.LastGraph? <==> Has(old(graphs), id) && |old(graphs)| == 1
      ensures a.NotFound? || a.LastGraph? ==> Current() == old(Current()) && document == old(document) && steps == old(steps)
      ensures a.Ok? || a.Failed? ==>
                graphs != [] && !Has(graphs, id) && (activeId == if old(activeId) == id then graphs[0].id else old(activeId))
                && Shrunk(old(graphs), graphs, id)
                && Wrote(a.Ok?, old(document)) && steps == old(steps) + [Change(a.Ok?)]
      ensures reliable ==> !a.Failed?
    {
      var i := Index(graphs, id);
      if i < 0 {
        return NotFound;
      }
      if |graphs| == 1 {
        return LastGraph;
      }
      var g := graphs[i];
      Removing(graphs, issued, i);
      graphs := graphs[..i] + graphs[i + 1..];
      if activeId == id {
        activeId := graphs[0].id;
      }
      var ok := Persist(false);
      a := if ok then Ok(g) else Failed;
    }
  }
}
