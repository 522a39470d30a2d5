/** The vocabulary of the correlation algorithms, and the record one run fills in. */
module Correlation {

  /** An event as the matchers see it. `timestamp` is in nanoseconds; ZERO_TIME marks an undated event. */
  datatype Event = Event(id: nat, eventID: string, timestamp: int, corrKeys: seq<string>) {
    /** The value in a correlation slot, or "" when the slot is empty or out of range. */
    function CorrelationKey(slot: nat): string {
      if slot < |corrKeys| then corrKeys[slot] else ""
    }
  }

  const ZERO_TIME: int := 0

  datatype Spec = Spec(sequence: seq<string>, labels: seq<string>, relationType: string) {
    function LabelFor(k: nat): string {
      if k < |labels| then labels[k] else ""
    }
  }

  /** The endpoints and the length of a match: the parts its textual id is rendered from. */
  datatype MatchID = MatchID(first: nat, last: nat, steps: nat)

  datatype Relation = Relation(
    source: nat, target: nat, relationType: string, edgeLabel: string, confidence: real,
    matchID: MatchID, stepIndex: nat)

  const EXACT_MATCH := 1.0

  ghost predicate Chronological(events: seq<Event>) {
    forall i, j :: 0 <= i <= j < |events| ==> events[i].timestamp <= events[j].timestamp
  }

  /** Every event has a time, as in what preparation hands on. */
  ghost predicate Dated(events: seq<Event>) {
    forall i :: 0 <= i < |events| ==> events[i].timestamp != ZERO_TIME
  }

  /** Indices into a partition, strictly increasing. */
  ghost predicate Increasing(chain: seq<int>) {
    forall i, j :: 0 <= i < j < |chain| ==> chain[i] < chain[j]
  }

  ghost predicate InRange(chain: seq<int>, n: nat) {
    forall k :: 0 <= k < |chain| ==> 0 <= chain[k] < n
  }

  function ChainID(events: seq<Event>, chain: seq<int>): MatchID
    requires chain != [] && InRange(chain, |events|)
  {
    MatchID(events[chain[0]].id, events[chain[|chain| - 1]].id, |chain|)
  }

  function ChainEdge(spec: Spec, events: seq<Event>, chain: seq<int>, k: nat): Relation
    requires InRange(chain, |events|) && k + 1 < |chain|
  {
    Relation(events[chain[k]].id, events[chain[k + 1]].id, spec.relationType, spec.LabelFor(k), EXACT_MATCH,
             ChainID(events, chain), k)
  }

  /** One edge per consecutive pair of a matched chain. */
  function ChainEdges(spec: Spec, events: seq<Event>, chain: seq<int>): (edges: seq<Relation>)
    requires chain != [] && InRange(chain, |events|)
    ensures |edges| == |chain| - 1
  {
    seq(|chain| - 1, k requires 0 <= k < |chain| - 1 => ChainEdge(spec, events, chain, k))
  }

  /** The part of a result that a completed match changes. */
  datatype Tally = Tally(relations: seq<Relation>, matches: nat, truncated: bool, dropped: nat)

  ghost predicate Chains(events: seq<Event>, chains: seq<seq<int>>) {
    forall c :: 0 <= c < |chains| ==> chains[c] != [] && InRange(chains[c], |events|)
  }

  /** What one more completed match does to a tally under the global match cap. */
  ghost function Offer(spec: Spec, events: seq<Event>, t: Tally, chain: seq<int>, cap: nat): Tally
    requires chain != [] && InRange(chain, |events|)
  {
    if t.matches >= cap then t.(truncated := true, dropped := t.dropped + 1)
    else t.(matches := t.matches + 1, relations := t.relations + ChainEdges(spec, events, chain))
  }

  ghost function Absorb(spec: Spec, events: seq<Event>, t: Tally, chains: seq<seq<int>>, cap: nat): Tally
    requires Chains(events, chains)
  {
    if chains == [] then t
    else
      Offer(spec, events, Absorb(spec, events, t, chains[..|chains| - 1], cap), chains[|chains| - 1], cap)
  }

  ghost function AllEdges(spec: Spec, events: seq<Event>, chains: seq<seq<int>>): seq<Relation>
    requires Chains(events, chains)
  {
    if chains == [] then []
    else AllEdges(spec, events, chains[..|chains| - 1]) + ChainEdges(spec, events, chains[|chains| - 1])
  }

  function Min(a: int, b: int): int { if a < b then a else b }

  lemma AbsorbOne(spec: Spec, events: seq<Event>, t: Tally, chains: seq<seq<int>>, chain: seq<int>, cap: nat)
    requires Chains(events, chains) && chain != [] && InRange(chain, |events|)
    ensures Chains(events, chains + [chain])
    ensures Absorb(spec, events, t, chains + [chain], cap) ==
            Offer(spec, events, Absorb(spec, events, t, chains, cap), chain, cap)
  {
  }

  /** The cap keeps a prefix of the matches, in order, and counts every other one as dropped. */
  lemma {:induction false} AbsorbKeepsPrefix(spec: Spec, events: seq<Event>, t: Tally, chains: seq<seq<int>>, cap: nat)
    requires Chains(events, chains) && t.matches <= cap
    ensures var kept := Min(|chains|, cap - t.matches);
            Absorb(spec, events, t, chains, cap) ==
            Tally(t.relations + AllEdges(spec, events, chains[..kept]), t.matches + kept,
                  t.truncated || kept < |chains|, t.dropped + |chains| - kept)
  {
    if chains == [] {
      assert t.relations + [] == t.relations;
    } else {
      var front := chains[..|chains| - 1];
      AbsorbKeepsPrefix(spec, events, t, front, cap);
      var kept := Min(|chains|, cap - t.matches);
      if kept == |chains| {
        assert chains[..kept] == chains && front[..kept - 1] == front;
      } else {
        assert chains[..kept] == front[..kept];
      }
    }
  }

  // ---- What the edges say, apart from how they are made -----------------------------------------------

  /** The relation leads from event a to event b, which carry the ids of its step and of the next one, and has the rule's
      type and that step's label. */
  ghost predicate Joins(spec: Spec, events: seq<Event>, r: Relation, a: nat, b: nat) {
    && a < |events| && b < |events| && r.stepIndex + 1 < |spec.sequence|
    && r.source == events[a].id && events[a].eventID == spec.sequence[r.stepIndex]
    && r.target == events[b].id && events[b].eventID == spec.sequence[r.stepIndex + 1]
    && r.relationType == spec.relationType && r.confidence == EXACT_MATCH
    && r.edgeLabel == if r.stepIndex < |spec.labels| then spec.labels[r.stepIndex] else ""
  }

  /** The edges of one match of n steps: one for each step but the last, each from where the one before led, all under the
      id of its two ends. */
  ghost predicate OneRun(rels: seq<Relation>, n: nat) {
    && n >= 2 && |rels| == n - 1
    && (forall k :: 0 <= k < n - 1 ==>
          rels[k].stepIndex == k && rels[k].matchID == MatchID(rels[0].source, rels[n - 2].target, n))
    && forall k :: 0 < k < n - 1 ==> rels[k].source == rels[k - 1].target
  }

  /** Nothing but such runs, one after the other. */
  ghost predicate WholeRuns(rels: seq<Relation>, n: nat) {
    rels == [] ||
    (2 <= n <= |rels| + 1 && OneRun(rels[|rels| - (n - 1)..], n) && WholeRuns(rels[..|rels| - (n - 1)], n))
  }

  /** The chain picks events that spell the rule's sequence. */
  ghost predicate Spells(spec: Spec, events: seq<Event>, chain: seq<int>) {
    && |chain| == |spec.sequence| && InRange(chain, |events|)
    && forall k :: 0 <= k < |chain| ==> events[chain[k]].eventID == spec.sequence[k]
  }

  ghost predicate AllSpell(spec: Spec, events: seq<Event>, chains: seq<seq<int>>) {
    forall c :: 0 <= c < |chains| ==> Spells(spec, events, chains[c])
  }

  ghost predicate JoinsSome(spec: Spec, events: seq<Event>, r: Relation) {
    exists a, b :: Joins(spec, events, r, a, b)
  }

  lemma ChainIsOneRun(spec: Spec, events: seq<Event>, chain: seq<int>)
    requires |spec.sequence| >= 2 && Spells(spec, events, chain)
    ensures OneRun(ChainEdges(spec, events, chain), |spec.sequence|)
    ensures forall k :: 0 <= k < |chain| - 1 ==> Joins(spec, events, ChainEdges(spec, events, chain)[k], chain[k], chain[k + 1])
  {
  }

  lemma RunsJoin(rels: seq<Relation>, more: seq<Relation>, n: nat)
    requires WholeRuns(rels, n) && OneRun(more, n)
    ensures WholeRuns(rels + more, n)
  {
    var all := rels + more;
    assert all[|rels|..] == more && all[..|rels|] == rels;
    hide OneRun;
    assert |more| == n - 1 by {
      RunLength(more, n);
    }
  }

  lemma RunLength(rels: seq<Relation>, n: nat)
    requires OneRun(rels, n)
    ensures n >= 2 && |rels| == n - 1
  {
  }

  /** The edges of chains that spell the sequence are whole runs, and each joins the two events of its step. */
  lemma {:induction false} EdgesAreRuns(spec: Spec, events: seq<Event>, before: seq<Relation>, chains: seq<seq<int>>)
    requires |spec.sequence| >= 2 && Chains(events, chains) && AllSpell(spec, events, chains)
    requires WholeRuns(before, |spec.sequence|)
    ensures WholeRuns(before + AllEdges(spec, events, chains), |spec.sequence|)
  {
    hide OneRun, WholeRuns, Joins, Spells, ChainEdges, AllEdges;
    if chains == [] {
      NoEdges(spec, events);
      assert before + [] == before;
    } else {
      var n := |chains| - 1;
      var less, last := AllEdges(spec, events, chains[..n]), ChainEdges(spec, events, chains[n]);
      EdgesOfLast(spec, events, chains);
      EdgesAreRuns(spec, events, before, chains[..n]);
      ChainIsOneRun(spec, events, chains[n]);
      RunsJoin(before + less, last, |spec.sequence|);
      Regroup(before, less, last);
    }
  }

  lemma Regroup<T>(a: seq<T>, b: seq<T>, c: seq<T>)
    ensures a + (b + c) == a + b + c
  {
  }

  lemma NoEdges(spec: Spec, events: seq<Event>)
    ensures AllEdges(spec, events, []) == []
  {
  }

  lemma EdgesOfLast(spec: Spec, events: seq<Event>, chains: seq<seq<int>>)
    requires Chains(events, chains) && chains != []
    ensures var n := |chains| - 1;
            AllEdges(spec, events, chains) == AllEdges(spec, events, chains[..n]) + ChainEdges(spec, events, chains[n])
  {
  }

  /** Every edge of some chains comes from one step of one of them. */
  lemma {:induction false} EdgeOfChain(spec: Spec, events: seq<Event>, chains: seq<seq<int>>, r: Relation)
    returns (c: nat, k: nat)
    requires |spec.sequence| >= 2 && Chains(events, chains) && AllSpell(spec, events, chains)
    requires r in AllEdges(spec, events, chains)
    ensures c < |chains| && k + 1 < |chains[c]| && Joins(spec, events, r, chains[c][k], chains[c][k + 1])
  {
    var n := |chains| - 1;
    ChainIsOneRun(spec, events, chains[n]);
    if r in ChainEdges(spec, events, chains[n]) {
      c := n;
      k :| 0 <= k < |chains[n]| - 1 && ChainEdges(spec, events, chains[n])[k] == r;
    } else {
      c, k := EdgeOfChain(spec, events, chains[..n], r);
    }
  }

  /** What absorbing such chains adds to a tally. */
  lemma AbsorbJoins(spec: Spec, events: seq<Event>, t: Tally, chains: seq<seq<int>>, cap: nat) returns (more: seq<Relation>)
    requires |spec.sequence| >= 2 && Chains(events, chains) && AllSpell(spec, events, chains)
    ensures Absorb(spec, events, t, chains, cap).relations == t.relations + more
    ensures WholeRuns(more, |spec.sequence|)
    ensures WholeRuns(t.relations, |spec.sequence|) ==> WholeRuns(t.relations + more, |spec.sequence|)
    ensures forall r :: r in more ==>
              exists c, k :: 0 <= c < |chains| && 0 <= k < |chains[c]| - 1 && Joins(spec, events, r, chains[c][k], chains[c][k + 1])
  {
    var kept;
    kept, more := AbsorbAdds(spec, events, t, chains, cap);
    var front := chains[..kept];
    hide Absorb, AllEdges, Joins, Spells, WholeRuns, OneRun;
    EdgesAreRuns(spec, events, [], front) by {
      NoRuns(|spec.sequence|);
    }
    assert [] + more == more;
    if WholeRuns(t.relations, |spec.sequence|) {
      EdgesAreRuns(spec, events, t.relations, front);
    }
    forall r | r in more
      ensures exists c, k :: 0 <= c < |chains| && 0 <= k < |chains[c]| - 1 && Joins(spec, events, r, chains[c][k], chains[c][k + 1])
    {
      var c, k := EdgeOfChain(spec, events, front, r);
      assert chains[c] == front[c];
    }
  }

  lemma NoRuns(n: nat)
    ensures WholeRuns([], n)
  {
  }

  lemma {:induction false} AbsorbAdds(spec: Spec, events: seq<Event>, t: Tally, chains: seq<seq<int>>, cap: nat)
    returns (kept: nat, more: seq<Relation>)
    requires Chains(events, chains)
    ensures kept <= |chains| && more == AllEdges(spec, events, chains[..kept])
    ensures Absorb(spec, events, t, chains, cap).relations == t.relations + more
  {
    if t.matches <= cap {
      AbsorbKeepsPrefix(spec, events, t, chains, cap);
      kept := Min(|chains|, cap - t.matches);
      more := AllEdges(spec, events, chains[..kept]);
    } else {
      FullStays(spec, events, t, chains, cap);
      kept, more := 0, [];
      assert chains[..0] == [];
    }
  }

  lemma {:induction false} FullStays(spec: Spec, events: seq<Event>, t: Tally, chains: seq<seq<int>>, cap: nat)
    requires Chains(events, chains) && t.matches > cap
    ensures Absorb(spec, events, t, chains, cap).relations == t.relations
    ensures Absorb(spec, events, t, chains, cap).matches == t.matches
  {
    if chains != [] {
      FullStays(spec, events, t, chains[..|chains| - 1], cap);
    }
  }

  /** The result record of one generation run; matchers update it in place. */
  class Result {
    var relations: seq<Relation>
    var matches: nat
    var truncated: bool
    var dropped: nat
    var skippedNoKeys: nat
    var unresolvedParents: nat

    constructor ()
      ensures GetTally() == Tally([], 0, false, 0) && skippedNoKeys == 0 && unresolvedParents == 0
    {
      relations, matches, truncated, dropped, skippedNoKeys, unresolvedParents := [], 0, false, 0, 0, 0;
    }

    function GetTally(): Tally
      reads this
    {
      Tally(relations, matches, truncated, dropped)
    }

    /** Turns one matched occurrence into edges, one per consecutive pair. */
    method EmitChain(spec: Spec, events: seq<Event>, matched: seq<int>)
      requires matched != [] && InRange(matched, |events|)
      modifies this`relations
      ensures relations == old(relations) + ChainEdges(spec, events, matched)
      ensures |relations| == |old(relations)| + |matched| - 1 && relations[..|old(relations)|] == old(relations)
      ensures forall k :: 0 <= k < |matched| - 1 ==>
                relations[|old(relations)| + k] ==
                Relation(events[matched[k]].id, events[matched[k + 1]].id, spec.relationType,
                         if k < |spec.labels| then spec.labels[k] else "", EXACT_MATCH,
                         MatchID(events[matched[0]].id, events[matched[|matched| - 1]].id, |matched|), k)
    {
      var id := ChainID(events, matched);
      ghost var edges := ChainEdges(spec, events, matched);
      for k := 0 to |matched| - 1
        invariant relations == old(relations) + edges[..k]
      {
        var from, to := events[matched[k]].id, events[matched[k + 1]].id;
        relations := relations + [Relation(from, to, spec.relationType, spec.LabelFor(k), EXACT_MATCH, id, k)];
        assert edges[..k + 1] == edges[..k] + [edges[k]];
      }
      assert edges[..|matched| - 1] == edges;
    }

    /** Counts one completed match: emitted while the cap allows, otherwise dropped and reported. */
    method Record(spec: Spec, events: seq<Event>, matched: seq<int>, cap: nat)
      requires matched != [] && InRange(matched, |events|)
      modifies this
      ensures GetTally() == Offer(spec, events, old(GetTally()), matched, cap)
      ensures skippedNoKeys == old(skippedNoKeys) && unresolvedParents == old(unresolvedParents)
    {
      if matches >= cap {
        truncated := true;
        dropped := dropped + 1;
        return;
      }
      matches := matches + 1;
      EmitChain(spec, events, matched);
    }
  }
}
