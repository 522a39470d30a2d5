/** Stored events and how often each identity has been counted. */
module Ledger {
  import opened Identity
  import opened Sums

  /** A canonical event: one node for every occurrence of an identity, with how many came from which source. */
  datatype Node = Node(hash: Hash, raw: string, source: string, count: nat, sources: map<string, int>)

  // ---- One event ---------------------------------------------------------------------------------

  function Fresh(hash: Hash, raw: string, source: string): Node {
    Node(hash, raw, source, 1, map[])
  }

  /** One more n occurrences from a source; a count that is not positive is ignored. */
  function AddSourceOccurrence(e: Node, source: string, n: int): Node {
    if n <= 0 then e
    else
      e.(sources := e.sources[source := (if source in e.sources then e.sources[source] else 0) + n], count := e.count + n)
  }

  /** How many occurrences the breakdown attributes to a source. */
  function From(e: Node, source: string): int {
    if source in e.sources then e.sources[source] else 0
  }

  /** An occurrence is counted once, and for the source it came from. */
  lemma AddedTo(e: Node, source: string, n: int, other: string)
    ensures var r := AddSourceOccurrence(e, source, n);
            && r.count == e.count + (if n > 0 then n else 0)
            && From(r, other) == From(e, other) + (if n > 0 && other == source then n else 0)
            && r.hash == e.hash && r.raw == e.raw && r.source == e.source
  {
  }

  /** An event stored without a breakdown gets one: all its occurrences from its own source. */
  lemma EnsuredFor(e: Node, other: string)
    ensures var r := EnsureSourceCounts(e);
            && r.count == e.count && r.hash == e.hash && r.raw == e.raw && r.source == e.source
            && (e.sources == map[] && e.count > 0 ==> From(r, other) == if other == e.source then e.count else 0)
            && (e.sources != map[] ==> r == e)
  {
  }

  function EnsureSourceCounts(e: Node): Node {
    if |e.sources| > 0 || e.count == 0 then e else e.(sources := map[e.source := e.count])
  }

  /** An event as it is read back: at least one occurrence, with a breakdown. */
  function Loaded(e: Node): Node {
    EnsureSourceCounts(if e.count < 1 then e.(count := 1) else e)
  }

  /** By how much the count exceeds what the breakdown accounts for. */
  ghost function Gap(e: Node): int {
    e.count - SumMap(e.sources)
  }

  lemma AddingKeepsGap(e: Node, source: string, n: int)
    ensures Gap(AddSourceOccurrence(e, source, n)) == Gap(e)
  {
    if n > 0 {
      SumMapSet(e.sources, source, (if source in e.sources then e.sources[source] else 0) + n);
    }
  }

  lemma StoringClosesGap(e: Node)
    ensures Gap(EnsureSourceCounts(e)) == if |e.sources| > 0 then Gap(e) else 0
  {
    if |e.sources| == 0 {
      assert e.sources == map[];
      if e.count > 0 {
        SumMapSet(map[], e.source, e.count);
        assert map[][e.source := e.count] == map[e.source := e.count];
      }
    }
  }

  function Repeated(e: Node, source: string, times: nat): Node {
    if times == 0 then e else AddSourceOccurrence(Repeated(e, source, times - 1), source, 1)
  }

  lemma {:induction false} RepeatedGap(e: Node, source: string, times: nat)
    ensures Gap(Repeated(e, source, times)) == Gap(e) && Repeated(e, source, times).count == e.count + times
    ensures times > 0 ==> |Repeated(e, source, times).sources| > 0
  {
    if times > 0 {
      RepeatedGap(e, source, times - 1);
      var before := Repeated(e, source, times - 1);
      AddingKeepsGap(before, source, 1);
      assert source in Repeated(e, source, times).sources;
    }
  }

  /** A new event that met `duplicates` copies of itself before its batch was written, and `later` ones after. The
      breakdown adds up to the count exactly when there was no copy in the batch: the first copy starts a breakdown
      that leaves the event itself out. The source says the two can never disagree. */
  lemma BreakdownAddsUpIff(hash: Hash, raw: string, source: string, duplicates: nat, later: nat)
    ensures var stored := EnsureSourceCounts(Repeated(Fresh(hash, raw, source), source, duplicates));
            var e := Repeated(Loaded(stored), source, later);
            && e.count == 1 + duplicates + later
            && (SumMap(e.sources) == e.count <==> duplicates == 0)
  {
    var e := Repeated(Fresh(hash, raw, source), source, duplicates);
    RepeatedGap(Fresh(hash, raw, source), source, duplicates);
    StoringClosesGap(e);
    StoringClosesGap(EnsureSourceCounts(e));
    RepeatedGap(Loaded(EnsureSourceCounts(e)), source, later);
    SumMapSet<string>(map[], source, 0);
  }

  // ---- Totals --------------------------------------------------------------------------------------

  /** Whose occurrences are counted: one identity's, or everyone's. */
  datatype Whose = Everyone | Only(hash: Hash)

  predicate Concerns(w: Whose, h: Hash) {
    w.Everyone? || w.hash == h
  }

  /** What a stored count means: a record from before counting began is one occurrence. */
  function Count(e: Node): (n: nat)
    ensures n >= 1
  {
    if e.count < 1 then 1 else e.count
  }

  function Owed(inc: map<nat, nat>, id: nat): nat {
    if id in inc then inc[id] else 0
  }

  /** Occurrences on record. */
  ghost function Total(nodes: seq<Node>, w: Whose): nat {
    if nodes == [] then 0
    else
      var n := |nodes| - 1;
      Total(nodes[..n], w) + if Concerns(w, nodes[n].hash) then Count(nodes[n]) else 0
  }

  /** Occurrences on record once the increments still owed are written. */
  ghost function TotalWith(nodes: seq<Node>, inc: map<nat, nat>, w: Whose): nat {
    if nodes == [] then 0
    else
      var n := |nodes| - 1;
      TotalWith(nodes[..n], inc, w) + if Concerns(w, nodes[n].hash) then Count(nodes[n]) + Owed(inc, n) else 0
  }

  lemma {:induction false} NothingOwed(nodes: seq<Node>, w: Whose)
    ensures TotalWith(nodes, map[], w) == Total(nodes, w)
  {
    if nodes != [] {
      NothingOwed(nodes[..|nodes| - 1], w);
    }
  }

  lemma {:induction false} OweOneMore(nodes: seq<Node>, inc: map<nat, nat>, id: nat, w: Whose)
    ensures TotalWith(nodes, inc[id := Owed(inc, id) + 1], w) ==
            TotalWith(nodes, inc, w) + if id < |nodes| && Concerns(w, nodes[id].hash) then 1 else 0
  {
    if nodes != [] {
      OweOneMore(nodes[..|nodes| - 1], inc, id, w);
    }
  }

  lemma {:induction false} TotalOfBoth(nodes: seq<Node>, more: seq<Node>, w: Whose)
    ensures Total(nodes + more, w) == Total(nodes, w) + Total(more, w)
  {
    if more == [] {
      assert nodes + more == nodes;
    } else {
      var n := |more| - 1;
      assert (nodes + more)[..|nodes| + n] == nodes + more[..n];
      TotalOfBoth(nodes, more[..n], w);
    }
  }

  lemma {:induction false} TotalWithMore(nodes: seq<Node>, more: seq<Node>, inc: map<nat, nat>, w: Whose)
    requires forall id :: id in inc ==> id < |nodes|
    ensures TotalWith(nodes + more, inc, w) == TotalWith(nodes, inc, w) + Total(more, w)
  {
    if more == [] {
      assert nodes + more == nodes;
    } else {
      var n := |more| - 1;
      assert (nodes + more)[..|nodes| + n] == nodes + more[..n];
      TotalWithMore(nodes, more[..n], inc, w);
    }
  }

  /** Replacing an event by one of the same identity counted one higher. */
  lemma {:induction false} TotalAfterBump(nodes: seq<Node>, k: nat, e: Node, w: Whose)
    requires k < |nodes| && e.hash == nodes[k].hash && Count(e) == Count(nodes[k]) + 1
    ensures Total(nodes[k := e], w) == Total(nodes, w) + if Concerns(w, e.hash) then 1 else 0
  {
    var n := |nodes| - 1;
    if k == n {
      assert nodes[k := e][..n] == nodes[..n];
    } else {
      assert nodes[k := e][..n] == nodes[..n][k := e];
      TotalAfterBump(nodes[..n], k, e, w);
    }
  }

  lemma {:induction false} TotalIsPositive(nodes: seq<Node>, w: Whose)
    ensures Total(nodes, w) > 0 <==> exists i :: 0 <= i < |nodes| && Concerns(w, nodes[i].hash)
  {
    if nodes != [] {
      var n := |nodes| - 1;
      TotalIsPositive(nodes[..n], w);
      assert forall i :: 0 <= i < n ==> nodes[..n][i] == nodes[i];
    }
  }

  lemma {:induction false} OwedOnlyAdds(nodes: seq<Node>, inc: map<nat, nat>, w: Whose)
    ensures Total(nodes, w) <= TotalWith(nodes, inc, w)
  {
    if nodes != [] {
      OwedOnlyAdds(nodes[..|nodes| - 1], inc, w);
    }
  }

  // ---- Writing increments -----------------------------------------------------------------------------

  /** The stored events with every increment attributed to a source. */
  function Applied(nodes: seq<Node>, inc: map<nat, nat>, source: string): (r: seq<Node>)
    ensures |r| == |nodes| && forall i :: 0 <= i < |r| ==> r[i].hash == nodes[i].hash
  {
    seq(|nodes|, i requires 0 <= i < |nodes| =>
      if i in inc then AddSourceOccurrence(Loaded(nodes[i]), source, inc[i]) else nodes[i])
  }

  lemma {:induction false} AppliedPaysUp(nodes: seq<Node>, inc: map<nat, nat>, source: string, w: Whose)
    ensures Total(Applied(nodes, inc, source), w) == TotalWith(nodes, inc, w)
  {
    if nodes != [] {
      var n := |nodes| - 1;
      AppliedPaysUp(nodes[..n], inc, source, w);
      assert Applied(nodes, inc, source)[..n] == Applied(nodes[..n], inc, source);
    }
  }

  /** Applied increments are attributed to the source they are applied for, on top of what the event is read back with; an
      event nothing is owed to stays as it is. */
  lemma AppliedTo(nodes: seq<Node>, inc: map<nat, nat>, source: string, id: nat, other: string)
    requires id < |nodes|
    ensures var e, r := nodes[id], Applied(nodes, inc, source)[id];
            && (id !in inc ==> r == e)
            && (id in inc ==> r.count == Count(e) + inc[id] && From(r, other) == From(Loaded(e), other) + if other == source then inc[id] else 0)
  {
    if id in inc {
      AddedTo(Loaded(nodes[id]), source, inc[id], other);
    }
  }

  /** The events of a batch as they are written. */
  function Prepared(batch: seq<Node>): (r: seq<Node>)
    ensures |r| == |batch| && forall i :: 0 <= i < |r| ==> r[i].hash == batch[i].hash
  {
    seq(|batch|, i requires 0 <= i < |batch| => EnsureSourceCounts(batch[i]))
  }

  lemma {:induction false} PreparedTotal(batch: seq<Node>, w: Whose)
    ensures Total(Prepared(batch), w) == Total(batch, w)
  {
    if batch != [] {
      var n := |batch| - 1;
      PreparedTotal(batch[..n], w);
      assert Prepared(batch)[..n] == Prepared(batch[..n]);
    }
  }
}
