/** The ingestion sink: what holds of the disk wherever a run stops. */
module Ingest {
  import opened Durability
  import opened Identity
  import opened Ledger
  import opened Recording

  // ---- What is delivered ---------------------------------------------------------------------------

  /** A normalized record, the digest of its payload, and its number in the channel it came from. */
  datatype Event = Event(record: Record, raw: string, recordId: nat)

  /** One batch from a reader. A file's chunks name no channel. */
  datatype Chunk = Chunk(events: seq<Event>, channel: string, maxRecordId: nat, unreadable: nat)

  /** A run: what was on disk when it began, the chunks its readers deliver, and where they come from. */
  datatype Plan = Plan(start: Durable, chunks: seq<Chunk>, source: string)

  function Hashes(events: seq<Event>, source: string): (r: seq<Hash>)
    ensures |r| == |events| && forall i :: 0 <= i < |r| ==> r[i] == HashOf(events[i].record, source)
  {
    seq(|events|, i requires 0 <= i < |events| => HashOf(events[i].record, source))
  }

  /** The identities delivered by the first m chunks, in order. */
  ghost function Heard(p: Plan, m: nat): seq<Hash>
    requires m <= |p.chunks|
  {
    if m == 0 then [] else Heard(p, m - 1) + Hashes(p.chunks[m - 1].events, p.source)
  }

  /** The highest record number the first m chunks carry for a channel. */
  ghost function Reach(p: Plan, m: nat, channel: string): nat
    requires m <= |p.chunks|
  {
    if m == 0 then 0
    else
      var before, c := Reach(p, m - 1, channel), p.chunks[m - 1];
      if c.channel == channel && c.maxRecordId > before then c.maxRecordId else before
  }

  function Occurrences(s: seq<Hash>, w: Whose): nat {
    match w
    case Everyone => |s|
    case Only(h) => multiset(s)[h]
  }

  // ---- What is kept ------------------------------------------------------------------------------------

  /** Every occurrence seen is on record, owed, or waiting in the batch; none is there twice. */
  ghost predicate Exact(p: Plan, nodes: seq<Node>, inc: map<nat, nat>, pending: seq<Node>, seen: seq<Hash>) {
    forall w :: TotalWith(nodes, inc, w) + Total(pending, w) == Total(p.start.nodes, w) + Occurrences(seen, w)
  }

  /** The record counts everything the first m chunks delivered. */
  ghost predicate Covers(p: Plan, nodes: seq<Node>, m: nat)
    requires m <= |p.chunks|
  {
    forall w :: Total(p.start.nodes, w) + Occurrences(Heard(p, m), w) <= Total(nodes, w)
  }

  /** The record counts nothing that is not delivered. */
  ghost predicate Within(p: Plan, nodes: seq<Node>) {
    forall w :: Total(nodes, w) <= Total(p.start.nodes, w) + Occurrences(Heard(p, |p.chunks|), w)
  }

  /** No bookmark points past the first m chunks, unless it did so from the start. */
  ghost predicate Behind(p: Plan, marks: map<string, nat>, m: nat)
    requires m <= |p.chunks|
  {
    forall c :: Mark(marks, c) <= Mark(p.start.marks, c) || Mark(marks, c) <= Reach(p, m, c)
  }

  /** What the first m chunks reached is bookmarked or staged. */
  ghost predicate CaughtUp(p: Plan, pos: map<string, nat>, staged: map<string, nat>, m: nat)
    requires m <= |p.chunks|
  {
    forall c :: c != "" ==> Reach(p, m, c) <= Mark(pos, c) || Reach(p, m, c) <= Mark(staged, c)
  }

  /** Every staged channel outside `left` has reached its staged position. */
  ghost predicate Landed(pos: map<string, nat>, staged: map<string, nat>, left: set<string>) {
    forall c :: c in staged && c !in left ==> staged[c] <= Mark(pos, c)
  }

  /** A state the disk may be left in: what its bookmarks cover is counted. */
  ghost predicate Safe(p: Plan, d: Durable) {
    Within(p, d.nodes) && exists m :: 0 <= m <= |p.chunks| && Behind(p, d.marks, m) && Covers(p, d.nodes, m)
  }

  ghost predicate AllSafe(p: Plan, trace: seq<Durable>) {
    forall d :: d in trace ==> Safe(p, d)
  }

  /** The chunks taken completely, and the identities seen, fit the plan. */
  ghost predicate OnPlan(p: Plan, done: nat, seen: seq<Hash>) {
    done <= |p.chunks| && Heard(p, done) <= seen <= Heard(p, |p.chunks|)
  }

  lemma PrefixOccurrences(s: seq<Hash>, t: seq<Hash>, w: Whose)
    requires s <= t
    ensures Occurrences(s, w) <= Occurrences(t, w)
  {
    assert t == s + t[|s|..];
  }

  lemma OccurInBoth(s: seq<Hash>, t: seq<Hash>, w: Whose)
    ensures Occurrences(s + t, w) == Occurrences(s, w) + Occurrences(t, w)
  {
  }

  lemma {:induction false} HeardGrows(p: Plan, m: nat, n: nat)
    requires m <= n <= |p.chunks|
    ensures Heard(p, m) <= Heard(p, n)
  {
    if m < n {
      HeardGrows(p, m, n - 1);
    }
  }

  lemma {:induction false} ReachGrows(p: Plan, m: nat, n: nat, channel: string)
    requires m <= n <= |p.chunks|
    ensures Reach(p, m, channel) <= Reach(p, n, channel)
  {
    if m < n {
      ReachGrows(p, m, n - 1, channel);
    }
  }

  lemma BehindLater(p: Plan, marks: map<string, nat>, m: nat, n: nat)
    requires m <= n <= |p.chunks| && Behind(p, marks, m)
    ensures Behind(p, marks, n)
  {
    forall c ensures Mark(marks, c) <= Mark(p.start.marks, c) || Mark(marks, c) <= Reach(p, n, c) {
      ReachGrows(p, m, n, c);
    }
  }

  lemma StartIsSafe(p: Plan)
    ensures Safe(p, p.start) && Exact(p, p.start.nodes, map[], [], []) && OnPlan(p, 0, [])
    ensures Behind(p, p.start.marks, 0)
  {
    HeardGrows(p, 0, |p.chunks|);
    forall w
      ensures TotalWith(p.start.nodes, map[], w) == Total(p.start.nodes, w) && Occurrences([], w) == 0
    {
      NothingOwed(p.start.nodes, w);
    }
    assert Heard(p, 0) == [];
    assert Covers(p, p.start.nodes, 0);
  }

  /** With both buffers empty, the record covers every chunk taken completely. */
  lemma EmptyBuffersCover(p: Plan, nodes: seq<Node>, done: nat, seen: seq<Hash>)
    requires Exact(p, nodes, map[], [], seen) && OnPlan(p, done, seen)
    ensures Covers(p, nodes, done) && Within(p, nodes)
  {
    forall w
      ensures Total(p.start.nodes, w) + Occurrences(Heard(p, done), w) <= Total(nodes, w)
      ensures Total(nodes, w) <= Total(p.start.nodes, w) + Occurrences(Heard(p, |p.chunks|), w)
    {
      NothingOwed(nodes, w);
      PrefixOccurrences(Heard(p, done), seen, w);
      PrefixOccurrences(seen, Heard(p, |p.chunks|), w);
      assert TotalWith(nodes, map[], w) + Total([], w) == Total(p.start.nodes, w) + Occurrences(seen, w);
    }
  }

  /** Increments point at stored events. */
  ghost predicate Pointed(nodes: seq<Node>, index: map<Hash, nat>, inc: map<nat, nat>) {
    && (forall id :: id in inc ==> id < |nodes| && inc[id] > 0)
    && (forall h :: h in index ==> index[h] < |nodes| && nodes[index[h]].hash == h)
  }

  /** Committing the batch keeps the disk safe at once, and keeps the books exact with an empty batch. */
  lemma CommitIsSafe(p: Plan, d: Durable, inc: map<nat, nat>, pending: seq<Node>, done: nat, seen: seq<Hash>)
    requires Safe(p, d) && Exact(p, d.nodes, inc, pending, seen) && OnPlan(p, done, seen)
    requires Pointed(d.nodes, d.index, inc)
    ensures Exact(p, d.nodes + Prepared(pending), inc, [], seen)
    ensures forall i :: Safe(p, Durable(d.nodes + Prepared(pending), i, d.marks))
  {
    var nodes := d.nodes + Prepared(pending);
    forall w
      ensures TotalWith(nodes, inc, w) + Total([], w) == Total(p.start.nodes, w) + Occurrences(seen, w)
      ensures Total(d.nodes, w) <= Total(nodes, w)
      ensures Total(nodes, w) <= Total(p.start.nodes, w) + Occurrences(Heard(p, |p.chunks|), w)
    {
      PreparedTotal(pending, w);
      TotalWithMore(d.nodes, Prepared(pending), inc, w);
      TotalOfBoth(d.nodes, Prepared(pending), w);
      OwedOnlyAdds(nodes, inc, w);
      PrefixOccurrences(seen, Heard(p, |p.chunks|), w);
    }
    var m :| 0 <= m <= |p.chunks| && Behind(p, d.marks, m) && Covers(p, d.nodes, m);
    assert Covers(p, nodes, m);
  }

  /** So does writing the increments. */
  lemma IncrementIsSafe(p: Plan, d: Durable, inc: map<nat, nat>, pending: seq<Node>, done: nat, seen: seq<Hash>)
    requires Safe(p, d) && Exact(p, d.nodes, inc, pending, seen) && OnPlan(p, done, seen)
    ensures Exact(p, Applied(d.nodes, inc, p.source), map[], pending, seen)
    ensures Safe(p, d.(nodes := Applied(d.nodes, inc, p.source)))
  {
    var nodes := Applied(d.nodes, inc, p.source);
    forall w
      ensures TotalWith(nodes, map[], w) + Total(pending, w) == Total(p.start.nodes, w) + Occurrences(seen, w)
      ensures Total(d.nodes, w) <= Total(nodes, w)
      ensures Total(nodes, w) <= Total(p.start.nodes, w) + Occurrences(Heard(p, |p.chunks|), w)
    {
      AppliedPaysUp(d.nodes, inc, p.source, w);
      NothingOwed(nodes, w);
      OwedOnlyAdds(d.nodes, inc, w);
      PrefixOccurrences(seen, Heard(p, |p.chunks|), w);
    }
    var m :| 0 <= m <= |p.chunks| && Behind(p, d.marks, m) && Covers(p, d.nodes, m);
    assert Covers(p, nodes, m);
  }

  lemma MarkingIsSafe(p: Plan, d: Durable, marks: map<string, nat>, done: nat, seen: seq<Hash>)
    requires Exact(p, d.nodes, map[], [], seen) && OnPlan(p, done, seen) && Behind(p, marks, done)
    ensures Safe(p, d.(marks := marks))
  {
    EmptyBuffersCover(p, d.nodes, done, seen);
  }

  // ---- Taking one event ------------------------------------------------------------------------------

  lemma SeenOneMore(seen: seq<Hash>, h: Hash)
    ensures forall w :: Occurrences(seen + [h], w) == Occurrences(seen, w) + if Concerns(w, h) then 1 else 0
  {
  }

  /** A copy of an event waiting in the batch raises that event's count. */
  lemma CopyInBatch(p: Plan, nodes: seq<Node>, inc: map<nat, nat>, pending: seq<Node>, seen: seq<Hash>, k: nat)
    requires Exact(p, nodes, inc, pending, seen) && k < |pending| && pending[k].count >= 1
    ensures Exact(p, nodes, inc, pending[k := AddSourceOccurrence(pending[k], p.source, 1)], seen + [pending[k].hash])
  {
    var e := AddSourceOccurrence(pending[k], p.source, 1);
    SeenOneMore(seen, e.hash);
    forall w ensures Total(pending[k := e], w) == Total(pending, w) + if Concerns(w, e.hash) then 1 else 0 {
      TotalAfterBump(pending, k, e, w);
    }
  }

  /** A copy of a stored event is owed to it. */
  lemma CopyOnRecord(p: Plan, nodes: seq<Node>, inc: map<nat, nat>, pending: seq<Node>, seen: seq<Hash>, id: nat)
    requires Exact(p, nodes, inc, pending, seen) && id < |nodes|
    ensures Exact(p, nodes, inc[id := Owed(inc, id) + 1], pending, seen + [nodes[id].hash])
  {
    SeenOneMore(seen, nodes[id].hash);
    forall w
      ensures TotalWith(nodes, inc[id := Owed(inc, id) + 1], w) ==
              TotalWith(nodes, inc, w) + if Concerns(w, nodes[id].hash) then 1 else 0
    {
      OweOneMore(nodes, inc, id, w);
    }
  }

  /** Anything else waits in the batch as a new event. */
  lemma NewInBatch(p: Plan, nodes: seq<Node>, inc: map<nat, nat>, pending: seq<Node>, seen: seq<Hash>, e: Node)
    requires Exact(p, nodes, inc, pending, seen) && e.count == 1
    ensures Exact(p, nodes, inc, pending + [e], seen + [e.hash])
  {
  }

  // ---- Identities on record ---------------------------------------------------------------------------

  /** The batch, and the index into it that finds copies. */
  ghost predicate Buffered(deduplicate: bool, pending: seq<Node>, byHash: map<Hash, nat>, index: map<Hash, nat>) {
    && (forall i :: 0 <= i < |pending| ==> pending[i].count >= 1)
    && (deduplicate ==>
          && (forall i :: 0 <= i < |pending| ==> pending[i].hash in byHash && byHash[pending[i].hash] == i)
          && (forall h :: h in byHash ==> byHash[h] < |pending| && pending[byHash[h]].hash == h && h !in index))
  }

  lemma RegisteringKeepsPointers(nodes: seq<Node>, index: map<Hash, nat>, inc: map<nat, nat>, batch: seq<Node>)
    requires Pointed(nodes, index, inc)
    ensures Pointed(nodes + Prepared(batch), RegisteredAll(index, batch, |nodes|), inc)
  {
    hide RegisteredAll, Prepared;
    forall h | h in RegisteredAll(index, batch, |nodes|)
      ensures var id := RegisteredAll(index, batch, |nodes|)[h];
              id < |nodes + Prepared(batch)| && (nodes + Prepared(batch))[id].hash == h
    {
      RegisteredAt(index, batch, |nodes|, h);
    }
  }

  lemma AppliedStaysPointed(nodes: seq<Node>, index: map<Hash, nat>, inc: map<nat, nat>, source: string)
    requires Pointed(nodes, index, inc)
    ensures Pointed(Applied(nodes, inc, source), index, map[])
  {
  }

  /** What a deduplicating run can have left on disk at any time: the news of some first part of what it hears. */
  ghost predicate AllGrown(p: Plan, trace: seq<Durable>) {
    forall d :: d in trace ==> Grown(p.start, d, Heard(p, |p.chunks|))
  }

  ghost predicate AllUnique(trace: seq<Durable>) {
    forall d :: d in trace ==> Unique(d.nodes)
  }

  lemma TraceGrows(p: Plan, trace: seq<Durable>, d: Durable)
    requires AllSafe(p, trace) && Safe(p, d)
    ensures AllSafe(p, trace + [d])
  {
  }

  /** Moving one channel to its staged position. */
  lemma MovesForward(p: Plan, pos: map<string, nat>, staged: map<string, nat>, after: map<string, nat>, channel: string,
                     done: nat)
    requires done <= |p.chunks| && Behind(p, pos, done) && Behind(p, staged, done) && CaughtUp(p, pos, staged, done)
    requires channel in staged
    requires forall c :: Mark(after, c) == if c == channel && staged[channel] > Mark(pos, c) then staged[channel] else Mark(pos, c)
    ensures Behind(p, after, done) && CaughtUp(p, after, staged, done)
    ensures forall left :: Landed(pos, staged, left) ==> Landed(after, staged, left - {channel})
  {
  }

  lemma MarkTrace(p: Plan, trace: seq<Durable>, d: Durable, marks: map<string, nat>, done: nat, seen: seq<Hash>)
    requires AllSafe(p, trace)
    requires Exact(p, d.nodes, map[], [], seen) && OnPlan(p, done, seen) && Behind(p, marks, done)
    ensures AllSafe(p, trace + [d.(marks := marks)])
  {
    MarkingIsSafe(p, d, marks, done, seen);
  }

  // ---- The sink -----------------------------------------------------------------------------------------

  datatype Progress = Progress(parsed: nat, read: nat, persisted: nat, duplicate: nat, skipped: nat, undated: nat,
                               divergent: nat, lastRecordId: nat)

  /** What the sink holds between two steps. */
  datatype Buffers = Buffers(pending: seq<Node>, byHash: map<Hash, nat>, inc: map<nat, nat>, staged: map<string, nat>,
                             progress: Progress)

  /** The counters that say what was delivered, apart from how it was stored. */
  datatype Notes = Notes(parsed: nat, skipped: nat, undated: nat, lastRecordId: nat)

  function NotesOf(p: Progress): Notes { Notes(p.parsed, p.skipped, p.undated, p.lastRecordId) }

  function UndatedOne(ev: Event): nat { if ev.record.time.Undated? then 1 else 0 }

  ghost function UndatedIn(events: seq<Event>): nat {
    if events == [] then 0 else UndatedIn(events[..|events| - 1]) + UndatedOne(events[|events| - 1])
  }

  /** What the first m chunks of a run amount to. */
  ghost function Told(p: Plan, m: nat): Notes
    requires m <= |p.chunks|
  {
    if m == 0 then Notes(0, 0, 0, 0)
    else NotesSoFar(Told(p, m - 1), p.chunks[m - 1], |p.chunks[m - 1].events|)
  }

  /** What is told of a chunk once its first k events have been taken. */
  ghost function NotesSoFar(n: Notes, c: Chunk, k: nat): Notes
    requires k <= |c.events|
  {
    Notes(n.parsed + 1, n.skipped + c.unreadable, n.undated + UndatedIn(c.events[..k]),
          if c.maxRecordId > n.lastRecordId then c.maxRecordId else n.lastRecordId)
  }

  /** The positions in a chunk of events without a time. */
  ghost function UndatedAt(events: seq<Event>): set<nat> {
    set i | 0 <= i < |events| && events[i].record.time == Undated
  }

  lemma {:induction false} UndatedIsExact(events: seq<Event>)
    ensures UndatedIn(events) == |UndatedAt(events)|
  {
    if events != [] {
      var n := |events| - 1;
      UndatedIsExact(events[..n]);
      assert UndatedAt(events) - {n} == UndatedAt(events[..n]);
    }
  }

  function AddUp(s: seq<nat>): nat {
    if s == [] then 0 else AddUp(s[..|s| - 1]) + s[|s| - 1]
  }

  /** What is told of a run: the chunks taken, what was unreadable and what undated in them, and the highest record number
      any of them carried. */
  lemma {:induction false} ToldIsExact(p: Plan, m: nat)
    requires m <= |p.chunks|
    ensures var t := Told(p, m);
            && t.parsed == m
            && t.skipped == AddUp(seq(m, i requires 0 <= i < m => p.chunks[i].unreadable))
            && t.undated == AddUp(seq(m, i requires 0 <= i < m => |UndatedAt(p.chunks[i].events)|))
            && (forall i :: 0 <= i < m ==> p.chunks[i].maxRecordId <= t.lastRecordId)
            && (t.lastRecordId == 0 || exists i :: 0 <= i < m && p.chunks[i].maxRecordId == t.lastRecordId)
  {
    if m > 0 {
      ToldIsExact(p, m - 1);
      var c := p.chunks[m - 1];
      assert c.events[..|c.events|] == c.events;
      UndatedIsExact(c.events);
      var skipped := seq(m, i requires 0 <= i < m => p.chunks[i].unreadable);
      var undated := seq(m, i requires 0 <= i < m => |UndatedAt(p.chunks[i].events)|);
      hide UndatedIn, UndatedAt;
      assert skipped[..m - 1] == seq(m - 1, i requires 0 <= i < m - 1 => p.chunks[i].unreadable);
      assert undated[..m - 1] == seq(m - 1, i requires 0 <= i < m - 1 => |UndatedAt(p.chunks[i].events)|);
    }
  }

  // ---- Payloads --------------------------------------------------------------------------------------

  /** The event is delivered by the plan. */
  ghost predicate IsDelivered(p: Plan, ev: Event) {
    exists j :: 0 <= j < |p.chunks| && ev in p.chunks[j].events
  }

  /** Events of one identity carry one payload. */
  ghost predicate Agreeing(p: Plan) {
    forall e, f :: IsDelivered(p, e) && IsDelivered(p, f) && HashOf(e.record, p.source) == HashOf(f.record, p.source) ==>
      e.raw == f.raw
  }

  /** Each event of the batch carries the payload delivered under its identity. */
  ghost predicate Faithful(p: Plan, pending: seq<Node>) {
    forall k, e :: 0 <= k < |pending| && IsDelivered(p, e) && HashOf(e.record, p.source) == pending[k].hash ==>
      pending[k].raw == e.raw
  }

  /** Whatever is in the batch was there, with its payload, or is this event. */
  ghost predicate BatchFrom(was: seq<Node>, now: seq<Node>, h: Hash, raw: string) {
    forall k :: 0 <= k < |now| ==>
      (now[k].hash == h && now[k].raw == raw) || exists j :: 0 <= j < |was| && SamePayload(was[j], now[k])
  }

  ghost predicate SamePayload(m: Node, n: Node) {
    m.hash == n.hash && m.raw == n.raw
  }

  lemma SameBatch(pending: seq<Node>, h: Hash, raw: string)
    ensures BatchFrom(pending, pending, h, raw) && BatchFrom(pending, [], h, raw)
  {
    forall k | 0 <= k < |pending| ensures SamePayload(pending[k], pending[k]) {
    }
  }

  lemma FoldedBatch(b: Buffers, pending: seq<Node>, h: Hash, source: string, raw: string)
    requires Folded(b, pending, h, source)
    ensures BatchFrom(b.pending, pending, h, raw)
  {
    forall k | 0 <= k < |pending| ensures SamePayload(b.pending[k], pending[k]) {
    }
  }

  lemma LongerBatch(pending: seq<Node>, h: Hash, raw: string, source: string)
    ensures BatchFrom(pending, pending + [Fresh(h, raw, source)], h, raw)
  {
    forall k | 0 <= k < |pending| ensures SamePayload(pending[k], (pending + [Fresh(h, raw, source)])[k]) {
    }
  }

  lemma StaysFaithful(p: Plan, was: seq<Node>, now: seq<Node>, ev: Event)
    requires Agreeing(p) && Faithful(p, was) && IsDelivered(p, ev) && BatchFrom(was, now, HashOf(ev.record, p.source), ev.raw)
    ensures Faithful(p, now)
  {
    hide IsDelivered, HashOf;
  }

  /** A faithful batch differs from nothing delivered. */
  lemma NothingDiffers(p: Plan, b: Buffers, ev: Event)
    requires Faithful(p, b.pending) && IsDelivered(p, ev)
    requires forall h :: h in b.byHash ==> b.byHash[h] < |b.pending| && b.pending[b.byHash[h]].hash == h
    ensures !Differs(b, HashOf(ev.record, p.source), ev.raw)
  {
    hide IsDelivered, HashOf;
  }

  /** Taking a delivered event: no divergence is counted while events of one identity carry one payload. */
  lemma EvenNext(p: Plan, deduplicate: bool, before: Buffers, index: map<Hash, nat>, now: seq<Node>, divergent: nat, ev: Event)
    requires Buffered(deduplicate, before.pending, before.byHash, index) && IsDelivered(p, ev)
    requires Agreeing(p) ==> before.progress.divergent == 0 && Faithful(p, before.pending)
    requires var h := HashOf(ev.record, p.source);
             && BatchFrom(before.pending, now, h, ev.raw)
             && divergent == before.progress.divergent + if deduplicate && Differs(before, h, ev.raw) then 1 else 0
    ensures Agreeing(p) ==> divergent == 0 && Faithful(p, now)
  {
    hide Agreeing, Faithful, BatchFrom, Differs, IsDelivered, HashOf;
    if Agreeing(p) {
      StaysFaithful(p, before.pending, now, ev);
      if deduplicate {
        NothingDiffers(p, before, ev);
      }
    }
  }

  lemma EmptyIsFaithful(p: Plan)
    ensures Faithful(p, [])
  {
  }

  /** The buffered event with this hash carries another payload. */
  predicate Differs(b: Buffers, h: Hash, raw: string) {
    h in b.byHash && b.byHash[h] < |b.pending| && b.pending[b.byHash[h]].raw != raw
  }

  /** A copy has been folded into the buffered event with this hash, and nothing else in the batch changed. */
  predicate Folded(b: Buffers, pending: seq<Node>, h: Hash, source: string) {
    h in b.byHash && b.byHash[h] < |b.pending| &&
    pending == b.pending[b.byHash[h] := AddSourceOccurrence(b.pending[b.byHash[h]], source, 1)]
  }

  /** What a crash may find. */
  ghost predicate Durably(p: Plan, deduplicate: bool, trace: seq<Durable>) {
    AllSafe(p, trace) && (deduplicate ==> AllGrown(p, trace))
  }

  /** What holds between two steps of a run that has not failed, `done` chunks and the identities `seen` into it. */
  ghost predicate Books(p: Plan, deduplicate: bool, trace: seq<Durable>, b: Buffers,
                        pos: map<string, nat>, done: nat, seen: seq<Hash>) {
    && trace != [] && Durably(p, deduplicate, trace)
    && OnPlan(p, done, seen) && Behind(p, pos, done) && Behind(p, b.staged, done) && CaughtUp(p, pos, b.staged, done)
    && var d := trace[|trace| - 1];
       && Exact(p, d.nodes, b.inc, b.pending, seen)
       && Pointed(d.nodes, d.index, b.inc) && Buffered(deduplicate, b.pending, b.byHash, d.index)
       && (deduplicate ==> Listed(p.start, d.nodes, b.pending, seen) && Learned(p.start, d.nodes, d.index))
       && b.progress.read == |seen| == b.progress.persisted + |b.pending| + b.progress.duplicate
  }

  lemma BooksAtStart(p: Plan, deduplicate: bool)
    requires Pointed(p.start.nodes, p.start.index, map[])
    ensures Books(p, deduplicate, [p.start], Buffers([], map[], map[], map[], Progress(0, 0, 0, 0, 0, 0, 0, 0)),
                  p.start.marks, 0, [])
  {
    StartIsSafe(p);
    AtFirst(p.start);
    GrowsWith(p, [], p.start.nodes, p.start, 0, []);
  }

  /** What is committed and listed can be left on disk. */
  lemma GrowsWith(p: Plan, trace: seq<Durable>, nodes: seq<Node>, d: Durable, done: nat, seen: seq<Hash>)
    requires AllGrown(p, trace) && OnPlan(p, done, seen) && Listed(p.start, nodes, [], seen) && d.nodes == nodes
    ensures AllGrown(p, trace + [d]) && Grown(p.start, d, Heard(p, |p.chunks|))
  {
    hide Heard, Listed;
  }

  /** Positions may be written once both buffers are empty. */
  lemma MarkStep(p: Plan, deduplicate: bool, trace: seq<Durable>, b: Buffers, pos: map<string, nat>,
                 done: nat, seen: seq<Hash>, channel: string, after: map<string, nat>, trace': seq<Durable>)
    requires Books(p, deduplicate, trace, b, pos, done, seen) && b.pending == [] && b.inc == map[]
    requires channel in b.staged
    requires forall c :: Mark(after, c) ==
               if c == channel && b.staged[channel] > Mark(pos, c) then b.staged[channel] else Mark(pos, c)
    requires trace' != [] && Marked(trace, trace[|trace| - 1], trace', trace'[|trace'| - 1], after)
    ensures Books(p, deduplicate, trace', b, after, done, seen)
    ensures forall left :: Landed(pos, b.staged, left) ==> Landed(after, b.staged, left - {channel})
  {
    hide Exact, Pointed, Buffered, Listed, Learned, AllGrown, AllSafe, Safe, Behind, CaughtUp, Landed;
    var d := trace[|trace| - 1];
    MovesForward(p, pos, b.staged, after, channel, done);
    MarkTrace(p, trace, d, after, done, seen);
    if deduplicate {
      GrownMark(p, trace, d, after);
    }
  }

  lemma GrownMark(p: Plan, trace: seq<Durable>, d: Durable, marks: map<string, nat>)
    requires trace != [] && trace[|trace| - 1] == d && AllGrown(p, trace)
    ensures AllGrown(p, trace + [d.(marks := marks)])
  {
    assert d in trace;
  }

  lemma NothingStaged(p: Plan, deduplicate: bool, trace: seq<Durable>, b: Buffers, pos: map<string, nat>,
                      done: nat, seen: seq<Hash>)
    requires Books(p, deduplicate, trace, b, pos, done, seen) && Landed(pos, b.staged, {})
    ensures Books(p, deduplicate, trace, b.(staged := map[]), pos, done, seen)
  {
  }

  lemma IncrementStep(p: Plan, deduplicate: bool, trace: seq<Durable>, b: Buffers, pos: map<string, nat>,
                      done: nat, seen: seq<Hash>)
    requires Books(p, deduplicate, trace, b, pos, done, seen)
    ensures var d := trace[|trace| - 1];
            Books(p, deduplicate, trace + [d.(nodes := Applied(d.nodes, b.inc, p.source))], b.(inc := map[]),
                  pos, done, seen)
  {
    hide Exact, OnPlan, Pointed, Buffered, Behind, CaughtUp, Listed, Learned, AllGrown, AllSafe, Safe, Applied;
    var d := trace[|trace| - 1];
    var e := d.(nodes := Applied(d.nodes, b.inc, p.source));
    LastIsSafe(p, trace, d);
    IncrementIsSafe(p, d, b.inc, b.pending, done, seen);
    AppliedStaysPointed(d.nodes, d.index, b.inc, p.source);
    TraceGrows(p, trace, e);
    if deduplicate {
      AppliedIsGrown(p, trace, d, b.inc);
      SameIdsListed(p.start, d.nodes, b.pending, e.nodes, b.pending, seen);
    }
  }

  lemma AppliedIsGrown(p: Plan, trace: seq<Durable>, d: Durable, inc: map<nat, nat>)
    requires trace != [] && trace[|trace| - 1] == d && AllGrown(p, trace)
    ensures AllGrown(p, trace + [d.(nodes := Applied(d.nodes, inc, p.source))])
  {
    assert Grown(p.start, d, Heard(p, |p.chunks|));
    var seen :| seen <= Heard(p, |p.chunks|) && Listed(p.start, d.nodes, [], seen);
    hide Applied, Heard;
    SameIdsListed(p.start, d.nodes, [], Applied(d.nodes, inc, p.source), [], seen);
  }

  /** Committing and registering the batch: every state on the way is safe, and the last one has exact books. */
  lemma CommitStep(p: Plan, deduplicate: bool, trace: seq<Durable>, b: Buffers, pos: map<string, nat>,
                   done: nat, seen: seq<Hash>, trace': seq<Durable>)
    requires Books(p, deduplicate, trace, b, pos, done, seen) && trace <= trace'
    requires OnlyIndexing(trace', |trace|, trace[|trace| - 1], b.pending)
    ensures Durably(p, deduplicate, trace')
    ensures var d := trace[|trace| - 1];
            trace'[|trace'| - 1].nodes == d.nodes + Prepared(b.pending) &&
            trace'[|trace'| - 1].index == RegisteredAll(d.index, b.pending, |d.nodes|) ==>
              Books(p, deduplicate, trace',
                    b.(pending := [], byHash := map[],
                       progress := b.progress.(persisted := b.progress.persisted + |b.pending|)), pos, done, seen)
  {
    hide Exact, OnPlan, Pointed, Buffered, Behind, CaughtUp, Listed, Learned, AllGrown, AllSafe, Safe, OnlyIndexing, RegisteredAll;
    var d := trace[|trace| - 1];
    LastIsSafe(p, trace, d);
    CommitIsSafe(p, d, b.inc, b.pending, done, seen);
    IndexingIsSafe(p, trace, trace', d, b.pending);
    RegisteringKeepsPointers(d.nodes, d.index, b.inc, b.pending);
    if deduplicate {
      CommittedIsListed(p.start, d.nodes, b.pending, seen);
      RegisteringLearns(p.start, d.nodes, d.index, b.pending);
      IndexingIsGrown(p, trace, trace', d, b.pending, done, seen);
    }
    NothingBuffered(deduplicate, trace'[|trace'| - 1].index);
  }

  lemma LastIsSafe(p: Plan, trace: seq<Durable>, d: Durable)
    requires AllSafe(p, trace) && trace != [] && trace[|trace| - 1] == d
    ensures Safe(p, d)
  {
  }

  lemma IndexingIsSafe(p: Plan, trace: seq<Durable>, after: seq<Durable>, d: Durable, pending: seq<Node>)
    requires AllSafe(p, trace) && trace <= after
    requires OnlyIndexing(after, |trace|, d, pending)
    requires forall i :: Safe(p, Durable(d.nodes + Prepared(pending), i, d.marks))
    ensures AllSafe(p, after)
  {
  }

  lemma IndexingIsGrown(p: Plan, trace: seq<Durable>, after: seq<Durable>, d: Durable, pending: seq<Node>, done: nat,
                        seen: seq<Hash>)
    requires AllGrown(p, trace) && trace <= after && OnlyIndexing(after, |trace|, d, pending)
    requires OnPlan(p, done, seen) && Listed(p.start, d.nodes + Prepared(pending), [], seen)
    ensures AllGrown(p, after)
  {
    forall i | |trace| <= i < |after| ensures Grown(p.start, after[i], Heard(p, |p.chunks|)) {
      GrowsWith(p, trace, d.nodes + Prepared(pending), after[i], done, seen);
    }
  }

  lemma NothingBuffered(deduplicate: bool, index: map<Hash, nat>)
    ensures Buffered(deduplicate, [], map[], index)
  {
  }

  /** What the sink meets when it looks: a pause and how the wait for its end went, then a cancellation, the start of
      a pause, or a chunk. */
  datatype Arrival = Cancelled | Pausing | Delivered(chunk: Chunk)
  datatype Turn = Turn(paused: bool, released: bool, arrival: Arrival)

  /** How a turn leaves the run: in its loop, on its way out, or failed. */
  datatype After = Going | Leaving | Broken

  datatype Outcome = Failed | Stopped | Completed

  /** What the disk and the bookmarks have been through. */
  datatype History = History(trace: seq<Durable>, pos: map<string, nat>, failed: bool)

  /** From the one to the other nothing was undone. */
  ghost predicate Onward(h: History, k: History) {
    h.trace <= k.trace && (forall c :: Mark(h.pos, c) <= Mark(k.pos, c)) && (h.failed ==> k.failed)
  }

  lemma OnwardTwice(h: History, k: History, l: History)
    requires Onward(h, k) && Onward(k, l)
    ensures Onward(h, l)
  {
  }

  lemma OnwardAtFirst(h: History)
    ensures Onward(h, h)
  {
  }

  class Sink {
    const disk: Disk
    const store: EventStore
    const bookmarks: Bookmarks
    const deduplicate: bool
    const bookmarking: bool
    const batchSize: nat
    const source: string
    ghost const plan: Plan

    var pending: seq<Node>
    var pendingByHash: map<Hash, nat>
    var dbInc: map<nat, nat>
    var staged: map<string, nat>
    var progress: Progress
    /** How many chunks were taken completely, and the identities met so far. */
    ghost var done: nat
    ghost var seen: seq<Hash>

    ghost predicate Wired()
      reads disk
    {
      disk.Valid() && store.disk == disk && bookmarks.disk == disk && source == plan.source && batchSize > 0
    }

    ghost function Held(): Buffers
      reads this
    {
      Buffers(pending, pendingByHash, dbInc, staged, progress)
    }

    ghost predicate Steady()
      reads this, disk, bookmarks
    {
      Wired() && Saved() && Books(plan, deduplicate, disk.trace, Held(), bookmarks.pos, done, seen)
    }

    /** The document holds the positions in memory, unless writing one has failed. Without bookmarking neither moves. */
    ghost predicate Saved()
      reads disk, bookmarks
    {
      && (bookmarks.failed || disk.marks == bookmarks.pos) && (disk.reliable ==> !bookmarks.failed)
      && (!bookmarking ==> bookmarks.pos == plan.start.marks)
    }

    /** As long as events of one identity carry one payload, no divergence has been counted. */
    ghost predicate Even()
      reads this
    {
      Agreeing(plan) ==> progress.divergent == 0 && Faithful(plan, pending)
    }

    ghost function Past(): History
      reads disk, bookmarks
    {
      History(disk.trace, bookmarks.pos, bookmarks.failed)
    }

    constructor (disk: Disk, deduplicate: bool, bookmarking: bool, batchSize: nat, ghost plan: Plan, source: string)
      requires disk.Valid() && disk.trace == [plan.start] && source == plan.source && batchSize > 0
      requires Pointed(plan.start.nodes, plan.start.index, map[])
      ensures Steady() && this.disk == disk && this.plan == plan && this.deduplicate == deduplicate
      ensures done == 0 && seen == [] && fresh(this) && fresh(bookmarks) && pending == [] && dbInc == map[]
      ensures NotesOf(progress) == Notes(0, 0, 0, 0) && Even()
    {
      this.disk, this.deduplicate, this.bookmarking, this.batchSize := disk, deduplicate, bookmarking, batchSize;
      this.plan, this.source := plan, source;
      store := new EventStore(disk);
      bookmarks := new Bookmarks(disk);
      pending, pendingByHash, dbInc, staged := [], map[], map[], map[];
      progress := Progress(0, 0, 0, 0, 0, 0, 0, 0);
      done, seen := 0, [];
      new;
      EmptyIsFaithful(plan);
      BooksAtStart(plan, deduplicate);
    }

    /** What a run may stop in: a crash here loses nothing that a bookmark covers. */
    ghost predicate Recoverable()
      reads disk
    {
      Wired() && Durably(plan, deduplicate, disk.trace)
    }

    lemma SteadyIsRecoverable()
      requires Steady()
      ensures Recoverable()
    {
    }

    method MarkChannel(channel: string)
      requires Steady() && bookmarking && pending == [] && dbInc == map[] && channel in staged
      modifies bookmarks, disk
      ensures Onward(old(Past()), Past())
      ensures forall left :: Landed(old(bookmarks.pos), staged, left) ==> Landed(bookmarks.pos, staged, left - {channel})
      ensures Steady() && disk.nodes == old(disk.nodes) && disk.index == old(disk.index)
    {
      hide Books, Landed;
      ghost var pos, trace := bookmarks.pos, disk.trace;
      var ok := bookmarks.SetPosition(channel, staged[channel]);
      MarkStep(plan, deduplicate, trace, Held(), pos, done, seen, channel, bookmarks.pos, disk.trace);
    }

    /** Writes each staged position, in any order. */
    method MarkStaged()
      requires Steady() && bookmarking && pending == [] && dbInc == map[]
      modifies bookmarks, disk
      ensures Onward(old(Past()), Past())
      ensures Steady() && disk.nodes == old(disk.nodes) && disk.index == old(disk.index)
      ensures Landed(bookmarks.pos, staged, {})
    {
      var left := staged.Keys;
      assert Landed(bookmarks.pos, staged, left);
      OnwardAtFirst(Past());
      hide Books, Landed, Onward, Saved;
      while left != {}
        invariant Landed(bookmarks.pos, staged, left)
        invariant Steady() && left <= staged.Keys
        invariant Onward(old(Past()), Past())
        invariant disk.nodes == old(disk.nodes) && disk.index == old(disk.index)
        decreases |left|
      {
        var channel :| channel in left;
        ghost var past := Past();
        MarkChannel(channel);
        OnwardTwice(old(Past()), past, Past());
        left := left - {channel};
      }
    }

    /** Writes the staged positions, but only when nothing is left unwritten. */
    method CommitPositions()
      requires Steady()
      modifies this`staged, bookmarks, disk
      ensures Onward(old(Past()), Past())
      ensures Steady() && Recoverable() && disk.nodes == old(disk.nodes) && disk.index == old(disk.index)
      ensures bookmarking && pending == [] && dbInc == map[] ==> staged == map[]
      ensures !bookmarking || pending != [] || dbInc != map[] ==>
                bookmarks.pos == old(bookmarks.pos) && disk.trace == old(disk.trace) && staged == old(staged)
    {
      hide Books, Recoverable, Onward, Saved, Landed;
      OnwardAtFirst(Past());
      SteadyIsRecoverable();
      if !bookmarking || |staged| == 0 || |pending| > 0 || |dbInc| > 0 {
        return;
      }
      MarkStaged();
      NothingStaged(plan, deduplicate, disk.trace, Held(), bookmarks.pos, done, seen);
      staged := map[];
      SteadyIsRecoverable();
    }

    method WriteIncrements() returns (ok: bool)
      requires Steady() && dbInc != map[]
      modifies this`dbInc, disk
      ensures Onward(old(Past()), Past())
      ensures Recoverable() && disk.index == old(disk.index) && |disk.nodes| == |old(disk.nodes)|
      ensures ok ==> Steady() && dbInc == map[] && disk.nodes == Applied(old(disk.nodes), old(dbInc), source)
      ensures disk.reliable ==> ok
    {
      hide Applied, Books, Durably;
      SteadyIsRecoverable();
      IncrementStep(plan, deduplicate, disk.trace, Held(), bookmarks.pos, done, seen);
      ok := store.IncrementDedupCounts(dbInc, source);
      if ok {
        dbInc := map[];
        SteadyIsRecoverable();
      }
    }

    /** Writes the increments owed. */
    method FlushInc() returns (ok: bool)
      requires Steady()
      modifies this`dbInc, this`staged, bookmarks, disk
      ensures Onward(old(Past()), Past())
      ensures Recoverable() && disk.index == old(disk.index) && |disk.nodes| == |old(disk.nodes)|
      ensures ok ==> Steady() && dbInc == map[]
      ensures ok && old(dbInc) != map[] && bookmarking && pending == [] ==> staged == map[]
      ensures ok ==> disk.nodes == if old(dbInc) == map[] then old(disk.nodes) else Applied(old(disk.nodes), old(dbInc), source)
      ensures disk.reliable ==> ok
    {
      hide Books, Recoverable, Applied, Onward, Saved;
      OnwardAtFirst(Past());
      if |dbInc| == 0 {
        SteadyIsRecoverable();
        return true;
      }
      ok := WriteIncrements();
      if ok {
        ghost var past := Past();
        CommitPositions();
        OnwardTwice(old(Past()), past, Past());
      }
    }

    method WriteBatch() returns (ok: bool)
      requires Steady() && pending != []
      modifies this`pending, this`pendingByHash, this`progress, disk
      ensures Onward(old(Past()), Past())
      ensures Recoverable() && NotesOf(progress) == NotesOf(old(progress)) && progress.divergent == old(progress).divergent
      ensures ok ==> Steady() && pending == [] && disk.nodes == old(disk.nodes) + Prepared(old(pending))
      ensures disk.reliable ==> ok
    {
      hide Prepared, Books, Durably, RegisteredAll, OnlyIndexing;
      ghost var trace := disk.trace;
      ok := store.InsertEvents(pending);
      CommitStep(plan, deduplicate, trace, Held(), bookmarks.pos, done, seen, disk.trace);
      if ok {
        progress := progress.(persisted := progress.persisted + |pending|);
        pending := [];
        if |pendingByHash| > 0 {
          pendingByHash := map[];
        }
      }
    }

    /** Writes the batch. */
    method Flush() returns (ok: bool)
      requires Steady()
      modifies this`pending, this`pendingByHash, this`progress, this`staged, bookmarks, disk
      ensures Onward(old(Past()), Past())
      ensures Recoverable() && NotesOf(progress) == NotesOf(old(progress)) && progress.divergent == old(progress).divergent
      ensures ok ==> Steady() && pending == [] && disk.nodes == old(disk.nodes) + Prepared(old(pending))
      ensures ok && old(pending) != [] && bookmarking && dbInc == map[] ==> staged == map[]
      ensures disk.reliable ==> ok
    {
      hide Books, Recoverable, Onward, Saved;
      OnwardAtFirst(Past());
      if |pending| == 0 {
        SteadyIsRecoverable();
        return true;
      }
      ok := WriteBatch();
      if ok {
        ghost var past := Past();
        CommitPositions();
        OnwardTwice(old(Past()), past, Past());
      }
    }

    /** Both buffers are smaller than a batch. */
    ghost predicate Bounded()
      reads this
    {
      |pending| < batchSize && |dbInc| < batchSize
    }

    /** A copy of an event in the batch. */
    method TakeCopy(h: Hash, raw: string, read: Progress)
      requires Steady() && deduplicate && h in pendingByHash && seen + [h] <= Heard(plan, |plan.chunks|)
      requires read.read == progress.read + 1 && read.duplicate == progress.duplicate && read.persisted == progress.persisted
      modifies this`pending, this`progress, this`seen
      ensures Steady() && |pending| == |old(pending)| && seen == old(seen) + [h]
      ensures Folded(old(Held()), pending, h, source) && NotesOf(progress) == NotesOf(read)
      ensures progress.divergent == read.divergent + if Differs(old(Held()), h, raw) then 1 else 0
      ensures var k := old(pendingByHash)[h];
              k < |old(pending)| && progress.divergent == read.divergent + if old(pending)[k].raw == raw then 0 else 1
    {
      hide Books, Heard;
      ghost var before := Held();
      var k := pendingByHash[h];
      progress := read.(duplicate := read.duplicate + 1);
      TakeCopyInBatch(plan, disk.trace, before, bookmarks.pos, done, seen, h, progress);
      if raw != pending[k].raw {
        progress := progress.(divergent := progress.divergent + 1);
      }
      TakeCopyInBatch(plan, disk.trace, before, bookmarks.pos, done, seen, h, progress);
      pending := pending[k := AddSourceOccurrence(pending[k], source, 1)];
      seen := seen + [h];
    }

    /** A copy of a stored event. */
    method TakeStored(h: Hash, id: nat, read: Progress) returns (ok: bool)
      requires Steady() && Bounded() && h in disk.index && id == disk.index[h] && seen + [h] <= Heard(plan, |plan.chunks|)
      requires read.read == progress.read + 1 && read.duplicate == progress.duplicate && read.persisted == progress.persisted
      modifies this`dbInc, this`staged, this`progress, this`seen, bookmarks, disk
      ensures Onward(old(Past()), Past())
      ensures Recoverable() && NotesOf(progress) == NotesOf(read) && progress.divergent == read.divergent
      ensures ok ==> Steady() && Bounded() && seen == old(seen) + [h]
      ensures var inc := old(dbInc[id := Owed(dbInc, id) + 1]);
              if |inc| < batchSize then ok && dbInc == inc && disk.nodes == old(disk.nodes)
              else ok ==> dbInc == map[] && disk.nodes == Applied(old(disk.nodes), inc, source)
      ensures disk.reliable ==> ok
    {
      OnwardAtFirst(Past());
      hide Onward, Saved, Books, Recoverable, Heard, Applied;
      progress := read.(duplicate := read.duplicate + 1);
      TakeCopyOnRecord(plan, deduplicate, disk.trace, Held().(progress := old(progress)), bookmarks.pos, done,
                       seen, h, progress);
      dbInc := dbInc[id := Owed(dbInc, id) + 1];
      seen := seen + [h];
      ok := true;
      if |dbInc| >= batchSize {
        ok := FlushInc();
      } else {
        SteadyIsRecoverable();
      }
    }

    /** An event not met before joins the batch. */
    method TakeAsNew(h: Hash, raw: string, read: Progress) returns (ok: bool)
      requires Steady() && Bounded() && seen + [h] <= Heard(plan, |plan.chunks|)
      requires deduplicate ==> h !in pendingByHash && h !in disk.index
      requires read.read == progress.read + 1 && read.duplicate == progress.duplicate && read.persisted == progress.persisted
      modifies this`pending, this`pendingByHash, this`staged, this`progress, this`seen, bookmarks, disk
      ensures Onward(old(Past()), Past())
      ensures Recoverable() && NotesOf(progress) == NotesOf(read) && progress.divergent == read.divergent
      ensures ok ==> Steady() && Bounded() && seen == old(seen) + [h]
      ensures var batch := old(pending) + [Fresh(h, raw, source)];
              if |batch| < batchSize then ok && pending == batch && disk.nodes == old(disk.nodes)
              else ok ==> pending == [] && disk.nodes == old(disk.nodes) + Prepared(batch)
      ensures disk.reliable ==> ok
      ensures |old(pending)| + 1 < batchSize ==> pending == old(pending) + [Node(h, raw, source, 1, map[])]
    {
      OnwardAtFirst(Past());
      hide Onward, Saved, Books, Recoverable, Heard;
      var e := Fresh(h, raw, source);
      TakeNew(plan, deduplicate, disk.trace, Held(), bookmarks.pos, done, seen, e, read);
      progress := read;
      if deduplicate {
        pendingByHash := pendingByHash[h := |pending|];
      }
      pending := pending + [e];
      seen := seen + [h];
      ok := true;
      if |pending| >= batchSize {
        ok := Flush();
      } else {
        SteadyIsRecoverable();
      }
    }

    method TakeEvent(ev: Event) returns (ok: bool)
      requires Steady() && Bounded() && seen + [HashOf(ev.record, source)] <= Heard(plan, |plan.chunks|)
      modifies this`pending, this`pendingByHash, this`dbInc, this`staged, this`progress, this`seen, bookmarks, disk
      ensures Onward(old(Past()), Past())
      ensures Recoverable()
      ensures ok ==> Steady() && Bounded() && seen == old(seen) + [HashOf(ev.record, source)]
      ensures NotesOf(progress) == NotesOf(old(progress).(undated := old(progress).undated + UndatedOne(ev)))
      ensures var other := deduplicate && Differs(old(Held()), HashOf(ev.record, source), ev.raw);
              ok ==> progress.divergent == old(progress).divergent + if other then 1 else 0
      ensures ok ==> BatchFrom(old(pending), pending, HashOf(ev.record, source), ev.raw)
      ensures disk.reliable ==> ok
    {
      OnwardAtFirst(Past());
      hide Onward, Saved, Books, Recoverable, Heard, BatchFrom, Folded, Applied;
      SteadyIsRecoverable();
      var read := progress.(read := progress.read + 1,
                            undated := progress.undated + UndatedOne(ev));
      var h := HashOf(ev.record, source);
      SameBatch(pending, h, ev.raw);
      LongerBatch(pending, h, ev.raw, source);
      if deduplicate {
        if h in pendingByHash {
          ghost var held := Held();
          TakeCopy(h, ev.raw, read);
          FoldedBatch(held, pending, h, source, ev.raw);
          return true;
        }
        var found, id;
        ok, found, id := store.FindEventIDByHash(h);
        if !ok {
          progress := read;
          return;
        }
        if found {
          ok := TakeStored(h, id, read);
          return;
        }
      }
      ok := TakeAsNew(h, ev.raw, read);
    }

    /** Takes an event of the plan. */
    method TakeDelivered(ev: Event) returns (ok: bool)
      requires Steady() && Bounded() && seen + [HashOf(ev.record, source)] <= Heard(plan, |plan.chunks|)
      requires IsDelivered(plan, ev) && Even()
      modifies this`pending, this`pendingByHash, this`dbInc, this`staged, this`progress, this`seen, bookmarks, disk
      ensures Onward(old(Past()), Past()) && Recoverable()
      ensures ok ==> Steady() && Bounded() && seen == old(seen) + [HashOf(ev.record, source)] && Even()
      ensures NotesOf(progress) == NotesOf(old(progress).(undated := old(progress).undated + UndatedOne(ev)))
      ensures disk.reliable ==> ok
    {
      ghost var held, index := Held(), disk.index;
      BatchIsBuffered();
      hide Books, Recoverable, Onward, Saved, Heard, HashOf, Agreeing, Faithful, BatchFrom, Differs, IsDelivered, Buffered;
      ok := TakeEvent(ev);
      if ok {
        EvenNext(plan, deduplicate, held, index, pending, progress.divergent, ev);
      }
    }

    /** Takes the k-th event of a chunk that has been counted; `was` is what was told before it. */
    method TakeNth(c: Chunk, k: nat, ghost was: Notes) returns (ok: bool)
      requires Steady() && Bounded() && done < |plan.chunks| && plan.chunks[done] == c && k < |c.events| && Even()
      requires seen == Heard(plan, done) + Hashes(c.events, source)[..k] && NotesOf(progress) == NotesSoFar(was, c, k)
      modifies this`pending, this`pendingByHash, this`dbInc, this`staged, this`progress, this`seen, bookmarks, disk
      ensures Onward(old(Past()), Past()) && Recoverable()
      ensures ok ==> Steady() && Bounded() && Even() && seen == Heard(plan, done) + Hashes(c.events, source)[..k + 1]
      ensures ok ==> NotesOf(progress) == NotesSoFar(was, c, k + 1)
      ensures disk.reliable ==> ok
    {
      hide Onward, Saved, Books, Recoverable, Heard, UndatedIn, NotesSoFar, HashOf, IsDelivered, Bounded, Even;
      NextNotes(was, c, k);
      NextHash(plan, done, Hashes(c.events, source), k);
      DeliveredHere(plan, done, k);
      ok := TakeDelivered(c.events[k]);
    }

    /** Takes the events of a chunk. */
    method TakeEvents(c: Chunk, ghost was: Notes) returns (ok: bool)
      requires Steady() && Bounded() && done < |plan.chunks| && plan.chunks[done] == c && seen == Heard(plan, done)
      requires NotesOf(progress) == NotesSoFar(was, c, 0) && Even()
      modifies this`pending, this`pendingByHash, this`dbInc, this`staged, this`progress, this`seen, bookmarks, disk
      ensures Onward(old(Past()), Past()) && Recoverable()
      ensures ok ==> Steady() && Bounded() && seen == Heard(plan, done + 1)
      ensures ok ==> NotesOf(progress) == NotesSoFar(was, c, |c.events|) && Even()
      ensures disk.reliable ==> ok
    {
      OnwardAtFirst(Past());
      SteadyIsRecoverable();
      hide Onward, Saved, Books, Recoverable, Heard, Hashes, UndatedIn, NotesSoFar, HashOf, Bounded, Even;
      for k := 0 to |c.events|
        invariant Steady() && Bounded() && Recoverable() && Even()
        invariant seen == Heard(plan, done) + Hashes(c.events, source)[..k]
        invariant Onward(old(Past()), Past())
        invariant NotesOf(progress) == NotesSoFar(was, c, k)
      {
        ghost var past := Past();
        ok := TakeNth(c, k, was);
        OnwardTwice(old(Past()), past, Past());
        if !ok {
          return;
        }
      }
      LastHash(plan, done, Hashes(c.events, source));
      ok := true;
    }

    lemma BatchIsBuffered()
      requires Steady()
      ensures Buffered(deduplicate, pending, pendingByHash, disk.index)
    {
    }

    method TakeChunk(c: Chunk) returns (ok: bool)
      requires Steady() && Bounded() && done < |plan.chunks| && plan.chunks[done] == c && seen == Heard(plan, done)
      requires NotesOf(progress) == Told(plan, done) && Even()
      modifies this`pending, this`pendingByHash, this`dbInc, this`staged, this`progress, this`seen, this`done, bookmarks, disk
      ensures Onward(old(Past()), Past())
      ensures Recoverable()
      ensures !ok ==> done == old(done)
      ensures ok ==> Steady() && Bounded() && done == old(done) + 1 && seen == Heard(plan, done)
      ensures ok ==> NotesOf(progress) == Told(plan, done) && Even()
      ensures disk.reliable ==> ok
    {
      hide Onward, Saved, Books, Recoverable, Heard, Told, UndatedIn, NotesSoFar, Agreeing, Faithful;
      ghost var was := NotesOf(progress);
      NotesBegin(plan, done);
      var p := progress.(parsed := progress.parsed + 1, skipped := progress.skipped + c.unreadable,
                         lastRecordId := if c.maxRecordId > progress.lastRecordId then c.maxRecordId else progress.lastRecordId);
      CountersDoNotMatter(p);
      progress := p;
      ok := TakeEvents(c, was);
      if !ok {
        return;
      }
      ChunkDone(plan, deduplicate, disk.trace, Held(), bookmarks.pos, done, seen);
      staged := Staged(staged, c);
      done := done + 1;
      SteadyIsRecoverable();
    }

    /** Whatever stopped the sink, both buffers are written before it blocks or returns. */
    method FlushAll() returns (ok: bool)
      requires Steady() && Bounded()
      modifies this`pending, this`pendingByHash, this`dbInc, this`staged, this`progress, bookmarks, disk
      ensures Onward(old(Past()), Past())
      ensures Recoverable()
      ensures ok ==> Steady() && Bounded() && Written()
      ensures NotesOf(progress) == NotesOf(old(progress)) && progress.divergent == old(progress).divergent
      ensures disk.reliable ==> ok
    {
      hide Books, Recoverable, Onward, Saved;
      ok := Flush();
      if !ok {
        return;
      }
      ghost var past := Past();
      ok := FlushInc();
      OnwardTwice(old(Past()), past, Past());
      if ok {
        past := Past();
        CommitPositions();
        OnwardTwice(old(Past()), past, Past());
      }
    }

    /** Nothing is left in memory that is not on disk. */
    ghost predicate Written()
      reads this
    {
      pending == [] && dbInc == map[] && (bookmarking ==> staged == map[])
    }

    /** At the end of a run that has not failed. */
    lemma EndsUniqueIffKnown()
      requires Steady() && Written() && deduplicate && Unique(plan.start.nodes) && done <= |plan.chunks|
      requires seen == Heard(plan, done)
      ensures Unique(disk.nodes) <==> Known(plan.start, Heard(plan, done))
    {
      hide Books, Heard, Unique, Known;
      StoredOnceIffKnown(plan, disk.trace, Held(), bookmarks.pos, done);
    }

    /** The pause boundary: everything delivered so far is written before the sink blocks. */
    method StandStill() returns (ok: bool, ghost boundary: nat)
      requires Steady() && Bounded() && done <= |plan.chunks| && seen == Heard(plan, done) && Even()
      modifies this`pending, this`pendingByHash, this`dbInc, this`staged, this`progress, bookmarks, disk
      ensures Onward(old(Past()), Past()) && Recoverable() && NotesOf(progress) == NotesOf(old(progress))
      ensures ok ==> Even() && Steady() && Bounded() && Written() && boundary == |disk.trace| - 1
      ensures ok ==> BoundaryAt(plan, bookmarking && !bookmarks.failed, disk.trace, boundary, done)
      ensures ok && bookmarking ==> Reached(plan, bookmarks.pos, done)
      ensures disk.reliable ==> ok
    {
      hide Books, Recoverable, Onward, Saved, BoundaryAt, Reached, Heard;
      boundary := 0;
      ok := FlushAll();
      if ok {
        EmptyIsFaithful(plan);
        boundary := |disk.trace| - 1;
        AtBoundary();
      }
    }

    /** One turn: the pause boundary, if the gate is paused, and then what the sink meets. `boundary` is where on the
        disk's trace everything delivered before had been written. */
    method TakeTurn(t: Turn) returns (after: After, ghost boundary: nat)
      requires Steady() && Bounded() && done <= |plan.chunks| && seen == Heard(plan, done)
      requires NotesOf(progress) == Told(plan, done) && Even()
      requires t.arrival.Delivered? ==> done < |plan.chunks| && plan.chunks[done] == t.arrival.chunk
      modifies this`pending, this`pendingByHash, this`dbInc, this`staged, this`progress, this`seen, this`done, bookmarks, disk
      ensures Onward(old(Past()), Past())
      ensures Recoverable() && done <= |plan.chunks|
      ensures after != Broken ==> Even() && Steady() && Bounded() && seen == Heard(plan, done) && NotesOf(progress) == Told(plan, done)
      ensures after == Leaving <==> after != Broken && Leaves(t)
      ensures t.paused && after != Broken ==>
                |old(disk.trace)| <= boundary + 1 && BoundaryAt(plan, bookmarking && !bookmarks.failed, disk.trace, boundary, old(done))
      ensures t.paused && after != Broken && bookmarking ==> Reached(plan, bookmarks.pos, old(done))
      ensures after == Going ==> done == old(done) + if t.arrival.Delivered? then 1 else 0
      ensures after == Leaving ==> done == old(done)
      ensures disk.reliable ==> after != Broken
    {
      hide Books, Recoverable, Heard, Told, Chunks, Reach, BoundaryAt, Reached, Onward, Saved, Bounded, Even;
      after, boundary := Broken, 0;
      OnwardAtFirst(Past());
      SteadyIsRecoverable();
      if t.paused {
        var ok;
        ok, boundary := StandStill();
        LongerTrace(old(Past()), Past());
        if !ok {
          return;
        }
        if !t.released {
          after := Leaving;
          return;
        }
      }
      match t.arrival
      case Cancelled =>
        after := Leaving;
      case Pausing =>
        after := Going;
      case Delivered(c) =>
        ghost var past := Past();
        var ok := TakeChunk(c);
        OnwardTwice(old(Past()), past, Past());
        BoundaryStays(plan, bookmarking, past, Past(), boundary, old(done));
        after := if ok then Going else Broken;
    }

    /** With nothing left in memory, the disk has come to a boundary. */
    lemma AtBoundary()
      requires Steady() && Written() && done <= |plan.chunks| && seen == Heard(plan, done)
      ensures BoundaryAt(plan, bookmarking && !bookmarks.failed, disk.trace, |disk.trace| - 1, done)
      ensures bookmarking ==> Reached(plan, bookmarks.pos, done)
    {
      hide Books, Heard, Reach;
      NothingIsLost(plan, deduplicate, disk.trace, Held(), bookmarks.pos, done);
      if bookmarking {
        forall c | c != "" ensures Reach(plan, done, c) <= Mark(bookmarks.pos, c) {
          NothingIsReadTwice(plan, deduplicate, disk.trace, Held(), bookmarks.pos, done, seen, c);
        }
      }
    }

    /** The i-th turn of a run, with its boundary put behind those of the turns before. */
    method NextTurn(turns: seq<Turn>, i: nat, ghost before: seq<nat>) returns (after: After, ghost boundaries: seq<nat>)
      requires Steady() && Bounded() && done <= |plan.chunks| && seen == Heard(plan, done)
      requires NotesOf(progress) == Told(plan, done) && Even()
      requires i < |turns| && Chunks(turns) == plan.chunks && Chunks(turns[..i]) == plan.chunks[..done]
      requires Boundaries(plan, bookmarking && !bookmarks.failed, disk.trace, turns[..i], before)
      modifies this`pending, this`pendingByHash, this`dbInc, this`staged, this`progress, this`seen, this`done, bookmarks, disk
      ensures Recoverable() && done <= |plan.chunks|
      ensures after != Broken ==> Even() && Steady() && Bounded() && seen == Heard(plan, done) && NotesOf(progress) == Told(plan, done)
      ensures after == Leaving <==> after != Broken && Leaves(turns[i])
      ensures after == Leaving ==> done == old(done)
      ensures after == Going ==> Chunks(turns[..i + 1]) == plan.chunks[..done]
      ensures Boundaries(plan, bookmarking && !bookmarks.failed, disk.trace,
                         if after == Broken then turns[..i] else turns[..i + 1], boundaries)
      ensures disk.reliable ==> after != Broken
    {
      hide Books, Recoverable, Heard, Told, Bounded, Boundaries, BoundaryAt, Reached, Chunks, Saved, Onward, Leaves, Even;
      ghost var past, m := Past(), done;
      ChunksNext(turns, i);
      NextChunk(plan.chunks, done, Chunks(turns[..i + 1]));
      ghost var boundary;
      after, boundary := TakeTurn(turns[i]);
      BoundariesStay(plan, bookmarking, past, Past(), turns[..i], before);
      boundaries := before;
      if after != Broken {
        BoundariesNext(plan, bookmarking && !bookmarks.failed, disk.trace, turns, i, before, boundary, m);
        boundaries := if turns[i].paused then before + [boundary] else before;
      }
    }

    /** One run over what the sink meets. A list that ends is a reader that has closed its channel. Pausing and
        cancelling are looked for before every chunk. `begun` is how many turns were begun, and `boundaries` where on the
        disk's trace the sink stood still, once for every pause. */
    method Run(turns: seq<Turn>) returns (outcome: Outcome, ghost begun: nat, ghost boundaries: seq<nat>)
      requires Steady() && Bounded() && done == 0 && seen == [] && plan.chunks == Chunks(turns)
      requires NotesOf(progress) == Notes(0, 0, 0, 0) && Even()
      modifies this`pending, this`pendingByHash, this`dbInc, this`staged, this`progress, this`seen, this`done, bookmarks, disk
      ensures Recoverable()
      ensures done <= |plan.chunks|
      ensures outcome != Failed ==> Steady() && Written() && seen == Heard(plan, done) && NotesOf(progress) == Told(plan, done)
      ensures outcome != Failed && Agreeing(plan) ==> progress.divergent == 0
      ensures begun <= |turns| && Boundaries(plan, bookmarking && !bookmarks.failed, disk.trace, turns[..begun], boundaries)
      ensures outcome == Completed ==> done == |plan.chunks| && begun == |turns| && forall t :: t in turns ==> !Leaves(t)
      ensures outcome == Stopped ==>
                begun > 0 && Leaves(turns[begun - 1]) && (forall t :: t in turns[..begun - 1] ==> !Leaves(t)) &&
                done == |Chunks(turns[..begun - 1])|
      ensures outcome != Failed && deduplicate && Unique(plan.start.nodes) ==>
                (Unique(disk.nodes) <==> Known(plan.start, Heard(plan, done)))
      ensures disk.reliable ==> outcome != Failed
    {
      hide Books, Recoverable, Heard, Unique, Known, Bounded, OnPlan, Boundaries, Saved, Told, Leaves, Onward, Chunks, Agreeing, Faithful;
      SteadyIsRecoverable();
      NothingHeard(plan);
      NoBoundaries(plan, bookmarking && !bookmarks.failed, disk.trace);
      begun, boundaries := 0, [];
      var i, cancelled := 0, false;
      while i < |turns|
        invariant i == begun <= |turns| && done <= |plan.chunks|
        invariant Steady() && Bounded() && Recoverable() && seen == Heard(plan, done)
        invariant NotesOf(progress) == Told(plan, done) && Even()
        invariant !cancelled && Chunks(turns[..i]) == plan.chunks[..done]
        invariant forall t :: t in turns[..i] ==> !Leaves(t)
        invariant Boundaries(plan, bookmarking && !bookmarks.failed, disk.trace, turns[..i], boundaries)
      {
        var after;
        after, boundaries := NextTurn(turns, i, boundaries);
        if after == Broken {
          return Failed, begun, boundaries;
        }
        assert turns[..i + 1] == turns[..i] + [turns[i]];
        begun := i + 1;
        if after == Leaving {
          cancelled := true;
          break;
        }
        i := i + 1;
      }
      assert !cancelled ==> turns[..i] == turns;
      ghost var past := Past();
      outcome := Finish(cancelled);
      BoundariesStay(plan, bookmarking, past, Past(), turns[..begun], boundaries);
    }

    /** Writes what is left once the run is over. */
    method Finish(cancelled: bool) returns (outcome: Outcome)
      requires Steady() && Bounded() && done <= |plan.chunks| && seen == Heard(plan, done)
      modifies this`pending, this`pendingByHash, this`dbInc, this`staged, this`progress, bookmarks, disk
      ensures Onward(old(Past()), Past()) && Recoverable() && NotesOf(progress) == NotesOf(old(progress))
      ensures outcome == Failed || outcome == if cancelled then Stopped else Completed
      ensures outcome != Failed ==> Steady() && Written() && progress.divergent == old(progress).divergent
      ensures outcome != Failed && deduplicate && Unique(plan.start.nodes) ==>
                (Unique(disk.nodes) <==> Known(plan.start, Heard(plan, done)))
      ensures disk.reliable ==> outcome != Failed
    {
      hide Books, Recoverable, Heard, Unique, Known, Onward, Saved;
      var ok := FlushAll();
      outcome := if !ok then Failed else if cancelled then Stopped else Completed;
      if ok && deduplicate && Unique(plan.start.nodes) {
        EndsUniqueIffKnown();
      }
    }

    lemma StandsTwice(h: Hash)
      requires Steady() && deduplicate && pending == [] && h in seen && OnRecord(plan.start.nodes, h) && h !in plan.start.index
      ensures !Unique(disk.nodes)
    {
      hide Books, OnRecord, Unique;
      StoredAgain(plan, disk.trace, Held(), bookmarks.pos, done, seen, h);
    }

    /** A crash between the commit of an event and its registration leaves it where no look-up finds it. Its next
        occurrence is then stored as a second event with the same identity. */
    method StoreUnregistered(ev: Event) returns (ok: bool)
      requires Steady() && Bounded() && deduplicate && seen + [HashOf(ev.record, source)] <= Heard(plan, |plan.chunks|)
      requires OnRecord(disk.nodes, HashOf(ev.record, source))
      requires HashOf(ev.record, source) !in disk.index && HashOf(ev.record, source) !in pendingByHash
      modifies this`pending, this`pendingByHash, this`dbInc, this`staged, this`progress, this`seen, bookmarks, disk
      ensures Recoverable()
      ensures ok ==> Steady() && seen == old(seen) + [HashOf(ev.record, source)] && !Unique(disk.nodes)
      ensures disk.reliable ==> ok
    {
      ghost var h := HashOf(ev.record, source);
      UnknownFromStart(plan.start, disk.nodes, disk.index, pending, seen, h);
      hide Books, Recoverable, Heard, OnRecord, Unique, NotesOf, Differs, Prepared, HashOf;
      ok := TakeEvent(ev);
      if ok {
        ok := Flush();
      }
      if ok {
        StandsTwice(h);
      }
    }

    lemma CountersDoNotMatter(other: Progress)
      requires Steady() && other.read == progress.read && other.persisted == progress.persisted
      requires other.duplicate == progress.duplicate
      ensures Books(plan, deduplicate, disk.trace, Held().(progress := other), bookmarks.pos, done, seen)
    {
    }
  }

  // ---- Pauses ------------------------------------------------------------------------------------------

  lemma DeliveredHere(p: Plan, done: nat, k: nat)
    requires done < |p.chunks| && k < |p.chunks[done].events|
    ensures IsDelivered(p, p.chunks[done].events[k])
  {
  }

  /** A turn on which the run goes to its end: cancelled, during the pause or after it. */
  predicate Leaves(t: Turn) {
    (t.paused && !t.released) || t.arrival.Cancelled?
  }

  /** The disk, in this state of its trace, counts exactly what the first m chunks delivered, each occurrence once. If
      `marked`, its bookmarks cover all of it. */
  ghost predicate BoundaryAt(p: Plan, marked: bool, trace: seq<Durable>, at: nat, m: nat) {
    && m <= |p.chunks| && at < |trace|
    && (forall w :: Total(trace[at].nodes, w) == Total(p.start.nodes, w) + Occurrences(Heard(p, m), w))
    && (marked ==> Reached(p, trace[at].marks, m))
  }

  /** Every channel's position is as far as the first m chunks reached. */
  ghost predicate Reached(p: Plan, marks: map<string, nat>, m: nat)
    requires m <= |p.chunks|
  {
    forall c :: c != "" ==> Reach(p, m, c) <= Mark(marks, c)
  }

  lemma BoundaryStays(p: Plan, bookmarking: bool, h: History, k: History, at: nat, m: nat)
    requires Onward(h, k) && m <= |p.chunks|
    ensures BoundaryAt(p, bookmarking && !h.failed, h.trace, at, m) ==> BoundaryAt(p, bookmarking && !k.failed, k.trace, at, m)
    ensures Reached(p, h.pos, m) ==> Reached(p, k.pos, m)
  {
    hide Heard, Reach;
    if Reached(p, h.pos, m) {
      forall c | c != "" ensures Reach(p, m, c) <= Mark(k.pos, c) {
        assert Mark(h.pos, c) <= Mark(k.pos, c);
      }
    }
  }

  lemma LongerTrace(h: History, k: History)
    requires Onward(h, k)
    ensures |h.trace| <= |k.trace|
  {
  }

  /** How many chunks were delivered before each pause. */
  ghost function Pauses(turns: seq<Turn>): seq<nat> {
    if turns == [] then []
    else
      var n := |turns| - 1;
      Pauses(turns[..n]) + if turns[n].paused then [|Chunks(turns[..n])|] else []
  }

  /** One boundary for every pause, in order. */
  ghost predicate Boundaries(p: Plan, marked: bool, trace: seq<Durable>, turns: seq<Turn>, at: seq<nat>) {
    && |at| == |Pauses(turns)|
    && (forall k :: 0 <= k < |at| ==> BoundaryAt(p, marked, trace, at[k], Pauses(turns)[k]))
    && forall j, k :: 0 <= j < k < |at| ==> at[j] <= at[k]
  }

  lemma NoBoundaries(p: Plan, marked: bool, trace: seq<Durable>)
    ensures Boundaries(p, marked, trace, [], [])
  {
  }

  lemma BoundariesStay(p: Plan, bookmarking: bool, h: History, k: History, turns: seq<Turn>, at: seq<nat>)
    requires Onward(h, k) && Boundaries(p, bookmarking && !h.failed, h.trace, turns, at)
    ensures Boundaries(p, bookmarking && !k.failed, k.trace, turns, at)
    ensures forall i :: 0 <= i < |at| ==> at[i] < |h.trace|
  {
    hide Pauses, BoundaryAt, Onward;
    forall i | 0 <= i < |at| ensures BoundaryAt(p, bookmarking && !k.failed, k.trace, at[i], Pauses(turns)[i]) && at[i] < |h.trace| {
      BoundaryIsThere(p, bookmarking && !h.failed, h.trace, at[i], Pauses(turns)[i]);
      BoundaryStays(p, bookmarking, h, k, at[i], Pauses(turns)[i]);
    }
  }

  lemma BoundaryIsThere(p: Plan, marked: bool, trace: seq<Durable>, at: nat, m: nat)
    requires BoundaryAt(p, marked, trace, at, m)
    ensures at < |trace| && m <= |p.chunks|
  {
  }

  lemma BoundariesNext(p: Plan, marked: bool, trace: seq<Durable>, turns: seq<Turn>, i: nat, at: seq<nat>, boundary: nat,
                       m: nat)
    requires i < |turns| && Boundaries(p, marked, trace, turns[..i], at) && m == |Chunks(turns[..i])|
    requires turns[i].paused ==> BoundaryAt(p, marked, trace, boundary, m) && forall k :: 0 <= k < |at| ==> at[k] <= boundary
    ensures Boundaries(p, marked, trace, turns[..i + 1], if turns[i].paused then at + [boundary] else at)
  {
    assert turns[..i + 1][..i] == turns[..i];
    hide BoundaryAt, Chunks;
  }

  lemma StoredAgain(p: Plan, trace: seq<Durable>, b: Buffers, pos: map<string, nat>, done: nat, seen: seq<Hash>, h: Hash)
    requires Books(p, true, trace, b, pos, done, seen) && b.pending == []
    requires h in seen && OnRecord(p.start.nodes, h) && h !in p.start.index
    ensures !Unique(trace[|trace| - 1].nodes)
  {
    UnknownIsStoredAgain(p.start, trace[|trace| - 1].nodes, seen, h);
  }

  lemma NextNotes(n: Notes, c: Chunk, k: nat)
    requires k < |c.events|
    ensures var now := NotesSoFar(n, c, k);
            NotesSoFar(n, c, k + 1) == now.(undated := now.undated + UndatedOne(c.events[k]))
  {
    assert c.events[..k + 1][..k] == c.events[..k];
  }

  lemma NotesBegin(p: Plan, done: nat)
    requires done < |p.chunks|
    ensures var c, n := p.chunks[done], Told(p, done);
            && Told(p, done + 1) == NotesSoFar(n, c, |c.events|)
            && NotesSoFar(n, c, 0) == Notes(n.parsed + 1, n.skipped + c.unreadable, n.undated,
                                            if c.maxRecordId > n.lastRecordId then c.maxRecordId else n.lastRecordId)
  {
  }

  // ---- Taking what is delivered ----------------------------------------------------------------------

  lemma SeenNext(p: Plan, done: nat, seen: seq<Hash>, h: Hash)
    requires OnPlan(p, done, seen) && seen + [h] <= Heard(p, |p.chunks|)
    ensures OnPlan(p, done, seen + [h])
  {
  }

  lemma TakeCopyInBatch(p: Plan, trace: seq<Durable>, b: Buffers, pos: map<string, nat>, done: nat,
                        seen: seq<Hash>, h: Hash, progress: Progress)
    requires Books(p, true, trace, b, pos, done, seen) && seen + [h] <= Heard(p, |p.chunks|) && h in b.byHash
    requires progress.read == b.progress.read + 1 && progress.duplicate == b.progress.duplicate + 1
    requires progress.persisted == b.progress.persisted
    ensures var k := b.byHash[h];
            k < |b.pending| &&
            Books(p, true, trace,
                  b.(pending := b.pending[k := AddSourceOccurrence(b.pending[k], p.source, 1)], progress := progress),
                  pos, done, seen + [h])
  {
    hide Exact, Pointed, Behind, CaughtUp, Listed, Learned, AllGrown, AllSafe, Safe, OnPlan;
    SeenNext(p, done, seen, h);
    var d, k := trace[|trace| - 1], b.byHash[h];
    CopyInBatch(p, d.nodes, b.inc, b.pending, seen, k);
    var folded := b.pending[k := AddSourceOccurrence(b.pending[k], p.source, 1)];
    assert Ids(folded) == Ids(b.pending) && Ids(b.pending)[k] == h;
    OldIsListed(p.start, d.nodes, b.pending, seen, h);
    SameIdsListed(p.start, d.nodes, b.pending, d.nodes, folded, seen + [h]);
  }

  lemma TakeCopyOnRecord(p: Plan, deduplicate: bool, trace: seq<Durable>, b: Buffers, pos: map<string, nat>,
                         done: nat, seen: seq<Hash>, h: Hash, progress: Progress)
    requires Books(p, deduplicate, trace, b, pos, done, seen) && seen + [h] <= Heard(p, |p.chunks|)
    requires h in trace[|trace| - 1].index
    requires progress.read == b.progress.read + 1 && progress.duplicate == b.progress.duplicate + 1
    requires progress.persisted == b.progress.persisted
    ensures var id := trace[|trace| - 1].index[h];
            Books(p, deduplicate, trace, b.(inc := b.inc[id := Owed(b.inc, id) + 1], progress := progress),
                  pos, done, seen + [h])
  {
    hide Exact, Buffered, Behind, CaughtUp, Listed, Learned, AllGrown, AllSafe, Safe, OnPlan;
    SeenNext(p, done, seen, h);
    var d := trace[|trace| - 1];
    CopyOnRecord(p, d.nodes, b.inc, b.pending, seen, d.index[h]);
    if deduplicate {
      IndexedIsOld(p.start, d.nodes, d.index, h);
      OldIsListed(p.start, d.nodes, b.pending, seen, h);
    }
  }

  lemma TakeNew(p: Plan, deduplicate: bool, trace: seq<Durable>, b: Buffers, pos: map<string, nat>,
                done: nat, seen: seq<Hash>, e: Node, progress: Progress)
    requires Books(p, deduplicate, trace, b, pos, done, seen) && seen + [e.hash] <= Heard(p, |p.chunks|)
    requires e.count == 1 && (deduplicate ==> e.hash !in b.byHash && e.hash !in trace[|trace| - 1].index)
    requires progress.read == b.progress.read + 1 && progress.duplicate == b.progress.duplicate
    requires progress.persisted == b.progress.persisted
    ensures Books(p, deduplicate, trace,
                  b.(pending := b.pending + [e],
                     byHash := if deduplicate then b.byHash[e.hash := |b.pending|] else b.byHash, progress := progress),
                  pos, done, seen + [e.hash])
  {
    hide Exact, Pointed, Behind, CaughtUp, Listed, Learned, AllGrown, AllSafe, Safe, OnPlan;
    SeenNext(p, done, seen, e.hash);
    NewInBatch(p, trace[|trace| - 1].nodes, b.inc, b.pending, seen, e);
    if deduplicate {
      assert e.hash !in Ids(b.pending);
      NewIsListed(p.start, trace[|trace| - 1].nodes, b.pending, trace[|trace| - 1].index, seen, e);
    }
  }

  function Staged(staged: map<string, nat>, c: Chunk): map<string, nat> {
    if c.channel != "" && c.maxRecordId > Mark(staged, c.channel) then staged[c.channel := c.maxRecordId] else staged
  }

  /** A chunk is done once all of its events are taken; its position is staged then. */
  lemma ChunkDone(p: Plan, deduplicate: bool, trace: seq<Durable>, b: Buffers, pos: map<string, nat>,
                  done: nat, seen: seq<Hash>)
    requires Books(p, deduplicate, trace, b, pos, done, seen) && done < |p.chunks|
    requires seen == Heard(p, done + 1)
    ensures Books(p, deduplicate, trace, b.(staged := Staged(b.staged, p.chunks[done])), pos, done + 1, seen)
  {
    hide Exact, Pointed, Buffered, Listed, Learned, AllGrown, AllSafe, Safe, Behind, CaughtUp, Heard, Staged;
    HeardGrows(p, done + 1, |p.chunks|);
    BehindLater(p, pos, done, done + 1);
    StagingFits(p, pos, b.staged, done);
  }

  lemma StagingFits(p: Plan, pos: map<string, nat>, staged: map<string, nat>, done: nat)
    requires done < |p.chunks| && Behind(p, staged, done) && CaughtUp(p, pos, staged, done)
    ensures Behind(p, Staged(staged, p.chunks[done]), done + 1)
    ensures CaughtUp(p, pos, Staged(staged, p.chunks[done]), done + 1)
  {
  }

  lemma NextHash(p: Plan, done: nat, hashes: seq<Hash>, k: nat)
    requires done < |p.chunks| && hashes == Hashes(p.chunks[done].events, p.source) && k < |hashes|
    ensures Heard(p, done) + hashes[..k] + [hashes[k]] == Heard(p, done) + hashes[..k + 1]
    ensures Heard(p, done) + hashes[..k + 1] <= Heard(p, |p.chunks|)
  {
    HeardGrows(p, done + 1, |p.chunks|);
    assert Heard(p, done + 1) == Heard(p, done) + hashes;
    hide *;
    OneMoreOf(Heard(p, done), hashes, k);
  }

  lemma OneMoreOf<T>(s: seq<T>, t: seq<T>, k: nat)
    requires k < |t|
    ensures t[..k + 1] == t[..k] + [t[k]]
    ensures s + t[..k] + [t[k]] == s + t[..k + 1] <= s + t
  {
    assert t == t[..k + 1] + t[k + 1..];
  }

  lemma LastHash(p: Plan, done: nat, hashes: seq<Hash>)
    requires done < |p.chunks| && hashes == Hashes(p.chunks[done].events, p.source)
    ensures Heard(p, done) + hashes[..|hashes|] == Heard(p, done + 1)
  {
  }

  lemma NothingHeard(p: Plan)
    ensures Heard(p, 0) == [] && Told(p, 0) == Notes(0, 0, 0, 0) && Chunks([]) == []
  {
  }

  /** The chunks a schedule delivers, in order. */
  function Chunks(turns: seq<Turn>): seq<Chunk> {
    if turns == [] then []
    else
      var last := turns[|turns| - 1];
      Chunks(turns[..|turns| - 1]) + if last.arrival.Delivered? then [last.arrival.chunk] else []
  }

  lemma {:induction false} ChunksGrow(turns: seq<Turn>, i: nat)
    requires i <= |turns|
    ensures Chunks(turns[..i]) <= Chunks(turns)
    decreases |turns|
  {
    if i < |turns| {
      var n := |turns| - 1;
      assert turns[..n][..i] == turns[..i];
      ChunksGrow(turns[..n], i);
    } else {
      assert turns[..i] == turns;
    }
  }

  lemma ChunksNext(turns: seq<Turn>, i: nat)
    requires i < |turns|
    ensures Chunks(turns[..i + 1]) ==
            Chunks(turns[..i]) + if turns[i].arrival.Delivered? then [turns[i].arrival.chunk] else []
    ensures Chunks(turns[..i + 1]) <= Chunks(turns)
  {
    assert turns[..i + 1][..i] == turns[..i];
    ChunksGrow(turns, i + 1);
  }

  lemma NextChunk(chunks: seq<Chunk>, done: nat, more: seq<Chunk>)
    requires done <= |chunks| && more <= chunks
    ensures forall c :: more == chunks[..done] + [c] ==> done < |chunks| && chunks[done] == c && more == chunks[..done + 1]
  {
  }

  // ---- What a run promises ------------------------------------------------------------------------------

  /** The books of a run that ended without failing: each occurrence delivered is on record once, and every record
      read was either persisted or counted as a duplicate. */
  lemma NothingIsLost(p: Plan, deduplicate: bool, trace: seq<Durable>, b: Buffers, pos: map<string, nat>,
                      done: nat)
    requires done <= |p.chunks| && Books(p, deduplicate, trace, b, pos, done, Heard(p, done))
    requires b.pending == [] && b.inc == map[]
    ensures var nodes := trace[|trace| - 1].nodes;
            && (forall w :: Total(nodes, w) == Total(p.start.nodes, w) + Occurrences(Heard(p, done), w))
            && Total(nodes, Everyone) == Total(p.start.nodes, Everyone) + b.progress.read
            && b.progress.read == b.progress.persisted + b.progress.duplicate
            && (deduplicate && Sound(p.start.nodes, p.start.index) ==> Sound(nodes, trace[|trace| - 1].index))
  {
    var nodes := trace[|trace| - 1].nodes;
    hide Pointed, Buffered, Behind, CaughtUp, Listed, Learned, AllGrown, AllSafe, Safe, OnPlan, Heard;
    forall w ensures Total(nodes, w) == Total(p.start.nodes, w) + Occurrences(Heard(p, done), w) {
      NothingOwed(nodes, w);
      assert Total([], w) == 0;
    }
    if deduplicate && Sound(p.start.nodes, p.start.index) {
      StaysSound(p.start, nodes, trace[|trace| - 1].index, Heard(p, done));
    }
  }

  /** At a pause, or once a run is over, the positions in memory are exactly as far as what was taken, so a resumed
      reader reads nothing twice. */
  lemma NothingIsReadTwice(p: Plan, deduplicate: bool, trace: seq<Durable>, b: Buffers,
                           pos: map<string, nat>, done: nat, seen: seq<Hash>, channel: string)
    requires Books(p, deduplicate, trace, b, pos, done, seen) && b.staged == map[] && channel != ""
    ensures Reach(p, done, channel) <= Mark(pos, channel)
    ensures Mark(pos, channel) <= Mark(p.start.marks, channel) || Mark(pos, channel) == Reach(p, done, channel)
  {
  }

  /** Each channel is read in order: every record of a chunk is numbered above the bookmark it was read from and
      above what earlier chunks of the channel carried. */
  ghost predicate Ordered(p: Plan) {
    forall j, e :: 0 <= j < |p.chunks| && p.chunks[j].channel != "" && e in p.chunks[j].events ==>
      Mark(p.start.marks, p.chunks[j].channel) < e.recordId && Reach(p, j, p.chunks[j].channel) < e.recordId
  }

  /** Event e of chunk j would be read again from these bookmarks: its channel's is below it, or it has none. */
  ghost predicate ReadAgain(p: Plan, marks: map<string, nat>, j: nat, e: Event)
    requires j < |p.chunks|
  {
    p.chunks[j].channel == "" || Mark(marks, p.chunks[j].channel) < e.recordId
  }

  /** Wherever a run crashes, some first m chunks are counted on disk and the bookmarks skip nothing after them. */
  lemma CrashSkipsNothing(p: Plan, d: Durable) returns (m: nat)
    requires Safe(p, d) && Ordered(p)
    ensures m <= |p.chunks| && Covers(p, d.nodes, m)
    ensures forall j, e :: m <= j < |p.chunks| && e in p.chunks[j].events ==> ReadAgain(p, d.marks, j, e)
  {
    m :| 0 <= m <= |p.chunks| && Behind(p, d.marks, m) && Covers(p, d.nodes, m);
    hide Safe, Covers;
    forall j, e | m <= j < |p.chunks| && e in p.chunks[j].events ensures ReadAgain(p, d.marks, j, e) {
      ReachGrows(p, m, j, p.chunks[j].channel);
    }
  }

  /** The identities among the first k events of chunk j that would be read again, in order. */
  ghost function ReadOf(p: Plan, marks: map<string, nat>, j: nat, k: nat): seq<Hash>
    requires j < |p.chunks| && k <= |p.chunks[j].events|
  {
    if k == 0 then []
    else
      var e := p.chunks[j].events[k - 1];
      ReadOf(p, marks, j, k - 1) + if ReadAgain(p, marks, j, e) then [HashOf(e.record, p.source)] else []
  }

  /** Those among the first n chunks. */
  ghost function ToRead(p: Plan, marks: map<string, nat>, n: nat): seq<Hash>
    requires n <= |p.chunks|
  {
    if n == 0 then [] else ToRead(p, marks, n - 1) + ReadOf(p, marks, n - 1, |p.chunks[n - 1].events|)
  }

  lemma {:induction false} AllOfIt(p: Plan, marks: map<string, nat>, j: nat, k: nat)
    requires j < |p.chunks| && k <= |p.chunks[j].events|
    requires forall e :: e in p.chunks[j].events ==> ReadAgain(p, marks, j, e)
    ensures ReadOf(p, marks, j, k) == Hashes(p.chunks[j].events, p.source)[..k]
  {
    hide Hashes, ReadAgain, ReadOf;
    if k > 0 {
      AllOfIt(p, marks, j, k - 1);
      NextIsRead(p, marks, j, k - 1);
      OneMoreOf([], Hashes(p.chunks[j].events, p.source), k - 1);
    } else {
      NoneIsRead(p, marks, j);
    }
  }

  lemma NoneIsRead(p: Plan, marks: map<string, nat>, j: nat)
    requires j < |p.chunks|
    ensures ReadOf(p, marks, j, 0) == []
  {
  }

  lemma NextIsRead(p: Plan, marks: map<string, nat>, j: nat, k: nat)
    requires j < |p.chunks| && k < |p.chunks[j].events|
    requires forall e :: e in p.chunks[j].events ==> ReadAgain(p, marks, j, e)
    ensures ReadOf(p, marks, j, k + 1) == ReadOf(p, marks, j, k) + [Hashes(p.chunks[j].events, p.source)[k]]
  {
    hide ReadAgain, HashOf;
    assert p.chunks[j].events[k] in p.chunks[j].events;
  }

  /** If everything from chunk m on is read again, then what the chunks up to m do not account for is. */
  lemma {:induction false} RestIsRead(p: Plan, marks: map<string, nat>, m: nat, n: nat, w: Whose)
    requires m <= n <= |p.chunks|
    requires forall j, e :: m <= j < |p.chunks| && e in p.chunks[j].events ==> ReadAgain(p, marks, j, e)
    ensures Occurrences(Heard(p, n), w) <= Occurrences(Heard(p, m), w) + Occurrences(ToRead(p, marks, n), w)
  {
    hide ReadAgain, Hashes, Occurrences, ReadOf;
    if m < n {
      RestIsRead(p, marks, m, n - 1, w);
      RestOfChunk(p, marks, n - 1, w);
    }
  }

  lemma RestOfChunk(p: Plan, marks: map<string, nat>, j: nat, w: Whose)
    requires j < |p.chunks| && forall e :: e in p.chunks[j].events ==> ReadAgain(p, marks, j, e)
    ensures Occurrences(Heard(p, j + 1), w) - Occurrences(Heard(p, j), w) ==
            Occurrences(ToRead(p, marks, j + 1), w) - Occurrences(ToRead(p, marks, j), w)
  {
    WholeChunk(p, marks, j);
    var hashes := Hashes(p.chunks[j].events, p.source);
    hide *;
    OccurInBoth(Heard(p, j), hashes, w);
    OccurInBoth(ToRead(p, marks, j), hashes, w);
  }

  lemma WholeChunk(p: Plan, marks: map<string, nat>, j: nat)
    requires j < |p.chunks| && forall e :: e in p.chunks[j].events ==> ReadAgain(p, marks, j, e)
    ensures var hashes := Hashes(p.chunks[j].events, p.source);
            && Heard(p, j + 1) == Heard(p, j) + hashes
            && ToRead(p, marks, j + 1) == ToRead(p, marks, j) + hashes
  {
    hide ReadAgain, Hashes, ReadOf;
    AllOfIt(p, marks, j, |p.chunks[j].events|);
    var hashes := Hashes(p.chunks[j].events, p.source);
    assert hashes[..|hashes|] == hashes;
  }

  /** A second run of the same reader, started from what a crash left: it delivers every occurrence its bookmarks do
      not skip, and no identity the first was not to deliver. */
  ghost predicate Resumes(q: Plan, p: Plan) {
    && q.source == p.source
    && (forall w :: Occurrences(ToRead(p, q.start.marks, |p.chunks|), w) <= Occurrences(Heard(q, |q.chunks|), w))
    && (forall h :: h in Heard(q, |q.chunks|) ==> h in Heard(p, |p.chunks|))
  }

  ghost predicate Recorded(p: Plan, nodes: seq<Node>) {
    forall w :: Total(nodes, w) == Total(p.start.nodes, w) + Occurrences(Heard(p, |p.chunks|), w)
  }

  lemma RecordedIdentities(p: Plan, nodes: seq<Node>, h: Hash)
    requires Recorded(p, nodes)
    ensures OnRecord(nodes, h) <==> OnRecord(p.start.nodes, h) || h in Heard(p, |p.chunks|)
  {
    TotalIsPositive(nodes, Only(h));
    TotalIsPositive(p.start.nodes, Only(h));
  }

  /** Stopped anywhere and resumed, a run ends with exactly the identities it would have ended with uninterrupted,
      each counted at least as often. */
  lemma ResumingMakesNoDifference(p: Plan, q: Plan, nodes: seq<Node>, resumed: seq<Node>, h: Hash)
    requires Ordered(p) && Safe(p, q.start) && Resumes(q, p)
    requires Recorded(p, nodes) && Recorded(q, resumed)
    ensures OnRecord(resumed, h) <==> OnRecord(nodes, h)
    ensures Total(nodes, Only(h)) <= Total(resumed, Only(h))
  {
    var w := Only(h);
    var m := CrashSkipsNothing(p, q.start);
    RestIsRead(p, q.start.marks, m, |p.chunks|, w);
    assert Total(nodes, w) <= Total(resumed, w) by {
      hide Ordered, Safe, ReadAgain;
      assert Total(p.start.nodes, w) + Occurrences(Heard(p, m), w) <= Total(q.start.nodes, w);
    }
    assert Total(q.start.nodes, w) <= Total(p.start.nodes, w) + Occurrences(Heard(p, |p.chunks|), w);
    hide Ordered, Safe, ReadAgain, Covers, Heard, ToRead;
    RecordedIdentities(p, nodes, h);
    RecordedIdentities(q, resumed, h);
    TotalIsPositive(q.start.nodes, w);
    TotalIsPositive(p.start.nodes, w);
    TotalIsPositive(nodes, w);
    TotalIsPositive(resumed, w);
  }

  ghost function Identities(nodes: seq<Node>): set<Hash> {
    set i | 0 <= i < |nodes| :: nodes[i].hash
  }

  lemma {:induction false} UniqueSize(nodes: seq<Node>)
    requires Unique(nodes)
    ensures |Identities(nodes)| == |nodes|
  {
    if nodes != [] {
      var n := |nodes| - 1;
      UniqueSize(nodes[..n]);
      assert Identities(nodes) == Identities(nodes[..n]) + {nodes[n].hash};
      assert nodes[n].hash !in Identities(nodes[..n]);
    }
  }

  /** Reading again what is on record adds no event. */
  lemma ReadingAgainAddsNothing(p: Plan, nodes: seq<Node>)
    requires Recorded(p, nodes) && Unique(nodes) && Unique(p.start.nodes)
    requires forall h :: h in Heard(p, |p.chunks|) ==> OnRecord(p.start.nodes, h)
    ensures |nodes| == |p.start.nodes| && Identities(nodes) == Identities(p.start.nodes)
  {
    forall h ensures h in Identities(nodes) <==> h in Identities(p.start.nodes) {
      RecordedIdentities(p, nodes, h);
    }
    assert Identities(nodes) == Identities(p.start.nodes);
    UniqueSize(nodes);
    UniqueSize(p.start.nodes);
  }

  /** Unless the index knows every stored identity it hears, a deduplicating run that ends without failing has stored
      some of them twice; and if it does, no state it can be stopped in has. */
  lemma StoredOnceIffKnown(p: Plan, trace: seq<Durable>, b: Buffers, pos: map<string, nat>, done: nat)
    requires done <= |p.chunks| && Books(p, true, trace, b, pos, done, Heard(p, done)) && b.pending == []
    requires Unique(p.start.nodes)
    ensures Unique(trace[|trace| - 1].nodes) <==> Known(p.start, Heard(p, done))
    ensures Known(p.start, Heard(p, |p.chunks|)) ==> AllUnique(trace)
  {
    var d := trace[|trace| - 1];
    assert Listed(p.start, d.nodes, [], Heard(p, done)) && AllGrown(p, trace);
    hide Books, Heard, Unique, Known, Listed;
    UniqueIffKnown(p.start, d.nodes, Heard(p, done));
    if Known(p.start, Heard(p, |p.chunks|)) {
      KnownStaysUnique(p, trace);
    }
  }

  /** A crash while the batch of a sound record is registered leaves exactly the events behind it unregistered: the
      next deduplicating run keeps identities unique if and only if it hears none of them again. */
  lemma StoppedWhileRegistering(p: Plan, trace: seq<Durable>, b: Buffers, pos: map<string, nat>, done: nat, seen: seq<Hash>,
                                after: seq<Durable>, i: nat, heard: seq<Hash>)
    requires Books(p, true, trace, b, pos, done, seen) && Sound(p.start.nodes, p.start.index)
    requires OnlyIndexing(after, |trace|, trace[|trace| - 1], b.pending) && |trace| <= i < |after|
    ensures i - |trace| <= |b.pending| && Unique(after[i].nodes)
    ensures Known(after[i], heard) <==> forall h :: h in Ids(b.pending[i - |trace|..]) ==> h !in heard
  {
    hide *;
    BatchIsNew(p, trace, b, pos, done, seen);
    var d := trace[|trace| - 1];
    RegisteringIsPartial(after, |trace|, d, b.pending, i);
    CrashWhileRegistering(d, b.pending, i - |trace|, heard);
  }

  lemma RegisteringIsPartial(after: seq<Durable>, n: nat, d: Durable, batch: seq<Node>, i: nat)
    requires OnlyIndexing(after, n, d, batch) && n <= i < |after|
    ensures i - n <= |batch| && after[i] == Partly(d, batch, i - n)
  {
  }

  /** A run that begins with a sound record leaves a sound one wherever registering is not cut short, so whatever the
      next deduplicating run delivers, and wherever that one is stopped, no identity is stored twice. */
  lemma NextRunKeepsUnique(p: Plan, trace: seq<Durable>, b: Buffers, pos: map<string, nat>, done: nat, seen: seq<Hash>,
                           q: Plan, next: seq<Durable>)
    requires Books(p, true, trace, b, pos, done, seen) && Sound(p.start.nodes, p.start.index)
    requires q.start == trace[|trace| - 1] && AllGrown(q, next)
    ensures Sound(q.start.nodes, q.start.index) && AllUnique(next)
  {
    BatchIsNew(p, trace, b, pos, done, seen);
    hide *;
    SoundIsKnown(q.start, Heard(q, |q.chunks|));
    KnownStaysUnique(q, next);
  }

  lemma BatchIsNew(p: Plan, trace: seq<Durable>, b: Buffers, pos: map<string, nat>, done: nat, seen: seq<Hash>)
    requires Books(p, true, trace, b, pos, done, seen) && Sound(p.start.nodes, p.start.index)
    ensures trace != [] && var d := trace[|trace| - 1]; Sound(d.nodes, d.index)
    ensures Unique(b.pending) && forall h :: h in Ids(b.pending) ==> h !in trace[|trace| - 1].index
  {
    var d := trace[|trace| - 1];
    assert Grown(p.start, d, Heard(p, |p.chunks|));
    assert Learned(p.start, d.nodes, d.index);
    hide Heard, Listed, Sound;
    var some :| some <= Heard(p, |p.chunks|) && Listed(p.start, d.nodes, [], some);
    StaysSound(p.start, d.nodes, d.index, some);
    forall h | h in Ids(b.pending) ensures h !in d.index {
      var i :| 0 <= i < |b.pending| && Ids(b.pending)[i] == h;
      assert b.pending[i].hash in b.byHash;
    }
  }

  /** So with such an index no crash, wherever it strikes, leaves an identity stored twice. */
  lemma KnownStaysUnique(p: Plan, trace: seq<Durable>)
    requires AllGrown(p, trace) && Unique(p.start.nodes) && Known(p.start, Heard(p, |p.chunks|))
    ensures AllUnique(trace)
  {
    hide Heard, Listed, Unique;
    forall d | d in trace ensures Unique(d.nodes) {
      assert Grown(p.start, d, Heard(p, |p.chunks|));
      var seen :| seen <= Heard(p, |p.chunks|) && Listed(p.start, d.nodes, [], seen);
      KnownPrefix(p.start, seen, Heard(p, |p.chunks|));
      UniqueIffKnown(p.start, d.nodes, seen);
    }
  }
}
