/** Process ancestry: a PID names a process only while that process lives. */
module Lifetimes {
  import opened Correlation

  // A parent is looked up in a table of lifetimes rather than by number.

  const LINEAGE_EXIT_ID := "4689"
  const LINEAGE_MAX_DEPTH: nat := 16
  const LINEAGE_TRANSITIVE := 0.9

  const SLOT_PROCESS_ID: nat := 2
  const SLOT_NEW_PROCESS_ID: nat := 3
  const SLOT_PARENT_PROCESS_ID: nat := 4

  datatype Option<T> = None | Some(value: T)

  /** One lifetime of one PID; an end of ZERO_TIME means it is still open. */
  datatype Interval = Interval(start: int, end: int, event: Event)

  type Table = map<string, seq<Interval>>

  /** The PID of the process a creation or exit event is about. */
  function ChildPID(e: Event): string {
    var pid := e.CorrelationKey(SLOT_NEW_PROCESS_ID);
    if pid != "" then pid else e.CorrelationKey(SLOT_PROCESS_ID)
  }

  /** The PID of the process that created it, or "" when the event names none. */
  function ParentPID(e: Event): string {
    var pid := e.CorrelationKey(SLOT_PARENT_PROCESS_ID);
    if pid != "" then pid
    else if e.CorrelationKey(SLOT_NEW_PROCESS_ID) != "" then e.CorrelationKey(SLOT_PROCESS_ID)
    else ""
  }

  function ExitPID(e: Event): string {
    var pid := ChildPID(e);
    if pid != "" then pid else e.CorrelationKey(SLOT_PROCESS_ID)
  }

  // ---- The lifetime table --------------------------------------------------------------------

  function Lifetimes(t: Table, pid: string): seq<Interval> {
    if pid in t then t[pid] else []
  }

  /** Closes the last lifetime of a PID if it is open. */
  function Close(ivs: seq<Interval>, at: int): seq<Interval> {
    if ivs != [] && ivs[|ivs| - 1].end == ZERO_TIME then ivs[|ivs| - 1 := ivs[|ivs| - 1].(end := at)] else ivs
  }

  predicate Creates(e: Event, createIDs: set<string>, pid: string) {
    e.eventID in createIDs && pid != "" && ChildPID(e) == pid
  }

  predicate Exits(e: Event, createIDs: set<string>, pid: string) {
    e.eventID !in createIDs && e.eventID == LINEAGE_EXIT_ID && ExitPID(e) == pid
  }

  /** The lifetimes of one PID over a log. */
  ghost function History(log: seq<Event>, createIDs: set<string>, pid: string): seq<Interval> {
    if log == [] then []
    else
      var ivs, e := History(log[..|log| - 1], createIDs, pid), log[|log| - 1];
      if Creates(e, createIDs, pid) then Close(ivs, e.timestamp) + [Interval(e.timestamp, ZERO_TIME, e)]
      else if Exits(e, createIDs, pid) then Close(ivs, e.timestamp)
      else ivs
  }

  ghost function Creations(log: seq<Event>, createIDs: set<string>): seq<Event> {
    if log == [] then []
    else
      Creations(log[..|log| - 1], createIDs) +
      if log[|log| - 1].eventID in createIDs then [log[|log| - 1]] else []
  }

  /** The table with the open lifetime of one PID, if it has one, closed. */
  function CloseIn(t: Table, pid: string, at: int): (u: Table)
    ensures forall p :: Lifetimes(u, p) == if p == pid then Close(Lifetimes(t, p), at) else Lifetimes(t, p)
  {
    var prior := Lifetimes(t, pid);
    if |prior| > 0 && prior[|prior| - 1].end == ZERO_TIME then t[pid := Close(prior, at)] else t
  }

  ghost predicate Tabulates(t: Table, log: seq<Event>, createIDs: set<string>) {
    forall pid :: Lifetimes(t, pid) == History(log, createIDs, pid)
  }

  /** The table after one more event. */
  ghost function Note(t: Table, e: Event, createIDs: set<string>): Table {
    if e.eventID in createIDs then
      if ChildPID(e) == "" then t
      else
        var u := CloseIn(t, ChildPID(e), e.timestamp);
        u[ChildPID(e) := Lifetimes(u, ChildPID(e)) + [Interval(e.timestamp, ZERO_TIME, e)]]
    else if e.eventID == LINEAGE_EXIT_ID then CloseIn(t, ExitPID(e), e.timestamp)
    else t
  }

  lemma NoteTabulates(t: Table, log: seq<Event>, e: Event, createIDs: set<string>)
    requires Tabulates(t, log, createIDs)
    ensures Tabulates(Note(t, e, createIDs), log + [e], createIDs)
  {
  }

  lemma CreationsNext(log: seq<Event>, e: Event, createIDs: set<string>)
    ensures Creations(log + [e], createIDs) == if e.eventID in createIDs then Creations(log, createIDs) + [e] else Creations(log, createIDs)
  {
  }

  /** One pass over a chronological log: per PID its lifetimes, and the creation events in order. */
  method BuildLifetimes(events: seq<Event>, createIDs: set<string>) returns (lifetimes: Table, creations: seq<Event>)
    ensures Tabulates(lifetimes, events, createIDs) && creations == Creations(events, createIDs)
  {
    lifetimes, creations := map[], [];
    for i := 0 to |events|
      invariant Tabulates(lifetimes, events[..i], createIDs) && creations == Creations(events[..i], createIDs)
    {
      hide Tabulates, CloseIn, Creations;
      var e := events[i];
      NoteTabulates(lifetimes, events[..i], e, createIDs);
      CreationsNext(events[..i], e, createIDs);
      assert events[..i + 1] == events[..i] + [e];
      if e.eventID in createIDs {
        creations := creations + [e];
        var pid := ChildPID(e);
        if pid == "" {
          continue;
        }
        lifetimes := CloseIn(lifetimes, pid, e.timestamp);
        lifetimes := lifetimes[pid := Lifetimes(lifetimes, pid) + [Interval(e.timestamp, ZERO_TIME, e)]];
      } else if e.eventID == LINEAGE_EXIT_ID {
        var pid := ChildPID(e);
        if pid == "" {
          pid := e.CorrelationKey(SLOT_PROCESS_ID);
        }
        lifetimes := CloseIn(lifetimes, pid, e.timestamp);
      }
    }
    assert events[..|events|] == events;
  }

  /** The lifetimes of one PID follow each other without overlap; only the last can be open. */
  ghost predicate Disjoint(ivs: seq<Interval>, now: int) {
    && (forall i :: 0 <= i < |ivs| ==>
          ivs[i].start <= now && (ivs[i].end != ZERO_TIME ==> ivs[i].start <= ivs[i].end <= now))
    && (forall i, j :: 0 <= i < j < |ivs| ==> ivs[i].end != ZERO_TIME && ivs[i].end <= ivs[j].start)
  }

  lemma CloseKeepsDisjoint(ivs: seq<Interval>, past: int, now: int)
    requires Disjoint(ivs, past) && past <= now && now != ZERO_TIME
    ensures Disjoint(Close(ivs, now), now)
    ensures forall i :: 0 <= i < |ivs| ==> Close(ivs, now)[i].end != ZERO_TIME
  {
  }

  lemma {:induction false} HistoryIsDisjoint(log: seq<Event>, createIDs: set<string>, pid: string, now: int)
    requires Chronological(log) && Dated(log) && (log != [] ==> log[|log| - 1].timestamp <= now)
    ensures Disjoint(History(log, createIDs, pid), now)
  {
    hide Creates, Exits;
    if log != [] {
      var front, at := log[..|log| - 1], log[|log| - 1].timestamp;
      HistoryIsDisjoint(front, createIDs, pid, at);
      CloseKeepsDisjoint(History(front, createIDs, pid), at, at);
    }
  }

  // ---- Looking a parent up -------------------------------------------------------------------

  /** Binary search: the first lifetime in [lo, hi) that starts after t. */
  function FirstAfter(ivs: seq<Interval>, t: int, lo: nat, hi: nat): (i: nat)
    requires lo <= hi <= |ivs|
    ensures lo <= i <= hi
    decreases hi - lo
  {
    if lo == hi then lo
    else
      var mid := (lo + hi) / 2;
      if ivs[mid].start > t then FirstAfter(ivs, t, lo, mid) else FirstAfter(ivs, t, mid + 1, hi)
  }

  function ResolveParent(ivs: seq<Interval>, t: int): Option<Event> {
    var i := FirstAfter(ivs, t, 0, |ivs|);
    if i == 0 then None
    else
      var iv := ivs[i - 1];
      if iv.end != ZERO_TIME && t >= iv.end then None else Some(iv.event)
  }

  lemma {:induction false} FirstAfterSplits(ivs: seq<Interval>, t: int, lo: nat, hi: nat)
    requires lo <= hi <= |ivs| && forall i, j :: 0 <= i <= j < |ivs| ==> ivs[i].start <= ivs[j].start
    ensures forall j :: lo <= j < FirstAfter(ivs, t, lo, hi) ==> ivs[j].start <= t
    ensures forall j :: FirstAfter(ivs, t, lo, hi) <= j < hi ==> ivs[j].start > t
    decreases hi - lo
  {
    if lo < hi {
      var mid := (lo + hi) / 2;
      if ivs[mid].start > t {
        FirstAfterSplits(ivs, t, lo, mid);
      } else {
        FirstAfterSplits(ivs, t, mid + 1, hi);
      }
    }
  }

  /** Who owned a PID at time t, read straight off the log: the latest event about the PID at or before t
      decides. */
  ghost function Replay(log: seq<Event>, createIDs: set<string>, pid: string, t: int): Option<Event> {
    if log == [] then None
    else
      var front, e := log[..|log| - 1], log[|log| - 1];
      if e.timestamp > t then Replay(front, createIDs, pid, t)
      else if Creates(e, createIDs, pid) then Some(e)
      else if Exits(e, createIDs, pid) then None
      else Replay(front, createIDs, pid, t)
  }

  /** The lookup against a list whose last lifetime is known: it answers for times from its start on, and
      earlier times do not see whether it has been closed. */
  lemma ResolveLast(ivs: seq<Interval>, now: int, t: int)
    requires Disjoint(ivs, now) && ivs != []
    ensures var last := ivs[|ivs| - 1];
            && (t >= last.start ==>
                  ResolveParent(ivs, t) == if last.end != ZERO_TIME && t >= last.end then None else Some(last.event))
            && (t < last.start ==> ResolveParent(ivs, t) == ResolveParent(ivs[..|ivs| - 1], t))
  {
    assert forall i, j :: 0 <= i <= j < |ivs| ==> ivs[i].start <= ivs[j].start;
    FirstAfterSplits(ivs, t, 0, |ivs|);
    FirstAfterSplits(ivs[..|ivs| - 1], t, 0, |ivs| - 1);
    if t < ivs[|ivs| - 1].start {
      var i, j := FirstAfter(ivs, t, 0, |ivs|), FirstAfter(ivs[..|ivs| - 1], t, 0, |ivs| - 1);
      assert forall k :: 0 <= k < |ivs| - 1 ==> ivs[..|ivs| - 1][k] == ivs[k];
      assert i < |ivs| && i <= j && ivs[i].start > t;
      assert j <= i;
    }
  }

  lemma CloseIsInvisibleBefore(ivs: seq<Interval>, now: int, at: int, t: int)
    requires Disjoint(ivs, now) && now <= at && at != ZERO_TIME && t < at
    ensures Disjoint(Close(ivs, at), at) && ResolveParent(Close(ivs, at), t) == ResolveParent(ivs, t)
  {
    if ivs != [] {
      var closed := Close(ivs, at);
      assert closed[..|ivs| - 1] == ivs[..|ivs| - 1];
      ResolveLast(ivs, now, t);
      ResolveLast(closed, at, t);
    }
  }

  /** The lifetime table answers every question exactly as replaying the log would. */
  lemma {:induction false} TableRefinesReplay(log: seq<Event>, createIDs: set<string>, pid: string, t: int)
    requires Chronological(log) && Dated(log)
    ensures ResolveParent(History(log, createIDs, pid), t) == Replay(log, createIDs, pid, t)
  {
    hide FirstAfter, Creates, Exits;
    if log != [] {
      var front, e := log[..|log| - 1], log[|log| - 1];
      var ivs := History(front, createIDs, pid);
      TableRefinesReplay(front, createIDs, pid, t);
      HistoryIsDisjoint(front, createIDs, pid, e.timestamp);
      HistoryIsDisjoint(log, createIDs, pid, e.timestamp);
      if t < e.timestamp {
        CloseIsInvisibleBefore(ivs, e.timestamp, e.timestamp, t);
        if Creates(e, createIDs, pid) {
          var longer := Close(ivs, e.timestamp) + [Interval(e.timestamp, ZERO_TIME, e)];
          ResolveLast(longer, e.timestamp, t);
          assert longer[..|longer| - 1] == Close(ivs, e.timestamp);
        }
      } else {
        if Creates(e, createIDs, pid) {
          ResolveLast(Close(ivs, e.timestamp) + [Interval(e.timestamp, ZERO_TIME, e)], e.timestamp, t);
        } else if Exits(e, createIDs, pid) && ivs != [] {
          ResolveLast(Close(ivs, e.timestamp), e.timestamp, t);
        }
      }
    }
  }

  // ---- Linking children to parents -------------------------------------------------------------

  /** The process that was alive under the PID an event names as its creator. */
  ghost function ParentOf(log: seq<Event>, createIDs: set<string>, e: Event): Option<Event> {
    if ParentPID(e) == "" then None else Replay(log, createIDs, ParentPID(e), e.timestamp)
  }

  function DirectEdge(spec: Spec, parent: Event, child: Event): Relation {
    Relation(parent.id, child.id, spec.relationType, spec.LabelFor(0), EXACT_MATCH, MatchID(parent.id, child.id, 2), 0)
  }

  function DerivedEdge(spec: Spec, ancestor: Event, child: Event, depth: nat): Relation {
    Relation(ancestor.id, child.id, spec.relationType, "", LINEAGE_TRANSITIVE, MatchID(ancestor.id, child.id, 2), depth)
  }

  /** The derived links to the ancestors of `current`, nearest first, from `depth` up to the rule's limit. */
  ghost function AncestorEdges(spec: Spec, limit: int, log: seq<Event>, createIDs: set<string>,
                               current: Event, child: Event, depth: nat): seq<Relation>
    decreases LINEAGE_MAX_DEPTH + 1 - depth
  {
    if depth > limit || depth > LINEAGE_MAX_DEPTH then []
    else
      match ParentOf(log, createIDs, current)
      case None => []
      case Some(a) =>
        [DerivedEdge(spec, a, child, depth)] + AncestorEdges(spec, limit, log, createIDs, a, child, depth + 1)
  }

  /** What a generation run has recorded: its tally, and the children whose parent was not alive. */
  datatype Ledger = Ledger(tally: Tally, unresolved: nat)

  /** What one creation event adds. */
  ghost function Settle(spec: Spec, limit: int, log: seq<Event>, createIDs: set<string>, l: Ledger, child: Event, cap: nat): Ledger {
    if ParentPID(child) == "" then l
    else
      match ParentOf(log, createIDs, child)
      case None => l.(unresolved := l.unresolved + 1)
      case Some(parent) =>
        if l.tally.matches >= cap then l.(tally := l.tally.(truncated := true, dropped := l.tally.dropped + 1))
        else
          l.(tally := l.tally.(matches := l.tally.matches + 1,
                               relations := l.tally.relations + [DirectEdge(spec, parent, child)] +
                                            AncestorEdges(spec, limit, log, createIDs, parent, child, 1)))
  }

  ghost function SettleAll(spec: Spec, limit: int, log: seq<Event>, createIDs: set<string>, l: Ledger,
                           children: seq<Event>, cap: nat): Ledger {
    if children == [] then l
    else
      Settle(spec, limit, log, createIDs,
             SettleAll(spec, limit, log, createIDs, l, children[..|children| - 1], cap), children[|children| - 1], cap)
  }

  /** What the table says about a PID at a time. */
  lemma TableAnswers(t: Table, log: seq<Event>, createIDs: set<string>, pid: string, at: int)
    requires Chronological(log) && Dated(log) && Tabulates(t, log, createIDs)
    ensures ResolveParent(Lifetimes(t, pid), at) == Replay(log, createIDs, pid, at)
  {
    TableRefinesReplay(log, createIDs, pid, at);
    assert Lifetimes(t, pid) == History(log, createIDs, pid);
  }

  ghost function LedgerOf(res: Result): Ledger
    reads res
  {
    Ledger(res.GetTally(), res.unresolvedParents)
  }

  lemma AncestorStep(spec: Spec, limit: int, log: seq<Event>, createIDs: set<string>, current: Event, child: Event, depth: nat,
                     sofar: seq<Relation>)
    requires depth <= limit && depth <= LINEAGE_MAX_DEPTH
    ensures var rest, a := AncestorEdges(spec, limit, log, createIDs, current, child, depth), ParentOf(log, createIDs, current);
            && (a.None? ==> rest == [] && sofar + rest == sofar)
            && (a.Some? ==> sofar + rest == sofar + [DerivedEdge(spec, a.value, child, depth)] +
                                           AncestorEdges(spec, limit, log, createIDs, a.value, child, depth + 1))
  {
  }

  lemma AncestorEnd(spec: Spec, limit: int, log: seq<Event>, createIDs: set<string>, current: Event, child: Event, depth: nat,
                    sofar: seq<Relation>)
    requires depth > limit || depth > LINEAGE_MAX_DEPTH
    ensures sofar + AncestorEdges(spec, limit, log, createIDs, current, child, depth) == sofar
  {
  }

  /** Walks up from a resolved parent, emitting derived links to further ancestors. */
  method EmitAncestors(spec: Spec, limit: int, lifetimes: Table, parent: Event, child: Event, res: Result,
                       ghost log: seq<Event>, ghost createIDs: set<string>)
    requires Chronological(log) && Dated(log) && Tabulates(lifetimes, log, createIDs)
    modifies res`relations
    ensures res.relations == old(res.relations) + AncestorEdges(spec, limit, log, createIDs, parent, child, 1)
  {
    hide Replay, Tabulates, Chronological, Dated, ResolveParent, AncestorEdges, DerivedEdge;
    var current, depth := parent, 1;
    while depth <= limit && depth <= LINEAGE_MAX_DEPTH
      invariant 1 <= depth <= LINEAGE_MAX_DEPTH + 1
      invariant res.relations + AncestorEdges(spec, limit, log, createIDs, current, child, depth) ==
                old(res.relations) + AncestorEdges(spec, limit, log, createIDs, parent, child, 1)
    {
      AncestorStep(spec, limit, log, createIDs, current, child, depth, res.relations);
      var pid := ParentPID(current);
      if pid == "" {
        return;
      }
      TableAnswers(lifetimes, log, createIDs, pid, current.timestamp);
      var ancestor := ResolveParent(Lifetimes(lifetimes, pid), current.timestamp);
      if ancestor.None? {
        return;
      }
      res.relations := res.relations + [DerivedEdge(spec, ancestor.value, child, depth)];
      current, depth := ancestor.value, depth + 1;
    }
    AncestorEnd(spec, limit, log, createIDs, current, child, depth, res.relations);
  }

  /** Builds one host's lifetime table and resolves every creation event's parent against it. */
  method LineageGroup(spec: Spec, limit: int, events: seq<Event>, createIDs: set<string>, cap: nat, res: Result)
    requires Chronological(events) && Dated(events)
    modifies res
    ensures LedgerOf(res) == SettleAll(spec, limit, events, createIDs, old(LedgerOf(res)), Creations(events, createIDs), cap)
    ensures old(res.relations) <= res.relations && forall i :: |old(res.relations)| <= i < |res.relations| ==>
              NamesOne(spec, events, createIDs, res.relations[i], Creations(events, createIDs))
    ensures res.skippedNoKeys == old(res.skippedNoKeys)
  {
    var lifetimes, creations := BuildLifetimes(events, createIDs);
    ghost var start := LedgerOf(res);
    for i := 0 to |creations|
      invariant LedgerOf(res) == SettleAll(spec, limit, events, createIDs, start, creations[..i], cap)
      invariant res.skippedNoKeys == old(res.skippedNoKeys)
    {
      assert creations[..i + 1][..i] == creations[..i];
      LinkChild(spec, limit, lifetimes, creations[i], cap, res, events, createIDs);
    }
    assert creations[..|creations|] == creations;
    SettleAllNames(spec, limit, events, createIDs, start, creations, cap);
  }

  method LinkChild(spec: Spec, limit: int, lifetimes: Table, child: Event, cap: nat, res: Result,
                   ghost log: seq<Event>, ghost createIDs: set<string>)
    requires Chronological(log) && Dated(log) && Tabulates(lifetimes, log, createIDs)
    modifies res
    ensures LedgerOf(res) == Settle(spec, limit, log, createIDs, old(LedgerOf(res)), child, cap)
    ensures old(res.relations) <= res.relations
    ensures var n := |old(res.relations)|;
            && (|res.relations| > n <==> res.matches == old(res.matches) + 1)
            && forall i :: n <= i < |res.relations| ==>
                 res.relations[i].stepIndex == i - n && NamesAncestor(spec, log, createIDs, res.relations[i], child)
    ensures res.skippedNoKeys == old(res.skippedNoKeys)
  {
    ghost var more := SettleAdds(spec, limit, log, createIDs, LedgerOf(res), child, cap);
    hide NamesAncestor;
    var parentPID := ParentPID(child);
    if parentPID == "" {
      return;
    }
    TableAnswers(lifetimes, log, createIDs, parentPID, child.timestamp);
    var parent := ResolveParent(Lifetimes(lifetimes, parentPID), child.timestamp);
    if parent.None? {
      res.unresolvedParents := res.unresolvedParents + 1;
      return;
    }
    if res.matches >= cap {
      res.truncated := true;
      res.dropped := res.dropped + 1;
      return;
    }
    res.matches := res.matches + 1;
    res.relations := res.relations + [DirectEdge(spec, parent.value, child)];
    if limit > 0 {
      EmitAncestors(spec, limit, lifetimes, parent.value, child, res, log, createIDs);
    }
  }

  // ---- What the links mean ---------------------------------------------------------------------

  ghost function NamingParent(children: seq<Event>): nat {
    if children == [] then 0
    else NamingParent(children[..|children| - 1]) + if ParentPID(children[|children| - 1]) == "" then 0 else 1
  }

  /** The creations that name a parent nobody was at the time. */
  ghost function Orphans(log: seq<Event>, createIDs: set<string>, children: seq<Event>): set<nat> {
    set i | 0 <= i < |children| && ParentPID(children[i]) != "" && ParentOf(log, createIDs, children[i]).None?
  }

  /** Whether the cap has been met or not, exactly these count as unresolved. */
  lemma {:induction false} OrphansAreUnresolved(spec: Spec, limit: int, log: seq<Event>, createIDs: set<string>, l: Ledger,
                                                children: seq<Event>, cap: nat)
    ensures SettleAll(spec, limit, log, createIDs, l, children, cap).unresolved == l.unresolved + |Orphans(log, createIDs, children)|
  {
    if children != [] {
      hide ParentOf, AncestorEdges, DirectEdge;
      var n := |children| - 1;
      OrphansAreUnresolved(spec, limit, log, createIDs, l, children[..n], cap);
      assert Orphans(log, createIDs, children) - {n} == Orphans(log, createIDs, children[..n]);
    }
  }

  /** Nothing is lost: every creation event that names a parent is linked, unresolved or dropped, and
      something was dropped exactly when the run says it was truncated. */
  lemma {:induction false} EveryChildIsCounted(spec: Spec, limit: int, log: seq<Event>, createIDs: set<string>, l: Ledger,
                                               children: seq<Event>, cap: nat)
    ensures var r := SettleAll(spec, limit, log, createIDs, l, children, cap);
            && r.tally.matches + r.unresolved + r.tally.dropped ==
               l.tally.matches + l.unresolved + l.tally.dropped + NamingParent(children)
            && (r.tally.truncated <==> l.tally.truncated || r.tally.dropped > l.tally.dropped)
            && (l.tally.matches <= cap ==> r.tally.matches <= cap)
            && (r.tally.dropped > l.tally.dropped ==> r.tally.matches >= cap)
            && r.tally.dropped >= l.tally.dropped
  {
    if children != [] {
      EveryChildIsCounted(spec, limit, log, createIDs, l, children[..|children| - 1], cap);
    }
  }

  /** A resolved parent is a creation event of the PID that was asked for, not later than the child, and
      nothing the log says about that PID between the two took the PID away from it. */
  lemma {:induction false} OwnerWasAlive(log: seq<Event>, createIDs: set<string>, pid: string, t: int) returns (k: nat)
    requires Chronological(log) && Replay(log, createIDs, pid, t).Some?
    ensures k < |log| && Replay(log, createIDs, pid, t) == Some(log[k])
    ensures Creates(log[k], createIDs, pid) && log[k].timestamp <= t
    ensures forall j :: k < j < |log| && log[j].timestamp <= t ==> !Creates(log[j], createIDs, pid) && !Exits(log[j], createIDs, pid)
  {
    var e := log[|log| - 1];
    if e.timestamp <= t && Creates(e, createIDs, pid) {
      k := |log| - 1;
    } else {
      k := OwnerWasAlive(log[..|log| - 1], createIDs, pid, t);
    }
  }

  lemma {:induction false} AliveOwnerIsFound(log: seq<Event>, createIDs: set<string>, pid: string, t: int, k: nat)
    requires k < |log| && Creates(log[k], createIDs, pid) && log[k].timestamp <= t
    requires forall j :: k < j < |log| && log[j].timestamp <= t ==> !Creates(log[j], createIDs, pid) && !Exits(log[j], createIDs, pid)
    ensures Replay(log, createIDs, pid, t) == Some(log[k])
  {
    if k < |log| - 1 {
      AliveOwnerIsFound(log[..|log| - 1], createIDs, pid, t, k);
    }
  }

  ghost function AncestorAt(log: seq<Event>, createIDs: set<string>, e: Event, n: nat): Option<Event> {
    if n == 0 then Some(e)
    else
      match AncestorAt(log, createIDs, e, n - 1)
      case None => None
      case Some(a) => ParentOf(log, createIDs, a)
  }

  /** Derived links name the ancestors generation by generation, without gaps, and no more of them than the
      rule's depth and the fixed limit allow. */
  lemma {:induction false} DerivedLinksAreAncestors(spec: Spec, limit: int, log: seq<Event>, createIDs: set<string>,
                                                    parent: Event, current: Event, child: Event, depth: nat, k: nat)
    requires 1 <= depth && AncestorAt(log, createIDs, parent, depth - 1) == Some(current)
    requires k < |AncestorEdges(spec, limit, log, createIDs, current, child, depth)|
    ensures depth + k <= limit && depth + k <= LINEAGE_MAX_DEPTH
    ensures AncestorAt(log, createIDs, parent, depth + k).Some?
    ensures AncestorEdges(spec, limit, log, createIDs, current, child, depth)[k] ==
            DerivedEdge(spec, AncestorAt(log, createIDs, parent, depth + k).value, child, depth + k)
    decreases k
  {
    hide ParentOf, DerivedEdge;
    var a := ParentOf(log, createIDs, current);
    assert AncestorAt(log, createIDs, parent, depth) == a;
    if k > 0 {
      DerivedLinksAreAncestors(spec, limit, log, createIDs, parent, a.value, child, depth + 1, k - 1);
    }
  }

  /** The walk goes on until the limit, the fixed depth, or an ancestor nobody is known to have created. */
  lemma {:induction false} WalkGoesAllTheWay(spec: Spec, limit: int, log: seq<Event>, createIDs: set<string>,
                                             parent: Event, current: Event, child: Event, depth: nat)
    requires 1 <= depth && AncestorAt(log, createIDs, parent, depth - 1) == Some(current)
    ensures var n := |AncestorEdges(spec, limit, log, createIDs, current, child, depth)|;
            depth + n <= limit && depth + n <= LINEAGE_MAX_DEPTH ==> AncestorAt(log, createIDs, parent, depth + n).None?
    decreases LINEAGE_MAX_DEPTH + 1 - depth
  {
    hide ParentOf, DerivedEdge;
    var a := ParentOf(log, createIDs, current);
    assert AncestorAt(log, createIDs, parent, depth) == a;
    if depth <= limit && depth <= LINEAGE_MAX_DEPTH && a.Some? {
      WalkGoesAllTheWay(spec, limit, log, createIDs, parent, a.value, child, depth + 1);
    }
  }

  // ---- What is recorded, apart from how it is made -------------------------------------------------------

  /** The relation leads to a creation from the process so many steps up its line of creators: its own creator for a direct
      link, and one more for each step of depth. */
  ghost predicate NamesAncestor(spec: Spec, log: seq<Event>, createIDs: set<string>, r: Relation, child: Event) {
    var a := AncestorAt(log, createIDs, child, r.stepIndex + 1);
    && a.Some? && r.source == a.value.id && r.target == child.id && r.relationType == spec.relationType
    && r.matchID == MatchID(a.value.id, child.id, 2)
    && (if r.stepIndex == 0 then r.confidence == EXACT_MATCH && r.edgeLabel == spec.LabelFor(0)
        else r.confidence == LINEAGE_TRANSITIVE && r.edgeLabel == "")
  }

  ghost predicate NamesOne(spec: Spec, log: seq<Event>, createIDs: set<string>, r: Relation, children: seq<Event>) {
    exists c :: c in children && NamesAncestor(spec, log, createIDs, r, c)
  }

  lemma {:induction false} AncestorFromParent(log: seq<Event>, createIDs: set<string>, child: Event, parent: Event, n: nat)
    requires ParentOf(log, createIDs, child) == Some(parent)
    ensures AncestorAt(log, createIDs, child, n + 1) == AncestorAt(log, createIDs, parent, n)
  {
    hide ParentOf;
    if n > 0 {
      AncestorFromParent(log, createIDs, child, parent, n - 1);
    } else {
      assert AncestorAt(log, createIDs, child, 0) == Some(child);
    }
  }

  /** What one creation adds: one direct link from its creator, and behind it the derived ones, nearest first. */
  lemma SettleAdds(spec: Spec, limit: int, log: seq<Event>, createIDs: set<string>, l: Ledger, child: Event, cap: nat)
    returns (more: seq<Relation>)
    ensures var r := Settle(spec, limit, log, createIDs, l, child, cap);
            && r.tally.relations == l.tally.relations + more
            && (more != [] <==> r.tally.matches == l.tally.matches + 1) && (more == [] ==> r.tally.matches == l.tally.matches)
    ensures forall k :: 0 <= k < |more| ==>
              more[k].stepIndex == k && NamesAncestor(spec, log, createIDs, more[k], child)
  {
    var p := ParentOf(log, createIDs, child);
    if ParentPID(child) == "" || p.None? || l.tally.matches >= cap {
      more := [];
    } else {
      var parent := p.value;
      var derived := AncestorEdges(spec, limit, log, createIDs, parent, child, 1);
      more := [DirectEdge(spec, parent, child)] + derived;
      assert l.tally.relations + [DirectEdge(spec, parent, child)] + derived == l.tally.relations + more;
      hide ParentOf, AncestorAt, AncestorEdges, NamesAncestor, DirectEdge;
      forall k | 0 <= k < |more| ensures more[k].stepIndex == k && NamesAncestor(spec, log, createIDs, more[k], child) {
        if k == 0 {
          DirectNamesParent(spec, log, createIDs, parent, child);
        } else {
          assert more[k] == derived[k - 1];
          DerivedNamesAncestor(spec, limit, log, createIDs, parent, child, k - 1);
        }
      }
    }
  }

  lemma DirectNamesParent(spec: Spec, log: seq<Event>, createIDs: set<string>, parent: Event, child: Event)
    requires ParentOf(log, createIDs, child) == Some(parent)
    ensures DirectEdge(spec, parent, child).stepIndex == 0
    ensures NamesAncestor(spec, log, createIDs, DirectEdge(spec, parent, child), child)
  {
    hide ParentOf;
    AncestorFromParent(log, createIDs, child, parent, 0);
    assert AncestorAt(log, createIDs, parent, 0) == Some(parent);
  }

  lemma DerivedNamesAncestor(spec: Spec, limit: int, log: seq<Event>, createIDs: set<string>, parent: Event, child: Event, k: nat)
    requires ParentOf(log, createIDs, child) == Some(parent)
    requires k < |AncestorEdges(spec, limit, log, createIDs, parent, child, 1)|
    ensures var r := AncestorEdges(spec, limit, log, createIDs, parent, child, 1)[k];
            r.stepIndex == k + 1 && NamesAncestor(spec, log, createIDs, r, child)
  {
    assert AncestorAt(log, createIDs, parent, 0) == Some(parent);
    hide ParentOf, AncestorEdges, AncestorAt;
    DerivedLinksAreAncestors(spec, limit, log, createIDs, parent, parent, child, 1, k);
    AncestorFromParent(log, createIDs, child, parent, k + 1);
  }

  /** Everything recorded names an ancestor of one of the creations. */
  lemma {:induction false} SettleAllNames(spec: Spec, limit: int, log: seq<Event>, createIDs: set<string>, l: Ledger,
                                          children: seq<Event>, cap: nat)
    ensures var r := SettleAll(spec, limit, log, createIDs, l, children, cap);
            && l.tally.relations <= r.tally.relations
            && forall i :: |l.tally.relations| <= i < |r.tally.relations| ==>
                 NamesOne(spec, log, createIDs, r.tally.relations[i], children)
  {
    if children != [] {
      hide NamesAncestor, Settle;
      var n := |children| - 1;
      var before := SettleAll(spec, limit, log, createIDs, l, children[..n], cap);
      SettleAllNames(spec, limit, log, createIDs, l, children[..n], cap);
      var more := SettleAdds(spec, limit, log, createIDs, before, children[n], cap);
      var rels := before.tally.relations + more;
      forall i | |l.tally.relations| <= i < |rels| ensures NamesOne(spec, log, createIDs, rels[i], children) {
        if i < |before.tally.relations| {
          assert rels[i] == before.tally.relations[i];
          assert NamesOne(spec, log, createIDs, before.tally.relations[i], children[..n]);
          var c :| c in children[..n] && NamesAncestor(spec, log, createIDs, rels[i], c);
          assert c in children;
        } else {
          assert children[n] in children;
        }
      }
    }
  }

  /** Some creation of the PID at this instant is the last the log says about the PID up to then. */
  ghost predicate CreatedJustThen(log: seq<Event>, createIDs: set<string>, pid: string, t: int) {
    exists k :: 0 <= k < |log| && Creates(log[k], createIDs, pid) && log[k].timestamp == t &&
      forall j :: k < j < |log| && log[j].timestamp <= t ==> !Creates(log[j], createIDs, pid) && !Exits(log[j], createIDs, pid)
  }

  /** A parent need not be earlier than its child: it is at the child's own instant exactly when the PID the child
      names was created at that instant and nothing the log says later ends it by then. Every other resolved parent
      is strictly earlier. */
  lemma ParentIsEarlierIff(log: seq<Event>, createIDs: set<string>, e: Event)
    requires Chronological(log) && ParentPID(e) != ""
    ensures var p, just := ParentOf(log, createIDs, e), CreatedJustThen(log, createIDs, ParentPID(e), e.timestamp);
            && (just ==> p.Some?)
            && (p.Some? ==> p.value.timestamp <= e.timestamp && (p.value.timestamp < e.timestamp <==> !just))
  {
    var pid, t := ParentPID(e), e.timestamp;
    if ParentOf(log, createIDs, e).Some? {
      var i := OwnerWasAlive(log, createIDs, pid, t);
    }
    if k :| 0 <= k < |log| && Creates(log[k], createIDs, pid) && log[k].timestamp == t &&
            forall j :: k < j < |log| && log[j].timestamp <= t ==>
              !Creates(log[j], createIDs, pid) && !Exits(log[j], createIDs, pid) {
      AliveOwnerIsFound(log, createIDs, pid, t, k);
    }
  }

  /** A process B that names A as its parent though another process logged its creation, A's exit, and a process C whose
      creation A's number is logged for: B has A as its parent, and C has none. */
  lemma OrphanAfterExit(log: seq<Event>)
    requires log == [Event(1, "4688", 5, ["", "", "0", "A"]), Event(2, "4688", 6, ["", "", "0", "B", "A"]),
                     Event(3, "4689", 7, ["", "", "A"]), Event(4, "4688", 8, ["", "", "A", "C"])]
    ensures Chronological(log) && Dated(log)
    ensures ParentOf(log, {"4688"}, log[1]) == Some(log[0]) && ParentOf(log, {"4688"}, log[3]) == None
    ensures ParentOf(log, {"4688"}, log[0]) == None
  {
    AliveOwnerIsFound(log, {"4688"}, "A", 6, 0);
    assert log[..3][..2] == log[..2] && log[..2][..1] == log[..1] && log[..1][..0] == [];
    assert log[..3][2] == log[2] && log[..2][1] == log[1] && log[..1][0] == log[0];
    assert Exits(log[2], {"4688"}, "A") && !Creates(log[3], {"4688"}, "A");
    assert Replay(log[..3], {"4688"}, "A", 8) == None;
    assert Replay(log[..1], {"4688"}, "0", 5) == None;
    assert Replay(log[..2], {"4688"}, "0", 5) == None;
    assert Replay(log[..3], {"4688"}, "0", 5) == None;
  }

  /** Two processes created at one instant can come out as each other's parent. */
  lemma MutualParents(a: Event, b: Event)
    requires a == Event(1, "4688", 5, ["", "", "B", "A"]) && b == Event(2, "4688", 5, ["", "", "A", "B"])
    ensures Chronological([a, b]) && Dated([a, b])
    ensures ParentOf([a, b], {"4688"}, a) == Some(b) && ParentOf([a, b], {"4688"}, b) == Some(a)
  {
    AliveOwnerIsFound([a, b], {"4688"}, "B", 5, 1);
    AliveOwnerIsFound([a, b], {"4688"}, "A", 5, 0);
  }

  /** It can even be the child itself: a record that names one PID as both creator and created opens
      the very lifetime its own creation time falls in. It does exactly when nothing recorded later at the
      same instant creates or ends that PID. */
  lemma SelfParentIff(log: seq<Event>, createIDs: set<string>, k: nat)
    requires Chronological(log) && k < |log| && log[k].eventID in createIDs && ParentPID(log[k]) != ""
    requires forall i, j :: 0 <= i < j < |log| ==> log[i].id != log[j].id
    ensures var pid, t := ParentPID(log[k]), log[k].timestamp;
            ParentOf(log, createIDs, log[k]) == Some(log[k]) <==>
            && ChildPID(log[k]) == pid
            && forall j :: k < j < |log| && log[j].timestamp == t ==> !Creates(log[j], createIDs, pid) && !Exits(log[j], createIDs, pid)
  {
    var pid, t := ParentPID(log[k]), log[k].timestamp;
    if ParentOf(log, createIDs, log[k]) == Some(log[k]) {
      var i := OwnerWasAlive(log, createIDs, pid, t);
      assert i == k;
    }
    if ChildPID(log[k]) == pid && forall j :: k < j < |log| && log[j].timestamp == t ==>
         !Creates(log[j], createIDs, pid) && !Exits(log[j], createIDs, pid) {
      AliveOwnerIsFound(log, createIDs, pid, t, k);
    }
  }

  /** The shortest such log. */
  lemma SelfParentExample()
    ensures var e := Event(1, "4688", 5, ["", "", "0x4", "0x4"]);
            Chronological([e]) && Dated([e]) && ParentOf([e], {"4688"}, e) == Some(e)
  {
  }
}
