/** Greedy, non-overlapping sequence matching over chronologically ordered partitions. */
module SequenceMatch {
  import opened Correlation

  datatype Option<T> = None | Some(value: T)

  /** `m` picks events at or after `start` whose ids spell `pattern`, in order. */
  ghost predicate IsMatch(events: seq<Event>, pattern: seq<string>, start: nat, m: seq<int>) {
    && |m| == |pattern|
    && InRange(m, |events|)
    && Increasing(m)
    && forall k :: 0 <= k < |m| ==> start <= m[k] && events[m[k]].eventID == pattern[k]
  }

  /** Every match from `start` runs behind `matched`: each step found so far is no later than in the
      match, and the match has its next step at `i` or after. */
  ghost predicate Leads(events: seq<Event>, pattern: seq<string>, start: nat, matched: seq<int>, i: int)
    requires |matched| <= |pattern|
  {
    forall m :: IsMatch(events, pattern, start, m) ==> Behind(m, matched, i)
  }

  ghost predicate Behind(m: seq<int>, matched: seq<int>, i: int)
    requires |matched| <= |m|
  {
    && (forall k :: 0 <= k < |matched| ==> matched[k] <= m[k])
    && (|matched| < |m| ==> i <= m[|matched|])
  }

  lemma LeadsStep(events: seq<Event>, pattern: seq<string>, start: nat, matched: seq<int>, i: nat)
    requires start <= i < |events| && |matched| < |pattern| && Leads(events, pattern, start, matched, i)
    ensures events[i].eventID == pattern[|matched|] ==> Leads(events, pattern, start, matched + [i], i + 1)
    ensures events[i].eventID != pattern[|matched|] ==> Leads(events, pattern, start, matched, i + 1)
  {
  }

  /** `matched` is what the scan has found of `pattern` before reaching index `i`. */
  ghost predicate Found(events: seq<Event>, pattern: seq<string>, start: nat, matched: seq<int>, i: int) {
    && |matched| <= |pattern| && InRange(matched, |events|) && Increasing(matched)
    && forall k :: 0 <= k < |matched| ==> start <= matched[k] < i && events[matched[k]].eventID == pattern[k]
  }

  /** No other match from `start` reaches any step sooner than `m` does. */
  ghost predicate Earliest(events: seq<Event>, pattern: seq<string>, start: nat, m: seq<int>) {
    && IsMatch(events, pattern, start, m)
    && forall o :: IsMatch(events, pattern, start, o) ==> forall k :: 0 <= k < |o| ==> m[k] <= o[k]
  }

  /** The earliest subsequence at or after `start` that spells `pattern`, or None when there is none. */
  method GreedyMatch(events: seq<Event>, pattern: seq<string>, start: nat) returns (r: Option<seq<int>>)
    ensures r.Some? ==> Earliest(events, pattern, start, r.value)
    ensures r.None? ==> !exists m :: IsMatch(events, pattern, start, m)
  {
    var matched: seq<int> := [];
    var step := 0;
    var i := start;
    while i < |events| && step < |pattern|
      invariant step == |matched| && start <= i
      invariant Found(events, pattern, start, matched, i)
      invariant Leads(events, pattern, start, matched, i)
    {
      LeadsStep(events, pattern, start, matched, i);
      if events[i].eventID == pattern[step] {
        matched := matched + [i];
        step := step + 1;
      }
      i := i + 1;
    }
    if step != |pattern| {
      return None;
    }
    return Some(matched);
  }

  /** Whole matches one after another: each begins after the previous one's final event. */
  ghost predicate Packing(events: seq<Event>, pattern: seq<string>, p: seq<seq<int>>)
    requires pattern != []
  {
    && (forall i :: 0 <= i < |p| ==> IsMatch(events, pattern, 0, p[i]))
    && forall i, j :: 0 <= i < j < |p| ==> p[i][|pattern| - 1] < p[j][0]
  }

  ghost predicate Optimal(events: seq<Event>, pattern: seq<string>, p: seq<seq<int>>)
    requires pattern != []
  {
    && Packing(events, pattern, p)
    && forall q :: Packing(events, pattern, q) ==> |q| <= |p|
  }

  /** Every packing with more than n matches starts its match number n at `start` or later. */
  ghost predicate Bounds(events: seq<Event>, pattern: seq<string>, n: nat, start: int)
    requires pattern != []
  {
    forall q :: Packing(events, pattern, q) && n < |q| ==> start <= q[n][0]
  }

  /** The packing ends before `start`. */
  ghost predicate Ends(pattern: seq<string>, p: seq<seq<int>>, start: int) {
    forall i :: 0 <= i < |p| ==> |p[i]| == |pattern| > 0 && p[i][|pattern| - 1] < start
  }

  /** Where scanning resumes: just past the final event of the last match. */
  ghost function Resume(p: seq<seq<int>>): int {
    if p == [] || p[|p| - 1] == [] then 0 else p[|p| - 1][|p[|p| - 1]| - 1] + 1
  }

  /** Each match is the earliest one after the match before it. */
  ghost predicate Greedy(events: seq<Event>, pattern: seq<string>, p: seq<seq<int>>) {
    p != [] ==>
      var front := p[..|p| - 1];
      && Greedy(events, pattern, front)
      && 0 <= Resume(front) && Earliest(events, pattern, Resume(front), p[|p| - 1])
  }

  lemma NextMatch(events: seq<Event>, pattern: seq<string>, n: nat, start: nat, q: seq<seq<int>>)
    requires pattern != [] && Bounds(events, pattern, n, start)
    requires Packing(events, pattern, q) && n < |q|
    ensures IsMatch(events, pattern, start, q[n])
  {
  }

  lemma PackOne(events: seq<Event>, pattern: seq<string>, found: seq<seq<int>>, start: nat, m: seq<int>)
    requires pattern != [] && Packing(events, pattern, found) && Ends(pattern, found, start)
    requires IsMatch(events, pattern, start, m)
    ensures start <= m[|m| - 1] < |events|
    ensures Packing(events, pattern, found + [m]) && Ends(pattern, found + [m], m[|m| - 1] + 1)
  {
  }

  /** Taking the earliest match leaves every other packing's next match after it. */
  lemma BoundsStep(events: seq<Event>, pattern: seq<string>, n: nat, start: nat, m: seq<int>)
    requires pattern != [] && Bounds(events, pattern, n, start) && Earliest(events, pattern, start, m)
    ensures Bounds(events, pattern, n + 1, m[|m| - 1] + 1)
  {
    var end := m[|m| - 1];
    forall q | Packing(events, pattern, q) && n + 1 < |q| ensures end + 1 <= q[n + 1][0] {
      hide Packing, Earliest, IsMatch, Bounds;
      NextMatch(events, pattern, n, start, q);
      EndsBefore(events, pattern, start, m, q, n);
    }
  }

  lemma EndsBefore(events: seq<Event>, pattern: seq<string>, start: nat, m: seq<int>, q: seq<seq<int>>, n: nat)
    requires pattern != [] && Earliest(events, pattern, start, m) && Packing(events, pattern, q) && n + 1 < |q|
    requires IsMatch(events, pattern, start, q[n])
    ensures m != [] && m[|m| - 1] < q[n + 1][0]
  {
    assert m[|m| - 1] <= q[n][|m| - 1];
  }

  lemma GreedyOne(events: seq<Event>, pattern: seq<string>, found: seq<seq<int>>, m: seq<int>)
    requires pattern != [] && Greedy(events, pattern, found)
    requires 0 <= Resume(found) && Earliest(events, pattern, Resume(found), m)
    ensures Greedy(events, pattern, found + [m]) && Resume(found + [m]) == m[|m| - 1] + 1
  {
  }

  lemma AheadEnds(events: seq<Event>, pattern: seq<string>, found: seq<seq<int>>, start: nat)
    requires pattern != [] && Packing(events, pattern, found) && Bounds(events, pattern, |found|, start)
    requires |events| < start + |pattern| || !exists m :: IsMatch(events, pattern, start, m)
    ensures Optimal(events, pattern, found)
  {
    forall q | Packing(events, pattern, q) ensures |q| <= |found| {
      if |found| < |q| {
        NextMatch(events, pattern, |found|, start, q);
        TooShort(events, pattern, start, q[|found|]);
      }
    }
  }

  /** The greedy scan of one partition. The matches it finds form a largest possible packing; those
      past the cap are counted as dropped rather than emitted. */
  method MatchScope(spec: Spec, events: seq<Event>, cap: nat, res: Result) returns (ghost found: seq<seq<int>>)
    requires spec.sequence != []
    modifies res
    ensures Optimal(events, spec.sequence, found) && Greedy(events, spec.sequence, found) && Chains(events, found)
    ensures res.GetTally() == Absorb(spec, events, old(res.GetTally()), found, cap)
    ensures res.skippedNoKeys == old(res.skippedNoKeys) && res.unresolvedParents == old(res.unresolvedParents)
  {
    var start := 0;
    found := [];
    while start + |spec.sequence| <= |events|
      invariant Packing(events, spec.sequence, found) && Ends(spec.sequence, found, start)
      invariant Chains(events, found) && Bounds(events, spec.sequence, |found|, start)
      invariant Greedy(events, spec.sequence, found) && start == Resume(found)
      invariant res.GetTally() == Absorb(spec, events, old(res.GetTally()), found, cap)
      invariant res.skippedNoKeys == old(res.skippedNoKeys) && res.unresolvedParents == old(res.unresolvedParents)
      decreases |events| - start
    {
      var r := GreedyMatch(events, spec.sequence, start);
      if r.None? {
        AheadEnds(events, spec.sequence, found, start);
        return;
      }
      var matched := r.value;
      PackOne(events, spec.sequence, found, start, matched);
      BoundsStep(events, spec.sequence, |found|, start, matched);
      GreedyOne(events, spec.sequence, found, matched);
      AbsorbOne(spec, events, old(res.GetTally()), found, matched, cap);
      res.Record(spec, events, matched, cap);
      found := found + [matched];
      start := matched[|matched| - 1] + 1;
    }
    AheadEnds(events, spec.sequence, found, start);
  }

  /** A strictly increasing chain of n indices needs n positions. */
  lemma {:induction false} TooShort(events: seq<Event>, pattern: seq<string>, start: nat, m: seq<int>)
    requires pattern != [] && IsMatch(events, pattern, 0, m) && start <= m[0]
    ensures start + |pattern| <= |events|
  {
    var k := 0;
    while k + 1 < |m|
      invariant 0 <= k < |m| && start + k <= m[k]
    {
      k := k + 1;
    }
  }

  // ---- Optimality, stated over the event ids alone ------------------------------------------

  ghost function Repeat(pattern: seq<string>, k: nat): seq<string> {
    if k == 0 then [] else Repeat(pattern, k - 1) + pattern
  }

  /** `pattern` written `k` times over is a subsequence of the partition's event ids. */
  ghost predicate Repeats(events: seq<Event>, pattern: seq<string>, k: nat) {
    exists m :: IsMatch(events, Repeat(pattern, k), 0, m)
  }

  ghost function Flatten(p: seq<seq<int>>): seq<int> {
    if p == [] then [] else Flatten(p[..|p| - 1]) + p[|p| - 1]
  }

  lemma JoinMatches(events: seq<Event>, head: seq<string>, pattern: seq<string>, f: seq<int>, m: seq<int>)
    requires IsMatch(events, head, 0, f) && IsMatch(events, pattern, 0, m)
    requires f != [] && m != [] ==> f[|f| - 1] < m[0]
    ensures IsMatch(events, head + pattern, 0, f + m)
  {
  }

  lemma {:induction false} PackingIsRepeat(events: seq<Event>, pattern: seq<string>, p: seq<seq<int>>)
    requires pattern != [] && Packing(events, pattern, p)
    ensures IsMatch(events, Repeat(pattern, |p|), 0, Flatten(p))
    ensures p != [] ==> Flatten(p) != [] && Flatten(p)[|Flatten(p)| - 1] == p[|p| - 1][|pattern| - 1]
  {
    if p != [] {
      var front, last := p[..|p| - 1], p[|p| - 1];
      PackingIsRepeat(events, pattern, front);
      assert front != [] ==> front[|front| - 1][|pattern| - 1] < last[0];
      JoinMatches(events, Repeat(pattern, |p| - 1), pattern, Flatten(front), last);
    }
  }

  /** The last round of a repeated match is itself a match, after everything before it. */
  lemma LastRound(events: seq<Event>, head: seq<string>, pattern: seq<string>, m: seq<int>)
    requires IsMatch(events, head + pattern, 0, m)
    ensures IsMatch(events, head, 0, m[..|head|]) && IsMatch(events, pattern, 0, m[|head|..])
    ensures forall a, b :: 0 <= a < |head| <= b < |m| ==> m[a] < m[b]
  {
  }

  lemma {:induction false} RepeatIsPacking(events: seq<Event>, pattern: seq<string>, k: nat, m: seq<int>)
    returns (p: seq<seq<int>>)
    requires pattern != [] && IsMatch(events, Repeat(pattern, k), 0, m)
    ensures |p| == k && Packing(events, pattern, p)
    ensures k > 0 ==> m != [] && p[k - 1][|pattern| - 1] == m[|m| - 1]
  {
    if k == 0 {
      p := [];
    } else {
      hide IsMatch;
      var head := Repeat(pattern, k - 1);
      LastRound(events, head, pattern, m);
      p := RepeatIsPacking(events, pattern, k - 1, m[..|head|]);
      assert k > 1 ==> p[k - 2][|pattern| - 1] == m[|head| - 1] < m[|head|];
      AppendToPacking(events, pattern, p, m[|head|..]);
      p := p + [m[|head|..]];
    }
  }

  lemma AppendToPacking(events: seq<Event>, pattern: seq<string>, p: seq<seq<int>>, m: seq<int>)
    requires pattern != [] && Packing(events, pattern, p) && IsMatch(events, pattern, 0, m)
    requires p != [] ==> p[|p| - 1][|pattern| - 1] < m[0]
    ensures Packing(events, pattern, p + [m])
  {
  }

  /** Greedy matching is optimal: emitted plus dropped is the largest k for which the rule's sequence,
      written k times over, is a subsequence of the partition. */
  lemma OptimalIsLargestRepeat(events: seq<Event>, pattern: seq<string>, found: seq<seq<int>>)
    requires pattern != [] && Optimal(events, pattern, found)
    ensures forall k: nat :: Repeats(events, pattern, k) <==> k <= |found|
  {
    forall k: nat ensures Repeats(events, pattern, k) <==> k <= |found| {
      if Repeats(events, pattern, k) {
        var m :| IsMatch(events, Repeat(pattern, k), 0, m);
        var p := RepeatIsPacking(events, pattern, k, m);
      }
      if k <= |found| {
        PackingIsRepeat(events, pattern, found[..k]);
      }
    }
  }

  /** The number of occurrences a partition holds: the largest k that `Repeats`. */
  ghost function Occurrences(events: seq<Event>, pattern: seq<string>): nat {
    LargestRepeat(events, pattern, |events|)
  }

  ghost function LargestRepeat(events: seq<Event>, pattern: seq<string>, bound: nat): nat {
    if bound == 0 || Repeats(events, pattern, bound) then bound else LargestRepeat(events, pattern, bound - 1)
  }

  lemma {:induction false} LargestRepeatIs(events: seq<Event>, pattern: seq<string>, bound: nat, k: nat)
    requires k <= bound && forall j: nat :: Repeats(events, pattern, j) <==> j <= k
    ensures LargestRepeat(events, pattern, bound) == k
  {
    if k < bound {
      LargestRepeatIs(events, pattern, bound - 1, k);
    }
  }

  lemma {:induction false} PackingFits(events: seq<Event>, pattern: seq<string>, p: seq<seq<int>>)
    requires pattern != [] && Packing(events, pattern, p)
    ensures |p| <= |events|
    ensures p != [] ==> |p| <= p[|p| - 1][|pattern| - 1] + 1
  {
    if p != [] {
      PackingFits(events, pattern, p[..|p| - 1]);
      assert p[|p| - 1][0] <= p[|p| - 1][|pattern| - 1] < |events|;
    }
  }

  lemma OptimalIsOccurrences(events: seq<Event>, pattern: seq<string>, found: seq<seq<int>>)
    requires pattern != [] && Optimal(events, pattern, found)
    ensures |found| == Occurrences(events, pattern)
  {
    OptimalIsLargestRepeat(events, pattern, found);
    PackingFits(events, pattern, found);
    LargestRepeatIs(events, pattern, |events|, |found|);
  }

  // ---- A whole generation -------------------------------------------------------------------

  ghost function TotalOccurrences(groups: seq<seq<Event>>, pattern: seq<string>): nat {
    if groups == [] then 0
    else TotalOccurrences(groups[..|groups| - 1], pattern) + Occurrences(groups[|groups| - 1], pattern)
  }

  const RULE_MIN_SEQUENCE := 2

  /** What a run over some partitions has produced, given how many occurrences they hold. */
  ghost predicate Settled(t: Tally, total: nat, cap: nat, edgesPerMatch: int) {
    && t.matches == Min(cap, total)
    && t.dropped == total - t.matches
    && t.truncated == (t.dropped > 0)
    && |t.relations| == t.matches * edgesPerMatch
  }

  lemma SettledStep(spec: Spec, events: seq<Event>, t: Tally, total: nat, cap: nat, found: seq<seq<int>>)
    requires spec.sequence != [] && Optimal(events, spec.sequence, found) && Chains(events, found)
    requires Settled(t, total, cap, |spec.sequence| - 1)
    ensures Settled(Absorb(spec, events, t, found, cap), total + Occurrences(events, spec.sequence), cap,
                    |spec.sequence| - 1)
  {
    OptimalIsOccurrences(events, spec.sequence, found);
    AbsorbCounts(spec, events, t, found, cap);
  }

  lemma AbsorbCounts(spec: Spec, events: seq<Event>, t: Tally, found: seq<seq<int>>, cap: nat)
    requires spec.sequence != [] && Packing(events, spec.sequence, found) && Chains(events, found)
    requires t.matches <= cap && |t.relations| == t.matches * (|spec.sequence| - 1)
    ensures var r, kept := Absorb(spec, events, t, found, cap), Min(|found|, cap - t.matches);
            && r.matches == t.matches + kept && r.dropped == t.dropped + |found| - kept
            && r.truncated == (t.truncated || kept < |found|)
            && |r.relations| == r.matches * (|spec.sequence| - 1)
  {
    AbsorbKeepsPrefix(spec, events, t, found, cap);
    var kept := Min(|found|, cap - t.matches);
    EdgeCount(spec, events, found[..kept]);
    Distribute(t.matches, kept, |spec.sequence| - 1);
  }

  /** What was found in each partition: as many occurrences as fit, each the earliest after the one before. */
  ghost predicate FoundIn(groups: seq<seq<Event>>, pattern: seq<string>, founds: seq<seq<seq<int>>>)
    requires pattern != []
  {
    |founds| == |groups| && forall g :: 0 <= g < |groups| ==>
      Optimal(groups[g], pattern, founds[g]) && Greedy(groups[g], pattern, founds[g]) && Chains(groups[g], founds[g])
  }

  /** The edges of everything found, partition after partition. */
  ghost function AllRelations(spec: Spec, groups: seq<seq<Event>>, founds: seq<seq<seq<int>>>): seq<Relation>
    requires spec.sequence != [] && FoundIn(groups, spec.sequence, founds)
  {
    if groups == [] then []
    else
      var n := |groups| - 1;
      AllRelations(spec, groups[..n], founds[..n]) + AllEdges(spec, groups[n], founds[n])
  }

  /** The relations recorded are the first of them, and all of them until the cap is met. */
  ghost predicate FirstOf(t: Tally, all: seq<Relation>, cap: nat) {
    t.relations <= all && (t.matches < cap ==> t.relations == all)
  }

  lemma {:induction false} EdgesPrefix(spec: Spec, events: seq<Event>, chains: seq<seq<int>>, k: nat)
    requires Chains(events, chains) && k <= |chains|
    ensures AllEdges(spec, events, chains[..k]) <= AllEdges(spec, events, chains)
  {
    if k < |chains| {
      var front := chains[..|chains| - 1];
      assert front[..k] == chains[..k];
      EdgesPrefix(spec, events, front, k);
    } else {
      assert chains[..k] == chains;
    }
  }

  lemma FirstStep(spec: Spec, events: seq<Event>, t: Tally, found: seq<seq<int>>, cap: nat, all: seq<Relation>)
    requires Chains(events, found) && t.matches <= cap && FirstOf(t, all, cap)
    ensures FirstOf(Absorb(spec, events, t, found, cap), all + AllEdges(spec, events, found), cap)
  {
    AbsorbKeepsPrefix(spec, events, t, found, cap);
    var kept := Min(|found|, cap - t.matches);
    EdgesPrefix(spec, events, found, kept);
    assert kept == |found| ==> found[..kept] == found;
    hide Absorb, AllEdges;
    if t.matches >= cap {
      assert found[..kept] == [] && AllEdges(spec, events, []) == [] by {
        NoEdges(spec, events);
      }
    }
  }

  lemma FoundNext(spec: Spec, groups: seq<seq<Event>>, founds: seq<seq<seq<int>>>, events: seq<Event>, found: seq<seq<int>>)
    requires spec.sequence != [] && FoundIn(groups, spec.sequence, founds)
    requires Optimal(events, spec.sequence, found) && Greedy(events, spec.sequence, found) && Chains(events, found)
    ensures FoundIn(groups + [events], spec.sequence, founds + [found])
    ensures AllRelations(spec, groups + [events], founds + [found]) ==
            AllRelations(spec, groups, founds) + AllEdges(spec, events, found)
  {
    hide Optimal, Greedy, Chains;
    assert (groups + [events])[..|groups|] == groups && (founds + [found])[..|founds|] == founds;
  }

  /** The relation joins an event of one partition to a later one of the same. */
  ghost predicate JoinsForward(spec: Spec, groups: seq<seq<Event>>, r: Relation) {
    exists g, a, b :: 0 <= g < |groups| && 0 <= a < b && Joins(spec, groups[g], r, a, b)
  }

  /** Relations come in whole runs, one for each match, and each of them joins two events of its step, in time. */
  ghost predicate Told(spec: Spec, groups: seq<seq<Event>>, rels: seq<Relation>) {
    WholeRuns(rels, |spec.sequence|) && forall r :: r in rels ==> JoinsForward(spec, groups, r)
  }

  lemma ToldNext(spec: Spec, groups: seq<seq<Event>>, t: Tally, cap: nat, events: seq<Event>, found: seq<seq<int>>)
    requires |spec.sequence| >= 2 && Told(spec, groups, t.relations)
    requires Optimal(events, spec.sequence, found) && Chains(events, found)
    ensures Told(spec, groups + [events], Absorb(spec, events, t, found, cap).relations)
  {
    assert AllSpell(spec, events, found) && forall c :: 0 <= c < |found| ==> Increasing(found[c]);
    hide Absorb, WholeRuns, Joins, AllSpell, Packing;
    var more := AbsorbJoins(spec, events, t, found, cap);
    var wider := groups + [events];
    forall r | r in t.relations + more ensures JoinsForward(spec, wider, r) {
      if r in t.relations {
        var g, a, b :| 0 <= g < |groups| && 0 <= a < b && Joins(spec, groups[g], r, a, b);
        assert Joins(spec, wider[g], r, a, b);
      } else {
        var c, k :| 0 <= c < |found| && 0 <= k < |found[c]| - 1 && Joins(spec, events, r, found[c][k], found[c][k + 1]);
        assert Joins(spec, wider[|groups|], r, found[c][k], found[c][k + 1]);
      }
    }
  }

  /** What a run has recorded once these partitions are done. */
  ghost predicate Generated(spec: Spec, groups: seq<seq<Event>>, founds: seq<seq<seq<int>>>, t: Tally, cap: nat)
    requires spec.sequence != []
  {
    && FoundIn(groups, spec.sequence, founds) && t.matches <= cap
    && Settled(t, TotalOccurrences(groups, spec.sequence), cap, |spec.sequence| - 1)
    && FirstOf(t, AllRelations(spec, groups, founds), cap)
  }

  lemma GeneratedNext(spec: Spec, groups: seq<seq<Event>>, founds: seq<seq<seq<int>>>, t: Tally, cap: nat,
                      events: seq<Event>, found: seq<seq<int>>)
    requires spec.sequence != [] && Generated(spec, groups, founds, t, cap)
    requires Optimal(events, spec.sequence, found) && Greedy(events, spec.sequence, found) && Chains(events, found)
    ensures Generated(spec, groups + [events], founds + [found], Absorb(spec, events, t, found, cap), cap)
  {
    hide Settled, Optimal, Greedy, Chains, Absorb, Occurrences, FirstOf, FoundIn, AllRelations;
    SettledStep(spec, events, t, TotalOccurrences(groups, spec.sequence), cap, found);
    FirstStep(spec, events, t, found, cap, AllRelations(spec, groups, founds));
    FoundNext(spec, groups, founds, events, found);
    StaysUnderCap(spec, events, t, found, cap);
    assert (groups + [events])[..|groups|] == groups;
  }

  /** Runs a sequence rule over every partition. Matches is the smaller of the cap and the total, the edges recorded are
      those of the first matches found, partition by partition, and the run is marked truncated exactly when something
      was dropped. */
  method Generate(spec: Spec, groups: seq<seq<Event>>, cap: nat) returns (res: Result, ghost founds: seq<seq<seq<int>>>)
    ensures fresh(res)
    ensures |spec.sequence| < RULE_MIN_SEQUENCE ==> res.GetTally() == Tally([], 0, false, 0)
    ensures |spec.sequence| >= RULE_MIN_SEQUENCE ==>
              Settled(res.GetTally(), TotalOccurrences(groups, spec.sequence), cap, |spec.sequence| - 1)
    ensures |spec.sequence| >= RULE_MIN_SEQUENCE ==>
              FoundIn(groups, spec.sequence, founds) && res.relations <= AllRelations(spec, groups, founds)
    ensures |spec.sequence| >= RULE_MIN_SEQUENCE ==> Told(spec, groups, res.relations)
  {
    res := new Result();
    founds := [];
    if |spec.sequence| < RULE_MIN_SEQUENCE {
      return;
    }
    NothingGenerated(spec, cap);
    hide Generated, Optimal, Greedy, Chains, Absorb, Settled, FoundIn, AllRelations, TotalOccurrences, Told;
    assert groups[..0] == [];
    for g := 0 to |groups|
      invariant fresh(res)
      invariant Generated(spec, groups[..g], founds, res.GetTally(), cap)
      invariant Told(spec, groups[..g], res.relations)
    {
      ghost var t := res.GetTally();
      ghost var found := MatchScope(spec, groups[g], cap, res);
      GeneratedNext(spec, groups[..g], founds, t, cap, groups[g], found);
      ToldNext(spec, groups[..g], t, cap, groups[g], found);
      assert groups[..g + 1] == groups[..g] + [groups[g]];
      founds := founds + [found];
    }
    assert groups[..|groups|] == groups;
    GeneratedMeans(spec, groups, founds, res.GetTally(), cap);
  }

  lemma NothingGenerated(spec: Spec, cap: nat)
    requires spec.sequence != []
    ensures Generated(spec, [], [], Tally([], 0, false, 0), cap) && Told(spec, [], [])
  {
  }

  lemma GeneratedMeans(spec: Spec, groups: seq<seq<Event>>, founds: seq<seq<seq<int>>>, t: Tally, cap: nat)
    requires spec.sequence != [] && Generated(spec, groups, founds, t, cap)
    ensures FoundIn(groups, spec.sequence, founds) && t.relations <= AllRelations(spec, groups, founds)
    ensures Settled(t, TotalOccurrences(groups, spec.sequence), cap, |spec.sequence| - 1)
  {
  }

  lemma StaysUnderCap(spec: Spec, events: seq<Event>, t: Tally, found: seq<seq<int>>, cap: nat)
    requires Chains(events, found) && t.matches <= cap
    ensures Absorb(spec, events, t, found, cap).matches <= cap
  {
    AbsorbKeepsPrefix(spec, events, t, found, cap);
  }

  lemma Distribute(a: int, b: int, c: int)
    ensures a * c + b * c == (a + b) * c
  {
  }

  lemma {:induction false} EdgeCount(spec: Spec, events: seq<Event>, chains: seq<seq<int>>)
    requires spec.sequence != [] && Chains(events, chains) && Packing(events, spec.sequence, chains)
    ensures |AllEdges(spec, events, chains)| == |chains| * (|spec.sequence| - 1)
  {
    if chains != [] {
      EdgeCount(spec, events, chains[..|chains| - 1]);
      Distribute(|chains| - 1, 1, |spec.sequence| - 1);
    }
  }

  /** Every event is in one place of one partition, and no two share an id. */
  ghost predicate OneIdEach(groups: seq<seq<Event>>) {
    forall g, a, h, b :: 0 <= g < |groups| && 0 <= a < |groups[g]| && 0 <= h < |groups| && 0 <= b < |groups[h]| ==>
      groups[g][a].id == groups[h][b].id ==> g == h && a == b
  }

  /** A match id names one occurrence of a rule: no two matches of a run share one, in one partition or in two. */
  lemma MatchIDsAreDistinct(groups: seq<seq<Event>>, pattern: seq<string>, founds: seq<seq<seq<int>>>,
                            g: nat, i: nat, h: nat, j: nat)
    requires pattern != [] && |founds| == |groups| && OneIdEach(groups)
    requires g < |groups| && h < |groups| && i < |founds[g]| && j < |founds[h]| && (g != h || i < j)
    requires Packing(groups[g], pattern, founds[g]) && Packing(groups[h], pattern, founds[h])
    ensures ChainID(groups[g], founds[g][i]) != ChainID(groups[h], founds[h][j])
  {
    var c, d := founds[g][i], founds[h][j];
    assert g == h ==> c[|pattern| - 1] < d[0];
    assert 0 <= c[0] < |groups[g]| && 0 <= d[0] < |groups[h]|;
    assert c[0] <= c[|pattern| - 1];
  }
}
