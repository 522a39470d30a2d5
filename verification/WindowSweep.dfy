/** The one-pass sweep behind temporal rules. */
module WindowSweep {
  import opened Correlation

  // For each step only its latest completion is kept.

  /** A rule's sequence and its two bounds. `total` of zero or less means no end-to-end bound. */
  datatype Window = Window(pattern: seq<string>, within: int, total: int)

  /** `last[s]`: the latest event that completed step s, or -1. `prev[s]`: the event that had completed
      step s-1 at that moment, or -1. */
  datatype Sweep = Sweep(last: seq<int>, prev: seq<int>)

  ghost predicate Fits(w: Window, s: Sweep, i: int) {
    && |s.last| == |s.prev| == |w.pattern|
    && forall k :: 0 <= k < |s.last| ==> -1 <= s.last[k] < i && -1 <= s.prev[k] < i
  }

  function Cleared(n: nat): Sweep {
    Sweep(seq(n, k => -1), seq(n, k => -1))
  }

  function Gap(events: seq<Event>, j: nat, i: nat): int
    requires j < |events| && i < |events|
  {
    events[i].timestamp - events[j].timestamp
  }

  /** The parent chain from a completed step back to what is recorded as its step 0. */
  function AnchorOf(prev: seq<int>, step: nat, at: int): int
    requires step < |prev|
    decreases step
  {
    if step == 0 || prev[step] < 0 then at else AnchorOf(prev, step - 1, prev[step])
  }

  /** Whether event i completes step k, judged against the state before the event. */
  ghost predicate Advances(w: Window, events: seq<Event>, s: Sweep, i: nat, k: nat)
    requires i < |events| && k < |w.pattern| && Fits(w, s, i)
  {
    && events[i].eventID == w.pattern[k]
    && (k > 0 ==>
          && s.last[k - 1] >= 0
          && Gap(events, s.last[k - 1], i) <= w.within
          && (w.total > 0 ==> AnchorGap(events, s, k - 1, i) <= w.total))
  }

  ghost function AnchorGap(events: seq<Event>, s: Sweep, step: nat, i: nat): int
    requires i < |events| && step < |s.last| == |s.prev| && 0 <= s.last[step] < i
    requires forall k :: 0 <= k < |s.prev| ==> s.prev[k] < i
  {
    AnchorBelow(s.prev, step, s.last[step], i);
    Gap(events, AnchorOf(s.prev, step, s.last[step]), i)
  }

  lemma {:induction false} AnchorBelow(prev: seq<int>, step: nat, at: int, i: int)
    requires step < |prev| && 0 <= at < i && forall k :: 0 <= k < |prev| ==> prev[k] < i
    ensures 0 <= AnchorOf(prev, step, at) < i
    decreases step
  {
    if step > 0 && prev[step] >= 0 {
      AnchorBelow(prev, step - 1, prev[step], i);
    }
  }

  /** What one event does to the sweep: every step it can complete moves to it at once. */
  ghost function Visit(w: Window, events: seq<Event>, s: Sweep, i: nat): (v: Sweep)
    requires i < |events| && Fits(w, s, i)
    ensures Fits(w, v, i + 1)
  {
    var n := |w.pattern|;
    Sweep(seq(n, k requires 0 <= k < n => if Advances(w, events, s, i, k) then i else s.last[k]),
          seq(n, k requires 0 <= k < n => if !Advances(w, events, s, i, k) then s.prev[k]
                                          else if k == 0 then -1 else s.last[k - 1]))
  }

  /** The chain read back from the parent pointers when the last step completes on event `end`. */
  ghost function WalkBack(prev: seq<int>, end: int): (m: seq<int>)
    requires prev != []
    ensures |m| == |prev|
  {
    prev[1..] + [end]
  }

  /** The sweep after the first i events: the state since the last completion, the event after that
      completion, and the chains read back so far. */
  datatype Run = Run(state: Sweep, start: nat, chains: seq<seq<int>>)

  ghost function RunTo(w: Window, events: seq<Event>, i: nat): (r: Run)
    requires w.pattern != [] && i <= |events|
    ensures Fits(w, r.state, i) && r.start <= i
  {
    if i == 0 then Run(Cleared(|w.pattern|), 0, []) else RunNext(w, events, RunTo(w, events, i - 1), i - 1)
  }

  ghost function RunNext(w: Window, events: seq<Event>, r: Run, i: nat): (next: Run)
    requires w.pattern != [] && i < |events| && Fits(w, r.state, i) && r.start <= i
    ensures Fits(w, next.state, i + 1) && next.start <= i + 1
  {
    var v := Visit(w, events, r.state, i);
    if v.last[|w.pattern| - 1] == i then Run(Cleared(|w.pattern|), i + 1, r.chains + [WalkBack(v.prev, i)])
    else r.(state := v)
  }

  /** The sweep emits a match on event i. */
  ghost predicate Completes(w: Window, events: seq<Event>, i: nat)
    requires w.pattern != [] && i < |events|
  {
    Visit(w, events, RunTo(w, events, i).state, i).last[|w.pattern| - 1] == i
  }

  // ---- What a match is, independently of the sweep ------------------------------------------

  /** `c` picks events from `lo` on, in order, spelling the start of the sequence, each within the window
      of the one before and all within the total bound. */
  ghost predicate ValidChain(w: Window, events: seq<Event>, lo: int, c: seq<int>) {
    && 0 < |c| <= |w.pattern| && InRange(c, |events|) && Increasing(c) && lo <= c[0]
    && (forall k :: 0 <= k < |c| ==> events[c[k]].eventID == w.pattern[k])
    && (forall j, k :: 0 <= j && j + 1 == k < |c| ==> Gap(events, c[j], c[k]) <= w.within)
    && (w.total > 0 ==> Gap(events, c[0], c[|c| - 1]) <= w.total)
  }

  /** A whole match that ends on event i. */
  ghost predicate MatchEndsAt(w: Window, events: seq<Event>, lo: int, i: nat) {
    exists c :: ValidChain(w, events, lo, c) && |c| == |w.pattern| && c[|c| - 1] == i
  }

  // ---- The sweep never misses a match -------------------------------------------------------

  /** Every chain among the events from lo to i-1 ends no later than the recorded completion of its last
      step, and starts no later than the recorded parent of step 1. */
  ghost predicate Dominates(w: Window, events: seq<Event>, lo: int, i: int, s: Sweep)
    requires Fits(w, s, i)
  {
    forall c :: ValidChain(w, events, lo, c) && c[|c| - 1] < i ==>
      c[|c| - 1] <= s.last[|c| - 1] && (|c| > 1 ==> c[0] <= s.prev[1])
  }

  /** The sweep's own books: a completed step has completed predecessors and a recorded parent. */
  ghost predicate Linked(w: Window, lo: int, s: Sweep) {
    && |s.last| == |s.prev| == |w.pattern|
    && forall k :: 0 <= k < |s.last| && s.last[k] >= 0 ==> LinkedAt(lo, s, k)
  }

  ghost predicate LinkedAt(lo: int, s: Sweep, k: nat)
    requires k < |s.last| == |s.prev|
  {
    lo <= s.last[k] && (k > 0 ==> s.last[k - 1] >= 0 && lo <= s.prev[k] <= s.last[k - 1] && s.prev[k] < s.last[k])
  }

  /** The anchor of any step past the first is simply the parent recorded for step 1. */
  lemma {:induction false} AnchorIsFirstParent(w: Window, lo: nat, s: Sweep, step: nat, at: int)
    requires Linked(w, lo, s) && step < |s.last| && s.last[step] >= 0
    ensures AnchorOf(s.prev, step, at) == if step == 0 then at else s.prev[1]
    decreases step
  {
    if step > 0 {
      AnchorIsFirstParent(w, lo, s, step - 1, s.prev[step]);
    }
  }

  lemma LinkedStep(w: Window, events: seq<Event>, lo: nat, i: nat, s: Sweep)
    requires i < |events| && lo <= i && Fits(w, s, i) && Linked(w, lo, s)
    ensures Linked(w, lo, Visit(w, events, s, i))
  {
    var v := Visit(w, events, s, i);
    assert |v.last| == |v.prev| == |w.pattern|;
    hide Visit, Advances, Fits, LinkedAt;
    forall k | 0 <= k < |v.last| && v.last[k] >= 0 ensures LinkedAt(lo, v, k) {
      LinkedStepAt(w, events, lo, i, s, k);
    }
  }

  lemma LinkedStepAt(w: Window, events: seq<Event>, lo: nat, i: nat, s: Sweep, k: nat)
    requires i < |events| && lo <= i && Fits(w, s, i) && Linked(w, lo, s)
    requires k < |w.pattern| && Visit(w, events, s, i).last[k] >= 0
    ensures LinkedAt(lo, Visit(w, events, s, i), k)
  {
    var v := Visit(w, events, s, i);
    if k > 0 {
      assert v.last[k - 1] == i || v.last[k - 1] == s.last[k - 1];
      if Advances(w, events, s, i, k) {
        assert s.last[k - 1] >= 0;
      }
    }
  }

  /** Dropping a chain's last event leaves a chain. */
  lemma ChainFront(w: Window, events: seq<Event>, lo: int, c: seq<int>)
    requires Chronological(events) && ValidChain(w, events, lo, c) && |c| > 1
    ensures ValidChain(w, events, lo, c[..|c| - 1]) && ValidChain(w, events, lo, c[..1])
    ensures c[|c| - 2] < c[|c| - 1] && Gap(events, c[|c| - 2], c[|c| - 1]) <= w.within
  {
  }

  /** The front of a chain that ends on event i ends no later than the latest completion of its step, and
      starts no later than the anchor recorded for that step. */
  lemma FrontDominated(w: Window, events: seq<Event>, lo: nat, i: nat, s: Sweep, c: seq<int>)
    requires Chronological(events) && i < |events| && Fits(w, s, i) && Dominates(w, events, lo, i, s)
    requires ValidChain(w, events, lo, c) && c[|c| - 1] == i && |c| > 1
    ensures c[|c| - 2] <= s.last[|c| - 2] && c[0] <= s.last[0] && (|c| > 2 ==> c[0] <= s.prev[1])
  {
    ChainFront(w, events, lo, c);
    var front := c[..|c| - 1];
    assert front[|front| - 1] == c[|c| - 2] && front[0] == c[0];
    assert c[..1][0] == c[0] < i;
  }

  /** If a chain ends on event i then event i completes its last step: the latest completion of the step
      before is at least as good as the chain's own. */
  lemma ChainAdvances(w: Window, events: seq<Event>, lo: nat, i: nat, s: Sweep, c: seq<int>)
    requires Chronological(events) && i < |events| && Fits(w, s, i) && Linked(w, lo, s)
    requires ValidChain(w, events, lo, c) && c[|c| - 1] == i
    requires |c| > 1 ==> c[|c| - 2] <= s.last[|c| - 2] && c[0] <= s.last[0] && (|c| > 2 ==> c[0] <= s.prev[1])
    ensures Advances(w, events, s, i, |c| - 1)
  {
    var k := |c| - 1;
    if k > 0 {
      AnchorIsFirstParent(w, lo, s, k - 1, s.last[k - 1]);
      assert Gap(events, s.last[k - 1], i) <= Gap(events, c[k - 1], c[k]);
    }
  }

  lemma DominatesStep(w: Window, events: seq<Event>, lo: nat, i: nat, s: Sweep)
    requires Chronological(events) && i < |events| && Fits(w, s, i)
    requires Linked(w, lo, s) && Dominates(w, events, lo, i, s)
    ensures Dominates(w, events, lo, i + 1, Visit(w, events, s, i))
  {
    var v := Visit(w, events, s, i);
    forall c | ValidChain(w, events, lo, c) && c[|c| - 1] < i + 1
      ensures c[|c| - 1] <= v.last[|c| - 1] && (|c| > 1 ==> c[0] <= v.prev[1])
    {
      if c[|c| - 1] == i {
        if |c| > 1 {
          FrontDominated(w, events, lo, i, s, c);
        }
        ChainAdvances(w, events, lo, i, s, c);
      } else if |c| > 1 {
        ChainFront(w, events, lo, c);
        assert c[..1][0] <= s.last[0] by { assert c[0] < i; }
      }
    }
  }

  // ---- What the sweep completes is a match --------------------------------------------------

  /** Some chain under the total bound `tot` backs the recorded completion of step k. */
  ghost predicate BackedAt(w: Window, events: seq<Event>, lo: int, s: Sweep, tot: int, k: nat)
    requires k < |s.last| == |s.prev|
  {
    exists c :: ValidChain(w.(total := tot), events, lo, c) && |c| == k + 1 && c[k] == s.last[k]
                && (k > 0 ==> c[k - 1] == s.prev[k])
  }

  ghost predicate Backed(w: Window, events: seq<Event>, lo: int, s: Sweep, tot: int) {
    && |s.last| == |s.prev|
    && forall k :: 0 <= k < |s.last| && s.last[k] >= 0 ==> BackedAt(w, events, lo, s, tot, k)
  }

  lemma ExtendChain(w: Window, events: seq<Event>, lo: int, c: seq<int>, i: nat)
    requires ValidChain(w, events, lo, c) && |c| < |w.pattern| && c[|c| - 1] < i < |events|
    requires events[i].eventID == w.pattern[|c|] && Gap(events, c[|c| - 1], i) <= w.within
    requires w.total > 0 ==> Gap(events, c[0], i) <= w.total
    ensures ValidChain(w, events, lo, c + [i])
  {
  }

  /** Completions stay backed by chains within the window; and, for sequences of at most three steps, by
      chains that also keep the total bound. */
  lemma BackedStep(w: Window, events: seq<Event>, lo: nat, i: nat, s: Sweep, tot: int, k: nat)
    requires i < |events| && lo <= i && Fits(w, s, i) && Linked(w, lo, s) && Backed(w, events, lo, s, tot)
    requires tot <= 0 || (tot == w.total && |w.pattern| <= 3)
    requires k < |w.pattern| && Visit(w, events, s, i).last[k] >= 0
    ensures BackedAt(w, events, lo, Visit(w, events, s, i), tot, k)
  {
    var v, u := Visit(w, events, s, i), w.(total := tot);
    if !Advances(w, events, s, i, k) {
      assert BackedAt(w, events, lo, s, tot, k);
      var c :| ValidChain(u, events, lo, c) && |c| == k + 1 && c[k] == s.last[k] && (k > 0 ==> c[k - 1] == s.prev[k]);
      assert c[k] == v.last[k] && (k > 0 ==> c[k - 1] == v.prev[k]);
    } else if k == 0 {
      assert ValidChain(u, events, lo, [i]) && [i][0] == v.last[0];
    } else {
      AdvanceIsBacked(w, events, lo, i, s, tot, k);
    }
  }

  /** A step that advances extends the chain behind the step before. */
  lemma AdvanceIsBacked(w: Window, events: seq<Event>, lo: nat, i: nat, s: Sweep, tot: int, k: nat)
    requires i < |events| && lo <= i && Fits(w, s, i) && Linked(w, lo, s) && Backed(w, events, lo, s, tot)
    requires tot <= 0 || (tot == w.total && |w.pattern| <= 3)
    requires 0 < k < |w.pattern| && Advances(w, events, s, i, k)
    ensures BackedAt(w, events, lo, Visit(w, events, s, i), tot, k)
  {
    var v, u := Visit(w, events, s, i), w.(total := tot);
    assert BackedAt(w, events, lo, s, tot, k - 1);
    var c :| ValidChain(u, events, lo, c) && |c| == k && c[k - 1] == s.last[k - 1] && (k > 1 ==> c[k - 2] == s.prev[k - 1]);
    AnchorIsFirstParent(w, lo, s, k - 1, s.last[k - 1]);
    ExtendChain(u, events, lo, c, i);
    assert (c + [i])[k - 1] == v.prev[k];
  }

  lemma AllBackedStep(w: Window, events: seq<Event>, lo: nat, i: nat, s: Sweep, tot: int)
    requires i < |events| && lo <= i && Fits(w, s, i) && Linked(w, lo, s) && Backed(w, events, lo, s, tot)
    requires tot <= 0 || (tot == w.total && |w.pattern| <= 3)
    ensures Backed(w, events, lo, Visit(w, events, s, i), tot)
  {
    var v := Visit(w, events, s, i);
    forall k | 0 <= k < |v.last| && v.last[k] >= 0 ensures BackedAt(w, events, lo, v, tot, k) {
      BackedStep(w, events, lo, i, s, tot, k);
    }
  }

  /** Everything that holds of the sweep between two events. */
  ghost predicate Sound(w: Window, events: seq<Event>, i: nat, r: Run)
    requires Fits(w, r.state, i)
  {
    && Linked(w, r.start, r.state)
    && Dominates(w, events, r.start, i, r.state)
    && Backed(w, events, r.start, r.state, 0)
    && (|w.pattern| <= 3 ==> Backed(w, events, r.start, r.state, w.total))
  }

  lemma ClearedIsSound(w: Window, events: seq<Event>, i: nat, chains: seq<seq<int>>)
    ensures Sound(w, events, i, Run(Cleared(|w.pattern|), i, chains))
  {
  }

  lemma SoundStep(w: Window, events: seq<Event>, i: nat, r: Run)
    requires w.pattern != [] && Chronological(events) && i < |events| && r.start <= i
    requires Fits(w, r.state, i) && Sound(w, events, i, r)
    ensures Sound(w, events, i + 1, RunNext(w, events, r, i))
  {
    hide BackedAt, Backed, Dominates, ValidChain, Advances, Linked;
    ClearedIsSound(w, events, i + 1, RunNext(w, events, r, i).chains);
    LinkedStep(w, events, r.start, i, r.state);
    DominatesStep(w, events, r.start, i, r.state);
    AllBackedStep(w, events, r.start, i, r.state, 0);
    if |w.pattern| <= 3 {
      AllBackedStep(w, events, r.start, i, r.state, w.total);
    }
  }

  lemma {:induction false} RunIsSound(w: Window, events: seq<Event>, i: nat)
    requires w.pattern != [] && Chronological(events) && i <= |events|
    ensures Sound(w, events, i, RunTo(w, events, i))
  {
    hide Sound, RunNext;
    if i == 0 {
      ClearedIsSound(w, events, 0, []);
    } else {
      RunIsSound(w, events, i - 1);
      SoundStep(w, events, i - 1, RunTo(w, events, i - 1));
    }
  }

  /** No match is missed, whatever the bounds: if some chain after the previous completion ends on event i,
      the sweep completes there. */
  lemma NeverMisses(w: Window, events: seq<Event>, i: nat)
    requires w.pattern != [] && Chronological(events) && i < |events|
    requires MatchEndsAt(w, events, RunTo(w, events, i).start, i)
    ensures Completes(w, events, i)
  {
    RunIsSound(w, events, i);
    var r := RunTo(w, events, i);
    var c :| ValidChain(w, events, r.start, c) && |c| == |w.pattern| && c[|c| - 1] == i;
    if |c| > 1 {
      FrontDominated(w, events, r.start, i, r.state, c);
    }
    ChainAdvances(w, events, r.start, i, r.state, c);
  }

  lemma CompletionIsBacked(w: Window, events: seq<Event>, i: nat, tot: int)
    requires w.pattern != [] && Chronological(events) && i < |events| && Completes(w, events, i)
    requires tot == 0 || (tot == w.total && |w.pattern| <= 3)
    ensures MatchEndsAt(w.(total := tot), events, RunTo(w, events, i).start, i)
  {
    var r, k := RunTo(w, events, i), |w.pattern| - 1;
    assert Linked(w, r.start, r.state) && Backed(w, events, r.start, r.state, tot) by {
      RunIsSound(w, events, i);
    }
    AllBackedStep(w, events, r.start, i, r.state, tot);
    assert BackedAt(w, events, r.start, Visit(w, events, r.state, i), tot, k);
  }

  /** A chain of k+1 events spans at most k windows. */
  lemma {:induction false} SpanBound(w: Window, events: seq<Event>, lo: int, c: seq<int>, k: nat)
    requires ValidChain(w.(total := 0), events, lo, c) && k < |c|
    ensures Gap(events, c[0], c[k]) <= k * w.within
  {
    if k > 0 {
      SpanBound(w, events, lo, c, k - 1);
    }
  }

  // ---- When the sweep is exact ---------------------------------------------------------------

  /** The total bound is absent, cannot bind, or the sequence is short enough to track it. */
  predicate BoundIsTracked(n: nat, within: int, total: int) {
    n <= 3 || total <= 0 || (n - 1) * within <= total
  }

  ghost predicate ExactOn(w: Window, events: seq<Event>)
    requires w.pattern != []
  {
    forall i: nat :: i < |events| ==> (Completes(w, events, i) <==> MatchEndsAt(w, events, RunTo(w, events, i).start, i))
  }

  lemma CompletionIsMatch(w: Window, events: seq<Event>, i: nat)
    requires w.pattern != [] && Chronological(events) && i < |events| && Completes(w, events, i)
    requires BoundIsTracked(|w.pattern|, w.within, w.total)
    ensures MatchEndsAt(w, events, RunTo(w, events, i).start, i)
  {
    if |w.pattern| <= 3 {
      CompletionIsBacked(w, events, i, w.total);
      assert w.(total := w.total) == w;
    } else {
      CompletionIsBacked(w, events, i, 0);
      var lo := RunTo(w, events, i).start;
      var c :| ValidChain(w.(total := 0), events, lo, c) && |c| == |w.pattern| && c[|c| - 1] == i;
      LooseBoundHolds(w, events, lo, c);
    }
  }

  lemma LooseBoundHolds(w: Window, events: seq<Event>, lo: int, c: seq<int>)
    requires ValidChain(w.(total := 0), events, lo, c) && |c| == |w.pattern|
    requires w.total <= 0 || (|w.pattern| - 1) * w.within <= w.total
    ensures ValidChain(w, events, lo, c)
  {
    assert w.total > 0 ==> Gap(events, c[0], c[|c| - 1]) <= w.total by {
      SpanBound(w, events, lo, c, |c| - 1);
    }
  }

  /** One latest completion per step suffices: the sweep completes on an event exactly when some chain
      after the previous completion ends there. */
  lemma SweepIsExact(w: Window, events: seq<Event>)
    requires w.pattern != [] && Chronological(events) && BoundIsTracked(|w.pattern|, w.within, w.total)
    ensures ExactOn(w, events)
  {
    forall i: nat | i < |events| && Completes(w, events, i) ensures MatchEndsAt(w, events, RunTo(w, events, i).start, i) {
      CompletionIsMatch(w, events, i);
    }
    forall i: nat | i < |events| && MatchEndsAt(w, events, RunTo(w, events, i).start, i) ensures Completes(w, events, i) {
      NeverMisses(w, events, i);
    }
  }

  lemma {:induction false} ChainsOnlyGrow(w: Window, events: seq<Event>, i: nat, j: nat)
    requires w.pattern != [] && i <= j <= |events|
    ensures RunTo(w, events, i).chains <= RunTo(w, events, j).chains
    decreases j
  {
    if i < j {
      hide RunNext, Fits;
      ChainsOnlyGrow(w, events, i, j - 1);
      NextOnlyAdds(w, events, RunTo(w, events, j - 1), j - 1);
    }
  }

  lemma NextOnlyAdds(w: Window, events: seq<Event>, r: Run, i: nat)
    requires w.pattern != [] && i < |events| && Fits(w, r.state, i) && r.start <= i
    ensures r.chains <= RunNext(w, events, r, i).chains
  {
    hide Visit, WalkBack;
  }

  // ---- The sweep as it runs ------------------------------------------------------------------

  /** The steps among the first upTo that carry an id: exactly those, in ascending order. */
  ghost predicate StepsOf(pattern: seq<string>, id: string, steps: seq<nat>, upTo: nat)
    requires upTo <= |pattern|
  {
    && (forall k :: 0 <= k < |steps| ==> steps[k] < upTo && pattern[steps[k]] == id)
    && (forall j, k :: 0 <= j < k < |steps| ==> steps[j] < steps[k])
    && (forall t :: 0 <= t < upTo && pattern[t] == id ==> t in steps)
  }

  function Lookup(m: map<string, seq<nat>>, id: string): seq<nat> {
    if id in m then m[id] else []
  }

  lemma StepsOfNext(pattern: seq<string>, id: string, steps: seq<nat>, s: nat)
    requires s < |pattern| && StepsOf(pattern, id, steps, s)
    ensures StepsOf(pattern, id, if pattern[s] == id then steps + [s] else steps, s + 1)
  {
    var more := if pattern[s] == id then steps + [s] else steps;
    forall t | 0 <= t < s + 1 && pattern[t] == id ensures t in more {
      if t == s {
        assert more[|steps|] == s;
      } else {
        var j :| 0 <= j < |steps| && steps[j] == t;
        assert more[j] == t;
      }
    }
  }

  /** The steps each event id can satisfy. */
  method StepsFor(pattern: seq<string>) returns (m: map<string, seq<nat>>)
    ensures forall id :: StepsOf(pattern, id, Lookup(m, id), |pattern|)
  {
    m := map[];
    assert forall id :: StepsOf(pattern, id, Lookup(m, id), 0);
    hide StepsOf;
    for s := 0 to |pattern|
      invariant forall id :: StepsOf(pattern, id, Lookup(m, id), s)
    {
      ghost var before := m;
      m := m[pattern[s] := Lookup(m, pattern[s]) + [s]];
      forall id ensures StepsOf(pattern, id, Lookup(m, id), s + 1) {
        StepsOfNext(pattern, id, Lookup(before, id), s);
      }
    }
  }

  method Anchor(prev: array<int>, step: nat, at: int) returns (idx: int)
    requires step < prev.Length
    ensures idx == AnchorOf(prev[..], step, at)
  {
    idx := at;
    var s := step;
    while s > 0
      invariant 0 <= s < prev.Length
      invariant AnchorOf(prev[..], step, at) == AnchorOf(prev[..], s, idx)
    {
      var p := prev[s];
      if p < 0 {
        break;
      }
      idx := p;
      s := s - 1;
    }
  }

  method ReadBack(prev: array<int>, end: int) returns (matched: seq<int>)
    requires prev.Length > 0
    ensures matched == WalkBack(prev[..], end)
  {
    var slots := new int[prev.Length];
    slots[prev.Length - 1] := end;
    var s := prev.Length - 1;
    while s > 0
      invariant 0 <= s < prev.Length
      invariant slots[prev.Length - 1] == end
      invariant forall k :: s <= k < prev.Length - 1 ==> slots[k] == prev[k + 1]
    {
      slots[s - 1] := prev[s];
      s := s - 1;
    }
    matched := slots[..];
  }

  method Reset(last: array<int>, prev: array<int>)
    requires last != prev && last.Length == prev.Length
    modifies last, prev
    ensures last[..] == Cleared(last.Length).last && prev[..] == Cleared(last.Length).prev
  {
    for s := 0 to last.Length
      invariant forall k :: 0 <= k < s ==> last[k] == prev[k] == -1
    {
      last[s], prev[s] := -1, -1;
    }
  }

  /** Steps `bound` and up already show the state after event i; the ones below still show the state before. */
  ghost predicate Halfway(last: seq<int>, prev: seq<int>, s: Sweep, v: Sweep, bound: int) {
    && |last| == |prev| == |s.last| == |s.prev| == |v.last| == |v.prev|
    && (forall k :: 0 <= k < |last| ==> last[k] == if k < bound then s.last[k] else v.last[k])
    && (forall k :: 0 <= k < |prev| ==> prev[k] == if k < bound then s.prev[k] else v.prev[k])
  }

  /** Moves step t to event i if the event completes it. */
  method TryStep(w: Window, events: seq<Event>, i: nat, t: nat, last: array<int>, prev: array<int>, ghost s: Sweep)
    requires i < |events| && Fits(w, s, i) && t < |w.pattern| && w.pattern[t] == events[i].eventID
    requires last != prev && last.Length == prev.Length == |w.pattern|
    requires last[..t] == s.last[..t] && prev[..t] == s.prev[..t] && last[t] == s.last[t] && prev[t] == s.prev[t]
    modifies last, prev
    ensures var v := Visit(w, events, s, i);
            last[..] == old(last[..])[t := v.last[t]] && prev[..] == old(prev[..])[t := v.prev[t]]
  {
    if t == 0 {
      last[0], prev[0] := i, -1;
      return;
    }
    var j := last[t - 1];
    assert j == last[..t][t - 1] == s.last[t - 1];
    if j < 0 {
      return;
    }
    if events[i].timestamp - events[j].timestamp > w.within {
      return;
    }
    if w.total > 0 {
      AnchorLocal(prev[..], s.prev, t - 1, j);
      AnchorBelow(s.prev, t - 1, j, i);
      var a := Anchor(prev, t - 1, j);
      if events[i].timestamp - events[a].timestamp > w.total {
        return;
      }
    }
    last[t], prev[t] := i, j;
  }

  /** The lowest step already visited once k entries of the step list are left. */
  ghost function Bound(steps: seq<nat>, k: nat, n: nat): nat {
    if k < |steps| then steps[k] else n
  }

  /** Steps between two entries of an event's step list are not touched by it. */
  lemma SkipSteps(w: Window, events: seq<Event>, i: nat, steps: seq<nat>, s: Sweep, k: nat, last: seq<int>, prev: seq<int>)
    requires i < |events| && Fits(w, s, i) && k <= |steps| && StepsOf(w.pattern, events[i].eventID, steps, |w.pattern|)
    requires Halfway(last, prev, s, Visit(w, events, s, i), Bound(steps, k, |w.pattern|))
    ensures Halfway(last, prev, s, Visit(w, events, s, i), if k == 0 then 0 else steps[k - 1] + 1)
  {
    var lo := if k == 0 then 0 else steps[k - 1] + 1;
    assert forall t :: lo <= t < Bound(steps, k, |w.pattern|) ==> t !in steps;
  }

  lemma HalfwayStep(s: Sweep, v: Sweep, last: seq<int>, prev: seq<int>, t: nat)
    requires Halfway(last, prev, s, v, t + 1) && t < |last|
    ensures last[..t] == s.last[..t] && prev[..t] == s.prev[..t] && last[t] == s.last[t] && prev[t] == s.prev[t]
    ensures Halfway(last[t := v.last[t]], prev[t := v.prev[t]], s, v, t)
  {
  }

  /** Applies one event to the sweep, descending through the steps its id can satisfy. */
  method Descend(w: Window, events: seq<Event>, i: nat, steps: seq<nat>, last: array<int>, prev: array<int>, ghost s: Sweep)
    requires i < |events| && Fits(w, s, i) && StepsOf(w.pattern, events[i].eventID, steps, |w.pattern|)
    requires last != prev && last[..] == s.last && prev[..] == s.prev
    modifies last, prev
    ensures last[..] == Visit(w, events, s, i).last && prev[..] == Visit(w, events, s, i).prev
  {
    ghost var v := Visit(w, events, s, i);
    var k := |steps|;
    while k > 0
      invariant 0 <= k <= |steps|
      invariant Halfway(last[..], prev[..], s, v, Bound(steps, k, |w.pattern|))
    {
      SkipSteps(w, events, i, steps, s, k, last[..], prev[..]);
      k := k - 1;
      HalfwayStep(s, v, last[..], prev[..], steps[k]);
      TryStep(w, events, i, steps[k], last, prev, s);
    }
    SkipSteps(w, events, i, steps, s, 0, last[..], prev[..]);
  }

  method VisitEvent(w: Window, events: seq<Event>, i: nat, stepsFor: map<string, seq<nat>>,
                    last: array<int>, prev: array<int>, ghost s: Sweep)
    requires i < |events| && Fits(w, s, i) && forall id :: StepsOf(w.pattern, id, Lookup(stepsFor, id), |w.pattern|)
    requires last != prev && last[..] == s.last && prev[..] == s.prev
    modifies last, prev
    ensures last[..] == Visit(w, events, s, i).last && prev[..] == Visit(w, events, s, i).prev
  {
    var steps := Lookup(stepsFor, events[i].eventID);
    assert StepsOf(w.pattern, events[i].eventID, steps, |w.pattern|);
    if |steps| == 0 {
      NoStep(w, events, s, i);
      return;
    }
    Descend(w, events, i, steps, last, prev, s);
  }

  lemma {:induction false} AnchorLocal(p: seq<int>, q: seq<int>, step: nat, at: int)
    requires step < |p| == |q| && forall k :: 0 <= k <= step ==> p[k] == q[k]
    ensures AnchorOf(p, step, at) == AnchorOf(q, step, at)
    decreases step
  {
    if step > 0 && p[step] >= 0 {
      AnchorLocal(p, q, step - 1, p[step]);
    }
  }

  ghost predicate Readable(w: Window, events: seq<Event>, r: Run) {
    Linked(w, r.start, r.state) && Chains(events, r.chains)
  }

  lemma ReadableStep(w: Window, events: seq<Event>, i: nat, r: Run)
    requires w.pattern != [] && i < |events| && Fits(w, r.state, i) && r.start <= i && Readable(w, events, r)
    ensures Readable(w, events, RunNext(w, events, r, i))
    ensures var v := Visit(w, events, r.state, i);
            v.last[|w.pattern| - 1] == i ==> InRange(WalkBack(v.prev, i), |events|)
  {
    hide Chains;
    var v := Visit(w, events, r.state, i);
    LinkedStep(w, events, r.start, i, r.state);
    if v.last[|w.pattern| - 1] == i {
      ReadBackInRange(w, r.start, v, i);
      ChainsOne(events, r.chains, WalkBack(v.prev, i));
    }
  }

  lemma ClearedIsReadable(w: Window, events: seq<Event>)
    ensures Readable(w, events, Run(Cleared(|w.pattern|), 0, []))
  {
  }

  lemma {:induction false} RunIsReadable(w: Window, events: seq<Event>, i: nat)
    requires w.pattern != [] && i <= |events|
    ensures Readable(w, events, RunTo(w, events, i))
  {
    hide Readable, RunNext;
    if i == 0 {
      ClearedIsReadable(w, events);
    } else {
      RunIsReadable(w, events, i - 1);
      ReadableStep(w, events, i - 1, RunTo(w, events, i - 1));
    }
  }

  lemma ChainsOne(events: seq<Event>, chains: seq<seq<int>>, m: seq<int>)
    requires Chains(events, chains) && m != [] && InRange(m, |events|)
    ensures Chains(events, chains + [m])
  {
  }

  lemma ReadBackInRange(w: Window, lo: nat, v: Sweep, end: nat)
    requires w.pattern != [] && Linked(w, lo, v) && v.last[|w.pattern| - 1] == end
    requires forall k :: 0 <= k < |v.prev| ==> v.prev[k] <= end
    ensures InRange(WalkBack(v.prev, end), end + 1)
  {
    LowerStepsDone(w, lo, v, |w.pattern| - 1);
  }

  lemma {:induction false} LowerStepsDone(w: Window, lo: nat, v: Sweep, k: nat)
    requires Linked(w, lo, v) && k < |v.last| && v.last[k] >= 0
    ensures forall j :: 0 < j <= k ==> lo <= v.prev[j]
  {
    if k > 0 {
      LowerStepsDone(w, lo, v, k - 1);
    }
  }

  lemma RunStep(w: Window, events: seq<Event>, i: nat)
    requires w.pattern != [] && i < |events|
    ensures var r := RunTo(w, events, i);
            var v := Visit(w, events, r.state, i);
            && Chains(events, r.chains)
            && (v.last[|w.pattern| - 1] != i ==> RunTo(w, events, i + 1) == r.(state := v))
            && (v.last[|w.pattern| - 1] == i ==>
                  && InRange(WalkBack(v.prev, i), |events|)
                  && RunTo(w, events, i + 1) == Run(Cleared(|w.pattern|), i + 1, r.chains + [WalkBack(v.prev, i)]))
  {
    hide Chains, Linked;
    RunIsReadable(w, events, i);
    ReadableStep(w, events, i, RunTo(w, events, i));
  }

  /** Whatever a sweep holds was put there by an event of the step it stands for. */
  ghost predicate Spelled(w: Window, events: seq<Event>, s: Sweep) {
    && |s.last| == |s.prev| == |w.pattern|
    && forall k :: 0 <= k < |w.pattern| && s.last[k] >= 0 ==> SpelledAt(w, events, s, k)
  }

  ghost predicate SpelledAt(w: Window, events: seq<Event>, s: Sweep, k: nat)
    requires k < |s.last| == |s.prev| == |w.pattern|
  {
    && s.last[k] < |events| && (s.last[k] >= 0 ==> events[s.last[k]].eventID == w.pattern[k])
    && (k > 0 ==> 0 <= s.prev[k] < |events| && events[s.prev[k]].eventID == w.pattern[k - 1] && s.last[k - 1] >= 0)
  }

  lemma SpelledStep(w: Window, events: seq<Event>, i: nat, s: Sweep)
    requires i < |events| && Fits(w, s, i) && Spelled(w, events, s)
    ensures Spelled(w, events, Visit(w, events, s, i))
  {
    var v := Visit(w, events, s, i);
    assert |v.last| == |v.prev| == |w.pattern|;
    hide Visit, Advances, Fits, SpelledAt;
    forall k | 0 <= k < |w.pattern| && v.last[k] >= 0 ensures SpelledAt(w, events, v, k) {
      SpelledStepAt(w, events, i, s, k);
    }
  }

  lemma SpelledStepAt(w: Window, events: seq<Event>, i: nat, s: Sweep, k: nat)
    requires i < |events| && Fits(w, s, i) && Spelled(w, events, s)
    requires k < |w.pattern| && Visit(w, events, s, i).last[k] >= 0
    ensures SpelledAt(w, events, Visit(w, events, s, i), k)
  {
    var v := Visit(w, events, s, i);
    if k > 0 {
      assert v.last[k - 1] == i || v.last[k - 1] == s.last[k - 1];
      if Advances(w, events, s, i, k) {
        assert s.last[k - 1] >= 0 && SpelledAt(w, events, s, k - 1);
      } else {
        assert SpelledAt(w, events, s, k);
      }
    }
  }

  lemma {:induction false} ChainIsSpelled(w: Window, events: seq<Event>, v: Sweep, k: nat)
    requires Spelled(w, events, v) && k < |w.pattern| && v.last[k] >= 0
    ensures forall j :: 0 < j <= k ==> SpelledAt(w, events, v, j)
  {
    if k > 0 {
      assert SpelledAt(w, events, v, k);
      ChainIsSpelled(w, events, v, k - 1);
    }
  }

  /** Every chain reported picks one event for each step, of that step's id. */
  ghost predicate AllSpelled(w: Window, events: seq<Event>, chains: seq<seq<int>>) {
    forall c :: 0 <= c < |chains| ==> ChainSpelled(w, events, chains[c])
  }

  ghost predicate ChainSpelled(w: Window, events: seq<Event>, c: seq<int>) {
    |c| == |w.pattern| && forall k :: 0 <= k < |c| ==> 0 <= c[k] < |events| && events[c[k]].eventID == w.pattern[k]
  }

  lemma ReadBackIsSpelled(w: Window, events: seq<Event>, v: Sweep, i: nat)
    requires w.pattern != [] && i < |events| && Spelled(w, events, v) && v.last[|w.pattern| - 1] == i
    ensures ChainSpelled(w, events, WalkBack(v.prev, i))
  {
    var n := |w.pattern|;
    ChainIsSpelled(w, events, v, n - 1);
    assert SpelledAt(w, events, v, n - 1);
    var c := WalkBack(v.prev, i);
    forall k | 0 <= k < n ensures 0 <= c[k] < |events| && events[c[k]].eventID == w.pattern[k] {
      if k < n - 1 {
        assert c[k] == v.prev[k + 1] && SpelledAt(w, events, v, k + 1);
      }
    }
  }

  lemma OneMoreSpelled(w: Window, events: seq<Event>, chains: seq<seq<int>>, c: seq<int>)
    requires AllSpelled(w, events, chains) && ChainSpelled(w, events, c)
    ensures AllSpelled(w, events, chains + [c])
  {
  }

  lemma ClearedIsSpelled(w: Window, events: seq<Event>)
    ensures Spelled(w, events, Cleared(|w.pattern|)) && AllSpelled(w, events, [])
  {
  }

  lemma {:induction false} RunIsSpelled(w: Window, events: seq<Event>, i: nat)
    requires w.pattern != [] && i <= |events|
    ensures Spelled(w, events, RunTo(w, events, i).state) && AllSpelled(w, events, RunTo(w, events, i).chains)
  {
    ClearedIsSpelled(w, events);
    hide Spelled, AllSpelled, ChainSpelled, WalkBack, Cleared;
    if i > 0 {
      RunIsSpelled(w, events, i - 1);
      var r := RunTo(w, events, i - 1);
      var v := Visit(w, events, r.state, i - 1);
      SpelledStep(w, events, i - 1, r.state);
      if v.last[|w.pattern| - 1] == i - 1 {
        ReadBackIsSpelled(w, events, v, i - 1);
        OneMoreSpelled(w, events, r.chains, WalkBack(v.prev, i - 1));
      }
    }
  }

  /** What a sweep adds to a result: whole runs, one for each match, of relations that join two events of their step. */
  ghost predicate Adds(spec: Spec, events: seq<Event>, was: seq<Relation>, now: seq<Relation>) {
    && was <= now && WholeRuns(now[|was|..], |spec.sequence|)
    && forall r :: r in now[|was|..] ==> JoinsSome(spec, events, r)
  }

  lemma SweepAdds(spec: Spec, w: Window, events: seq<Event>, t: Tally, chains: seq<seq<int>>, cap: nat)
    requires |spec.sequence| >= 2 && w.pattern == spec.sequence && Chains(events, chains) && AllSpelled(w, events, chains)
    ensures Adds(spec, events, t.relations, Absorb(spec, events, t, chains, cap).relations)
  {
    assert AllSpell(spec, events, chains);
    hide Absorb, WholeRuns, Joins, AllSpell, AllSpelled, Chains;
    var more := AbsorbJoins(spec, events, t, chains, cap);
    assert (t.relations + more)[|t.relations|..] == more;
    forall r | r in more ensures JoinsSome(spec, events, r) {
      var c, k :| 0 <= c < |chains| && 0 <= k < |chains[c]| - 1 && Joins(spec, events, r, chains[c][k], chains[c][k + 1]);
    }
  }

  /** The arrays hold the sweep's state after i events. */
  ghost predicate Shows(w: Window, events: seq<Event>, i: nat, last: array<int>, prev: array<int>)
    requires w.pattern != [] && i <= |events|
    reads last, prev
  {
    last[..] == RunTo(w, events, i).state.last && prev[..] == RunTo(w, events, i).state.prev
  }

  /** Sweeps one chronologically ordered partition, recording every non-overlapping completion. */
  method MatchWindowed(spec: Spec, events: seq<Event>, within: int, total: int, cap: nat, res: Result)
    requires spec.sequence != []
    modifies res
    ensures var run := RunTo(Window(spec.sequence, within, total), events, |events|);
            Chains(events, run.chains) && res.GetTally() == Absorb(spec, events, old(res.GetTally()), run.chains, cap)
    ensures |spec.sequence| >= 2 ==> Adds(spec, events, old(res.relations), res.relations)
    ensures res.skippedNoKeys == old(res.skippedNoKeys) && res.unresolvedParents == old(res.unresolvedParents)
  {
    var w, n := Window(spec.sequence, within, total), |spec.sequence|;
    var stepsFor := StepsFor(spec.sequence);
    var last, prev := new int[n], new int[n];
    Reset(last, prev);
    ghost var tally := res.GetTally();
    for i := 0 to |events|
      invariant Shows(w, events, i, last, prev)
      invariant Chains(events, RunTo(w, events, i).chains)
      invariant res.GetTally() == Absorb(spec, events, tally, RunTo(w, events, i).chains, cap)
      invariant res.skippedNoKeys == old(res.skippedNoKeys) && res.unresolvedParents == old(res.unresolvedParents)
    {
      VisitEvent(w, events, i, stepsFor, last, prev, RunTo(w, events, i).state);
      SettleEvent(spec, w, events, i, last, prev, cap, res, tally);
    }
    RunIsSpelled(w, events, |events|);
    if n >= 2 {
      SweepAdds(spec, w, events, tally, RunTo(w, events, |events|).chains, cap);
    }
  }

  /** Records the occurrence that event i finishes, if it finishes one, and clears the sweep after it. */
  method SettleEvent(spec: Spec, w: Window, events: seq<Event>, i: nat, last: array<int>, prev: array<int>,
                     cap: nat, res: Result, ghost tally: Tally)
    requires w.pattern != [] && i < |events| && last != prev && last.Length == prev.Length == |w.pattern|
    requires var v := Visit(w, events, RunTo(w, events, i).state, i); last[..] == v.last && prev[..] == v.prev
    requires Chains(events, RunTo(w, events, i).chains)
    requires res.GetTally() == Absorb(spec, events, tally, RunTo(w, events, i).chains, cap)
    modifies res, last, prev
    ensures Shows(w, events, i + 1, last, prev) && Chains(events, RunTo(w, events, i + 1).chains)
    ensures res.GetTally() == Absorb(spec, events, tally, RunTo(w, events, i + 1).chains, cap)
    ensures res.skippedNoKeys == old(res.skippedNoKeys) && res.unresolvedParents == old(res.unresolvedParents)
  {
    RunStep(w, events, i);
    if last[last.Length - 1] != i {
      return;
    }
    var matched := ReadBack(prev, i);
    AbsorbOne(spec, events, tally, RunTo(w, events, i).chains, matched, cap);
    res.Record(spec, events, matched, cap);
    Reset(last, prev);
  }

  lemma NoStep(w: Window, events: seq<Event>, s: Sweep, i: nat)
    requires i < |events| && Fits(w, s, i) && events[i].eventID !in w.pattern
    ensures Visit(w, events, s, i) == s
  {
  }
}
