/** Where the one-pass sweep stops being exact, and where the chain it reports is a match. */
module WindowLimits {
  import opened Correlation
  import opened WindowSweep

  // Each step keeps a single parent, and later events overwrite it. Two things the sweep reads back through those
  // parents hold only within limits: the end-to-end bound, and the chain of events a match is reported with. Both
  // limits are stated as equivalences.

  // ---- The end-to-end bound ------------------------------------------------------------------

  /** The steps as far apart as the window allows, up to the total bound. */
  function Pace(w: Window, k: nat): int {
    if k * w.within < w.total then k * w.within else w.total
  }

  /** The sequence spells its own first two steps again just before its last one. */
  predicate Renews(p: seq<string>)
    requires |p| >= 4
  {
    p[|p| - 3] == p[0] && p[|p| - 2] == p[1]
  }

  /** The sequence, and unless it renews itself, its first two steps once more just before the last. */
  function LostIds(p: seq<string>): seq<string>
    requires |p| >= 4
  {
    if Renews(p) then p else p[..|p| - 1] + [p[0], p[1], p[|p| - 1]]
  }

  /** They happen at that pace from time 1 on, the sequence's last step and the repeated first ones one unit past the bound. */
  function LostLog(w: Window): (events: seq<Event>)
    requires |w.pattern| >= 4
    ensures |events| == |LostIds(w.pattern)|
  {
    var ids := LostIds(w.pattern);
    seq(|ids|, i requires 0 <= i < |ids| =>
      Event(i, ids[i], 1 + if i < |w.pattern| - 1 then Pace(w, i) else w.total + 1, []))
  }

  /** A bound that can bind, for four steps or more. */
  predicate CanBind(w: Window) {
    |w.pattern| >= 4 && 0 < w.within && 0 < w.total < (|w.pattern| - 1) * w.within
  }

  lemma PaceSteps(w: Window, k: nat)
    requires CanBind(w) && k + 1 < |w.pattern|
    ensures Pace(w, k) <= Pace(w, k + 1) <= Pace(w, k) + w.within && Pace(w, k) <= w.total && Pace(w, k + 1) >= 1
    ensures k + 2 == |w.pattern| ==> w.total + 1 - Pace(w, k) <= w.within
  {
    assert (k + 1) * w.within == k * w.within + w.within && k * w.within >= 0;
  }

  /** What the sweep needs to know of the log's times. */
  lemma LostTime(w: Window, i: nat)
    requires CanBind(w) && i < |LostLog(w)|
    ensures var n, e := |w.pattern|, LostLog(w); var t := e[i].timestamp - 1;
            && (i == 0 ==> t == 0) && (i > 0 ==> t >= 1) && 0 <= t <= w.total + 1
            && (t == w.total + 1 <==> i >= n - 1)
            && (i < n - 1 ==> Gap(e, i, i + 1) <= w.within)
  {
    if i < |w.pattern| - 1 {
      PaceSteps(w, i);
    }
    if 0 < i < |w.pattern| - 1 {
      PaceSteps(w, i - 1);
    }
  }

  lemma LostLogIsChronological(w: Window)
    requires CanBind(w)
    ensures Chronological(LostLog(w))
  {
    forall i, j | 0 <= i <= j < |LostLog(w)| ensures LostLog(w)[i].timestamp <= LostLog(w)[j].timestamp {
      LostTime(w, i);
      LostTime(w, j);
      PaceGrows(w, i, j);
    }
  }

  lemma PaceGrows(w: Window, i: nat, j: nat)
    requires 0 < w.within && i <= j
    ensures Pace(w, i) <= Pace(w, j)
  {
    assert j * w.within == i * w.within + (j - i) * w.within && (j - i) * w.within >= 0;
  }

  /** A chain's positions are at least as far apart as its steps. */
  lemma {:induction false} Spread(c: seq<int>, i: nat, j: nat)
    requires Increasing(c) && i <= j < |c|
    ensures c[j] - c[i] >= j - i
    decreases j
  {
    if i < j {
      Spread(c, i, j - 1);
    }
  }

  /** Whatever spells the sequence in these ids takes in the first of them and one from the last step on. */
  lemma LostChainIsWhole(p: seq<string>, c: seq<int>)
    requires |p| == |c| >= 4 && Increasing(c) && InRange(c, |LostIds(p)|)
    requires forall k :: 0 <= k < |c| ==> LostIds(p)[c[k]] == p[k]
    ensures c[0] == 0 && c[|c| - 1] >= |p| - 1
  {
    Spread(c, 0, |p| - 1);
    if !Renews(p) && c[0] >= 1 {
      LateChainRenews(p, c);
    }
  }

  lemma LateChainRenews(p: seq<string>, c: seq<int>)
    requires |p| == |c| >= 4 && Increasing(c) && InRange(c, |p| + 2) && c[0] >= 1
    requires forall k :: 0 <= k < |c| ==> (p[..|p| - 1] + [p[0], p[1], p[|p| - 1]])[c[k]] == p[k]
    ensures Renews(p)
  {
    var n := |p|;
    forall k | 0 <= k < n ensures k + 1 <= c[k] <= k + 2 {
      Spread(c, 0, k);
      Spread(c, k, n - 1);
    }
    if c[n - 3] == n - 2 {
      forall k | 0 <= k < n - 2 ensures p[k] == p[k + 1] {
        Spread(c, k, n - 3);
        assert c[k] == k + 1;
      }
      AllEqual(p, n - 2);
    } else {
      Spread(c, n - 3, n - 2);
      assert c[n - 3] == n - 1 && c[n - 2] == n;
    }
  }

  lemma {:induction false} AllEqual(p: seq<string>, k: nat)
    requires k < |p| && forall i :: 0 <= i < k ==> p[i] == p[i + 1]
    ensures forall i :: 0 <= i <= k ==> p[i] == p[0]
  {
    if k > 0 {
      AllEqual(p, k - 1);
      assert p[k - 1] == p[k];
    }
  }

  lemma LostSpan(w: Window, c: seq<int>)
    requires CanBind(w) && |c| == |w.pattern| && Increasing(c) && InRange(c, |LostLog(w)|)
    requires forall k :: 0 <= k < |c| ==> LostLog(w)[c[k]].eventID == w.pattern[k]
    ensures Gap(LostLog(w), c[0], c[|c| - 1]) == w.total + 1
  {
    assert forall k :: 0 <= k < |c| ==> LostLog(w)[c[k]].eventID == LostIds(w.pattern)[c[k]];
    hide LostIds, LostLog;
    LostChainIsWhole(w.pattern, c);
    LostTime(w, 0);
    LostTime(w, c[|c| - 1]);
  }

  /** As long as nothing completes, each event is visited on what the events before left. */
  lemma SilentStep(w: Window, events: seq<Event>, i: nat)
    requires w.pattern != [] && i < |events| && !Completes(w, events, i)
    ensures RunTo(w, events, i + 1).state == Visit(w, events, RunTo(w, events, i).state, i)
  {
  }

  /** An event of the sequence completes its step, if the one before has just completed the step before. */
  lemma PacedStep(w: Window, k: nat, s: Sweep)
    requires CanBind(w) && k + 1 < |w.pattern| && Fits(w, s, k) && (k > 0 ==> s.last[k - 1] == k - 1)
    ensures Visit(w, LostLog(w), s, k).last[k] == k
  {
    var e := LostLog(w);
    assert e[k].eventID == w.pattern[k];
    if k > 0 {
      AnchorBelow(s.prev, k - 1, s.last[k - 1], k);
      LostTime(w, k - 1);
      LostTime(w, k);
      LostTime(w, AnchorOf(s.prev, k - 1, s.last[k - 1]));
    }
    hide LostLog, AnchorOf, LostIds;
    assert Advances(w, e, s, k, k);
  }

  /** While the sequence is spelled, each of its events completes its own step. */
  lemma {:induction false} PacedRun(w: Window, k: nat)
    requires CanBind(w) && 0 < k < |w.pattern| && forall i :: 0 <= i < k ==> !Completes(w, LostLog(w), i)
    ensures RunTo(w, LostLog(w), k).state.last[k - 1] == k - 1
  {
    hide RunTo, Visit, Completes;
    SilentStep(w, LostLog(w), k - 1);
    if k > 1 {
      PacedRun(w, k - 1);
    }
    PacedStep(w, k - 1, RunTo(w, LostLog(w), k - 1).state);
  }

  /** An event that spells the second step moves the anchor of every later step to the latest first step. */
  lemma AnchorMoves(w: Window, e: seq<Event>, i: nat, s: Sweep)
    requires |w.pattern| > 1 && i < |e| && Fits(w, s, i) && e[i].eventID == w.pattern[1]
    requires s.last[0] >= 0 && Gap(e, s.last[0], i) <= w.within && (w.total > 0 ==> Gap(e, s.last[0], i) <= w.total)
    ensures Visit(w, e, s, i).prev[1] == s.last[0]
  {
    assert Advances(w, e, s, i, 1);
  }

  /** The last step is completed once its predecessor is recent enough and the anchor has moved off event 0. */
  lemma LastCompletes(w: Window, e: seq<Event>, i: nat)
    requires |w.pattern| >= 4 && Chronological(e) && i < |e| && e[i].eventID == w.pattern[|w.pattern| - 1]
    requires var n, s := |w.pattern|, RunTo(w, e, i).state;
             && s.last[n - 2] >= 0 && Gap(e, s.last[n - 2], i) <= w.within
             && s.prev[1] >= 0 && Gap(e, s.prev[1], i) <= w.total
    ensures Completes(w, e, i)
  {
    var n, r := |w.pattern|, RunTo(w, e, i);
    assert Linked(w, r.start, r.state) by {
      RunIsSound(w, e, i);
    }
    AnchorIsFirstParent(w, r.start, r.state, n - 2, r.state.last[n - 2]);
    assert Advances(w, e, r.state, i, n - 1);
  }

  lemma RenewingCompletes(w: Window)
    requires CanBind(w) && Renews(w.pattern) && forall i :: 0 <= i < |w.pattern| - 1 ==> !Completes(w, LostLog(w), i)
    ensures Completes(w, LostLog(w), |w.pattern| - 1)
  {
    hide RunTo, Visit, Advances, Completes;
    var n, e := |w.pattern|, LostLog(w);
    LostLogIsChronological(w);
    LostTime(w, n - 3);
    LostTime(w, n - 2);
    LostTime(w, n - 1);
    PacedRun(w, n - 1);
    FirstIsTaken(w, e, n - 3);
    SilentStep(w, e, n - 3);
    SilentStep(w, e, n - 2);
    AnchorMoves(w, e, n - 2, RunTo(w, e, n - 2).state);
    LastCompletes(w, e, n - 1);
  }

  lemma FirstIsTaken(w: Window, e: seq<Event>, i: nat)
    requires w.pattern != [] && i < |e| && e[i].eventID == w.pattern[0]
    ensures Visit(w, e, RunTo(w, e, i).state, i).last[0] == i
  {
    assert Advances(w, e, RunTo(w, e, i).state, i, 0);
  }

  lemma LastNeverFalls(w: Window, e: seq<Event>, i: nat, s: Sweep, k: nat)
    requires i < |e| && Fits(w, s, i) && k < |w.pattern|
    ensures Visit(w, e, s, i).last[k] >= s.last[k]
  {
  }

  lemma RenewedCompletes(w: Window)
    requires CanBind(w) && !Renews(w.pattern) && forall i :: 0 <= i <= |w.pattern| ==> !Completes(w, LostLog(w), i)
    ensures Completes(w, LostLog(w), |w.pattern| + 1)
  {
    hide RunTo, Visit, Advances, Completes;
    var n, e := |w.pattern|, LostLog(w);
    LostLogIsChronological(w);
    LostTime(w, n - 2);
    LostTime(w, n - 1);
    LostTime(w, n);
    LostTime(w, n + 1);
    PacedRun(w, n - 1);
    FirstIsTaken(w, e, n - 1);
    LastNeverFalls(w, e, n - 1, RunTo(w, e, n - 1).state, n - 2);
    SilentStep(w, e, n - 1);
    AnchorMoves(w, e, n, RunTo(w, e, n).state);
    LastNeverFalls(w, e, n, RunTo(w, e, n).state, n - 2);
    SilentStep(w, e, n);
    assert e[n - 2].timestamp <= e[RunTo(w, e, n + 1).state.last[n - 2]].timestamp;
    LastCompletes(w, e, n + 1);
  }

  /** For every sequence of four steps or more and every bound that can bind, the sweep reports a match on a log that
      holds none. */
  lemma BoundIsLost(w: Window)
    requires CanBind(w)
    ensures Chronological(LostLog(w)) && Dated(LostLog(w))
    ensures exists i :: 0 <= i < |LostLog(w)| && Completes(w, LostLog(w), i)
    ensures forall lo, i :: !MatchEndsAt(w, LostLog(w), lo, i)
  {
    LostLogIsChronological(w);
    forall i | 0 <= i < |LostLog(w)| ensures LostLog(w)[i].timestamp != ZERO_TIME {
      LostTime(w, i);
    }
    if forall i :: 0 <= i < |LostLog(w)| - 1 ==> !Completes(w, LostLog(w), i) {
      if Renews(w.pattern) {
        RenewingCompletes(w);
      } else {
        RenewedCompletes(w);
      }
    }
    forall lo, i ensures !MatchEndsAt(w, LostLog(w), lo, i) {
      forall c | ValidChain(w, LostLog(w), lo, c) ensures |c| != |w.pattern| {
        if |c| == |w.pattern| {
          LostSpan(w, c);
        }
      }
    }
  }

  /** For every sequence, window and bound: the sweep is exact on all logs it can be given just when the total bound is absent, cannot
      bind, or the sequence has at most three steps. */
  lemma SweepIsExactIff(w: Window)
    requires |w.pattern| >= 2 && w.within > 0
    ensures BoundIsTracked(|w.pattern|, w.within, w.total) <==>
            forall events :: Chronological(events) && Dated(events) ==> ExactOn(w, events)
  {
    if BoundIsTracked(|w.pattern|, w.within, w.total) {
      forall events | Chronological(events) && Dated(events) ensures ExactOn(w, events) {
        SweepIsExact(w, events);
      }
    } else {
      BoundIsLost(w);
      assert !ExactOn(w, LostLog(w));
    }
  }

  // ---- The chain a match is reported with ----------------------------------------------------

  /** Every chain read back is a match: in order, spelling the sequence, inside both bounds. */
  ghost predicate ChainsAreMatches(w: Window, events: seq<Event>, chains: seq<seq<int>>) {
    forall j :: 0 <= j < |chains| ==> ValidChain(w, events, 0, chains[j]) && |chains[j]| == |w.pattern|
  }

  predicate ReadBackIsTracked(pattern: seq<string>) {
    |pattern| == 2 || (|pattern| == 3 && pattern[1] != pattern[2])
  }

  lemma TwoEventChain(w: Window, events: seq<Event>, lo: int, s: Sweep)
    requires |s.last| == |s.prev| == |w.pattern| > 1 && s.last[1] >= 0 && BackedAt(w, events, lo, s, w.total, 1)
    ensures ValidChain(w, events, lo, [s.prev[1], s.last[1]])
  {
  }

  lemma ReadBackTwo(w: Window, events: seq<Event>, i: nat, r: Run)
    requires |w.pattern| == 2 && i < |events| && r.start <= i && Fits(w, r.state, i) && Sound(w, events, i, r)
    requires Visit(w, events, r.state, i).last[1] == i
    ensures ValidChain(w, events, r.start, WalkBack(Visit(w, events, r.state, i).prev, i))
  {
    var v := Visit(w, events, r.state, i);
    AllBackedStep(w, events, r.start, i, r.state, w.total);
    TwoEventChain(w, events, r.start, v);
    assert WalkBack(v.prev, i) == [v.prev[1], v.last[1]];
  }

  lemma ReadBackThree(w: Window, events: seq<Event>, i: nat, r: Run)
    requires |w.pattern| == 3 && w.pattern[1] != w.pattern[2]
    requires i < |events| && r.start <= i && Fits(w, r.state, i) && Sound(w, events, i, r)
    requires Visit(w, events, r.state, i).last[2] == i
    ensures ValidChain(w, events, r.start, WalkBack(Visit(w, events, r.state, i).prev, i))
  {
    assert Advances(w, events, r.state, i, 2) && !Advances(w, events, r.state, i, 1);
    assert BackedAt(w, events, r.start, r.state, w.total, 1);
    TwoEventChain(w, events, r.start, r.state);
    var c := [r.state.prev[1], r.state.last[1]];
    AnchorIsFirstParent(w, r.start, r.state, 1, r.state.last[1]);
    ExtendChain(w, events, r.start, c, i);
    assert WalkBack(Visit(w, events, r.state, i).prev, i) == c + [i];
  }

  lemma ReadBackOne(w: Window, events: seq<Event>, i: nat)
    requires ReadBackIsTracked(w.pattern) && Chronological(events) && i < |events| && Completes(w, events, i)
    ensures var r := RunTo(w, events, i);
            ValidChain(w, events, r.start, WalkBack(Visit(w, events, r.state, i).prev, i))
  {
    var r := RunTo(w, events, i);
    assert Sound(w, events, i, r) by {
      RunIsSound(w, events, i);
    }
    if |w.pattern| == 2 {
      ReadBackTwo(w, events, i, r);
    } else {
      ReadBackThree(w, events, i, r);
    }
  }

  lemma {:induction false} ReadBackIsSound(w: Window, events: seq<Event>, i: nat)
    requires ReadBackIsTracked(w.pattern) && Chronological(events) && i <= |events|
    ensures ChainsAreMatches(w, events, RunTo(w, events, i).chains)
  {
    if i > 0 {
      ReadBackIsSound(w, events, i - 1);
      hide ChainsAreMatches, ValidChain, Completes;
      ReadBackStep(w, events, i - 1);
    }
  }

  lemma ReadBackStep(w: Window, events: seq<Event>, i: nat)
    requires ReadBackIsTracked(w.pattern) && Chronological(events) && i < |events|
    requires ChainsAreMatches(w, events, RunTo(w, events, i).chains)
    ensures ChainsAreMatches(w, events, RunTo(w, events, i + 1).chains)
  {
    hide ChainsAreMatches, ValidChain;
    if Completes(w, events, i) {
      var r := RunTo(w, events, i);
      ReadBackOne(w, events, i);
      OneMoreMatch(w, events, r.start, r.chains, WalkBack(Visit(w, events, r.state, i).prev, i));
    }
  }

  lemma OneMoreMatch(w: Window, events: seq<Event>, lo: nat, chains: seq<seq<int>>, m: seq<int>)
    requires ChainsAreMatches(w, events, chains) && ValidChain(w, events, lo, m) && |m| == |w.pattern|
    ensures ChainsAreMatches(w, events, chains + [m])
  {
  }

  // Logs on which the read-back fails. Every event carries the same timestamp, so only ids matter.

  function FlatLog(ids: seq<string>): seq<Event> {
    seq(|ids|, i requires 0 <= i < |ids| => Event(i, ids[i], 1, []))
  }

  /** With equal timestamps an event completes each step whose id it carries and whose predecessor is done. */
  lemma FlatVisit(w: Window, ids: seq<string>, i: nat, s: Sweep)
    requires 0 < w.within && i < |ids| && Fits(w, s, i)
    ensures var v := Visit(w, FlatLog(ids), s, i);
            forall k :: 0 <= k < |w.pattern| ==>
              var hit := ids[i] == w.pattern[k] && (k > 0 ==> s.last[k - 1] >= 0);
              && v.last[k] == (if hit then i else s.last[k])
              && (k > 0 ==> v.prev[k] == if hit then s.last[k - 1] else s.prev[k])
  {
    forall k | 0 <= k < |w.pattern|
      ensures Advances(w, FlatLog(ids), s, i, k) <==> ids[i] == w.pattern[k] && (k > 0 ==> s.last[k - 1] >= 0)
    {
      if k > 0 && s.last[k - 1] >= 0 {
        AnchorBelow(s.prev, k - 1, s.last[k - 1], i);
      }
    }
  }

  /** What a sweep has recorded for the last four steps of its sequence. */
  datatype Tail = Tail(l0: int, l1: int, l2: int, l3: int, p1: int, p2: int, p3: int)

  function TailVisit(x: seq<string>, t: Tail, id: string, i: int): Tail
    requires |x| == 4
  {
    var h1, h2, h3 := id == x[1] && t.l0 >= 0, id == x[2] && t.l1 >= 0, id == x[3] && t.l2 >= 0;
    Tail(if id == x[0] then i else t.l0, if h1 then i else t.l1, if h2 then i else t.l2, if h3 then i else t.l3,
         if h1 then t.l0 else t.p1, if h2 then t.l1 else t.p2, if h3 then t.l2 else t.p3)
  }

  const UNTOUCHED := Tail(-1, -1, -1, -1, -1, -1, -1)

  /** The tail after j events of a log, the first of them event `at`. */
  function TailAt(x: seq<string>, ids: seq<string>, at: nat, j: nat): Tail
    requires |x| == 4 && at + j <= |ids|
  {
    if j == 0 then UNTOUCHED else TailVisit(x, TailAt(x, ids, at, j - 1), ids[at + j - 1], at + j - 1)
  }

  ghost predicate Mirrors(w: Window, s: Sweep, t: Tail)
    requires |s.last| == |s.prev| == |w.pattern| >= 4
  {
    var a := |w.pattern| - 4;
    && (a > 0 ==> s.last[a - 1] >= 0)
    && s.last[a] == t.l0 && s.last[a + 1] == t.l1 && s.last[a + 2] == t.l2 && s.last[a + 3] == t.l3
    && s.prev[a + 1] == t.p1 && s.prev[a + 2] == t.p2 && s.prev[a + 3] == t.p3
  }

  lemma TailStep(w: Window, ids: seq<string>, i: nat, s: Sweep, t: Tail, x: seq<string>)
    requires |w.pattern| >= 4 && x == w.pattern[|w.pattern| - 4..] && 0 < w.within
    requires i < |ids| && Fits(w, s, i) && Mirrors(w, s, t)
    ensures Mirrors(w, Visit(w, FlatLog(ids), s, i), TailVisit(x, t, ids[i], i))
  {
    FlatVisit(w, ids, i, s);
  }

  /** The sweep has reported nothing yet, and its last four steps stand as the tail says. */
  ghost predicate Quiet(w: Window, ids: seq<string>, i: nat, t: Tail)
    requires |w.pattern| >= 4 && i <= |ids|
  {
    var r := RunTo(w, FlatLog(ids), i);
    r.chains == [] && Mirrors(w, r.state, t)
  }

  lemma QuietStep(w: Window, ids: seq<string>, i: nat, t: Tail, x: seq<string>)
    requires |w.pattern| >= 4 && x == w.pattern[|w.pattern| - 4..] && 0 < w.within && i < |ids| && Quiet(w, ids, i, t)
    requires TailVisit(x, t, ids[i], i).l3 < 0
    ensures Quiet(w, ids, i + 1, TailVisit(x, t, ids[i], i))
  {
    TailStep(w, ids, i, RunTo(w, FlatLog(ids), i).state, t, x);
  }

  lemma TailStarts(w: Window, ids: seq<string>, at: nat)
    requires |w.pattern| >= 4 && at == |w.pattern| - 4 && 0 < w.within && at <= |ids| && ids[..at] == w.pattern[..at]
    ensures Quiet(w, ids, at, UNTOUCHED)
  {
    PrefixRun(w, ids, at);
  }

  lemma TailNotYet(x: seq<string>, ids: seq<string>, at: nat, j: nat)
    requires |x| == 4 && 0 < j && at + j <= |ids| && TailAt(x, ids, at, j).l3 < 0
    ensures TailAt(x, ids, at, j - 1).l3 < 0
  {
  }

  /** Until the last step completes, the sweep's last four steps follow the tail. */
  lemma {:induction false} RunFollowsTail(w: Window, ids: seq<string>, x: seq<string>, at: nat, j: nat)
    requires |w.pattern| >= 4 && at == |w.pattern| - 4 && x == w.pattern[at..] && 0 < w.within
    requires at + j <= |ids| && ids[..at] == w.pattern[..at] && TailAt(x, ids, at, j).l3 < 0
    ensures Quiet(w, ids, at + j, TailAt(x, ids, at, j))
  {
    hide Quiet, TailVisit;
    if j == 0 {
      TailStarts(w, ids, at);
    } else {
      TailNotYet(x, ids, at, j);
      RunFollowsTail(w, ids, x, at, j - 1);
      QuietStep(w, ids, at + j - 1, TailAt(x, ids, at, j - 1), x);
    }
  }

  predicate OutOfOrder(t: Tail) {
    t.l3 >= 0 && !(t.p1 < t.p2 < t.p3 < t.l3)
  }

  /** The last step first completes on the j-th event from `at`, over parents that are not in order. */
  ghost predicate BreaksAt(x: seq<string>, ids: seq<string>, at: nat, j: nat)
    requires |x| == 4 && 0 < j && at + j <= |ids|
  {
    TailAt(x, ids, at, j - 1).l3 < 0 && OutOfOrder(TailAt(x, ids, at, j))
  }

  /** The event that completes the last step reports a chain that ends with the tail's parents. */
  lemma TailIsReported(w: Window, ids: seq<string>, i: nat, t: Tail, x: seq<string>)
    requires |w.pattern| >= 4 && x == w.pattern[|w.pattern| - 4..] && 0 < w.within && i < |ids| && Quiet(w, ids, i, t)
    requires TailVisit(x, t, ids[i], i).l3 == i
    ensures var u, chains := TailVisit(x, t, ids[i], i), RunTo(w, FlatLog(ids), i + 1).chains;
            |chains| == 1 && |chains[0]| == |w.pattern| && chains[0][|w.pattern| - 4..] == [u.p1, u.p2, u.p3, u.l3]
  {
    var r := RunTo(w, FlatLog(ids), i);
    TailStep(w, ids, i, r.state, t, x);
    WalkBackTail(Visit(w, FlatLog(ids), r.state, i).prev, i);
  }

  lemma WalkBackTail(prev: seq<int>, end: int)
    requires |prev| >= 4
    ensures var n := |prev|; WalkBack(prev, end)[n - 4..] == [prev[n - 3], prev[n - 2], prev[n - 1], end]
  {
  }

  lemma TailLast(x: seq<string>, ids: seq<string>, at: nat, j: nat)
    requires |x| == 4 && 0 < j && at + j <= |ids| && TailAt(x, ids, at, j - 1).l3 < 0 <= TailAt(x, ids, at, j).l3
    ensures TailAt(x, ids, at, j).l3 == at + j - 1
  {
  }

  lemma BrokenTailIsReported(w: Window, ids: seq<string>, i: nat, t: Tail, x: seq<string>)
    requires |w.pattern| >= 4 && x == w.pattern[|w.pattern| - 4..] && 0 < w.within && i < |ids| && Quiet(w, ids, i, t)
    requires TailVisit(x, t, ids[i], i).l3 == i && OutOfOrder(TailVisit(x, t, ids[i], i))
    ensures !ChainsAreMatches(w, FlatLog(ids), RunTo(w, FlatLog(ids), |ids|).chains)
  {
    hide Quiet, TailVisit, RunTo, ChainsAreMatches, OutOfOrder, Increasing;
    TailIsReported(w, ids, i, t, x);
    OutOfOrderEnd(RunTo(w, FlatLog(ids), i + 1).chains[0], TailVisit(x, t, ids[i], i));
    BrokenChainStays(w, FlatLog(ids), i + 1);
  }

  lemma BrokenChainIsReported(w: Window, ids: seq<string>, x: seq<string>, at: nat, j: nat)
    requires |w.pattern| >= 4 && at == |w.pattern| - 4 && x == w.pattern[at..] && 0 < w.within
    requires 0 < j && at + j <= |ids| && ids[..at] == w.pattern[..at] && BreaksAt(x, ids, at, j)
    ensures !ChainsAreMatches(w, FlatLog(ids), RunTo(w, FlatLog(ids), |ids|).chains)
  {
    hide Quiet, TailVisit, RunTo, ChainsAreMatches, FlatLog;
    var i, t := at + j - 1, TailAt(x, ids, at, j - 1);
    TailLast(x, ids, at, j);
    RunFollowsTail(w, ids, x, at, j - 1);
    assert TailAt(x, ids, at, j) == TailVisit(x, t, ids[i], i);
    BrokenTailIsReported(w, ids, i, t, x);
  }

  lemma BrokenChainStays(w: Window, events: seq<Event>, i: nat)
    requires w.pattern != [] && i <= |events|
    requires var chains := RunTo(w, events, i).chains; chains != [] && !Increasing(chains[0])
    ensures !ChainsAreMatches(w, events, RunTo(w, events, |events|).chains)
  {
    hide RunTo;
    ChainsOnlyGrow(w, events, i, |events|);
  }

  lemma OutOfOrderEnd(m: seq<int>, u: Tail)
    requires |m| >= 4 && m[|m| - 4..] == [u.p1, u.p2, u.p3, u.l3] && OutOfOrder(u)
    ensures !Increasing(m)
  {
    var n := |m| - 4;
    assert m[n] == m[n..][0] && m[n + 1] == m[n..][1] && m[n + 2] == m[n..][2] && m[n + 3] == m[n..][3];
  }

  /** Nothing is reported, step i-1 stands, and no later step does. */
  ghost predicate Opened(n: nat, i: nat, r: Run) {
    && |r.state.last| == |r.state.prev| == n && r.chains == [] && (0 < i <= n ==> r.state.last[i - 1] >= 0)
    && forall k :: i <= k < n ==> r.state.last[k] == -1 && r.state.prev[k] == -1
  }

  lemma OpenedNext(w: Window, ids: seq<string>, i: nat, r: Run)
    requires 0 < w.within && i + 1 < |w.pattern| && i < |ids| && Fits(w, r.state, i) && r.start <= i
    requires Opened(|w.pattern|, i, r) && ids[i] == w.pattern[i]
    ensures Opened(|w.pattern|, i + 1, RunNext(w, FlatLog(ids), r, i))
  {
    FlatVisit(w, ids, i, r.state);
    hide FlatLog;
    var v := Visit(w, FlatLog(ids), r.state, i);
    assert forall k :: i + 1 <= k < |w.pattern| ==> v.last[k] == -1 && v.prev[k] == -1;
  }

  /** A log that starts like the sequence itself completes its steps one by one. */
  lemma {:induction false} PrefixRun(w: Window, ids: seq<string>, i: nat)
    requires w.pattern != [] && 0 < w.within && i < |w.pattern| && i <= |ids| && ids[..i] == w.pattern[..i]
    ensures Opened(|w.pattern|, i, RunTo(w, FlatLog(ids), i))
  {
    if i > 0 {
      assert ids[..i][..i - 1] == ids[..i - 1] && w.pattern[..i][..i - 1] == w.pattern[..i - 1];
      PrefixRun(w, ids, i - 1);
      assert ids[i - 1] == w.pattern[i - 1] by { assert ids[..i][i - 1] == w.pattern[..i][i - 1]; }
      hide RunNext, Opened;
      OpenedNext(w, ids, i - 1, RunTo(w, FlatLog(ids), i - 1));
    }
  }

  function Detour(x: seq<string>): seq<string>
    requires |x| == 4
  {
    [x[0], x[1], x[0], x[2], x[1], x[3]]
  }

  function ShortDetour(x: seq<string>): seq<string>
    requires |x| == 4
  {
    [x[0], x[1], x[0], x[1], x[3]]
  }

  /** Whatever four ids a sequence ends with, one of two short detours makes the recorded parents disagree. */
  lemma SomeDetourBreaks(x: seq<string>, head: seq<string>)
    requires |x| == 4
    ensures (exists j :: 0 < j <= 6 && BreaksAt(x, head + Detour(x), |head|, j))
         || (exists j :: 0 < j <= 5 && BreaksAt(x, head + ShortDetour(x), |head|, j))
  {
    var at := |head|;
    var t1 := TailVisit(x, UNTOUCHED, x[0], at);
    var t2 := TailVisit(x, t1, x[1], at + 1);
    var t3 := TailVisit(x, t2, x[0], at + 2);
    if x[1] == x[2] != x[0] || x[0] == x[2] == x[3] != x[1] {
      var ids := head + ShortDetour(x);
      var t4 := TailVisit(x, t3, x[1], at + 3);
      assert TailAt(x, ids, at, 1) == t1;
      assert TailAt(x, ids, at, 2) == t2;
      assert TailAt(x, ids, at, 3) == t3;
      assert TailAt(x, ids, at, 4) == t4;
      assert TailAt(x, ids, at, 5) == TailVisit(x, t4, x[3], at + 4);
      assert BreaksAt(x, ids, at, 5);
    } else {
      var ids := head + Detour(x);
      var t4 := TailVisit(x, t3, x[2], at + 3);
      var t5 := TailVisit(x, t4, x[1], at + 4);
      assert TailAt(x, ids, at, 1) == t1;
      assert TailAt(x, ids, at, 2) == t2;
      assert TailAt(x, ids, at, 3) == t3;
      assert TailAt(x, ids, at, 4) == t4;
      assert TailAt(x, ids, at, 5) == t5;
      assert TailAt(x, ids, at, 6) == TailVisit(x, t5, x[3], at + 5);
      assert BreaksAt(x, ids, at, 4) || BreaksAt(x, ids, at, 5) || BreaksAt(x, ids, at, 6);
    }
  }

  lemma LongReadBackFails(w: Window) returns (ids: seq<string>)
    requires |w.pattern| >= 4 && 0 < w.within
    ensures !ChainsAreMatches(w, FlatLog(ids), RunTo(w, FlatLog(ids), |ids|).chains)
  {
    hide BreaksAt;
    var at := |w.pattern| - 4;
    var x, head := w.pattern[at..], w.pattern[..at];
    SomeDetourBreaks(x, head);
    if j :| 0 < j <= 6 && BreaksAt(x, head + Detour(x), at, j) {
      ids := head + Detour(x);
      BrokenChainIsReported(w, ids, x, at, j);
    } else {
      var j :| 0 < j <= 5 && BreaksAt(x, head + ShortDetour(x), at, j);
      ids := head + ShortDetour(x);
      BrokenChainIsReported(w, ids, x, at, j);
    }
  }

  /** Three steps whose last two ids agree: the closing event overwrites the parent it is read back through. */
  lemma ShortReadBackFails(w: Window) returns (ids: seq<string>)
    requires |w.pattern| == 3 && w.pattern[1] == w.pattern[2] && 0 < w.within
    ensures !ChainsAreMatches(w, FlatLog(ids), RunTo(w, FlatLog(ids), |ids|).chains)
  {
    ids := [w.pattern[0], w.pattern[1], w.pattern[0], w.pattern[1]];
    var events := FlatLog(ids);
    var r0, r1, r2, r3 := RunTo(w, events, 0), RunTo(w, events, 1), RunTo(w, events, 2), RunTo(w, events, 3);
    FlatVisit(w, ids, 0, r0.state);
    FlatVisit(w, ids, 1, r1.state);
    FlatVisit(w, ids, 2, r2.state);
    assert r2.state.last[1] == 1 && r2.state.prev[1] == 0 && r2.state.last[2] == -1;
    var i := 2;
    if w.pattern[0] != w.pattern[1] {
      FlatVisit(w, ids, 3, r3.state);
      i := 3;
    }
    var m := WalkBack(Visit(w, events, RunTo(w, events, i).state, i).prev, i);
    assert m[0] >= m[1] && !Increasing(m);
    assert RunTo(w, events, i + 1).chains == [m];
    ChainsOnlyGrow(w, events, i + 1, 4);
    assert RunTo(w, events, 4).chains[0] == m;
  }

  /** The chains a rule reports are matches on every log just when the sequence has two steps, or three
      whose last two ids differ. */
  lemma ReadBackIsSoundIff(w: Window)
    requires |w.pattern| >= 2 && 0 < w.within
    ensures ReadBackIsTracked(w.pattern) <==>
            forall events :: Chronological(events) && Dated(events) ==>
              ChainsAreMatches(w, events, RunTo(w, events, |events|).chains)
  {
    if ReadBackIsTracked(w.pattern) {
      forall events | Chronological(events) && Dated(events)
        ensures ChainsAreMatches(w, events, RunTo(w, events, |events|).chains)
      {
        ReadBackIsSound(w, events, |events|);
      }
    } else {
      var ids;
      if |w.pattern| == 3 {
        ids := ShortReadBackFails(w);
      } else {
        ids := LongReadBackFails(w);
      }
      assert Chronological(FlatLog(ids)) && Dated(FlatLog(ids)) && |FlatLog(ids)| == |ids|;
    }
  }

  /** Where what is reported can be relied on, every relation a sweep adds leads forward in time, from one event to a
      later one no more than the window away. */
  lemma RelationsLeadForward(spec: Spec, w: Window, events: seq<Event>, t: Tally, cap: nat)
    requires w.pattern == spec.sequence && ReadBackIsTracked(w.pattern) && Chronological(events)
    requires Chains(events, RunTo(w, events, |events|).chains)
    ensures var now := Absorb(spec, events, t, RunTo(w, events, |events|).chains, cap).relations;
            && t.relations <= now
            && forall r :: r in now[|t.relations|..] ==>
                 exists a, b :: 0 <= a < b && Joins(spec, events, r, a, b) && Gap(events, a, b) <= w.within
  {
    var chains := RunTo(w, events, |events|).chains;
    ReadBackIsSound(w, events, |events|);
    hide RunTo;
    assert AllSpell(spec, events, chains) by {
      forall c | 0 <= c < |chains| ensures Spells(spec, events, chains[c]) {
        assert ValidChain(w, events, 0, chains[c]);
      }
    }
    hide Absorb, WholeRuns, AllSpell, Chains;
    var more := AbsorbJoins(spec, events, t, chains, cap);
    assert (t.relations + more)[|t.relations|..] == more;
    forall r | r in more ensures exists a, b :: 0 <= a < b && Joins(spec, events, r, a, b) && Gap(events, a, b) <= w.within {
      var c, k :| 0 <= c < |chains| && 0 <= k < |chains[c]| - 1 && Joins(spec, events, r, chains[c][k], chains[c][k + 1]);
      ChainStep(w, events, chains[c], k);
      assert 0 <= chains[c][k] < chains[c][k + 1] && Joins(spec, events, r, chains[c][k], chains[c][k + 1]);
    }
  }

  lemma ChainStep(w: Window, events: seq<Event>, c: seq<int>, k: nat)
    requires ValidChain(w, events, 0, c) && k + 1 < |c|
    ensures 0 <= c[k] < c[k + 1] < |events| && Gap(events, c[k], c[k + 1]) <= w.within
  {
  }
}
