/** How much the one-pass sweep finds. */
module WindowPacking {
  import opened Correlation
  import opened WindowSweep

  ghost predicate Whole(w: Window, events: seq<Event>, lo: int, m: seq<int>) {
    ValidChain(w, events, lo, m) && |m| == |w.pattern| > 0
  }

  /** Whole matches, each after the one before. */
  ghost predicate Packing(w: Window, events: seq<Event>, q: seq<seq<int>>) {
    && (forall i :: 0 <= i < |q| ==> q[i] != [] && Whole(w, events, 0, q[i]))
    && (forall i, j :: 0 <= i < j < |q| ==> q[i][|q[i]| - 1] < q[j][0])
  }

  ghost function Reports(w: Window, events: seq<Event>, i: nat): nat
    requires w.pattern != [] && i <= |events|
  {
    |RunTo(w, events, i).chains|
  }

  ghost function Start(w: Window, events: seq<Event>, i: nat): nat
    requires w.pattern != [] && i <= |events|
  {
    RunTo(w, events, i).start
  }

  lemma OneEvent(w: Window, events: seq<Event>, i: nat)
    requires w.pattern != [] && i < |events|
    ensures Reports(w, events, i + 1) == Reports(w, events, i) + if Completes(w, events, i) then 1 else 0
    ensures Start(w, events, i + 1) == if Completes(w, events, i) then i + 1 else Start(w, events, i)
  {
    hide Visit, WalkBack, Fits;
  }

  /** Reports are never taken back, and while nothing is reported the sweep goes on from where it began. */
  lemma {:induction false} ReportsGrow(w: Window, events: seq<Event>, i: nat, j: nat)
    requires w.pattern != [] && i <= j <= |events|
    ensures Reports(w, events, i) <= Reports(w, events, j)
    ensures Reports(w, events, i) == Reports(w, events, j) ==> Start(w, events, i) == Start(w, events, j)
    decreases j
  {
    hide Reports, Start, Completes;
    if i < j {
      ReportsGrow(w, events, i, j - 1);
      OneEvent(w, events, j - 1);
    }
  }

  /** A match that begins once `before` have been reported is itself reported, or another one instead. */
  lemma ReportedBy(w: Window, events: seq<Event>, m: seq<int>, before: nat)
    requires Chronological(events) && Whole(w, events, 0, m) && Reports(w, events, m[0]) >= before
    ensures Reports(w, events, m[|m| - 1] + 1) > before
  {
    var first, last := m[0], m[|m| - 1];
    assert first <= last;
    hide Reports, Completes;
    ReportsGrow(w, events, first, last);
    OneEvent(w, events, last);
    if Reports(w, events, last) == before {
      StartIsNotLater(w, events, first);
      assert Whole(w, events, Start(w, events, last), m);
      assert MatchEndsAt(w, events, Start(w, events, last), last);
      hide ValidChain;
      NeverMisses(w, events, last);
    }
  }

  lemma StartIsNotLater(w: Window, events: seq<Event>, i: nat)
    requires w.pattern != [] && i <= |events|
    ensures Start(w, events, i) <= i
  {
  }

  lemma MatchFits(w: Window, events: seq<Event>, lo: int, m: seq<int>)
    requires Whole(w, events, lo, m)
    ensures lo <= m[0] <= m[|m| - 1] < |events| && 0 <= m[0]
    ensures lo >= 0 ==> Whole(w, events, 0, m)
  {
  }

  lemma PackingFront(w: Window, events: seq<Event>, q: seq<seq<int>>)
    requires Packing(w, events, q) && q != []
    ensures var m, front := q[|q| - 1], q[..|q| - 1];
            && m != [] && Whole(w, events, 0, m) && Packing(w, events, front)
            && (front != [] ==> var l := front[|front| - 1]; l != [] && l[|l| - 1] < m[0])
  {
    hide Whole;
  }

  /** No choice of matches among the first i events is larger than what the sweep has reported by then. */
  lemma {:induction false} ReportsAsMany(w: Window, events: seq<Event>, q: seq<seq<int>>, i: nat)
    requires w.pattern != [] && Chronological(events) && i <= |events| && Packing(w, events, q)
    requires q != [] ==> q[|q| - 1] != [] && q[|q| - 1][|q[|q| - 1]| - 1] < i
    ensures |q| <= Reports(w, events, i)
  {
    hide *;
    if q != [] {
      var m, front := q[|q| - 1], q[..|q| - 1];
      PackingFront(w, events, q);
      MatchFits(w, events, 0, m);
      ReportsAsMany(w, events, front, m[0]);
      ReportedBy(w, events, m, |front|);
      ReportsGrow(w, events, m[|m| - 1] + 1, i);
    }
  }

  /** All of it lies before event lo. */
  ghost predicate EndsBefore(q: seq<seq<int>>, lo: int) {
    forall k :: 0 <= k < |q| ==> q[k] != [] && q[k][|q[k]| - 1] < lo
  }

  lemma PackingNext(w: Window, events: seq<Event>, q: seq<seq<int>>, lo: nat, m: seq<int>)
    requires Packing(w, events, q) && Whole(w, events, lo, m) && EndsBefore(q, lo)
    ensures m != [] && Packing(w, events, q + [m]) && EndsBefore(q + [m], m[|m| - 1] + 1)
  {
    MatchFits(w, events, lo, m);
    hide Whole;
  }

  lemma CompletedMatch(w: Window, events: seq<Event>, i: nat) returns (m: seq<int>)
    requires w.pattern != [] && Chronological(events) && i < |events| && Completes(w, events, i)
    requires BoundIsTracked(|w.pattern|, w.within, w.total)
    ensures Whole(w, events, Start(w, events, i), m) && m != [] && m[|m| - 1] == i
  {
    CompletionIsMatch(w, events, i);
    hide ValidChain;
    m :| ValidChain(w, events, RunTo(w, events, i).start, m) && |m| == |w.pattern| && m[|m| - 1] == i;
  }

  lemma NoneYet(w: Window, events: seq<Event>)
    requires w.pattern != []
    ensures Packing(w, events, []) && Reports(w, events, 0) == 0 && EndsBefore([], Start(w, events, 0))
  {
  }

  /** Where the bound is tracked, the matches behind the reports are such a choice. */
  lemma {:induction false} ReportsAreBacked(w: Window, events: seq<Event>, i: nat) returns (q: seq<seq<int>>)
    requires w.pattern != [] && Chronological(events) && i <= |events|
    requires BoundIsTracked(|w.pattern|, w.within, w.total)
    ensures Packing(w, events, q) && |q| == Reports(w, events, i) && EndsBefore(q, Start(w, events, i))
  {
    hide *;
    if i == 0 {
      q := [];
      NoneYet(w, events);
    } else {
      q := ReportsAreBacked(w, events, i - 1);
      OneEvent(w, events, i - 1);
      if Completes(w, events, i - 1) {
        var m := CompletedMatch(w, events, i - 1);
        PackingNext(w, events, q, Start(w, events, i - 1), m);
        q := q + [m];
      }
    }
  }

  /** Under any bounds the sweep reports at least as many matches as any such choice has, and where the bound is tracked
      exactly as many as the largest. */
  lemma SweepIsGreatest(w: Window, events: seq<Event>)
    requires w.pattern != [] && Chronological(events)
    ensures var reported := |RunTo(w, events, |events|).chains|;
            && (forall q :: Packing(w, events, q) ==> |q| <= reported)
            && (BoundIsTracked(|w.pattern|, w.within, w.total) ==> exists q :: Packing(w, events, q) && |q| == reported)
  {
    forall q | Packing(w, events, q) ensures |q| <= Reports(w, events, |events|) {
      if q != [] {
        PackingFront(w, events, q);
        MatchFits(w, events, 0, q[|q| - 1]);
      }
      ReportsAsMany(w, events, q, |events|);
    }
    hide Packing, RunTo;
    if BoundIsTracked(|w.pattern|, w.within, w.total) {
      var q := ReportsAreBacked(w, events, |events|);
    }
  }
}
