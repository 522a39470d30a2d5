/** The temporal layout: time along x, and as few lanes as the cards fit in without overlapping. */
module Lanes {
  import opened Cards
  import opened Sorting

  // ---- Packing -----------------------------------------------------------------------------------

  /** Cards at xs, each `gap` wide, assigned to `count` lanes so that no two in a lane overlap. */
  ghost predicate Packed(xs: seq<real>, gap: real, laneOf: seq<nat>, count: nat) {
    && |laneOf| == |xs|
    && (forall i :: 0 <= i < |laneOf| ==> laneOf[i] < count)
    && (forall i, j :: 0 <= i < |laneOf| && 0 <= j < |laneOf| && i != j && laneOf[i] == laneOf[j] ==>
          xs[i] + gap <= xs[j] || xs[j] + gap <= xs[i])
  }

  /** Different cards that all cover the point `at`. */
  ghost predicate Crowd(xs: seq<real>, gap: real, at: real, crowd: seq<nat>) {
    && (forall t :: 0 <= t < |crowd| ==> crowd[t] < |xs| && xs[crowd[t]] <= at < xs[crowd[t]] + gap)
    && (forall t, u :: 0 <= t < u < |crowd| ==> crowd[t] != crowd[u])
  }

  lemma {:induction false} DistinctBelow(s: seq<nat>, n: nat)
    requires forall t :: 0 <= t < |s| ==> s[t] < n
    requires forall t, u :: 0 <= t < u < |s| ==> s[t] != s[u]
    ensures |s| <= n
    decreases |s|
  {
    if s != [] {
      var top := s[|s| - 1];
      var rest := s[..|s| - 1];
      var less := seq(|rest|, t requires 0 <= t < |rest| => if rest[t] == n - 1 then top else rest[t]);
      DistinctBelow(less, n - 1);
    }
  }

  /** No assignment of lanes gets by with fewer lanes than there are cards over one point. */
  lemma NoFewerLanes(xs: seq<real>, gap: real, laneOf: seq<nat>, count: nat, at: real, crowd: seq<nat>)
    requires Packed(xs, gap, laneOf, count) && Crowd(xs, gap, at, crowd)
    ensures |crowd| <= count
  {
    var taken := seq(|crowd|, t requires 0 <= t < |crowd| => laneOf[crowd[t]]);
    DistinctBelow(taken, count);
  }

  /** The first lane whose last card ends by x, or the next new lane. */
  method FirstFree(laneEnds: seq<real>, x: real) returns (lane: nat)
    ensures lane <= |laneEnds| && (lane < |laneEnds| ==> x >= laneEnds[lane])
    ensures forall k :: 0 <= k < lane ==> x < laneEnds[k]
  {
    lane := 0;
    while lane < |laneEnds| && x < laneEnds[lane]
      invariant lane <= |laneEnds|
      invariant forall k :: 0 <= k < lane ==> x < laneEnds[k]
    {
      lane := lane + 1;
    }
  }

  /** lasts[l] is the last of the cards placed so far in lane l, and laneEnds[l] is where it ends. */
  ghost predicate Ends(xs: seq<real>, gap: real, laneOf: seq<nat>, laneEnds: seq<real>, lasts: seq<nat>) {
    && |lasts| == |laneEnds| && |laneOf| <= |xs|
    && (forall l :: 0 <= l < |lasts| ==>
          lasts[l] < |laneOf| && laneOf[lasts[l]] == l && laneEnds[l] == xs[lasts[l]] + gap)
    && (forall i :: 0 <= i < |laneOf| ==> laneOf[i] < |lasts| && i <= lasts[laneOf[i]])
  }

  ghost predicate Rising(xs: seq<real>) {
    forall i, j :: 0 <= i < j < |xs| ==> xs[i] <= xs[j]
  }

  lemma TakeLane(xs: seq<real>, gap: real, laneOf: seq<nat>, laneEnds: seq<real>, lasts: seq<nat>, lane: nat)
    requires Rising(xs) && gap > 0.0 && Ends(xs, gap, laneOf, laneEnds, lasts) && |laneOf| < |xs|
    requires Packed(xs[..|laneOf|], gap, laneOf, |laneEnds|)
    requires lane < |laneEnds| && xs[|laneOf|] >= laneEnds[lane]
    ensures Ends(xs, gap, laneOf + [lane], laneEnds[lane := xs[|laneOf|] + gap], lasts[lane := |laneOf|])
    ensures Packed(xs[..|laneOf| + 1], gap, laneOf + [lane], |laneEnds|)
  {
  }

  lemma OpenLane(xs: seq<real>, gap: real, laneOf: seq<nat>, laneEnds: seq<real>, lasts: seq<nat>)
    requires Rising(xs) && gap > 0.0 && Ends(xs, gap, laneOf, laneEnds, lasts) && |laneOf| < |xs|
    requires Packed(xs[..|laneOf|], gap, laneOf, |laneEnds|)
    requires forall k :: 0 <= k < |laneEnds| ==> xs[|laneOf|] < laneEnds[k]
    ensures Ends(xs, gap, laneOf + [|laneEnds|], laneEnds + [xs[|laneOf|] + gap], lasts + [|laneOf|])
    ensures Packed(xs[..|laneOf| + 1], gap, laneOf + [|laneEnds|], |laneEnds| + 1)
    ensures Crowd(xs, gap, xs[|laneOf|], lasts + [|laneOf|])
  {
  }

  // ---- The layout --------------------------------------------------------------------------------

  /** Where a time falls on an axis from `first` to `last`; all at 0 when the range is empty. */
  function XOf(span: real, first: int, last: int, time: int): real {
    if last > first then span * ((time - first) as real / (last - first) as real) else 0.0
  }

  lemma XRises(span: real, first: int, last: int, t: int, u: int)
    requires span > 0.0 && t <= u
    ensures XOf(span, first, last, t) <= XOf(span, first, last, u)
    ensures last > first && t < u ==> XOf(span, first, last, t) < XOf(span, first, last, u)
    ensures XOf(span, first, last, first) == 0.0 && (last > first ==> XOf(span, first, last, last) == span)
  {
  }

  ghost function Xs(span: real, timed: seq<Card>): (xs: seq<real>)
    ensures |xs| == |timed|
  {
    seq(|timed|, i requires 0 <= i < |timed| => XOf(span, timed[0].time, timed[|timed| - 1].time, timed[i].time))
  }

  lemma XsRise(span: real, timed: seq<Card>)
    requires span > 0.0 && SortedBy(timed, Before) && forall c :: c in timed ==> c.dated
    ensures Rising(Xs(span, timed))
  {
    var xs := Xs(span, timed);
    forall i, j | 0 <= i < j < |timed| ensures xs[i] <= xs[j] {
      assert timed[i] in timed && timed[j] in timed && !Before(timed[j], timed[i]);
      XRises(span, timed[0].time, timed[|timed| - 1].time, timed[i].time, timed[j].time);
    }
  }

  /** The ids in one lane, in the order they were placed. */
  ghost function LaneIds(timed: seq<Card>, laneOf: seq<nat>, lane: nat): seq<nat>
    requires |laneOf| <= |timed|
  {
    if laneOf == [] then []
    else
      var n := |laneOf| - 1;
      LaneIds(timed, laneOf[..n], lane) + if laneOf[n] == lane then [timed[n].id] else []
  }

  /** Every card of the list has the position its index gives it. */
  ghost predicate Positioned(positions: map<nat, Point>, cards: seq<Card>, at: seq<Point>)
    requires |at| <= |cards|
  {
    && positions.Keys == (set c | c in cards[..|at|] :: c.id)
    && forall i :: 0 <= i < |at| ==> cards[i].id in positions && positions[cards[i].id] == at[i]
  }

  function InLane(x: real, lane: nat, gapY: real): Point {
    Point(x, lane as real * gapY)
  }

  ghost function LanePoints(xs: seq<real>, laneOf: seq<nat>, gapY: real): (r: seq<Point>)
    requires |laneOf| <= |xs|
    ensures |r| == |laneOf|
  {
    seq(|laneOf|, i requires 0 <= i < |laneOf| => InLane(xs[i], laneOf[i], gapY))
  }

  /** `lanes` lists what each lane holds. */
  ghost predicate Lists(lanes: seq<seq<nat>>, timed: seq<Card>, laneOf: seq<nat>)
    requires |laneOf| <= |timed|
  {
    forall l :: 0 <= l < |lanes| ==> lanes[l] == LaneIds(timed, laneOf, l)
  }

  lemma {:induction false} UnusedLane(timed: seq<Card>, laneOf: seq<nat>, lane: nat)
    requires |laneOf| <= |timed| && forall i :: 0 <= i < |laneOf| ==> laneOf[i] != lane
    ensures LaneIds(timed, laneOf, lane) == []
  {
    if laneOf != [] {
      UnusedLane(timed, laneOf[..|laneOf| - 1], lane);
    }
  }

  lemma ListsNext(lanes: seq<seq<nat>>, timed: seq<Card>, laneOf: seq<nat>, lane: nat)
    requires |laneOf| < |timed| && lane <= |lanes| && Lists(lanes, timed, laneOf)
    requires forall i :: 0 <= i < |laneOf| ==> laneOf[i] < |lanes|
    ensures var id := timed[|laneOf|].id;
            Lists(if lane < |lanes| then lanes[lane := lanes[lane] + [id]] else lanes + [[id]], timed, laneOf + [lane])
  {
    assert (laneOf + [lane])[..|laneOf|] == laneOf;
    UnusedLane(timed, laneOf, |lanes|);
  }

  lemma PositionedNext(positions: map<nat, Point>, cards: seq<Card>, at: seq<Point>, p: Point)
    requires |at| < |cards| && DistinctIds(cards) && Positioned(positions, cards, at)
    ensures Positioned(positions[cards[|at|].id := p], cards, at + [p])
  {
  }

  lemma LanePositionsNext(positions: map<nat, Point>, timed: seq<Card>, xs: seq<real>, laneOf: seq<nat>, gapY: real,
                          lane: nat)
    requires |laneOf| < |xs| == |timed| && DistinctIds(timed)
    requires Positioned(positions, timed, LanePoints(xs, laneOf, gapY))
    ensures Positioned(positions[timed[|laneOf|].id := InLane(xs[|laneOf|], lane, gapY)], timed,
                       LanePoints(xs, laneOf + [lane], gapY))
  {
  }

  lemma Empty(xs: seq<real>, gap: real, timed: seq<Card>, gapY: real)
    requires |xs| == |timed|
    ensures Ends(xs, gap, [], [], []) && Packed(xs[..0], gap, [], 0) && Crowd(xs, gap, 0.0, []) && Lists([], timed, [])
    ensures Positioned(map[], timed, LanePoints(xs, [], gapY))
  {
  }

  lemma XAt(span: real, timed: seq<Card>, i: nat)
    requires i < |timed|
    ensures Xs(span, timed)[i] == XOf(span, timed[0].time, timed[|timed| - 1].time, timed[i].time)
  {
  }

  lemma LanesInUse(xs: seq<real>, gap: real, laneOf: seq<nat>, count: nat)
    requires Packed(xs, gap, laneOf, count)
    ensures forall i :: 0 <= i < |laneOf| ==> laneOf[i] < count
  {
  }

  /** What a packing is for: no two cards in a lane overlap, and no packing has fewer lanes. */
  ghost predicate FewestLanes(timed: seq<Card>, opts: Options, positions: map<nat, Point>, lanes: seq<seq<nat>>) {
    var xs, gap := Xs(opts.Span(), timed), opts.GapX();
    && (exists laneOf :: |laneOf| == |timed| && Packed(xs, gap, laneOf, |lanes|) && Lists(lanes, timed, laneOf) &&
          Positioned(positions, timed, LanePoints(xs, laneOf, opts.GapY())))
    && forall laneOf, count :: Packed(xs, gap, laneOf, count) ==> |lanes| <= count
  }

  lemma PackingIsFewest(timed: seq<Card>, opts: Options, positions: map<nat, Point>, lanes: seq<seq<nat>>,
                        laneOf: seq<nat>, at: real, crowd: seq<nat>)
    requires |laneOf| == |timed| && Packed(Xs(opts.Span(), timed), opts.GapX(), laneOf, |lanes|)
    requires Crowd(Xs(opts.Span(), timed), opts.GapX(), at, crowd) && |crowd| == |lanes|
    requires Lists(lanes, timed, laneOf)
    requires Positioned(positions, timed, LanePoints(Xs(opts.Span(), timed), laneOf, opts.GapY()))
    ensures FewestLanes(timed, opts, positions, lanes)
  {
    hide Packed, Crowd, Lists, Positioned, Xs, LanePoints;
    var xs, gap := Xs(opts.Span(), timed), opts.GapX();
    forall other, count | Packed(xs, gap, other, count) ensures |lanes| <= count {
      NoFewerLanes(xs, gap, other, count, at, crowd);
    }
  }

  /** Lays the dated cards out, opening a lane only when every lane is still occupied. `crowd` is a set of cards,
      one for each lane, that all cover the point `at`. */
  method PackLanes(timed: seq<Card>, opts: Options)
    returns (positions: map<nat, Point>, lanes: seq<seq<nat>>,
             ghost laneOf: seq<nat>, ghost at: real, ghost crowd: seq<nat>)
    requires SortedBy(timed, Before) && DistinctIds(timed) && forall c :: c in timed ==> c.dated
    ensures Packed(Xs(opts.Span(), timed), opts.GapX(), laneOf, |lanes|)
    ensures Crowd(Xs(opts.Span(), timed), opts.GapX(), at, crowd) && |crowd| == |lanes|
    ensures |laneOf| == |timed| && Lists(lanes, timed, laneOf)
    ensures Positioned(positions, timed, LanePoints(Xs(opts.Span(), timed), laneOf, opts.GapY()))
    ensures FewestLanes(timed, opts, positions, lanes)
    ensures AllApart(timed, positions, opts.GapX(), opts.GapY())
    ensures InRows(timed, positions, lanes, opts.GapY()) && ReadsAsTime(timed, positions, opts.Span())
  {
    hide *;
    ghost var xs := Xs(opts.Span(), timed);
    var gap := opts.GapX();
    XsRise(opts.Span(), timed);
    Empty(xs, gap, timed, opts.GapY());
    var laneEnds: seq<real> := [];
    ghost var lasts: seq<nat> := [];
    positions, lanes, laneOf, at, crowd := map[], [], [], 0.0, [];
    for i := 0 to |timed|
      invariant |laneOf| == i && |lanes| == |laneEnds| == |lasts| == |crowd|
      invariant Ends(xs, gap, laneOf, laneEnds, lasts)
      invariant Packed(xs[..i], gap, laneOf, |lanes|)
      invariant Crowd(xs, gap, at, crowd)
      invariant Lists(lanes, timed, laneOf)
      invariant Positioned(positions, timed, LanePoints(xs, laneOf, opts.GapY()))
    {
      var x := XOf(opts.Span(), timed[0].time, timed[|timed| - 1].time, timed[i].time);
      XAt(opts.Span(), timed, i);
      var lane := FirstFree(laneEnds, x);
      LanesInUse(xs[..i], gap, laneOf, |lanes|);
      ListsNext(lanes, timed, laneOf, lane);
      LanePositionsNext(positions, timed, xs, laneOf, opts.GapY(), lane);
      if lane == |laneEnds| {
        OpenLane(xs, gap, laneOf, laneEnds, lasts);
        at, crowd, lasts := x, lasts + [i], lasts + [i];
        laneEnds, lanes := laneEnds + [x + gap], lanes + [[timed[i].id]];
      } else {
        TakeLane(xs, gap, laneOf, laneEnds, lasts, lane);
        lasts := lasts[lane := i];
        laneEnds, lanes := laneEnds[lane := x + gap], lanes[lane := lanes[lane] + [timed[i].id]];
      }
      positions := positions[timed[i].id := InLane(x, lane, opts.GapY())];
      laneOf := laneOf + [lane];
    }
    assert xs[..|timed|] == xs;
    PackingIsFewest(timed, opts, positions, lanes, laneOf, at, crowd);
    PositionedIsPlaced(timed, positions, xs, laneOf, opts.GapY());
    LanesApart(timed, positions, xs, laneOf, |lanes|, gap, opts.GapY());
    LanesAreRows(timed, positions, xs, lanes, laneOf, gap, opts.GapY());
    LanesAreTime(timed, opts, positions, laneOf, |lanes|, opts.GapY());
  }

  /** The tray below the lanes, for cards without a time. */
  ghost function TrayPoints(n: nat, gapX: real, y: real): (r: seq<Point>)
    ensures |r| == n
  {
    seq(n, i requires 0 <= i < n => Point(i as real * gapX, y))
  }

  lemma TrayNext(n: nat, gapX: real, y: real)
    ensures TrayPoints(n + 1, gapX, y) == TrayPoints(n, gapX, y) + [Point(n as real * gapX, y)]
  {
    var more, less := TrayPoints(n + 1, gapX, y), TrayPoints(n, gapX, y);
    assert forall i :: 0 <= i < n ==> more[i] == less[i];
    assert more[n] == Point(n as real * gapX, y);
    assert more == less + [more[n]];
  }

  method LayTray(undated: seq<Card>, gapX: real, y: real) returns (positions: map<nat, Point>, ids: seq<nat>)
    requires DistinctIds(undated)
    ensures Positioned(positions, undated, TrayPoints(|undated|, gapX, y)) && ids == Ids(undated)
  {
    positions, ids := map[], [];
    for i := 0 to |undated|
      invariant Positioned(positions, undated, TrayPoints(i, gapX, y)) && ids == Ids(undated[..i])
    {
      TrayNext(i, gapX, y);
      PositionedNext(positions, undated, TrayPoints(i, gapX, y), Point(i as real * gapX, y));
      hide Positioned;
      positions := positions[undated[i].id := Point(i as real * gapX, y)];
      ids := ids + [undated[i].id];
    }
    assert undated[..|undated|] == undated;
  }

  // ---- What is seen ----------------------------------------------------------------------------------

  /** So many gaps. */
  function Gaps(n: nat, gap: real): real {
    n as real * gap
  }

  lemma OneGapMore(l: nat, m: nat, gap: real)
    requires gap > 0.0 && l < m
    ensures Gaps(l, gap) + gap <= Gaps(m, gap)
  {
    var n := m - l;
    assert m as real * gap == l as real * gap + n as real * gap;
    assert (n as real - 1.0) * gap >= 0.0;
  }

  /** A whole gap apart across or down: two cards so placed do not overlap. */
  ghost predicate Apart(p: Point, q: Point, gapX: real, gapY: real) {
    p.x + gapX <= q.x || q.x + gapX <= p.x || p.y + gapY <= q.y || q.y + gapY <= p.y
  }

  ghost predicate AllApart(cards: seq<Card>, positions: map<nat, Point>, gapX: real, gapY: real) {
    forall c, d :: c in cards && d in cards && c.id != d.id ==> IsApart(positions, c.id, d.id, gapX, gapY)
  }

  ghost predicate IsApart(positions: map<nat, Point>, m: nat, n: nat, gapX: real, gapY: real) {
    m in positions && n in positions && Apart(positions[m], positions[n], gapX, gapY)
  }

  /** Every card of a lane stands at the lane's height, and every dated card is in a lane. */
  ghost predicate InRows(timed: seq<Card>, positions: map<nat, Point>, lanes: seq<seq<nat>>, gapY: real) {
    && (forall l, n :: 0 <= l < |lanes| && n in lanes[l] ==> n in positions && positions[n].y == Gaps(l, gapY))
    && forall c :: c in timed ==> exists l :: 0 <= l < |lanes| && c.id in lanes[l]
  }

  /** The tray is one row, and its cards are a gap apart in it. */
  ghost predicate InTray(undated: seq<Card>, positions: map<nat, Point>, gapX: real, y: real) {
    forall i :: 0 <= i < |undated| ==> undated[i].id in positions && positions[undated[i].id] == Point(Gaps(i, gapX), y)
  }

  /** Further right is later; the earliest card is at 0, and the latest at the full span unless all are at one time. */
  ghost predicate ReadsAsTime(timed: seq<Card>, positions: map<nat, Point>, span: real) {
    && (forall c :: c in timed ==> c.id in positions)
    && (forall c, d :: c in timed && d in timed ==> (c.time <= d.time <==> positions[c.id].x <= positions[d.id].x))
    && (timed != [] ==> positions[timed[0].id].x == 0.0)
    && (timed != [] && timed[0].time < timed[|timed| - 1].time ==> positions[timed[|timed| - 1].id].x == span)
  }

  /** Each card stands at the x of its time, in its lane's row. */
  ghost predicate Placed(timed: seq<Card>, positions: map<nat, Point>, xs: seq<real>, laneOf: seq<nat>, gapY: real)
    requires |laneOf| == |xs| == |timed|
  {
    forall i :: 0 <= i < |timed| ==> timed[i].id in positions && positions[timed[i].id] == Point(xs[i], Gaps(laneOf[i], gapY))
  }

  lemma PositionedIsPlaced(timed: seq<Card>, positions: map<nat, Point>, xs: seq<real>, laneOf: seq<nat>, gapY: real)
    requires |laneOf| == |xs| == |timed| && Positioned(positions, timed, LanePoints(xs, laneOf, gapY))
    ensures Placed(timed, positions, xs, laneOf, gapY)
  {
    forall i | 0 <= i < |timed|
      ensures timed[i].id in positions && positions[timed[i].id] == Point(xs[i], Gaps(laneOf[i], gapY))
    {
      assert LanePoints(xs, laneOf, gapY)[i] == InLane(xs[i], laneOf[i], gapY);
    }
  }

  lemma PositionedIsTray(undated: seq<Card>, positions: map<nat, Point>, gapX: real, y: real)
    requires Positioned(positions, undated, TrayPoints(|undated|, gapX, y))
    ensures InTray(undated, positions, gapX, y)
  {
    forall i | 0 <= i < |undated| ensures undated[i].id in positions && positions[undated[i].id] == Point(Gaps(i, gapX), y) {
      assert TrayPoints(|undated|, gapX, y)[i] == Point(i as real * gapX, y);
    }
  }

  lemma PairApart(gapX: real, gapY: real, x: real, l: nat, u: real, m: nat)
    requires gapY > 0.0 && (l == m ==> x + gapX <= u || u + gapX <= x)
    ensures Apart(Point(x, Gaps(l, gapY)), Point(u, Gaps(m, gapY)), gapX, gapY)
  {
    hide Gaps;
    if l < m {
      OneGapMore(l, m, gapY);
    } else if m < l {
      OneGapMore(m, l, gapY);
    }
  }

  lemma LanesApart(timed: seq<Card>, positions: map<nat, Point>, xs: seq<real>, laneOf: seq<nat>, count: nat, gapX: real,
                   gapY: real)
    requires Packed(xs, gapX, laneOf, count) && |xs| == |timed| && gapY > 0.0
    requires Placed(timed, positions, xs, laneOf, gapY)
    ensures AllApart(timed, positions, gapX, gapY)
  {
    hide Apart, Gaps;
    forall c, d | c in timed && d in timed && c.id != d.id ensures IsApart(positions, c.id, d.id, gapX, gapY) {
      var i :| 0 <= i < |timed| && timed[i] == c;
      var j :| 0 <= j < |timed| && timed[j] == d;
      PairApart(gapX, gapY, xs[i], laneOf[i], xs[j], laneOf[j]);
    }
  }

  lemma {:induction false} LaneMember(timed: seq<Card>, laneOf: seq<nat>, lane: nat, n: nat) returns (i: nat)
    requires |laneOf| <= |timed| && n in LaneIds(timed, laneOf, lane)
    ensures i < |laneOf| && laneOf[i] == lane && timed[i].id == n
  {
    var last := |laneOf| - 1;
    if laneOf[last] == lane && timed[last].id == n {
      i := last;
    } else {
      i := LaneMember(timed, laneOf[..last], lane, n);
    }
  }

  lemma {:induction false} MemberOfLane(timed: seq<Card>, laneOf: seq<nat>, i: nat)
    requires i < |laneOf| <= |timed|
    ensures timed[i].id in LaneIds(timed, laneOf, laneOf[i])
  {
    var last := |laneOf| - 1;
    if i < last {
      MemberOfLane(timed, laneOf[..last], i);
    }
  }

  lemma LanesAreRows(timed: seq<Card>, positions: map<nat, Point>, xs: seq<real>, lanes: seq<seq<nat>>, laneOf: seq<nat>,
                     gapX: real, gapY: real)
    requires Packed(xs, gapX, laneOf, |lanes|) && |xs| == |timed| && Lists(lanes, timed, laneOf)
    requires Placed(timed, positions, xs, laneOf, gapY)
    ensures InRows(timed, positions, lanes, gapY)
  {
    LanesInUse(xs, gapX, laneOf, |lanes|);
    assert |laneOf| == |timed|;
    hide Packed, LaneIds, Gaps;
    forall l, n | 0 <= l < |lanes| && n in lanes[l] ensures n in positions && positions[n].y == Gaps(l, gapY) {
      assert lanes[l] == LaneIds(timed, laneOf, l);
      var i := LaneMember(timed, laneOf, l, n);
    }
    forall c | c in timed ensures exists l :: 0 <= l < |lanes| && c.id in lanes[l] {
      var i :| 0 <= i < |timed| && timed[i] == c;
      MemberOfLane(timed, laneOf, i);
      assert c.id in lanes[laneOf[i]];
    }
  }

  lemma LanesAreTime(timed: seq<Card>, opts: Options, positions: map<nat, Point>, laneOf: seq<nat>, count: nat, gapY: real)
    requires Packed(Xs(opts.Span(), timed), opts.GapX(), laneOf, count) && |laneOf| == |timed| && DistinctIds(timed)
    requires SortedBy(timed, Before) && forall c :: c in timed ==> c.dated
    requires Placed(timed, positions, Xs(opts.Span(), timed), laneOf, gapY)
    ensures ReadsAsTime(timed, positions, opts.Span())
  {
    var xs := Xs(opts.Span(), timed);
    hide Packed, Xs, DistinctIds, SortedBy, Gaps;
    forall i, j | 0 <= i < |timed| && 0 <= j < |timed| ensures timed[i].time <= timed[j].time <==> xs[i] <= xs[j] {
      if i < j {
        LanesReadAsTime(timed, opts, laneOf, count, i, j);
        InTimeOrder(timed, i, j);
      } else if j < i {
        LanesReadAsTime(timed, opts, laneOf, count, j, i);
        InTimeOrder(timed, j, i);
      }
    }
    if timed != [] {
      EndsOfTime(timed, opts);
    }
  }

  lemma InTimeOrder(timed: seq<Card>, i: nat, j: nat)
    requires SortedBy(timed, Before) && (forall c :: c in timed ==> c.dated) && i < j < |timed|
    ensures timed[i].time <= timed[j].time
  {
    assert timed[i] in timed && timed[j] in timed && !Before(timed[j], timed[i]);
  }

  lemma EndsOfTime(timed: seq<Card>, opts: Options)
    requires timed != [] && SortedBy(timed, Before) && forall c :: c in timed ==> c.dated
    ensures var xs, n := Xs(opts.Span(), timed), |timed|;
            xs[0] == 0.0 && (timed[0].time < timed[n - 1].time ==> xs[n - 1] == opts.Span())
  {
    XAt(opts.Span(), timed, 0);
    XAt(opts.Span(), timed, |timed| - 1);
    if |timed| > 1 {
      InTimeOrder(timed, 0, |timed| - 1);
    }
    XRises(opts.Span(), timed[0].time, timed[|timed| - 1].time, timed[0].time, timed[|timed| - 1].time);
  }

  lemma TrayApart(undated: seq<Card>, positions: map<nat, Point>, gapX: real, gapY: real, y: real)
    requires gapX > 0.0 && InTray(undated, positions, gapX, y)
    ensures AllApart(undated, positions, gapX, gapY)
  {
    hide Gaps;
    forall c, d | c in undated && d in undated && c.id != d.id ensures IsApart(positions, c.id, d.id, gapX, gapY) {
      var i :| 0 <= i < |undated| && undated[i] == c;
      var j :| 0 <= j < |undated| && undated[j] == d;
      if i < j {
        OneGapMore(i, j, gapX);
      } else {
        OneGapMore(j, i, gapX);
      }
    }
  }

  /** Some cards placed by p and the others by q, and no id in both. */
  ghost predicate Separate(cards: seq<Card>, timed: seq<Card>, undated: seq<Card>, p: map<nat, Point>, q: map<nat, Point>) {
    && (forall c :: c in cards <==> c in timed || c in undated)
    && (forall c :: c in timed ==> c.id in p && c.id !in q) && forall c :: c in undated ==> c.id in q
  }

  lemma AreSeparate(cards: seq<Card>, timed: seq<Card>, undated: seq<Card>, p: map<nat, Point>, q: map<nat, Point>)
    requires DistinctIds(cards) && forall c :: c in cards <==> c in timed || c in undated
    requires (forall c :: c in timed ==> c.dated) && forall c :: c in undated ==> !c.dated
    requires p.Keys == (set c | c in timed :: c.id) && q.Keys == set c | c in undated :: c.id
    ensures Separate(cards, timed, undated, p, q)
  {
    forall c | c in timed ensures c.id !in q {
      if d :| d in undated && d.id == c.id {
        SameCardInBoth(cards, c, d);
      }
    }
  }

  lemma SameCardInBoth(cards: seq<Card>, c: Card, d: Card)
    requires DistinctIds(cards) && c in cards && d in cards && c.id == d.id
    ensures c == d
  {
  }

  /** Every card of the layout is apart from every other, in a lane or in the tray. */
  lemma LayoutIsApart(cards: seq<Card>, timed: seq<Card>, undated: seq<Card>, p: map<nat, Point>, q: map<nat, Point>,
                      lanes: seq<seq<nat>>, gapX: real, gapY: real)
    requires Separate(cards, timed, undated, p, q) && gapY > 0.0
    requires AllApart(timed, p, gapX, gapY) && InRows(timed, p, lanes, gapY)
    requires AllApart(undated, q, gapX, gapY) && InTray(undated, q, gapX, Gaps(|lanes| + 1, gapY))
    ensures AllApart(cards, p + q, gapX, gapY)
  {
    hide AllApart, InRows, InTray, Gaps;
    var all := p + q;
    forall c, d | c in cards && d in cards && c.id != d.id ensures IsApart(all, c.id, d.id, gapX, gapY) {
      if c in timed && d in timed {
        BothIn(timed, p, gapX, gapY, c, d);
      } else if c in undated && d in undated {
        BothIn(undated, q, gapX, gapY, c, d);
      } else if c in timed {
        LaneAndTray(timed, undated, p, q, lanes, gapX, gapY, c, d);
      } else {
        LaneAndTray(timed, undated, p, q, lanes, gapX, gapY, d, c);
      }
    }
    AllPairs(cards, all, gapX, gapY);
  }

  lemma AllPairs(cards: seq<Card>, positions: map<nat, Point>, gapX: real, gapY: real)
    requires forall c, d :: c in cards && d in cards && c.id != d.id ==> IsApart(positions, c.id, d.id, gapX, gapY)
    ensures AllApart(cards, positions, gapX, gapY)
  {
  }

  lemma BothIn(cards: seq<Card>, positions: map<nat, Point>, gapX: real, gapY: real, c: Card, d: Card)
    requires AllApart(cards, positions, gapX, gapY) && c in cards && d in cards && c.id != d.id
    ensures IsApart(positions, c.id, d.id, gapX, gapY)
  {
  }

  /** A card in a lane is apart from one in the tray. */
  lemma LaneAndTray(timed: seq<Card>, undated: seq<Card>, p: map<nat, Point>, q: map<nat, Point>, lanes: seq<seq<nat>>,
                    gapX: real, gapY: real, c: Card, d: Card)
    requires c in timed && d in undated && gapY > 0.0
    requires InRows(timed, p, lanes, gapY) && InTray(undated, q, gapX, Gaps(|lanes| + 1, gapY))
    ensures c.id in p && d.id in q && Apart(p[c.id], q[d.id], gapX, gapY)
  {
    hide Gaps;
    var l :| 0 <= l < |lanes| && c.id in lanes[l];
    var i :| 0 <= i < |undated| && undated[i] == d;
    OneGapMore(l, |lanes| + 1, gapY);
  }

  lemma InBoth(cards: seq<Card>, timed: seq<Card>, undated: seq<Card>, p: map<nat, Point>, q: map<nat, Point>,
               lanes: seq<seq<nat>>, opts: Options, y: real)
    requires Separate(cards, timed, undated, p, q)
    requires InRows(timed, p, lanes, opts.GapY()) && ReadsAsTime(timed, p, opts.Span()) && InTray(undated, q, opts.GapX(), y)
    requires forall l, n :: 0 <= l < |lanes| && n in lanes[l] ==> exists c :: c in timed && c.id == n
    ensures InRows(timed, p + q, lanes, opts.GapY()) && ReadsAsTime(timed, p + q, opts.Span())
    ensures InTray(undated, p + q, opts.GapX(), y)
  {
    assert forall i :: 0 <= i < |timed| ==> timed[i] in timed;
    assert forall c :: c in timed ==> (p + q)[c.id] == p[c.id];
    hide Gaps;
  }

  lemma LanesHoldCards(timed: seq<Card>, lanes: seq<seq<nat>>, laneOf: seq<nat>)
    requires |laneOf| == |timed| && Lists(lanes, timed, laneOf)
    ensures forall l, n :: 0 <= l < |lanes| && n in lanes[l] ==> exists c :: c in timed && c.id == n
  {
    hide LaneIds;
    forall l, n | 0 <= l < |lanes| && n in lanes[l] ensures exists c :: c in timed && c.id == n {
      assert lanes[l] == LaneIds(timed, laneOf, l);
      var i := LaneMember(timed, laneOf, l, n);
      assert timed[i] in timed;
    }
  }

  /** The temporal layout of a set of cards: dated ones in lanes over time, the others in a tray one blank row
      below, each in the order of Cards.Before. Nothing else gets a position. */
  method TemporalLayout(cards: seq<Card>, opts: Options)
    returns (positions: map<nat, Point>, lanes: seq<seq<nat>>, tray: seq<nat>,
             ghost laneOf: seq<nat>, ghost at: real, ghost crowd: seq<nat>)
    requires DistinctIds(cards)
    ensures var timed, undated := SortBy(Picked(cards, true), Before), SortBy(Picked(cards, false), Before);
            var xs, y := Xs(opts.Span(), timed), (|lanes| + 1) as real * opts.GapY();
            && Packed(xs, opts.GapX(), laneOf, |lanes|)
            && Crowd(xs, opts.GapX(), at, crowd) && |crowd| == |lanes|
            && |laneOf| == |timed| && Lists(lanes, timed, laneOf)
            && tray == Ids(undated)
            && (exists p, q :: Positioned(p, timed, LanePoints(xs, laneOf, opts.GapY())) &&
                  Positioned(q, undated, TrayPoints(|undated|, opts.GapX(), y)) && positions == p + q)
    ensures positions.Keys == set c | c in cards :: c.id
    ensures AllApart(cards, positions, opts.GapX(), opts.GapY())
    ensures var timed := SortBy(Picked(cards, true), Before);
            InRows(timed, positions, lanes, opts.GapY()) && ReadsAsTime(timed, positions, opts.Span())
    ensures InTray(SortBy(Picked(cards, false), Before), positions, opts.GapX(), Gaps(|lanes| + 1, opts.GapY()))
  {
    hide *;
    var dated, undated := Split(cards);
    PickedCards(cards, true);
    PickedCards(cards, false);
    ghost var t := SortedCards(dated);
    ghost var u := SortedCards(undated);
    var timed := SortBy(dated, Before);
    undated := SortBy(undated, Before);
    var p;
    p, lanes, laneOf, at, crowd := PackLanes(timed, opts);
    var q;
    q, tray := LayTray(undated, opts.GapX(), (|lanes| + 1) as real * opts.GapY());
    positions := p + q;
    Covered(p, timed, LanePoints(Xs(opts.Span(), timed), laneOf, opts.GapY()));
    Covered(q, undated, TrayPoints(|undated|, opts.GapX(), (|lanes| + 1) as real * opts.GapY()));
    Drawn(cards, timed, undated, opts, p, q, lanes, laneOf);
  }

  lemma Drawn(cards: seq<Card>, timed: seq<Card>, undated: seq<Card>, opts: Options, p: map<nat, Point>, q: map<nat, Point>,
              lanes: seq<seq<nat>>, laneOf: seq<nat>)
    requires DistinctIds(cards) && forall c :: c in cards <==> c in timed || c in undated
    requires (forall c :: c in timed ==> c.dated) && forall c :: c in undated ==> !c.dated
    requires p.Keys == (set c | c in timed :: c.id) && q.Keys == set c | c in undated :: c.id
    requires AllApart(timed, p, opts.GapX(), opts.GapY()) && InRows(timed, p, lanes, opts.GapY())
    requires ReadsAsTime(timed, p, opts.Span()) && |laneOf| == |timed| && Lists(lanes, timed, laneOf)
    requires Positioned(q, undated, TrayPoints(|undated|, opts.GapX(), (|lanes| + 1) as real * opts.GapY()))
    ensures AllApart(cards, p + q, opts.GapX(), opts.GapY())
    ensures InRows(timed, p + q, lanes, opts.GapY()) && ReadsAsTime(timed, p + q, opts.Span())
    ensures InTray(undated, p + q, opts.GapX(), Gaps(|lanes| + 1, opts.GapY()))
  {
    var y := Gaps(|lanes| + 1, opts.GapY());
    hide DistinctIds, AllApart, InRows, ReadsAsTime, Lists, Positioned, TrayPoints, InTray, Separate;
    PositionedIsTray(undated, q, opts.GapX(), y);
    hide Gaps;
    AreSeparate(cards, timed, undated, p, q);
    TrayApart(undated, q, opts.GapX(), opts.GapY(), y);
    LayoutIsApart(cards, timed, undated, p, q, lanes, opts.GapX(), opts.GapY());
    LanesHoldCards(timed, lanes, laneOf);
    InBoth(cards, timed, undated, p, q, lanes, opts, y);
  }

  lemma Covered(positions: map<nat, Point>, cards: seq<Card>, at: seq<Point>)
    requires |at| == |cards| && Positioned(positions, cards, at)
    ensures positions.Keys == set c | c in cards :: c.id
  {
    assert cards[..|at|] == cards;
  }

  /** What the layout promises about two cards: in one lane they are a whole gap apart, time never runs backward
      along x, the earliest card is at 0 and the latest at the full span. */
  lemma LanesReadAsTime(timed: seq<Card>, opts: Options, laneOf: seq<nat>, count: nat, i: nat, j: nat)
    requires SortedBy(timed, Before) && DistinctIds(timed) && forall c :: c in timed ==> c.dated
    requires Packed(Xs(opts.Span(), timed), opts.GapX(), laneOf, count) && i < j < |timed|
    ensures var xs := Xs(opts.Span(), timed);
            && xs[i] <= xs[j]
            && (laneOf[i] == laneOf[j] ==> xs[i] + opts.GapX() <= xs[j])
            && (timed[i].time < timed[j].time <==> xs[i] < xs[j])
            && xs[0] == 0.0 && (timed[0].time < timed[|timed| - 1].time ==> xs[|timed| - 1] == opts.Span())
  {
    var span, first, last := opts.Span(), timed[0].time, timed[|timed| - 1].time;
    XsRise(span, timed);
    XRises(span, first, last, first, last);
    assert timed[i] in timed && timed[j] in timed && !Before(timed[j], timed[i]);
    assert timed[0] in timed && timed[|timed| - 1] in timed;
    assert first <= timed[i].time && timed[j].time <= last by {
      assert i > 0 ==> !Before(timed[i], timed[0]);
      assert j < |timed| - 1 ==> !Before(timed[|timed| - 1], timed[j]);
    }
    XRises(span, first, last, timed[i].time, timed[j].time);
  }
}
