/** Counting events and relations over time: a window is cut into equal slices, and the slices are counted as one
    series or as one series per lane. */
module Timeline {
  import opened Sorting
  import opened Sums

  // ---- Slices of a window ----------------------------------------------------------------------------

  /** Integer division the way the source's language does it: towards zero. */
  function Quotient(a: int, b: int): int
    requires b > 0
  {
    if a >= 0 then a / b else -(-a / b)
  }

  /** Equal slices of a window; times are in nanoseconds. */
  datatype Bucketing = Bucketing(from: int, to: int, width: int, count: nat) {

    predicate Valid() {
      width > 0 && count > 0
    }

    function Start(i: int): int {
      from + i * width
    }

    function End(i: int): int {
      if count == 1 then to else Start(i) + width
    }

    /** The slice of a time: the last slice takes everything after it, and -1 stands for before the window. */
    function IndexOf(ts: int): (i: int)
      requires Valid()
      ensures -1 <= i < count
    {
      if count == 1 then 0
      else
        var i := Quotient(ts - from, width);
        if i < 0 then -1 else if i >= count then count - 1 else i
    }
  }

  function NewBucketing(from: int, to: int, count: nat): (b: Bucketing)
    requires count > 0
    ensures b.Valid() && b.from == from && b.to == to && b.count <= count
  {
    var span := to - from;
    var width := Quotient(span, count);
    if span <= 0 || width <= 0 then Bucketing(from, to, 1, 1) else Bucketing(from, to, width, count)
  }

  /** How many slices are asked for. */
  function Slices(buckets: int): (n: nat)
    ensures n > 0
  {
    if buckets <= 0 then 240 else if buckets > 2000 then 2000 else buckets
  }

  /** A time in the window lies in its slice; only the last slice reaches past its end, to the end of the window, by
      less than one nanosecond for each slice asked for. */
  lemma SliceHoldsTime(from: int, to: int, count: nat, ts: int)
    requires count > 0 && from <= ts <= to
    ensures var b := NewBucketing(from, to, count); var i := b.IndexOf(ts);
            && 0 <= i < b.count && b.Start(i) <= ts
            && (i < b.count - 1 ==> ts < b.End(i))
            && (i == b.count - 1 ==> ts < b.End(i) + count || ts == b.End(i))
  {
    var b := NewBucketing(from, to, count);
    if b.count > 1 {
      var d, w := ts - from, b.width;
      DivideBounds(d, w);
      DivideBounds(to - from, count);
      if d / w >= count {
        GrowsWith(count - 1, d / w, w);
      }
      assert b.Start(count - 1) + w == from + count * w by {
        assert (count - 1) * w + w == count * w;
      }
    }
  }

  lemma DivideBounds(a: int, b: int)
    requires a >= 0 && b > 0
    ensures a / b >= 0 && (a / b) * b <= a < (a / b) * b + b
  {
  }

  lemma GrowsWith(a: int, b: int, w: int)
    requires a <= b && w > 0
    ensures a * w <= b * w
  {
    assert (b - a) * w >= 0;
  }

  /** Each slice begins where the one before it ends, and the first at the window's start. */
  lemma SlicesTile(from: int, to: int, count: nat, i: nat)
    requires count > 0
    ensures var b := NewBucketing(from, to, count);
            b.Start(0) == from && (i + 1 < b.count ==> b.End(i) == b.Start(i + 1))
  {
    var b := NewBucketing(from, to, count);
    assert (i + 1) * b.width == i * b.width + b.width;
  }

  /** A time counts as before the window exactly when there are several slices and it is a whole slice early: division
      towards zero puts what is less than a slice early into the first. */
  lemma BeforeTheWindowIff(b: Bucketing, ts: int)
    requires b.Valid()
    ensures b.IndexOf(ts) == -1 <==> b.count > 1 && ts <= b.from - b.width
  {
    var d := b.from - ts;
    if b.count > 1 && d > 0 {
      DivideBounds(d, b.width);
    }
  }

  /** One nanosecond before the window is not before the window, when a slice is longer than that. */
  lemma JustBeforeCountsAsFirst(b: Bucketing)
    requires b.Valid() && b.count > 1 && b.width > 1
    ensures b.IndexOf(b.from - 1) == 0
  {
    BeforeTheWindowIff(b, b.from - 1);
  }

  // ---- Counting --------------------------------------------------------------------------------------------

  /** A time with the lanes it counts in. */
  datatype Entry = Entry(at: int, keys: seq<string>)

  function Sum(s: seq<nat>): nat {
    if s == [] then 0 else Sum(s[..|s| - 1]) + s[|s| - 1]
  }

  lemma {:induction false} SumBump(s: seq<nat>, i: nat)
    requires i < |s|
    ensures Sum(s[i := s[i] + 1]) == Sum(s) + 1
  {
    var n := |s| - 1;
    if i == n {
      assert s[i := s[i] + 1][..n] == s[..n];
    } else {
      assert s[i := s[i] + 1][..n] == s[..n][i := s[i] + 1];
      SumBump(s[..n], i);
    }
  }

  lemma {:induction false} SumZeros(n: nat)
    ensures Sum(seq(n, _ => 0)) == 0
  {
    if n > 0 {
      assert seq(n, _ => 0)[..n - 1] == seq(n - 1, _ => 0);
      SumZeros(n - 1);
    }
  }

  /** How many entries fall in slice i. */
  function InSlice(entries: seq<Entry>, b: Bucketing, i: int): nat
    requires b.Valid()
  {
    if entries == [] then 0
    else InSlice(entries[..|entries| - 1], b, i) + if b.IndexOf(entries[|entries| - 1].at) == i then 1 else 0
  }

  /** How many lane entries fall in slice i. */
  function LaneEntries(entries: seq<Entry>, b: Bucketing, i: int): nat
    requires b.Valid()
  {
    if entries == [] then 0
    else
      var last := entries[|entries| - 1];
      LaneEntries(entries[..|entries| - 1], b, i) + if b.IndexOf(last.at) == i then |last.keys| else 0
  }

  type LaneCounts = map<string, seq<nat>>

  ghost predicate Sized(lanes: LaneCounts, n: nat) {
    forall k :: k in lanes ==> |lanes[k]| == n
  }

  ghost function ColumnOf(lanes: LaneCounts, i: nat): map<string, int> {
    map k | k in lanes :: if i < |lanes[k]| then lanes[k][i] else 0
  }

  /** What all lanes together count in slice i. */
  ghost function Column(lanes: LaneCounts, i: nat): int {
    SumMap(ColumnOf(lanes, i))
  }

  /** One more in a lane, which is made when it is first needed. */
  function AddTo(lanes: LaneCounts, key: string, i: nat, n: nat): LaneCounts
    requires i < n && (key in lanes ==> |lanes[key]| == n)
  {
    var counts := if key in lanes then lanes[key] else seq(n, _ => 0);
    lanes[key := counts[i := counts[i] + 1]]
  }

  lemma AddToColumn(lanes: LaneCounts, key: string, i: nat, n: nat, j: nat)
    requires i < n && j < n && Sized(lanes, n)
    ensures Sized(AddTo(lanes, key, i, n), n)
    ensures Column(AddTo(lanes, key, i, n), j) == Column(lanes, j) + if j == i then 1 else 0
  {
    var after := AddTo(lanes, key, i, n);
    assert ColumnOf(after, j) == ColumnOf(lanes, j)[key := after[key][j]];
    SumMapSet(ColumnOf(lanes, j), key, after[key][j]);
  }

  /** What one lane counts in slice i. */
  function CountAt(lanes: LaneCounts, key: string, i: nat): nat {
    if key in lanes && i < |lanes[key]| then lanes[key][i] else 0
  }

  /** How often the entries of slice i name a lane. */
  function LaneCount(entries: seq<Entry>, b: Bucketing, key: string, i: int): nat
    requires b.Valid()
  {
    if entries == [] then 0
    else
      var last := entries[|entries| - 1];
      LaneCount(entries[..|entries| - 1], b, key, i) + if b.IndexOf(last.at) == i then multiset(last.keys)[key] else 0
  }

  /** `more` has what `lanes` has, every one of the keys once more in slice i, and no other lane. */
  ghost predicate Added(lanes: LaneCounts, more: LaneCounts, keys: seq<string>, i: nat, n: nat) {
    && Sized(more, n)
    && (forall j :: 0 <= j < n ==> Column(more, j) == Column(lanes, j) + if j == i then |keys| else 0)
    && (forall k, j :: 0 <= j < n ==> CountAt(more, k, j) == CountAt(lanes, k, j) + if j == i then multiset(keys)[k] else 0)
    && (forall k :: k in more ==> k in lanes || k in keys)
  }

  lemma AddOneKey(lanes: LaneCounts, more: LaneCounts, keys: seq<string>, key: string, i: nat, n: nat)
    requires i < n && Sized(lanes, n) && Added(lanes, more, keys, i, n)
    ensures Added(lanes, AddTo(more, key, i, n), keys + [key], i, n)
  {
    var next := AddTo(more, key, i, n);
    forall j | 0 <= j < n ensures Column(next, j) == Column(more, j) + if j == i then 1 else 0 {
      AddToColumn(more, key, i, n, j);
    }
    AddToColumn(more, key, i, n, i);
    assert multiset(keys + [key]) == multiset(keys) + multiset{key};
    forall k, j | 0 <= j < n
      ensures CountAt(next, k, j) == CountAt(more, k, j) + if k == key && j == i then 1 else 0
    {
    }
  }

  /** Counts one entry in each of its lanes. */
  method AddKeys(lanes: LaneCounts, keys: seq<string>, i: nat, n: nat) returns (more: LaneCounts)
    requires i < n && Sized(lanes, n)
    ensures Added(lanes, more, keys, i, n)
  {
    more := lanes;
    for k := 0 to |keys|
      invariant Added(lanes, more, keys[..k], i, n)
    {
      AddOneKey(lanes, more, keys[..k], keys[k], i, n);
      assert keys[..k + 1] == keys[..k] + [keys[k]];
      assert Sized(more, n);
      hide Added, Sized;
      more := AddTo(more, keys[k], i, n);
    }
    assert keys[..|keys|] == keys;
  }

  ghost predicate Counted(counts: seq<nat>, entries: seq<Entry>, b: Bucketing)
    requires b.Valid()
  {
    |counts| == b.count && forall i :: 0 <= i < b.count ==> counts[i] == InSlice(entries, b, i)
  }

  ghost predicate InLanes(lanes: LaneCounts, entries: seq<Entry>, b: Bucketing)
    requires b.Valid()
  {
    && Sized(lanes, b.count)
    && (forall i :: 0 <= i < b.count ==> Column(lanes, i) == LaneEntries(entries, b, i))
    && (forall k, i :: 0 <= i < b.count ==> CountAt(lanes, k, i) == LaneCount(entries, b, k, i))
    && (forall k :: k in lanes ==> Used(lanes, k, b.count))
  }

  /** Something was counted in the lane. */
  ghost predicate Used(lanes: LaneCounts, key: string, n: nat) {
    exists i :: 0 <= i < n && CountAt(lanes, key, i) > 0
  }

  lemma StillUsed(lanes: LaneCounts, more: LaneCounts, keys: seq<string>, i: nat, n: nat)
    requires i < n && Added(lanes, more, keys, i, n) && forall k :: k in lanes ==> Used(lanes, k, n)
    ensures forall k :: k in more ==> Used(more, k, n)
  {
    forall k | k in more ensures Used(more, k, n) {
      if k in lanes {
        var j :| 0 <= j < n && CountAt(lanes, k, j) > 0;
        assert CountAt(more, k, j) > 0;
      } else {
        assert k in multiset(keys) && CountAt(more, k, i) > 0;
      }
    }
  }

  lemma CountNext(counts: seq<nat>, lanes: LaneCounts, more: LaneCounts, entries: seq<Entry>, e: Entry, b: Bucketing)
    requires b.Valid() && Counted(counts, entries, b) && InLanes(lanes, entries, b)
    requires b.IndexOf(e.at) >= 0 && Added(lanes, more, e.keys, b.IndexOf(e.at), b.count)
    ensures var i := b.IndexOf(e.at);
            && Counted(counts[i := counts[i] + 1], entries + [e], b) && InLanes(more, entries + [e], b)
            && Sum(counts[i := counts[i] + 1]) == Sum(counts) + 1
  {
    LanesNext(lanes, more, entries, e, b);
    SumBump(counts, b.IndexOf(e.at));
    hide InLanes, Added;
    assert (entries + [e])[..|entries|] == entries;
  }

  lemma LanesNext(lanes: LaneCounts, more: LaneCounts, entries: seq<Entry>, e: Entry, b: Bucketing)
    requires b.Valid() && InLanes(lanes, entries, b)
    requires b.IndexOf(e.at) >= 0 && Added(lanes, more, e.keys, b.IndexOf(e.at), b.count)
    ensures InLanes(more, entries + [e], b)
  {
    assert (entries + [e])[..|entries|] == entries;
    StillUsed(lanes, more, e.keys, b.IndexOf(e.at), b.count);
    hide Used, Column, CountAt;
  }

  lemma CountSkip(counts: seq<nat>, lanes: LaneCounts, entries: seq<Entry>, e: Entry, b: Bucketing)
    requires b.Valid() && Counted(counts, entries, b) && InLanes(lanes, entries, b) && b.IndexOf(e.at) < 0
    ensures Counted(counts, entries + [e], b) && InLanes(lanes, entries + [e], b)
  {
    assert (entries + [e])[..|entries|] == entries;
  }

  lemma NothingCounted(b: Bucketing)
    requires b.Valid()
    ensures Counted(seq(b.count, _ => 0), [], b) && InLanes(map[], [], b) && Sum(seq(b.count, _ => 0)) == 0
  {
    SumZeros(b.count);
    forall i | 0 <= i < b.count ensures Column(map[], i) == 0 {
      assert ColumnOf(map[], i) == map[];
    }
  }

  /** Counts one entry, unless it lies before the first slice. */
  method CountEntry(counts: seq<nat>, lanes: LaneCounts, ghost before: seq<Entry>, e: Entry, b: Bucketing)
    returns (now: seq<nat>, more: LaneCounts)
    requires b.Valid() && Counted(counts, before, b) && InLanes(lanes, before, b)
    ensures Counted(now, before + [e], b) && InLanes(more, before + [e], b)
    ensures Sum(now) == Sum(counts) + if b.IndexOf(e.at) >= 0 then 1 else 0
  {
    assert Sized(lanes, b.count) && |counts| == b.count;
    hide Counted, InLanes, Sized, Added, Sum;
    var i := b.IndexOf(e.at);
    if i < 0 {
      CountSkip(counts, lanes, before, e, b);
      return counts, lanes;
    }
    more := AddKeys(lanes, e.keys, i, b.count);
    CountNext(counts, lanes, more, before, e, b);
    now := counts[i := counts[i] + 1];
  }

  /** Counts every entry in its slice, and once in each of its lanes. */
  method Distribute(entries: seq<Entry>, b: Bucketing) returns (counts: seq<nat>, lanes: LaneCounts)
    requires b.Valid()
    ensures Counted(counts, entries, b) && InLanes(lanes, entries, b)
    ensures (forall e :: e in entries ==> b.IndexOf(e.at) >= 0) ==> Sum(counts) == |entries|
  {
    counts, lanes := seq(b.count, _ => 0), map[];
    NothingCounted(b);
    for k := 0 to |entries|
      invariant Counted(counts, entries[..k], b) && InLanes(lanes, entries[..k], b)
      invariant (forall e :: e in entries[..k] ==> b.IndexOf(e.at) >= 0) ==> Sum(counts) == k
    {
      hide Counted, InLanes, Sum;
      counts, lanes := CountEntry(counts, lanes, entries[..k], entries[k], b);
      assert entries[..k + 1] == entries[..k] + [entries[k]] && entries[k] in entries[..k + 1];
      assert forall e :: e in entries[..k] ==> e in entries[..k + 1];
    }
    assert entries[..|entries|] == entries;
  }

  // ---- Lanes ---------------------------------------------------------------------------------------------

  const MAX_LANES := 12
  const NO_LANE := "(none)"
  const OTHER_LANE := "(other)"

  datatype Lane = Lane(key: string, total: nat, counts: seq<nat>)

  function LaneOf(lanes: LaneCounts, key: string): Lane
    requires key in lanes
  {
    Lane(key, Sum(lanes[key]), lanes[key])
  }

  /** Busiest first, ties by key. */
  predicate Busier(a: Lane, b: Lane) {
    if a.total == b.total then LexLess(a.key, b.key) else a.total > b.total
  }

  lemma BusierIsStrict()
    ensures StrictOrder(Busier)
  {
    forall a, b | Busier(a, b) ensures !Busier(b, a) {
      if a.total == b.total {
        LexAsymmetric(a.key, b.key);
      }
    }
    forall a, b, c | Busier(a, b) ensures Busier(a, c) || Busier(c, b) {
      if a.total == b.total == c.total {
        LexCotransitive(a.key, b.key, c.key);
      }
    }
  }

  /** What a list of lanes counts in slice i. */
  function ColumnSum(lanes: seq<Lane>, i: nat): nat {
    if lanes == [] then 0
    else (if i < |lanes[0].counts| then lanes[0].counts[i] else 0) + ColumnSum(lanes[1..], i)
  }

  lemma {:induction false} ColumnSumJoin(a: seq<Lane>, b: seq<Lane>, i: nat)
    ensures ColumnSum(a + b, i) == ColumnSum(a, i) + ColumnSum(b, i)
  {
    if a == [] {
      assert a + b == b;
    } else {
      assert (a + b)[1..] == a[1..] + b;
      ColumnSumJoin(a[1..], b, i);
    }
  }

  lemma {:induction false} InsertColumn(x: Lane, s: seq<Lane>, i: nat)
    ensures ColumnSum(Insert(x, s, Busier), i) == ColumnSum([x], i) + ColumnSum(s, i)
  {
    if s == [] || !Busier(s[0], x) {
      ColumnSumJoin([x], s, i);
    } else {
      InsertColumn(x, s[1..], i);
      assert [x][1..] == [];
      assert ([s[0]] + Insert(x, s[1..], Busier))[1..] == Insert(x, s[1..], Busier);
    }
  }

  lemma {:induction false} SortColumn(s: seq<Lane>, i: nat)
    ensures ColumnSum(SortBy(s, Busier), i) == ColumnSum(s, i)
  {
    if s != [] {
      SortColumn(s[1..], i);
      InsertColumn(s[0], SortBy(s[1..], Busier), i);
      assert [s[0]][1..] == [];
    }
  }

  /** Every lane once, in whatever order a map yields them. */
  ghost predicate Listing(list: seq<Lane>, lanes: LaneCounts) {
    && (forall l :: l in list ==> l.key in lanes && l == LaneOf(lanes, l.key))
    && (forall k :: k in lanes ==> LaneOf(lanes, k) in list)
    && (forall i, j :: 0 <= i < j < |list| ==> list[i].key != list[j].key)
  }

  /** The lanes past the cap, folded into one. */
  function Other(rest: seq<Lane>, n: nat): Lane {
    Lane(OTHER_LANE, Totals(rest), seq(n, i requires 0 <= i < n => ColumnSum(rest, i)))
  }

  function Totals(lanes: seq<Lane>): nat {
    if lanes == [] then 0 else lanes[0].total + Totals(lanes[1..])
  }

  function Capped(sorted: seq<Lane>, n: nat): seq<Lane> {
    if |sorted| <= MAX_LANES then sorted else sorted[..MAX_LANES] + [Other(sorted[MAX_LANES..], n)]
  }

  /** Folding the quiet lanes keeps every column. */
  lemma CappedColumn(sorted: seq<Lane>, n: nat, i: nat)
    requires i < n
    ensures ColumnSum(Capped(sorted, n), i) == ColumnSum(sorted, i)
  {
    if |sorted| > MAX_LANES {
      var kept, rest := sorted[..MAX_LANES], sorted[MAX_LANES..];
      var other := Other(rest, n);
      assert sorted == kept + rest;
      ColumnSumJoin(kept, rest, i);
      ColumnSumJoin(kept, [other], i);
      assert [other][1..] == [];
      assert ColumnSum([other], i) == other.counts[i] + ColumnSum([], i);
    }
  }

  lemma {:induction false} CountDistinct(s: seq<Lane>, l: Lane)
    requires forall i, j :: 0 <= i < j < |s| ==> s[i].key != s[j].key
    ensures multiset(s)[l] == if l in s then 1 else 0
  {
    if s != [] {
      CountDistinct(s[1..], l);
      assert s == [s[0]] + s[1..];
      assert s[0] !in s[1..];
    }
  }

  /** The result does not depend on the order the map was read in. */
  lemma ListingDoesNotMatter(a: seq<Lane>, b: seq<Lane>, lanes: LaneCounts)
    requires Listing(a, lanes) && Listing(b, lanes)
    ensures SortBy(a, Busier) == SortBy(b, Busier)
  {
    BusierIsStrict();
    SortBySorts(a, Busier);
    SortBySorts(b, Busier);
    forall l ensures multiset(a)[l] == multiset(b)[l] {
      CountDistinct(a, l);
      CountDistinct(b, l);
    }
    assert multiset(a) == multiset(b);
    assert Separates(multiset(SortBy(a, Busier)), Busier) by {
      forall x, y | x in multiset(a) && y in multiset(a) && x != y ensures Busier(x, y) || Busier(y, x) {
        assert x in a && y in a;
        LexTotal(x.key, y.key);
      }
    }
    SortedIsUnique(SortBy(a, Busier), SortBy(b, Busier), Busier);
  }

  lemma ListNext(lanes: LaneCounts, list: seq<Lane>, k: string, i: nat)
    requires k in lanes
    ensures ColumnSum(list + [LaneOf(lanes, k)], i) == ColumnSum(list, i) + CountAt(lanes, k, i)
  {
    ColumnSumJoin(list, [LaneOf(lanes, k)], i);
    assert [LaneOf(lanes, k)][1..] == [];
    assert ColumnSum([], i) == 0;
  }

  /** The lanes of a map as a list. */
  method ListLanes(lanes: LaneCounts, n: nat) returns (list: seq<Lane>)
    requires Sized(lanes, n)
    ensures Listing(list, lanes) && forall i :: 0 <= i < n ==> ColumnSum(list, i) == Column(lanes, i)
  {
    list := [];
    var left := lanes.Keys;
    forall i | 0 <= i < n ensures ColumnOf(lanes, i) - (lanes.Keys - left) == ColumnOf(lanes, i) {
    }
    while left != {}
      invariant left <= lanes.Keys
      invariant forall l :: l in list ==> l.key in lanes && l.key !in left && l == LaneOf(lanes, l.key)
      invariant forall k :: k in lanes && k !in left ==> LaneOf(lanes, k) in list
      invariant forall i, j :: 0 <= i < j < |list| ==> list[i].key != list[j].key
      invariant forall i :: 0 <= i < n ==>
                  ColumnSum(list, i) + SumMap(ColumnOf(lanes, i) - (lanes.Keys - left)) == Column(lanes, i)
      decreases |left|
    {
      var k :| k in left;
      forall i | 0 <= i < n
        ensures ColumnSum(list + [LaneOf(lanes, k)], i) + SumMap(ColumnOf(lanes, i) - (lanes.Keys - (left - {k})))
                == Column(lanes, i)
      {
        ListNext(lanes, list, k, i);
        var rest := ColumnOf(lanes, i) - (lanes.Keys - left);
        SumMapAny(rest, k);
        assert rest - {k} == ColumnOf(lanes, i) - (lanes.Keys - (left - {k}));
      }
      list := list + [LaneOf(lanes, k)];
      left := left - {k};
    }
    forall i | 0 <= i < n ensures ColumnSum(list, i) == Column(lanes, i) {
      assert ColumnOf(lanes, i) - (lanes.Keys - left) == map[];
    }
  }

  /** No lane is shown behind a quieter one, none left to the last lane is busier than one shown, and a lane's total is
      what its slices add up to. */
  ghost predicate BusiestShown(out: seq<Lane>, list: seq<Lane>) {
    var shown := if |list| <= MAX_LANES then |list| else MAX_LANES;
    && |out| == shown + (if |list| > MAX_LANES then 1 else 0)
    && (forall i, j :: 0 <= i < j < shown ==> out[i].total >= out[j].total)
    && (forall i :: 0 <= i < shown ==> out[i] in list && out[i].total == Sum(out[i].counts))
    && (forall l, i :: l in list && l !in out[..shown] && 0 <= i < shown ==> l.total <= out[i].total)
    && (|list| > MAX_LANES ==> out[shown].key == OTHER_LANE)
  }

  lemma SortedByBusy(list: seq<Lane>, lanes: LaneCounts) returns (sorted: seq<Lane>)
    requires Listing(list, lanes)
    ensures sorted == SortBy(list, Busier) && |sorted| == |list| && forall l :: l in sorted <==> l in list
    ensures forall i, j :: 0 <= i < j < |sorted| ==> sorted[i].total >= sorted[j].total
    ensures forall i :: 0 <= i < |sorted| ==> sorted[i].total == Sum(sorted[i].counts)
  {
    sorted := SortBy(list, Busier);
    BusierIsStrict();
    SortBySorts(list, Busier);
    forall l ensures l in sorted <==> l in list {
      assert l in multiset(sorted) <==> l in multiset(list);
    }
    assert |multiset(sorted)| == |multiset(list)|;
    forall i, j | 0 <= i < j < |sorted| ensures sorted[i].total >= sorted[j].total {
      assert !Busier(sorted[j], sorted[i]);
    }
    forall i | 0 <= i < |sorted| ensures sorted[i].total == Sum(sorted[i].counts) {
      assert sorted[i] in sorted;
    }
  }

  lemma CappedShowsBusiest(list: seq<Lane>, lanes: LaneCounts, n: nat)
    requires Listing(list, lanes)
    ensures BusiestShown(Capped(SortBy(list, Busier), n), list)
  {
    hide SortBy, Listing, Sum, Other;
    var sorted := SortedByBusy(list, lanes);
    var out := Capped(sorted, n);
    var shown := if |list| <= MAX_LANES then |list| else MAX_LANES;
    forall i | 0 <= i < shown ensures out[i] == sorted[i] && out[i] in list && sorted[i] in out[..shown] {
      assert sorted[i] in sorted && out[..shown][i] == sorted[i];
    }
    forall l, i | l in list && l !in out[..shown] && 0 <= i < shown ensures l.total <= out[i].total {
      var k :| 0 <= k < |sorted| && sorted[k] == l;
    }
    assert |sorted| > MAX_LANES ==> out[shown] == Other(sorted[MAX_LANES..], n) && Other(sorted[MAX_LANES..], n).key == OTHER_LANE by {
      OtherKey(sorted, n);
    }
  }

  lemma OtherKey(sorted: seq<Lane>, n: nat)
    ensures |sorted| > MAX_LANES ==> Other(sorted[MAX_LANES..], n).key == OTHER_LANE
  {
  }

  /** Folds the quiet lanes into one. */
  method Fold(rest: seq<Lane>, n: nat) returns (other: Lane)
    ensures other == Other(rest, n)
  {
    var total := 0;
    var counts: seq<nat> := seq(n, _ => 0);
    for k := 0 to |rest|
      invariant |counts| == n && total + Totals(rest[k..]) == Totals(rest)
      invariant forall i :: 0 <= i < n ==> counts[i] + ColumnSum(rest[k..], i) == ColumnSum(rest, i)
    {
      var l := rest[k];
      assert rest[k..][1..] == rest[k + 1..];
      total := total + l.total;
      ghost var before := counts;
      for i := 0 to n
        invariant |counts| == n
        invariant forall j :: 0 <= j < n ==>
                    counts[j] == before[j] + if j < i && j < |l.counts| then l.counts[j] else 0
      {
        if i < |l.counts| {
          counts := counts[i := counts[i] + l.counts[i]];
        }
      }
    }
    assert rest[|rest|..] == [];
    assert counts == Other(rest, n).counts;
    other := Lane(OTHER_LANE, total, counts);
  }

  /** Lanes busiest first, everything past the cap in one more. */
  method BuildLanes(lanes: LaneCounts, n: nat) returns (out: seq<Lane>, ghost list: seq<Lane>)
    requires Sized(lanes, n)
    ensures BusiestShown(out, list)
    ensures Listing(list, lanes) && out == Capped(SortBy(list, Busier), n) && |out| <= MAX_LANES + 1
    ensures forall i :: 0 <= i < n ==> ColumnSum(out, i) == Column(lanes, i)
  {
    var listed := ListLanes(lanes, n);
    list := listed;
    var sorted := SortBy(listed, Busier);
    forall i | 0 <= i < n ensures ColumnSum(Capped(sorted, n), i) == Column(lanes, i) {
      SortColumn(listed, i);
      CappedColumn(sorted, n, i);
    }
    CappedShowsBusiest(listed, lanes, n);
    hide SortBy, Listing, Column, BusiestShown, Other;
    if |sorted| <= MAX_LANES {
      return sorted, list;
    }
    var other := Fold(sorted[MAX_LANES..], n);
    out := sorted[..MAX_LANES] + [other];
  }

  /** With one lane to an entry, the lanes of a slice add up to what the slice counts. */
  lemma {:induction false} OneLaneEach(entries: seq<Entry>, b: Bucketing, i: int)
    requires b.Valid() && forall e :: e in entries ==> |e.keys| == 1
    ensures LaneEntries(entries, b, i) == InSlice(entries, b, i)
  {
    if entries != [] {
      var n := |entries| - 1;
      assert entries[n] in entries;
      assert forall e :: e in entries[..n] ==> e in entries;
      OneLaneEach(entries[..n], b, i);
    }
  }

  // ---- The timeline of a set of events ----------------------------------------------------------------------

  datatype When = Never | At(ns: int)

  /** What the timeline reads of an event. `graphs` are the graphs its relations belong to. */
  datatype Row = Row(time: When, provider: string, channel: string, user: string, computer: string, graphs: seq<string>)

  const BY_PROVIDER := "provider"
  const BY_CHANNEL := "channel"
  const BY_USER := "user"
  const BY_COMPUTER := "computer"
  const BY_GRAPH := "graph"

  function LaneKey(groupBy: string, r: Row): string {
    var key :=
      if groupBy == BY_PROVIDER then r.provider else if groupBy == BY_CHANNEL then r.channel
      else if groupBy == BY_USER then r.user else if groupBy == BY_COMPUTER then r.computer else "";
    if key == "" then NO_LANE else key
  }

  /** The lanes an event counts in: none without a grouping, each of its graphs, or the one its field names. */
  function Keys(groupBy: string, r: Row): (keys: seq<string>)
    ensures groupBy != "" ==> |keys| >= 1
    ensures groupBy != "" && groupBy != BY_GRAPH ==> |keys| == 1
  {
    if groupBy == "" then []
    else if groupBy == BY_GRAPH then (if |r.graphs| == 0 then [NO_LANE] else r.graphs)
    else [LaneKey(groupBy, r)]
  }

  /** Grouped by one of their fields, two events share a lane exactly when they agree in that field. */
  lemma SameLaneIff(r: Row, s: Row)
    requires forall t :: t in {r, s} ==> NO_LANE !in {t.provider, t.channel, t.user, t.computer}
    ensures Keys("provider", r) == Keys("provider", s) <==> r.provider == s.provider
    ensures Keys("channel", r) == Keys("channel", s) <==> r.channel == s.channel
    ensures Keys("user", r) == Keys("user", s) <==> r.user == s.user
    ensures Keys("computer", r) == Keys("computer", s) <==> r.computer == s.computer
    ensures r.graphs != [] && s.graphs != [] ==> (Keys("graph", r) == Keys("graph", s) <==> r.graphs == s.graphs)
  {
  }

  /** Does an event lie within the bounds a filter asks for? One without a time is before every bound. */
  predicate Within(r: Row, from: When, to: When) {
    && (from.At? ==> r.time.At? && from.ns <= r.time.ns)
    && (to.At? && r.time.At? ==> r.time.ns <= to.ns)
  }

  datatype Summary = Summary(dated: nat, undated: nat, slices: Bucketing, counts: seq<nat>, lanes: seq<Lane>)

  /** The events within the bounds that have a time, with the lanes they count in. */
  function Dated(rows: seq<Row>, from: When, to: When, groupBy: string): seq<Entry> {
    if rows == [] then []
    else
      var last := rows[|rows| - 1];
      Dated(rows[..|rows| - 1], from, to, groupBy)
      + if Within(last, from, to) && last.time.At? then [Entry(last.time.ns, Keys(groupBy, last))] else []
  }

  function Undated(rows: seq<Row>, from: When, to: When): nat {
    if rows == [] then 0
    else
      var last := rows[|rows| - 1];
      Undated(rows[..|rows| - 1], from, to) + if Within(last, from, to) && last.time.Never? then 1 else 0
  }

  lemma {:induction false} DatedWithin(rows: seq<Row>, from: When, to: When, groupBy: string)
    ensures forall e :: e in Dated(rows, from, to, groupBy) ==>
              (from.At? ==> from.ns <= e.at) && (to.At? ==> e.at <= to.ns)
              && (groupBy != "" && groupBy != BY_GRAPH ==> |e.keys| == 1)
  {
    if rows != [] {
      DatedWithin(rows[..|rows| - 1], from, to, groupBy);
    }
  }

  /** The entry stands for an event with a time within the bounds. */
  predicate StandsFor(e: Entry, r: Row, from: When, to: When, groupBy: string) {
    r.time == At(e.at) && e.keys == Keys(groupBy, r) && (from.At? ==> from.ns <= e.at) && (to.At? ==> e.at <= to.ns)
  }

  lemma OneDated(r: Row, from: When, to: When, groupBy: string, e: Entry)
    ensures StandsFor(e, r, from, to, groupBy) <==> Within(r, from, to) && r.time.At? && e == Entry(r.time.ns, Keys(groupBy, r))
  {
  }

  /** Every event with a time within the bounds is counted, and no other. */
  lemma {:induction false} DatedAre(rows: seq<Row>, from: When, to: When, groupBy: string, e: Entry)
    ensures e in Dated(rows, from, to, groupBy) <==> exists r :: r in rows && StandsFor(e, r, from, to, groupBy)
  {
    if rows != [] {
      var n := |rows| - 1;
      DatedAre(rows[..n], from, to, groupBy, e);
      OneDated(rows[n], from, to, groupBy, e);
      hide Keys, StandsFor, Within;
      assert rows == rows[..n] + [rows[n]];
      if StandsFor(e, rows[n], from, to, groupBy) {
        assert rows[n] in rows;
      }
      if r :| r in rows[..n] && StandsFor(e, r, from, to, groupBy) {
        assert r in rows;
      }
    }
  }

  /** Without bounds every event is counted as dated or undated. With a lower bound those without a time are not. */
  lemma {:induction false} EveryEventCounts(rows: seq<Row>, to: When, groupBy: string)
    ensures |Dated(rows, Never, Never, groupBy)| + Undated(rows, Never, Never) == |rows|
    ensures forall from: When :: from.At? ==> Undated(rows, from, to) == 0
    ensures Undated(rows, Never, to) == Undated(rows, Never, Never)
  {
    if rows != [] {
      EveryEventCounts(rows[..|rows| - 1], to, groupBy);
    }
  }

  function LaterOf(t: int, bound: When): int {
    if bound.At? && bound.ns > t then bound.ns else t
  }

  function EarlierOf(t: int, bound: When): int {
    if bound.At? && bound.ns < t then bound.ns else t
  }

  /** The lanes shown over slices: those the entries count in, busiest first, the quiet ones folded into one. */
  ghost predicate Shows(lanes: seq<Lane>, entries: seq<Entry>, b: Bucketing)
    requires b.Valid()
  {
    exists counts, list ::
      InLanes(counts, entries, b) && Listing(list, counts) && lanes == Capped(SortBy(list, Busier), b.count)
  }

  /** The window runs from the first entry to the last. */
  ghost predicate Spans(b: Bucketing, entries: seq<Entry>, n: nat)
    requires n > 0
  {
    && b == NewBucketing(b.from, b.to, n) && (forall e :: e in entries ==> b.from <= e.at <= b.to)
    && (exists e :: e in entries && e.at == b.from) && (exists e :: e in entries && e.at == b.to)
  }

  /** The first and last time of a list of entries. */
  method Extent(entries: seq<Entry>) returns (first: int, last: int)
    requires entries != []
    ensures first <= last && forall e :: e in entries ==> first <= e.at <= last
    ensures (exists e :: e in entries && e.at == first) && (exists e :: e in entries && e.at == last)
  {
    first, last := entries[0].at, entries[0].at;
    for i := 1 to |entries|
      invariant first <= last && forall e :: e in entries[..i] ==> first <= e.at <= last
      invariant (exists e :: e in entries && e.at == first) && (exists e :: e in entries && e.at == last)
    {
      assert entries[..i + 1] == entries[..i] + [entries[i]];
      assert entries[i] in entries;
      if entries[i].at < first {
        first := entries[i].at;
      }
      if entries[i].at > last {
        last := entries[i].at;
      }
    }
    assert entries[..|entries|] == entries;
  }

  method GroupLanes(counts: LaneCounts, entries: seq<Entry>, b: Bucketing) returns (lanes: seq<Lane>)
    requires b.Valid() && InLanes(counts, entries, b)
    ensures Shows(lanes, entries, b)
    ensures forall i :: 0 <= i < b.count ==> ColumnSum(lanes, i) == LaneEntries(entries, b, i)
  {
    hide LaneEntries, Column, Listing, Capped, SortBy, ColumnSum;
    ghost var list;
    lanes, list := BuildLanes(counts, b.count);
  }

  /** What a timeline is: the dated events within the bounds, counted in all, by slice, and by lane. */
  ghost predicate Charted(s: Summary, rows: seq<Row>, timeFrom: When, timeTo: When, buckets: int, groupBy: string) {
    var entries := Dated(rows, timeFrom, timeTo, groupBy);
    && s.dated == |entries| && s.undated == Undated(rows, timeFrom, timeTo)
    && (s.dated > 0 ==>
          && s.slices.Valid() && Sum(s.counts) == s.dated && Spans(s.slices, entries, Slices(buckets))
          && Counted(s.counts, entries, s.slices)
          && (groupBy != "" ==> Shows(s.lanes, entries, s.slices))
          && (groupBy != "" ==> forall i :: 0 <= i < s.slices.count ==> ColumnSum(s.lanes, i) == LaneEntries(entries, s.slices, i))
          && (groupBy != "" && groupBy != BY_GRAPH ==> forall i :: 0 <= i < s.slices.count ==> ColumnSum(s.lanes, i) == s.counts[i]))
  }

  /** Counts the events of a window: in all, by slice, and by lane. */
  method TimelineGrouped(rows: seq<Row>, timeFrom: When, timeTo: When, buckets: int, groupBy: string)
    returns (s: Summary)
    ensures Charted(s, rows, timeFrom, timeTo, buckets, groupBy)
    ensures s.dated > 0 && groupBy != "" && !KnownGrouping(groupBy) ==>
              |s.lanes| == 1 && s.lanes[0].key == NO_LANE && s.lanes[0].counts == s.counts
  {
    hide Charted, KnownGrouping;
    s := Chart(rows, timeFrom, timeTo, buckets, groupBy);
    if s.dated > 0 && groupBy != "" && !KnownGrouping(groupBy) {
      ChartedAsOneLane(s, rows, timeFrom, timeTo, buckets, groupBy);
    }
  }

  lemma ChartedAsOneLane(s: Summary, rows: seq<Row>, timeFrom: When, timeTo: When, buckets: int, groupBy: string)
    requires Charted(s, rows, timeFrom, timeTo, buckets, groupBy) && s.dated > 0
    requires groupBy != "" && !KnownGrouping(groupBy)
    ensures |s.lanes| == 1 && s.lanes[0].key == NO_LANE && s.lanes[0].counts == s.counts
  {
    var entries := Dated(rows, timeFrom, timeTo, groupBy);
    hide KnownGrouping, Shows, Sum, ColumnSum, LaneEntries, InSlice, Dated;
    InWindow(entries, s.slices.from, s.slices.to, Slices(buckets));
    UnknownGroupingIsOneLane(rows, timeFrom, timeTo, groupBy, s.slices, s.lanes);
  }

  /** Keeps the dated events within the bounds, and counts those without a time. */
  method Collect(rows: seq<Row>, timeFrom: When, timeTo: When, groupBy: string) returns (entries: seq<Entry>, undated: nat)
    ensures entries == Dated(rows, timeFrom, timeTo, groupBy) && undated == Undated(rows, timeFrom, timeTo)
  {
    hide Within, Keys;
    entries, undated := [], 0;
    for i := 0 to |rows|
      invariant entries == Dated(rows[..i], timeFrom, timeTo, groupBy) && undated == Undated(rows[..i], timeFrom, timeTo)
    {
      assert rows[..i + 1][..i] == rows[..i];
      if !Within(rows[i], timeFrom, timeTo) {
        continue;
      }
      if rows[i].time.Never? {
        undated := undated + 1;
      } else {
        entries := entries + [Entry(rows[i].time.ns, Keys(groupBy, rows[i]))];
      }
    }
    assert rows[..|rows|] == rows;
  }

  method Chart(rows: seq<Row>, timeFrom: When, timeTo: When, buckets: int, groupBy: string) returns (s: Summary)
    ensures Charted(s, rows, timeFrom, timeTo, buckets, groupBy)
  {
    hide Within, Keys, InSlice, LaneEntries, Column, Listing, Capped, SortBy, ColumnSum, Sum, Dated, Undated;
    var entries, undated := Collect(rows, timeFrom, timeTo, groupBy);
    if |entries| == 0 {
      return Summary(0, undated, Bucketing(0, 0, 1, 1), [], []);
    }
    DatedWithin(rows, timeFrom, timeTo, groupBy);
    var from, to := Extent(entries);
    from, to := LaterOf(from, timeFrom), EarlierOf(to, timeTo);
    var b := NewBucketing(from, to, Slices(buckets));
    InWindow(entries, from, to, Slices(buckets));
    var counts, laneCounts := Distribute(entries, b);
    hide InLanes, Shows;
    var lanes := [];
    if groupBy != "" {
      lanes := GroupLanes(laneCounts, entries, b);
      if groupBy != BY_GRAPH {
        OneLane(entries, b);
      }
    }
    s := Summary(|entries|, undated, b, counts, lanes);
  }

  lemma InWindow(entries: seq<Entry>, from: int, to: int, n: nat)
    requires n > 0 && forall e :: e in entries ==> from <= e.at <= to
    ensures forall e :: e in entries ==> NewBucketing(from, to, n).IndexOf(e.at) >= 0
  {
    forall e | e in entries ensures NewBucketing(from, to, n).IndexOf(e.at) >= 0 {
      SliceHoldsTime(from, to, n, e.at);
    }
  }

  /** The groupings there are. */
  predicate KnownGrouping(groupBy: string) {
    groupBy in {BY_PROVIDER, BY_CHANNEL, BY_USER, BY_COMPUTER, BY_GRAPH}
  }

  /** A grouping puts every event there can be in the lane for events without a value exactly when there is no such
      grouping. */
  lemma EverythingIsNoneIff(groupBy: string)
    requires groupBy != ""
    ensures (forall r: Row :: Keys(groupBy, r) == [NO_LANE]) <==> !KnownGrouping(groupBy)
  {
    var r := Row(Never, "x", "x", "x", "x", ["x"]);
    assert KnownGrouping(groupBy) ==> Keys(groupBy, r) == ["x"];
  }

  /** Then the whole timeline is shown as one lane of that name, over counts that are those of the slices. */
  lemma UnknownGroupingIsOneLane(rows: seq<Row>, from: When, to: When, groupBy: string, b: Bucketing, lanes: seq<Lane>)
    requires groupBy != "" && !KnownGrouping(groupBy) && b.Valid()
    requires var entries := Dated(rows, from, to, groupBy);
             entries != [] && Shows(lanes, entries, b) && forall e :: e in entries ==> b.IndexOf(e.at) >= 0
    ensures |lanes| == 1 && lanes[0].key == NO_LANE && |lanes[0].counts| == b.count
    ensures forall i :: 0 <= i < b.count ==> lanes[0].counts[i] == InSlice(Dated(rows, from, to, groupBy), b, i)
  {
    var entries := Dated(rows, from, to, groupBy);
    var counts, list :| InLanes(counts, entries, b) && Listing(list, counts) && lanes == Capped(SortBy(list, Busier), b.count);
    EverythingIsNoneIff(groupBy);
    AllOneKey(rows, from, to, groupBy);
    OneKeyOneLane(entries, b, NO_LANE, counts);
    OneLaneListed(list, counts, NO_LANE);
    assert lanes == list;
  }

  lemma {:induction false} AllOneKey(rows: seq<Row>, from: When, to: When, groupBy: string)
    requires forall r: Row :: Keys(groupBy, r) == [NO_LANE]
    ensures forall e :: e in Dated(rows, from, to, groupBy) ==> e.keys == [NO_LANE]
  {
    if rows != [] {
      AllOneKey(rows[..|rows| - 1], from, to, groupBy);
    }
  }

  lemma {:induction false} OneKeyCounts(entries: seq<Entry>, b: Bucketing, key: string, k: string, i: int)
    requires b.Valid() && forall e :: e in entries ==> e.keys == [key]
    ensures LaneCount(entries, b, k, i) == if k == key then InSlice(entries, b, i) else 0
  {
    if entries != [] {
      OneKeyCounts(entries[..|entries| - 1], b, key, k, i);
      assert entries[|entries| - 1] in entries;
    }
  }

  lemma OneKeyOneLane(entries: seq<Entry>, b: Bucketing, key: string, counts: LaneCounts)
    requires b.Valid() && InLanes(counts, entries, b) && entries != []
    requires forall e :: e in entries ==> e.keys == [key] && b.IndexOf(e.at) >= 0
    ensures counts.Keys == {key} && |counts[key]| == b.count
    ensures forall i :: 0 <= i < b.count ==> counts[key][i] == InSlice(entries, b, i)
  {
    assert Sized(counts, b.count);
    forall k, i | 0 <= i < b.count ensures CountAt(counts, k, i) == if k == key then InSlice(entries, b, i) else 0 {
      OneKeyCounts(entries, b, key, k, i);
    }
    var e := entries[|entries| - 1];
    assert e in entries;
    assert InSlice(entries, b, b.IndexOf(e.at)) > 0;
    forall k | k in counts ensures k == key {
      assert Used(counts, k, b.count);
    }
    hide InLanes, LaneCount, InSlice;
    var i := b.IndexOf(e.at);
    assert CountAt(counts, key, i) > 0;
    forall i | 0 <= i < b.count ensures counts[key][i] == InSlice(entries, b, i) {
      assert counts[key][i] == CountAt(counts, key, i);
    }
  }

  lemma OneLaneListed(list: seq<Lane>, counts: LaneCounts, key: string)
    requires Listing(list, counts) && counts.Keys == {key}
    ensures list == [LaneOf(counts, key)] && SortBy(list, Busier) == list
  {
    assert LaneOf(counts, key) in list;
    forall i | 0 <= i < |list| ensures list[i] == LaneOf(counts, key) {
      assert list[i] in list;
    }
    assert |list| > 1 ==> list[0].key != list[1].key;
    assert list[1..] == [];
  }

  lemma OneLane(entries: seq<Entry>, b: Bucketing)
    requires b.Valid() && forall e :: e in entries ==> |e.keys| == 1
    ensures forall i :: 0 <= i < b.count ==> LaneEntries(entries, b, i) == InSlice(entries, b, i)
  {
    forall i | 0 <= i < b.count ensures LaneEntries(entries, b, i) == InSlice(entries, b, i) {
      OneLaneEach(entries, b, i);
    }
  }

  // ---- The heatmap of a graph's relations ---------------------------------------------------------------------

  datatype View = View(time: When, computer: string)

  datatype Relation = Relation(source: nat, target: nat, ruleId: string, kind: string, createdBy: string,
                               algorithm: string, step: nat, version: nat)

  datatype Moment = Unplaced | Placed(at: int, anchor: nat)

  /** When a relation became true: at the later of its two ends, if both have a time. */
  function RelationTime(r: Relation, views: map<nat, View>): Moment {
    if r.source !in views || r.target !in views || views[r.source].time.Never? || views[r.target].time.Never? then Unplaced
    else if views[r.target].time.ns > views[r.source].time.ns then Placed(views[r.target].time.ns, r.target)
    else Placed(views[r.source].time.ns, r.source)
  }

  lemma RelationTimeIsLater(r: Relation, views: map<nat, View>)
    ensures RelationTime(r, views).Placed? <==>
            r.source in views && r.target in views && views[r.source].time.At? && views[r.target].time.At?
    ensures RelationTime(r, views).Placed? ==>
            var m := RelationTime(r, views);
            && m.anchor in {r.source, r.target} && m.at == views[m.anchor].time.ns
            && m.at >= views[r.source].time.ns && m.at >= views[r.target].time.ns
  {
  }

  const BY_RULE := "rule"
  const BY_KIND := "relation_type"
  const BY_CREATOR := "created_by"
  const BY_STEP := "step"
  const LINEAGE := "lineage"

  /** Nothing but white space, as the language the source is written in knows it. */
  predicate Blank(t: string) {
    forall c :: c in t ==> WhiteSpace(c as int)
  }

  predicate WhiteSpace(c: int) {
    9 <= c <= 13 || c == 0x20 || c == 0x85 || c == 0xa0 || c == 0x1680 || 0x2000 <= c <= 0x200a
    || c in {0x2028, 0x2029, 0x202f, 0x205f, 0x3000}
  }

  function HeatmapKey(groupBy: string, r: Relation, anchor: nat, views: map<nat, View>): string {
    if groupBy == BY_STEP && (r.version == 0 || r.ruleId == "" || r.algorithm == LINEAGE) then NO_LANE
    else
      var key :=
        if groupBy == BY_RULE then r.ruleId else if groupBy == BY_KIND then r.kind
        else if groupBy == BY_CREATOR then r.createdBy else if groupBy == BY_STEP then "step " + Decimal(r.step + 1)
        else if groupBy == BY_COMPUTER && anchor in views then views[anchor].computer else "";
      if Blank(key) then NO_LANE else key
  }

  /** Grouped by one of their parts, two relations share a lane exactly when they agree in it. */
  lemma SameHeatLaneIff(r: Relation, s: Relation, a: nat, b: nat, views: map<nat, View>)
    requires forall t :: t in {r, s} ==>
               !Blank(t.ruleId) && !Blank(t.kind) && !Blank(t.createdBy) && NO_LANE !in {t.ruleId, t.kind, t.createdBy}
    requires a in views && b in views && !Blank(views[a].computer) && !Blank(views[b].computer)
    requires NO_LANE !in {views[a].computer, views[b].computer}
    ensures HeatmapKey("rule", r, a, views) == HeatmapKey("rule", s, b, views) <==> r.ruleId == s.ruleId
    ensures HeatmapKey("relation_type", r, a, views) == HeatmapKey("relation_type", s, b, views) <==> r.kind == s.kind
    ensures HeatmapKey("created_by", r, a, views) == HeatmapKey("created_by", s, b, views) <==> r.createdBy == s.createdBy
    ensures HeatmapKey("computer", r, a, views) == HeatmapKey("computer", s, b, views) <==>
            views[a].computer == views[b].computer
  {
  }

  predicate KnownHeatmapGrouping(groupBy: string) {
    groupBy in {BY_RULE, BY_KIND, BY_COMPUTER, BY_CREATOR, BY_STEP}
  }

  datatype Heat = Heat(total: nat, undated: nat, outside: nat, placed: nat, slices: Bucketing, counts: seq<nat>,
                       lanes: seq<Lane>, max: nat)

  datatype Answer = UnknownGrouping | Drawn(heat: Heat)

  /** m is the largest count of any lane, 0 without lanes. */
  ghost predicate Largest(lanes: seq<Lane>, m: nat) {
    && (forall l, i :: 0 <= l < |lanes| && 0 <= i < |lanes[l].counts| ==> lanes[l].counts[i] <= m)
    && (m > 0 ==> exists l, i :: 0 <= l < |lanes| && 0 <= i < |lanes[l].counts| && lanes[l].counts[i] == m)
  }

  method LargestCount(lanes: seq<Lane>) returns (m: nat)
    ensures Largest(lanes, m)
  {
    m := 0;
    for l := 0 to |lanes|
      invariant Largest(lanes[..l], m)
    {
      var counts := lanes[l].counts;
      for i := 0 to |counts|
        invariant forall k, j :: 0 <= k < l && 0 <= j < |lanes[k].counts| ==> lanes[k].counts[j] <= m
        invariant forall j :: 0 <= j < i ==> counts[j] <= m
        invariant m > 0 ==> exists k, j :: 0 <= k <= l && 0 <= j < |lanes[k].counts| && lanes[k].counts[j] == m
      {
        if counts[i] > m {
          m := counts[i];
          assert lanes[l].counts[i] == m;
        }
      }
      assert forall k :: 0 <= k <= l ==> lanes[..l + 1][k] == lanes[k];
    }
    assert lanes[..|lanes|] == lanes;
  }

  /** The relations with a moment inside the window, each with its lane. */
  function Placeable(rels: seq<Relation>, views: map<nat, View>, winFrom: When, winTo: When, groupBy: string): seq<Entry> {
    if rels == [] then []
    else
      var last, before := rels[|rels| - 1], Placeable(rels[..|rels| - 1], views, winFrom, winTo, groupBy);
      match RelationTime(last, views)
      case Unplaced => before
      case Placed(at, anchor) =>
        if (winFrom.At? && at < winFrom.ns) || (winTo.At? && at > winTo.ns) then before
        else before + [Entry(at, [HeatmapKey(groupBy, last, anchor, views)])]
  }

  function Unplaceable(rels: seq<Relation>, views: map<nat, View>): nat {
    if rels == [] then 0
    else
      Unplaceable(rels[..|rels| - 1], views) + if RelationTime(rels[|rels| - 1], views).Unplaced? then 1 else 0
  }

  lemma {:induction false} PlaceableWithin(rels: seq<Relation>, views: map<nat, View>, winFrom: When, winTo: When,
                                           groupBy: string)
    ensures forall e :: e in Placeable(rels, views, winFrom, winTo, groupBy) ==>
              |e.keys| == 1 && (winFrom.At? ==> winFrom.ns <= e.at) && (winTo.At? ==> e.at <= winTo.ns)
  {
    if rels != [] {
      PlaceableWithin(rels[..|rels| - 1], views, winFrom, winTo, groupBy);
    }
  }

  /** Buckets relations over a window. Every relation is placed, or counted as lying outside, or as having no time. */
  method RelationHeatmap(rels: seq<Relation>, views: map<nat, View>, winFrom: When, winTo: When, buckets: int,
                         groupBy: string)
    returns (a: Answer)
    ensures a.UnknownGrouping? <==> groupBy != "" && !KnownHeatmapGrouping(groupBy)
    ensures a.Drawn? ==> Draws(a.heat, rels, views, winFrom, winTo, if groupBy == "" then BY_RULE else groupBy)
  {
    var group := if groupBy == "" then BY_RULE else groupBy;
    if !KnownHeatmapGrouping(group) {
      return UnknownGrouping;
    }
    var h := DrawHeatmap(rels, views, winFrom, winTo, buckets, group);
    a := Drawn(h);
  }

  ghost predicate Draws(h: Heat, rels: seq<Relation>, views: map<nat, View>, winFrom: When, winTo: When, groupBy: string) {
    var entries := Placeable(rels, views, winFrom, winTo, groupBy);
    && h.total == |rels| == h.undated + h.outside + h.placed
    && h.undated == Unplaceable(rels, views) && h.placed == |entries|
    && (h.placed == 0 ==> h.lanes == [] && h.max == 0)
    && (h.placed > 0 ==>
          && h.slices.Valid() && Sum(h.counts) == h.placed
          && Counted(h.counts, entries, h.slices) && Shows(h.lanes, entries, h.slices) && Largest(h.lanes, h.max)
          && (winFrom.At? ==> h.slices.from == winFrom.ns) && (winTo.At? ==> h.slices.to == winTo.ns)
          && forall i :: 0 <= i < h.slices.count ==> ColumnSum(h.lanes, i) == h.counts[i])
  }

  method DrawHeatmap(rels: seq<Relation>, views: map<nat, View>, winFrom: When, winTo: When, buckets: int,
                     groupBy: string)
    returns (h: Heat)
    ensures Draws(h, rels, views, winFrom, winTo, groupBy)
  {
    hide InSlice, LaneEntries, Column, Listing, Capped, SortBy, ColumnSum, Sum, HeatmapKey, RelationTime, Largest;
    var entries: seq<Entry>, undated, outside := [], 0, 0;
    for i := 0 to |rels|
      invariant |entries| + undated + outside == i
      invariant entries == Placeable(rels[..i], views, winFrom, winTo, groupBy)
      invariant undated == Unplaceable(rels[..i], views)
    {
      assert rels[..i + 1][..i] == rels[..i];
      match RelationTime(rels[i], views)
      case Unplaced =>
        undated := undated + 1;
      case Placed(at, anchor) =>
        if (winFrom.At? && at < winFrom.ns) || (winTo.At? && at > winTo.ns) {
          outside := outside + 1;
        } else {
          entries := entries + [Entry(at, [HeatmapKey(groupBy, rels[i], anchor, views)])];
        }
    }
    assert rels[..|rels|] == rels;
    PlaceableWithin(rels, views, winFrom, winTo, groupBy);
    hide Placeable, Unplaceable;
    if |entries| == 0 {
      return Heat(|rels|, undated, outside, 0, Bucketing(0, 0, 1, 1), [], [], 0);
    }
    var b, counts, lanes, max := DrawSlices(entries, winFrom, winTo, buckets);
    h := Heat(|rels|, undated, outside, |entries|, b, counts, lanes, max);
  }

  /** The slices of a window over entries that lie in it, and the one lane of each counted over them. */
  method DrawSlices(entries: seq<Entry>, winFrom: When, winTo: When, buckets: int)
    returns (b: Bucketing, counts: seq<nat>, lanes: seq<Lane>, max: nat)
    requires entries != []
    requires forall e :: e in entries ==>
               |e.keys| == 1 && (winFrom.At? ==> winFrom.ns <= e.at) && (winTo.At? ==> e.at <= winTo.ns)
    ensures b.Valid() && Sum(counts) == |entries|
    ensures Counted(counts, entries, b) && Shows(lanes, entries, b) && Largest(lanes, max)
    ensures (winFrom.At? ==> b.from == winFrom.ns) && (winTo.At? ==> b.to == winTo.ns)
    ensures forall i :: 0 <= i < b.count ==> ColumnSum(lanes, i) == counts[i]
  {
    hide InSlice, LaneEntries, ColumnSum, Sum, Largest, InLanes, Shows;
    var from, to := Extent(entries);
    if winFrom.At? {
      from := winFrom.ns;
    }
    if winTo.At? {
      to := winTo.ns;
    }
    b := NewBucketing(from, to, Slices(buckets));
    InWindow(entries, from, to, Slices(buckets));
    var laneCounts;
    counts, laneCounts := Distribute(entries, b);
    OneLane(entries, b);
    lanes := GroupLanes(laneCounts, entries, b);
    max := LargestCount(lanes);
  }
}
