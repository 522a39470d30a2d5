/** The prepared events of a build: the dated ones in one chronological order that does not depend on arrival,
    and the same events split by scope. */
module Dataset {
  import opened Correlation
  import opened Sorting

  /** An event with what preparation reads of it besides. */
  datatype Row = Row(event: Event, computer: string, current: bool)

  datatype Scope = Computer | Global

  datatype Group = Group(value: string, rows: seq<Row>)

  predicate Earlier(a: Row, b: Row) {
    if a.event.timestamp == b.event.timestamp then a.event.id < b.event.id else a.event.timestamp < b.event.timestamp
  }

  lemma EarlierIsStrict()
    ensures StrictOrder(Earlier)
  {
  }

  /** The rows with a time, in the order they come. */
  function Dated(rows: seq<Row>): seq<Row> {
    if rows == [] then []
    else
      var last := rows[|rows| - 1];
      Dated(rows[..|rows| - 1]) + if last.event.timestamp != ZERO_TIME then [last] else []
  }

  function Stale(rows: seq<Row>): nat {
    if rows == [] then 0
    else
      var last := rows[|rows| - 1];
      Stale(rows[..|rows| - 1]) + if last.event.timestamp != ZERO_TIME && !last.current then 1 else 0
  }

  /** The positions of dated rows whose keys are out of date. */
  ghost function StaleAt(rows: seq<Row>): set<nat> {
    set i | 0 <= i < |rows| && rows[i].event.timestamp != ZERO_TIME && !rows[i].current
  }

  lemma {:induction false} StaleIsExact(rows: seq<Row>)
    ensures Stale(rows) == |StaleAt(rows)|
  {
    if rows != [] {
      var n := |rows| - 1;
      StaleIsExact(rows[..n]);
      assert StaleAt(rows) - {n} == StaleAt(rows[..n]);
    }
  }

  function Prepared(rows: seq<Row>): seq<Row> {
    SortBy(Dated(rows), Earlier)
  }

  lemma {:induction false} DatedRows(rows: seq<Row>, r: Row)
    ensures multiset(Dated(rows))[r] == if r.event.timestamp != ZERO_TIME then multiset(rows)[r] else 0
  {
    if rows != [] {
      var n := |rows| - 1;
      DatedRows(rows[..n], r);
      assert rows == rows[..n] + [rows[n]];
    }
  }

  ghost predicate OneIdEach(rows: seq<Row>) {
    forall a, b :: a in rows && b in rows && a.event.id == b.event.id ==> a == b
  }

  /** Two dated rows of such a list are never level: time decides, or else the id does. */
  lemma DatedAreSeparate(rows: seq<Row>)
    requires OneIdEach(rows)
    ensures Separates(multiset(Dated(rows)), Earlier)
  {
    forall x, y | x in multiset(Dated(rows)) && y in multiset(Dated(rows)) && x != y ensures Earlier(x, y) || Earlier(y, x) {
      DatedRows(rows, x);
      DatedRows(rows, y);
      hide Dated;
      assert x in multiset(rows) && y in multiset(rows);
    }
  }

  lemma SameDated(a: seq<Row>, b: seq<Row>)
    requires multiset(a) == multiset(b)
    ensures multiset(Dated(a)) == multiset(Dated(b))
  {
    forall r ensures multiset(Dated(a))[r] == multiset(Dated(b))[r] {
      DatedRows(a, r);
      DatedRows(b, r);
    }
  }

  /** What is prepared does not depend on the order the rows arrive in. */
  lemma ArrivalDoesNotMatter(a: seq<Row>, b: seq<Row>)
    requires multiset(a) == multiset(b) && OneIdEach(a)
    ensures Prepared(a) == Prepared(b)
  {
    SameDated(a, b);
    DatedAreSeparate(a);
    EarlierIsStrict();
    hide Dated, Separates, SortBy, SortedBy, OneIdEach, StrictOrder, Earlier;
    SortBySorts(Dated(a), Earlier);
    SortBySorts(Dated(b), Earlier);
    SortedIsUnique(Prepared(a), Prepared(b), Earlier);
  }

  ghost predicate InTime(rows: seq<Row>) {
    forall i, j :: 0 <= i < j < |rows| ==>
      rows[i].event.timestamp <= rows[j].event.timestamp &&
      (rows[i].event.timestamp == rows[j].event.timestamp ==> rows[i].event.id <= rows[j].event.id)
  }

  lemma PreparedInTime(rows: seq<Row>)
    requires SortedBy(rows, Earlier) && forall r :: r in rows ==> r.event.timestamp != ZERO_TIME
    ensures InTime(rows) && Chronological(Events(rows)) && Correlation.Dated(Events(rows))
  {
    SortedIsInTime(rows);
    assert forall i :: 0 <= i < |rows| ==> rows[i] in rows;
  }

  lemma SortedIsInTime(rows: seq<Row>)
    ensures SortedBy(rows, Earlier) ==> InTime(rows)
  {
    if SortedBy(rows, Earlier) {
      forall i, j | 0 <= i < j < |rows|
        ensures rows[i].event.timestamp <= rows[j].event.timestamp
        ensures rows[i].event.timestamp == rows[j].event.timestamp ==> rows[i].event.id <= rows[j].event.id
      {
        assert !Earlier(rows[j], rows[i]);
      }
    }
  }

  function Events(rows: seq<Row>): (r: seq<Event>)
    ensures |r| == |rows| && forall i :: 0 <= i < |r| ==> r[i] == rows[i].event
  {
    seq(|rows|, i requires 0 <= i < |rows| => rows[i].event)
  }

  /** Keeps the dated rows in chronological order and counts the others, and those whose keys are out of date. */
  method KeepDated(rows: seq<Row>) returns (dated: seq<Row>, undated: nat, stale: nat)
    ensures dated == Prepared(rows) && undated + |dated| == |rows| && stale == Stale(rows)
    ensures SortedBy(dated, Earlier) && forall r :: r in dated <==> r in rows && r.event.timestamp != ZERO_TIME
  {
    dated, undated, stale := [], 0, 0;
    for i := 0 to |rows|
      invariant dated == Dated(rows[..i]) && undated + |dated| == i && stale == Stale(rows[..i])
    {
      assert rows[..i + 1][..i] == rows[..i];
      if rows[i].event.timestamp == ZERO_TIME {
        undated := undated + 1;
        continue;
      }
      if !rows[i].current {
        stale := stale + 1;
      }
      dated := dated + [rows[i]];
    }
    assert rows[..|rows|] == rows;
    EarlierIsStrict();
    SortBySorts(dated, Earlier);
    forall r ensures r in Prepared(rows) <==> r in rows && r.event.timestamp != ZERO_TIME {
      DatedRows(rows, r);
      assert r in Prepared(rows) <==> r in multiset(Prepared(rows));
      assert r in rows <==> r in multiset(rows);
    }
    dated := SortBy(dated, Earlier);
  }

  // ---- Partitions --------------------------------------------------------------------------------------------

  function Of(rows: seq<Row>, value: string): seq<Row> {
    if rows == [] then []
    else
      var last := rows[|rows| - 1];
      Of(rows[..|rows| - 1], value) + if last.computer == value then [last] else []
  }

  /** One group for each value that occurs, in dictionary order, holding the rows of that value as they come. */
  ghost predicate IsPartition(groups: seq<Group>, rows: seq<Row>) {
    && (forall i :: 0 <= i < |groups| ==> groups[i].rows == Of(rows, groups[i].value) && groups[i].rows != [])
    && (forall r :: r in rows ==> exists i :: 0 <= i < |groups| && groups[i].value == r.computer)
    && (forall i, j :: 0 <= i < j < |groups| ==> LexLess(groups[i].value, groups[j].value))
  }

  ghost predicate ByValue(byValue: map<string, seq<Row>>, rows: seq<Row>) {
    forall v :: (if v in byValue then byValue[v] else []) == Of(rows, v) && (v in byValue ==> byValue[v] != [])
  }

  lemma ByValueNext(byValue: map<string, seq<Row>>, rows: seq<Row>, r: Row)
    requires ByValue(byValue, rows)
    ensures ByValue(byValue[r.computer := (if r.computer in byValue then byValue[r.computer] else []) + [r]], rows + [r])
  {
    var more := rows + [r];
    assert more[..|rows|] == rows && more[|rows|] == r;
    assert forall v :: Of(more, v) == Of(rows, v) + if r.computer == v then [r] else [];
    hide Of;
  }

  lemma {:induction false} OfHolds(rows: seq<Row>, value: string)
    ensures forall r :: r in Of(rows, value) <==> r in rows && r.computer == value
    ensures SortedBy(rows, Earlier) ==> SortedBy(Of(rows, value), Earlier)
  {
    if rows != [] {
      var n := |rows| - 1;
      OfHolds(rows[..n], value);
      assert rows == rows[..n] + [rows[n]];
      var before := Of(rows[..n], value);
      forall i | 0 <= i < |before| && SortedBy(rows, Earlier) ensures !Earlier(rows[n], before[i]) {
        assert before[i] in rows[..n];
      }
    }
  }

  lemma LexIsStrict()
    ensures StrictOrder(LexLess)
  {
    forall a: string, b: string | LexLess(a, b) ensures !LexLess(b, a) {
      LexAsymmetric(a, b);
    }
    forall a: string, b: string, c: string | LexLess(a, b) ensures LexLess(a, c) || LexLess(c, b) {
      LexCotransitive(a, b, c);
    }
  }

  function InOrder(list: seq<string>): seq<string> {
    SortBy(list, LexLess)
  }

  /** The keys of a map, in dictionary order. */
  method SortedValues(byValue: map<string, seq<Row>>) returns (values: seq<string>)
    ensures forall v :: v in values <==> v in byValue
    ensures forall i, j :: 0 <= i < j < |values| ==> LexLess(values[i], values[j])
  {
    hide InOrder, LexLess;
    var list: seq<string> := [];
    var left := byValue.Keys;
    while left != {}
      invariant left <= byValue.Keys && Distinct(list) && forall v :: v in list <==> v in byValue && v !in left
      decreases |left|
    {
      var v :| v in left;
      left := left - {v};
      list := list + [v];
    }
    assert forall v :: v in list <==> v in byValue;
    SortValues(list);
    values := InOrder(list);
  }

  lemma SortValues(list: seq<string>)
    requires Distinct(list)
    ensures var s := InOrder(list);
            && (forall v :: v in s <==> v in list)
            && forall i, j :: 0 <= i < j < |s| ==> LexLess(s[i], s[j])
  {
    var s := SortBy(list, LexLess);
    LexIsStrict();
    SortBySorts(list, LexLess);
    SortByDistinct(list, LexLess);
    hide SortBy, LexLess;
    forall i, j | 0 <= i < j < |s| ensures LexLess(s[i], s[j]) {
      LexTotal(s[i], s[j]);
    }
  }

  method GroupByValue(rows: seq<Row>) returns (byValue: map<string, seq<Row>>)
    ensures ByValue(byValue, rows)
  {
    byValue := map[];
    for i := 0 to |rows|
      invariant ByValue(byValue, rows[..i])
    {
      hide ByValue;
      ByValueNext(byValue, rows[..i], rows[i]);
      assert rows[..i + 1] == rows[..i] + [rows[i]];
      var key := rows[i].computer;
      byValue := byValue[key := (if key in byValue then byValue[key] else []) + [rows[i]]];
    }
    assert rows[..|rows|] == rows;
  }

  /** Splits chronological rows by scope. A global scope is one group of everything, if there is anything. */
  method PartitionBy(rows: seq<Row>, scope: Scope) returns (groups: seq<Group>)
    ensures scope.Global? ==> groups == if rows == [] then [] else [Group("", rows)]
    ensures scope.Computer? ==> IsPartition(groups, rows)
  {
    if scope.Global? {
      return if |rows| == 0 then [] else [Group("", rows)];
    }
    groups := PartitionByValue(rows);
  }

  method PartitionByValue(rows: seq<Row>) returns (groups: seq<Group>)
    ensures IsPartition(groups, rows)
  {
    hide IsPartition, ByValue, LexLess, Of;
    var byValue := GroupByValue(rows);
    var values := SortedValues(byValue);
    groups := [];
    for i := 0 to |values|
      invariant |groups| == i && forall k :: 0 <= k < i ==> groups[k] == Group(values[k], byValue[values[k]])
    {
      groups := groups + [Group(values[i], byValue[values[i]])];
    }
    GroupsPartition(groups, rows, byValue, values);
  }

  lemma GroupsPartition(groups: seq<Group>, rows: seq<Row>, byValue: map<string, seq<Row>>, values: seq<string>)
    requires ByValue(byValue, rows) && (forall v :: v in values <==> v in byValue) && |groups| == |values|
    requires forall k :: 0 <= k < |values| ==> groups[k] == Group(values[k], byValue[values[k]])
    requires forall i, j :: 0 <= i < j < |values| ==> LexLess(values[i], values[j])
    ensures IsPartition(groups, rows)
  {
    hide LexLess, Of;
    forall i | 0 <= i < |groups| ensures groups[i].rows == Of(rows, groups[i].value) && groups[i].rows != [] {
      assert values[i] in byValue;
    }
    forall r | r in rows ensures exists i :: 0 <= i < |groups| && groups[i].value == r.computer {
      OfHolds(rows, r.computer);
      assert r in Of(rows, r.computer);
      assert r.computer in byValue;
      var i :| 0 <= i < |values| && values[i] == r.computer;
      assert groups[i].value == r.computer;
    }
  }

  /** What a scope's partitions of the prepared rows are. */
  ghost predicate Partitioned(groups: seq<Group>, rows: seq<Row>, scope: Scope) {
    if scope.Global? then groups == (if rows == [] then [] else [Group("", rows)]) else IsPartition(groups, rows)
  }

  /** Prepares a build: the dated rows in order, the counts of the others, and the partitions of every scope asked for,
      or of the default one when none is. */
  method Prepare(rows: seq<Row>, scopes: seq<Scope>)
    returns (dated: seq<Row>, undated: nat, stale: nat, partitions: map<Scope, seq<Group>>)
    ensures dated == Prepared(rows) && undated + |dated| == |rows| && stale == |StaleAt(rows)|
    ensures SortedBy(dated, Earlier) && forall r :: r in dated <==> r in rows && r.event.timestamp != ZERO_TIME
    ensures InTime(dated) && Chronological(Events(dated)) && Correlation.Dated(Events(dated))
    ensures forall s :: s in partitions <==> s in if scopes == [] then [Computer] else scopes
    ensures forall s :: s in partitions ==> Partitioned(partitions[s], dated, s)
  {
    hide Prepared, Stale, StaleAt, SortedBy, Earlier, InTime, Chronological, Correlation.Dated, Events, IsPartition;
    dated, undated, stale := KeepDated(rows);
    StaleIsExact(rows);
    PreparedInTime(dated);
    var asked := if |scopes| == 0 then [Computer] else scopes;
    partitions := map[];
    for k := 0 to |asked|
      invariant forall s :: s in partitions <==> s in asked[..k]
      invariant forall s :: s in partitions ==> Partitioned(partitions[s], dated, s)
    {
      var groups := PartitionBy(dated, asked[k]);
      partitions := partitions[asked[k] := groups];
      assert asked[..k + 1] == asked[..k] + [asked[k]];
    }
    assert asked[..|asked|] == asked;
  }

  /** The partitions of a scope; one that was not asked for is partitioned now, with the same outcome. */
  method Groups(partitions: map<Scope, seq<Group>>, dated: seq<Row>, scope: Scope) returns (groups: seq<Group>)
    requires forall s :: s in partitions ==> Partitioned(partitions[s], dated, s)
    ensures Partitioned(groups, dated, scope)
  {
    if scope in partitions {
      return partitions[scope];
    }
    groups := PartitionBy(dated, scope);
  }

  /** Every row is in exactly one group, and each group is chronological without having been sorted. */
  lemma PartitionIsExact(groups: seq<Group>, rows: seq<Row>, r: Row)
    requires IsPartition(groups, rows) && SortedBy(rows, Earlier)
    ensures r in rows <==> exists i :: 0 <= i < |groups| && r in groups[i].rows
    ensures forall i, j :: 0 <= i < j < |groups| && r in groups[i].rows ==> r !in groups[j].rows
    ensures forall i :: 0 <= i < |groups| ==> SortedBy(groups[i].rows, Earlier) && InTime(groups[i].rows)
  {
    forall i | 0 <= i < |groups|
      ensures r in groups[i].rows <==> r in rows && r.computer == groups[i].value
      ensures SortedBy(groups[i].rows, Earlier) && InTime(groups[i].rows)
    {
      OfHolds(rows, groups[i].value);
      SortedIsInTime(groups[i].rows);
    }
    forall i, j | 0 <= i < j < |groups| && r in groups[i].rows ensures r !in groups[j].rows {
      LexAsymmetric(groups[i].value, groups[j].value);
    }
  }
}
