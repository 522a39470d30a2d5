/** Filters over the event list: the fingerprint an ordering is cached under, the pages a list is served in, and
    the count that is shown beside the list. */
module EventQueries {
  import opened FieldText
  import opened Sorting

  /** A set of content hashes as a map yields it: no particular order, no repeats. Unset filters nothing. */
  datatype HashSet = Unset | Of(hashes: seq<string>)

  datatype Bound = Open | At(text: string)

  /** What a list of events is asked for. Times are in the fixed-width text the index holds. */
  datatype Filter = Filter(eventId: string, provider: string, channel: string, user: string, search: string,
                           sourceType: string, source: string, relations: string, undated: string,
                           minDuplicates: nat, descending: bool, from: Bound, to: Bound,
                           hashIn: HashSet, hashNotIn: HashSet)

  // ---- The fingerprint of a filter -----------------------------------------------------------------------

  function Keys(hashes: seq<string>): seq<string> {
    SortBy(hashes, LexLess)
  }

  function HashSetKey(s: HashSet): string {
    match s
    case Unset => "nil"
    case Of(hashes) => Decimal(|Keys(hashes)|) + ":" + Joined(Keys(hashes), ',')
  }

  function Truth(b: bool): string {
    if b then "true" else "false"
  }

  function KeyFields(f: Filter): seq<string> {
    [f.eventId, f.provider, f.channel, f.user, f.search, f.sourceType, f.source, f.relations, f.undated]
    + [Decimal(f.minDuplicates), Truth(f.descending)]
    + (if f.from.At? then ["from:" + f.from.text] else [])
    + (if f.to.At? then ["to:" + f.to.text] else [])
    + ["in:" + HashSetKey(f.hashIn), "out:" + HashSetKey(f.hashNotIn)]
  }

  function OrderKey(f: Filter): string {
    Terminated(KeyFields(f), SEPARATOR)
  }

  /** Hashes as they occur: no commas, none twice. */
  ghost predicate Proper(s: HashSet) {
    s.Of? ==> Distinct(s.hashes) && AllClean(s.hashes, ',')
  }

  ghost predicate SameHashes(s: HashSet, t: HashSet) {
    s.Of? == t.Of? && (s.Of? ==> forall h :: h in s.hashes <==> h in t.hashes)
  }

  ghost predicate SameSelection(f: Filter, g: Filter) {
    && f == g.(hashIn := f.hashIn, hashNotIn := f.hashNotIn)
    && SameHashes(f.hashIn, g.hashIn) && SameHashes(f.hashNotIn, g.hashNotIn)
  }

  lemma LexIsStrict()
    ensures StrictOrder(LexLess)
  {
    forall a: string, b: string | LexLess(a, b) ensures !LexLess(b, a) {
      LexAsymmetric(a, b);
    }
    forall a: string, b: string, c: string | LexLess(a, b) ensures LexLess(a, c) || LexLess(c, b) {
      LexCotransitive(a, b, c);
    }
  }

  lemma KeysHold(hashes: seq<string>)
    ensures SortedBy(Keys(hashes), LexLess) && multiset(Keys(hashes)) == multiset(hashes)
    ensures |Keys(hashes)| == |hashes| && forall h :: h in Keys(hashes) <==> h in hashes
  {
    LexIsStrict();
    SortBySorts(hashes, LexLess);
    forall h ensures h in Keys(hashes) <==> h in hashes {
      assert h in multiset(Keys(hashes)) <==> h in multiset(hashes);
    }
  }

  /** The rendering of a set does not depend on the order it is listed in. */
  lemma SameSetSameKeys(a: seq<string>, b: seq<string>)
    requires Distinct(a) && Distinct(b) && forall h :: h in a <==> h in b
    ensures Keys(a) == Keys(b)
  {
    KeysHold(a);
    KeysHold(b);
    forall h ensures multiset(a)[h] == multiset(b)[h] {
      DistinctCounts(a, h);
      DistinctCounts(b, h);
    }
    assert multiset(a) == multiset(b);
    assert Separates(multiset(Keys(a)), LexLess) by {
      forall x: string, y: string | x != y ensures LexLess(x, y) || LexLess(y, x) {
        LexTotal(x, y);
      }
    }
    SortedIsUnique(Keys(a), Keys(b), LexLess);
  }

  lemma {:induction false} DecimalHasNoColon(n: nat)
    ensures ':' !in Decimal(n) && '0' <= Decimal(n)[0] <= '9'
  {
    if n >= 10 {
      DecimalHasNoColon(n / 10);
    }
  }

  lemma HashSetKeyIsExact(s: HashSet, t: HashSet)
    requires Proper(s) && Proper(t)
    ensures HashSetKey(s) == HashSetKey(t) <==> SameHashes(s, t)
  {
    if s.Of? && t.Of? {
      var a, b := Keys(s.hashes), Keys(t.hashes);
      KeysHold(s.hashes);
      KeysHold(t.hashes);
      if SameHashes(s, t) {
        SameSetSameKeys(s.hashes, t.hashes);
      }
      if HashSetKey(s) == HashSetKey(t) {
        DecimalHasNoColon(|a|);
        DecimalHasNoColon(|b|);
        assert HashSetKey(s) == Decimal(|a|) + [':'] + Joined(a, ',');
        assert HashSetKey(t) == Decimal(|b|) + [':'] + Joined(b, ',');
        SameFirstField(Decimal(|a|), Joined(a, ','), Decimal(|b|), Joined(b, ','), ':');
        DecimalInjective(|a|, |b|);
        if a != [] {
          JoinedIsExact(a, b, ',');
        }
        assert a == b;
      }
    } else if s.Of? {
      StartsWithDigit(s.hashes);
    } else if t.Of? {
      StartsWithDigit(t.hashes);
    }
  }

  lemma StartsWithDigit(hashes: seq<string>)
    ensures HashSetKey(Of(hashes)) != "nil"
  {
    DecimalHasNoColon(|Keys(hashes)|);
    assert HashSetKey(Of(hashes))[0] == Decimal(|Keys(hashes)|)[0];
  }

  /** Two filters are cached under one key exactly when they select the same events in the same order. */
  lemma OrderKeyIsExact(f: Filter, g: Filter)
    requires Proper(f.hashIn) && Proper(f.hashNotIn) && Proper(g.hashIn) && Proper(g.hashNotIn)
    requires AllClean(KeyFields(f), SEPARATOR) && AllClean(KeyFields(g), SEPARATOR)
    ensures OrderKey(f) == OrderKey(g) <==> SameSelection(f, g)
  {
    hide HashSetKey, Terminated, Decimal, Proper;
    HashSetKeyIsExact(f.hashIn, g.hashIn);
    HashSetKeyIsExact(f.hashNotIn, g.hashNotIn);
    if OrderKey(f) == OrderKey(g) {
      TerminatedIsExact(KeyFields(f), KeyFields(g), SEPARATOR);
      SameFields(f, g);
    }
  }

  lemma SamePrefixed(p: string, a: string, b: string)
    requires p + a == p + b
    ensures a == b
  {
    assert a == (p + a)[|p|..] && b == (p + b)[|p|..];
  }

  lemma SameFields(f: Filter, g: Filter)
    requires KeyFields(f) == KeyFields(g)
    ensures f == g.(hashIn := f.hashIn, hashNotIn := f.hashNotIn)
    ensures HashSetKey(f.hashIn) == HashSetKey(g.hashIn) && HashSetKey(f.hashNotIn) == HashSetKey(g.hashNotIn)
  {
    hide HashSetKey, Decimal;
    var a, b := KeyFields(f), KeyFields(g);
    var n := |a|;
    assert forall i :: 0 <= i < n ==> a[i] == b[i];
    assert a[0] == b[0] && a[1] == b[1] && a[2] == b[2] && a[3] == b[3] && a[4] == b[4];
    assert a[5] == b[5] && a[6] == b[6] && a[7] == b[7] && a[8] == b[8];
    assert a[9] == Decimal(f.minDuplicates) && b[9] == Decimal(g.minDuplicates);
    DecimalInjective(f.minDuplicates, g.minDuplicates);
    assert a[10] == Truth(f.descending) && b[10] == Truth(g.descending) && Truth(f.descending)[0] == Truth(g.descending)[0];
    assert a[n - 2] == "in:" + HashSetKey(f.hashIn) && b[n - 2] == "in:" + HashSetKey(g.hashIn);
    assert a[n - 1] == "out:" + HashSetKey(f.hashNotIn) && b[n - 1] == "out:" + HashSetKey(g.hashNotIn);
    SamePrefixed("in:", HashSetKey(f.hashIn), HashSetKey(g.hashIn));
    SamePrefixed("out:", HashSetKey(f.hashNotIn), HashSetKey(g.hashNotIn));
    assert f.from.At? <==> a[11][0] == 'f';
    assert g.from.At? <==> b[11][0] == 'f';
    if f.from.At? {
      SamePrefixed("from:", f.from.text, g.from.text);
    }
    if f.to.At? {
      assert a[n - 3] == "to:" + f.to.text && b[n - 3] == "to:" + g.to.text;
      SamePrefixed("to:", f.to.text, g.to.text);
    }
  }

  // ---- Pages -------------------------------------------------------------------------------------------------

  /** The ids from an offset on, at most `limit` of them; a limit that is not positive means all. */
  function Window<T>(ids: seq<T>, offset: int, limit: int): (r: seq<T>)
    ensures r == [] || 0 <= (if offset < 0 then 0 else offset) < |ids|
  {
    var from := if offset < 0 then 0 else offset;
    if from >= |ids| then []
    else if limit > 0 && from + limit < |ids| then ids[from..from + limit]
    else ids[from..]
  }

  /** An offset before the list is its start, and a limit that is not positive is none. */
  lemma WindowIs<T>(ids: seq<T>, offset: int, limit: int)
    ensures limit <= 0 && offset <= 0 ==> Window(ids, offset, limit) == ids
    ensures limit <= 0 && 0 <= offset <= |ids| ==> Window(ids, offset, limit) == ids[offset..]
    ensures limit > 0 ==> |Window(ids, offset, limit)| <= limit
    ensures offset >= |ids| ==> Window(ids, offset, limit) == []
  {
  }

  function Pages<T>(ids: seq<T>, limit: nat, pages: nat): seq<T> {
    if pages == 0 then [] else Pages(ids, limit, pages - 1) + Window(ids, (pages - 1) * limit, limit)
  }

  function Start<T>(ids: seq<T>, n: int): seq<T>
    requires n >= 0
  {
    if n < |ids| then ids[..n] else ids
  }

  lemma NextPage<T>(ids: seq<T>, from: int, limit: int)
    requires from >= 0 && limit > 0
    ensures Start(ids, from) + Window(ids, from, limit) == Start(ids, from + limit)
  {
    if from < |ids| {
      assert ids[..from] + ids[from..] == ids;
    }
  }

  /** Page after page gives the list, each entry once. */
  lemma {:induction false} PagesCoverTheList<T>(ids: seq<T>, limit: nat, pages: nat)
    requires limit > 0
    ensures pages * limit >= 0 && Pages(ids, limit, pages) == Start(ids, pages * limit)
  {
    hide Start, Window;
    if pages == 0 {
      NothingYet(ids);
    } else {
      PagesCoverTheList(ids, limit, pages - 1);
      var from := (pages - 1) * limit;
      assert pages * limit == from + limit;
      NextPage(ids, from, limit);
    }
  }

  lemma NothingYet<T>(ids: seq<T>)
    ensures Start(ids, 0) == []
  {
  }

  // ---- The count beside the list -------------------------------------------------------------------------------

  /** A stored event as a query sees it. `byUser` and `bySystem` say whether such a relation touches it. */
  datatype Row = Row(id: nat, eventId: string, provider: string, channel: string, user: string, blob: string,
                     sourceType: string, source: string, time: Bound, hash: string, duplicates: nat,
                     byUser: bool, bySystem: bool)

  const RELATED_ANY := "any"
  const RELATED_SYSTEM := "system"
  const RELATED_USER := "user"
  const UNDATED_ONLY := "only"
  const UNDATED_INCLUDE := "include"
  /** How a missing time is written in the index: before every real one. */
  const NO_TIME := "0001-01-01T00:00:00.000000000Z"

  ghost predicate Contains(text: string, part: string) {
    exists i :: 0 <= i <= |text| && part <= text[i..]
  }

  function TimeText(t: Bound): string {
    if t.At? then t.text else NO_TIME
  }

  /** What the index answers on its own. The search text is compared as it is stored, in lower case. */
  ghost predicate IndexMatches(f: Filter, r: Row) {
    && (f.eventId != "" ==> r.eventId == f.eventId) && (f.provider != "" ==> r.provider == f.provider)
    && (f.channel != "" ==> r.channel == f.channel) && (f.user != "" ==> r.user == f.user)
    && (f.search != "" ==> Contains(r.blob, f.search)) && (f.sourceType != "" ==> r.sourceType == f.sourceType)
    && (f.from.At? ==> !LexLess(TimeText(r.time), f.from.text))
    && (f.to.At? ==> !LexLess(f.to.text, TimeText(r.time)))
  }

  predicate HashMatches(f: Filter, hash: string) {
    && (f.hashIn.Of? ==> hash in f.hashIn.hashes)
    && (f.hashNotIn.Of? ==> hash !in f.hashNotIn.hashes)
  }

  predicate RelationMatches(f: Filter, r: Row) {
    if f.relations == RELATED_ANY then r.byUser || r.bySystem
    else if f.relations == RELATED_SYSTEM then r.bySystem
    else if f.relations == RELATED_USER then r.byUser
    else true
  }

  predicate UndatedMatches(f: Filter, r: Row) {
    if f.undated == UNDATED_ONLY then r.time.Open?
    else if f.undated == UNDATED_INCLUDE then true
    else r.time.At?
  }

  /** What the list shows. */
  ghost predicate Matches(f: Filter, r: Row) {
    && IndexMatches(f, r) && RelationMatches(f, r)
    && (f.source != "" ==> r.source == f.source)
    && (f.minDuplicates > 0 ==> (if r.duplicates < 1 then 1 else r.duplicates) >= f.minDuplicates)
    && HashMatches(f, r.hash) && UndatedMatches(f, r)
  }

  ghost function Selected(f: Filter, rows: seq<Row>, byIndexAlone: bool): seq<Row> {
    if rows == [] then []
    else
      var last, before := rows[|rows| - 1], Selected(f, rows[..|rows| - 1], byIndexAlone);
      if IndexMatches(f, last) && (byIndexAlone || Matches(f, last)) then before + [last] else before
  }

  /** The list shows the rows that match, each where it stands, and no other. */
  lemma {:induction false} ListedAre(f: Filter, rows: seq<Row>, r: Row)
    ensures r in Selected(f, rows, false) <==> r in rows && Matches(f, r)
    ensures multiset(Selected(f, rows, false))[r] == if Matches(f, r) then multiset(rows)[r] else 0
  {
    if rows != [] {
      var n := |rows| - 1;
      ListedAre(f, rows[..n], r);
      assert rows == rows[..n] + [rows[n]];
      MatchesIndex(f, rows[n]);
      hide Matches, IndexMatches;
    }
  }

  lemma MatchesIndex(f: Filter, r: Row)
    ensures Matches(f, r) ==> IndexMatches(f, r)
  {
  }

  /** With no other filter set: nothing said about undated events shows the dated ones, "only" the others, and "include"
      every event. */
  lemma UndatedAreShown(f: Filter, rows: seq<Row>, r: Row)
    requires f == Filter("", "", "", "", "", "", "", "", f.undated, 0, f.descending, Open, Open, Unset, Unset)
    ensures r in Selected(f, rows, false) <==>
            r in rows && (f.undated == "include" || (f.undated == "only" <==> r.time.Open?))
  {
    ListedAre(f, rows, r);
  }

  /** With no other filter set, the state of its relations decides: touched by any, by a rule's, or by the user's. */
  lemma RelatedAreShown(f: Filter, rows: seq<Row>, r: Row)
    requires f == Filter("", "", "", "", "", "", "", f.relations, "include", 0, f.descending, Open, Open, Unset, Unset)
    requires f.relations in {"any", "system", "user"}
    ensures r in Selected(f, rows, false) <==>
            r in rows && ((f.relations != "user" && r.bySystem) || (f.relations != "system" && r.byUser))
  {
    ListedAre(f, rows, r);
  }

  /** With no other filter set: an event counts as often as it was met, at least once, and is shown from that many on. */
  lemma RepeatedAreShown(f: Filter, rows: seq<Row>, r: Row)
    requires f == Filter("", "", "", "", "", "", "", "", "include", f.minDuplicates, f.descending, Open, Open, Unset, Unset)
    ensures r in Selected(f, rows, false) <==> r in rows && (r.duplicates >= f.minDuplicates || f.minDuplicates <= 1)
  {
    ListedAre(f, rows, r);
  }

  /** With only times and hashes asked for, the dated events shown are those from the one time to the other, among the
      hashes wanted and not among those unwanted. */
  lemma TimesAndHashesAreShown(f: Filter, rows: seq<Row>, r: Row)
    requires f == Filter("", "", "", "", "", "", "", "", "include", 0, f.descending, f.from, f.to, f.hashIn, f.hashNotIn)
    requires r.time.At?
    ensures r in Selected(f, rows, false) <==>
            && r in rows && (f.from.At? ==> f.from.text == r.time.text || LexLess(f.from.text, r.time.text))
            && (f.to.At? ==> r.time.text == f.to.text || LexLess(r.time.text, f.to.text))
            && (f.hashIn.Of? ==> r.hash in f.hashIn.hashes) && (f.hashNotIn.Of? ==> r.hash !in f.hashNotIn.hashes)
  {
    ListedAre(f, rows, r);
    LexIsStrict();
    if f.from.At? && f.from.text != r.time.text {
      LexTotal(f.from.text, r.time.text);
    }
    if f.to.At? && f.to.text != r.time.text {
      LexTotal(r.time.text, f.to.text);
    }
  }

  /** With only fields asked for, the events shown have each of them as it is asked for. */
  lemma FieldsAreShown(f: Filter, rows: seq<Row>, r: Row)
    requires f == Filter(f.eventId, f.provider, f.channel, f.user, "", f.sourceType, f.source, "", "include", 0, f.descending,
                         Open, Open, Unset, Unset)
    ensures r in Selected(f, rows, false) <==>
            && r in rows && f.eventId in {"", r.eventId} && f.provider in {"", r.provider} && f.channel in {"", r.channel}
            && f.user in {"", r.user} && f.sourceType in {"", r.sourceType} && f.source in {"", r.source}
  {
    ListedAre(f, rows, r);
  }

  /** The filters for which the count is taken from the index alone. */
  predicate FastCount(f: Filter) {
    f.source == "" && f.minDuplicates == 0 && f.relations == "" && f.undated == UNDATED_INCLUDE
  }

  ghost function CountEvents(f: Filter, rows: seq<Row>): nat {
    |Selected(f, rows, FastCount(f))|
  }

  ghost function ListedEvents(f: Filter, rows: seq<Row>): seq<Row> {
    Selected(f, rows, false)
  }

  /** Filters nothing by hash. */
  predicate NoHashFilter(f: Filter) {
    f.hashIn.Unset? && (f.hashNotIn.Unset? || f.hashNotIn.hashes == [])
  }

  lemma {:induction false} SameSelectionByIndex(f: Filter, rows: seq<Row>)
    requires FastCount(f) && NoHashFilter(f)
    ensures Selected(f, rows, true) == Selected(f, rows, false)
  {
    if rows != [] {
      SameSelectionByIndex(f, rows[..|rows| - 1]);
    }
  }

  function Longest(s: seq<string>): nat {
    if s == [] then 0
    else
      var n := Longest(s[1..]);
      if |s[0]| > n then |s[0]| else n
  }

  lemma {:induction false} LongestBounds(s: seq<string>, h: string)
    requires h in s
    ensures |h| <= Longest(s)
  {
    if h != s[0] {
      assert s == [s[0]] + s[1..];
      LongestBounds(s[1..], h);
    }
  }

  /** A hash the filter turns away. */
  lemma TurnedAway(f: Filter) returns (hash: string)
    requires !NoHashFilter(f)
    ensures !HashMatches(f, hash)
  {
    if f.hashIn.Of? {
      hash := seq(Longest(f.hashIn.hashes) + 1, _ => 'x');
      if hash in f.hashIn.hashes {
        LongestBounds(f.hashIn.hashes, hash);
      }
    } else {
      hash := f.hashNotIn.hashes[0];
    }
  }

  /** A row the index alone lets through, with any hash. */
  function RowFor(f: Filter, hash: string): Row {
    Row(1, f.eventId, f.provider, f.channel, f.user, f.search, f.sourceType, f.source,
        if f.from.At? then f.from else f.to, hash, f.minDuplicates, false, false)
  }

  /** Can any time lie within the bounds? */
  predicate PossibleTimes(f: Filter) {
    f.from.At? && f.to.At? ==> !LexLess(f.to.text, f.from.text)
  }

  lemma RowForMatches(f: Filter, hash: string)
    requires PossibleTimes(f)
    ensures IndexMatches(f, RowFor(f, hash))
  {
    assert f.search <= f.search[0..];
    LexIsStrict();
  }

  lemma {:induction false} NothingMatches(f: Filter, rows: seq<Row>, byIndexAlone: bool)
    requires !PossibleTimes(f)
    ensures Selected(f, rows, byIndexAlone) == []
  {
    if rows != [] {
      NothingMatches(f, rows[..|rows| - 1], byIndexAlone);
      LexCotransitive(f.to.text, f.from.text, TimeText(rows[|rows| - 1].time));
    }
  }

  /** The count agrees with the list over every store exactly when it is taken from the list, or no hash is
      filtered, or the times asked for are empty: a count taken from the index alone does not look at the hash
      filters. */
  lemma CountIsListLengthIff(f: Filter)
    ensures (forall rows :: CountEvents(f, rows) == |ListedEvents(f, rows)|) <==>
            (!FastCount(f) || NoHashFilter(f) || !PossibleTimes(f))
  {
    if !FastCount(f) {
    } else if !PossibleTimes(f) {
      forall rows ensures CountEvents(f, rows) == |ListedEvents(f, rows)| {
        NothingMatches(f, rows, true);
        NothingMatches(f, rows, false);
      }
    } else if NoHashFilter(f) {
      forall rows ensures CountEvents(f, rows) == |ListedEvents(f, rows)| {
        SameSelectionByIndex(f, rows);
      }
    } else {
      var hash := TurnedAway(f);
      var row := RowFor(f, hash);
      RowForMatches(f, hash);
      assert [row][..0] == [];
      assert Selected(f, [], true) == [] && Selected(f, [], false) == [];
      assert CountEvents(f, [row]) == 1 && |ListedEvents(f, [row])| == 0;
    }
  }
}
