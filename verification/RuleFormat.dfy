/** Re-indenting rule text: read with its keys in order, written back in the house style. */
module RuleFormat {
  import opened JsonText

  datatype Field = Field(key: string, value: Value)

  datatype Value = Scalar(tok: Token) | Array(items: seq<Value>) | Object(fields: seq<Field>)

  const INDENT := "  "
  const WIDTH := 100

  // ---- Reading -----------------------------------------------------------------------------------------

  function IndexOf(fields: seq<Field>, key: string): (i: int)
    ensures -1 <= i < |fields|
    ensures i >= 0 ==> fields[i].key == key
    ensures i < 0 ==> forall k :: 0 <= k < |fields| ==> fields[k].key != key
  {
    if fields == [] then -1
    else if fields[0].key == key then 0
    else
      var i := IndexOf(fields[1..], key);
      if i < 0 then -1 else i + 1
  }

  /** A key seen before keeps its place and takes the new value. */
  function Put(fields: seq<Field>, key: string, value: Value): seq<Field> {
    var i := IndexOf(fields, key);
    if i < 0 then fields + [Field(key, value)] else fields[i := Field(key, value)]
  }

  /** The value a text begins with. */
  function ReadValue(t: string): (r: Read<Value>)
    ensures r.Got? ==> |r.rest| < |t|
    decreases |t|, 0
  {
    var s := Skip(t);
    if s == [] then Bad
    else if s[0] == '{' then ReadFields(s[1..], true, [])
    else if s[0] == '[' then ReadItems(s[1..], true, [])
    else
      match ReadScalar(s)
      case Bad => Bad
      case Got(tok, rest) => Got(Scalar(tok), rest)
  }

  /** The rest of an array, after its first bracket or one of its values. */
  function ReadItems(t: string, first: bool, items: seq<Value>): (r: Read<Value>)
    ensures r.Got? ==> |r.rest| < |t|
    decreases |t|, 1
  {
    var s := Skip(t);
    if s == [] then Bad
    else if s[0] == ']' then Got(Array(items), s[1..])
    else if !first && s[0] != ',' then Bad
    else
      match ReadValue(if first then s else s[1..])
      case Bad => Bad
      case Got(v, rest) => ReadItems(rest, false, items + [v])
  }

  /** The name of a field and the colon after it. */
  function ReadKey(t: string): (r: Read<string>)
    ensures r.Got? ==> |r.rest| < |t|
  {
    var s := Skip(t);
    if s == [] || s[0] != '"' then Bad
    else
      match ReadString(s[1..])
      case Bad => Bad
      case Got(key, rest) =>
        var u := Skip(rest);
        if u == [] || u[0] != ':' then Bad else Got(key, u[1..])
  }

  /** The rest of an object, after its first brace or one of its fields. */
  function ReadFields(t: string, first: bool, fields: seq<Field>): (r: Read<Value>)
    ensures r.Got? ==> |r.rest| < |t|
    decreases |t|, 1
  {
    var s := Skip(t);
    if s == [] then Bad
    else if s[0] == '}' then Got(Object(fields), s[1..])
    else if !first && s[0] != ',' then Bad
    else
      match ReadKey(if first then s else s[1..])
      case Bad => Bad
      case Got(key, rest) =>
        (match ReadValue(rest)
         case Bad => Bad
         case Got(v, end) => ReadFields(end, false, Put(fields, key, v)))
  }

  datatype Outcome<T> = Ok(value: T) | Error

  /** Reads a whole text. Anything after the value is an error, unless it begins with a closing bracket or brace. */
  function Decode(t: string): Outcome<Value> {
    match ReadValue(t)
    case Bad => Error
    case Got(v, rest) =>
      var s := Skip(rest);
      if s != [] && s[0] != ']' && s[0] != '}' then Error else Ok(v)
  }

  // ---- Writing -------------------------------------------------------------------------------------------

  /** The parts after the first, each behind a comma. */
  function Tail(parts: seq<string>, sep: string): string {
    if parts == [] then "" else "," + sep + parts[0] + Tail(parts[1..], sep)
  }

  /** Parts between what opens the first and closes the last. */
  function Listed(parts: seq<string>, open: string, sep: string, close: string): string {
    if parts == [] then "" else open + parts[0] + Tail(parts[1..], sep) + close
  }

  /** A value on one line. */
  function Inline(v: Value): string
    decreases v
  {
    match v
    case Scalar(tok) => EncodeScalar(tok)
    case Array(items) =>
      "[" + Listed(seq(|items|, i requires 0 <= i < |items| => Inline(items[i])), "", " ", "") + "]"
    case Object(fields) =>
      "{" + Listed(seq(|fields|, i requires 0 <= i < |fields| => Named(fields[i].key, Inline(fields[i].value))), "", " ", "")
      + "}"
  }

  function Named(key: string, text: string): string {
    Quote(key) + ": " + text
  }

  function Pad(depth: nat): string {
    if depth == 0 then "" else INDENT + Pad(depth - 1)
  }

  /** A value at an indent, with `used` columns of its line taken: on one line if it fits, else a line for each part. */
  function Render(v: Value, depth: nat, forceExpand: bool, used: nat): string
    decreases v
  {
    if v.Scalar? then EncodeScalar(v.tok)
    else if !forceExpand && used + |Inline(v)| <= WIDTH then Inline(v)
    else
      var pad, inner := Pad(depth), Pad(depth) + INDENT;
      match v
      case Scalar(tok) => EncodeScalar(tok)
      case Array(items) =>
        "[" + Listed(seq(|items|, i requires 0 <= i < |items| => Render(items[i], depth + 1, false, |inner|)),
                     "\n" + inner, "\n" + inner, "\n" + pad) + "]"
      case Object(fields) =>
        "{" + Listed(seq(|fields|, i requires 0 <= i < |fields| =>
                           Named(fields[i].key,
                                 Render(fields[i].value, depth + 1, false, |inner| + |Quote(fields[i].key)| + 2))),
                     "\n" + inner, "\n" + inner, "\n" + pad) + "}"
  }

  /** The house style, and nothing else: the outermost value is always spread over lines. */
  function Written(v: Value): string {
    Render(v, 0, true, 0) + "\n"
  }

  function Pretty(t: string): Outcome<string> {
    match Decode(t)
    case Error => Error
    case Ok(v) => Ok(Written(v))
  }

  // ---- What is written reads back ----------------------------------------------------------------------------

  ghost predicate DistinctKeys(fields: seq<Field>) {
    forall i, j :: 0 <= i < j < |fields| ==> fields[i].key != fields[j].key
  }

  /** A value as reading makes them: no key twice, and numbers that are numbers. */
  ghost predicate WellFormed(v: Value)
    decreases v
  {
    match v
    case Scalar(tok) => Proper(tok)
    case Array(items) => forall i :: 0 <= i < |items| ==> WellFormed(items[i])
    case Object(fields) => DistinctKeys(fields) && forall i :: 0 <= i < |fields| ==> WellFormed(fields[i].value)
  }

  /** A text begins with none of the signs that end or separate. */
  predicate Begins(t: string) {
    t != [] && t[0] != ']' && t[0] != '}' && t[0] != ',' && !Space(t[0])
  }

  /** Only a scalar's end depends on what comes next: "12" in front of "3" is another number. */
  ghost predicate MayFollow(v: Value, rest: string) {
    v.Scalar? ==> Follows(rest)
  }

  /** The text is a rendering of the value: in front of anything that may follow the value, it reads as the value. */
  ghost predicate Reads(t: string, v: Value) {
    Begins(t) && forall rest :: MayFollow(v, rest) ==> ReadValue(t + rest) == Got(v, rest)
  }

  lemma ReadValueSkips(w: string, t: string)
    requires AllSpace(w)
    ensures ReadValue(w + t) == ReadValue(t)
  {
    SkipSpaces(w, t);
  }

  /** Everything after a part: the parts that follow, what closes the list, and what comes after it. */
  function After(parts: seq<string>, sep: string, close: string, end: string, rest: string): string {
    Tail(parts, sep) + close + end + rest
  }

  /** It may follow a value. */
  lemma AfterFollows(parts: seq<string>, sep: string, close: string, end: string, rest: string)
    requires AllSpace(close) && (end == "]" || end == "}")
    ensures Follows(After(parts, sep, close, end, rest))
  {
    var t := After(parts, sep, close, end, rest);
    if parts != [] {
      assert t[0] == ',';
    } else if close != [] {
      assert t[0] == close[0] && close[0] in close;
    } else {
      assert t == end + rest;
    }
  }

  lemma AfterUnfolds(parts: seq<string>, sep: string, close: string, end: string, rest: string)
    ensures parts == [] ==> After(parts, sep, close, end, rest) == close + (end + rest)
    ensures parts != [] ==>
              After(parts, sep, close, end, rest) == "," + (sep + (parts[0] + After(parts[1..], sep, close, end, rest)))
  {
  }

  lemma ListedUnfolds(parts: seq<string>, open: string, sep: string, close: string, begin: string, end: string,
                      rest: string)
    ensures parts == [] ==> begin + Listed(parts, open, sep, close) + end + rest == begin + (end + rest)
    ensures parts != [] ==>
              begin + Listed(parts, open, sep, close) + end + rest ==
              begin + (open + (parts[0] + After(parts[1..], sep, close, end, rest)))
  {
    if parts != [] {
      var tail := Tail(parts[1..], sep);
      assert begin + (open + parts[0] + tail + close) + end + rest ==
             begin + (open + (parts[0] + (tail + close + end + rest)));
    }
  }

  lemma PartReads(t: string, v: Value, rest: string)
    requires Reads(t, v) && Follows(rest)
    ensures ReadValue(t + rest) == Got(v, rest) && Skip(t + rest) == t + rest && t + rest != []
    ensures (t + rest)[0] != ']' && (t + rest)[0] != '}' && (t + rest)[0] != ','
  {
  }

  // ---- Arrays ----------------------------------------------------------------------------------------------

  lemma ItemsEnd(close: string, rest: string, so: seq<Value>, first: bool)
    requires AllSpace(close)
    ensures ReadItems(close + ("]" + rest), first, so) == Got(Array(so), rest)
  {
    SkipSpaces(close, "]" + rest);
    assert ("]" + rest)[1..] == rest;
  }

  lemma NextItem(u: string, v: Value, after: string, so: seq<Value>)
    requires ReadValue(u) == Got(v, after)
    ensures ReadItems("," + u, false, so) == ReadItems(after, false, so + [v])
  {
  }

  lemma FirstItem(open: string, u: string, v: Value, after: string)
    requires AllSpace(open) && ReadValue(u) == Got(v, after) && Skip(u) == u && u != [] && u[0] != ']'
    ensures ReadItems(open + u, true, []) == ReadItems(after, false, [v])
  {
    SkipSpaces(open, u);
    assert [] + [v] == [v];
  }

  /** The rest of an array, as it is written. */
  lemma {:induction false} ItemsRead(parts: seq<string>, items: seq<Value>, sep: string, close: string, so: seq<Value>,
                                     rest: string)
    requires |parts| == |items| && forall i :: 0 <= i < |parts| ==> Reads(parts[i], items[i])
    requires AllSpace(sep) && AllSpace(close)
    ensures ReadItems(After(parts, sep, close, "]", rest), false, so) == Got(Array(so + items), rest)
  {
    hide *;
    AfterUnfolds(parts, sep, close, "]", rest);
    if parts == [] {
      ItemsEnd(close, rest, so, false);
      assert so + items == so;
    } else {
      var after := After(parts[1..], sep, close, "]", rest);
      AfterFollows(parts[1..], sep, close, "]", rest);
      PartReads(parts[0], items[0], after);
      ReadValueSkips(sep, parts[0] + after);
      NextItem(sep + (parts[0] + after), items[0], after, so);
      ItemsRead(parts[1..], items[1..], sep, close, so + [items[0]], rest);
      assert so + [items[0]] + items[1..] == so + items;
    }
  }

  lemma ArrayBegins(u: string)
    ensures Begins("[" + u) && ReadValue("[" + u) == ReadItems(u, true, [])
  {
  }

  lemma ArrayReads(parts: seq<string>, items: seq<Value>, open: string, sep: string, close: string)
    requires |parts| == |items| && forall i :: 0 <= i < |parts| ==> Reads(parts[i], items[i])
    requires AllSpace(open) && AllSpace(sep) && AllSpace(close)
    ensures Reads("[" + Listed(parts, open, sep, close) + "]", Array(items))
  {
    hide Listed, ReadValue, ReadItems, AllSpace, Follows, Begins, After, Skip;
    var t := "[" + Listed(parts, open, sep, close) + "]";
    assert t == "[" + (Listed(parts, open, sep, close) + "]");
    ArrayBegins(Listed(parts, open, sep, close) + "]");
    forall rest ensures ReadValue(t + rest) == Got(Array(items), rest) {
      ArrayReadsThen(parts, items, open, sep, close, rest);
    }
  }

  lemma ArrayReadsThen(parts: seq<string>, items: seq<Value>, open: string, sep: string, close: string, rest: string)
    requires |parts| == |items| && forall i :: 0 <= i < |parts| ==> Reads(parts[i], items[i])
    requires AllSpace(open) && AllSpace(sep) && AllSpace(close)
    ensures ReadValue("[" + Listed(parts, open, sep, close) + "]" + rest) == Got(Array(items), rest)
  {
    hide *;
    ListedUnfolds(parts, open, sep, close, "[", "]", rest);
    if parts == [] {
      ArrayBegins("]" + rest);
      NoSpaces();
      ItemsEnd("", rest, [], true);
      assert "" + ("]" + rest) == "]" + rest;
      assert items == [];
    } else {
      var after := After(parts[1..], sep, close, "]", rest);
      AfterFollows(parts[1..], sep, close, "]", rest);
      PartReads(parts[0], items[0], after);
      ArrayBegins(open + (parts[0] + after));
      FirstItem(open, parts[0] + after, items[0], after);
      ItemsRead(parts[1..], items[1..], sep, close, [items[0]], rest);
      assert [items[0]] + items[1..] == items;
    }
  }

  lemma NoSpaces()
    ensures AllSpace("")
  {
  }

  // ---- Objects ---------------------------------------------------------------------------------------------

  lemma FieldsEnd(close: string, rest: string, so: seq<Field>, first: bool)
    requires AllSpace(close)
    ensures ReadFields(close + ("}" + rest), first, so) == Got(Object(so), rest)
  {
    SkipSpaces(close, "}" + rest);
    assert ("}" + rest)[1..] == rest;
  }

  /** A name and a value, behind any space, read as the field. */
  lemma NamedReads(w: string, key: string, text: string, v: Value, rest: string)
    requires AllSpace(w) && Reads(text, v) && Follows(rest)
    ensures var u := Named(key, text) + rest;
            && u != [] && u[0] == '"'
            && ReadKey(w + u) == Got(key, " " + (text + rest)) && ReadValue(" " + (text + rest)) == Got(v, rest)
  {
    hide ReadValue, ReadKey, Reads, Follows, AllSpace, Skip, Quote;
    var u := Named(key, text) + rest;
    assert u == Quote(key) + (": " + (text + rest));
    KeyReads(w, key, " " + (text + rest));
    assert ":" + (" " + (text + rest)) == ": " + (text + rest);
    OneSpace();
    ReadValueSkips(" ", text + rest);
    PartReads(text, v, rest);
    QuoteBegins(key, ": " + (text + rest));
  }

  lemma OneSpace()
    ensures AllSpace(" ")
  {
  }

  lemma QuoteBegins(key: string, rest: string)
    ensures Quote(key) + rest != [] && (Quote(key) + rest)[0] == '"' && Skip(Quote(key) + rest) == Quote(key) + rest
    ensures (Quote(key) + rest)[1..] == Escaped(key) + "\"" + rest
  {
  }

  lemma KeyReads(w: string, key: string, rest: string)
    requires AllSpace(w)
    ensures ReadKey(w + (Quote(key) + (":" + rest))) == Got(key, rest)
  {
    hide ReadString, Escaped, AllSpace, Skip, Quote;
    var u := Quote(key) + (":" + rest);
    SkipSpaces(w, u);
    QuoteBegins(key, ":" + rest);
    QuoteReads(key, ":" + rest);
    ColonStays(rest);
  }

  lemma ColonStays(rest: string)
    ensures Skip(":" + rest) == ":" + rest && (":" + rest)[1..] == rest
  {
  }

  lemma NextField(u: string, key: string, mid: string, v: Value, after: string, so: seq<Field>)
    requires ReadKey(u) == Got(key, mid) && ReadValue(mid) == Got(v, after)
    ensures ReadFields("," + u, false, so) == ReadFields(after, false, Put(so, key, v))
  {
  }

  lemma FirstField(open: string, u: string, key: string, mid: string, v: Value, after: string)
    requires AllSpace(open) && u != [] && u[0] == '"'
    requires ReadKey(u) == Got(key, mid) && ReadValue(mid) == Got(v, after)
    ensures ReadFields(open + u, true, []) == ReadFields(after, false, [Field(key, v)])
  {
    SkipSpaces(open, u);
    assert [] + [Field(key, v)] == [Field(key, v)];
  }

  ghost predicate Parts(parts: seq<string>, texts: seq<string>, fields: seq<Field>) {
    |parts| == |texts| == |fields| &&
    forall i :: 0 <= i < |parts| ==> parts[i] == Named(fields[i].key, texts[i]) && Reads(texts[i], fields[i].value)
  }

  /** The fields of an object as they are taken in, one after the other. */
  function PutAll(so: seq<Field>, fields: seq<Field>): seq<Field>
    decreases |fields|
  {
    if fields == [] then so else PutAll(Put(so, fields[0].key, fields[0].value), fields[1..])
  }

  /** Distinct fields are kept as they come. */
  lemma {:induction false} PutAllDistinct(so: seq<Field>, fields: seq<Field>)
    requires DistinctKeys(so + fields)
    ensures PutAll(so, fields) == so + fields
    decreases |fields|
  {
    var all := so + fields;
    if fields == [] {
      assert all == so;
    } else {
      forall k | 0 <= k < |so| ensures so[k].key != fields[0].key {
        assert all[k] == so[k] && all[|so|] == fields[0];
      }
      assert Put(so, fields[0].key, fields[0].value) == so + [fields[0]];
      assert so + [fields[0]] + fields[1..] == all;
      PutAllDistinct(so + [fields[0]], fields[1..]);
    }
  }

  /** The keys of fields, each where it is first met. */
  function FirstKeys(so: seq<string>, fields: seq<Field>): seq<string>
    decreases |fields|
  {
    if fields == [] then so
    else FirstKeys(if fields[0].key in so then so else so + [fields[0].key], fields[1..])
  }

  function KeysOf(fields: seq<Field>): (r: seq<string>)
    ensures |r| == |fields| && forall i :: 0 <= i < |r| ==> r[i] == fields[i].key
  {
    seq(|fields|, i requires 0 <= i < |fields| => fields[i].key)
  }

  datatype Found = Absent | Last(value: Value)

  /** The value a key has last. */
  function Lookup(fields: seq<Field>, key: string): Found {
    if fields == [] then Absent
    else
      var n := |fields| - 1;
      if fields[n].key == key then Last(fields[n].value) else Lookup(fields[..n], key)
  }

  lemma {:induction false} LookupJoin(a: seq<Field>, b: seq<Field>, key: string)
    ensures Lookup(a + b, key) == if Lookup(b, key).Last? then Lookup(b, key) else Lookup(a, key)
  {
    if b == [] {
      assert a + b == a;
    } else {
      var n := |b| - 1;
      assert (a + b)[..|a| + n] == a + b[..n];
      LookupJoin(a, b[..n], key);
    }
  }

  lemma {:induction false} LookupIn(fields: seq<Field>, key: string)
    requires DistinctKeys(fields)
    ensures var i := IndexOf(fields, key); Lookup(fields, key) == if i < 0 then Absent else Last(fields[i].value)
  {
    if fields != [] {
      var n := |fields| - 1;
      LookupIn(fields[..n], key);
      var i, j := IndexOf(fields, key), IndexOf(fields[..n], key);
      assert j >= 0 ==> fields[j].key == key;
      assert 0 <= i < n ==> fields[..n][i].key == key;
    }
  }

  lemma PutLookup(so: seq<Field>, key: string, v: Value, k: string)
    requires DistinctKeys(so)
    ensures Lookup(Put(so, key, v), k) == Lookup(so + [Field(key, v)], k)
  {
    var r := Put(so, key, v);
    PutKeys(so, key, v);
    LookupIn(so, k);
    LookupIn(r, k);
    var i, j := IndexOf(so, k), IndexOf(r, k);
    assert KeysOf(r)[..|so|] == KeysOf(so);
    assert i >= 0 ==> KeysOf(so)[i] == k && r[i].key == k;
    assert (so + [Field(key, v)])[..|so|] == so;
  }

  lemma PutKeys(so: seq<Field>, key: string, v: Value)
    requires DistinctKeys(so)
    ensures var r := Put(so, key, v);
            && DistinctKeys(r) && |r| >= |so|
            && KeysOf(r) == (if key in KeysOf(so) then KeysOf(so) else KeysOf(so) + [key])
            && (forall i :: 0 <= i < |r| ==> r[i] == Field(key, v) || (i < |so| && r[i] == so[i]))
  {
  }

  /** A key met more than once keeps its first place. */
  lemma {:induction false} FirstPlaceStays(so: seq<Field>, fields: seq<Field>)
    requires DistinctKeys(so)
    ensures DistinctKeys(PutAll(so, fields)) && KeysOf(PutAll(so, fields)) == FirstKeys(KeysOf(so), fields)
    decreases |fields|
  {
    if fields != [] {
      hide Put, DistinctKeys, KeysOf;
      PutKeys(so, fields[0].key, fields[0].value);
      FirstPlaceStays(Put(so, fields[0].key, fields[0].value), fields[1..]);
    }
  }

  lemma PutLookupThen(so: seq<Field>, head: Field, rest: seq<Field>, key: string)
    requires DistinctKeys(so)
    ensures Lookup(Put(so, head.key, head.value) + rest, key) == Lookup(so + ([head] + rest), key)
  {
    hide Lookup, Put, DistinctKeys;
    PutLookup(so, head.key, head.value, key);
    LookupJoin(Put(so, head.key, head.value), rest, key);
    LookupJoin(so + [head], rest, key);
    assert so + [head] + rest == so + ([head] + rest);
  }

  /** A key met more than once has its last value. */
  lemma {:induction false} LastValueWins(so: seq<Field>, fields: seq<Field>, key: string)
    requires DistinctKeys(so)
    ensures Lookup(PutAll(so, fields), key) == Lookup(so + fields, key)
    decreases |fields|
  {
    if fields == [] {
      assert so + fields == so;
    } else {
      hide Lookup, Put, DistinctKeys;
      PutKeys(so, fields[0].key, fields[0].value);
      LastValueWins(Put(so, fields[0].key, fields[0].value), fields[1..], key);
      PutLookupThen(so, fields[0], fields[1..], key);
      assert [fields[0]] + fields[1..] == fields;
    }
  }

  /** The rest of an object, as it is written. */
  lemma {:induction false} FieldsRead(parts: seq<string>, texts: seq<string>, fields: seq<Field>, sep: string, close: string,
                                      so: seq<Field>, rest: string)
    requires Parts(parts, texts, fields) && AllSpace(sep) && AllSpace(close)
    ensures ReadFields(After(parts, sep, close, "}", rest), false, so) == Got(Object(PutAll(so, fields)), rest)
    decreases |parts|
  {
    hide After, ReadValue, ReadFields, ReadKey, Put, AllSpace, Follows, Reads, Named, Skip;
    AfterUnfolds(parts, sep, close, "}", rest);
    if parts == [] {
      FieldsEnd(close, rest, so, false);
    } else {
      var after := After(parts[1..], sep, close, "}", rest);
      var key, v := fields[0].key, fields[0].value;
      AfterFollows(parts[1..], sep, close, "}", rest);
      NamedReads(sep, key, texts[0], v, after);
      NextField(sep + (parts[0] + after), key, " " + (texts[0] + after), v, after, so);
      assert Parts(parts[1..], texts[1..], fields[1..]);
      FieldsRead(parts[1..], texts[1..], fields[1..], sep, close, Put(so, key, v), rest);
    }
  }

  lemma ObjectBegins(u: string)
    ensures Begins("{" + u) && ReadValue("{" + u) == ReadFields(u, true, [])
  {
  }

  lemma ObjectReadsThen(parts: seq<string>, texts: seq<string>, fields: seq<Field>, open: string, sep: string, close: string,
                        rest: string)
    requires Parts(parts, texts, fields) && AllSpace(open) && AllSpace(sep) && AllSpace(close)
    ensures ReadValue("{" + Listed(parts, open, sep, close) + "}" + rest) == Got(Object(PutAll([], fields)), rest)
  {
    hide After, ReadValue, ReadFields, ReadKey, AllSpace, Follows, Reads, Named, Skip, Listed, Begins;
    ListedUnfolds(parts, open, sep, close, "{", "}", rest);
    if parts == [] {
      ObjectBegins("}" + rest);
      NoSpaces();
      FieldsEnd("", rest, [], true);
      assert "" + ("}" + rest) == "}" + rest;
      assert fields == [];
    } else {
      var after := After(parts[1..], sep, close, "}", rest);
      var key, v := fields[0].key, fields[0].value;
      AfterFollows(parts[1..], sep, close, "}", rest);
      NoSpaces();
      NamedReads("", key, texts[0], v, after);
      assert "" + (parts[0] + after) == parts[0] + after;
      ObjectBegins(open + (parts[0] + after));
      FirstField(open, parts[0] + after, key, " " + (texts[0] + after), v, after);
      assert Put([], key, v) == [fields[0]];
      assert Parts(parts[1..], texts[1..], fields[1..]);
      FieldsRead(parts[1..], texts[1..], fields[1..], sep, close, [fields[0]], rest);
    }
  }

  /** An object as it is written, with any keys, reads as its fields taken in one after the other. */
  lemma ObjectReads(parts: seq<string>, texts: seq<string>, fields: seq<Field>, open: string, sep: string, close: string)
    requires Parts(parts, texts, fields) && AllSpace(open) && AllSpace(sep) && AllSpace(close)
    ensures Reads("{" + Listed(parts, open, sep, close) + "}", Object(PutAll([], fields)))
    ensures DistinctKeys(fields) ==> PutAll([], fields) == fields
  {
    hide Listed, ReadValue, ReadFields, AllSpace, Follows, Begins, After, Skip, Parts, DistinctKeys, PutAll;
    var t := "{" + Listed(parts, open, sep, close) + "}";
    assert t == "{" + (Listed(parts, open, sep, close) + "}");
    ObjectBegins(Listed(parts, open, sep, close) + "}");
    forall rest ensures ReadValue(t + rest) == Got(Object(PutAll([], fields)), rest) {
      ObjectReadsThen(parts, texts, fields, open, sep, close, rest);
    }
    if DistinctKeys(fields) {
      assert [] + fields == fields;
      PutAllDistinct([], fields);
    }
  }

  // ---- Values ----------------------------------------------------------------------------------------------

  lemma ScalarTextReads(tok: Token)
    requires Proper(tok)
    ensures Reads(EncodeScalar(tok), Scalar(tok))
  {
    var t := EncodeScalar(tok);
    ScalarReads(tok, "");
    forall rest | Follows(rest) ensures ReadValue(t + rest) == Got(Scalar(tok), rest) {
      ScalarReads(tok, rest);
      assert (t + rest)[0] == t[0] && Skip(t + rest) == t + rest;
    }
  }

  /** The one-line form of a value reads back as the value. */
  lemma {:induction false} InlineReads(v: Value)
    requires WellFormed(v)
    ensures Reads(Inline(v), v)
    decreases v
  {
    hide Reads, Listed, Named, EncodeScalar;
    NoSpaces();
    OneSpace();
    match v
    case Scalar(tok) => ScalarTextReads(tok);
    case Array(items) =>
      forall i | 0 <= i < |items| ensures Reads(Inline(items[i]), items[i]) {
        InlineReads(items[i]);
      }
      ArrayReads(seq(|items|, i requires 0 <= i < |items| => Inline(items[i])), items, "", " ", "");
    case Object(fields) =>
      forall i | 0 <= i < |fields| ensures Reads(Inline(fields[i].value), fields[i].value) {
        InlineReads(fields[i].value);
      }
      var texts := seq(|fields|, i requires 0 <= i < |fields| => Inline(fields[i].value));
      ObjectReads(seq(|fields|, i requires 0 <= i < |fields| => Named(fields[i].key, Inline(fields[i].value))), texts,
                  fields, "", " ", "");
  }

  lemma {:induction false} PadIsSpace(depth: nat)
    ensures AllSpace(Pad(depth)) && AllSpace(Pad(depth) + INDENT)
    ensures AllSpace("\n" + Pad(depth)) && AllSpace("\n" + (Pad(depth) + INDENT))
  {
    if depth > 0 {
      PadIsSpace(depth - 1);
    }
  }

  /** However a value is laid out, at any depth and with any number of columns taken, it reads back as itself. */
  lemma {:induction false} RenderReads(v: Value, depth: nat, forceExpand: bool, used: nat)
    requires WellFormed(v)
    ensures Reads(Render(v, depth, forceExpand, used), v)
    decreases v
  {
    hide Reads, Listed, Named, EncodeScalar, Inline, AllSpace;
    PadIsSpace(depth);
    var pad, inner := Pad(depth), Pad(depth) + INDENT;
    if v.Scalar? {
      ScalarTextReads(v.tok);
    } else if !forceExpand && used + |Inline(v)| <= WIDTH {
      InlineReads(v);
    } else if v.Array? {
      var items := v.items;
      forall i | 0 <= i < |items| ensures Reads(Render(items[i], depth + 1, false, |inner|), items[i]) {
        RenderReads(items[i], depth + 1, false, |inner|);
      }
      ArrayReads(seq(|items|, i requires 0 <= i < |items| => Render(items[i], depth + 1, false, |inner|)), items,
                 "\n" + inner, "\n" + inner, "\n" + pad);
    } else {
      var fields := v.fields;
      forall i | 0 <= i < |fields|
        ensures Reads(Render(fields[i].value, depth + 1, false, |inner| + |Quote(fields[i].key)| + 2), fields[i].value)
      {
        RenderReads(fields[i].value, depth + 1, false, |inner| + |Quote(fields[i].key)| + 2);
      }
      var texts := seq(|fields|, i requires 0 <= i < |fields| =>
        Render(fields[i].value, depth + 1, false, |inner| + |Quote(fields[i].key)| + 2));
      ObjectReads(seq(|fields|, i requires 0 <= i < |fields| =>
                        Named(fields[i].key, Render(fields[i].value, depth + 1, false, |inner| + |Quote(fields[i].key)| + 2))),
                  texts, fields, "\n" + inner, "\n" + inner, "\n" + pad);
    }
  }

  /** Reading what was written gives the value back. */
  lemma WrittenReadsBack(v: Value)
    requires WellFormed(v)
    ensures Decode(Written(v)) == Ok(v)
  {
    RenderReads(v, 0, true, 0);
    assert Follows("\n");
    assert ReadValue(Render(v, 0, true, 0) + "\n") == Got(v, "\n");
    assert "\n"[1..] == "";
  }

  // ---- Formatting twice ------------------------------------------------------------------------------------

  lemma {:induction false} ReadValueIsWellFormed(t: string)
    ensures ReadValue(t).Got? ==> WellFormed(ReadValue(t).value)
    decreases |t|, 0
  {
    var s := Skip(t);
    if s == [] {
    } else if s[0] == '{' {
      ReadFieldsIsWellFormed(s[1..], true, []);
    } else if s[0] == '[' {
      ReadItemsIsWellFormed(s[1..], true, []);
    } else {
      ScalarIsProper(s);
    }
  }

  lemma {:induction false} ReadItemsIsWellFormed(t: string, first: bool, items: seq<Value>)
    requires WellFormed(Array(items))
    ensures ReadItems(t, first, items).Got? ==> WellFormed(ReadItems(t, first, items).value)
    decreases |t|, 1
  {
    var s := Skip(t);
    if s != [] && s[0] != ']' && (first || s[0] == ',') {
      var u := if first then s else s[1..];
      ReadValueIsWellFormed(u);
      if ReadValue(u).Got? {
        ReadItemsIsWellFormed(ReadValue(u).rest, false, items + [ReadValue(u).value]);
      }
    }
  }

  lemma {:induction false} ReadFieldsIsWellFormed(t: string, first: bool, fields: seq<Field>)
    requires WellFormed(Object(fields))
    ensures ReadFields(t, first, fields).Got? ==> WellFormed(ReadFields(t, first, fields).value)
    decreases |t|, 1
  {
    var s := Skip(t);
    if s != [] && s[0] != '}' && (first || s[0] == ',') {
      var k := ReadKey(if first then s else s[1..]);
      if k.Got? {
        ReadValueIsWellFormed(k.rest);
        var r := ReadValue(k.rest);
        if r.Got? {
          PutIsWellFormed(fields, k.value, r.value);
          ReadFieldsIsWellFormed(r.rest, false, Put(fields, k.value, r.value));
        }
      }
    }
  }

  lemma PutIsWellFormed(fields: seq<Field>, key: string, v: Value)
    requires WellFormed(Object(fields)) && WellFormed(v)
    ensures WellFormed(Object(Put(fields, key, v)))
  {
  }

  /** Formatting keeps the value a text stands for, keys in their order, and formatting again changes nothing. */
  lemma PrettyIsIdempotent(t: string)
    ensures Pretty(t).Ok? ==> Decode(Pretty(t).value) == Decode(t) && Pretty(Pretty(t).value) == Pretty(t)
  {
    hide Written;
    if Decode(t).Ok? {
      ReadValueIsWellFormed(t);
      WrittenReadsBack(Decode(t).value);
    }
  }

  /** The source says content after the value is a syntax error. What follows a rendered value is refused exactly when,
      behind its white space, it begins with something else than a closing bracket or brace; otherwise it is dropped. */
  lemma LeftoverIsRefusedIff(v: Value, leftover: string)
    requires WellFormed(v) && MayFollow(v, leftover)
    ensures var t, s := Render(v, 0, true, 0) + leftover, Skip(leftover);
            && (Decode(t) == Error <==> s != [] && s[0] != ']' && s[0] != '}')
            && (Decode(t).Ok? ==> Decode(t) == Ok(v) && Pretty(t) == Ok(Written(v)))
  {
    hide Render;
    RenderReads(v, 0, true, 0);
    assert ReadValue(Render(v, 0, true, 0) + leftover) == Got(v, leftover);
  }

  /** So a text whose leftover begins with a closing bracket or brace is taken as if it ended before. */
  lemma ClosingLeftoverIsDropped(v: Value, leftover: string)
    requires WellFormed(v) && leftover != [] && (leftover[0] == ']' || leftover[0] == '}')
    ensures Decode(Render(v, 0, true, 0) + leftover) == Ok(v)
    ensures Pretty(Render(v, 0, true, 0) + leftover) == Ok(Written(v))
  {
    hide Render, Written;
    LeftoverIsRefusedIff(v, leftover);
  }

  // ---- The reader and the writer ---------------------------------------------------------------------------

  /** A reader's place in a text. */
  class Decoder {
    var rest: string

    constructor (text: string)
      ensures rest == text
    {
      rest := text;
    }

    /** Passes white space and tells whether another part may follow before a closing bracket or brace. */
    method More() returns (more: bool)
      modifies this
      ensures rest == Skip(old(rest))
      ensures more <==> rest != [] && rest[0] != ']' && rest[0] != '}'
    {
      rest := Skip(rest);
      more := |rest| > 0 && rest[0] != ']' && rest[0] != '}';
    }

    /** Passes one character, if it is the one expected. */
    method Expect(c: char) returns (ok: bool)
      modifies this
      ensures ok <==> Skip(old(rest)) != [] && Skip(old(rest))[0] == c
      ensures rest == if ok then Skip(old(rest))[1..] else Skip(old(rest))
    {
      rest := Skip(rest);
      ok := |rest| > 0 && rest[0] == c;
      if ok {
        rest := rest[1..];
      }
    }

    method DecodeKey() returns (r: Outcome<string>)
      modifies this
      ensures match ReadKey(old(rest)) case Bad => r.Error? case Got(key, after) => r == Ok(key) && rest == after
    {
      var quote := Expect('"');
      if !quote {
        return Error;
      }
      match ReadString(rest)
      case Bad =>
        return Error;
      case Got(key, after) =>
        rest := after;
        var colon := Expect(':');
        r := if colon then Ok(key) else Error;
    }

    /** Reads the value that comes next. */
    method DecodeValue() returns (r: Outcome<Value>)
      modifies this
      ensures match ReadValue(old(rest)) case Bad => r.Error? case Got(v, after) => r == Ok(v) && rest == after
      decreases |rest|, 0
    {
      rest := Skip(rest);
      if |rest| == 0 {
        r := Error;
      } else if rest[0] == '{' {
        rest := rest[1..];
        r := DecodeFields();
      } else if rest[0] == '[' {
        rest := rest[1..];
        r := DecodeItems();
      } else {
        match ReadScalar(rest)
        case Bad => r := Error;
        case Got(tok, after) =>
          rest := after;
          r := Ok(Scalar(tok));
      }
    }

    /** Reads an object, from after its brace on. */
    method DecodeFields() returns (r: Outcome<Value>)
      modifies this
      ensures match ReadFields(old(rest), true, [])
              case Bad => r.Error?
              case Got(v, after) => r == Ok(v) && rest == after
      decreases |rest|, 1
    {
      hide Put, Skip;
      var fields: seq<Field>, first := [], true;
      SkipTwice(rest);
      var more := More();
      while more
        invariant more <==> rest != [] && rest[0] != ']' && rest[0] != '}'
        invariant rest == Skip(rest) && |rest| <= |old(rest)|
        invariant ReadFields(rest, first, fields) == ReadFields(old(rest), true, [])
        decreases |rest|
      {
        if !first {
          var comma := Expect(',');
          if !comma {
            return Error;
          }
        }
        var k := DecodeKey();
        if k.Error? {
          return Error;
        }
        var child := DecodeValue();
        if child.Error? {
          return Error;
        }
        fields, first := Put(fields, k.value, child.value), false;
        SkipTwice(rest);
        more := More();
      }
      var closed := Expect('}');
      r := if closed then Ok(Object(fields)) else Error;
    }

    /** Reads an array, from after its bracket on. */
    method DecodeItems() returns (r: Outcome<Value>)
      modifies this
      ensures match ReadItems(old(rest), true, [])
              case Bad => r.Error?
              case Got(v, after) => r == Ok(v) && rest == after
      decreases |rest|, 1
    {
      hide Skip;
      var items: seq<Value>, first := [], true;
      SkipTwice(rest);
      var more := More();
      while more
        invariant more <==> rest != [] && rest[0] != ']' && rest[0] != '}'
        invariant rest == Skip(rest) && |rest| <= |old(rest)|
        invariant ReadItems(rest, first, items) == ReadItems(old(rest), true, [])
        decreases |rest|
      {
        if !first {
          var comma := Expect(',');
          if !comma {
            return Error;
          }
        }
        var child := DecodeValue();
        if child.Error? {
          return Error;
        }
        items, first := items + [child.value], false;
        SkipTwice(rest);
        more := More();
      }
      var closed := Expect(']');
      r := if closed then Ok(Array(items)) else Error;
    }
  }

  lemma {:induction false} SkipTwice(t: string)
    ensures Skip(Skip(t)) == Skip(t)
  {
  }

  class Builder {
    var text: string

    constructor ()
      ensures text == ""
    {
      text := "";
    }

    method WriteString(s: string)
      modifies this
      ensures text == old(text) + s
    {
      text := text + s;
    }
  }

  /** Parts on lines of their own, a comma after each but the last. */
  function Lines(parts: seq<string>, inner: string): string {
    if parts == [] then ""
    else inner + parts[0] + (if |parts| > 1 then "," else "") + "\n" + Lines(parts[1..], inner)
  }

  lemma OneLine(inner: string, part: string, pad: string)
    ensures "\n" + (inner + part + "" + "\n" + "") + pad == "\n" + inner + part + "" + ("\n" + pad)
  {
  }

  lemma OneMoreLine(inner: string, part: string, lines: string, next: string, tail: string, pad: string)
    requires "\n" + lines + pad == "\n" + inner + next + tail + ("\n" + pad)
    ensures "\n" + (inner + part + "," + "\n" + lines) + pad ==
            "\n" + inner + part + ("," + ("\n" + inner) + next + tail) + ("\n" + pad)
  {
    var head := "\n" + inner + part + ",";
    assert "\n" + (inner + part + "," + "\n" + lines) + pad == head + ("\n" + lines + pad);
    assert "\n" + inner + part + ("," + ("\n" + inner) + next + tail) + ("\n" + pad) ==
           head + ("\n" + inner + next + tail + ("\n" + pad));
  }

  lemma {:induction false} LinesAreListed(parts: seq<string>, inner: string, pad: string)
    requires parts != []
    ensures "\n" + Lines(parts, inner) + pad == Listed(parts, "\n" + inner, "\n" + inner, "\n" + pad)
  {
    var rest := parts[1..];
    if rest == [] {
      assert Lines(rest, inner) == "" && Tail(rest, "\n" + inner) == "";
      OneLine(inner, parts[0], pad);
    } else {
      LinesAreListed(rest, inner, pad);
      OneMoreLine(inner, parts[0], Lines(rest, inner), rest[0], Tail(rest[1..], "\n" + inner), pad);
    }
  }

  /** One more line: its indent, its part, and the comma when another follows. */
  lemma LinesNext(parts: seq<string>, inner: string, i: nat)
    requires i < |parts|
    ensures Lines(parts[i..], inner) ==
            inner + parts[i] + (if i < |parts| - 1 then "," else "") + "\n" + Lines(parts[i + 1..], inner)
  {
  }

  function ItemTexts(items: seq<Value>, depth: nat): (r: seq<string>)
    ensures |r| == |items|
    ensures forall i :: 0 <= i < |r| ==> r[i] == Render(items[i], depth + 1, false, |Pad(depth) + INDENT|)
  {
    seq(|items|, i requires 0 <= i < |items| => Render(items[i], depth + 1, false, |Pad(depth) + INDENT|))
  }

  function FieldText(f: Field, depth: nat): string {
    Named(f.key, Render(f.value, depth + 1, false, |Pad(depth) + INDENT| + |Quote(f.key)| + 2))
  }

  function FieldTexts(fields: seq<Field>, depth: nat): (r: seq<string>)
    ensures |r| == |fields| && forall i :: 0 <= i < |r| ==> r[i] == FieldText(fields[i], depth)
  {
    seq(|fields|, i requires 0 <= i < |fields| => FieldText(fields[i], depth))
  }

  lemma ItemsExpand(v: Value, depth: nat, forceExpand: bool, used: nat)
    requires v.Array? && (forceExpand || used + |Inline(v)| > WIDTH)
    ensures var inner := Pad(depth) + INDENT;
            Render(v, depth, forceExpand, used) ==
            "[" + Listed(ItemTexts(v.items, depth), "\n" + inner, "\n" + inner, "\n" + Pad(depth)) + "]"
  {
  }

  lemma FieldsExpand(v: Value, depth: nat, forceExpand: bool, used: nat)
    requires v.Object? && (forceExpand || used + |Inline(v)| > WIDTH)
    ensures var inner := Pad(depth) + INDENT;
            Render(v, depth, forceExpand, used) ==
            "{" + Listed(FieldTexts(v.fields, depth), "\n" + inner, "\n" + inner, "\n" + Pad(depth)) + "}"
  {
    hide Listed, Pad, Inline, Named, Quote;
    var inner := Pad(depth) + INDENT;
    assert seq(|v.fields|, i requires 0 <= i < |v.fields| =>
             Named(v.fields[i].key, Render(v.fields[i].value, depth + 1, false, |inner| + |Quote(v.fields[i].key)| + 2)))
        == FieldTexts(v.fields, depth);
  }

  /** Writes a value at an indent. */
  method RenderTo(b: Builder, v: Value, depth: nat, forceExpand: bool, used: nat)
    modifies b
    ensures b.text == old(b.text) + Render(v, depth, forceExpand, used)
    decreases v
  {
    var pad, inner := Pad(depth), Pad(depth) + INDENT;
    if v.Scalar? {
      b.WriteString(EncodeScalar(v.tok));
      return;
    }
    if !forceExpand && used + |Inline(v)| <= WIDTH {
      b.WriteString(Inline(v));
      return;
    }
    if v.Array? {
      ItemsExpand(v, depth, forceExpand, used);
      if |v.items| == 0 {
        b.WriteString("[]");
        return;
      }
      WriteItems(b, v, depth, pad, inner);
    } else {
      FieldsExpand(v, depth, forceExpand, used);
      if |v.fields| == 0 {
        b.WriteString("{}");
        return;
      }
      WriteFields(b, v, depth, pad, inner);
    }
  }

  /** The lines written so far, and what closes them, make the whole list. */
  lemma Closed(start: string, open: string, parts: seq<string>, inner: string, pad: string, close: string)
    ensures Lines(parts[|parts|..], inner) == ""
    ensures start + (open + "\n") + Lines(parts, inner) + (pad + close) ==
            start + (open + ("\n" + Lines(parts, inner) + pad) + close)
  {
  }

  method WriteItems(b: Builder, v: Value, depth: nat, pad: string, inner: string)
    requires v.Array? && v.items != [] && pad == Pad(depth) && inner == Pad(depth) + INDENT
    modifies b
    ensures b.text == old(b.text) +
                      ("[" + Listed(ItemTexts(v.items, depth), "\n" + inner, "\n" + inner, "\n" + pad) + "]")
    decreases v, 0
  {
    hide Render, Listed, Lines, Pad;
    ghost var start, parts := b.text, ItemTexts(v.items, depth);
    b.WriteString("[\n");
    assert parts[0..] == parts;
    for i := 0 to |v.items|
      invariant b.text + Lines(parts[i..], inner) == start + "[\n" + Lines(parts, inner)
    {
      LinesNext(parts, inner, i);
      b.WriteString(inner);
      RenderTo(b, v.items[i], depth + 1, false, |inner|);
      if i < |v.items| - 1 {
        b.WriteString(",");
      }
      b.WriteString("\n");
    }
    LinesAreListed(parts, inner, pad);
    Closed(start, "[", parts, inner, pad, "]");
    assert "[" + "\n" == "[\n" && b.text + "" == b.text;
    b.WriteString(pad + "]");
  }

  method WriteFields(b: Builder, v: Value, depth: nat, pad: string, inner: string)
    requires v.Object? && v.fields != [] && pad == Pad(depth) && inner == Pad(depth) + INDENT
    modifies b
    ensures b.text == old(b.text) +
                      ("{" + Listed(FieldTexts(v.fields, depth), "\n" + inner, "\n" + inner, "\n" + pad) + "}")
    decreases v, 0
  {
    hide Render, Listed, Lines, Pad;
    ghost var start, parts := b.text, FieldTexts(v.fields, depth);
    b.WriteString("{\n");
    assert parts[0..] == parts;
    for i := 0 to |v.fields|
      invariant b.text + Lines(parts[i..], inner) == start + "{\n" + Lines(parts, inner)
    {
      LinesNext(parts, inner, i);
      var key := v.fields[i].key;
      b.WriteString(inner + Quote(key) + ": ");
      RenderTo(b, v.fields[i].value, depth + 1, false, |inner| + |Quote(key)| + 2);
      if i < |v.fields| - 1 {
        b.WriteString(",");
      }
      b.WriteString("\n");
    }
    LinesAreListed(parts, inner, pad);
    Closed(start, "{", parts, inner, pad, "}");
    assert "{" + "\n" == "{\n" && b.text + "" == b.text;
    b.WriteString(pad + "}");
  }

  /** Formats a text. */
  method Format(t: string) returns (r: Outcome<string>)
    ensures r == Pretty(t)
  {
    var d := new Decoder(t);
    var v := d.DecodeValue();
    if v.Error? {
      return Error;
    }
    var rest := Skip(d.rest);
    if |rest| > 0 && rest[0] != ']' && rest[0] != '}' {
      return Error;
    }
    var b := new Builder();
    RenderTo(b, v.value, 0, true, 0);
    assert "" + Render(v.value, 0, true, 0) == Render(v.value, 0, true, 0);
    b.WriteString("\n");
    r := Ok(b.text);
  }
}
