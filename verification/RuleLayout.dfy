/** How a written rule is laid out: what is on one line, and how wide the lines are. */
module RuleLayout {
  import opened JsonText
  import opened RuleFormat

  // ---- One line ------------------------------------------------------------------------------------------

  ghost predicate NoBreak(t: string) {
    '\n' !in t
  }

  lemma {:induction false} EscapedNoBreak(s: string)
    ensures NoBreak(Escaped(s))
  {
    if s != [] {
      EscapedNoBreak(s[1..]);
      EscapeNoBreak(s[0]);
      hide Escape;
    }
  }

  lemma EscapeNoBreak(c: char)
    ensures NoBreak(Escape(c))
  {
  }

  lemma {:induction false} DigitsAreDigits(t: string)
    ensures forall i :: 0 <= i < Digits(t) ==> IsDigit(t[i])
  {
    if t != [] && IsDigit(t[0]) {
      DigitsAreDigits(t[1..]);
      assert forall i :: 0 < i < Digits(t) ==> t[i] == t[1..][i - 1];
    }
  }

  /** The characters of numbers. */
  predicate Numeric(c: char) {
    IsDigit(c) || c in {'-', '+', '.', 'e', 'E'}
  }

  ghost predicate AllNumeric(t: string, n: int) {
    0 <= n <= |t| && forall i :: 0 <= i < n ==> Numeric(t[i])
  }

  lemma PartsAreNumeric(t: string)
    ensures AllNumeric(t, SignLength(t)) && AllNumeric(t, IntLength(t))
    ensures (FracLength(t) >= 0 ==> AllNumeric(t, FracLength(t))) && (ExpLength(t) >= 0 ==> AllNumeric(t, ExpLength(t)))
  {
    DigitsAreDigits(t);
    if t != [] {
      DigitsAreDigits(t[1..]);
      if |t| > 1 {
        DigitsAreDigits(t[2..]);
      }
    }
  }

  lemma NumberIsNumeric(t: string)
    requires NumberLength(t) > 0
    ensures AllNumeric(t, NumberLength(t))
  {
    hide SignLength, IntLength, FracLength, ExpLength, Digits, IsDigit, Numeric, AllNumeric;
    var i := SignLength(t);
    var k := IntLength(t[i..]);
    var f := FracLength(t[i + k..]);
    var e := ExpLength(t[i + k + f..]);
    PartsAreNumeric(t);
    PartsAreNumeric(t[i..]);
    PartsAreNumeric(t[i + k..]);
    PartsAreNumeric(t[i + k + f..]);
    Pieces(t, i, k, f, e);
  }

  lemma Pieces(t: string, i: nat, k: nat, f: nat, e: nat)
    requires i + k + f + e <= |t|
    requires AllNumeric(t, i) && AllNumeric(t[i..], k) && AllNumeric(t[i + k..], f) && AllNumeric(t[i + k + f..], e)
    ensures AllNumeric(t, i + k + f + e)
  {
    hide Numeric;
    forall j | 0 <= j < i + k + f + e ensures Numeric(t[j]) {
      if i <= j < i + k {
        assert t[j] == t[i..][j - i];
      } else if i + k <= j < i + k + f {
        assert t[j] == t[i + k..][j - i - k];
      } else if i + k + f <= j {
        assert t[j] == t[i + k + f..][j - i - k - f];
      }
    }
  }

  /** A scalar is on one line, and does not end as a container does. */
  lemma ScalarText(tok: Token)
    requires Proper(tok)
    ensures var t := EncodeScalar(tok);
            t != [] && NoBreak(t) && t[|t| - 1] != ']' && t[|t| - 1] != '}' && t[|t| - 1] != ','
  {
    var t := EncodeScalar(tok);
    if tok.Number? {
      NumberIsNumeric(t);
      assert Numeric(t[|t| - 1]);
      assert forall i :: 0 <= i < |t| ==> t[i] != '\n' by {
        assert forall i :: 0 <= i < |t| ==> Numeric(t[i]);
      }
    } else if tok.Text? {
      EscapedNoBreak(tok.s);
    }
  }

  lemma QuoteNoBreak(s: string)
    ensures NoBreak(Quote(s))
  {
    EscapedNoBreak(s);
  }

  lemma {:induction false} ListedNoBreak(parts: seq<string>)
    requires forall i :: 0 <= i < |parts| ==> NoBreak(parts[i])
    ensures NoBreak(Tail(parts, " ")) && NoBreak(Listed(parts, "", " ", ""))
  {
    if parts != [] {
      ListedNoBreak(parts[1..]);
    }
  }

  lemma {:induction false} InlineNoBreak(v: Value)
    requires WellFormed(v)
    ensures NoBreak(Inline(v))
    decreases v
  {
    match v
    case Scalar(tok) =>
      ScalarText(tok);
    case Array(items) =>
      var parts := seq(|items|, i requires 0 <= i < |items| => Inline(items[i]));
      forall i | 0 <= i < |items| ensures NoBreak(parts[i]) {
        InlineNoBreak(items[i]);
      }
      ListedNoBreak(parts);
    case Object(fields) =>
      var parts := seq(|fields|, i requires 0 <= i < |fields| => Named(fields[i].key, Inline(fields[i].value)));
      forall i | 0 <= i < |fields| ensures NoBreak(parts[i]) {
        InlineNoBreak(fields[i].value);
        QuoteNoBreak(fields[i].key);
        hide Quote;
      }
      ListedNoBreak(parts);
  }

  predicate EmptyContainer(v: Value) {
    v == Array([]) || v == Object([])
  }

  /** A list or object that holds something is written on one line exactly when it fits in what is left of the line. */
  lemma OneLineIffFits(v: Value, depth: nat, used: nat)
    requires WellFormed(v) && !v.Scalar? && !EmptyContainer(v)
    ensures NoBreak(Render(v, depth, false, used)) <==> used + |Inline(v)| <= WIDTH
    ensures NoBreak(Render(v, depth, false, used)) ==> Render(v, depth, false, used) == Inline(v)
    ensures !NoBreak(Render(v, depth, true, used))
  {
    InlineNoBreak(v);
    SpreadBreaks(v, depth, used);
    hide Inline;
  }

  lemma SpreadBreaks(v: Value, depth: nat, used: nat)
    requires !v.Scalar? && !EmptyContainer(v)
    ensures '\n' in Render(v, depth, true, used)
    ensures used + |Inline(v)| > WIDTH ==> Render(v, depth, false, used) == Render(v, depth, true, used)
  {
    var t := Render(v, depth, true, used);
    hide Inline, Tail, Quote;
    assert t[1] == '\n';
  }

  function Spaces(n: nat): string {
    seq(n, _ => ' ')
  }

  lemma {:induction false} PadIs(depth: nat)
    ensures Pad(depth) == Spaces(2 * depth) && Pad(depth) + INDENT == Spaces(2 * depth + 2)
  {
    if depth > 0 {
      PadIs(depth - 1);
    }
  }

  lemma BeginsAndEnds(open: string, inner: string, middle: string, pad: string, close: string)
    ensures var t := open + ("\n" + inner + middle + ("\n" + pad)) + close; var a, b := open + "\n" + inner, "\n" + pad + close;
            |a| + |b| <= |t| && t[..|a|] == a && t[|t| - |b|..] == b
  {
    var a, b := open + "\n" + inner, "\n" + pad + close;
    assert open + ("\n" + inner + middle + ("\n" + pad)) + close == a + middle + b;
  }

  /** A spread container opens at the end of its line, has its parts two spaces further in, and is closed at its own
      indent. */
  lemma SpreadIsIndented(v: Value, depth: nat, used: nat)
    requires !v.Scalar? && !EmptyContainer(v)
    ensures var t, open, close := Render(v, depth, true, used), if v.Array? then "[" else "{", if v.Array? then "]" else "}";
            var a, b := open + "\n" + Spaces(2 * depth + 2), "\n" + Spaces(2 * depth) + close;
            |a| + |b| <= |t| && t[..|a|] == a && t[|t| - |b|..] == b
  {
    hide Inline, Tail, Pad, Render, ItemTexts, FieldTexts;
    PadIs(depth);
    var inner, pad := Pad(depth) + INDENT, Pad(depth);
    var parts := if v.Array? then ItemTexts(v.items, depth) else FieldTexts(v.fields, depth);
    if v.Array? {
      ItemsExpand(v, depth, true, used);
      BeginsAndEnds("[", inner, parts[0] + Tail(parts[1..], "\n" + inner), pad, "]");
    } else {
      FieldsExpand(v, depth, true, used);
      BeginsAndEnds("{", inner, parts[0] + Tail(parts[1..], "\n" + inner), pad, "}");
    }
    assert "\n" + inner + parts[0] + Tail(parts[1..], "\n" + inner) == "\n" + inner + (parts[0] + Tail(parts[1..], "\n" + inner));
  }

  // ---- Every line ----------------------------------------------------------------------------------------

  /** The part of a text before its first line break. */
  function Break(t: string): (i: nat)
    ensures i <= |t| && (i < |t| ==> t[i] == '\n') && '\n' !in t[..i]
  {
    if t == [] || t[0] == '\n' then 0
    else
      var i := 1 + Break(t[1..]);
      assert t[..i] == [t[0]] + t[1..][..i - 1];
      i
  }

  /** A line without the comma behind it. */
  function Bare(line: string): string {
    if line != [] && line[|line| - 1] == ',' then line[..|line| - 1] else line
  }

  ghost predicate Ends(t: string, end: string) {
    |end| <= |t| && t[|t| - |end|..] == end
  }

  /** The line ends with a scalar, an opening or an empty container, or closes one: nothing in it could be spread. */
  ghost predicate Unbreakable(t: string) {
    t == [] || (t[|t| - 1] != ']' && t[|t| - 1] != '}') || Ends(t, "[]") || Ends(t, "{}") || AllSpace(t[..|t| - 1])
  }

  /** A line is no wider than allowed, unless nothing in it could be spread over more lines. */
  ghost predicate LineOk(line: string) {
    |Bare(line)| <= WIDTH || Unbreakable(Bare(line))
  }

  ghost predicate LinesOk(t: string)
    decreases |t|
  {
    var i := Break(t);
    if i == |t| then LineOk(t) else LineOk(t[..i]) && LinesOk(t[i + 1..])
  }

  lemma {:induction false} BreakAt(t: string, rest: string)
    requires NoBreak(t)
    ensures Break(t) == |t| && Break(t + "\n" + rest) == |t|
  {
    if t == [] {
      assert (t + "\n" + rest)[0] == '\n';
    } else {
      assert t == [t[0]] + t[1..];
      assert (t + "\n" + rest)[1..] == t[1..] + "\n" + rest;
      BreakAt(t[1..], rest);
    }
  }

  /** Lines put one below the other. */
  lemma {:induction false} LinesJoin(a: string, b: string)
    requires LinesOk(a) && LinesOk(b)
    ensures LinesOk(a + "\n" + b)
    decreases |a|
  {
    var i, all := Break(a), a + "\n" + b;
    hide LineOk;
    if i == |a| {
      assert a[..i] == a;
      BreakAt(a, b);
      assert all[..i] == a && all[i + 1..] == b;
    } else {
      assert a == a[..i] + "\n" + a[i + 1..];
      assert all == a[..i] + "\n" + (a[i + 1..] + "\n" + b);
      BreakAt(a[..i], a[i + 1..] + "\n" + b);
      assert all[..i] == a[..i] && all[i + 1..] == a[i + 1..] + "\n" + b;
      LinesJoin(a[i + 1..], b);
    }
  }

  lemma OneLineOk(t: string)
    requires NoBreak(t) && LineOk(t)
    ensures LinesOk(t)
  {
    BreakAt(t, "");
  }

  /** In front of what has been written of its line, a text's lines are all in order, with or without a comma behind. */
  ghost predicate TextOk(before: string, t: string) {
    LinesOk(before + t) && LinesOk(before + t + ",")
  }

  lemma ShortOk(before: string, t: string)
    requires NoBreak(before) && NoBreak(t) && t != [] && t[|t| - 1] != ','
    requires |before| + |t| <= WIDTH || Unbreakable(before + t)
    ensures TextOk(before, t)
  {
    var line := before + t;
    assert Bare(line) == line && Bare(line + ",") == line;
    OneLineOk(line);
    OneLineOk(line + ",");
  }

  /** The rows of a spread container, its closing sign below them. */
  lemma {:induction false} RowsOk(parts: seq<string>, inner: string, pad: string, close: string, comma: string)
    requires parts != [] && forall i :: 0 <= i < |parts| ==> TextOk(inner, parts[i])
    requires LinesOk(pad + close + comma)
    ensures LinesOk(inner + parts[0] + Tail(parts[1..], "\n" + inner) + "\n" + (pad + close + comma))
    decreases |parts|
  {
    hide LinesOk;
    var last := pad + close + comma;
    if |parts| == 1 {
      assert Tail(parts[1..], "\n" + inner) == "";
      assert inner + parts[0] + "" == inner + parts[0];
      LinesJoin(inner + parts[0], last);
    } else {
      var others := parts[1..];
      RowsOk(others, inner, pad, close, comma);
      var below := inner + others[0] + Tail(others[1..], "\n" + inner) + "\n" + last;
      LinesJoin(inner + parts[0] + ",", below);
      TailBelow(parts, inner, last);
    }
  }

  lemma TailBelow(parts: seq<string>, inner: string, last: string)
    requires |parts| > 1
    ensures var others := parts[1..];
            inner + parts[0] + Tail(others, "\n" + inner) + "\n" + last ==
            inner + parts[0] + "," + "\n" + (inner + others[0] + Tail(others[1..], "\n" + inner) + "\n" + last)
  {
    var others := parts[1..];
    var tail := Tail(others[1..], "\n" + inner);
    assert Tail(others, "\n" + inner) == "," + ("\n" + inner) + others[0] + tail;
    hide Tail;
    Regrouped(inner + parts[0], inner, others[0], tail, last);
  }

  lemma Regrouped(a: string, inner: string, b: string, tail: string, last: string)
    ensures a + ("," + ("\n" + inner) + b + tail) + "\n" + last == a + "," + "\n" + (inner + b + tail + "\n" + last)
  {
  }

  lemma {:induction false} PadIsSpace(depth: nat)
    ensures NoBreak(Pad(depth)) && AllSpace(Pad(depth))
  {
    if depth > 0 {
      PadIsSpace(depth - 1);
    }
  }

  /** A container spread over lines, each of its parts in order behind the indent. */
  lemma SpreadOk(before: string, parts: seq<string>, depth: nat, open: string, close: string)
    requires NoBreak(before) && parts != [] && (open == "[" || open == "{") && (close == "]" || close == "}")
    requires forall i :: 0 <= i < |parts| ==> TextOk(Pad(depth) + INDENT, parts[i])
    ensures var inner := Pad(depth) + INDENT;
            TextOk(before, open + Listed(parts, "\n" + inner, "\n" + inner, "\n" + Pad(depth)) + close)
  {
    var pad, inner := Pad(depth), Pad(depth) + INDENT;
    PadIsSpace(depth);
    ClosingOk(pad, close);
    OpeningOk(before, open);
    RowsOk(parts, inner, pad, close, "");
    RowsOk(parts, inner, pad, close, ",");
    var rows := inner + parts[0] + Tail(parts[1..], "\n" + inner);
    hide Tail, LinesOk, Pad;
    LinesJoin(before + open, rows + "\n" + (pad + close + ""));
    LinesJoin(before + open, rows + "\n" + (pad + close + ","));
    Laid(before, open, inner, parts[0], Tail(parts[1..], "\n" + inner), pad, close, "");
    Laid(before, open, inner, parts[0], Tail(parts[1..], "\n" + inner), pad, close, ",");
    var t := open + Listed(parts, "\n" + inner, "\n" + inner, "\n" + pad) + close;
    assert before + t + "" == before + t;
  }

  lemma Laid(before: string, open: string, inner: string, part: string, tail: string, pad: string, close: string,
             comma: string)
    ensures before + (open + ("\n" + inner + part + tail + ("\n" + pad)) + close) + comma ==
            before + open + "\n" + (inner + part + tail + "\n" + (pad + close + comma))
  {
  }

  lemma OpeningOk(before: string, open: string)
    requires NoBreak(before) && (open == "[" || open == "{")
    ensures LinesOk(before + open)
  {
    var line := before + open;
    assert line[|line| - 1] == open[0] && Bare(line) == line;
    OneLineOk(line);
  }

  lemma ClosingOk(pad: string, close: string)
    requires NoBreak(pad) && AllSpace(pad) && (close == "]" || close == "}")
    ensures LinesOk(pad + close + "") && LinesOk(pad + close + ",")
  {
    var line := pad + close;
    assert line + "" == line && line[..|line| - 1] == pad;
    assert Bare(line) == line && Bare(line + ",") == line;
    OneLineOk(line);
    OneLineOk(line + ",");
  }

  lemma EmptyOk(before: string, t: string)
    requires NoBreak(before) && (t == "[]" || t == "{}")
    ensures TextOk(before, t)
  {
    var line := before + t;
    assert line[|line| - 2..] == t;
    ShortOk(before, t);
  }

  lemma {:induction false} RenderOk(v: Value, depth: nat, force: bool, before: string)
    requires WellFormed(v) && NoBreak(before)
    ensures TextOk(before, Render(v, depth, force, |before|))
    decreases v
  {
    hide TextOk, Render, Inline, Pad;
    var inner := Pad(depth) + INDENT;
    PadIsSpace(depth);
    assert NoBreak(inner);
    if v.Scalar? {
      ScalarText(v.tok);
      ScalarOk(before, EncodeScalar(v.tok));
      ScalarRendered(v, depth, force, |before|);
    } else if !force && |before| + |Inline(v)| <= WIDTH {
      InlineNoBreak(v);
      InlineEnds(v);
      ShortOk(before, Inline(v));
      InlineRendered(v, depth, |before|);
    } else if v.Array? {
      forall i | 0 <= i < |v.items| ensures TextOk(inner, Render(v.items[i], depth + 1, false, |inner|)) {
        RenderOk(v.items[i], depth + 1, false, inner);
      }
      ArrayOk(v.items, depth, force, before);
    } else {
      forall i | 0 <= i < |v.fields| ensures TextOk(inner, FieldText(v.fields[i], depth)) {
        QuoteNoBreak(v.fields[i].key);
        var key := inner + Quote(v.fields[i].key) + ": ";
        RenderOk(v.fields[i].value, depth + 1, false, key);
        NamedOk(inner, v.fields[i].key, Render(v.fields[i].value, depth + 1, false, |key|));
      }
      ObjectOk(v.fields, depth, force, before);
    }
  }

  lemma ScalarRendered(v: Value, depth: nat, force: bool, used: nat)
    requires v.Scalar?
    ensures Render(v, depth, force, used) == EncodeScalar(v.tok)
  {
  }

  lemma InlineRendered(v: Value, depth: nat, used: nat)
    requires !v.Scalar? && used + |Inline(v)| <= WIDTH
    ensures Render(v, depth, false, used) == Inline(v)
  {
  }

  lemma ArrayOk(items: seq<Value>, depth: nat, force: bool, before: string)
    requires NoBreak(before) && (force || |before| + |Inline(Array(items))| > WIDTH)
    requires forall i :: 0 <= i < |items| ==>
               TextOk(Pad(depth) + INDENT, Render(items[i], depth + 1, false, |Pad(depth) + INDENT|))
    ensures TextOk(before, Render(Array(items), depth, force, |before|))
  {
    hide Render, TextOk, Inline, Listed, Pad;
    ContainerOk(before, ItemTexts(items, depth), depth, "[", "]");
    ItemsExpand(Array(items), depth, force, |before|);
  }

  lemma ObjectOk(fields: seq<Field>, depth: nat, force: bool, before: string)
    requires NoBreak(before) && (force || |before| + |Inline(Object(fields))| > WIDTH)
    requires forall i :: 0 <= i < |fields| ==> TextOk(Pad(depth) + INDENT, FieldText(fields[i], depth))
    ensures TextOk(before, Render(Object(fields), depth, force, |before|))
  {
    hide Render, TextOk, Inline, Listed, Pad, FieldText;
    ContainerOk(before, FieldTexts(fields, depth), depth, "{", "}");
    FieldsExpand(Object(fields), depth, force, |before|);
  }

  lemma NamedOk(inner: string, key: string, t: string)
    requires TextOk(inner + Quote(key) + ": ", t)
    ensures TextOk(inner, Named(key, t))
  {
    assert inner + Quote(key) + ": " + t == inner + Named(key, t);
  }

  lemma ScalarOk(before: string, t: string)
    requires NoBreak(before) && NoBreak(t) && t != [] && t[|t| - 1] != ']' && t[|t| - 1] != '}' && t[|t| - 1] != ','
    ensures TextOk(before, t)
  {
    var line := before + t;
    assert line[|line| - 1] == t[|t| - 1];
    ShortOk(before, t);
  }

  lemma InlineEnds(v: Value)
    requires !v.Scalar?
    ensures var t := Inline(v); t != [] && t[|t| - 1] != ','
  {
  }

  lemma ContainerOk(before: string, parts: seq<string>, depth: nat, open: string, close: string)
    requires NoBreak(before) && ((open == "[" && close == "]") || (open == "{" && close == "}"))
    requires forall i :: 0 <= i < |parts| ==> TextOk(Pad(depth) + INDENT, parts[i])
    ensures var inner := Pad(depth) + INDENT;
            TextOk(before, open + Listed(parts, "\n" + inner, "\n" + inner, "\n" + Pad(depth)) + close)
  {
    hide TextOk;
    if parts == [] {
      assert open + "" + close == open + close;
      EmptyOk(before, open + close);
    } else {
      SpreadOk(before, parts, depth, open, close);
    }
  }

  /** No line of a written rule is wider than allowed, the comma behind it apart, unless it ends with a scalar, an opening
      or an empty container, or only closes one: whatever could be spread to fit has been. */
  lemma WrittenFits(v: Value)
    requires WellFormed(v)
    ensures LinesOk(Written(v))
  {
    RenderOk(v, 0, true, "");
    var t := Render(v, 0, true, 0);
    assert "" + t == t;
    OneLineOk("");
    LinesJoin(t, "");
    assert t + "\n" + "" == Written(v);
  }

  /** So whatever text is formatted, its lines fit. */
  lemma PrettyFits(t: string)
    ensures Pretty(t).Ok? ==> LinesOk(Pretty(t).value)
  {
    if Decode(t).Ok? {
      ReadValueIsWellFormed(t);
      WrittenFits(Decode(t).value);
    }
  }
}
