/** The scalars of JSON (RFC 8259, sections 2, 3, 6 and 7): reading one off the front of a text, writing it back,
    and what a reader makes of text that somebody else has written. */
module JsonText {

  datatype Token = Null | True | False | Number(text: string) | Text(s: string)

  datatype Read<T> = Got(value: T, rest: string) | Bad

  // ---- White space -----------------------------------------------------------------------------------

  predicate Space(c: char) {
    c == ' ' || c == '\t' || c == '\n' || c == '\r'
  }

  function Skip(t: string): (r: string)
    ensures |r| <= |t| && (r != [] ==> !Space(r[0]))
  {
    if t != [] && Space(t[0]) then Skip(t[1..]) else t
  }

  ghost predicate AllSpace(w: string) {
    forall c :: c in w ==> Space(c)
  }

  lemma {:induction false} SkipSpaces(w: string, t: string)
    requires AllSpace(w)
    ensures Skip(w + t) == Skip(t)
  {
    if w == [] {
      assert w + t == t;
    } else {
      assert w[0] in w;
      assert (w + t)[1..] == w[1..] + t;
      SkipSpaces(w[1..], t);
    }
  }

  // ---- Strings ---------------------------------------------------------------------------------------

  function HexDigit(d: nat): char
    requires d < 16
  {
    if d < 10 then '0' + d as char else 'a' + (d - 10) as char
  }

  /** The value of a hexadecimal digit of either case; 16 for anything else. */
  function HexValue(c: char): (d: nat)
    ensures d <= 16
  {
    if '0' <= c <= '9' then c as int - '0' as int
    else if 'a' <= c <= 'f' then c as int - 'a' as int + 10
    else if 'A' <= c <= 'F' then c as int - 'A' as int + 10
    else 16
  }

  function Escape(c: char): (e: string)
    ensures e != []
  {
    if c == '"' then "\\\"" else if c == '\\' then "\\\\"
    else if c == '\n' then "\\n" else if c == '\r' then "\\r" else if c == '\t' then "\\t"
    else if c as int == 8 then "\\b" else if c as int == 12 then "\\f"
    else if c as int < 32 then "\\u00" + [HexDigit(c as int / 16), HexDigit(c as int % 16)]
    else if c as int == 0x2028 then "\\u2028" else if c as int == 0x2029 then "\\u2029"
    else [c]
  }

  function Escaped(s: string): string {
    if s == [] then [] else Escape(s[0]) + Escaped(s[1..])
  }

  function Quote(s: string): string {
    "\"" + Escaped(s) + "\""
  }

  /** Four hexadecimal digits; 0x10000 when they are not. */
  function HexCode(t: string): (n: nat)
    ensures n <= 0x10000
  {
    if |t| < 4 || HexValue(t[0]) == 16 || HexValue(t[1]) == 16 || HexValue(t[2]) == 16 || HexValue(t[3]) == 16 then 0x10000
    else HexValue(t[0]) * 4096 + HexValue(t[1]) * 256 + HexValue(t[2]) * 16 + HexValue(t[3])
  }

  const REPLACEMENT := 0xFFFD as char

  /** A \u escape, from its digits on. Two halves of a pair make one character; a lone half is replaced. */
  function ReadCode(t: string): (r: Read<char>)
    ensures r.Got? ==> |r.rest| < |t|
  {
    var n := HexCode(t);
    if n == 0x10000 then Bad
    else if n < 0xD800 || n >= 0xE000 then Got(n as char, t[4..])
    else if n < 0xDC00 && |t| >= 10 && t[4] == '\\' && t[5] == 'u' && 0xDC00 <= HexCode(t[6..]) < 0xE000 then
      Got((0x10000 + (n - 0xD800) * 0x400 + (HexCode(t[6..]) - 0xDC00)) as char, t[10..])
    else Got(REPLACEMENT, t[4..])
  }

  /** One character of a string's text. */
  function ReadChar(t: string): (r: Read<char>)
    requires t != [] && t[0] != '"'
    ensures r.Got? ==> |r.rest| < |t|
  {
    if t[0] as int < 32 then Bad
    else if t[0] != '\\' then Got(t[0], t[1..])
    else if |t| < 2 then Bad
    else
      match t[1]
      case '"' => Got('"', t[2..])
      case '\\' => Got('\\', t[2..])
      case '/' => Got('/', t[2..])
      case 'b' => Got(8 as char, t[2..])
      case 'f' => Got(12 as char, t[2..])
      case 'n' => Got('\n', t[2..])
      case 'r' => Got('\r', t[2..])
      case 't' => Got('\t', t[2..])
      case 'u' => ReadCode(t[2..])
      case _ => Bad
  }

  /** The rest of a string, from after its opening quote on. */
  function ReadString(t: string): (r: Read<string>)
    ensures r.Got? ==> |r.rest| < |t|
    decreases |t|
  {
    if t == [] then Bad
    else if t[0] == '"' then Got("", t[1..])
    else
      match ReadChar(t)
      case Bad => Bad
      case Got(c, rest) =>
        (match ReadString(rest)
         case Bad => Bad
         case Got(s, end) => Got([c] + s, end))
  }

  lemma HexRoundTrip(d: nat)
    requires d < 16
    ensures HexValue(HexDigit(d)) == d
  {
  }

  lemma EscapeReads(c: char, rest: string)
    ensures Escape(c)[0] != '"' && ReadChar(Escape(c) + rest) == Got(c, rest)
  {
    var t := Escape(c) + rest;
    if c as int < 32 && |Escape(c)| == 6 {
      HexRoundTrip(c as int / 16);
      HexRoundTrip(c as int % 16);
      assert t[2..][4..] == rest;
    } else if c as int == 0x2028 || c as int == 0x2029 {
      assert t[2..][4..] == rest;
    } else if |Escape(c)| == 2 {
      assert t[2..] == rest;
    } else {
      assert t[1..] == rest;
    }
  }

  /** A quoted string reads back as itself, whatever follows it. */
  lemma {:induction false} QuoteReads(s: string, rest: string)
    ensures ReadString(Escaped(s) + "\"" + rest) == Got(s, rest)
  {
    var t := Escaped(s) + "\"" + rest;
    if s == [] {
      assert t[1..] == rest;
    } else {
      var tail := Escaped(s[1..]) + "\"" + rest;
      assert t == Escape(s[0]) + tail;
      EscapeReads(s[0], tail);
      QuoteReads(s[1..], rest);
      assert s == [s[0]] + s[1..];
    }
  }

  // ---- Numbers ---------------------------------------------------------------------------------------

  predicate IsDigit(c: char) {
    '0' <= c <= '9'
  }

  /** How many digits a text begins with. */
  function Digits(t: string): (n: nat)
    ensures n <= |t|
  {
    if t != [] && IsDigit(t[0]) then 1 + Digits(t[1..]) else 0
  }

  /** Length of the integer part: a single 0, or digits not starting with 0. 0 stands for none. */
  function IntLength(t: string): (n: nat)
    ensures n <= |t|
  {
    if t != [] && t[0] == '0' then 1 else Digits(t)
  }

  /** Length of a part that is optional; -1 when it has begun but is not complete. */
  function FracLength(t: string): (n: int)
    ensures -1 <= n <= |t|
  {
    if t == [] || t[0] != '.' then 0
    else
      var d := Digits(t[1..]);
      if d == 0 then -1 else 1 + d
  }

  function ExpLength(t: string): (n: int)
    ensures -1 <= n <= |t|
  {
    if t == [] || (t[0] != 'e' && t[0] != 'E') then 0
    else
      var sign := if |t| > 1 && (t[1] == '+' || t[1] == '-') then 1 else 0;
      var d := Digits(t[1 + sign..]);
      if d == 0 then -1 else 1 + sign + d
  }

  function SignLength(t: string): (n: nat)
    ensures n <= |t|
  {
    if t != [] && t[0] == '-' then 1 else 0
  }

  /** Length of the number a text begins with; -1 when it does not begin with one. */
  function NumberLength(t: string): (n: int)
    ensures -1 <= n <= |t| && n != 0
  {
    var i := SignLength(t);
    var int_ := IntLength(t[i..]);
    if int_ == 0 then -1
    else
      var f := FracLength(t[i + int_..]);
      if f < 0 then -1
      else
        var e := ExpLength(t[i + int_ + f..]);
        if e < 0 then -1 else i + int_ + f + e
  }

  /** A character that cannot go on a number. */
  predicate Stops(c: char) {
    !IsDigit(c) && c != '.' && c != 'e' && c != 'E' && c != '+' && c != '-'
  }

  /** u goes on like t for n characters, and then ends or stops any number. */
  ghost predicate Agree(t: string, u: string, n: nat) {
    n <= |t| && n <= |u| && u[..n] == t[..n] && (|u| == n || Stops(u[n]))
  }

  lemma AgreeAfter(t: string, u: string, n: nat, k: nat)
    requires Agree(t, u, n) && k <= n
    ensures Agree(t[k..], u[k..], n - k) && (k < n ==> u[k] == t[k])
  {
    assert u[k..][..n - k] == u[..n][k..] && t[k..][..n - k] == t[..n][k..];
    assert k < n ==> u[k] == u[..n][k] && t[k] == t[..n][k];
  }

  lemma {:induction false} DigitsAgree(t: string, u: string, n: nat)
    requires Agree(t, u, n) && Digits(t) <= n
    ensures Digits(u) == Digits(t)
  {
    if n > 0 {
      AgreeAfter(t, u, n, 0);
      if IsDigit(t[0]) {
        AgreeAfter(t, u, n, 1);
        DigitsAgree(t[1..], u[1..], n - 1);
      }
    }
  }

  lemma IntAgree(t: string, u: string, n: nat)
    requires Agree(t, u, n) && 0 < IntLength(t) <= n
    ensures IntLength(u) == IntLength(t)
  {
    AgreeAfter(t, u, n, 0);
    if t[0] != '0' {
      DigitsAgree(t, u, n);
    }
  }

  lemma FracAgree(t: string, u: string, n: nat)
    requires Agree(t, u, n) && 0 <= FracLength(t) <= n
    ensures FracLength(u) == FracLength(t)
  {
    if n > 0 {
      AgreeAfter(t, u, n, 0);
      if t[0] == '.' {
        AgreeAfter(t, u, n, 1);
        DigitsAgree(t[1..], u[1..], n - 1);
      }
    }
  }

  lemma ExpAgree(t: string, u: string, n: nat)
    requires Agree(t, u, n) && 0 <= ExpLength(t) <= n
    ensures ExpLength(u) == ExpLength(t)
  {
    if n > 0 {
      AgreeAfter(t, u, n, 0);
      if t[0] == 'e' || t[0] == 'E' {
        AgreeAfter(t, u, n, 1);
        var sign := if t[1] == '+' || t[1] == '-' then 1 else 0;
        AgreeAfter(t, u, n, 1 + sign);
        DigitsAgree(t[1 + sign..], u[1 + sign..], n - 1 - sign);
      }
    }
  }

  lemma SignAgree(t: string, u: string, n: nat)
    requires Agree(t, u, n) && n > 0
    ensures SignLength(u) == SignLength(t)
  {
    AgreeAfter(t, u, n, 0);
  }

  /** A number read off the front of a text is a number on its own, and stays that number in front of anything that
      does not go on it. */
  lemma NumberAgree(t: string, u: string)
    requires NumberLength(t) > 0 && Agree(t, u, NumberLength(t))
    ensures NumberLength(u) == NumberLength(t)
  {
    hide Digits, IntLength, FracLength, ExpLength, Agree, Stops;
    var n := NumberLength(t);
    var i := SignLength(t);
    SignAgree(t, u, n);
    var k := IntLength(t[i..]);
    var f := FracLength(t[i + k..]);
    AgreeAfter(t, u, n, i);
    IntAgree(t[i..], u[i..], n - i);
    AgreeAfter(t, u, n, i + k);
    FracAgree(t[i + k..], u[i + k..], n - i - k);
    AgreeAfter(t, u, n, i + k + f);
    ExpAgree(t[i + k + f..], u[i + k + f..], n - i - k - f);
  }

  // ---- Scalars ----------------------------------------------------------------------------------------

  ghost predicate Proper(tok: Token) {
    tok.Number? ==> tok.text != [] && NumberLength(tok.text) == |tok.text|
  }

  function EncodeScalar(tok: Token): string {
    match tok
    case Null => "null"
    case True => "true"
    case False => "false"
    case Number(text) => text
    case Text(s) => Quote(s)
  }

  function ReadScalar(t: string): (r: Read<Token>)
    ensures r.Got? ==> |r.rest| < |t|
  {
    if t == [] then Bad
    else if t[0] == '"' then
      (match ReadString(t[1..])
       case Bad => Bad
       case Got(s, rest) => Got(Text(s), rest))
    else if "null" <= t then Got(Null, t[4..])
    else if "true" <= t then Got(True, t[4..])
    else if "false" <= t then Got(False, t[5..])
    else
      var n := NumberLength(t);
      if n < 0 then Bad else Got(Number(t[..n]), t[n..])
  }

  /** What may stand right after a value. */
  ghost predicate Follows(rest: string) {
    rest == [] || rest[0] in {',', ']', '}', ' ', '\t', '\n', '\r'}
  }

  /** A scalar begins with none of the signs that shape an array or object, and with no space. */
  predicate BeginsScalar(t: string) {
    t != [] && t[0] != ']' && t[0] != '}' && t[0] != '[' && t[0] != '{' && t[0] != ',' && !Space(t[0])
  }

  lemma NumberReads(text: string, rest: string)
    requires Proper(Number(text)) && Follows(rest)
    ensures BeginsScalar(text) && ReadScalar(text + rest) == Got(Number(text), rest)
  {
    hide NumberLength;
    var t := text + rest;
    NumberStart(text);
    assert Agree(text, t, |text|);
    NumberAgree(text, t);
    assert t[0] == text[0];
    assert t[..|text|] == text && t[|text|..] == rest;
  }

  lemma LiteralReads(tok: Token, rest: string)
    requires tok.Null? || tok.True? || tok.False?
    ensures BeginsScalar(EncodeScalar(tok)) && ReadScalar(EncodeScalar(tok) + rest) == Got(tok, rest)
  {
    var t := EncodeScalar(tok) + rest;
    assert t[0] == EncodeScalar(tok)[0];
    assert t[|EncodeScalar(tok)|..] == rest;
  }

  lemma ScalarReads(tok: Token, rest: string)
    requires Proper(tok) && Follows(rest)
    ensures BeginsScalar(EncodeScalar(tok)) && ReadScalar(EncodeScalar(tok) + rest) == Got(tok, rest)
  {
    match tok
    case Number(text) => NumberReads(text, rest);
    case Text(s) =>
      QuoteReads(s, rest);
      assert (Quote(s) + rest)[1..] == Escaped(s) + "\"" + rest;
    case _ => LiteralReads(tok, rest);
  }

  lemma NumberStart(t: string)
    ensures NumberLength(t) > 0 ==> t != [] && (IsDigit(t[0]) || t[0] == '-')
  {
  }

  lemma ScalarIsProper(t: string)
    ensures ReadScalar(t).Got? ==> Proper(ReadScalar(t).value)
  {
    var r := ReadScalar(t);
    if r.Got? && r.value.Number? {
      var n := NumberLength(t);
      assert Agree(t, t[..n], n);
      NumberAgree(t, t[..n]);
    }
  }
}
