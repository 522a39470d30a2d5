/** The grammar of JSON (RFC 8259, sections 2 to 7), apart from any reader: every text of it is read, and as what it means. */
module JsonGrammar {
  import opened JsonText
  import opened RuleFormat

  // ---- Strings ---------------------------------------------------------------------------------------------

  /** One character of a string as it is written: itself, behind a backslash, or as four hexadecimal digits. */
  datatype Char = Plain(c: char) | Short(c: char) | Code(a: char, b: char, c: char, d: char)

  ghost predicate ValidChar(k: Char) {
    match k
    case Plain(c) => c as int >= 32 && c != '"' && c != '\\'
    case Short(c) => c in {'"', '\\', '/', 'b', 'f', 'n', 'r', 't'}
    case Code(a, b, c, d) => HexValue(a) < 16 && HexValue(b) < 16 && HexValue(c) < 16 && HexValue(d) < 16
  }

  ghost predicate ValidChars(cs: seq<Char>) {
    forall k :: k in cs ==> ValidChar(k)
  }

  function CharThen(k: Char, rest: string): string {
    match k
    case Plain(c) => [c] + rest
    case Short(c) => ['\\', c] + rest
    case Code(a, b, c, d) => ['\\', 'u', a, b, c, d] + rest
  }

  /** The characters, the closing quote, and what comes after. */
  function CharsThen(cs: seq<Char>, rest: string): string {
    if cs == [] then ['"'] + rest else CharThen(cs[0], CharsThen(cs[1..], rest))
  }

  function CodeOf(k: Char): nat {
    if k.Code? then HexValue(k.a) * 4096 + HexValue(k.b) * 256 + HexValue(k.c) * 16 + HexValue(k.d) else 0
  }

  /** Two codes that are the halves of one character. */
  predicate Pair(k: Char, l: Char) {
    k.Code? && l.Code? && 0xD800 <= CodeOf(k) < 0xDC00 && 0xDC00 <= CodeOf(l) < 0xE000
  }

  function Short2(c: char): char {
    if c == 'b' then 8 as char else if c == 'f' then 12 as char else if c == 'n' then '\n'
    else if c == 'r' then '\r' else if c == 't' then '\t' else c
  }

  /** What one character means by itself; half of a pair alone means the replacement character. */
  function CharValue(k: Char): char {
    match k
    case Plain(c) => c
    case Short(c) => Short2(c)
    case Code(_, _, _, _) => if CodeOf(k) < 0xD800 || 0xE000 <= CodeOf(k) < 0x10000 then CodeOf(k) as char else REPLACEMENT
  }

  function CharsValue(cs: seq<Char>): string {
    if cs == [] then ""
    else if |cs| > 1 && Pair(cs[0], cs[1]) then
      [(0x10000 + (CodeOf(cs[0]) - 0xD800) * 0x400 + (CodeOf(cs[1]) - 0xDC00)) as char] + CharsValue(cs[2..])
    else [CharValue(cs[0])] + CharsValue(cs[1..])
  }

  lemma {:induction false} StringIsRead(cs: seq<Char>, rest: string)
    requires ValidChars(cs)
    ensures ReadString(CharsThen(cs, rest)) == Got(CharsValue(cs), rest)
    decreases |cs|
  {
    var t := CharsThen(cs, rest);
    if cs == [] {
      assert t[1..] == rest;
    } else {
      assert ValidChar(cs[0]);
      CharIsRead(cs, rest);
      hide CharThen, CharValue, ReadChar, Pair, ValidChar;
      if |cs| > 1 && Pair(cs[0], cs[1]) {
        StringIsRead(cs[2..], rest);
      } else {
        StringIsRead(cs[1..], rest);
      }
    }
  }

  lemma CharIsRead(cs: seq<Char>, rest: string)
    requires ValidChars(cs) && cs != []
    ensures var t := CharsThen(cs, rest);
            && t != [] && t[0] != '"'
            && ReadChar(t) ==
               if |cs| > 1 && Pair(cs[0], cs[1]) then
                 Got((0x10000 + (CodeOf(cs[0]) - 0xD800) * 0x400 + (CodeOf(cs[1]) - 0xDC00)) as char, CharsThen(cs[2..], rest))
               else Got(CharValue(cs[0]), CharsThen(cs[1..], rest))
  {
    var after := CharsThen(cs[1..], rest);
    assert ValidChar(cs[0]);
    if cs[0].Code? {
      if |cs| > 1 {
        assert cs[1] in cs && cs[1..][0] == cs[1] && cs[1..][1..] == cs[2..];
        assert after == CharThen(cs[1], CharsThen(cs[2..], rest)) && ValidChar(cs[1]);
        hide ReadChar, CharThen, CharValue, CodeOf, ValidChar, ValidChars, Pair;
        CodesAreRead(cs[0], cs[1], CharsThen(cs[2..], rest));
      } else {
        assert after == ['"'] + rest;
        hide ReadChar, ReadCode, CharThen, CharValue, CodeOf, ValidChar, ValidChars;
        CodeBegins(cs[0], after);
        LastCodeIsRead(cs[0], rest);
      }
    } else {
      hide ReadChar, CharThen, CharValue, ValidChar, ValidChars;
      PlainIsRead(cs[0], after);
    }
  }

  lemma CodesAreRead(k: Char, l: Char, rest: string)
    requires k.Code? && ValidChar(k) && ValidChar(l)
    ensures var t := CharThen(k, CharThen(l, rest));
            && t != [] && t[0] != '"'
            && ReadChar(t) == if Pair(k, l) then Got((0x10000 + (CodeOf(k) - 0xD800) * 0x400 + (CodeOf(l) - 0xDC00)) as char, rest)
                              else Got(CharValue(k), CharThen(l, rest))
  {
    hide ReadChar, ReadCode, CharThen, CharValue, CodeOf, ValidChar;
    CodeBegins(k, CharThen(l, rest));
    CodeIsRead(k, l, CharThen(l, rest), rest);
  }

  lemma PlainIsRead(k: Char, after: string)
    requires !k.Code? && ValidChar(k)
    ensures var t := CharThen(k, after); t != [] && t[0] != '"' && ReadChar(t) == Got(CharValue(k), after)
  {
    var t := CharThen(k, after);
    if k.Plain? {
      assert t[1..] == after;
    } else {
      assert t[2..] == after;
    }
  }

  lemma CodeBegins(k: Char, after: string)
    requires k.Code?
    ensures var t := CharThen(k, after); t != [] && t[0] != '"' && ReadChar(t) == ReadCode([k.a, k.b, k.c, k.d] + after)
  {
    assert CharThen(k, after)[2..] == [k.a, k.b, k.c, k.d] + after;
  }

  lemma CodeIsRead(k: Char, l: Char, after: string, rest: string)
    requires k.Code? && ValidChar(k) && ValidChar(l) && after == CharThen(l, rest)
    ensures ReadCode([k.a, k.b, k.c, k.d] + after) ==
            if Pair(k, l) then Got((0x10000 + (CodeOf(k) - 0xD800) * 0x400 + (CodeOf(l) - 0xDC00)) as char, rest)
            else Got(CharValue(k), after)
  {
    var t := [k.a, k.b, k.c, k.d] + after;
    assert HexCode(t) == CodeOf(k) && t[4..] == after;
    if l.Code? {
      assert t[6..] == [l.a, l.b, l.c, l.d] + rest && t[10..] == rest;
      assert HexCode(t[6..]) == CodeOf(l);
    } else if l.Plain? {
      assert t[4] == l.c;
    } else {
      assert t[4] == '\\' && t[5] == l.c;
    }
  }

  lemma LastCodeIsRead(k: Char, rest: string)
    requires k.Code? && ValidChar(k)
    ensures ReadCode([k.a, k.b, k.c, k.d] + (['"'] + rest)) == Got(CharValue(k), ['"'] + rest)
  {
    var t := [k.a, k.b, k.c, k.d] + (['"'] + rest);
    assert HexCode(t) == CodeOf(k) && t[4..] == ['"'] + rest && t[4] == '"';
  }

  // ---- Numbers ---------------------------------------------------------------------------------------------

  /** A number: a sign, digits without a leading zero, and perhaps a fraction and an exponent. Without one, its digits
      are empty. */
  datatype Numeral = Numeral(minus: bool, whole: string, fraction: string, e: char, sign: string, exponent: string)

  ghost predicate AllDigits(d: string) {
    forall c :: c in d ==> IsDigit(c)
  }

  ghost predicate ValidNumeral(n: Numeral) {
    && n.whole != [] && AllDigits(n.whole) && (n.whole[0] == '0' ==> |n.whole| == 1) && AllDigits(n.fraction)
    && n.e in {'e', 'E'} && n.sign in {"", "+", "-"} && AllDigits(n.exponent)
  }

  function ExpText(n: Numeral): string {
    if n.exponent == [] then "" else [n.e] + (n.sign + n.exponent)
  }

  function FracText(n: Numeral): string {
    (if n.fraction == [] then "" else ['.'] + n.fraction) + ExpText(n)
  }

  function NumeralText(n: Numeral): string {
    (if n.minus then "-" else "") + (n.whole + FracText(n))
  }

  lemma {:induction false} DigitsOf(d: string, rest: string)
    requires AllDigits(d) && (rest == [] || !IsDigit(rest[0]))
    ensures Digits(d + rest) == |d|
  {
    if d == [] {
      assert d + rest == rest;
    } else {
      assert d[0] in d && (d + rest)[1..] == d[1..] + rest;
      DigitsOf(d[1..], rest);
    }
  }

  lemma ExpIsNumber(n: Numeral)
    requires ValidNumeral(n)
    ensures ExpLength(ExpText(n)) == |ExpText(n)| && (ExpText(n) != [] ==> !IsDigit(ExpText(n)[0]) && ExpText(n)[0] != '.')
  {
    if n.exponent != [] {
      var t := ExpText(n);
      assert n.exponent[0] in n.exponent;
      DigitsOf(n.exponent, "");
      assert n.exponent + "" == n.exponent;
      assert IsDigit(n.exponent[0]);
      ExpIsRead(n.e, n.sign, n.exponent);
    }
  }

  lemma ExpIsRead(e: char, sign: string, digits: string)
    requires e in {'e', 'E'} && sign in {"", "+", "-"}
    requires digits != [] && IsDigit(digits[0]) && Digits(digits) == |digits|
    ensures var t := [e] + (sign + digits); ExpLength(t) == |t|
  {
    var t := [e] + (sign + digits);
    assert t[1 + |sign|..] == digits;
    assert t[1] == (sign + digits)[0];
    hide Digits;
  }

  lemma FracIsNumber(n: Numeral)
    requires ValidNumeral(n)
    ensures var t := FracText(n); var f := FracLength(t);
            && f >= 0 && t[f..] == ExpText(n) && (t != [] ==> !IsDigit(t[0]))
  {
    ExpIsNumber(n);
    if n.fraction != [] {
      DigitsOf(n.fraction, ExpText(n));
      FracIsRead(n.fraction, ExpText(n));
    }
  }

  lemma FracIsRead(digits: string, exp: string)
    requires digits != [] && Digits(digits + exp) == |digits|
    ensures var t := ['.'] + digits + exp; FracLength(t) == 1 + |digits| && t[1 + |digits|..] == exp && !IsDigit(t[0])
  {
    hide Digits;
    var t := ['.'] + digits + exp;
    assert t[1..] == digits + exp;
  }

  lemma NumeralIsProper(n: Numeral)
    requires ValidNumeral(n)
    ensures Proper(Number(NumeralText(n)))
  {
    FracIsNumber(n);
    ExpIsNumber(n);
    WholeIsNumber(n);
    PartsAddUp(if n.minus then "-" else "", n.whole, FracText(n), ExpText(n));
  }

  lemma PartsAddUp(minus: string, whole: string, frac: string, exp: string)
    requires minus in {"", "-"} && whole != [] && IsDigit(whole[0]) && IntLength(whole + frac) == |whole|
    requires 0 <= FracLength(frac) && frac[FracLength(frac)..] == exp && ExpLength(exp) == |exp|
    ensures var t := minus + (whole + frac); t != [] && NumberLength(t) == |t|
  {
    var f := FracLength(frac);
    SignIs(minus, whole + frac);
    Rearranged(minus, whole, frac[..f], exp);
    assert frac == frac[..f] + exp;
    LengthsAddUp(minus, whole, frac[..f], exp);
  }

  lemma Rearranged(a: string, b: string, c: string, d: string)
    ensures a + (b + (c + d)) == (a + b) + (c + d) == (a + b + c) + d
  {
  }

  lemma SignIs(minus: string, u: string)
    requires minus in {"", "-"} && u != [] && IsDigit(u[0])
    ensures SignLength(minus + u) == |minus|
  {
    assert minus == "" ==> minus + u == u;
  }

  lemma Cut(a: string, b: string)
    ensures (a + b)[|a|..] == b
  {
  }

  lemma LengthsAddUp(minus: string, whole: string, frac: string, exp: string)
    requires SignLength(minus + (whole + (frac + exp))) == |minus| && 0 < |whole|
    requires IntLength(whole + (frac + exp)) == |whole| && FracLength(frac + exp) == |frac| && ExpLength(exp) == |exp|
    ensures var t := minus + (whole + (frac + exp)); NumberLength(t) == |t|
  {
    var t := minus + (whole + (frac + exp));
    Rearranged(minus, whole, frac, exp);
    Cut(minus, whole + (frac + exp));
    Cut(minus + whole, frac + exp);
    Cut(minus + whole + frac, exp);
    hide IntLength, FracLength, ExpLength, SignLength;
    assert |t| == |minus| + |whole| + |frac| + |exp|;
  }

  lemma WholeIsNumber(n: Numeral)
    requires ValidNumeral(n) && (FracText(n) != [] ==> !IsDigit(FracText(n)[0]))
    ensures IntLength(n.whole + FracText(n)) == |n.whole| && IsDigit(n.whole[0])
  {
    assert n.whole[0] in n.whole && (n.whole + FracText(n))[0] == n.whole[0];
    DigitsOf(n.whole, FracText(n));
  }

  // ---- Values ------------------------------------------------------------------------------------------------

  /** A value as it is written, with the white space around its parts. `inside` is what an empty list holds. */
  datatype Doc =
    | Literal(tok: Token)
    | Numeric(n: Numeral)
    | String(cs: seq<Char>)
    | Items(inside: string, items: seq<Item>)
    | Members(inside: string, members: seq<Member>)

  datatype Item = Item(before: string, doc: Doc, after: string)

  datatype Member = Member(before: string, key: seq<Char>, colon: string, gap: string, doc: Doc, after: string)

  ghost predicate Valid(d: Doc)
    decreases d
  {
    match d
    case Literal(tok) => tok.Null? || tok.True? || tok.False?
    case Numeric(n) => ValidNumeral(n)
    case String(cs) => ValidChars(cs)
    case Items(inside, items) => AllSpace(inside) && forall i :: 0 <= i < |items| ==> ValidItem(items[i])
    case Members(inside, members) => AllSpace(inside) && forall i :: 0 <= i < |members| ==> ValidMember(members[i])
  }

  ghost predicate ValidItem(i: Item)
    decreases i
  {
    AllSpace(i.before) && Valid(i.doc) && AllSpace(i.after)
  }

  ghost predicate ValidMember(m: Member)
    decreases m
  {
    AllSpace(m.before) && ValidChars(m.key) && AllSpace(m.colon) && AllSpace(m.gap) && Valid(m.doc) && AllSpace(m.after)
  }

  /** The value's text and what comes after it. */
  function DocThen(d: Doc, rest: string): string
    decreases d
  {
    match d
    case Literal(tok) => EncodeScalar(tok) + rest
    case Numeric(n) => NumeralText(n) + rest
    case String(cs) => ['"'] + CharsThen(cs, rest)
    case Items(inside, items) => ['['] + if items == [] then inside + ([']'] + rest) else ItemsThen(items, rest)
    case Members(inside, members) => ['{'] + if members == [] then inside + (['}'] + rest) else MembersThen(members, rest)
  }

  function ItemsThen(items: seq<Item>, rest: string): string
    requires items != []
    decreases items
  {
    var i := items[0];
    i.before + DocThen(i.doc, i.after + if |items| == 1 then [']'] + rest else [','] + ItemsThen(items[1..], rest))
  }

  function MembersThen(members: seq<Member>, rest: string): string
    requires members != []
    decreases members
  {
    var m := members[0];
    m.before + (['"'] + CharsThen(m.key, m.colon + ([':'] + (m.gap +
      DocThen(m.doc, m.after + if |members| == 1 then ['}'] + rest else [','] + MembersThen(members[1..], rest))))))
  }

  function Meaning(d: Doc): Value
    decreases d
  {
    match d
    case Literal(tok) => Scalar(tok)
    case Numeric(n) => Scalar(Number(NumeralText(n)))
    case String(cs) => Scalar(Text(CharsValue(cs)))
    case Items(_, items) => Array(Values(items))
    case Members(_, members) => Object(PutAll([], Fields(members)))
  }

  function Values(items: seq<Item>): seq<Value>
    decreases items
  {
    if items == [] then [] else [Meaning(items[0].doc)] + Values(items[1..])
  }

  function Fields(members: seq<Member>): seq<Field>
    decreases members
  {
    if members == [] then []
    else [Field(CharsValue(members[0].key), Meaning(members[0].doc))] + Fields(members[1..])
  }

  /** A value is read in front of anything that may follow it. */
  ghost predicate IsRead(d: Doc, rest: string) {
    var t := DocThen(d, rest);
    Begins(t) && ReadValue(t) == Got(Meaning(d), rest)
  }

  /** What may come after an item or a member, once its white space is passed. */
  ghost predicate GoesOn(k: string) {
    k != [] && k[0] in {',', ']', '}'}
  }

  lemma Onward(w: string, k: string)
    requires AllSpace(w) && GoesOn(k)
    ensures Follows(w + k) && Skip(w + k) == k
  {
    SkipSpaces(w, k);
    if w != [] {
      assert (w + k)[0] == w[0] && w[0] in w;
    } else {
      assert w + k == k;
    }
  }

  lemma ScalarIsRead(d: Doc, rest: string)
    requires Valid(d) && !d.Items? && !d.Members? && Follows(rest)
    ensures IsRead(d, rest)
  {
    match d
    case Literal(tok) =>
      LiteralReads(tok, rest);
      ReadsScalar(EncodeScalar(tok), tok, rest);
    case Numeric(n) =>
      NumeralIsProper(n);
      NumberReads(NumeralText(n), rest);
      ReadsScalar(NumeralText(n), Number(NumeralText(n)), rest);
    case String(cs) =>
      StringIsRead(cs, rest);
      var t := ['"'] + CharsThen(cs, rest);
      assert t[1..] == CharsThen(cs, rest) && Skip(t) == t;
  }

  lemma ReadsScalar(t: string, tok: Token, rest: string)
    requires BeginsScalar(t) && ReadScalar(t + rest) == Got(tok, rest)
    ensures Begins(t + rest) && ReadValue(t + rest) == Got(Scalar(tok), rest)
  {
    assert (t + rest)[0] == t[0] && Skip(t + rest) == t + rest;
  }

  // ---- Lists of items -----------------------------------------------------------------------------------------

  /** What comes after the first item. */
  function MoreItems(items: seq<Item>, rest: string): string
    requires items != []
  {
    if |items| == 1 then [']'] + rest else [','] + ItemsThen(items[1..], rest)
  }

  lemma FirstItemIsRead(items: seq<Item>, rest: string)
    requires items != [] && ValidItem(items[0]) && IsRead(items[0].doc, items[0].after + MoreItems(items, rest))
    ensures var u, v := ItemsThen(items, rest), Meaning(items[0].doc);
            && ReadValue(u) == Got(v, items[0].after + MoreItems(items, rest))
            && ReadValue(Skip(u)) == ReadValue(u) && Skip(u) != [] && Skip(u)[0] != ']'
  {
    var i := items[0];
    var t := DocThen(i.doc, i.after + MoreItems(items, rest));
    assert ItemsThen(items, rest) == i.before + t;
    hide DocThen, ReadValue, ItemsThen, Meaning;
    ReadValueSkips(i.before, t);
    SkipSpaces(i.before, t);
    assert Skip(t) == t;
  }

  lemma ItemsGoOn(w: string, k: string, so: seq<Value>)
    requires AllSpace(w) && GoesOn(k)
    ensures k[0] == ']' ==> ReadItems(w + k, false, so) == Got(Array(so), k[1..])
    ensures k[0] == ',' && ReadValue(k[1..]).Got? ==>
              ReadItems(w + k, false, so) ==
              ReadItems(ReadValue(k[1..]).rest, false, so + [ReadValue(k[1..]).value])
  {
    Onward(w, k);
  }

  lemma {:induction false} ItemsAreRead(items: seq<Item>, so: seq<Value>, rest: string)
    requires items != [] && forall i :: 0 <= i < |items| ==> ValidItem(items[i])
    ensures var u, v, more := ItemsThen(items, rest), Meaning(items[0].doc), items[0].after + MoreItems(items, rest);
            && ReadValue(u) == Got(v, more) && ReadValue(Skip(u)) == ReadValue(u) && Skip(u) != [] && Skip(u)[0] != ']'
            && ReadItems(more, false, so + [v]) == Got(Array(so + Values(items)), rest)
    decreases items
  {
    var i, k, v := items[0], MoreItems(items, rest), Meaning(items[0].doc);
    assert ValidItem(i) && GoesOn(k);
    Onward(i.after, k);
    DocIsRead(i.doc, i.after + k);
    FirstItemIsRead(items, rest);
    ItemsGoOn(i.after, k, so + [v]);
    assert so + Values(items) == so + [v] + Values(items[1..]);
    if |items| == 1 {
      assert k[1..] == rest && Values(items[1..]) == [] && so + [v] + [] == so + [v];
    } else {
      assert k[1..] == ItemsThen(items[1..], rest);
      hide ReadValue, ReadItems, ItemsThen, MoreItems, ValidItem, Meaning, Values;
      ItemsAreRead(items[1..], so + [v], rest);
    }
  }

  lemma ItemsBegin(items: seq<Item>, inside: string, rest: string)
    requires items != []
    requires var u, v, more := ItemsThen(items, rest), Meaning(items[0].doc), items[0].after + MoreItems(items, rest);
             && ReadValue(u) == Got(v, more) && ReadValue(Skip(u)) == ReadValue(u) && Skip(u) != [] && Skip(u)[0] != ']'
             && ReadItems(more, false, [] + [v]) == Got(Array([] + Values(items)), rest)
    ensures IsRead(Items(inside, items), rest)
  {
    var u := ItemsThen(items, rest);
    var t := ['['] + u;
    assert DocThen(Items(inside, items), rest) == t && Meaning(Items(inside, items)) == Array([] + Values(items));
    hide ItemsThen, Meaning, DocThen, Values;
    assert t[1..] == u && Skip(t) == t;
    assert ReadValue(t) == ReadItems(u, true, []);
  }

  lemma NoItems(inside: string, rest: string)
    requires AllSpace(inside)
    ensures IsRead(Items(inside, []), rest)
  {
    var u := inside + ([']'] + rest);
    var t := ['['] + u;
    ItemsEnd(inside, rest, [], true);
    assert DocThen(Items(inside, []), rest) == t && Meaning(Items(inside, [])) == Array([]);
    assert [']'] + rest == "]" + rest && t[1..] == u && Skip(t) == t;
  }

  // ---- Lists of members -----------------------------------------------------------------------------------------

  /** What comes after the first member. */
  function MoreMembers(members: seq<Member>, rest: string): string
    requires members != []
  {
    if |members| == 1 then ['}'] + rest else [','] + MembersThen(members[1..], rest)
  }

  /** What comes after the first member's key. */
  function AfterKey(members: seq<Member>, rest: string): string
    requires members != []
  {
    members[0].gap + DocThen(members[0].doc, members[0].after + MoreMembers(members, rest))
  }

  lemma KeyIsRead(m: Member, more: string)
    requires ValidMember(m)
    ensures var u := m.before + (['"'] + CharsThen(m.key, m.colon + ([':'] + more)));
            ReadKey(u) == Got(CharsValue(m.key), more) && ReadKey(Skip(u)) == ReadKey(u) && Skip(u) != [] && Skip(u)[0] == '"'
  {
    var k := [':'] + more;
    var t := ['"'] + CharsThen(m.key, m.colon + k);
    StringIsRead(m.key, m.colon + k);
    hide ReadString, CharsThen, CharsValue, ValidChars;
    SkipSpaces(m.before, t);
    SkipSpaces(m.colon, k);
    assert Skip(t) == t && t[1..] == CharsThen(m.key, m.colon + k) && Skip(k) == k && k[1..] == more;
  }

  lemma FirstMemberIsRead(members: seq<Member>, rest: string)
    requires members != [] && ValidMember(members[0])
    requires IsRead(members[0].doc, members[0].after + MoreMembers(members, rest))
    ensures var u, m := MembersThen(members, rest), members[0];
            && ReadKey(u) == Got(CharsValue(m.key), AfterKey(members, rest))
            && ReadKey(Skip(u)) == ReadKey(u) && Skip(u) != [] && Skip(u)[0] == '"'
            && ReadValue(AfterKey(members, rest)) == Got(Meaning(m.doc), m.after + MoreMembers(members, rest))
  {
    var m := members[0];
    var t := DocThen(m.doc, m.after + MoreMembers(members, rest));
    assert MembersThen(members, rest) ==
           m.before + (['"'] + CharsThen(m.key, m.colon + ([':'] + AfterKey(members, rest))));
    hide DocThen, ReadValue, MembersThen, Meaning, ReadKey, CharsThen, CharsValue;
    KeyIsRead(m, AfterKey(members, rest));
    ReadValueSkips(m.gap, t);
  }

  lemma MembersGoOn(w: string, k: string, so: seq<Field>)
    requires AllSpace(w) && GoesOn(k)
    ensures k[0] == '}' ==> ReadFields(w + k, false, so) == Got(Object(so), k[1..])
    ensures k[0] == ',' && ReadKey(k[1..]).Got? && ReadValue(ReadKey(k[1..]).rest).Got? ==>
              var r := ReadValue(ReadKey(k[1..]).rest);
              ReadFields(w + k, false, so) == ReadFields(r.rest, false, Put(so, ReadKey(k[1..]).value, r.value))
  {
    Onward(w, k);
  }

  lemma {:induction false} MembersAreRead(members: seq<Member>, so: seq<Field>, rest: string)
    requires members != [] && forall i :: 0 <= i < |members| ==> ValidMember(members[i])
    ensures var u, m, more := MembersThen(members, rest), members[0], members[0].after + MoreMembers(members, rest);
            && ReadKey(u) == Got(CharsValue(m.key), AfterKey(members, rest))
            && ReadKey(Skip(u)) == ReadKey(u) && Skip(u) != [] && Skip(u)[0] == '"'
            && ReadValue(AfterKey(members, rest)) == Got(Meaning(m.doc), more)
            && ReadFields(more, false, Put(so, CharsValue(m.key), Meaning(m.doc))) == Got(Object(PutAll(so, Fields(members))), rest)
    decreases members
  {
    var m, k, key, v := members[0], MoreMembers(members, rest), CharsValue(members[0].key), Meaning(members[0].doc);
    assert ValidMember(m) && GoesOn(k);
    Onward(m.after, k);
    DocIsRead(m.doc, m.after + k);
    FirstMemberIsRead(members, rest);
    var now := Put(so, key, v);
    MembersGoOn(m.after, k, now);
    assert Fields(members)[0] == Field(key, v) && Fields(members)[1..] == Fields(members[1..]);
    assert PutAll(so, Fields(members)) == PutAll(now, Fields(members[1..]));
    if |members| == 1 {
      assert k[1..] == rest && Fields(members[1..]) == [];
    } else {
      assert k[1..] == MembersThen(members[1..], rest);
      hide ReadValue, ReadFields, ReadKey, MembersThen, MoreMembers, AfterKey, ValidMember, Meaning, Fields, Put, PutAll, CharsValue;
      MembersAreRead(members[1..], now, rest);
    }
  }

  lemma MembersBegin(members: seq<Member>, inside: string, rest: string)
    requires members != []
    requires var u, m, more := MembersThen(members, rest), members[0], members[0].after + MoreMembers(members, rest);
             && ReadKey(u) == Got(CharsValue(m.key), AfterKey(members, rest))
             && ReadKey(Skip(u)) == ReadKey(u) && Skip(u) != [] && Skip(u)[0] == '"'
             && ReadValue(AfterKey(members, rest)) == Got(Meaning(m.doc), more)
             && ReadFields(more, false, Put([], CharsValue(m.key), Meaning(m.doc))) == Got(Object(PutAll([], Fields(members))), rest)
    ensures IsRead(Members(inside, members), rest)
  {
    var u := MembersThen(members, rest);
    var t := ['{'] + u;
    assert DocThen(Members(inside, members), rest) == t;
    assert Meaning(Members(inside, members)) == Object(PutAll([], Fields(members)));
    hide MembersThen, Meaning, DocThen, Fields, ReadKey, Put, PutAll, CharsValue, AfterKey, MoreMembers;
    assert t[1..] == u && Skip(t) == t;
    assert ReadValue(t) == ReadFields(u, true, []);
  }

  lemma NoMembers(inside: string, rest: string)
    requires AllSpace(inside)
    ensures IsRead(Members(inside, []), rest)
  {
    var u := inside + (['}'] + rest);
    var t := ['{'] + u;
    FieldsEnd(inside, rest, [], true);
    assert DocThen(Members(inside, []), rest) == t && Meaning(Members(inside, [])) == Object([]);
    assert ['}'] + rest == "}" + rest && t[1..] == u && Skip(t) == t;
  }

  // ---- Whole texts ---------------------------------------------------------------------------------------------

  lemma {:induction false} DocIsRead(d: Doc, rest: string)
    requires Valid(d) && MayFollow(Meaning(d), rest)
    ensures IsRead(d, rest)
    decreases d
  {
    match d
    case Items(inside, items) =>
      if items == [] {
        NoItems(inside, rest);
      } else {
        ItemsAreRead(items, [], rest);
        ItemsBegin(items, inside, rest);
      }
    case Members(inside, members) =>
      if members == [] {
        NoMembers(inside, rest);
      } else {
        MembersAreRead(members, [], rest);
        MembersBegin(members, inside, rest);
      }
    case _ =>
      ScalarIsRead(d, rest);
  }

  /** Every text of the grammar, with white space before and behind it, is accepted, and decodes to what it means. */
  lemma EveryTextIsAccepted(before: string, d: Doc, after: string)
    requires AllSpace(before) && Valid(d) && AllSpace(after)
    ensures Decode(before + DocThen(d, after)) == Ok(Meaning(d))
  {
    assert after != [] ==> after[0] in after;
    DocIsRead(d, after);
    hide DocThen, Meaning, ReadValue;
    ReadValueSkips(before, DocThen(d, after));
    SkipSpaces(after, "");
    assert after + "" == after;
  }

  /** The source says content after the value is a syntax error. What follows a text of the grammar is refused exactly
      when, behind its white space, it begins with something else than a closing bracket or brace; otherwise the text
      is taken as if it ended before. */
  lemma LeftoverBehindTextIff(before: string, d: Doc, leftover: string)
    requires AllSpace(before) && Valid(d) && MayFollow(Meaning(d), leftover)
    ensures var t, s := before + DocThen(d, leftover), Skip(leftover);
            && (Decode(t) == Error <==> s != [] && s[0] != ']' && s[0] != '}')
            && (Decode(t) == Ok(Meaning(d)) <==> s == [] || s[0] == ']' || s[0] == '}')
  {
    DocIsRead(d, leftover);
    hide DocThen, Meaning, ReadValue;
    ReadValueSkips(before, DocThen(d, leftover));
  }
}
