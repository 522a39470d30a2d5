/** Sorting by a comparator, and what a sorted list says about what was sorted; decimal text, and the dictionary
    order on strings that identifiers are compared by. */
module Sorting {

  /** What a comparator must satisfy for sorting by it to make sense. */
  ghost predicate StrictOrder<T(!new)>(before: (T, T) -> bool) {
    && (forall a, b :: before(a, b) ==> !before(b, a))
    && (forall a, b, c :: before(a, b) ==> before(a, c) || before(c, b))
  }

  ghost predicate SortedBy<T(!new)>(s: seq<T>, before: (T, T) -> bool) {
    forall i, j :: 0 <= i < j < |s| ==> !before(s[j], s[i])
  }

  function Insert<T>(x: T, s: seq<T>, before: (T, T) -> bool): seq<T> {
    if s == [] || !before(s[0], x) then [x] + s else [s[0]] + Insert(x, s[1..], before)
  }

  function SortBy<T>(s: seq<T>, before: (T, T) -> bool): seq<T> {
    if s == [] then [] else Insert(s[0], SortBy(s[1..], before), before)
  }

  lemma {:induction false} InsertSorts<T(!new)>(x: T, s: seq<T>, before: (T, T) -> bool)
    requires StrictOrder(before) && SortedBy(s, before)
    ensures SortedBy(Insert(x, s, before), before) && multiset(Insert(x, s, before)) == multiset{x} + multiset(s)
  {
    if s == [] {
    } else if !before(s[0], x) {
      assert forall j :: 0 <= j < |s| ==> !before(s[j], s[0]) || j == 0;
    } else {
      var t := Insert(x, s[1..], before);
      InsertSorts(x, s[1..], before);
      assert s == [s[0]] + s[1..];
      forall j | 0 <= j < |t| ensures !before(t[j], s[0]) {
        assert t[j] in multiset(t);
        if t[j] != x {
          assert t[j] in s[1..];
        }
      }
    }
  }

  lemma {:induction false} SortBySorts<T(!new)>(s: seq<T>, before: (T, T) -> bool)
    requires StrictOrder(before)
    ensures SortedBy(SortBy(s, before), before) && multiset(SortBy(s, before)) == multiset(s)
    ensures |SortBy(s, before)| == |s|
  {
    if s != [] {
      SortBySorts(s[1..], before);
      InsertSorts(s[0], SortBy(s[1..], before), before);
      assert s == [s[0]] + s[1..];
    }
    assert |multiset(SortBy(s, before))| == |multiset(s)|;
  }

  /** Two elements that the comparator cannot tell apart are the same element. */
  ghost predicate Separates<T(!new)>(s: multiset<T>, before: (T, T) -> bool) {
    forall a, b :: a in s && b in s && a != b ==> before(a, b) || before(b, a)
  }

  lemma SameHead<T(!new)>(s: seq<T>, t: seq<T>, before: (T, T) -> bool)
    requires s != [] && t != [] && SortedBy(s, before) && SortedBy(t, before) && multiset(s) == multiset(t)
    requires Separates(multiset(s), before)
    ensures s[0] == t[0]
  {
    assert s[0] in multiset(t) && t[0] in multiset(s);
  }

  lemma SameTails<T(!new)>(s: seq<T>, t: seq<T>)
    requires s != [] && t != [] && s[0] == t[0] && multiset(s) == multiset(t)
    ensures multiset(s[1..]) == multiset(t[1..]) && multiset(s[1..]) <= multiset(s)
  {
    assert s == [s[0]] + s[1..] && t == [t[0]] + t[1..];
    assert multiset(s[1..]) == multiset(s) - multiset{s[0]};
    assert multiset(t[1..]) == multiset(t) - multiset{t[0]};
  }

  lemma TailStaysSorted<T(!new)>(s: seq<T>, all: multiset<T>, before: (T, T) -> bool)
    requires s != [] && SortedBy(s, before) && Separates(all, before) && multiset(s) <= all
    ensures SortedBy(s[1..], before) && Separates(multiset(s[1..]), before)
  {
    assert s == [s[0]] + s[1..];
    assert multiset(s[1..]) <= multiset(s);
  }

  /** There is only one way to sort: the result does not depend on the order the elements arrived in. */
  lemma {:induction false} SortedIsUnique<T(!new)>(s: seq<T>, t: seq<T>, before: (T, T) -> bool)
    requires SortedBy(s, before) && SortedBy(t, before) && multiset(s) == multiset(t)
    requires Separates(multiset(s), before)
    ensures s == t
  {
    assert |multiset(s)| == |s| && |multiset(t)| == |t|;
    if s != [] {
      hide SortedBy, Separates;
      SameHead(s, t, before);
      SameTails(s, t);
      TailStaysSorted(s, multiset(s), before);
      TailStaysSorted(t, multiset(s), before);
      SortedIsUnique(s[1..], t[1..], before);
      assert s == [s[0]] + s[1..] && t == [t[0]] + t[1..];
    }
  }

  ghost predicate Distinct<T(!new)>(s: seq<T>) {
    forall i, j :: 0 <= i < j < |s| ==> s[i] != s[j]
  }

  lemma {:induction false} DistinctCounts<T(!new)>(s: seq<T>, x: T)
    requires Distinct(s)
    ensures multiset(s)[x] == if x in s then 1 else 0
  {
    if s != [] {
      DistinctCounts(s[1..], x);
      assert s == [s[0]] + s[1..];
      assert s[0] !in s[1..];
    }
  }

  lemma TwiceCounts<T(!new)>(s: seq<T>, i: nat, j: nat)
    requires i < j < |s| && s[i] == s[j]
    ensures multiset(s)[s[i]] >= 2
  {
    assert s == s[..i] + [s[i]] + s[i + 1..j] + [s[j]] + s[j + 1..];
  }

  /** Sorting distinct elements keeps them distinct. */
  lemma SortByDistinct<T(!new)>(s: seq<T>, before: (T, T) -> bool)
    requires StrictOrder(before) && Distinct(s)
    ensures Distinct(SortBy(s, before)) && forall x :: x in SortBy(s, before) <==> x in s
  {
    var t := SortBy(s, before);
    SortBySorts(s, before);
    hide SortBy, SortedBy;
    forall x ensures x in t <==> x in s {
      assert x in multiset(t) <==> x in multiset(s);
    }
    forall i, j | 0 <= i < j < |t| ensures t[i] != t[j] {
      DistinctCounts(s, t[i]);
      if t[i] == t[j] {
        TwiceCounts(t, i, j);
      }
    }
  }

  // ---- Dictionary order ------------------------------------------------------------------------

  predicate LexLess(a: string, b: string) {
    b != [] && (a == [] || a[0] < b[0] || (a[0] == b[0] && LexLess(a[1..], b[1..])))
  }

  lemma {:induction false} LexAsymmetric(a: string, b: string)
    requires LexLess(a, b)
    ensures !LexLess(b, a)
  {
    if a != [] && a[0] == b[0] {
      LexAsymmetric(a[1..], b[1..]);
    }
  }

  lemma {:induction false} LexCotransitive(a: string, b: string, c: string)
    requires LexLess(a, b)
    ensures LexLess(a, c) || LexLess(c, b)
  {
    if a != [] && c != [] && a[0] == b[0] == c[0] {
      LexCotransitive(a[1..], b[1..], c[1..]);
    }
  }

  lemma {:induction false} LexTotal(a: string, b: string)
    requires a != b
    ensures LexLess(a, b) || LexLess(b, a)
  {
    if a != [] && b != [] && a[0] == b[0] {
      assert a == [a[0]] + a[1..] && b == [b[0]] + b[1..];
      LexTotal(a[1..], b[1..]);
    }
  }

  lemma {:induction false} LexSamePrefix(p: string, a: string, b: string)
    ensures LexLess(p + a, p + b) == LexLess(a, b)
  {
    if p == [] {
      assert p + a == a && p + b == b;
    } else {
      assert (p + a)[1..] == p[1..] + a && (p + b)[1..] == p[1..] + b;
      LexSamePrefix(p[1..], a, b);
    }
  }

  // ---- Decimal text ----------------------------------------------------------------------------

  function Digit(d: nat): char
    requires d < 10
  {
    '0' + d as char
  }

  function Decimal(n: nat): (s: string)
    ensures s != []
  {
    if n < 10 then [Digit(n)] else Decimal(n / 10) + [Digit(n % 10)]
  }

  lemma {:induction false} DecimalInjective(m: nat, n: nat)
    requires Decimal(m) == Decimal(n)
    ensures m == n
    decreases m
  {
    var s := Decimal(m);
    assert s[|s| - 1] == Digit(m % 10) == Digit(n % 10);
    if m >= 10 && n >= 10 {
      assert Decimal(m / 10) == s[..|s| - 1] == Decimal(n / 10);
      DecimalInjective(m / 10, n / 10);
    }
  }

  function Pow10(n: nat): nat {
    if n == 0 then 1 else 10 * Pow10(n - 1)
  }

  lemma {:induction false} LexSnoc(p: string, x: char, q: string, y: char)
    requires |p| == |q|
    ensures LexLess(p + [x], q + [y]) <==> LexLess(p, q) || (p == q && x < y)
  {
    if p == [] {
      assert p + [x] == [x] && q + [y] == [y];
    } else {
      assert (p + [x])[1..] == p[1..] + [x] && (q + [y])[1..] == q[1..] + [y];
      assert p == [p[0]] + p[1..] && q == [q[0]] + q[1..];
      LexSnoc(p[1..], x, q[1..], y);
    }
  }

  lemma {:induction false} LexExtend(p: string, q: string, y: char)
    requires |p| <= |q|
    ensures LexLess(p, q + [y]) <==> LexLess(p, q) || p == q
  {
    if p != [] {
      assert (q + [y])[1..] == q[1..] + [y];
      assert p == [p[0]] + p[1..] && q == [q[0]] + q[1..];
      LexExtend(p[1..], q[1..], y);
    }
  }

  /** Numbers with equally many digits sort as text the way they sort as numbers; one with fewer is smaller. */
  lemma {:induction false} DecimalLess(m: nat, n: nat)
    ensures |Decimal(m)| < |Decimal(n)| ==> m < n
    ensures |Decimal(m)| == |Decimal(n)| ==> (LexLess(Decimal(m), Decimal(n)) <==> m < n)
    decreases m + n
  {
    if m >= 10 && n >= 10 {
      DecimalLess(m / 10, n / 10);
      if |Decimal(m)| == |Decimal(n)| {
        LexSnoc(Decimal(m / 10), Digit(m % 10), Decimal(n / 10), Digit(n % 10));
        if Decimal(m / 10) == Decimal(n / 10) {
          DecimalInjective(m / 10, n / 10);
        }
      }
    } else if m < 10 && n < 10 {
      LexSnoc([], Digit(m), [], Digit(n));
      assert [] + [Digit(m)] == Decimal(m) && [] + [Digit(n)] == Decimal(n);
    }
  }

  lemma TenTimes(a: nat, b: nat, p: nat)
    ensures a * p <= b / 10 <==> a * (10 * p) <= b
  {
    assert a * (10 * p) == 10 * (a * p);
  }

  /** The smaller of two numbers comes first as text exactly when it still is not the larger one after padding it with
      zeros to the other's length. */
  lemma {:induction false} DecimalOrderIff(a: nat, b: nat)
    requires a < b
    ensures |Decimal(a)| <= |Decimal(b)|
    ensures LexLess(Decimal(a), Decimal(b)) <==> a * Pow10(|Decimal(b)| - |Decimal(a)|) <= b
  {
    DecimalLess(b, a);
    DecimalLess(a, b);
    if |Decimal(a)| < |Decimal(b)| {
      var c := b / 10;
      LexExtend(Decimal(a), Decimal(c), Digit(b % 10));
      TenTimes(a, b, Pow10(|Decimal(c)| - |Decimal(a)|));
      if a < c {
        DecimalOrderIff(a, c);
        assert Decimal(a) == Decimal(c) ==> a == c by {
          if Decimal(a) == Decimal(c) {
            DecimalInjective(a, c);
          }
        }
      } else {
        DecimalLess(a, c);
        DecimalLess(c, a);
        if a != c && Decimal(a) == Decimal(c) {
          DecimalInjective(a, c);
        }
      }
    }
  }
}
