/** Writing a list of fields as one text, with a separator between the fields or a terminator after each of them,
    and when such a text still tells which fields it was written from. */
module FieldText {

  /** The ASCII unit separator. */
  const SEPARATOR: char := 0x1F as char

  ghost predicate AllClean(fields: seq<string>, sep: char) {
    forall f :: f in fields ==> sep !in f
  }

  /** Fields with a separator between each two. */
  function Joined(fields: seq<string>, sep: char): string {
    if fields == [] then "" else if |fields| == 1 then fields[0] else fields[0] + [sep] + Joined(fields[1..], sep)
  }

  /** Fields with a separator after each one. */
  function Terminated(fields: seq<string>, sep: char): string {
    if fields == [] then "" else fields[0] + [sep] + Terminated(fields[1..], sep)
  }

  /** Two texts that agree up to their first separator have the same first field. */
  lemma SameFirstField(f: string, s: string, g: string, t: string, sep: char)
    requires sep !in f && sep !in g && f + [sep] + s == g + [sep] + t
    ensures f == g && s == t
  {
    var a := f + [sep] + s;
    assert a[|f|] == sep && forall i :: 0 <= i < |f| ==> a[i] == f[i] && f[i] in f;
    assert a == g + [sep] + t;
    assert a[|g|] == sep && forall i :: 0 <= i < |g| ==> a[i] == g[i] && g[i] in g;
    assert |f| == |g|;
    assert f == a[..|f|] == g && s == a[|f| + 1..] == t;
  }

  lemma {:induction false} TerminatedIsExact(a: seq<string>, b: seq<string>, sep: char)
    requires AllClean(a, sep) && AllClean(b, sep) && Terminated(a, sep) == Terminated(b, sep)
    ensures a == b
  {
    if a != [] && b != [] {
      SameFirstField(a[0], Terminated(a[1..], sep), b[0], Terminated(b[1..], sep), sep);
      TerminatedIsExact(a[1..], b[1..], sep);
      assert a == [a[0]] + a[1..] && b == [b[0]] + b[1..];
    }
  }

  lemma {:induction false} JoinedIsTerminated(fields: seq<string>, sep: char)
    requires fields != []
    ensures Joined(fields, sep) + [sep] == Terminated(fields, sep)
  {
    if |fields| == 1 {
      assert fields[1..] == [];
    } else {
      JoinedIsTerminated(fields[1..], sep);
      assert Joined(fields, sep) + [sep] == fields[0] + [sep] + (Joined(fields[1..], sep) + [sep]);
    }
  }

  /** Fields that do not hold the separator can be read back, whatever their number. */
  lemma JoinedIsExact(a: seq<string>, b: seq<string>, sep: char)
    requires AllClean(a, sep) && AllClean(b, sep) && a != [] && b != [] && Joined(a, sep) == Joined(b, sep)
    ensures a == b
  {
    JoinedIsTerminated(a, sep);
    JoinedIsTerminated(b, sep);
    TerminatedIsExact(a, b, sep);
  }

  // ---- Fields that hold the separator -------------------------------------------------------------------

  lemma {:induction false} SeparatorsIn(fields: seq<string>, sep: char)
    requires fields != []
    ensures multiset(Joined(fields, sep))[sep] >= |fields| - 1
    ensures multiset(Joined(fields, sep))[sep] == |fields| - 1 <==> AllClean(fields, sep)
  {
    var others := fields[1..];
    assert fields == [fields[0]] + others;
    assert AllClean(fields, sep) <==> sep !in fields[0] && AllClean(others, sep);
    assert sep in fields[0] <==> sep in multiset(fields[0]);
    if others != [] {
      hide AllClean;
      SeparatorsIn(others, sep);
      assert Joined(fields, sep) == fields[0] + [sep] + Joined(others, sep);
    }
  }

  lemma CutAt(f: string, sep: char) returns (x: string, y: string)
    requires sep in f
    ensures f == x + [sep] + y
  {
    var i :| 0 <= i < |f| && f[i] == sep;
    x, y := f[..i], f[i + 1..];
  }

  /** With a separator inside a field, the fields can be cut differently. */
  lemma {:induction false} CutDifferently(a: seq<string>, sep: char) returns (b: seq<string>)
    requires |a| >= 2 && !AllClean(a, sep)
    ensures |b| == |a| && b != a && Joined(b, sep) == Joined(a, sep)
  {
    if sep in a[0] {
      var x, y := CutAt(a[0], sep);
      b := [x, y + [sep] + a[1]] + a[2..];
      MoveOver(x, y, a[1], a[2..], sep);
      assert a == [x + [sep] + y, a[1]] + a[2..] && b[0] == x;
    } else if |a| == 2 {
      assert a == [a[0], a[1]] && sep in a[1];
      var x, y := CutAt(a[1], sep);
      b := [a[0] + [sep] + x, y];
      MoveOver(a[0], x, y, [], sep);
      assert b + [] == b && [a[0], x + [sep] + y] + [] == a && b[1] == y;
    } else {
      assert a == [a[0]] + a[1..];
      var c := CutDifferently(a[1..], sep);
      b := [a[0]] + c;
      assert b[1..] == c;
    }
  }

  lemma MoveOver(x: string, y: string, z: string, others: seq<string>, sep: char)
    ensures Joined([x + [sep] + y, z] + others, sep) == Joined([x, y + [sep] + z] + others, sep)
  {
    var a, b := [x + [sep] + y, z] + others, [x, y + [sep] + z] + others;
    assert a[1..] == [z] + others && b[1..] == [y + [sep] + z] + others;
    if others == [] {
      assert x + [sep] + y + [sep] + z == x + [sep] + (y + [sep] + z);
    } else {
      assert a[1..][1..] == others == b[1..][1..];
      var rest := Joined(others, sep);
      assert x + [sep] + y + [sep] + (z + [sep] + rest) == x + [sep] + (y + [sep] + z + [sep] + rest);
    }
  }

  /** Two or more fields are the only ones of their number with their text, joined or terminated, exactly when none of
      them holds the separator. */
  lemma TextIsUniqueIff(a: seq<string>, sep: char)
    requires |a| >= 2
    ensures (forall b :: |b| == |a| && Joined(b, sep) == Joined(a, sep) ==> b == a) <==> AllClean(a, sep)
    ensures (forall b :: |b| == |a| && Terminated(b, sep) == Terminated(a, sep) ==> b == a) <==> AllClean(a, sep)
  {
    hide Joined, Terminated, AllClean;
    forall b | |b| == |a| ensures Joined(b, sep) == Joined(a, sep) <==> Terminated(b, sep) == Terminated(a, sep) {
      JoinedIsTerminated(a, sep);
      JoinedIsTerminated(b, sep);
      assert (Joined(a, sep) + [sep])[..|Joined(a, sep)|] == Joined(a, sep);
      assert (Joined(b, sep) + [sep])[..|Joined(b, sep)|] == Joined(b, sep);
    }
    if AllClean(a, sep) {
      forall b | |b| == |a| && Joined(b, sep) == Joined(a, sep) ensures b == a {
        SeparatorsIn(a, sep);
        SeparatorsIn(b, sep);
        JoinedIsExact(a, b, sep);
      }
    } else {
      var b := CutDifferently(a, sep);
    }
  }
}
