/** The append-only log that holds the bulky part of each event, behind references of an offset and a length
    that stay good. */
module PayloadLog {

  type Byte = n: nat | n < 256

  type Blob = seq<Byte>

  const HEADER_SIZE := 4
  /** A length is kept in 32 bits, in the reference and in the record's header alike. */
  const LENGTHS := 0x1_0000_0000

  datatype Ref = Ref(offset: nat, length: nat) {
    predicate IsZero() { length == 0 }
  }

  datatype Outcome<T> = Ok(value: T) | Closed | OutOfRange | WriteFailed

  // ---- Headers --------------------------------------------------------------------------------------

  /** The low 32 bits, least significant byte first. */
  function Header(length: nat): (h: seq<Byte>)
    ensures |h| == HEADER_SIZE
  {
    [length % 256, length / 256 % 256, length / 65536 % 256, length / 16777216 % 256]
  }

  function Value(h: seq<Byte>): (n: nat)
    requires |h| == HEADER_SIZE
    ensures n < LENGTHS
  {
    (h[0] as int) + 256 * (h[1] as int) + 65536 * (h[2] as int) + 16777216 * (h[3] as int)
  }

  lemma HeaderHoldsLowBits(length: nat)
    ensures Value(Header(length)) == length % LENGTHS
  {
    var q := length / 256;
    TwoBytes(length);
    TwoBytes(q);
    FourBytes(length);
    var low := length % 256 + 256 * (q % 256) + 65536 * (q / 256 % 256) + 16777216 * (q / 65536 % 256);
    assert low < LENGTHS && length == low + LENGTHS * (q / 65536 / 256);
  }

  /** The least significant byte comes first. */
  lemma HeaderIsLittleEndian(length: nat)
    ensures length < 256 ==> Header(length) == [length, 0, 0, 0]
    ensures forall b: Byte :: Value([b, 0, 0, 0]) == b
  {
  }

  lemma TwoBytes(n: nat)
    ensures n / 65536 == n / 256 / 256
  {
    assert n == 65536 * (n / 256 / 256) + 256 * (n / 256 % 256) + n % 256;
  }

  lemma FourBytes(n: nat)
    ensures n / 16777216 == n / 256 / 65536
  {
    var q := n / 256;
    assert n == 16777216 * (q / 65536) + 256 * (q % 65536) + n % 256;
  }

  // ---- The log as a whole -----------------------------------------------------------------------------

  function Frame(b: Blob): seq<Byte> {
    Header(|b|) + b
  }

  lemma FrameSize(b: Blob)
    ensures |Frame(b)| == HEADER_SIZE + |b| && |b| % LENGTHS <= |b|
  {
  }

  function Frames(blobs: seq<Blob>): seq<Byte> {
    if blobs == [] then [] else Frames(blobs[..|blobs| - 1]) + Frame(blobs[|blobs| - 1])
  }

  function NonEmpty(blobs: seq<Blob>): seq<Blob> {
    if blobs == [] then []
    else
      var last := blobs[|blobs| - 1];
      NonEmpty(blobs[..|blobs| - 1]) + if last == [] then [] else [last]
  }

  lemma {:induction false} FramesJoin(a: seq<Blob>, b: seq<Blob>)
    ensures Frames(a + b) == Frames(a) + Frames(b)
  {
    if b == [] {
      assert a + b == a;
    } else {
      hide Frame;
      var n := |b| - 1;
      assert (a + b)[..|a| + n] == a + b[..n];
      FramesJoin(a, b[..n]);
      Associates(Frames(a), Frames(b[..n]), Frame(b[n]));
    }
  }

  lemma Associates<T>(a: seq<T>, b: seq<T>, c: seq<T>)
    ensures a + b + c == a + (b + c)
  {
  }

  lemma FramesOfOne(b: Blob)
    ensures Frames([b]) == Frame(b)
  {
    var one := [b];
    assert one[..0] == [];
  }

  /** A log splits around its k-th blob. */
  lemma FramesAround(written: seq<Blob>, k: nat)
    requires k < |written|
    ensures Frames(written) == Frames(written[..k]) + Frame(written[k]) + Frames(written[k + 1..])
  {
    hide *;
    CutAt(written, k);
    var before, b, after := written[..k], written[k], written[k + 1..];
    FramesJoin(before, [b] + after);
    FramesFirst(b, after);
    Associates(Frames(before), Frame(b), Frames(after));
  }

  lemma CutAt<T>(s: seq<T>, k: nat)
    requires k < |s|
    ensures s == s[..k] + ([s[k]] + s[k + 1..])
  {
  }

  lemma Sliced(before: seq<Byte>, b: Blob, after: seq<Byte>, n: nat)
    requires n <= |b|
    ensures var log := before + Frame(b) + after; var at := |before| + HEADER_SIZE;
            at + |b| <= |log| && log[at..at + n] == b[..n]
  {
    var log, start := before + Frame(b) + after, before + Header(|b|);
    assert log == start + (b + after);
    assert log[|start|..|start| + n] == (b + after)[..n] == b[..n];
  }

  // ---- Walking the log -----------------------------------------------------------------------------------

  datatype Walked = Walked(blobs: seq<Blob>, rest: seq<Byte>)

  /** Follows the headers from the front for as long as whole records follow; `rest` is what is left. */
  function Walk(log: seq<Byte>): Walked {
    if |log| < HEADER_SIZE then Walked([], log)
    else
      var end := HEADER_SIZE + Value(log[..HEADER_SIZE]);
      if |log| < end then Walked([], log)
      else
        var tail := Walk(log[end..]);
        Walked([log[HEADER_SIZE..end]] + tail.blobs, tail.rest)
  }

  lemma WalkOne(b: Blob, log: seq<Byte>)
    ensures var n := |b| % LENGTHS; var w := Walk(Frame(b) + log); var tail := Walk(b[n..] + log);
            w == Walked([b[..n]] + tail.blobs, tail.rest)
  {
    hide Value, Header;
    var n := |b| % LENGTHS;
    var all := Frame(b) + log;
    HeaderHoldsLowBits(|b|);
    assert all[..HEADER_SIZE] == Header(|b|);
    assert all[HEADER_SIZE..HEADER_SIZE + n] == b[..n];
    assert all[HEADER_SIZE + n..] == b[n..] + log;
  }

  ghost predicate Short(blobs: seq<Blob>) {
    forall b :: b in blobs ==> |b| < LENGTHS
  }

  lemma FramesFirst(b: Blob, others: seq<Blob>)
    ensures Frames([b] + others) == Frame(b) + Frames(others)
  {
    FramesJoin([b], others);
    FramesOfOne(b);
  }

  lemma WalkPast(b: Blob, log: seq<Byte>)
    requires |b| < LENGTHS
    ensures Walk(Frame(b) + log) == Walked([b] + Walk(log).blobs, Walk(log).rest)
  {
    hide Walk, Frame;
    WalkOne(b, log);
    assert |b| % LENGTHS == |b|;
    assert b[|b|..] + log == log;
    assert b[..|b|] == b;
  }

  /** Walking past records of ordinary size yields them, whatever follows: records of a later append, a torn tail. */
  lemma {:induction false} WalkYields(written: seq<Blob>, after: seq<Byte>)
    requires Short(written)
    ensures Walk(Frames(written) + after) == Walked(written + Walk(after).blobs, Walk(after).rest)
  {
    if written == [] {
      assert Frames(written) + after == after;
    } else {
      hide *;
      ShortTail(written);
      var b, others := written[0], written[1..];
      FramesFirst(b, others);
      Associates(Frame(b), Frames(others), after);
      WalkPast(b, Frames(others) + after);
      WalkYields(others, after);
      Associates([b], others, Walk(after).blobs);
    }
  }

  lemma ShortTail(written: seq<Blob>)
    requires Short(written) && written != []
    ensures Short(written[1..]) && |written[0]| < LENGTHS && written == [written[0]] + written[1..]
  {
    assert written == [written[0]] + written[1..];
  }

  /** The log can be walked by its own headers exactly when no blob reaches the size that does not fit in one. */
  lemma {:induction false} WalkIsExactIff(written: seq<Blob>)
    ensures Walk(Frames(written)) == Walked(written, []) <==> Short(written)
  {
    if Short(written) {
      WalkYields(written, []);
      assert Frames(written) + [] == Frames(written);
    } else {
      var k := FirstLong(written);
      var before, b, others := written[..k], written[k], written[k + 1..];
      assert written == before + ([b] + others);
      FramesJoin(before, [b] + others);
      FramesJoin([b], others);
      FramesOfOne(b);
      WalkYields(before, Frame(b) + Frames(others));
      WalkOne(b, Frames(others));
      var got := Walk(Frames(written)).blobs;
      assert got[k] == b[..|b| % LENGTHS];
      assert |got[k]| < |written[k]|;
    }
  }

  lemma {:induction false} FirstLong(written: seq<Blob>) returns (k: nat)
    requires !Short(written)
    ensures k < |written| && |written[k]| >= LENGTHS && Short(written[..k])
  {
    if |written[0]| >= LENGTHS {
      k := 0;
    } else {
      assert written == [written[0]] + written[1..];
      k := FirstLong(written[1..]);
      assert written[..k + 1] == [written[0]] + written[1..][..k];
      k := k + 1;
    }
  }

  // ---- Walking a log that was opened again -----------------------------------------------------------------

  /** A walk leaves out no byte and counts none twice. */
  lemma {:induction false} WalkCovers(log: seq<Byte>)
    ensures |Frames(Walk(log).blobs)| + |Walk(log).rest| == |log|
  {
    if |log| >= HEADER_SIZE {
      var end := HEADER_SIZE + Value(log[..HEADER_SIZE]);
      if end <= |log| {
        WalkCovers(log[end..]);
        hide Frames;
        FramesFirst(log[HEADER_SIZE..end], Walk(log[end..]).blobs);
      }
    }
  }

  lemma {:induction false} WalkGoesOn(log: seq<Byte>, more: seq<Byte>)
    requires Walk(log).rest == []
    ensures Walk(log + more) == Walked(Walk(log).blobs + Walk(more).blobs, Walk(more).rest)
  {
    if log == [] {
      assert log + more == more;
    } else {
      var all, end := log + more, HEADER_SIZE + Value(log[..HEADER_SIZE]);
      assert all[..HEADER_SIZE] == log[..HEADER_SIZE] && all[HEADER_SIZE..end] == log[HEADER_SIZE..end];
      assert all[end..] == log[end..] + more;
      WalkGoesOn(log[end..], more);
      Associates([log[HEADER_SIZE..end]], Walk(log[end..]).blobs, Walk(more).blobs);
    }
  }

  /** The walk goes through to the end, and these blobs are the last it yields. */
  ghost predicate Finds(log: seq<Byte>, blobs: seq<Blob>) {
    var w := Walk(log);
    w.rest == [] && exists others :: w.blobs == others + blobs
  }

  /** A walk that finds these blobs behind something else takes its first record from that. */
  lemma FirstIsInFront(log: seq<Byte>, later: seq<Blob>) returns (end: nat)
    requires Finds(log, later) && |Frames(later)| < |log|
    ensures HEADER_SIZE <= |log| && end == HEADER_SIZE + Value(log[..HEADER_SIZE])
    ensures end + |Frames(later)| <= |log| && Finds(log[end..], later)
  {
    hide Frames;
    WalkCovers(log);
    end := HEADER_SIZE + Value(log[..HEADER_SIZE]);
    var tail := Walk(log[end..]);
    var others :| Walk(log).blobs == others + later;
    assert others == [] ==> others + later == later;
    assert tail.blobs == Walk(log).blobs[1..] == others[1..] + later;
    WalkCovers(log[end..]);
    FramesJoin(others[1..], later);
  }

  /** So it has passed what is in front of them in whole records. */
  lemma {:induction false} FoundBehind(base: seq<Byte>, later: seq<Blob>)
    requires Finds(base + Frames(later), later)
    ensures Walk(base).rest == []
  {
    hide Frames, Finds;
    if base != [] {
      var log := base + Frames(later);
      var end := FirstIsInFront(log, later);
      assert log[end..] == base[end..] + Frames(later) && log[..HEADER_SIZE] == base[..HEADER_SIZE];
      FoundBehind(base[end..], later);
    }
  }

  /** Whatever a log held when it was opened, walking it finds the blobs appended since if and only if what it held
      is whole records. */
  lemma LaterAreFoundIff(base: seq<Byte>, later: seq<Blob>)
    requires Short(later)
    ensures Finds(base + Frames(later), later) <==> Walk(base).rest == []
  {
    if Walk(base).rest == [] {
      WalkGoesOn(base, Frames(later));
      WalkIsExactIff(later);
    } else if Finds(base + Frames(later), later) {
      FoundBehind(base, later);
      assert false;
    }
  }

  /** Behind a torn record the walk never finds all that is appended, and finds it from the j-th blob on exactly when
      it comes out even just before that one. */
  lemma BehindTornRecordIff(written: seq<Blob>, b: Blob, k: nat, later: seq<Blob>, j: nat)
    requires Short(written) && Short(later) && |b| < LENGTHS && 0 < k < |Frame(b)| && j <= |later|
    ensures var base := Frames(written) + Frame(b)[..k];
            && Walk(base) == Walked(written, Frame(b)[..k])
            && !Finds(base + Frames(later), later)
            && (Finds(base + Frames(later), later[j..]) <==> Walk(base + Frames(later[..j])).rest == [])
  {
    var torn := Frame(b)[..k];
    var base := Frames(written) + torn;
    var rest := later[j..];
    assert later == later[..j] + rest && Short(rest) && torn != [] && written + [] == written;
    hide Frames, Frame, Walk, Finds, Short;
    WalkYields(written, torn);
    TornIsLeft(b, k);
    LaterAreFoundIff(base, later);
    FramesJoin(later[..j], rest);
    Associates(base, Frames(later[..j]), Frames(rest));
    LaterAreFoundIff(base + Frames(later[..j]), rest);
  }

  /** With the torn record's header whole, the walk takes what follows for the bytes the record lacks. As long as the
      blobs up to the j-th do not exceed these, it finds the rest exactly when they make them up. */
  lemma MadeUpIff(written: seq<Blob>, b: Blob, k: nat, later: seq<Blob>, j: nat)
    requires Short(written) && Short(later) && |b| < LENGTHS && HEADER_SIZE <= k < |Frame(b)| && j <= |later|
    requires k + |Frames(later[..j])| <= |Frame(b)|
    ensures Finds(Frames(written) + Frame(b)[..k] + Frames(later), later[j..]) <==> k + |Frames(later[..j])| == |Frame(b)|
  {
    hide Walk, Frames, Frame, Finds, Short;
    var torn, more := Frame(b)[..k], Frames(later[..j]);
    BehindTornRecordIff(written, b, k, later, j);
    WalkYields(written, torn + more);
    Associates(Frames(written), torn, more);
    TornRecordEnds(b, k, more);
  }

  lemma TornRecordEnds(b: Blob, k: nat, more: seq<Byte>)
    requires |b| < LENGTHS && HEADER_SIZE <= k && k + |more| <= |Frame(b)|
    ensures Walk(Frame(b)[..k] + more).rest == [] <==> k + |more| == |Frame(b)|
  {
    hide Header, Value, Walk;
    HeaderHoldsLowBits(|b|);
    FrontStays(Header(|b|), b, k, more);
    FrameSize(b);
    hide Frame;
    OneRecord(Frame(b)[..k] + more);
  }

  lemma FrontStays<T>(a: seq<T>, b: seq<T>, k: nat, more: seq<T>)
    requires |a| <= k <= |a + b|
    ensures ((a + b)[..k] + more)[..|a|] == a
  {
  }

  lemma OneRecord(log: seq<Byte>)
    requires HEADER_SIZE <= |log| <= HEADER_SIZE + Value(log[..HEADER_SIZE])
    ensures Walk(log).rest == [] <==> |log| == HEADER_SIZE + Value(log[..HEADER_SIZE])
  {
    hide Value;
    assert log[|log|..] == [];
  }

  lemma TornIsLeft(b: Blob, k: nat)
    requires |b| < LENGTHS && k < |Frame(b)|
    ensures Walk(Frame(b)[..k]) == Walked([], Frame(b)[..k])
  {
    if k >= HEADER_SIZE {
      HeaderHoldsLowBits(|b|);
      assert Frame(b)[..k][..HEADER_SIZE] == Header(|b|);
    }
  }

  // ---- The store ----------------------------------------------------------------------------------------

  /** Frames a batch into one buffer that will be written at `size`, and says where each blob will be. */
  method FrameBatch(blobs: seq<Blob>, size: nat) returns (buf: seq<Byte>, refs: seq<Ref>, at: nat)
    ensures buf == Frames(NonEmpty(blobs)) && at == size + |buf| && |refs| == |blobs|
    ensures forall k :: 0 <= k < |blobs| ==> refs[k] == RefFor(size, blobs, k)
  {
    buf, refs, at := [], [], size;
    for i := 0 to |blobs|
      invariant buf == Frames(NonEmpty(blobs[..i])) && at == size + |buf| && |refs| == i
      invariant Points(refs, size, blobs)
    {
      hide Frames, NonEmpty, RefFor, Header, Points;
      var b := blobs[i];
      RefForNext(size, blobs, i);
      PointsNext(refs, size, blobs);
      if |b| == 0 {
        refs := refs + [Ref(0, 0)];
      } else {
        buf := buf + Header(|b|) + b;
        refs := refs + [Ref(at + HEADER_SIZE, |b| % LENGTHS)];
        at := at + HEADER_SIZE + |b|;
      }
    }
    assert blobs[..|blobs|] == blobs;
  }

  ghost predicate Points(refs: seq<Ref>, size: nat, blobs: seq<Blob>) {
    |refs| <= |blobs| && forall k :: 0 <= k < |refs| ==> refs[k] == RefFor(size, blobs, k)
  }

  lemma PointsNext(refs: seq<Ref>, size: nat, blobs: seq<Blob>)
    requires |refs| < |blobs| && Points(refs, size, blobs)
    ensures Points(refs + [RefFor(size, blobs, |refs|)], size, blobs)
  {
  }

  class Log {
    var mem: seq<Byte>
    var size: nat
    var closed: bool
    /** No write fails. */
    const reliable: bool
    /** What the log held when it was opened, whole records or not. */
    ghost const base: seq<Byte>
    /** Every blob written since. */
    ghost var written: seq<Blob>

    ghost predicate Valid()
      reads this
    {
      mem == base + Frames(written) && size == |mem| && forall b :: b in written ==> b != []
    }

    /** Opens a log on the bytes it holds. It does not look at them. */
    constructor (bytes: seq<Byte>, reliable: bool)
      ensures this.reliable == reliable && Valid() && base == mem == bytes && written == [] && !closed
    {
      mem, size, closed, base, written, this.reliable := bytes, |bytes|, false, bytes, [], reliable;
    }

    /** Writes the blobs that are not empty in one write, and returns a reference for each blob: the zero reference
        for an empty one. */
    method AppendBatch(blobs: seq<Blob>) returns (r: Outcome<seq<Ref>>)
      requires Valid()
      modifies this`mem, this`size, this`written
      ensures Valid() && (r.Ok? || (mem == old(mem) && written == old(written)))
      ensures r.Closed? <==> closed && blobs != []
      ensures !r.OutOfRange? && (reliable ==> !r.WriteFailed?)
      ensures r.Ok? ==> written == old(written) + NonEmpty(blobs) && mem == old(mem) + Frames(NonEmpty(blobs))
      ensures r.Ok? ==> |r.value| == |blobs| && forall i :: 0 <= i < |blobs| ==> r.value[i] == RefFor(|old(mem)|, blobs, i)
    {
      hide Frames, NonEmpty, RefFor;
      BatchWritten(base, written, blobs);
      if |blobs| == 0 {
        return Ok([]);
      }
      if closed {
        return Closed;
      }
      var buf, refs, at := FrameBatch(blobs, size);
      if |buf| == 0 {
        return Ok(refs);
      }
      var fails: bool := *;
      if fails && !reliable {
        return WriteFailed;
      }
      mem := mem + buf;
      size := at;
      written := written + NonEmpty(blobs);
      r := Ok(refs);
    }

    /** Reads what a reference points at; the zero reference reads as nothing. */
    method Read(ref: Ref) returns (r: Outcome<Blob>)
      requires Valid()
      ensures ref.IsZero() ==> r == Ok([])
      ensures !ref.IsZero() && closed ==> r.Closed?
      ensures !ref.IsZero() && !closed ==>
                r == if ref.offset + ref.length > |mem| then OutOfRange else Ok(mem[ref.offset..ref.offset + ref.length])
    {
      if ref.IsZero() {
        return Ok([]);
      }
      if closed {
        return Closed;
      }
      var end := ref.offset + ref.length;
      if end > size {
        return OutOfRange;
      }
      r := Ok(mem[ref.offset..end]);
    }

    method Close()
      modifies this`closed
      ensures closed
    {
      closed := true;
    }
  }

  /** The reference a batch written at this size returns for its i-th blob. */
  ghost function RefFor(size: nat, blobs: seq<Blob>, i: nat): Ref
    requires i < |blobs|
  {
    if blobs[i] == [] then Ref(0, 0)
    else Ref(size + |Frames(NonEmpty(blobs[..i]))| + HEADER_SIZE, |blobs[i]| % LENGTHS)
  }

  /** What one more blob adds to the buffer, and where its reference points. */
  lemma RefForNext(size: nat, blobs: seq<Blob>, i: nat)
    requires i < |blobs|
    ensures var so, next := NonEmpty(blobs[..i]), NonEmpty(blobs[..i + 1]); var b := blobs[i];
            && Frames(next) == (if b == [] then Frames(so) else Frames(so) + Header(|b|) + b)
            && RefFor(size, blobs, i) ==
                 if b == [] then Ref(0, 0) else Ref(size + |Frames(so)| + HEADER_SIZE, |b| % LENGTHS)
  {
    var so, next, b := NonEmpty(blobs[..i]), NonEmpty(blobs[..i + 1]), blobs[i];
    assert blobs[..i + 1][..i] == blobs[..i];
    if b == [] {
      assert next == so;
    } else {
      assert next == so + [b] && next[..|so|] == so;
      Associates(Frames(so), Header(|b|), b);
    }
  }

  lemma BatchWritten(base: seq<Byte>, before: seq<Blob>, blobs: seq<Blob>)
    ensures blobs[..|blobs|] == blobs
    ensures base + Frames(before + NonEmpty(blobs)) == base + Frames(before) + Frames(NonEmpty(blobs))
    ensures forall b :: b in NonEmpty(blobs) ==> b != []
    ensures blobs == [] || Frames(NonEmpty(blobs)) == [] ==> NonEmpty(blobs) == [] && Frames(NonEmpty(blobs)) == []
  {
    assert blobs[..|blobs|] == blobs;
    FramesJoin(before, NonEmpty(blobs));
    Associates(base, Frames(before), Frames(NonEmpty(blobs)));
    NonEmptyBlobs(blobs);
  }

  lemma {:induction false} NonEmptyBlobs(blobs: seq<Blob>)
    ensures forall b :: b in NonEmpty(blobs) ==> b != []
  {
    if blobs != [] {
      NonEmptyBlobs(blobs[..|blobs| - 1]);
    }
  }

  lemma {:induction false} NonEmptyAt(blobs: seq<Blob>, i: nat)
    requires i < |blobs| && blobs[i] != []
    ensures var k := |NonEmpty(blobs[..i])|;
            k < |NonEmpty(blobs)| && NonEmpty(blobs)[k] == blobs[i] && NonEmpty(blobs)[..k] == NonEmpty(blobs[..i])
    decreases |blobs|
  {
    var n := |blobs| - 1;
    if i < n {
      assert blobs[..n][..i] == blobs[..i];
      NonEmptyAt(blobs[..n], i);
    }
  }

  /** Whatever the log held before and whatever has been appended since, the reference a batch returned for a blob reads
      back exactly that blob if and only if the blob's length fits in 32 bits. An empty blob has the zero reference,
      which reads as nothing. */
  lemma RoundTripIff(before: seq<Byte>, blobs: seq<Blob>, after: seq<Byte>, i: nat)
    requires i < |blobs|
    ensures var log, r, b := before + Frames(NonEmpty(blobs)) + after, RefFor(|before|, blobs, i), blobs[i];
            && r.offset + r.length <= |log|
            && ((if r.IsZero() then [] else log[r.offset..r.offset + r.length]) == b <==> |b| < LENGTHS)
  {
    hide NonEmpty, Frames, Frame, RefFor;
    RefAt(|before|, blobs, i);
    if blobs[i] != [] {
      var back := FrameAt(blobs, i);
      ReadsBackIff(before, Frames(NonEmpty(blobs[..i])), blobs[i], back, after);
    }
  }

  lemma RefAt(size: nat, blobs: seq<Blob>, i: nat)
    requires i < |blobs|
    ensures RefFor(size, blobs, i) ==
            if blobs[i] == [] then Ref(0, 0)
            else Ref(size + |Frames(NonEmpty(blobs[..i]))| + HEADER_SIZE, |blobs[i]| % LENGTHS)
  {
  }

  lemma ReadsBackIff(before: seq<Byte>, front: seq<Byte>, b: Blob, back: seq<Byte>, after: seq<Byte>)
    requires b != []
    ensures var log, at, n := before + (front + Frame(b) + back) + after, |before| + |front| + HEADER_SIZE, |b| % LENGTHS;
            && at + n <= |log|
            && ((if n == 0 then [] else log[at..at + n]) == b <==> |b| < LENGTHS)
  {
    PutBetween(before, front, Frame(b), back, after);
    Sliced(before + front, b, back + after, |b| % LENGTHS);
  }

  lemma PutBetween<T>(a: seq<T>, b: seq<T>, c: seq<T>, d: seq<T>, e: seq<T>)
    ensures a + (b + c + d) + e == a + b + c + (d + e)
  {
  }

  /** What a batch appends splits around the frame of each of its blobs. */
  lemma FrameAt(blobs: seq<Blob>, i: nat) returns (back: seq<Byte>)
    requires i < |blobs| && blobs[i] != []
    ensures Frames(NonEmpty(blobs)) == Frames(NonEmpty(blobs[..i])) + Frame(blobs[i]) + back
  {
    var all, k := NonEmpty(blobs), |NonEmpty(blobs[..i])|;
    NonEmptyAt(blobs, i);
    hide *;
    FramesAround(all, k);
    back := Frames(all[k + 1..]);
  }

  /** References to different blobs of a batch never share a byte, and all lie within what the batch appends. */
  lemma RefsDoNotOverlap(size: nat, blobs: seq<Blob>, i: nat, j: nat)
    requires i < j < |blobs| && blobs[i] != [] && blobs[j] != []
    ensures var r, s := RefFor(size, blobs, i), RefFor(size, blobs, j);
            && size <= r.offset && r.offset + r.length <= s.offset
            && s.offset + s.length <= size + |Frames(NonEmpty(blobs))|
  {
    var first := blobs[..j];
    assert first[..i] == blobs[..i];
    hide *;
    RefAt(size, blobs, i);
    RefAt(size, blobs, j);
    FrameSize(blobs[i]);
    FrameSize(blobs[j]);
    var between := FrameAt(first, i);
    var behind := FrameAt(blobs, j);
  }
}
