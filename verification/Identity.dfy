/** Which two records are the same occurrence. */
module Identity {
  import opened FieldText

  datatype Time = Undated | At(text: string)

  /** The parts of a record that decide its identity. `extra` is what the parser of an undated record adds. */
  datatype Record = Record(eventId: string, provider: string, channel: string, computer: string, user: string,
                           time: Time, extra: seq<string>)

  /** The digest of a text. Equal digests mean equal texts, so the text itself stands for it. */
  type Hash = string

  function Fields(r: Record, source: string): (f: seq<string>)
    ensures f != []
  {
    match r.time
    case At(text) => [r.eventId, text, r.provider, r.channel, r.computer, r.user, source]
    case Undated => [r.eventId, r.provider, r.channel, r.computer, r.user] + r.extra
  }

  /** The identity the sink files a record under: completed with the source when the record is dated. */
  function HashOf(r: Record, source: string): Hash {
    Joined(Fields(r, source), SEPARATOR)
  }

  ghost predicate SameOccurrence(r: Record, source: string, r': Record, source': string) {
    && r.eventId == r'.eventId && r.provider == r'.provider && r.channel == r'.channel
    && r.computer == r'.computer && r.user == r'.user && r.time == r'.time
    && (r.time.At? ==> source == source')
    && (r.time.Undated? ==> r.extra == r'.extra)
  }

  /** Two records share an identity exactly when they are the same occurrence: a dated record of one source, or an
      undated one of any source. That is so for every number of extra fields but two, with which an undated record
      looks like a dated one. */
  lemma IdentityIsExact(r: Record, source: string, r': Record, source': string)
    requires AllClean(Fields(r, source), SEPARATOR) && AllClean(Fields(r', source'), SEPARATOR)
    requires |r.extra| != 2 && |r'.extra| != 2
    ensures HashOf(r, source) == HashOf(r', source') <==> SameOccurrence(r, source, r', source')
  {
    var a, b := Fields(r, source), Fields(r', source');
    if HashOf(r, source) == HashOf(r', source') {
      JoinedIsExact(a, b, SEPARATOR);
      assert a[0] == b[0] && a[1] == b[1] && a[2] == b[2] && a[3] == b[3] && a[4] == b[4];
      if r.time.At? {
        assert a[5] == b[5] && a[6] == b[6];
      } else {
        assert r.extra == a[5..] && r'.extra == b[5..];
      }
    }
  }

  /** Whatever a dated record is, an undated one with two extra fields has its identity. */
  lemma TwoExtrasLookDated(r: Record, source: string) returns (other: Record)
    requires r.time.At?
    ensures other.time.Undated? && |other.extra| == 2 && HashOf(other, source) == HashOf(r, source)
  {
    other := Record(r.eventId, r.time.text, r.provider, r.channel, r.computer, Undated, [r.user, source]);
    assert Fields(other, source) == Fields(r, source);
  }
}
