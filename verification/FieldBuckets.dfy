/** Events that share a value in every required field: which bucket an event belongs to, which events have none,
    and the order in which a bucket holds its events. */
module FieldBuckets {
  import opened Correlation
  import opened FieldText
  import opened Sorting

  datatype Key = None | Key(text: string)

  /** The values of an event in the required slots. */
  function Values(e: Event, slots: seq<nat>): (r: seq<string>)
    ensures |r| == |slots| && forall i :: 0 <= i < |r| ==> r[i] == e.CorrelationKey(slots[i])
  {
    seq(|slots|, i requires 0 <= i < |slots| => e.CorrelationKey(slots[i]))
  }

  /** An event takes part when it has a value in every slot. */
  predicate Complete(e: Event, slots: seq<nat>) {
    forall i :: 0 <= i < |slots| ==> e.CorrelationKey(slots[i]) != ""
  }

  function KeyOf(e: Event, slots: seq<nat>): Key {
    if Complete(e, slots) then Key(Terminated(Values(e, slots), SEPARATOR)) else None
  }

  lemma {:induction false} TerminatedNext(a: seq<string>, b: string)
    ensures Terminated(a + [b], SEPARATOR) == Terminated(a, SEPARATOR) + b + [SEPARATOR]
  {
    if a == [] {
      assert a + [b] == [b] && [b][1..] == [];
      assert Terminated([b], SEPARATOR) == b + [SEPARATOR] + "";
    } else {
      assert (a + [b])[1..] == a[1..] + [b];
      TerminatedNext(a[1..], b);
    }
  }

  /** The key an event is bucketed under, or none when a value is missing. */
  method BucketKey(e: Event, slots: seq<nat>) returns (k: Key)
    ensures k == KeyOf(e, slots)
  {
    var text := "";
    ghost var values := Values(e, slots);
    for i := 0 to |slots|
      invariant text == Terminated(values[..i], SEPARATOR)
      invariant forall j :: 0 <= j < i ==> e.CorrelationKey(slots[j]) != ""
    {
      var v := e.CorrelationKey(slots[i]);
      if v == "" {
        return None;
      }
      TerminatedNext(values[..i], v);
      assert values[..i + 1] == values[..i] + [v];
      text := text + v;
      text := text + [SEPARATOR];
    }
    assert values[..|slots|] == values;
    k := Key(text);
  }

  /** Two events share a key exactly when they have the same value in every slot. */
  lemma KeyIsExact(e: Event, f: Event, slots: seq<nat>)
    requires Complete(e, slots) && Complete(f, slots)
    requires AllClean(Values(e, slots), SEPARATOR) && AllClean(Values(f, slots), SEPARATOR)
    ensures KeyOf(e, slots) == KeyOf(f, slots) <==>
            forall i :: 0 <= i < |slots| ==> e.CorrelationKey(slots[i]) == f.CorrelationKey(slots[i])
  {
    if KeyOf(e, slots) == KeyOf(f, slots) {
      TerminatedIsExact(Values(e, slots), Values(f, slots), SEPARATOR);
      assert forall i :: 0 <= i < |slots| ==> Values(e, slots)[i] == Values(f, slots)[i];
    }
    if forall i :: 0 <= i < |slots| ==> e.CorrelationKey(slots[i]) == f.CorrelationKey(slots[i]) {
      assert Values(e, slots) == Values(f, slots);
    }
  }

  /** The events of one bucket, in the order they come. */
  function Bucket(events: seq<Event>, slots: seq<nat>, key: string): seq<Event> {
    if events == [] then []
    else
      var last := events[|events| - 1];
      Bucket(events[..|events| - 1], slots, key) + if KeyOf(last, slots) == Key(key) then [last] else []
  }

  /** The keys of events, each where it is first met. */
  function FirstKeys(events: seq<Event>, slots: seq<nat>): seq<string> {
    if events == [] then []
    else
      var before, k := FirstKeys(events[..|events| - 1], slots), KeyOf(events[|events| - 1], slots);
      if k.Key? && k.text !in before then before + [k.text] else before
  }

  function Skipped(events: seq<Event>, slots: seq<nat>): nat {
    if events == [] then 0
    else Skipped(events[..|events| - 1], slots) + if KeyOf(events[|events| - 1], slots).None? then 1 else 0
  }

  /** The buckets of events: every key has its events, none is empty. */
  ghost predicate Buckets(events: seq<Event>, slots: seq<nat>, buckets: map<string, seq<Event>>, order: seq<string>) {
    && order == FirstKeys(events, slots) && (forall k :: k in buckets <==> k in order)
    && (forall k :: k in buckets ==> buckets[k] == Bucket(events, slots, k) && buckets[k] != [])
  }

  lemma OneMore(events: seq<Event>, e: Event, slots: seq<nat>, key: string)
    ensures var k := KeyOf(e, slots);
            && Bucket(events + [e], slots, key) == (if k == Key(key) then Bucket(events, slots, key) + [e] else Bucket(events, slots, key))
            && FirstKeys(events + [e], slots) ==
                 (if k.Key? && k.text !in FirstKeys(events, slots) then FirstKeys(events, slots) + [k.text]
                  else FirstKeys(events, slots))
            && Skipped(events + [e], slots) == Skipped(events, slots) + if k.None? then 1 else 0
  {
    assert (events + [e])[..|events|] == events;
  }

  lemma BucketsSkip(events: seq<Event>, e: Event, slots: seq<nat>, buckets: map<string, seq<Event>>, order: seq<string>)
    requires Buckets(events, slots, buckets, order) && KeyOf(e, slots).None?
    ensures Buckets(events + [e], slots, buckets, order)
  {
    hide Bucket, FirstKeys, KeyOf;
    OneMore(events, e, slots, "");
    forall k | k in buckets ensures buckets[k] == Bucket(events + [e], slots, k) && buckets[k] != [] {
      OneMore(events, e, slots, k);
    }
  }

  lemma BucketsAdd(events: seq<Event>, e: Event, slots: seq<nat>, buckets: map<string, seq<Event>>, order: seq<string>)
    requires Buckets(events, slots, buckets, order) && KeyOf(e, slots).Key?
    ensures var k := KeyOf(e, slots).text;
            Buckets(events + [e], slots, buckets[k := (if k in buckets then buckets[k] else []) + [e]],
                    if k in buckets then order else order + [k])
  {
    hide Bucket, FirstKeys, KeyOf;
    var key := KeyOf(e, slots).text;
    var next := buckets[key := (if key in buckets then buckets[key] else []) + [e]];
    OneMore(events, e, slots, key);
    if key !in buckets {
      NoBucket(events, slots, key);
    }
    forall k | k in next ensures next[k] == Bucket(events + [e], slots, k) && next[k] != [] {
      OneMore(events, e, slots, k);
    }
  }

  lemma {:induction false} NoBucket(events: seq<Event>, slots: seq<nat>, key: string)
    requires key !in FirstKeys(events, slots)
    ensures Bucket(events, slots, key) == []
  {
    if events != [] {
      NoBucket(events[..|events| - 1], slots, key);
    }
  }

  /** Partitions events by their values in the required slots. An event without one of them takes part in none. */
  method BucketByKey(events: seq<Event>, slots: seq<nat>, res: Result)
    returns (buckets: map<string, seq<Event>>, order: seq<string>)
    modifies res`skippedNoKeys
    ensures Buckets(events, slots, buckets, order)
    ensures res.skippedNoKeys == old(res.skippedNoKeys) + Skipped(events, slots)
  {
    buckets, order := map[], [];
    for i := 0 to |events|
      invariant Buckets(events[..i], slots, buckets, order)
      invariant res.skippedNoKeys == old(res.skippedNoKeys) + Skipped(events[..i], slots)
    {
      assert forall k :: k in buckets <==> k in order;
      hide Buckets, KeyOf, Skipped;
      OneMore(events[..i], events[i], slots, "");
      assert events[..i + 1] == events[..i] + [events[i]];
      var k := BucketKey(events[i], slots);
      if k.None? {
        BucketsSkip(events[..i], events[i], slots, buckets, order);
        res.skippedNoKeys := res.skippedNoKeys + 1;
        continue;
      }
      BucketsAdd(events[..i], events[i], slots, buckets, order);
      if k.text !in buckets {
        order := order + [k.text];
      }
      buckets := buckets[k.text := (if k.text in buckets then buckets[k.text] else []) + [events[i]]];
    }
    assert events[..|events|] == events;
  }

  // ---- What bucketing keeps --------------------------------------------------------------------------------

  function Sizes(events: seq<Event>, slots: seq<nat>, order: seq<string>): nat {
    if order == [] then 0
    else Sizes(events, slots, order[..|order| - 1]) + |Bucket(events, slots, order[|order| - 1])|
  }

  lemma {:induction false} SizesNext(events: seq<Event>, e: Event, slots: seq<nat>, order: seq<string>)
    requires Distinct(order)
    ensures Sizes(events + [e], slots, order) ==
            Sizes(events, slots, order) + if KeyOf(e, slots).Key? && KeyOf(e, slots).text in order then 1 else 0
  {
    assert (events + [e])[..|events|] == events;
    if order != [] {
      var n := |order| - 1;
      SizesNext(events, e, slots, order[..n]);
      assert order == order[..n] + [order[n]];
      assert order[n] !in order[..n];
    }
  }

  lemma {:induction false} FirstKeysDiffer(events: seq<Event>, slots: seq<nat>)
    ensures Distinct(FirstKeys(events, slots))
  {
    if events != [] {
      var before, after := FirstKeys(events[..|events| - 1], slots), FirstKeys(events, slots);
      FirstKeysDiffer(events[..|events| - 1], slots);
      var k := KeyOf(events[|events| - 1], slots);
      assert after == if k.Key? && k.text !in before then before + [k.text] else before;
      hide FirstKeys, KeyOf;
      forall i, j | 0 <= i < j < |after| ensures after[i] != after[j] {
        if j < |before| {
          assert before[i] != before[j];
        } else {
          assert before[i] in before;
        }
      }
    }
  }

  /** Every event is in exactly one bucket or is skipped: the sizes and the skipped add up. */
  lemma {:induction false} NothingIsLost(events: seq<Event>, slots: seq<nat>)
    ensures Sizes(events, slots, FirstKeys(events, slots)) + Skipped(events, slots) == |events|
  {
    if events != [] {
      var n := |events| - 1;
      var before, e := events[..n], events[n];
      assert events == before + [e];
      NothingIsLost(before, slots);
      FirstKeysDiffer(before, slots);
      var order, k := FirstKeys(before, slots), KeyOf(e, slots);
      SizesNext(before, e, slots, order);
      if k.Key? && k.text !in order {
        var more := order + [k.text];
        assert more[..|order|] == order;
        NoBucket(before, slots, k.text);
        assert Bucket(events, slots, k.text) == [e];
      }
    }
  }

  /** A bucket of chronological events is chronological, without sorting it. */
  lemma {:induction false} BucketsStayChronological(events: seq<Event>, slots: seq<nat>, key: string)
    requires Chronological(events)
    ensures Chronological(Bucket(events, slots, key))
    ensures forall e :: e in Bucket(events, slots, key) ==> e in events && KeyOf(e, slots) == Key(key)
  {
    hide KeyOf;
    if events != [] {
      var n := |events| - 1;
      var before := events[..n];
      BucketsStayChronological(before, slots, key);
      forall e | e in Bucket(before, slots, key) ensures e in events && e.timestamp <= events[n].timestamp {
        LastIsLatest(events, e);
      }
    }
  }

  lemma LastIsLatest(events: seq<Event>, e: Event)
    requires Chronological(events) && events != [] && e in events[..|events| - 1]
    ensures e in events && e.timestamp <= events[|events| - 1].timestamp
  {
    var i :| 0 <= i < |events| - 1 && events[i] == e;
  }
}
