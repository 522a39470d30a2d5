/** The nodes a layout arranges and the options it reads, and the order every layout falls back to: dated nodes
    by time, then by id, and the undated ones in the tray. */
module Cards {
  import opened Sorting

  /** A node on the canvas. `time` means something only when `dated` holds. */
  datatype Card = Card(id: nat, time: int, dated: bool)

  datatype Point = Point(x: real, y: real)

  /** Spacing asked for; a value that is not positive asks for the default. */
  datatype Options = Options(gapX: real, gapY: real, span: real) {
    function GapX(): (r: real) ensures r > 0.0 { if gapX > 0.0 then gapX else 268.0 }
    function GapY(): (r: real) ensures r > 0.0 { if gapY > 0.0 then gapY else 168.0 }
    function Span(): (r: real) ensures r > 0.0 { if span > 0.0 then span else 12000.0 }
  }

  /** Dated cards by time, undated cards after them, ties by id. */
  predicate Before(a: Card, b: Card) {
    if a.dated != b.dated then a.dated
    else if a.dated && a.time != b.time then a.time < b.time
    else a.id < b.id
  }

  lemma BeforeIsStrict()
    ensures StrictOrder(Before)
  {
  }

  ghost predicate DistinctIds(cards: seq<Card>) {
    forall i, j :: 0 <= i < j < |cards| ==> cards[i].id != cards[j].id
  }

  function Ids(cards: seq<Card>): (r: seq<nat>)
    ensures |r| == |cards| && forall i :: 0 <= i < |r| ==> r[i] == cards[i].id
  {
    seq(|cards|, i requires 0 <= i < |cards| => cards[i].id)
  }

  /** The cards that are (or are not) dated, in order. */
  function Picked(cards: seq<Card>, dated: bool): seq<Card> {
    if cards == [] then []
    else
      var last := cards[|cards| - 1];
      Picked(cards[..|cards| - 1], dated) + if last.dated == dated then [last] else []
  }

  method Split(cards: seq<Card>) returns (dated: seq<Card>, undated: seq<Card>)
    ensures dated == Picked(cards, true) && undated == Picked(cards, false)
  {
    dated, undated := [], [];
    for i := 0 to |cards|
      invariant dated == Picked(cards[..i], true) && undated == Picked(cards[..i], false)
    {
      assert cards[..i + 1][..i] == cards[..i];
      if cards[i].dated {
        dated := dated + [cards[i]];
      } else {
        undated := undated + [cards[i]];
      }
    }
    assert cards[..|cards|] == cards;
  }

  lemma {:induction false} PickedCards(cards: seq<Card>, dated: bool)
    ensures forall c :: c in Picked(cards, dated) <==> c in cards && c.dated == dated
    ensures DistinctIds(cards) ==> DistinctIds(Picked(cards, dated))
  {
    if cards != [] {
      var n := |cards| - 1;
      PickedCards(cards[..n], dated);
      assert cards == cards[..n] + [cards[n]];
      var before := Picked(cards[..n], dated);
      forall i | 0 <= i < |before| && DistinctIds(cards) ensures before[i].id != cards[n].id {
        assert before[i] in cards[..n];
      }
    }
  }

  /** Sorting keeps every card once. */
  lemma SortedCards(cards: seq<Card>) returns (sorted: seq<Card>)
    requires DistinctIds(cards)
    ensures sorted == SortBy(cards, Before) && |sorted| == |cards|
    ensures SortedBy(sorted, Before) && DistinctIds(sorted)
    ensures forall c :: c in sorted <==> c in cards
  {
    sorted := SortBy(cards, Before);
    BeforeIsStrict();
    SortBySorts(cards, Before);
    forall c ensures c in sorted <==> c in cards {
      assert c in multiset(sorted) <==> c in multiset(cards);
    }
    NoRepeats(cards);
    NoRepeatsConversely(sorted, cards);
  }

  lemma {:induction false} NoRepeats(cards: seq<Card>)
    requires DistinctIds(cards)
    ensures forall c :: multiset(cards)[c] <= 1
  {
    if cards != [] {
      NoRepeats(cards[1..]);
      assert cards == [cards[0]] + cards[1..];
      assert cards[0] !in cards[1..];
    }
  }

  lemma NoRepeatsConversely(sorted: seq<Card>, cards: seq<Card>)
    requires multiset(sorted) == multiset(cards) && DistinctIds(cards) && forall c :: multiset(cards)[c] <= 1
    ensures DistinctIds(sorted)
  {
    forall i, j | 0 <= i < j < |sorted| ensures sorted[i].id != sorted[j].id {
      assert sorted[i] in multiset(cards) && sorted[j] in multiset(cards);
      if sorted[i].id == sorted[j].id {
        SameCard(cards, sorted[i], sorted[j]);
        TwiceCounts(sorted, i, j);
      }
    }
  }

  lemma SameCard(cards: seq<Card>, c: Card, d: Card)
    requires DistinctIds(cards) && c in cards && d in cards && c.id == d.id
    ensures c == d
  {
  }
}
