/** Which identities a deduplicating run stores, and when each is stored once. */
module Recording {
  import opened Identity
  import opened Ledger
  import opened Durability

  ghost predicate Unique(nodes: seq<Node>) {
    forall i, j :: 0 <= i < j < |nodes| ==> nodes[i].hash != nodes[j].hash
  }

  ghost predicate OnRecord(nodes: seq<Node>, h: Hash) {
    exists i :: 0 <= i < |nodes| && nodes[i].hash == h
  }

  /** Every identity is on record once, and the index finds it. */
  ghost predicate Sound(nodes: seq<Node>, index: map<Hash, nat>) {
    Unique(nodes) && forall i :: 0 <= i < |nodes| ==> nodes[i].hash in index
  }

  function Ids(nodes: seq<Node>): (r: seq<Hash>)
    ensures |r| == |nodes| && forall i :: 0 <= i < |r| ==> r[i] == nodes[i].hash
  {
    seq(|nodes|, i requires 0 <= i < |nodes| => nodes[i].hash)
  }

  lemma IdsOfBoth(nodes: seq<Node>, more: seq<Node>)
    ensures Ids(nodes + more) == Ids(nodes) + Ids(more)
  {
  }

  // ---- What is new ---------------------------------------------------------------------------------------

  /** The identities a run meets that an index did not know, each where it is first met. */
  ghost function News(index: map<Hash, nat>, seen: seq<Hash>): seq<Hash> {
    if seen == [] then []
    else
      var before, h := News(index, seen[..|seen| - 1]), seen[|seen| - 1];
      if h in index || h in before then before else before + [h]
  }

  lemma {:induction false} NewsIs(index: map<Hash, nat>, seen: seq<Hash>)
    ensures forall h :: h in News(index, seen) <==> h in seen && h !in index
    ensures forall i, j :: 0 <= i < j < |News(index, seen)| ==> News(index, seen)[i] != News(index, seen)[j]
  {
    if seen != [] {
      var n := |seen| - 1;
      NewsIs(index, seen[..n]);
      assert seen == seen[..n] + [seen[n]];
    }
  }

  lemma NewsNext(index: map<Hash, nat>, seen: seq<Hash>, h: Hash)
    ensures News(index, seen + [h]) ==
            if h in index || h in News(index, seen) then News(index, seen) else News(index, seen) + [h]
  {
    assert (seen + [h])[..|seen|] == seen;
  }

  /** What is stored and what waits in the batch are what was on record at the start, and the news since. */
  ghost predicate Listed(start: Durable, nodes: seq<Node>, pending: seq<Node>, seen: seq<Hash>) {
    |start.nodes| <= |nodes| && Ids(nodes) + Ids(pending) == Ids(start.nodes) + News(start.index, seen)
  }

  /** The index knows what it knew at the start, and everything stored since. */
  ghost predicate Learned(start: Durable, nodes: seq<Node>, index: map<Hash, nat>) {
    |start.nodes| <= |nodes| && forall h :: h in index <==> h in start.index || h in Ids(nodes)[|start.nodes|..]
  }

  lemma AtFirst(start: Durable)
    ensures Listed(start, start.nodes, [], []) && Learned(start, start.nodes, start.index)
  {
    assert Ids(start.nodes)[|start.nodes|..] == [];
  }

  lemma NewsAreListed(start: Durable, nodes: seq<Node>, pending: seq<Node>, seen: seq<Hash>)
    requires Listed(start, nodes, pending, seen)
    ensures Ids(nodes)[|start.nodes|..] + Ids(pending) == News(start.index, seen)
    ensures forall i :: 0 <= i < |start.nodes| ==> nodes[i].hash == start.nodes[i].hash
  {
    var all := Ids(nodes) + Ids(pending);
    assert all[|start.nodes|..] == Ids(nodes)[|start.nodes|..] + Ids(pending);
    assert all[|start.nodes|..] == News(start.index, seen);
    forall i | 0 <= i < |start.nodes| ensures nodes[i].hash == start.nodes[i].hash {
      assert all[i] == Ids(nodes)[i] && (Ids(start.nodes) + News(start.index, seen))[i] == Ids(start.nodes)[i];
    }
  }

  /** An identity that is known or waiting changes nothing. */
  lemma OldIsListed(start: Durable, nodes: seq<Node>, pending: seq<Node>, seen: seq<Hash>, h: Hash)
    requires Listed(start, nodes, pending, seen)
    requires h in start.index || h in Ids(nodes)[|start.nodes|..] || h in Ids(pending)
    ensures Listed(start, nodes, pending, seen + [h])
  {
    NewsAreListed(start, nodes, pending, seen);
    NewsNext(start.index, seen, h);
  }

  lemma IndexedIsOld(start: Durable, nodes: seq<Node>, index: map<Hash, nat>, h: Hash)
    requires Learned(start, nodes, index) && h in index
    ensures h in start.index || h in Ids(nodes)[|start.nodes|..]
  {
  }

  /** Whatever the index does not know, though it is on record, was so from the start. */
  lemma UnknownFromStart(start: Durable, nodes: seq<Node>, index: map<Hash, nat>, pending: seq<Node>, seen: seq<Hash>,
                         h: Hash)
    requires Listed(start, nodes, pending, seen) && Learned(start, nodes, index) && OnRecord(nodes, h) && h !in index
    ensures OnRecord(start.nodes, h) && h !in start.index
  {
    NewsAreListed(start, nodes, pending, seen);
    forall k | |start.nodes| <= k < |nodes| ensures nodes[k].hash in index {
      StoredLater(nodes, |start.nodes|, k);
    }
    var i :| 0 <= i < |nodes| && nodes[i].hash == h;
    assert start.nodes[i].hash == h;
  }

  lemma StoredLater(nodes: seq<Node>, n: nat, i: nat)
    requires n <= i < |nodes|
    ensures nodes[i].hash in Ids(nodes)[n..]
  {
    assert Ids(nodes)[n..][i - n] == nodes[i].hash;
  }

  lemma NewIsListed(start: Durable, nodes: seq<Node>, pending: seq<Node>, index: map<Hash, nat>, seen: seq<Hash>, e: Node)
    requires Listed(start, nodes, pending, seen) && Learned(start, nodes, index)
    requires e.hash !in index && e.hash !in Ids(pending)
    ensures Listed(start, nodes, pending + [e], seen + [e.hash])
  {
    NewsAreListed(start, nodes, pending, seen);
    NewsNext(start.index, seen, e.hash);
    assert e.hash !in start.index && e.hash !in Ids(nodes)[|start.nodes|..];
    hide Learned, News, Ids;
    LongerPending(nodes, pending, e, Ids(start.nodes), News(start.index, seen));
  }

  lemma LongerPending(nodes: seq<Node>, pending: seq<Node>, e: Node, first: seq<Hash>, news: seq<Hash>)
    requires Ids(nodes) + Ids(pending) == first + news
    ensures Ids(nodes) + Ids(pending + [e]) == first + (news + [e.hash])
  {
    assert Ids(pending + [e]) == Ids(pending) + [e.hash];
    assert Ids(nodes) + (Ids(pending) + [e.hash]) == Ids(nodes) + Ids(pending) + [e.hash];
    assert first + (news + [e.hash]) == first + news + [e.hash];
  }

  lemma SameIdsListed(start: Durable, nodes: seq<Node>, pending: seq<Node>, nodes': seq<Node>, pending': seq<Node>,
                      seen: seq<Hash>)
    requires Listed(start, nodes, pending, seen) && Ids(nodes') == Ids(nodes) && Ids(pending') == Ids(pending)
    ensures Listed(start, nodes', pending', seen)
    ensures forall index :: Learned(start, nodes, index) ==> Learned(start, nodes', index)
  {
  }

  lemma CommittedIsListed(start: Durable, nodes: seq<Node>, pending: seq<Node>, seen: seq<Hash>)
    requires Listed(start, nodes, pending, seen)
    ensures Listed(start, nodes + Prepared(pending), [], seen)
  {
    assert Ids(nodes + Prepared(pending)) + Ids([]) == Ids(nodes) + Ids(pending);
  }

  // ---- Registering ------------------------------------------------------------------------------------------

  /** `after` keeps what `index` holds and points every new identity at the batch event it belongs to. */
  ghost predicate Extends(index: map<Hash, nat>, after: map<Hash, nat>, batch: seq<Node>, first: nat) {
    && (forall h :: h in index ==> h in after && after[h] == index[h])
    && (forall h :: h in after && h !in index ==> first <= after[h] < first + |batch| && batch[after[h] - first].hash == h)
  }

  ghost predicate Found(index: map<Hash, nat>, batch: seq<Node>) {
    forall i :: 0 <= i < |batch| ==> batch[i].hash in index
  }

  lemma RegisteringExtends(index: map<Hash, nat>, after: map<Hash, nat>, batch: seq<Node>, first: nat)
    requires batch != [] && Extends(index, after, batch[..|batch| - 1], first)
    ensures Extends(index, Registered(after, batch[|batch| - 1].hash, first + |batch| - 1), batch, first)
  {
  }

  lemma RegisteringFinds(after: map<Hash, nat>, batch: seq<Node>, id: nat)
    requires batch != [] && Found(after, batch[..|batch| - 1])
    ensures Found(Registered(after, batch[|batch| - 1].hash, id), batch)
  {
  }

  lemma {:induction false} RegisteredAllIsExact(index: map<Hash, nat>, batch: seq<Node>, first: nat)
    ensures Extends(index, RegisteredAll(index, batch, first), batch, first)
    ensures Found(RegisteredAll(index, batch, first), batch)
  {
    if batch != [] {
      hide Extends, Found;
      RegisteredAllIsExact(index, batch[..|batch| - 1], first);
      RegisteringExtends(index, RegisteredAll(index, batch[..|batch| - 1], first), batch, first);
      RegisteringFinds(RegisteredAll(index, batch[..|batch| - 1], first), batch, first + |batch| - 1);
    }
  }

  lemma RegisteredAt(index: map<Hash, nat>, batch: seq<Node>, first: nat, h: Hash)
    requires h in RegisteredAll(index, batch, first)
    ensures var id := RegisteredAll(index, batch, first)[h];
            if h in index then id == index[h] else first <= id < first + |batch| && batch[id - first].hash == h
  {
    hide RegisteredAll, Found;
    RegisteredAllIsExact(index, batch, first);
  }

  /** Registering a batch adds its identities to the index and no other. */
  lemma RegisteredIs(index: map<Hash, nat>, batch: seq<Node>, first: nat)
    ensures forall h :: h in RegisteredAll(index, batch, first) <==> h in index || h in Ids(batch)
  {
    RegisteredAllIsExact(index, batch, first);
    hide RegisteredAll;
    forall h | h in Ids(batch) ensures h in RegisteredAll(index, batch, first) {
      var i :| 0 <= i < |batch| && Ids(batch)[i] == h;
      assert batch[i].hash == h;
    }
    forall h | h in RegisteredAll(index, batch, first) && h !in index ensures h in Ids(batch) {
      assert Ids(batch)[RegisteredAll(index, batch, first)[h] - first] == h;
    }
  }

  lemma RegisteringLearns(start: Durable, nodes: seq<Node>, index: map<Hash, nat>, batch: seq<Node>)
    requires Learned(start, nodes, index)
    ensures Learned(start, nodes + Prepared(batch), RegisteredAll(index, batch, |nodes|))
  {
    RegisteredIs(index, batch, |nodes|);
    hide RegisteredAll;
    var all := nodes + Prepared(batch);
    assert Ids(all)[|start.nodes|..] == Ids(nodes)[|start.nodes|..] + Ids(batch);
  }

  // ---- When identities stay unique ------------------------------------------------------------------------

  /** The index knows every one of these identities that is on record. */
  ghost predicate Known(start: Durable, seen: seq<Hash>) {
    forall h :: h in seen && OnRecord(start.nodes, h) ==> h in start.index
  }

  /** A state a deduplicating run over these identities can leave on disk: the news of some first part of them. */
  ghost predicate Grown(start: Durable, d: Durable, all: seq<Hash>) {
    exists seen :: seen <= all && Listed(start, d.nodes, [], seen)
  }

  /** The stored events: those from the start, then the news. */
  lemma StoredAre(start: Durable, nodes: seq<Node>, seen: seq<Hash>)
    requires Listed(start, nodes, [], seen)
    ensures |nodes| == |start.nodes| + |News(start.index, seen)|
    ensures forall i :: 0 <= i < |start.nodes| ==> nodes[i].hash == start.nodes[i].hash
    ensures forall k :: 0 <= k < |News(start.index, seen)| ==> nodes[|start.nodes| + k].hash == News(start.index, seen)[k]
  {
    NewsAreListed(start, nodes, [], seen);
    assert Ids(nodes)[|start.nodes|..] == News(start.index, seen);
    hide News;
    forall k | 0 <= k < |News(start.index, seen)|
      ensures nodes[|start.nodes| + k].hash == News(start.index, seen)[k]
    {
      assert Ids(nodes)[|start.nodes|..][k] == Ids(nodes)[|start.nodes| + k];
    }
  }

  /** An identity on record that the index does not know is stored again when it is met. */
  lemma UnknownIsStoredAgain(start: Durable, nodes: seq<Node>, seen: seq<Hash>, h: Hash)
    requires Listed(start, nodes, [], seen) && h in seen && OnRecord(start.nodes, h) && h !in start.index
    ensures !Unique(nodes)
  {
    StoredAre(start, nodes, seen);
    NewsIs(start.index, seen);
    hide News, Listed;
    var i :| 0 <= i < |start.nodes| && start.nodes[i].hash == h;
    assert h in News(start.index, seen);
    var k :| 0 <= k < |News(start.index, seen)| && News(start.index, seen)[k] == h;
    assert nodes[i].hash == nodes[|start.nodes| + k].hash;
  }

  lemma KnownAreStoredOnce(start: Durable, nodes: seq<Node>, seen: seq<Hash>)
    requires Unique(start.nodes) && Listed(start, nodes, [], seen) && Known(start, seen)
    ensures Unique(nodes)
  {
    StoredAre(start, nodes, seen);
    NewsIs(start.index, seen);
    hide News, Listed;
    var n, news := |start.nodes|, News(start.index, seen);
    forall i, j | 0 <= i < j < |nodes| ensures nodes[i].hash != nodes[j].hash {
      assert j >= n ==> nodes[j].hash == news[j - n] && news[j - n] in news;
      assert i >= n ==> nodes[i].hash == news[i - n];
      assert i < n ==> start.nodes[i].hash == nodes[i].hash;
    }
  }

  /** From unique identities, what is stored is unique exactly when the index knew every stored identity met. */
  lemma UniqueIffKnown(start: Durable, nodes: seq<Node>, seen: seq<Hash>)
    requires Unique(start.nodes) && Listed(start, nodes, [], seen)
    ensures Unique(nodes) <==> Known(start, seen)
  {
    hide Listed, Unique, OnRecord;
    if h :| h in seen && OnRecord(start.nodes, h) && h !in start.index {
      UnknownIsStoredAgain(start, nodes, seen, h);
    } else {
      KnownAreStoredOnce(start, nodes, seen);
    }
  }

  lemma KnownPrefix(start: Durable, seen: seq<Hash>, all: seq<Hash>)
    requires seen <= all && Known(start, all)
    ensures Known(start, seen)
  {
  }

  lemma SoundIsKnown(d: Durable, seen: seq<Hash>)
    requires Sound(d.nodes, d.index)
    ensures Unique(d.nodes) && Known(d, seen)
  {
  }

  /** A sound record stays sound. */
  lemma StaysSound(start: Durable, nodes: seq<Node>, index: map<Hash, nat>, seen: seq<Hash>)
    requires Sound(start.nodes, start.index) && Listed(start, nodes, [], seen) && Learned(start, nodes, index)
    ensures Sound(nodes, index)
  {
    UniqueIffKnown(start, nodes, seen);
    NewsAreListed(start, nodes, [], seen);
    forall i | 0 <= i < |nodes| ensures nodes[i].hash in index {
      if i >= |start.nodes| {
        assert Ids(nodes)[|start.nodes|..][i - |start.nodes|] == nodes[i].hash;
      }
    }
  }

  /** A crash that leaves a new batch committed and only its first j events registered has harmed nothing yet: stored
      identities are unique. A deduplicating run over what is on disk then keeps them so exactly when it meets none of
      the events that were not registered. */
  lemma CrashWhileRegistering(d: Durable, batch: seq<Node>, j: nat, heard: seq<Hash>)
    requires Sound(d.nodes, d.index) && j <= |batch| && Unique(batch)
    requires forall h :: h in Ids(batch) ==> h !in d.index
    ensures Unique(Partly(d, batch, j).nodes)
    ensures Known(Partly(d, batch, j), heard) <==> forall h :: h in Ids(batch[j..]) ==> h !in heard
  {
    var e := Partly(d, batch, j);
    InIds(d.nodes);
    InIds(batch);
    InIds(e.nodes);
    SoundIds(d.nodes, d.index);
    PartlyIds(d, batch, j);
    hide Partly, Sound, Unique, OnRecord, Ids;
    TakenApart(Ids(d.nodes), Ids(batch), j, d.index.Keys);
    assert forall h :: OnRecord(e.nodes, h) && h !in e.index <==> h in Ids(batch[j..]);
  }

  ghost predicate NoTwice(s: seq<Hash>) {
    forall i, j :: 0 <= i < j < |s| ==> s[i] != s[j]
  }

  lemma InIds(nodes: seq<Node>)
    ensures Unique(nodes) <==> NoTwice(Ids(nodes))
    ensures forall h :: OnRecord(nodes, h) <==> h in Ids(nodes)
  {
    forall h | OnRecord(nodes, h) ensures h in Ids(nodes) {
      var i :| 0 <= i < |nodes| && nodes[i].hash == h;
      assert Ids(nodes)[i] == h;
    }
  }

  lemma SoundIds(nodes: seq<Node>, index: map<Hash, nat>)
    requires Sound(nodes, index)
    ensures Unique(nodes) && forall h :: h in Ids(nodes) ==> h in index
  {
    forall h | h in Ids(nodes) ensures h in index {
      var i :| 0 <= i < |nodes| && Ids(nodes)[i] == h;
      assert nodes[i].hash == h;
    }
  }

  lemma PartlyIds(d: Durable, batch: seq<Node>, j: nat)
    requires j <= |batch|
    ensures var e := Partly(d, batch, j);
            && Ids(e.nodes) == Ids(d.nodes) + Ids(batch)
            && (forall h :: h in e.index <==> h in d.index || h in Ids(batch)[..j])
            && Ids(batch[j..]) == Ids(batch)[j..]
  {
    RegisteredIs(d.index, batch[..j], |d.nodes|);
    assert Ids(batch[..j]) == Ids(batch)[..j];
    IdsOfBoth(d.nodes, Prepared(batch));
    assert Ids(Prepared(batch)) == Ids(batch);
  }

  /** Two lists, the first known and the second not: what is known of both without the second's tail. */
  lemma TakenApart(a: seq<Hash>, b: seq<Hash>, j: nat, known: set<Hash>)
    requires NoTwice(a) && NoTwice(b) && j <= |b|
    requires (forall h :: h in a ==> h in known) && forall h :: h in b ==> h !in known
    ensures NoTwice(a + b)
    ensures forall h :: h in a + b && h !in known && h !in b[..j] <==> h in b[j..]
  {
    forall i, k | 0 <= i < k < |a + b| ensures (a + b)[i] != (a + b)[k] {
      if i < |a| <= k {
        assert a[i] in a && b[k - |a|] in b;
      }
    }
    forall h ensures h in a + b && h !in known && h !in b[..j] <==> h in b[j..] {
      assert b == b[..j] + b[j..];
      if h in b[j..] {
        var k :| j <= k < |b| && b[k] == h;
        assert forall i :: 0 <= i < j ==> b[..j][i] == b[i];
      }
    }
  }
}
