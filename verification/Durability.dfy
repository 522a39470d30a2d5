/** What survives a crash, and the few steps that change it. */
module Durability {
  import opened Identity
  import opened Ledger

  /** Everything on disk: the event nodes by id, the index from an identity to the node first registered for it,
      and the bookmark document. */
  datatype Durable = Durable(nodes: seq<Node>, index: map<Hash, nat>, marks: map<string, nat>)

  function Mark(marks: map<string, nat>, channel: string): nat {
    if channel in marks then marks[channel] else 0
  }

  /** Registering an identity that is already there leaves the first node in front. */
  function Registered(index: map<Hash, nat>, h: Hash, id: nat): map<Hash, nat> {
    if h in index then index else index[h := id]
  }

  function RegisteredAll(index: map<Hash, nat>, batch: seq<Node>, first: nat): map<Hash, nat> {
    if batch == [] then index
    else
      var n := |batch| - 1;
      Registered(RegisteredAll(index, batch[..n], first), batch[n].hash, first + n)
  }

  /** The disk. Each of its methods is one durable step, and `trace` lists every state a crash can leave. */
  class Disk {
    var nodes: seq<Node>
    var index: map<Hash, nat>
    var marks: map<string, nat>
    ghost var trace: seq<Durable>
    /** No access fails. */
    const reliable: bool

    ghost function Now(): Durable
      reads this
    {
      Durable(nodes, index, marks)
    }

    ghost predicate Valid()
      reads this
    {
      trace != [] && trace[|trace| - 1] == Now()
    }

    constructor (d: Durable, reliable: bool)
      ensures Now() == d && trace == [d] && Valid() && this.reliable == reliable
    {
      nodes, index, marks, trace, this.reliable := d.nodes, d.index, d.marks, [d], reliable;
    }

    method Commit(batch: seq<Node>)
      requires Valid()
      modifies this
      ensures Valid() && trace == old(trace) + [Now()]
      ensures Now() == old(Now()).(nodes := old(nodes) + batch)
    {
      nodes := nodes + batch;
      trace := trace + [Now()];
    }

    method Register(h: Hash, id: nat)
      requires Valid()
      modifies this
      ensures Valid() && trace == old(trace) + [Now()]
      ensures Now() == old(Now()).(index := Registered(old(index), h, id))
    {
      if h !in index {
        index := index[h := id];
      }
      trace := trace + [Now()];
    }

    method Rewrite(updated: seq<Node>)
      requires Valid()
      modifies this
      ensures Valid() && trace == old(trace) + [Now()] && Now() == old(Now()).(nodes := updated)
    {
      nodes := updated;
      trace := trace + [Now()];
    }

    method WriteMarks(document: map<string, nat>)
      requires Valid()
      modifies this
      ensures Valid() && trace == old(trace) + [Now()] && Now() == old(Now()).(marks := document)
    {
      marks := document;
      trace := trace + [Now()];
    }
  }

  /** A batch has been committed, and its first j events are registered. */
  function Partly(d: Durable, batch: seq<Node>, j: nat): Durable
    requires j <= |batch|
  {
    Durable(d.nodes + Prepared(batch), RegisteredAll(d.index, batch[..j], |d.nodes|), d.marks)
  }

  /** From position k on a trace shows a batch committed to d and its events being registered one by one. */
  ghost predicate OnlyIndexing(trace: seq<Durable>, k: nat, d: Durable, batch: seq<Node>) {
    forall i :: k <= i < |trace| ==> i - k <= |batch| && trace[i] == Partly(d, batch, i - k)
  }

  lemma NothingYet(trace: seq<Durable>, d: Durable, batch: seq<Node>)
    ensures OnlyIndexing(trace, |trace|, d, batch)
  {
  }

  lemma OneMoreIndexed(trace: seq<Durable>, k: nat, d: Durable, batch: seq<Node>, e: Durable)
    requires OnlyIndexing(trace, k, d, batch) && k <= |trace| <= k + |batch| && e == Partly(d, batch, |trace| - k)
    ensures OnlyIndexing(trace + [e], k, d, batch)
  {
    hide Partly;
  }

  /** Nothing happened on disk, or the bookmark document was written. */
  ghost predicate Marked(trace: seq<Durable>, was: Durable, trace': seq<Durable>, now: Durable, marks: map<string, nat>) {
    (trace' == trace && now == was) || (trace' == trace + [now] && now == was.(marks := marks))
  }

  /** The event half of the store. */
  class EventStore {
    const disk: Disk

    constructor (disk: Disk)
      ensures this.disk == disk
    {
      this.disk := disk;
    }

    /** Writes a batch as one commit, then registers its events one by one: registration is not part of a commit.
        Any step may fail, and the steps before it stay. */
    method InsertEvents(batch: seq<Node>) returns (ok: bool)
      requires disk.Valid()
      modifies disk
      ensures disk.Valid() && old(disk.trace) <= disk.trace && disk.marks == old(disk.marks)
      ensures OnlyIndexing(disk.trace, |old(disk.trace)|, old(disk.Now()), batch)
      ensures disk.reliable ==> ok
      ensures ok ==> disk.nodes == old(disk.nodes) + Prepared(batch)
                     && disk.index == RegisteredAll(old(disk.index), batch, |old(disk.nodes)|)
    {
      if |batch| == 0 {
        assert Prepared(batch) == [];
        return true;
      }
      var fails: bool := *;
      if fails && !disk.reliable {
        return false;
      }
      hide OnlyIndexing;
      ghost var d := disk.Now();
      var first := |disk.nodes|;
      NothingYet(disk.trace, d, batch);
      OneMoreIndexed(disk.trace, |disk.trace|, d, batch, d.(nodes := d.nodes + Prepared(batch)));
      disk.Commit(Prepared(batch));
      for i := 0 to |batch|
        invariant disk.Valid() && old(disk.trace) <= disk.trace && |disk.trace| == |old(disk.trace)| + i + 1
        invariant disk.Now() == Partly(d, batch, i)
        invariant OnlyIndexing(disk.trace, |old(disk.trace)|, d, batch)
      {
        fails := *;
        if fails && !disk.reliable {
          return false;
        }
        ghost var trace := disk.trace;
        disk.Register(batch[i].hash, first + i);
        assert batch[..i + 1][..i] == batch[..i];
        OneMoreIndexed(trace, |old(disk.trace)|, d, batch, disk.Now());
      }
      assert batch[..|batch|] == batch;
      ok := true;
    }

    /** Finds the node an identity was first registered for. */
    method FindEventIDByHash(h: Hash) returns (ok: bool, found: bool, id: nat)
      ensures ok ==> found == (h in disk.index) && (found ==> id == disk.index[h])
      ensures disk.reliable ==> ok
    {
      ok, found, id := true, false, 0;
      var fails: bool := *;
      if fails && !disk.reliable {
        ok := false;
      } else if h in disk.index {
        found, id := true, disk.index[h];
      }
    }

    /** Adds the increments to their events in one commit. */
    method IncrementDedupCounts(inc: map<nat, nat>, source: string) returns (ok: bool)
      requires disk.Valid()
      modifies disk
      ensures disk.Valid()
      ensures ok && inc != map[] ==>
                disk.trace == old(disk.trace) + [disk.Now()] &&
                disk.Now() == old(disk.Now()).(nodes := Applied(old(disk.nodes), inc, source))
      ensures !ok || inc == map[] ==> disk.trace == old(disk.trace) && disk.Now() == old(disk.Now())
      ensures disk.reliable ==> ok
    {
      if |inc| == 0 {
        return true;
      }
      var fails: bool := *;
      if fails && !disk.reliable {
        return false;
      }
      disk.Rewrite(Applied(disk.nodes, inc, source));
      ok := true;
    }
  }

  /** The bookmark half: positions in memory, and the document they are written to as a whole. */
  class Bookmarks {
    const disk: Disk
    var pos: map<string, nat>
    /** Some position could not be written. */
    ghost var failed: bool

    constructor (disk: Disk)
      ensures this.disk == disk && pos == disk.marks && !failed
    {
      this.disk := disk;
      pos := disk.marks;
      failed := false;
    }

    function Position(channel: string): nat
      reads this
    {
      Mark(pos, channel)
    }

    /** Moves a channel forward, never back, and writes the document. When writing fails the position in memory
        has moved all the same. So the same position handed over again is not written, and success is reported: then
        the document holds the position exactly when it did before. */
    method SetPosition(channel: string, recordId: nat) returns (ok: bool)
      requires disk.Valid()
      modifies this, disk
      ensures disk.Valid()
      ensures forall c :: Mark(pos, c) == if c == channel && recordId > Mark(old(pos), c) then recordId else Mark(old(pos), c)
      ensures Marked(old(disk.trace), old(disk.Now()), disk.trace, disk.Now(), pos)
      ensures disk.reliable ==> ok
      ensures failed == (old(failed) || !ok) && (recordId <= Mark(old(pos), channel) ==> pos == old(pos))
      ensures ok && recordId > Mark(old(pos), channel) ==> disk.marks == pos
      ensures !ok || recordId <= Mark(old(pos), channel) ==> disk.trace == old(disk.trace)
      ensures ok ==> (Mark(disk.marks, channel) >= recordId <==>
                      recordId > Mark(old(pos), channel) || Mark(old(disk.marks), channel) >= recordId)
    {
      ok := true;
      if recordId <= Position(channel) {
        return;
      }
      pos := pos[channel := recordId];
      var fails: bool := *;
      if fails && !disk.reliable {
        ok, failed := false, true;
      } else {
        disk.WriteMarks(pos);
      }
    }
  }
}
