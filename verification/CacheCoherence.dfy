/** Writers, readers and dataset readers over one store, interleaved in any way. */
module CacheCoherence {
  import opened OrderCache

  /** One commit of a writer. A write may take several before it bumps the version and returns. */
  type Part = nat

  /** What a scan returned: for which filter, and the commits it reflects. */
  datatype Scan = Scan(key: string, saw: set<Part>)

  /** A dataset: the scan it was made from, and the requirements it was prepared for. */
  datatype Dataset = Dataset(scan: Scan, prepared: string)

  /** A read of the ordered ids. `must` is every commit whose write had returned when the read began. */
  datatype Reader =
    | Begun(key: string, must: set<Part>)
    | Missed(key: string, must: set<Part>)
    | Versioned(key: string, must: set<Part>, version: nat)
    | Scanning(key: string, must: set<Part>, version: nat, low: set<Part>)
    | Scanned(key: string, must: set<Part>, version: nat, result: Scan)
    | Served(key: string, must: set<Part>, result: Scan)

  /** A request for a prepared dataset: it reads the version, takes the lock, and on a miss runs a query. */
  datatype Getter =
    | Asked(key: string, need: string, must: set<Part>)
    | Stamped(key: string, need: string, must: set<Part>, version: nat)
    | Querying(key: string, need: string, must: set<Part>, version: nat, query: Reader)
    | Given(key: string, need: string, must: set<Part>, dataset: Dataset)

  datatype Client = Reading(reader: Reader) | Getting(getter: Getter)

  /** The one dataset held: for which filter and requirements, and at which version. */
  datatype Held = Nothing | Held(key: string, need: string, version: nat, dataset: Dataset)

  datatype System = System(committed: set<Part>, bumped: set<Part>, order: Order<Scan>, held: Held,
                           locked: bool, clients: map<nat, Client>)

  datatype Action =
    | Commit(part: Part)
    | Bump(parts: set<Part>)
    | StartRead(id: nat, key: string)
    | StartGet(id: nat, key: string, need: string)
    | Advance(id: nat, saw: set<Part>)
    | Invalidate

  const NO_SCAN := Scan("", {})

  function Initial(): System {
    System({}, {}, Order(0, "", NO_SCAN, false), Nothing, false, map[])
  }

  // ---- Steps -----------------------------------------------------------------------------------------

  datatype Moved = Moved(reader: Reader, order: Order<Scan>)

  /** The next step of a read. A scan reflects every commit that came before it started, and any others that came
      before it ended. */
  function ReaderStep(s: System, r: Reader, saw: set<Part>): Moved {
    match r
    case Begun(key, must) =>
      (match s.order.Found(key)
       case Hit(ids) => Moved(Served(key, must, ids), s.order)
       case Miss => Moved(Missed(key, must), s.order))
    case Missed(key, must) => Moved(Versioned(key, must, s.order.version), s.order)
    case Versioned(key, must, version) => Moved(Scanning(key, must, version, s.committed), s.order)
    case Scanning(key, must, version, low) =>
      if low <= saw <= s.committed then Moved(Scanned(key, must, version, Scan(key, saw)), s.order) else Moved(r, s.order)
    case Scanned(key, must, version, result) =>
      Moved(Served(key, must, result), s.order.Stored(key, version, result))
    case Served(_, _, _) => Moved(r, s.order)
  }

  function GetterStep(s: System, id: nat, g: Getter, saw: set<Part>): System {
    match g
    case Asked(key, need, must) =>
      s.(clients := s.clients[id := Getting(Stamped(key, need, must, s.order.version))])
    case Stamped(key, need, must, version) =>
      if s.locked then s
      else if s.held.Held? && s.held.key == key && s.held.need == need && s.held.version == version then
        s.(clients := s.clients[id := Getting(Given(key, need, must, s.held.dataset))])
      else
        s.(locked := true, clients := s.clients[id := Getting(Querying(key, need, must, version, Begun(key, s.bumped)))])
    case Querying(key, need, must, version, query) =>
      if query.Served? then
        var dataset := Dataset(query.result, need);
        s.(locked := false,
           held := if s.order.version == version then Held(key, need, version, dataset) else s.held,
           clients := s.clients[id := Getting(Given(key, need, must, dataset))])
      else
        var m := ReaderStep(s, query, saw);
        s.(order := m.order, clients := s.clients[id := Getting(Querying(key, need, must, version, m.reader))])
    case Given(_, _, _, _) => s
  }

  /** One step of the whole system. A step that is not possible leaves it as it is. */
  function Next(s: System, a: Action): System {
    match a
    case Commit(part) => s.(committed := s.committed + {part})
    case Bump(parts) =>
      if parts <= s.committed then s.(bumped := s.bumped + parts, order := s.order.Bumped(NO_SCAN)) else s
    case StartRead(id, key) =>
      if id in s.clients then s else s.(clients := s.clients[id := Reading(Begun(key, s.bumped))])
    case StartGet(id, key, need) =>
      if id in s.clients then s else s.(clients := s.clients[id := Getting(Asked(key, need, s.bumped))])
    case Advance(id, saw) =>
      if id !in s.clients then s
      else
        (match s.clients[id]
         case Reading(r) =>
           var m := ReaderStep(s, r, saw);
           s.(order := m.order, clients := s.clients[id := Reading(m.reader)])
         case Getting(g) => GetterStep(s, id, g, saw))
    case Invalidate => if s.locked then s else s.(held := Nothing)
  }

  function Run(actions: seq<Action>): System {
    if actions == [] then Initial() else Next(Run(actions[..|actions| - 1]), actions[|actions| - 1])
  }

  // ---- What every schedule keeps ------------------------------------------------------------------------

  /** What had been bumped when the version counter stood at each value. */
  ghost function History(actions: seq<Action>): seq<set<Part>> {
    if actions == [] then [{}]
    else
      var before := History(actions[..|actions| - 1]);
      var s := Run(actions);
      if s.order.version == Run(actions[..|actions| - 1]).order.version then before else before + [s.bumped]
  }

  ghost predicate Chronicle(h: seq<set<Part>>, s: System) {
    && |h| == s.order.version + 1 && h[s.order.version] == s.bumped && s.bumped <= s.committed
    && forall v :: 0 <= v < |h| ==> h[v] <= s.bumped
  }

  /** A scan good for everything that was bumped by version v. */
  ghost predicate Reflects(h: seq<set<Part>>, s: System, v: nat, key: string, scan: Scan) {
    v < |h| && scan.key == key && h[v] <= scan.saw <= s.committed
  }

  ghost predicate OrderFresh(h: seq<set<Part>>, s: System) {
    s.order.valid ==> Reflects(h, s, s.order.version, s.order.key, s.order.ids)
  }

  ghost predicate HeldFresh(h: seq<set<Part>>, s: System) {
    s.held.Held? ==> Reflects(h, s, s.held.version, s.held.key, s.held.dataset.scan) && s.held.dataset.prepared == s.held.need
  }

  ghost predicate ReaderFresh(h: seq<set<Part>>, s: System, r: Reader) {
    match r
    case Begun(_, must) => must <= s.bumped
    case Missed(_, must) => must <= s.bumped
    case Versioned(_, must, v) => v < |h| && must <= h[v]
    case Scanning(_, must, v, low) => v < |h| && must <= h[v] <= low && low <= s.committed
    case Scanned(key, must, v, result) => Reflects(h, s, v, key, result) && must <= h[v]
    case Served(key, must, result) => result.key == key && must <= result.saw <= s.committed
  }

  ghost predicate GetterFresh(h: seq<set<Part>>, s: System, g: Getter) {
    match g
    case Asked(_, _, must) => must <= s.bumped
    case Stamped(_, _, must, v) => v < |h| && must <= h[v]
    case Querying(key, _, must, v, query) =>
      v < |h| && must <= h[v] <= query.must && query.key == key && ReaderFresh(h, s, query)
    case Given(key, need, must, dataset) =>
      dataset.scan.key == key && dataset.prepared == need && must <= dataset.scan.saw <= s.committed
  }

  ghost predicate ClientFresh(h: seq<set<Part>>, s: System, c: Client) {
    match c
    case Reading(r) => ReaderFresh(h, s, r)
    case Getting(g) => GetterFresh(h, s, g)
  }

  ghost predicate Coherent(h: seq<set<Part>>, s: System) {
    && Chronicle(h, s) && OrderFresh(h, s) && HeldFresh(h, s)
    && forall id :: id in s.clients ==> ClientFresh(h, s, s.clients[id])
  }

  /** What holds of a client goes on holding while others commit and bump. */
  lemma ClientStaysFresh(h: seq<set<Part>>, s: System, h': seq<set<Part>>, s': System, c: Client)
    requires ClientFresh(h, s, c) && h <= h' && s.bumped <= s'.bumped && s.committed <= s'.committed
    ensures ClientFresh(h', s', c)
  {
  }

  lemma ReaderStaysFresh(h: seq<set<Part>>, s: System, r: Reader, saw: set<Part>)
    requires Chronicle(h, s) && OrderFresh(h, s) && ReaderFresh(h, s, r)
    ensures var m := ReaderStep(s, r, saw);
            && m.order.version == s.order.version && m.reader.must == r.must && m.reader.key == r.key
            && ReaderFresh(h, s.(order := m.order), m.reader) && OrderFresh(h, s.(order := m.order))
  {
  }

  lemma OneClient(h: seq<set<Part>>, s: System, s': System, id: nat)
    requires forall i :: i in s.clients ==> ClientFresh(h, s, s.clients[i])
    requires s'.bumped == s.bumped && s'.committed == s.committed
    requires id in s'.clients && s'.clients == s.clients[id := s'.clients[id]] && ClientFresh(h, s', s'.clients[id])
    ensures forall i :: i in s'.clients ==> ClientFresh(h, s', s'.clients[i])
  {
  }

  lemma GetterKeepsCoherent(h: seq<set<Part>>, s: System, id: nat, g: Getter, saw: set<Part>)
    requires Coherent(h, s) && id in s.clients && s.clients[id] == Getting(g)
    ensures Coherent(h, GetterStep(s, id, g, saw)) && GetterStep(s, id, g, saw).order.version == s.order.version
  {
    var s' := GetterStep(s, id, g, saw);
    assert GetterFresh(h, s, g) by {
      assert ClientFresh(h, s, s.clients[id]);
    }
    if g.Querying? && !g.query.Served? {
      ReaderStaysFresh(h, s, g.query, saw);
    }
    assert GetterFresh(h, s', s'.clients[id].getter);
    OneClient(h, s, s', id);
  }

  lemma StepKeepsCoherent(h: seq<set<Part>>, s: System, a: Action)
    requires Coherent(h, s)
    ensures var s' := Next(s, a);
            Coherent(if s'.order.version == s.order.version then h else h + [s'.bumped], s')
  {
    var s' := Next(s, a);
    match a
    case Commit(part) =>
      forall i | i in s.clients ensures ClientFresh(h, s', s.clients[i]) {
        ClientStaysFresh(h, s, h, s', s.clients[i]);
      }
    case Bump(parts) =>
      if parts <= s.committed {
        var h' := h + [s'.bumped];
        forall i | i in s.clients ensures ClientFresh(h', s', s.clients[i]) {
          ClientStaysFresh(h, s, h', s', s.clients[i]);
        }
      }
    case StartRead(id, key) =>
      if id !in s.clients {
        OneClient(h, s, s', id);
      }
    case StartGet(id, key, need) =>
      if id !in s.clients {
        OneClient(h, s, s', id);
      }
    case Advance(id, saw) =>
      if id in s.clients {
        match s.clients[id]
        case Reading(r) =>
          assert ClientFresh(h, s, s.clients[id]);
          ReaderStaysFresh(h, s, r, saw);
          OneClient(h, s, s', id);
        case Getting(g) =>
          GetterKeepsCoherent(h, s, id, g, saw);
      }
    case Invalidate =>
      forall i | i in s.clients ensures ClientFresh(h, s', s.clients[i]) {
        ClientStaysFresh(h, s, h, s', s.clients[i]);
      }
  }

  lemma {:induction false} AlwaysCoherent(actions: seq<Action>)
    ensures Coherent(History(actions), Run(actions))
  {
    if actions != [] {
      var before := actions[..|actions| - 1];
      AlwaysCoherent(before);
      StepKeepsCoherent(History(before), Run(before), actions[|actions| - 1]);
    }
  }

  // ---- What was asked ------------------------------------------------------------------------------------

  /** What a client asked: for which filter and requirements, and what had been written when it began. A read has no
      requirements. */
  datatype Question = Question(key: string, need: string, must: set<Part>)

  function QuestionOf(c: Client): Question {
    match c
    case Reading(r) => Question(r.key, "", r.must)
    case Getting(g) => Question(g.key, g.need, g.must)
  }

  lemma QuestionStays(s: System, a: Action, id: nat)
    requires id in s.clients
    ensures id in Next(s, a).clients && QuestionOf(Next(s, a).clients[id]) == QuestionOf(s.clients[id])
    ensures Next(s, a).clients[id].Reading? == s.clients[id].Reading?
  {
  }

  /** The client that action i starts still asks the same at the end. */
  lemma {:induction false} QuestionFromStart(actions: seq<Action>, i: nat, id: nat)
    requires i < |actions| && id !in Run(actions[..i]).clients
    requires (actions[i].StartRead? || actions[i].StartGet?) && actions[i].id == id
    ensures var s, a := Run(actions), actions[i];
            && id in s.clients && s.clients[id].Reading? == a.StartRead?
            && QuestionOf(s.clients[id]) ==
                 Question(a.key, if a.StartGet? then a.need else "", Run(actions[..i]).bumped)
  {
    var n := |actions| - 1;
    var before := actions[..n];
    if i < n {
      assert before[..i] == actions[..i] && before[i] == actions[i];
      QuestionFromStart(before, i, id);
      QuestionStays(Run(before), actions[n], id);
    }
  }

  /** If the read is over, its result is a scan for this filter, of all that had been written when it began, in state b, and
      of nothing that has not been committed. */
  ghost predicate ReadIsCurrent(b: System, s: System, key: string, c: Client) {
    c.Reading? && (c.reader.Served? ==> c.reader.result.key == key && b.bumped <= c.reader.result.saw <= s.committed)
  }

  /** If the request is over, what it was given was made from such a scan, for these requirements. */
  ghost predicate GetIsCurrent(b: System, s: System, key: string, need: string, c: Client) {
    c.Getting? &&
    (c.getter.Given? ==>
       var dataset := c.getter.dataset;
       dataset.scan.key == key && dataset.prepared == need && b.bumped <= dataset.scan.saw <= s.committed)
  }

  /** Whatever is served to a request that action i began, from either cache or from a scan, was scanned for the filter it
      named, was prepared for the requirements it named, reflects every write that had returned before it began, and
      nothing that was not committed. */
  lemma ServedIsCurrent(actions: seq<Action>, i: nat, id: nat)
    requires i < |actions| && id !in Run(actions[..i]).clients
    ensures actions[i].StartRead? && actions[i].id == id ==>
              id in Run(actions).clients &&
              ReadIsCurrent(Run(actions[..i]), Run(actions), actions[i].key, Run(actions).clients[id])
    ensures actions[i].StartGet? && actions[i].id == id ==>
              id in Run(actions).clients &&
              GetIsCurrent(Run(actions[..i]), Run(actions), actions[i].key, actions[i].need, Run(actions).clients[id])
  {
    if (actions[i].StartRead? || actions[i].StartGet?) && actions[i].id == id {
      QuestionFromStart(actions, i, id);
      AlwaysCoherent(actions);
      hide Run, History;
      assert ClientFresh(History(actions), Run(actions), Run(actions).clients[id]);
    }
  }

  /** The dataset of a request during which nothing was written is given, without another query, to the next one that
      names the same filter and requirements. */
  lemma HeldIsUsed(s: System, a: nat, b: nat, saw: set<Part>)
    requires a in s.clients && b in s.clients && a != b && s.clients[a].Getting? && s.clients[b].Getting?
    requires var g, f := s.clients[a].getter, s.clients[b].getter;
             && g.Querying? && g.query.Served? && g.version == s.order.version
             && f == Stamped(g.key, g.need, f.must, s.order.version)
    ensures var t := Next(Next(s, Advance(a, saw)), Advance(b, saw));
            && t.clients[a].getter.Given? && t.clients[b].getter.Given?
            && t.clients[b].getter.dataset == t.clients[a].getter.dataset && !t.locked
  {
  }

  /** A write is behind every request that begins after it: what a bump covers has been committed, and stays covered. */
  lemma {:induction false} BumpedStays(actions: seq<Action>, i: nat, j: nat)
    requires i < j <= |actions| && actions[i].Bump? && actions[i].parts <= Run(actions[..i]).committed
    ensures actions[i].parts <= Run(actions[..j]).bumped
  {
    var front := actions[..j];
    assert front[..j - 1] == actions[..j - 1];
    if i < j - 1 {
      BumpedStays(actions, i, j - 1);
    }
  }

  /** While no write is under way both caches hold exactly what a scan would find now. */
  lemma QuietCachesAgreeWithAScan(actions: seq<Action>)
    requires Run(actions).bumped == Run(actions).committed
    ensures var s := Run(actions);
            && (s.order.valid ==> s.order.ids == Scan(s.order.key, s.committed))
            && (s.held.Held? && s.held.version == s.order.version ==> s.held.dataset == Dataset(Scan(s.held.key, s.committed), s.held.need))
  {
    AlwaysCoherent(actions);
  }
}
