/** Connected components of a graph: named, sorted and independent of any iteration order. */
module Clusters {
  import opened DisjointSets
  import opened GraphEdges
  import opened Sorting

  datatype Cluster = Cluster(id: string, caption: string, nodeIDs: seq<nat>, size: nat)

  // ---- Connection, independently of union-find -------------------------------------------------

  ghost predicate Usable(present: set<nat>, r: Link) {
    r.Link? && r.source in present && r.target in present
  }

  /** Some relation with both ends present joins a and b, in either direction. */
  ghost predicate Joined(present: set<nat>, rels: seq<Link>, a: nat, b: nat) {
    exists i :: 0 <= i < |rels| && Usable(present, rels[i]) && (rels[i] == Link(a, b) || rels[i] == Link(b, a))
  }

  ghost predicate Path(present: set<nat>, rels: seq<Link>, p: seq<nat>, a: nat, b: nat) {
    && p != [] && p[0] == a && p[|p| - 1] == b
    && forall k :: 0 <= k < |p| - 1 ==> Joined(present, rels, p[k], p[k + 1])
  }

  ghost predicate Connected(present: set<nat>, rels: seq<Link>, a: nat, b: nat) {
    exists p :: Path(present, rels, p, a, b)
  }

  lemma ConnectedSelf(present: set<nat>, rels: seq<Link>, a: nat)
    ensures Connected(present, rels, a, a)
  {
    assert Path(present, rels, [a], a, a);
  }

  lemma ConnectedOnward(present: set<nat>, rels: seq<Link>, a: nat, b: nat, c: nat)
    requires Connected(present, rels, a, b) && Connected(present, rels, b, c)
    ensures Connected(present, rels, a, c)
  {
    var p :| Path(present, rels, p, a, b);
    var q :| Path(present, rels, q, b, c);
    var r := p + q[1..];
    forall k | 0 <= k < |r| - 1 ensures Joined(present, rels, r[k], r[k + 1]) {
      if k >= |p| - 1 {
        assert r[k] == q[k - (|p| - 1)] && r[k + 1] == q[k + 1 - (|p| - 1)];
      }
    }
    assert Path(present, rels, r, a, c);
  }

  lemma ConnectedGrows(present: set<nat>, rels: seq<Link>, more: seq<Link>, a: nat, b: nat)
    requires rels <= more && Connected(present, rels, a, b)
    ensures Connected(present, more, a, b)
  {
    var p :| Path(present, rels, p, a, b);
    forall k | 0 <= k < |p| - 1 ensures Joined(present, more, p[k], p[k + 1]) {
      assert Joined(present, rels, p[k], p[k + 1]);
      var i :| 0 <= i < |rels| && Usable(present, rels[i]) && (rels[i] == Link(p[k], p[k + 1]) || rels[i] == Link(p[k + 1], p[k]));
      assert more[i] == rels[i];
    }
    assert Path(present, more, p, a, b);
  }

  lemma ConnectedByLink(present: set<nat>, rels: seq<Link>, i: nat)
    requires i < |rels| && Usable(present, rels[i])
    ensures Connected(present, rels, rels[i].source, rels[i].target)
    ensures Connected(present, rels, rels[i].target, rels[i].source)
  {
    var a, b := rels[i].source, rels[i].target;
    assert Joined(present, rels, a, b) && Joined(present, rels, b, a);
    assert Path(present, rels, [a, b], a, b) && Path(present, rels, [b, a], b, a);
  }

  // ---- What the union loop keeps ---------------------------------------------------------------

  /** Every relation processed so far has both ends under one root. */
  ghost predicate Absorbed(present: set<nat>, rels: seq<Link>, root: map<nat, nat>) {
    forall i :: 0 <= i < |rels| && Usable(present, rels[i]) && rels[i].source in root && rels[i].target in root ==>
      root[rels[i].source] == root[rels[i].target]
  }

  /** Nodes under one root are connected. */
  ghost predicate Justified(present: set<nat>, rels: seq<Link>, root: map<nat, nat>) {
    forall a, b :: a in root && b in root && root[a] == root[b] ==> Connected(present, rels, a, b)
  }

  lemma {:induction false} PathSharesRoot(present: set<nat>, rels: seq<Link>, root: map<nat, nat>, p: seq<nat>, a: nat, b: nat)
    requires root.Keys == present && Absorbed(present, rels, root) && Path(present, rels, p, a, b) && a in present
    ensures b in present && root[a] == root[b]
    decreases |p|
  {
    if |p| > 1 {
      assert Joined(present, rels, p[0], p[1]);
      assert Path(present, rels, p[1..], p[1], b) by {
        forall k | 0 <= k < |p[1..]| - 1 ensures Joined(present, rels, p[1..][k], p[1..][k + 1]) {
          assert Joined(present, rels, p[k + 1], p[k + 2]);
        }
      }
      PathSharesRoot(present, rels, root, p[1..], p[1], b);
    }
  }

  lemma RootsMeanConnection(present: set<nat>, rels: seq<Link>, root: map<nat, nat>, a: nat, b: nat)
    requires root.Keys == present && Absorbed(present, rels, root) && Justified(present, rels, root)
    requires a in present && b in present
    ensures root[a] == root[b] <==> Connected(present, rels, a, b)
  {
    if Connected(present, rels, a, b) {
      var p :| Path(present, rels, p, a, b);
      PathSharesRoot(present, rels, root, p, a, b);
    }
  }

  lemma SkipLink(present: set<nat>, rels: seq<Link>, i: nat, root: map<nat, nat>)
    requires i < |rels| && !Usable(present, rels[i])
    requires Absorbed(present, rels[..i], root) && Justified(present, rels[..i], root)
    ensures Absorbed(present, rels[..i + 1], root) && Justified(present, rels[..i + 1], root)
  {
    forall a, b | a in root && b in root && root[a] == root[b] ensures Connected(present, rels[..i + 1], a, b) {
      ConnectedGrows(present, rels[..i], rels[..i + 1], a, b);
    }
  }

  lemma UnionAbsorbs(present: set<nat>, rels: seq<Link>, i: nat, before: map<nat, nat>, after: map<nat, nat>)
    requires i < |rels| && Usable(present, rels[i]) && before.Keys == after.Keys == present
    requires Absorbed(present, rels[..i], before) && Merges(before, after, rels[i].source, rels[i].target)
    ensures Absorbed(present, rels[..i + 1], after)
  {
  }

  lemma UnionJustifies(present: set<nat>, rels: seq<Link>, i: nat, before: map<nat, nat>, after: map<nat, nat>)
    requires i < |rels| && Usable(present, rels[i]) && before.Keys == after.Keys == present
    requires Justified(present, rels[..i], before) && Merges(before, after, rels[i].source, rels[i].target)
    ensures Justified(present, rels[..i + 1], after)
  {
    var u, v, more := rels[i].source, rels[i].target, rels[..i + 1];
    assert more[i] == rels[i];
    ConnectedByLink(present, more, i);
    forall a, b | a in after && b in after && after[a] == after[b] ensures Connected(present, more, a, b) {
      hide Connected, Absorbed;
      if before[a] == before[b] {
        ConnectedGrows(present, rels[..i], more, a, b);
      } else {
        var near, far := if before[a] == before[u] then u else v, if before[a] == before[u] then v else u;
        assert before[a] == before[near] && before[far] == before[b];
        ConnectedGrows(present, rels[..i], more, a, near);
        ConnectedGrows(present, rels[..i], more, far, b);
        ConnectedOnward(present, more, a, near, far);
        ConnectedOnward(present, more, a, far, b);
      }
    }
  }

  /** The nodes in `order` that hang under root r, in order. */
  function Select(order: seq<nat>, root: map<nat, nat>, r: nat): seq<nat> {
    if order == [] then []
    else
      var n := order[|order| - 1];
      Select(order[..|order| - 1], root, r) + if n in root && root[n] == r then [n] else []
  }

  lemma {:induction false} SelectKeepsAll(order: seq<nat>, root: map<nat, nat>, r: nat, n: nat)
    ensures multiset(Select(order, root, r))[n] == if n in root && root[n] == r then multiset(order)[n] else 0
  {
    if order != [] {
      var front := order[..|order| - 1];
      SelectKeepsAll(front, root, r, n);
      assert order == front + [order[|order| - 1]];
    }
  }

  // ---- Clusters and their order ------------------------------------------------------------------

  predicate IDBefore(a: nat, b: nat) { a < b }

  /** Largest first, then by caption, then by id. */
  predicate ClusterBefore(a: Cluster, b: Cluster) {
    if a.size != b.size then a.size > b.size
    else if a.caption != b.caption then LexLess(a.caption, b.caption)
    else LexLess(a.id, b.id)
  }

  lemma ClusterOrderIsStrict()
    ensures StrictOrder(ClusterBefore)
  {
    forall a, b | ClusterBefore(a, b) ensures !ClusterBefore(b, a) {
      if a.size == b.size {
        if a.caption != b.caption {
          LexAsymmetric(a.caption, b.caption);
        } else {
          LexAsymmetric(a.id, b.id);
        }
      }
    }
    forall a, b, c | ClusterBefore(a, b) ensures ClusterBefore(a, c) || ClusterBefore(c, b) {
      if a.size == b.size == c.size {
        if a.caption != b.caption {
          LexCotransitive(a.caption, b.caption, c.caption);
        } else if c.caption == a.caption {
          LexCotransitive(a.id, b.id, c.id);
        } else {
          LexTotal(a.caption, c.caption);
        }
      }
    }
  }

  function ComponentID(lowest: nat): string { "component-" + Decimal(lowest) }

  function Named(ids: seq<nat>): Cluster
    requires ids != []
  {
    Cluster(ComponentID(ids[0]), "Group of " + Decimal(|ids|), ids, |ids|)
  }

  ghost predicate WellMade(nodes: seq<nat>, c: Cluster) {
    && c.nodeIDs != [] && c == Named(c.nodeIDs) && SortedBy(c.nodeIDs, IDBefore)
    && forall n :: n in c.nodeIDs ==> multiset(c.nodeIDs)[n] == multiset(nodes)[n]
  }

  ghost predicate Covers(nodes: seq<nat>, cs: seq<Cluster>) {
    forall n :: n in nodes ==> exists c :: c in cs && n in c.nodeIDs
  }

  /** Two nodes are in one cluster exactly when they are connected. */
  ghost predicate Splits(nodes: seq<nat>, rels: seq<Link>, cs: seq<Cluster>) {
    forall c, d, a, b :: c in cs && d in cs && a in c.nodeIDs && b in d.nodeIDs ==>
      (c == d <==> Connected(Present(nodes), rels, a, b))
  }

  ghost predicate Listed(cs: seq<Cluster>) {
    forall i, j :: 0 <= i < j < |cs| ==> ClusterBefore(cs[i], cs[j])
  }

  /** What the list of components of a graph is. */
  ghost predicate IsClustering(nodes: seq<nat>, rels: seq<Link>, cs: seq<Cluster>) {
    && (forall c :: c in cs ==> WellMade(nodes, c))
    && Covers(nodes, cs) && Splits(nodes, rels, cs) && Listed(cs)
  }

  // ---- The list is unique ------------------------------------------------------------------------

  lemma ClustersSeparate(nodes: seq<nat>, rels: seq<Link>, cs: seq<Cluster>, c: Cluster, d: Cluster)
    requires c in cs && d in cs && c != d && WellMade(nodes, c) && WellMade(nodes, d) && Splits(nodes, rels, cs)
    ensures ClusterBefore(c, d) || ClusterBefore(d, c)
  {
    var a, b := c.nodeIDs[0], d.nodeIDs[0];
    if a == b {
      ConnectedSelf(Present(nodes), rels, a);
      assert false;
    }
    if c.id == d.id {
      var cut := |"component-"|;
      assert c.id[cut..] == Decimal(a) && d.id[cut..] == Decimal(b);
      DecimalInjective(a, b);
      assert false;
    }
    LexTotal(c.id, d.id);
    if c.caption != d.caption {
      LexTotal(c.caption, d.caption);
    }
  }

  /** A cluster of one list is a cluster of any other list of the same graph. */
  lemma SameCluster(nodes: seq<nat>, rels: seq<Link>, cs: seq<Cluster>, ds: seq<Cluster>, c: Cluster)
    requires IsClustering(nodes, rels, cs) && IsClustering(nodes, rels, ds) && c in cs
    ensures c in ds
  {
    assert WellMade(nodes, c);
    var n := c.nodeIDs[0];
    assert n in multiset(c.nodeIDs) && n in multiset(nodes) && n in nodes;
    var d :| d in ds && n in d.nodeIDs;
    assert WellMade(nodes, d);
    forall m ensures multiset(c.nodeIDs)[m] == multiset(d.nodeIDs)[m] {
      SameMembers(nodes, rels, cs, ds, c, d, n, m);
      SameMembers(nodes, rels, ds, cs, d, c, n, m);
    }
    assert multiset(c.nodeIDs) == multiset(d.nodeIDs);
    SortedIsUnique(c.nodeIDs, d.nodeIDs, IDBefore);
  }

  lemma SameMembers(nodes: seq<nat>, rels: seq<Link>, cs: seq<Cluster>, ds: seq<Cluster>, c: Cluster, d: Cluster, n: nat, m: nat)
    requires Splits(nodes, rels, cs) && Splits(nodes, rels, ds) && Covers(nodes, ds)
    requires c in cs && d in ds && n in c.nodeIDs && n in d.nodeIDs && WellMade(nodes, c) && WellMade(nodes, d)
    ensures m in c.nodeIDs ==> m in d.nodeIDs && multiset(c.nodeIDs)[m] == multiset(d.nodeIDs)[m]
    ensures m !in c.nodeIDs ==> multiset(c.nodeIDs)[m] == 0
  {
    if m in c.nodeIDs {
      assert m in multiset(c.nodeIDs) && m in multiset(nodes) && m in nodes;
      var e :| e in ds && m in e.nodeIDs;
      assert Connected(Present(nodes), rels, n, m);
    }
  }

  lemma ListedHasNoRepeats(cs: seq<Cluster>, c: Cluster)
    requires Listed(cs)
    ensures multiset(cs)[c] == if c in cs then 1 else 0
    decreases |cs|
  {
    if cs != [] {
      var front, last := cs[..|cs| - 1], cs[|cs| - 1];
      assert cs == front + [last];
      ListedHasNoRepeats(front, c);
      assert last !in front by {
        if last in front {
          var i :| 0 <= i < |front| && front[i] == last;
          assert ClusterBefore(cs[i], cs[|cs| - 1]);
          ClusterOrderIsStrict();
        }
      }
    }
  }

  lemma ListedIsSorted(nodes: seq<nat>, rels: seq<Link>, cs: seq<Cluster>)
    requires IsClustering(nodes, rels, cs)
    ensures SortedBy(cs, ClusterBefore) && Separates(multiset(cs), ClusterBefore)
  {
    ClusterOrderIsStrict();
    forall c, d | c in multiset(cs) && d in multiset(cs) && c != d ensures ClusterBefore(c, d) || ClusterBefore(d, c) {
      ClustersSeparate(nodes, rels, cs, c, d);
    }
  }

  /** A graph has exactly one list of components, however the unions and the map walks were ordered. */
  lemma ClusteringIsUnique(nodes: seq<nat>, rels: seq<Link>, cs: seq<Cluster>, ds: seq<Cluster>)
    requires IsClustering(nodes, rels, cs) && IsClustering(nodes, rels, ds)
    ensures cs == ds
  {
    forall c ensures multiset(cs)[c] == multiset(ds)[c] {
      ListedHasNoRepeats(cs, c);
      ListedHasNoRepeats(ds, c);
      if c in cs {
        SameCluster(nodes, rels, cs, ds, c);
      }
      if c in ds {
        SameCluster(nodes, rels, ds, cs, c);
      }
    }
    ListedIsSorted(nodes, rels, cs);
    ListedIsSorted(nodes, rels, ds);
    assert multiset(cs) == multiset(ds);
    SortedIsUnique(cs, ds, ClusterBefore);
  }

  // ---- Building the list -------------------------------------------------------------------------

  function Lookup(m: map<nat, seq<nat>>, r: nat): seq<nat> {
    if r in m then m[r] else []
  }

  /** The nodes of `order`, gathered by root. */
  ghost predicate Gathered(order: seq<nat>, root: map<nat, nat>, members: map<nat, seq<nat>>) {
    forall r :: Lookup(members, r) == Select(order, root, r) && (r in members ==> members[r] != [])
  }

  function ClusterOf(ids: seq<nat>): Cluster
    requires ids != []
  {
    var sorted := SortBy(ids, IDBefore);
    if sorted == [] then Cluster("", "", [], 0) else Named(sorted)
  }

  lemma ClusterOfIs(ids: seq<nat>)
    requires ids != []
    ensures ClusterOf(ids).nodeIDs != [] && ClusterOf(ids) == Named(ClusterOf(ids).nodeIDs)
    ensures multiset(ClusterOf(ids).nodeIDs) == multiset(ids) && SortedBy(ClusterOf(ids).nodeIDs, IDBefore)
  {
    assert StrictOrder(IDBefore);
    SortBySorts(ids, IDBefore);
  }

  /** One cluster per root, in the order the roots were visited. */
  ghost predicate FromRoots(members: map<nat, seq<nat>>, keys: seq<nat>, out: seq<Cluster>) {
    && |keys| == |out|
    && (forall i :: 0 <= i < |keys| ==> keys[i] in members && members[keys[i]] != [] && out[i] == ClusterOf(members[keys[i]]))
    && (forall i, j :: 0 <= i < j < |keys| ==> keys[i] != keys[j])
  }

  lemma NoRoots(members: map<nat, seq<nat>>)
    ensures FromRoots(members, [], [])
  {
  }

  lemma FromRootsNext(nodes: seq<nat>, root: map<nat, nat>, members: map<nat, seq<nat>>, keys: seq<nat>, out: seq<Cluster>,
                      r: nat)
    requires Gathered(nodes, root, members) && FromRoots(members, keys, out) && r in members && r !in keys
    ensures members[r] != [] && FromRoots(members, keys + [r], out + [ClusterOf(members[r])])
  {
    hide Select, ClusterOf;
    assert Lookup(members, r) == members[r];
  }

  /** Which nodes the cluster built for a root holds: all those under the root, each as often as it was given. */
  lemma RootCluster(nodes: seq<nat>, root: map<nat, nat>, members: map<nat, seq<nat>>, r: nat)
    requires Gathered(nodes, root, members) && root.Keys == Present(nodes) && r in members
    ensures members[r] != [] && WellMade(nodes, ClusterOf(members[r]))
    ensures forall n :: n in ClusterOf(members[r]).nodeIDs <==> n in root && root[n] == r
  {
    var c := ClusterOf(members[r]);
    assert Lookup(members, r) == Select(nodes, root, r);
    ClusterOfIs(members[r]);
    forall n ensures n in c.nodeIDs <==> n in root && root[n] == r
             ensures n in c.nodeIDs ==> multiset(c.nodeIDs)[n] == multiset(nodes)[n] {
      SelectKeepsAll(nodes, root, r, n);
      assert n in c.nodeIDs <==> multiset(c.nodeIDs)[n] > 0;
      assert n in nodes <==> multiset(nodes)[n] > 0;
    }
  }

  lemma RootInMembers(nodes: seq<nat>, root: map<nat, nat>, members: map<nat, seq<nat>>, n: nat)
    requires Gathered(nodes, root, members) && root.Keys == Present(nodes) && n in nodes
    ensures root[n] in members
  {
    SelectKeepsAll(nodes, root, root[n], n);
    assert multiset(nodes)[n] > 0;
    assert Lookup(members, root[n]) == Select(nodes, root, root[n]) != [];
  }

  lemma OutHasNoRepeats(nodes: seq<nat>, root: map<nat, nat>, members: map<nat, seq<nat>>, keys: seq<nat>, out: seq<Cluster>)
    requires Gathered(nodes, root, members) && root.Keys == Present(nodes) && FromRoots(members, keys, out)
    ensures forall i, j :: 0 <= i < j < |out| ==> out[i] != out[j]
  {
    forall i, j | 0 <= i < j < |out| ensures out[i] != out[j] {
      RootCluster(nodes, root, members, keys[i]);
      RootCluster(nodes, root, members, keys[j]);
      var n := out[i].nodeIDs[0];
      assert n in out[i].nodeIDs && n !in out[j].nodeIDs;
    }
  }

  lemma OutSplits(nodes: seq<nat>, rels: seq<Link>, root: map<nat, nat>, members: map<nat, seq<nat>>, keys: seq<nat>,
                  out: seq<Cluster>)
    requires Gathered(nodes, root, members) && root.Keys == Present(nodes) && FromRoots(members, keys, out)
    requires Absorbed(Present(nodes), rels, root) && Justified(Present(nodes), rels, root)
    ensures Splits(nodes, rels, out)
  {
    forall c, d, a, b | c in out && d in out && a in c.nodeIDs && b in d.nodeIDs
      ensures c == d <==> Connected(Present(nodes), rels, a, b)
    {
      hide Absorbed, Justified, Gathered, Connected;
      var i :| 0 <= i < |out| && out[i] == c;
      var j :| 0 <= j < |out| && out[j] == d;
      RootCluster(nodes, root, members, keys[i]);
      RootCluster(nodes, root, members, keys[j]);
      RootsMeanConnection(Present(nodes), rels, root, a, b);
    }
  }

  lemma OutCovers(nodes: seq<nat>, root: map<nat, nat>, members: map<nat, seq<nat>>, keys: seq<nat>, out: seq<Cluster>)
    requires Gathered(nodes, root, members) && root.Keys == Present(nodes) && FromRoots(members, keys, out)
    requires forall r :: r in members ==> r in keys
    ensures Covers(nodes, out)
  {
    forall n | n in nodes ensures exists c :: c in out && n in c.nodeIDs {
      RootInMembers(nodes, root, members, n);
      RootCluster(nodes, root, members, root[n]);
      var i :| 0 <= i < |keys| && keys[i] == root[n];
      assert out[i] in out && n in out[i].nodeIDs;
    }
  }

  lemma {:induction false} NoRepeatsCount(s: seq<Cluster>, c: Cluster)
    requires forall i, j :: 0 <= i < j < |s| ==> s[i] != s[j]
    ensures multiset(s)[c] <= 1
  {
    if s != [] {
      NoRepeatsCount(s[1..], c);
      assert s == [s[0]] + s[1..];
      assert s[0] !in s[1..];
    }
  }

  lemma CountNoRepeats(s: seq<Cluster>, i: nat, j: nat)
    requires i < j < |s| && multiset(s)[s[i]] <= 1
    ensures s[i] != s[j]
  {
    assert s == s[..i] + [s[i]] + s[i + 1..j] + [s[j]] + s[j + 1..];
  }

  lemma SortedIsClustering(nodes: seq<nat>, rels: seq<Link>, out: seq<Cluster>)
    requires forall c :: c in out ==> WellMade(nodes, c)
    requires Covers(nodes, out) && Splits(nodes, rels, out) && forall i, j :: 0 <= i < j < |out| ==> out[i] != out[j]
    ensures IsClustering(nodes, rels, SortBy(out, ClusterBefore))
  {
    var cs := SortBy(out, ClusterBefore);
    ClusterOrderIsStrict();
    SortBySorts(out, ClusterBefore);
    assert forall c :: c in cs <==> c in multiset(out);
    assert Splits(nodes, rels, cs) && Covers(nodes, cs);
    forall i, j | 0 <= i < j < |cs| ensures ClusterBefore(cs[i], cs[j]) {
      NoRepeatsCount(out, cs[i]);
      CountNoRepeats(cs, i, j);
      ClustersSeparate(nodes, rels, cs, cs[i], cs[j]);
    }
  }

  /** Finds the connected components with union-find, then names, sorts and lists them. */
  method ComponentClusters(nodes: seq<nat>, rels: seq<Link>) returns (cs: seq<Cluster>)
    ensures IsClustering(nodes, rels, cs) && LargestFirst(cs)
  {
    var sets := new DisjointSet(nodes);
    var present := Present(nodes);
    UnionAll(nodes, rels, present, sets);
    var members := Gather(nodes, sets);
    var out, keys := BuildAll(nodes, sets.root, members);
    Assemble(nodes, rels, sets.root, members, keys, out);
    cs := SortBy(out, ClusterBefore);
    ListedIsLargestFirst(nodes, rels, cs);
  }

  /** No component comes before a larger one, and each lists its members from the lowest id on. */
  ghost predicate LargestFirst(cs: seq<Cluster>) {
    && (forall i, j :: 0 <= i < j < |cs| ==> |cs[i].nodeIDs| >= |cs[j].nodeIDs|)
    && forall i, a, b :: 0 <= i < |cs| && 0 <= a < b < |cs[i].nodeIDs| ==> cs[i].nodeIDs[a] <= cs[i].nodeIDs[b]
  }

  lemma ListedIsLargestFirst(nodes: seq<nat>, rels: seq<Link>, cs: seq<Cluster>)
    requires IsClustering(nodes, rels, cs)
    ensures LargestFirst(cs)
  {
    forall i | 0 <= i < |cs| ensures cs[i].size == |cs[i].nodeIDs| && SortedBy(cs[i].nodeIDs, IDBefore) {
      assert WellMade(nodes, cs[i]);
    }
    hide WellMade, Splits, Covers;
    forall i, j | 0 <= i < j < |cs| ensures |cs[i].nodeIDs| >= |cs[j].nodeIDs| {
      assert ClusterBefore(cs[i], cs[j]);
    }
    forall i, a, b | 0 <= i < |cs| && 0 <= a < b < |cs[i].nodeIDs| ensures cs[i].nodeIDs[a] <= cs[i].nodeIDs[b] {
      assert !IDBefore(cs[i].nodeIDs[b], cs[i].nodeIDs[a]);
    }
  }

  /** Builds one cluster per root, visiting the roots in no particular order. */
  method BuildAll(nodes: seq<nat>, ghost root: map<nat, nat>, members: map<nat, seq<nat>>)
    returns (out: seq<Cluster>, ghost keys: seq<nat>)
    requires Gathered(nodes, root, members)
    ensures FromRoots(members, keys, out) && forall r :: r in members ==> r in keys
  {
    hide Select, FromRoots, Gathered;
    out, keys := [], [];
    NoRoots(members);
    var todo := members.Keys;
    while todo != {}
      invariant todo <= members.Keys && FromRoots(members, keys, out)
      invariant forall r :: r in members <==> r in todo || r in keys
      invariant forall r :: r in todo ==> r !in keys
      decreases todo
    {
      var r :| r in todo;
      FromRootsNext(nodes, root, members, keys, out, r);
      todo := todo - {r};
      out := out + [ClusterOf(members[r])];
      keys := keys + [r];
    }
  }

  lemma Assemble(nodes: seq<nat>, rels: seq<Link>, root: map<nat, nat>, members: map<nat, seq<nat>>, keys: seq<nat>,
                 out: seq<Cluster>)
    requires Gathered(nodes, root, members) && root.Keys == Present(nodes) && FromRoots(members, keys, out)
    requires forall r :: r in members ==> r in keys
    requires Absorbed(Present(nodes), rels, root) && Justified(Present(nodes), rels, root)
    ensures IsClustering(nodes, rels, SortBy(out, ClusterBefore))
  {
    hide Absorbed, Justified, Gathered, WellMade;
    OutSplits(nodes, rels, root, members, keys, out);
    OutCovers(nodes, root, members, keys, out);
    OutHasNoRepeats(nodes, root, members, keys, out);
    forall c | c in out ensures WellMade(nodes, c) {
      var i :| 0 <= i < |out| && out[i] == c;
      RootCluster(nodes, root, members, keys[i]);
    }
    SortedIsClustering(nodes, rels, out);
  }

  method UnionAll(nodes: seq<nat>, rels: seq<Link>, present: set<nat>, sets: DisjointSet)
    requires present == Present(nodes) && sets.Valid() && sets.parent.Keys == present
    requires forall n :: n in present ==> sets.root[n] == n
    modifies sets
    ensures sets.Valid() && sets.root.Keys == sets.parent.Keys == present
    ensures Absorbed(present, rels, sets.root) && Justified(present, rels, sets.root)
  {
    forall n ensures Connected(present, [], n, n) {
      ConnectedSelf(present, [], n);
    }
    for i := 0 to |rels|
      invariant sets.Valid() && sets.root.Keys == sets.parent.Keys == present
      invariant Absorbed(present, rels[..i], sets.root) && Justified(present, rels[..i], sets.root)
    {
      hide Absorbed, Justified, Merges, Proper;
      var r := rels[i];
      if r.Missing? || r.source !in present || r.target !in present {
        SkipLink(present, rels, i, sets.root);
        continue;
      }
      ghost var before := sets.root;
      sets.Union(r.source, r.target);
      UnionAbsorbs(present, rels, i, before, sets.root);
      UnionJustifies(present, rels, i, before, sets.root);
    }
    assert rels[..|rels|] == rels;
  }

  method Gather(nodes: seq<nat>, sets: DisjointSet) returns (members: map<nat, seq<nat>>)
    requires sets.Valid() && sets.root.Keys == sets.parent.Keys == Present(nodes)
    modifies sets`parent
    ensures sets.Valid() && Gathered(nodes, sets.root, members)
  {
    members := map[];
    for k := 0 to |nodes|
      invariant sets.Valid() && sets.parent.Keys == Present(nodes)
      invariant Gathered(nodes[..k], sets.root, members)
    {
      var r := sets.Find(nodes[k]);
      GatherOne(nodes[..k], sets.root, members, nodes[k]);
      assert nodes[..k + 1] == nodes[..k] + [nodes[k]];
      members := members[r := Lookup(members, r) + [nodes[k]]];
    }
    assert nodes[..|nodes|] == nodes;
  }

  lemma GatherOne(order: seq<nat>, root: map<nat, nat>, members: map<nat, seq<nat>>, n: nat)
    requires Gathered(order, root, members) && n in root
    ensures Gathered(order + [n], root, members[root[n] := Lookup(members, root[n]) + [n]])
  {
  }

  // ---- Ties ------------------------------------------------------------------------------------------

  /** The source says ties are broken by lowest member. What is compared is the text of the ids: of two components of
      one size, the one with the lower member comes first exactly when that member, padded with zeros to the length of
      the other, is still not above it. */
  lemma TieOrderIff(ids: seq<nat>, others: seq<nat>)
    requires |ids| == |others| > 0 && ids[0] < others[0]
    ensures |Decimal(ids[0])| <= |Decimal(others[0])|
    ensures ClusterBefore(Named(ids), Named(others)) <==>
            ids[0] * Pow10(|Decimal(others[0])| - |Decimal(ids[0])|) <= others[0]
  {
    DecimalOrderIff(ids[0], others[0]);
    LexSamePrefix("component-", Decimal(ids[0]), Decimal(others[0]));
  }

  /** Node 10 alone is listed before node 9 alone. */
  lemma TenComesBeforeNine()
    ensures ClusterBefore(Named([10]), Named([9])) && !ClusterBefore(Named([9]), Named([10]))
  {
    TieOrderIff([9], [10]);
    assert Decimal(1) == [Digit(1)] && Decimal(10) == Decimal(1) + [Digit(0)] && Decimal(9) == [Digit(9)];
    assert Pow10(1) == 10 * Pow10(0);
    LexSamePrefix("component-", Decimal(10), Decimal(9));
    LexExtend([Digit(9)], [Digit(1)], Digit(0));
    ClusterOrderIsStrict();
    assert Decimal(10)[0] == Digit(1);
  }
}
