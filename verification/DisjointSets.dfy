/** Union-find with path compression and union by size, kept as two maps from node id. */
module DisjointSets {

  ghost function Pow2(n: nat): nat {
    if n == 0 then 1 else 2 * Pow2(n - 1)
  }

  lemma {:induction false} Pow2Monotone(m: nat, n: nat)
    requires m <= n
    ensures Pow2(m) <= Pow2(n)
    decreases n
  {
    if m < n {
      Pow2Monotone(m, n - 1);
    }
  }

  /** The maps together with what they mean: the root of every node's tree, and a rank that strictly grows
      along parent links and so bounds the height of the trees. */
  datatype Forest = Forest(parent: map<nat, nat>, size: map<nat, nat>, root: map<nat, nat>, rank: map<nat, nat>)

  ghost function Members(root: map<nat, nat>, r: nat): set<nat> {
    set x | x in root && root[x] == r
  }

  ghost predicate SameKeys(f: Forest) {
    f.parent.Keys == f.size.Keys == f.root.Keys == f.rank.Keys
  }

  /** The parent link of x stays inside, leads toward x's root, and climbs in rank. */
  ghost predicate RootedAt(f: Forest, x: nat)
    requires SameKeys(f)
  {
    && x in f.parent && f.parent[x] in f.parent && f.root[x] in f.parent
    && f.parent[f.root[x]] == f.root[x] && f.root[f.root[x]] == f.root[x]
    && (f.parent[x] == x ==> f.root[x] == x)
    && (f.parent[x] != x ==> f.root[x] == f.root[f.parent[x]] && f.rank[x] < f.rank[f.parent[x]])
    && f.rank[x] <= f.rank[f.root[x]]
  }

  ghost predicate Rooted(f: Forest)
    requires SameKeys(f)
  {
    forall x {:trigger RootedAt(f, x)} :: x in f.parent ==> RootedAt(f, x)
  }

  /** A root's size is its tree's population, and a tree of rank k holds at least 2^k nodes. */
  ghost predicate Sized(f: Forest)
    requires SameKeys(f)
  {
    forall r :: r in f.parent && f.root[r] == r ==> f.size[r] == |Members(f.root, r)| && Pow2(f.rank[r]) <= f.size[r]
  }

  ghost predicate Proper(f: Forest) {
    SameKeys(f) && Rooted(f) && Sized(f)
  }

  /** The node d parent links above x. */
  ghost function Up(f: Forest, x: nat, d: nat): nat
    requires SameKeys(f) && Rooted(f) && x in f.parent
    ensures Up(f, x, d) in f.parent && f.root[Up(f, x, d)] == f.root[x]
  {
    assert RootedAt(f, x);
    if d == 0 then x
    else
      var u := Up(f, x, d - 1);
      assert RootedAt(f, u);
      f.parent[u]
  }

  /** How far x's rank is below its root's: what every step of a find uses up. */
  ghost function Climb(f: Forest, x: nat): nat
    requires Proper(f) && x in f.parent
  {
    assert RootedAt(f, x);
    f.rank[f.root[x]] - f.rank[x]
  }

  lemma {:induction false} RankClimbs(f: Forest, x: nat, d: nat)
    requires Proper(f) && x in f.parent && forall e: nat :: e < d ==> f.parent[Up(f, x, e)] != Up(f, x, e)
    ensures f.rank[x] + d <= f.rank[Up(f, x, d)]
  {
    if d > 0 {
      RankClimbs(f, x, d - 1);
      assert RootedAt(f, Up(f, x, d - 1));
    }
  }

  /** Union by size keeps trees shallow: a node d links below its root sits in a component of 2^d nodes or more. */
  lemma HeightIsLogarithmic(f: Forest, x: nat, d: nat)
    requires Proper(f) && x in f.parent && forall e: nat :: e < d ==> f.parent[Up(f, x, e)] != Up(f, x, e)
    ensures Pow2(d) <= |Members(f.root, f.root[x])|
  {
    var r, u := f.root[x], Up(f, x, d);
    RankClimbs(f, x, d);
    assert RootedAt(f, x) && RootedAt(f, u) && RootedAt(f, r);
    Pow2Monotone(d, f.rank[r]);
  }

  // ---- What compression and linking do to the forest -----------------------------------------

  /** The forest after x is hung directly under its root. */
  ghost function Compressed(f: Forest, x: nat): Forest
    requires x in f.root
  {
    f.(parent := f.parent[x := f.root[x]])
  }

  lemma CompressionIsProper(f: Forest, x: nat)
    requires Proper(f) && x in f.parent
    ensures Proper(Compressed(f, x))
  {
    CompressionKeepsKeys(f, x);
    CompressionIsRooted(f, x);
    CompressionIsSized(f, x);
    hide Rooted, Sized, SameKeys, Compressed;
  }

  lemma CompressionKeepsKeys(f: Forest, x: nat)
    requires SameKeys(f) && Rooted(f) && x in f.parent
    ensures SameKeys(Compressed(f, x))
  {
    assert RootedAt(f, x);
  }

  lemma CompressionIsSized(f: Forest, x: nat)
    requires SameKeys(f) && Sized(f) && x in f.parent && SameKeys(Compressed(f, x))
    ensures Sized(Compressed(f, x))
  {
  }

  lemma CompressionIsRooted(f: Forest, x: nat)
    requires SameKeys(f) && Rooted(f) && x in f.parent && SameKeys(Compressed(f, x))
    ensures Rooted(Compressed(f, x))
  {
    forall y | y in Compressed(f, x).parent ensures RootedAt(Compressed(f, x), y) {
      assert RootedAt(f, y) && RootedAt(f, f.root[y]) && RootedAt(f, x) && RootedAt(f, f.parent[x]);
      hide Rooted;
    }
  }

  /** The forest after root `low` is hung under root `high`. */
  ghost function Hang(f: Forest, low: nat, high: nat): Forest
    requires SameKeys(f) && low in f.parent && high in f.parent
  {
    Forest(f.parent[low := high],
           f.size[high := f.size[high] + f.size[low]],
           map x | x in f.root :: if f.root[x] == low then high else f.root[x],
           f.rank[high := if f.rank[high] <= f.rank[low] then f.rank[low] + 1 else f.rank[high]])
  }

  lemma HangIsRooted(f: Forest, low: nat, high: nat)
    requires Proper(f) && low in f.parent && high in f.parent && low != high
    requires f.root[low] == low && f.root[high] == high
    ensures SameKeys(Hang(f, low, high)) && Rooted(Hang(f, low, high))
  {
    var g := Hang(f, low, high);
    assert g.root.Keys == f.root.Keys;
    forall x | x in g.parent ensures RootedAt(g, x) {
      hide RootedAt, Hang, Proper;
      HangIsRootedAt(f, low, high, x);
    }
  }

  lemma HangKeeps(f: Forest, low: nat, high: nat)
    requires SameKeys(f) && low in f.parent && high in f.parent
    ensures var g := Hang(f, low, high);
            g.parent == f.parent[low := high] && g.size == f.size[high := f.size[high] + f.size[low]]
    ensures Hang(f, low, high).parent.Keys == f.parent.Keys
  {
  }

  lemma HangIsRootedAt(f: Forest, low: nat, high: nat, x: nat)
    requires Proper(f) && low in f.parent && high in f.parent && low != high && x in f.parent
    requires f.root[low] == low && f.root[high] == high && SameKeys(Hang(f, low, high))
    ensures RootedAt(Hang(f, low, high), x)
  {
    assert RootedAt(f, x) && RootedAt(f, f.parent[x]) && RootedAt(f, f.root[x]);
    assert RootedAt(f, low) && RootedAt(f, high);
    hide Rooted, Sized;
  }

  lemma HangIsSized(f: Forest, low: nat, high: nat)
    requires Proper(f) && low in f.parent && high in f.parent && low != high && f.size[low] <= f.size[high]
    requires f.root[low] == low && f.root[high] == high && SameKeys(Hang(f, low, high))
    ensures Sized(Hang(f, low, high))
  {
    var g := Hang(f, low, high);
    assert Members(g.root, high) == Members(f.root, high) + Members(f.root, low);
    assert Members(f.root, high) !! Members(f.root, low);
    forall r | r in g.parent && g.root[r] == r && r != high ensures Members(g.root, r) == Members(f.root, r) {
    }
  }

  /** Two nodes share a root after exactly when they did before, or when one was with a and the other with b. */
  ghost predicate Merges(before: map<nat, nat>, after: map<nat, nat>, a: nat, b: nat)
    requires a in before && b in before && before.Keys == after.Keys
  {
    forall x, y :: x in before && y in before ==>
      (after[x] == after[y] <==>
       before[x] == before[y] || (before[x] == before[a] && before[y] == before[b])
                              || (before[x] == before[b] && before[y] == before[a]))
  }

  lemma HangMerges(f: Forest, a: nat, b: nat, low: nat, high: nat)
    requires Proper(f) && a in f.parent && b in f.parent && low in f.parent && high in f.parent && low != high
    requires (f.root[a] == low && f.root[b] == high) || (f.root[a] == high && f.root[b] == low)
    ensures f.root.Keys == Hang(f, low, high).root.Keys
    ensures Merges(f.root, Hang(f, low, high).root, a, b)
  {
  }

  lemma RootsAreRoots(f: Forest, a: nat)
    requires Proper(f) && a in f.parent
    ensures f.root[a] in f.parent && f.root[f.root[a]] == f.root[a]
  {
    assert RootedAt(f, a);
  }

  class DisjointSet {
    var parent: map<nat, nat>
    var size: map<nat, nat>
    ghost var root: map<nat, nat>
    ghost var rank: map<nat, nat>

    ghost function Shape(): Forest
      reads this
    {
      Forest(parent, size, root, rank)
    }

    ghost predicate Valid()
      reads this
    {
      Proper(Shape())
    }

    /** Every node starts as its own root. */
    constructor (nodes: seq<nat>)
      ensures Valid() && parent.Keys == (set n | n in nodes) && forall n :: n in nodes ==> root[n] == n
    {
      var p, s: map<nat, nat> := map[], map[];
      for i := 0 to |nodes|
        invariant p.Keys == s.Keys == set n | n in nodes[..i]
        invariant forall n :: n in p ==> p[n] == n && s[n] == 1
      {
        p, s := p[nodes[i] := nodes[i]], s[nodes[i] := 1];
        assert nodes[..i + 1] == nodes[..i] + [nodes[i]];
      }
      assert nodes[..|nodes|] == nodes;
      parent, size, root, rank := p, s, p, map n | n in p :: 0;
      new;
      forall r | r in parent ensures Members(root, r) == {r} {
      }
    }

    /** The root of x's tree. Every node passed on the way is re-hung directly under it. */
    method Find(x: nat) returns (r: nat)
      requires Valid() && x in parent
      modifies `parent
      ensures Valid() && parent.Keys == old(parent.Keys)
      ensures r == root[x] && Shape() == old(Shape()).(parent := parent)
      decreases Climb(Shape(), x)
    {
      assert RootedAt(Shape(), x);
      if parent[x] != x {
        assert RootedAt(Shape(), parent[x]);
        var p := Find(parent[x]);
        CompressionIsProper(Shape(), x);
        parent := parent[x := p];
      }
      r := parent[x];
    }

    /** Hangs the smaller tree's root under the larger one's. */
    method Link(low: nat, high: nat)
      requires Valid() && low in parent && high in parent && low != high && root[low] == low && root[high] == high
      requires size[low] <= size[high]
      modifies this
      ensures Valid() && parent.Keys == old(parent.Keys) && root == Hang(old(Shape()), low, high).root
    {
      hide Rooted, Sized, Hang;
      ghost var was, hung := Shape(), Hang(Shape(), low, high);
      HangIsRooted(was, low, high);
      HangIsSized(was, low, high);
      HangKeeps(was, low, high);
      parent := parent[low := high];
      size := size[high := size[high] + size[low]];
      root, rank := hung.root, hung.rank;
      assert Shape() == hung;
    }

    /** Joins the trees of a and b. */
    method Union(a: nat, b: nat)
      requires Valid() && a in parent && b in parent
      modifies this
      ensures Valid() && parent.Keys == old(parent.Keys) == root.Keys == old(root.Keys)
      ensures Merges(old(root), root, a, b)
    {
      var ra := Find(a);
      var rb := Find(b);
      RootsAreRoots(Shape(), a);
      RootsAreRoots(Shape(), b);
      if ra == rb {
        return;
      }
      if size[ra] < size[rb] {
        ra, rb := rb, ra;
      }
      HangMerges(Shape(), a, b, rb, ra);
      hide Rooted, Sized, Merges, Hang;
      Link(rb, ra);
    }
  }
}
