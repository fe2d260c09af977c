/** The union-find component search of the distributed DAG module: union by rank, path
    compression, both arrays rewritten in place. */
module UnionFind {
  import opened Graph
  import opened Sets

  function Pow2(k: nat): nat {
    if k == 0 then 1 else 2 * Pow2(k - 1)
  }

  lemma {:induction false} Pow2Monotone(a: nat, b: nat)
    requires a <= b
    ensures Pow2(a) <= Pow2(b)
  {
    if a < b {
      Pow2Monotone(a, b - 1);
    }
  }

  /** The elements whose representative is y. */
  ghost function Class(rep: seq<nat>, y: nat): set<nat> {
    set x: nat | x < |rep| && rep[x] == y
  }

  /** `rep` names the root of every element; ranks rise along parent links, and a root of
      rank k has at least 2^k elements below it. */
  ghost predicate Forest(p: seq<nat>, r: seq<nat>, rep: seq<nat>) {
    && |p| == |r| == |rep|
    && (forall x :: 0 <= x < |p| ==> p[x] < |p| && rep[x] < |p|)
    && (forall x :: 0 <= x < |p| ==> RootOk(p, r, rep, x))
    && (forall y :: 0 <= y < |p| && rep[y] == y ==> Pow2(r[y]) <= |Class(rep, y)|)
  }

  ghost predicate RootOk(p: seq<nat>, r: seq<nat>, rep: seq<nat>, x: nat)
    requires |p| == |r| == |rep| && x < |p| && p[x] < |p| && rep[x] < |p|
  {
    && p[rep[x]] == rep[x] && rep[rep[x]] == rep[x]
    && rep[p[x]] == rep[x]
    && (p[x] == x <==> rep[x] == x)
    && (p[x] != x ==> r[x] < r[p[x]])
    && (rep[x] != x ==> r[x] < r[rep[x]])
  }

  lemma {:induction false} CompressKeepsForest(p: seq<nat>, r: seq<nat>, rep: seq<nat>, x: nat)
    requires Forest(p, r, rep) && x < |p| && p[x] != x
    ensures Forest(p[x := rep[x]], r, rep)
  {
    var p' := p[x := rep[x]];
    assert RootOk(p, r, rep, x);
    forall y | 0 <= y < |p'| ensures RootOk(p', r, rep, y) {
      assert RootOk(p, r, rep, y);
    }
  }

  /** The representatives after root b has been hung under root a. */
  ghost function Merge(rep: seq<nat>, a: nat, b: nat): seq<nat> {
    seq(|rep|, x requires 0 <= x < |rep| => if rep[x] == b then a else rep[x])
  }

  lemma {:induction false} LinkKeepsForest(p: seq<nat>, r: seq<nat>, rep: seq<nat>, a: nat, b: nat, ra: nat)
    requires Forest(p, r, rep) && a < |p| && b < |p| && a != b && rep[a] == a && rep[b] == b
    requires |p| == |r| && r[b] < ra && ra == (if r[a] == r[b] then r[a] + 1 else r[a])
    ensures Forest(p[b := a], r[a := ra], Merge(rep, a, b))
  {
    var p', r', rep' := p[b := a], r[a := ra], Merge(rep, a, b);
    assert RootOk(p, r, rep, a) && RootOk(p, r, rep, b);
    forall x | 0 <= x < |p'| ensures RootOk(p', r', rep', x) {
      assert RootOk(p, r, rep, x);
    }
    forall y | 0 <= y < |p'| && rep'[y] == y ensures Pow2(r'[y]) <= |Class(rep', y)| {
      if y == a {
        assert Class(rep', a) == Class(rep, a) + Class(rep, b);
        assert Class(rep, a) !! Class(rep, b);
      } else {
        assert Class(rep', y) == Class(rep, y);
      }
    }
  }

  /** A root's rank is at most log2 of the number of elements. */
  lemma {:induction false} RankIsLogarithmic(p: seq<nat>, r: seq<nat>, rep: seq<nat>, y: nat)
    requires Forest(p, r, rep) && y < |p|
    ensures Pow2(r[y]) <= Pow2(r[rep[y]]) <= |p|
  {
    assert RootOk(p, r, rep, y);
    Pow2Monotone(r[y], r[rep[y]]);
    SubsetSize(Class(rep, rep[y]), Range(|p|));
  }

  lemma {:induction false} RootFacts(p: seq<nat>, r: seq<nat>, rep: seq<nat>, x: nat)
    requires Forest(p, r, rep) && x < |p|
    ensures |p| == |r| == |rep| && rep[x] < |p| && rep[rep[x]] == rep[x]
  {
    assert RootOk(p, r, rep, x);
  }

  class DisjointSets {
    const parent: array<nat>
    const rank: array<nat>
    ghost var rep: seq<nat>

    ghost predicate Valid()
      reads this, parent, rank
    {
      parent != rank && Forest(parent[..], rank[..], rep)
    }

    constructor (n: nat)
      ensures Valid() && fresh(parent) && fresh(rank) && parent.Length == n
      ensures |rep| == n && forall x :: 0 <= x < n ==> rep[x] == x
    {
      parent := new nat[n](i => i);
      rank := new nat[n](i => 0);
      rep := seq(n, i => i);
      new;
      forall y | 0 <= y < n ensures Pow2(rank[y]) <= |Class(rep, y)| {
        assert Class(rep, y) == {y};
      }
    }

    /** Returns the root of x and hangs every node on the way directly under it.  `depth` is
        the number of nested calls. */
    method Find(x: nat) returns (root: nat, ghost depth: nat)
      requires Valid() && x < parent.Length
      modifies parent
      ensures Valid() && root == rep[x] && root < parent.Length
      ensures depth + rank[x] <= rank[root] && Pow2(depth) <= parent.Length
      decreases rank[rep[x]] as int - rank[x] as int
    {
      depth := 0;
      assert RootOk(parent[..], rank[..], rep, x);
      if parent[x] != x {
        assert RootOk(parent[..], rank[..], rep, parent[x]);
        var r;
        ghost var below := rank[parent[x]];
        r, depth := Find(parent[x]);
        depth := depth + 1;
        assert RootOk(parent[..], rank[..], rep, x);
        CompressKeepsForest(parent[..], rank[..], rep, x);
        ghost var p := parent[..];
        parent[x] := r;
        assert parent[..] == p[x := r];
      }
      RankIsLogarithmic(parent[..], rank[..], rep, x);
      Pow2Monotone(depth, rank[rep[x]]);
      return parent[x], depth;
    }

    /** Merges the classes of x and y; all other classes stay as they are. */
    method Unite(x: nat, y: nat)
      requires Valid() && x < parent.Length && y < parent.Length
      modifies this`rep, parent, rank
      ensures Valid()
      ensures old(rep)[x] == old(rep)[y] ==> rep == old(rep)
      ensures rep == Merge(old(rep), old(rep)[x], old(rep)[y]) || rep == Merge(old(rep), old(rep)[y], old(rep)[x])
    {
      hide Forest;
      var rootX, dx := Find(x);
      var rootY, dy := Find(y);
      RootFacts(parent[..], rank[..], rep, x);
      RootFacts(parent[..], rank[..], rep, y);
      if rootX == rootY {
        assert Merge(rep, rootX, rootY) == rep;
        return;
      }
      ghost var p, r := parent[..], rank[..];
      if rank[rootX] < rank[rootY] {
        LinkKeepsForest(p, r, rep, rootY, rootX, rank[rootY]);
        parent[rootX] := rootY;
        rep := Merge(rep, rootY, rootX);
        assert parent[..] == p[rootX := rootY] && rank[..] == r[rootY := rank[rootY]];
      } else if rank[rootX] > rank[rootY] {
        LinkKeepsForest(p, r, rep, rootX, rootY, rank[rootX]);
        parent[rootY] := rootX;
        rep := Merge(rep, rootX, rootY);
        assert parent[..] == p[rootY := rootX] && rank[..] == r[rootX := rank[rootX]];
      } else {
        LinkKeepsForest(p, r, rep, rootX, rootY, rank[rootX] + 1);
        parent[rootY] := rootX;
        rank[rootX] := rank[rootX] + 1;
        rep := Merge(rep, rootX, rootY);
        assert parent[..] == p[rootY := rootX] && rank[..] == r[rootX := rank[rootX]];
      }
    }
  }

  /* ----- components ----- */

  /** Elements are together only if connected. */
  ghost predicate Sound(g: Graph, rep: seq<nat>) {
    forall x: nat, y: nat :: x < |rep| && y < |rep| && rep[x] == rep[y] ==> Connected(g, x, y)
  }

  /** The link (i, j) has been processed by the loops up to position (row, col). */
  ghost predicate Processed(i: nat, j: nat, row: nat, col: nat) {
    i < j && (i < row || (i == row && j < col))
  }

  ghost predicate Complete(g: Graph, rep: seq<nat>, row: nat, col: nat) {
    forall i: nat, j: nat :: Processed(i, j, row, col) && j < |rep| && Link(g, i, j) ==> rep[i] == rep[j]
  }

  lemma {:induction false} MergeIsSound(g: Graph, rep: seq<nat>, rep': seq<nat>, i: nat, j: nat)
    requires Sound(g, rep) && i < |rep| && j < |rep| && Link(g, i, j)
    requires rep' == Merge(rep, rep[i], rep[j]) || rep' == Merge(rep, rep[j], rep[i])
    ensures Sound(g, rep')
  {
    LinkConnects(g, i, j);
    LinkConnects(g, j, i);
    forall x: nat, y: nat | x < |rep'| && y < |rep'| && rep'[x] == rep'[y] ensures Connected(g, x, y) {
      if rep[x] != rep[y] {
        if rep[x] == rep[i] {
          Through(g, rep, x, i, j, y);
        } else {
          Through(g, rep, x, j, i, y);
        }
      }
    }
  }

  lemma {:induction false} Through(g: Graph, rep: seq<nat>, x: nat, i: nat, j: nat, y: nat)
    requires Sound(g, rep) && x < |rep| && i < |rep| && j < |rep| && y < |rep|
    requires rep[x] == rep[i] && rep[j] == rep[y] && Connected(g, i, j)
    ensures Connected(g, x, y)
  {
    ConnectedTransitive(g, x, i, j);
    ConnectedTransitive(g, x, j, y);
  }

  lemma {:induction false} MergeKeepsTogether(rep: seq<nat>, rep': seq<nat>, i: nat, j: nat)
    requires i < |rep| && j < |rep|
    requires rep' == Merge(rep, rep[i], rep[j]) || rep' == Merge(rep, rep[j], rep[i])
    ensures rep'[i] == rep'[j]
    ensures forall x: nat, y: nat :: x < |rep| && y < |rep| && rep[x] == rep[y] ==> rep'[x] == rep'[y]
  {
  }

  /** After all links, being together is being connected. */
  lemma {:induction false} SameRootIffConnected(g: Graph, rep: seq<nat>, x: nat, y: nat)
    requires InRange(g) && |rep| == g.n && Sound(g, rep) && Complete(g, rep, g.n, 0)
    requires x < g.n && y < g.n
    ensures rep[x] == rep[y] <==> Connected(g, x, y)
  {
    if Connected(g, x, y) {
      var s := Class(rep, rep[x]);
      forall u: nat, v: nat | u in s && Link(g, u, v) ensures v in s {
        assert v < g.n;
        if u < v {
          assert Processed(u, v, g.n, 0);
        } else if v < u {
          assert Processed(v, u, g.n, 0) && Link(g, v, u);
        }
      }
      ClosedContainsConnected(g, s, x, y);
    }
  }

  ghost predicate Increasing(s: seq<nat>) {
    forall i, j :: 0 <= i < j < |s| ==> s[i] < s[j]
  }

  /** `groups` lists, per root, the elements below i of its class, in increasing order. */
  ghost predicate Grouped(rep: seq<nat>, groups: map<nat, seq<nat>>, i: nat) {
    && (forall y :: y in groups ==>
          groups[y] != [] && Increasing(groups[y])
          && forall x: nat :: x in groups[y] <==> x < i && x < |rep| && rep[x] == y)
    && (forall x: nat :: x < i && x < |rep| ==> rep[x] in groups)
  }

  lemma {:induction false} GroupNext(rep: seq<nat>, groups: map<nat, seq<nat>>, i: nat)
    requires Grouped(rep, groups, i) && i < |rep|
    ensures Grouped(rep, groups[rep[i] := (if rep[i] in groups then groups[rep[i]] else []) + [i]], i + 1)
  {
    var was := if rep[i] in groups then groups[rep[i]] else [];
    var now := was + [i];
    forall a, b | 0 <= a < b < |now| ensures now[a] < now[b] {
      if b == |was| {
        assert was[a] in was;
      }
    }
    assert forall x: nat :: x in now <==> x in was || x == i;
  }

  /** The table lists exactly the groups whose root is not in `rest`. */
  ghost predicate Emitted(groups: map<nat, seq<nat>>, rest: set<nat>, roots: seq<nat>, t: Table) {
    && |roots| == |t| && Distinct(roots)
    && rest <= groups.Keys
    && (forall c :: 0 <= c < |t| ==>
          roots[c] in groups && roots[c] !in rest && t[c] == Component(c, groups[roots[c]]))
    && (forall y :: y in groups ==> y in rest || y in roots)
  }

  lemma {:induction false} EmittedIsTable(g: Graph, rep: seq<nat>, groups: map<nat, seq<nat>>, roots: seq<nat>, t: Table)
    requires |rep| == g.n && Grouped(rep, groups, g.n) && Emitted(groups, {}, roots, t)
    requires forall x: nat, y: nat :: x < g.n && y < g.n ==> (rep[x] == rep[y] <==> Connected(g, x, y))
    ensures IsComponentTable(g, t)
  {
    forall v: nat | v < g.n ensures InSome(t, v) {
      assert rep[v] in groups;
      var c :| 0 <= c < |roots| && roots[c] == rep[v];
      assert v in t[c].transactionList;
    }
    forall c, d, v | 0 <= c < d < |t| && v in t[c].transactionList ensures v !in t[d].transactionList {
      assert roots[c] != roots[d];
    }
  }

  /** Unite across every link, then group the nodes by root; the order in which the hash map
      of groups is traversed is left open. */
  method ConnectedComponents(g: Graph) returns (table: Table)
    requires InRange(g)
    ensures IsComponentTable(g, table) && IsFinestSplit(g, table)
    ensures forall c :: 0 <= c < |table| ==> table[c].compID == c && Increasing(table[c].transactionList)
  {
    hide Connected, Link, Forest;
    var dsu := new DisjointSets(g.n);
    SingletonsAreSound(g, dsu.rep);
    for i := 0 to g.n
      invariant dsu.Valid() && fresh(dsu) && fresh(dsu.parent) && fresh(dsu.rank)
      invariant |dsu.rep| == g.n && dsu.parent.Length == g.n
      invariant Sound(g, dsu.rep) && Complete(g, dsu.rep, i, 0)
    {
      for j := i + 1 to g.n
        invariant dsu.Valid() && fresh(dsu) && fresh(dsu.parent) && fresh(dsu.rank)
        invariant |dsu.rep| == g.n && dsu.parent.Length == g.n
        invariant Sound(g, dsu.rep) && Complete(g, dsu.rep, i, j)
      {
        if Link(g, i, j) {
          ghost var before := dsu.rep;
          dsu.Unite(i, j);
          UniteStep(g, before, dsu.rep, i, j);
        }
      }
    }
    SameRoots(g, dsu.rep);
    var groups: map<nat, seq<nat>> := map[];
    ghost var rep := dsu.rep;
    for i := 0 to g.n
      invariant dsu.Valid() && fresh(dsu.parent) && dsu.rep == rep && dsu.parent.Length == g.n
      invariant Grouped(rep, groups, i)
    {
      var root, depth := dsu.Find(i);
      GroupNext(rep, groups, i);
      groups := groups[root := (if root in groups then groups[root] else []) + [i]];
    }
    table := Emit(groups);
    ghost var roots: seq<nat> :| Emitted(groups, {}, roots, table);
    EmittedIsTable(g, rep, groups, roots, table);
    TableIsFinestSplit(g, table);
  }

  lemma {:induction false} SingletonsAreSound(g: Graph, rep: seq<nat>)
    requires forall x :: 0 <= x < |rep| ==> rep[x] == x
    ensures Sound(g, rep) && Complete(g, rep, 0, 0)
  {
    forall x: nat | x < |rep| ensures Connected(g, x, x) {
      ConnectedToSelf(g, x);
    }
  }

  lemma {:induction false} UniteStep(g: Graph, rep: seq<nat>, rep': seq<nat>, i: nat, j: nat)
    requires Sound(g, rep) && Complete(g, rep, i, j) && i < |rep| && j < |rep| && Link(g, i, j)
    requires rep[i] == rep[j] ==> rep' == rep
    requires rep' == Merge(rep, rep[i], rep[j]) || rep' == Merge(rep, rep[j], rep[i])
    ensures Sound(g, rep') && Complete(g, rep', i, j + 1)
  {
    MergeIsSound(g, rep, rep', i, j);
    MergeKeepsTogether(rep, rep', i, j);
  }

  lemma {:induction false} SameRoots(g: Graph, rep: seq<nat>)
    requires InRange(g) && |rep| == g.n && Sound(g, rep) && Complete(g, rep, g.n, 0)
    ensures forall x: nat, y: nat :: x < g.n && y < g.n ==> (rep[x] == rep[y] <==> Connected(g, x, y))
  {
    forall x: nat, y: nat | x < g.n && y < g.n ensures rep[x] == rep[y] <==> Connected(g, x, y) {
      SameRootIffConnected(g, rep, x, y);
    }
  }

  method Emit(groups: map<nat, seq<nat>>) returns (table: Table)
    ensures exists roots :: Emitted(groups, {}, roots, table)
    ensures forall c :: 0 <= c < |table| ==> table[c].compID == c && table[c].transactionList in groups.Values
  {
    var rest := groups.Keys;
    ghost var roots: seq<nat> := [];
    table := [];
    while rest != {}
      invariant Emitted(groups, rest, roots, table)
      decreases rest
    {
      var root :| root in rest;
      table := table + [Component(|table|, groups[root])];
      roots := roots + [root];
      rest := rest - {root};
    }
  }
}
