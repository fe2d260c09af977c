/** Undirected reachability in the dependency graph, and what a table of components is. */
module Graph {
  import opened Sets

  datatype Graph = Graph(n: nat, edges: set<(nat, nat)>)

  ghost predicate InRange(g: Graph) {
    forall e :: e in g.edges ==> e.0 < g.n && e.1 < g.n
  }

  /** Edges count in both directions: components are weak. */
  predicate Link(g: Graph, x: nat, y: nat) {
    (x, y) in g.edges || (y, x) in g.edges
  }

  ghost predicate IsPath(g: Graph, p: seq<nat>, x: nat, y: nat) {
    && p != [] && p[0] == x && p[|p| - 1] == y
    && forall i :: 0 <= i < |p| - 1 ==> Link(g, p[i], p[i+1])
  }

  ghost predicate Connected(g: Graph, x: nat, y: nat) {
    exists p :: IsPath(g, p, x, y)
  }

  lemma {:induction false} ConnectedToSelf(g: Graph, x: nat)
    ensures Connected(g, x, x)
  {
    assert IsPath(g, [x], x, x);
  }

  lemma {:induction false} LinkConnects(g: Graph, x: nat, y: nat)
    requires Link(g, x, y)
    ensures Connected(g, x, y)
  {
    assert IsPath(g, [x, y], x, y);
  }

  lemma {:induction false} ConnectedTransitive(g: Graph, x: nat, y: nat, z: nat)
    requires Connected(g, x, y) && Connected(g, y, z)
    ensures Connected(g, x, z)
  {
    var p :| IsPath(g, p, x, y);
    var q :| IsPath(g, q, y, z);
    var r := p + q[1..];
    forall i | 0 <= i < |r| - 1 ensures Link(g, r[i], r[i+1]) {
      if i >= |p| - 1 {
        assert r[i] == q[i - (|p| - 1)] && r[i+1] == q[i + 1 - (|p| - 1)];
      }
    }
    assert IsPath(g, r, x, z);
  }

  lemma {:induction false} ConnectedSymmetric(g: Graph, x: nat, y: nat)
    requires Connected(g, x, y)
    ensures Connected(g, y, x)
  {
    var p :| IsPath(g, p, x, y);
    var r := seq(|p|, i requires 0 <= i < |p| => p[|p| - 1 - i]);
    forall i | 0 <= i < |r| - 1 ensures Link(g, r[i], r[i+1]) {
      assert Link(g, p[|p| - 2 - i], p[|p| - 2 - i + 1]);
    }
    assert IsPath(g, r, y, x);
  }

  /** A set that no link leaves contains everything connected to a member. */
  ghost predicate LinkClosed(g: Graph, s: set<nat>) {
    forall x: nat, y: nat :: x in s && Link(g, x, y) ==> y in s
  }

  lemma {:induction false} ClosedContainsConnected(g: Graph, s: set<nat>, x: nat, y: nat)
    requires LinkClosed(g, s) && x in s && Connected(g, x, y)
    ensures y in s
  {
    var p :| IsPath(g, p, x, y);
    PathStaysIn(g, s, p, |p| - 1);
  }

  lemma {:induction false} PathStaysIn(g: Graph, s: set<nat>, p: seq<nat>, i: nat)
    requires LinkClosed(g, s) && i < |p| && p[0] in s
    requires forall j :: 0 <= j < |p| - 1 ==> Link(g, p[j], p[j+1])
    ensures p[i] in s
  {
    if i > 0 {
      PathStaysIn(g, s, p, i - 1);
      assert Link(g, p[i-1], p[i-1+1]);
    }
  }

  /* ----- component tables ----- */

  datatype Component = Component(compID: nat, transactionList: seq<nat>)

  type Table = seq<Component>

  ghost predicate Distinct(s: seq<nat>) {
    forall i, j :: 0 <= i < j < |s| ==> s[i] != s[j]
  }

  ghost predicate InSome(t: Table, v: nat) {
    exists c :: 0 <= c < |t| && v in t[c].transactionList
  }

  /** Every node is listed in exactly one place of the table. */
  ghost predicate Partitions(g: Graph, t: Table) {
    && (forall c :: 0 <= c < |t| ==>
          t[c].transactionList != [] && Distinct(t[c].transactionList)
          && forall v :: v in t[c].transactionList ==> v < g.n)
    && (forall v: nat :: v < g.n ==> InSome(t, v))
    && (forall c, d, v :: 0 <= c < d < |t| && v in t[c].transactionList ==> v !in t[d].transactionList)
  }

  /** Two nodes are listed together exactly when they are weakly connected. */
  ghost predicate ListsClasses(g: Graph, t: Table) {
    forall c, x: nat, y: nat :: 0 <= c < |t| && x in t[c].transactionList && y < g.n ==>
      (y in t[c].transactionList <==> Connected(g, x, y))
  }

  ghost predicate IsComponentTable(g: Graph, t: Table) {
    Partitions(g, t) && ListsClasses(g, t)
  }

  ghost function Elements(s: seq<nat>): set<nat> {
    set v | v in s
  }

  /** A table of components is unique up to the order of the table and of each list. */
  lemma {:induction false} ComponentTablesAgree(g: Graph, t: Table, u: Table, c: nat) returns (d: nat)
    requires IsComponentTable(g, t) && IsComponentTable(g, u) && c < |t|
    ensures d < |u| && Elements(t[c].transactionList) == Elements(u[d].transactionList)
  {
    var x := t[c].transactionList[0];
    assert x in t[c].transactionList;
    assert InSome(u, x);
    d :| d < |u| && x in u[d].transactionList;
    forall y: nat ensures y in Elements(t[c].transactionList) <==> y in Elements(u[d].transactionList) {
      if y < g.n {
        assert y in t[c].transactionList <==> Connected(g, x, y);
        assert y in u[d].transactionList <==> Connected(g, x, y);
      }
    }
  }

  lemma {:induction false} DistinctSize(s: seq<nat>)
    requires Distinct(s)
    ensures |Elements(s)| == |s|
  {
    if s != [] {
      var most, last := s[..|s| - 1], s[|s| - 1];
      DistinctSize(most);
      assert s == most + [last];
      assert Elements(s) == Elements(most) + {last};
    }
  }

  /* ----- the same, on the edges alone ----- */

  /** No edge joins a member of s with another node. */
  ghost predicate Separated(g: Graph, s: set<nat>) {
    forall e :: e in g.edges ==> (e.0 in s <==> e.1 in s)
  }

  /** No edge leaves a row of the table, and no row can be split without cutting an edge. */
  ghost predicate IsFinestSplit(g: Graph, t: Table) {
    && (forall c :: 0 <= c < |t| ==> Separated(g, Elements(t[c].transactionList)))
    && (forall c, s: set<nat> :: 0 <= c < |t| && Separated(g, s) ==>
          Elements(t[c].transactionList) <= s || Elements(t[c].transactionList) !! s)
  }

  lemma {:induction false} SeparatedIsClosed(g: Graph, s: set<nat>, x: nat, y: nat)
    requires Separated(g, s) && x in s && Connected(g, x, y)
    ensures y in s
  {
    forall u: nat, v: nat | u in s && Link(g, u, v) ensures v in s {
      assert (u, v) in g.edges || (v, u) in g.edges;
    }
    ClosedContainsConnected(g, s, x, y);
  }

  /** The components of a graph are the finest split of its nodes that cuts no edge. */
  lemma {:induction false} TableIsFinestSplit(g: Graph, t: Table)
    requires InRange(g) && IsComponentTable(g, t)
    ensures IsFinestSplit(g, t)
  {
    hide Connected;
    forall c | 0 <= c < |t| ensures Separated(g, Elements(t[c].transactionList)) {
      forall e | e in g.edges ensures e.0 in t[c].transactionList <==> e.1 in t[c].transactionList {
        var (x, y) := e;
        assert Link(g, x, y) && Link(g, y, x);
        LinkConnects(g, x, y);
        LinkConnects(g, y, x);
      }
    }
    forall c, s: set<nat> | 0 <= c < |t| && Separated(g, s)
      ensures Elements(t[c].transactionList) <= s || Elements(t[c].transactionList) !! s
    {
      if x :| x in t[c].transactionList && x in s {
        forall y | y in t[c].transactionList ensures y in s {
          assert Connected(g, x, y);
          SeparatedIsClosed(g, s, x, y);
        }
      }
    }
  }

  /** Without edges every node has a row of its own. */
  lemma {:induction false} NoEdgesMeansSingletons(g: Graph, t: Table)
    requires Partitions(g, t) && IsFinestSplit(g, t) && g.edges == {}
    ensures |t| == g.n && forall c :: 0 <= c < |t| ==> |t[c].transactionList| == 1
  {
    forall c, v | 0 <= c < |t| && v in t[c].transactionList ensures t[c].transactionList == [v] {
      var row := t[c].transactionList;
      assert Separated(g, {v});
      assert v in Elements(row);
      assert Elements(row) == {v};
      DistinctSize(row);
      assert row[0] in Elements(row);
    }
    var firsts := seq(|t|, c requires 0 <= c < |t| => t[c].transactionList[0]);
    forall c | 0 <= c < |t| ensures firsts[c] in t[c].transactionList && t[c].transactionList == [firsts[c]] {
      assert t[c].transactionList[0] in t[c].transactionList;
    }
    forall c, d | 0 <= c < d < |firsts| ensures firsts[c] != firsts[d] {
      assert firsts[c] in t[c].transactionList;
    }
    DistinctSize(firsts);
    forall v: nat ensures v in Elements(firsts) <==> v < g.n {
      if v < g.n {
        assert InSome(t, v);
        var c :| 0 <= c < |t| && v in t[c].transactionList;
        assert firsts[c] == v;
      }
    }
    assert Elements(firsts) == Range(g.n);
  }
}
