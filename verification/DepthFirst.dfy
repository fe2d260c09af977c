/** The recursive depth-first component search of the single-node DAG module. */
module DepthFirst {
  import opened Graph
  import opened Sets

  ghost function Marked(visited: array<bool>): set<nat>
    reads visited
  {
    set v: nat | v < visited.Length && visited[v]
  }

  /** The nodes of the list are new, listed once, and connected to v. */
  ghost predicate Found(g: Graph, before: set<nat>, marked: set<nat>, v: nat, component: seq<nat>) {
    && marked == before + Elements(component) && before !! Elements(component)
    && Distinct(component) && v in component
    && forall x :: x in component ==> x < g.n && Connected(g, v, x)
  }

  /** Every neighbour of a listed node, other than the exempt one, is marked. */
  ghost predicate NeighboursMarked(g: Graph, marked: set<nat>, component: seq<nat>, exempt: set<nat>) {
    forall x: nat, y: nat :: x in component && x !in exempt && Link(g, x, y) ==> y in marked
  }

  /** Lists v and everything reachable from it through unvisited nodes, marking as it goes. */
  method DFSUtil(g: Graph, v: nat, visited: array<bool>) returns (component: seq<nat>)
    requires InRange(g) && visited.Length == g.n && v < g.n && !visited[v]
    modifies visited
    ensures Found(g, old(Marked(visited)), Marked(visited), v, component)
    ensures NeighboursMarked(g, Marked(visited), component, {})
    ensures SearchedOnEdges(g, Marked(visited), v, component)
    decreases g.n - |Marked(visited)|
  {
    hide Connected, Link, Distinct, Found, NeighboursMarked, SearchedOnEdges;
    ghost var before := Marked(visited);
    component := [v];
    visited[v] := true;
    StartFound(g, before, v);
    assert Marked(visited) == before + {v};
    ProperlyMarked(visited, before, v);
    for i := 0 to g.n
      invariant Found(g, before, Marked(visited), v, component)
      invariant NeighboursMarked(g, Marked(visited), component, {v})
      invariant forall y: nat :: y < i && Link(g, v, y) ==> y in Marked(visited)
      invariant |before| < |Marked(visited)| <= g.n
    {
      if Link(g, v, i) && !visited[i] {
        ghost var mid := Marked(visited);
        var more := DFSUtil(g, i, visited);
        GrowFound(g, before, mid, Marked(visited), v, i, component, more);
        component := component + more;
        MarkedSize(visited, mid);
      }
    }
    AllNeighboursMarked(g, Marked(visited), component, v);
    SearchOnEdges(g, before, Marked(visited), v, component);
  }

  /** On the edges alone: both ends of an edge that touches a listed node are marked, and whatever can
      be separated from v is not listed. */
  ghost predicate SearchedOnEdges(g: Graph, marked: set<nat>, v: nat, component: seq<nat>) {
    && (forall e :: e in g.edges && (e.0 in component || e.1 in component) ==> e.0 in marked && e.1 in marked)
    && (forall s: set<nat> :: Separated(g, s) && v in s ==> Elements(component) <= s)
  }

  lemma {:induction false} SearchOnEdges(g: Graph, before: set<nat>, marked: set<nat>, v: nat, component: seq<nat>)
    requires Found(g, before, marked, v, component) && NeighboursMarked(g, marked, component, {})
    ensures SearchedOnEdges(g, marked, v, component)
  {
    hide Connected;
    forall e | e in g.edges && (e.0 in component || e.1 in component) ensures e.0 in marked && e.1 in marked {
      var (x, y) := e;
      assert Link(g, x, y) && Link(g, y, x);
      assert x in component ==> x in Elements(component);
      assert y in component ==> y in Elements(component);
    }
    forall s: set<nat> | Separated(g, s) && v in s ensures Elements(component) <= s {
      forall x | x in component ensures x in s {
        SeparatedIsClosed(g, s, v, x);
      }
    }
  }

  lemma {:induction false} AllNeighboursMarked(g: Graph, marked: set<nat>, component: seq<nat>, v: nat)
    requires InRange(g) && NeighboursMarked(g, marked, component, {v})
    requires forall y: nat :: y < g.n && Link(g, v, y) ==> y in marked
    ensures NeighboursMarked(g, marked, component, {})
  {
  }

  lemma {:induction false} StartFound(g: Graph, before: set<nat>, v: nat)
    requires v !in before && v < g.n
    ensures Found(g, before, before + {v}, v, [v])
    ensures NeighboursMarked(g, before + {v}, [v], {v})
  {
    ConnectedToSelf(g, v);
    assert Elements([v]) == {v};
  }

  /** What a search from neighbour i adds to a search from v. */
  lemma {:induction false} GrowFound(g: Graph, before: set<nat>, mid: set<nat>, after: set<nat>, v: nat, i: nat,
                  component: seq<nat>, more: seq<nat>)
    requires Found(g, before, mid, v, component) && NeighboursMarked(g, mid, component, {v})
    requires Found(g, mid, after, i, more) && NeighboursMarked(g, after, more, {}) && Link(g, v, i)
    ensures Found(g, before, after, v, component + more)
    ensures NeighboursMarked(g, after, component + more, {v})
    ensures mid <= after && i in after
  {
    assert Elements(component + more) == Elements(component) + Elements(more);
    DistinctConcat(component, more);
    LinkConnects(g, v, i);
    forall x | x in more ensures Connected(g, v, x) {
      ConnectedTransitive(g, v, i, x);
    }
  }

  lemma {:induction false} ProperlyMarked(visited: array<bool>, before: set<nat>, v: nat)
    requires Marked(visited) == before + {v} && v !in before
    ensures |before| < |Marked(visited)| <= visited.Length
  {
    SubsetSize(Marked(visited), Range(visited.Length));
  }

  lemma {:induction false} MarkedSize(visited: array<bool>, before: set<nat>)
    requires before <= Marked(visited)
    ensures |before| <= |Marked(visited)| <= visited.Length
  {
    SubsetSize(before, Marked(visited));
    SubsetSize(Marked(visited), Range(visited.Length));
  }

  lemma {:induction false} DistinctConcat(a: seq<nat>, b: seq<nat>)
    requires Distinct(a) && Distinct(b) && Elements(a) !! Elements(b)
    ensures Distinct(a + b)
  {
    forall i, j | 0 <= i < j < |a + b| ensures (a + b)[i] != (a + b)[j] {
      if i < |a| <= j {
        assert a[i] in Elements(a) && b[j - |a|] in Elements(b);
      }
    }
  }

  /** One depth-first search per unvisited node lists exactly the weak components.  The
      component ids are not set by this version. */
  method ConnectedComponents(g: Graph) returns (table: Table)
    requires InRange(g)
    ensures IsComponentTable(g, table) && IsFinestSplit(g, table)
  {
    hide LinkClosed, IsFinestSplit;
    var visited := new bool[g.n](i => false);
    table := [];
    EmptyIsClosed(g, Marked(visited));
    for i := 0 to g.n
      invariant LinkClosed(g, Marked(visited))
      invariant forall v: nat :: v < i ==> v in Marked(visited)
      invariant Covers(g, table, Marked(visited))
    {
      if !visited[i] {
        ghost var before := Marked(visited);
        var component := DFSUtil(g, i, visited);
        NewComponent(g, table, before, Marked(visited), i, component);
        table := table + [Component(0, component)];
      }
    }
    TableIsFinestSplit(g, table);
  }

  lemma {:induction false} EmptyIsClosed(g: Graph, s: set<nat>)
    requires s == {}
    ensures LinkClosed(g, s) && Covers(g, [], s)
  {
  }

  /** The table lists the classes of the marked nodes. */
  ghost predicate Covers(g: Graph, t: Table, marked: set<nat>) {
    && (forall c :: 0 <= c < |t| ==>
          t[c].transactionList != [] && Distinct(t[c].transactionList)
          && forall v :: v in t[c].transactionList ==> v < g.n && v in marked)
    && (forall v: nat :: v in marked ==> InSome(t, v))
    && (forall c, d, v :: 0 <= c < d < |t| && v in t[c].transactionList ==> v !in t[d].transactionList)
    && ListsClasses(g, t)
  }

  lemma {:induction false} NewComponent(g: Graph, t: Table, before: set<nat>, after: set<nat>, v: nat, component: seq<nat>)
    requires Covers(g, t, before) && LinkClosed(g, before)
    requires Found(g, before, after, v, component) && NeighboursMarked(g, after, component, {})
    ensures LinkClosed(g, after) && Covers(g, t + [Component(0, component)], after)
  {
    var u := t + [Component(0, component)];
    assert LinkClosed(g, after);
    forall c, x: nat, y: nat | 0 <= c < |u| && x in u[c].transactionList && y < g.n
      ensures y in u[c].transactionList <==> Connected(g, x, y)
    {
      if c < |t| {
        assert u[c] == t[c];
      } else {
        ClassOf(g, before, after, v, component, x, y);
      }
    }
    forall w: nat | w in after ensures InSome(u, w) {
      if w in before {
        assert InSome(t, w);
        var c :| 0 <= c < |t| && w in t[c].transactionList;
        assert w in u[c].transactionList;
      } else {
        assert w in u[|t|].transactionList;
      }
    }
    NewIsDisjoint(g, t, before, component);
  }

  lemma {:induction false} NewIsDisjoint(g: Graph, t: Table, before: set<nat>, component: seq<nat>)
    requires Covers(g, t, before) && before !! Elements(component)
    ensures var u := t + [Component(0, component)];
            forall c, d, w :: 0 <= c < d < |u| && w in u[c].transactionList ==> w !in u[d].transactionList
  {
    var u := t + [Component(0, component)];
    forall c, d, w | 0 <= c < d < |u| && w in u[c].transactionList ensures w !in u[d].transactionList {
      if d == |t| {
        assert w in before;
      }
    }
  }

  lemma {:induction false} ClassOf(g: Graph, before: set<nat>, after: set<nat>, v: nat, component: seq<nat>, x: nat, y: nat)
    requires LinkClosed(g, before) && LinkClosed(g, after)
    requires Found(g, before, after, v, component) && x in component && y < g.n
    ensures y in component <==> Connected(g, x, y)
  {
    if y in component {
      ConnectedSymmetric(g, v, x);
      ConnectedTransitive(g, x, v, y);
    }
    if Connected(g, x, y) {
      ClosedContainsConnected(g, after, x, y);
      ConnectedSymmetric(g, x, y);
      if y in before {
        ClosedContainsConnected(g, before, y, x);
      }
    }
  }
}
