/** The leader deals the components of a block to the healthy followers, round robin. */
module Leader {
  import opened Block
  import opened Graph
  import opened Assignment
  import opened Arithmetic
  import Cluster
  import UnionFind

  datatype Member = Member(id: nat, healthy: bool)

  function HealthyIds(members: seq<Member>): seq<nat> {
    if members == [] then []
    else HealthyIds(members[..|members| - 1])
         + if members[|members| - 1].healthy then [members[|members| - 1].id] else []
  }

  /** `at` are the positions of the healthy members, in list order, and `ids` their ids. */
  ghost predicate IsListing(members: seq<Member>, ids: seq<nat>, at: seq<nat>) {
    && |at| == |ids|
    && (forall i, j :: 0 <= i < j < |at| ==> at[i] < at[j])
    && (forall i :: 0 <= i < |at| ==> at[i] < |members| && members[at[i]].healthy && ids[i] == members[at[i]].id)
    && (forall m: nat :: m < |members| && members[m].healthy ==> m in at)
  }

  /** The ids are those of the healthy members, each once per such member, in list order. */
  ghost predicate ListsHealthy(members: seq<Member>, ids: seq<nat>) {
    exists at :: IsListing(members, ids, at)
  }

  ghost predicate SomeHealthy(members: seq<Member>) {
    exists m: nat :: m < |members| && members[m].healthy
  }

  lemma {:induction false} HealthyIdsListHealthy(members: seq<Member>)
    ensures ListsHealthy(members, HealthyIds(members))
  {
    hide IsListing;
    if members == [] {
      NobodyListed();
    } else {
      var n := |members| - 1;
      var most, ids := members[..n], HealthyIds(members[..n]);
      HealthyIdsListHealthy(most);
      var at: seq<nat> :| IsListing(most, ids, at);
      if members[n].healthy {
        OneMoreHealthy(members, ids, at);
      } else {
        OneMoreUnhealthy(members, ids, at);
        assert ids + [] == ids;
      }
    }
  }

  lemma {:induction false} NobodyListed()
    ensures IsListing([], [], [])
  {
  }

  lemma {:induction false} OneMoreUnhealthy(members: seq<Member>, ids: seq<nat>, at: seq<nat>)
    requires members != [] && !members[|members| - 1].healthy && IsListing(members[..|members| - 1], ids, at)
    ensures IsListing(members, ids, at)
  {
    var n := |members| - 1;
    forall m: nat | m < |members| && members[m].healthy ensures m in at {
      assert members[..n][m] == members[m];
    }
  }

  lemma {:induction false} OneMoreHealthy(members: seq<Member>, ids: seq<nat>, at: seq<nat>)
    requires members != [] && members[|members| - 1].healthy && IsListing(members[..|members| - 1], ids, at)
    ensures IsListing(members, ids + [members[|members| - 1].id], at + [|members| - 1])
  {
    var n := |members| - 1;
    var at' := at + [n];
    assert forall m: nat :: m < n ==> members[..n][m] == members[m];
    forall m: nat | m < |members| && members[m].healthy ensures m in at' {
      if m == n {
        assert at'[|at|] == n;
      } else {
        var i :| 0 <= i < |at| && at[i] == m;
        assert at'[i] == m;
      }
    }
  }

  lemma {:induction false} ListedIsHealthy(members: seq<Member>, ids: seq<nat>, at: seq<nat>, i: nat)
    requires IsListing(members, ids, at) && i < |ids|
    ensures IsHealthyId(members, ids[i]) && SomeHealthy(members)
  {
    assert members[at[i]].healthy && members[at[i]].id == ids[i];
  }

  lemma {:induction false} HealthyIsListed(members: seq<Member>, ids: seq<nat>, at: seq<nat>)
    requires IsListing(members, ids, at) && SomeHealthy(members)
    ensures ids != []
  {
    var m: nat :| m < |members| && members[m].healthy;
    assert m in at;
  }

  /** Some member is healthy exactly when there is an id to deal to, and every such id is one. */
  lemma {:induction false} ListingFacts(members: seq<Member>, ids: seq<nat>)
    requires ListsHealthy(members, ids)
    ensures ids != [] <==> SomeHealthy(members)
    ensures forall i :: 0 <= i < |ids| ==> IsHealthyId(members, ids[i])
  {
    hide IsListing, SomeHealthy, IsHealthyId;
    var at: seq<nat> :| IsListing(members, ids, at);
    forall i | 0 <= i < |ids| ensures IsHealthyId(members, ids[i]) && SomeHealthy(members) {
      ListedIsHealthy(members, ids, at, i);
    }
    if ids != [] {
      ListedIsHealthy(members, ids, at, 0);
    }
    if SomeHealthy(members) {
      HealthyIsListed(members, ids, at);
    }
  }

  ghost predicate IsHealthyId(members: seq<Member>, id: nat) {
    exists m: nat :: m < |members| && members[m].healthy && members[m].id == id
  }

  class LeaderNode {
    var memberList: seq<Member>
    var healthyMemberIds: seq<nat>
    var table: Table
    /** The assignedFollower field of each entry of the table. */
    var assignedFollower: seq<nat>

    constructor (members: seq<Member>, components: Table)
      ensures memberList == members && table == components && healthyMemberIds == []
      ensures |assignedFollower| == |components|
    {
      memberList, table, healthyMemberIds := members, components, [];
      assignedFollower := seq(|components|, _ => 0);
    }

    /** Fails only when there is something to deal and nobody to deal it to. */
    method AssignFollowers() returns (ok: bool)
      requires |assignedFollower| == |table|
      modifies this`healthyMemberIds, this`assignedFollower
      ensures healthyMemberIds == old(healthyMemberIds) + HealthyIds(memberList)
      ensures ok <==> table == [] || healthyMemberIds != []
      ensures |assignedFollower| == |table|
      ensures ok ==> forall c :: 0 <= c < |table| ==> assignedFollower[c] == healthyMemberIds[c % |healthyMemberIds|]
      ensures !ok ==> assignedFollower == old(assignedFollower)
      ensures old(healthyMemberIds) == [] ==>
                && ListsHealthy(memberList, healthyMemberIds)
                && (ok <==> table == [] || SomeHealthy(memberList))
                && (ok ==> forall c :: 0 <= c < |table| ==> IsHealthyId(memberList, assignedFollower[c]))
    {
      hide ListsHealthy, IsHealthyId, SomeHealthy, HealthyIds;
      NobodyYet(memberList);
      for m := 0 to |memberList|
        invariant healthyMemberIds == old(healthyMemberIds) + HealthyIds(memberList[..m])
        invariant assignedFollower == old(assignedFollower)
      {
        NextHealthy(memberList, m);
        if memberList[m].healthy {
          healthyMemberIds := healthyMemberIds + [memberList[m].id];
        }
      }
      assert memberList[..|memberList|] == memberList;
      HealthyIdsListHealthy(memberList);
      ListingFacts(memberList, HealthyIds(memberList));
      assert [] + HealthyIds(memberList) == HealthyIds(memberList);
      var activeFollowers := |healthyMemberIds|;
      for i := 0 to |table|
        invariant |assignedFollower| == |table| && |healthyMemberIds| == activeFollowers
        invariant healthyMemberIds == old(healthyMemberIds) + HealthyIds(memberList)
        invariant i > 0 ==> activeFollowers > 0
        invariant forall c :: 0 <= c < i ==> assignedFollower[c] == healthyMemberIds[c % activeFollowers]
        invariant i == 0 ==> assignedFollower == old(assignedFollower)
      {
        if activeFollowers > 0 {
          var index := i % activeFollowers;
          assignedFollower := assignedFollower[i := healthyMemberIds[index]];
        } else {
          return false;
        }
      }
      return true;
    }
  }

  lemma {:induction false} NobodyYet(members: seq<Member>)
    ensures HealthyIds(members[..0]) == []
  {
  }

  lemma {:induction false} NextHealthy(members: seq<Member>, m: nat)
    requires m < |members|
    ensures HealthyIds(members[..m+1]) == HealthyIds(members[..m]) + if members[m].healthy then [members[m].id] else []
  {
    assert members[..m+1][..m] == members[..m];
  }

  /** Whose turn it is when component c is dealt to m followers. */
  function Turn(c: nat, m: nat): nat
    requires m > 0
  {
    c % m
  }

  /** The rounds completed before component c. */
  function Rounds(c: nat, m: nat): nat
    requires m > 0
  {
    c / m
  }

  lemma {:induction false} NextTurn(c: nat, m: nat)
    requires m > 0
    ensures Turn(c, m) < m && Turn(0, m) == 0 && Rounds(0, m) == 0
    ensures Turn(c, m) == m - 1 ==> Turn(c + 1, m) == 0 && Rounds(c + 1, m) == Rounds(c, m) + 1
    ensures Turn(c, m) != m - 1 ==> Turn(c + 1, m) == Turn(c, m) + 1 && Rounds(c + 1, m) == Rounds(c, m)
  {
    Quotient(0, m, 0, 0);
    NextQuotient(c, m);
  }

  /** The components, of n, that go to the k-th of m followers. */
  ghost function DealtTo(n: nat, m: nat, k: nat): set<nat>
    requires m > 0
  {
    set c: nat | c < n && Turn(c, m) == k
  }

  lemma {:induction false} DealtInRounds(n: nat, m: nat, k: nat)
    requires k < m
    ensures |DealtTo(n, m, k)| == Rounds(n, m) + if k < Turn(n, m) then 1 else 0
  {
    hide Turn, Rounds;
    if n == 0 {
      NextTurn(0, m);
      assert DealtTo(0, m, k) == {};
    } else {
      DealtInRounds(n - 1, m, k);
      NextTurn(n - 1, m);
      if Turn(n - 1, m) == k {
        assert DealtTo(n, m, k) == DealtTo(n - 1, m, k) + {n - 1};
      } else {
        assert DealtTo(n, m, k) == DealtTo(n - 1, m, k);
      }
    }
  }

  /** Round robin is balanced: the k-th of m followers gets n / m components, and one more when
      k is less than the remainder. */
  lemma {:induction false} RoundRobinIsBalanced(n: nat, m: nat, k: nat)
    requires k < m
    ensures |DealtTo(n, m, k)| == n / m + if k < n % m then 1 else 0
  {
    DealtInRounds(n, m, k);
  }

  /** No conflict joins a member of s with another transaction. */
  ghost predicate ConflictFree(b: Txns, s: set<nat>) {
    forall i: nat, j: nat :: Edge(b, i, j) ==> (i in s <==> j in s)
  }

  /** From a block to a plan the cluster theorems apply to: the components found by union-find,
      with any owners at all, split the block into shares that can be executed apart.  They are the
      finest such split, and the owners are healthy members, in turn. */
  method MakePlan(b: Txns, members: seq<Member>) returns (ok: bool, table: Table, owners: seq<nat>)
    requires WellDeclared(b)
    ensures ok ==> Cluster.ValidPlan(Cluster.Plan(b, table, owners))
    ensures ok <==> b == [] || HealthyIds(members) != []
    ensures ok <==> b == [] || SomeHealthy(members)
    ensures ok && table != [] ==>
              HealthyIds(members) != []
              && forall c :: 0 <= c < |table| ==>
                     table[c].compID == c && owners[c] == HealthyIds(members)[c % |HealthyIds(members)|]
    ensures ok ==> |owners| == |table| && forall c :: 0 <= c < |owners| ==> IsHealthyId(members, owners[c])
    ensures forall c :: 0 <= c < |table| ==> ConflictFree(b, Elements(table[c].transactionList))
    ensures forall c, s: set<nat> :: 0 <= c < |table| && ConflictFree(b, s) ==>
              Elements(table[c].transactionList) <= s || Elements(table[c].transactionList) !! s
    ensures (forall i: nat, j: nat :: !Edge(b, i, j)) ==> |table| == |b|
  {
    hide WellDeclared, Conflict, IsComponentTable, IsFinestSplit, ConflictFree, IsHealthyId, SomeHealthy, ListsHealthy, HealthyIds;
    ghost var g := GraphOf(b);
    var edges: set<(nat, nat)> := {};
    for i := 0 to |b|
      invariant forall x: nat, y: nat :: (x, y) in edges <==> x < i && Edge(b, x, y)
    {
      for j := i + 1 to |b|
        invariant forall x: nat, y: nat :: (x, y) in edges <==> (x < i || (x == i && y < j)) && Edge(b, x, y)
      {
        if Edge(b, i, j) {
          edges := edges + {(i, j)};
        }
      }
    }
    GraphOfEdges(b, edges);
    table := UnionFind.ConnectedComponents(Graph(|b|, edges));
    var leader := new LeaderNode(members, table);
    ok := leader.AssignFollowers();
    owners := leader.assignedFollower;
    assert [] + HealthyIds(members) == HealthyIds(members);
    TableIsEmptyIff(g, table);
    FinestOnConflicts(b, table);
    HealthyIdsListHealthy(members);
    ListingFacts(members, HealthyIds(members));
  }

  lemma {:induction false} SeparatedIsConflictFree(b: Txns, s: set<nat>)
    ensures Separated(GraphOf(b), s) <==> ConflictFree(b, s)
  {
    hide Conflict;
    var g := GraphOf(b);
    if Separated(g, s) {
      forall i: nat, j: nat | Edge(b, i, j) ensures i in s <==> j in s {
        assert (i, j) in g.edges;
      }
    }
    if ConflictFree(b, s) {
      forall e | e in g.edges ensures e.0 in s <==> e.1 in s {
        assert Edge(b, e.0, e.1);
      }
    }
  }

  lemma {:induction false} FinestOnConflicts(b: Txns, t: Table)
    requires IsComponentTable(GraphOf(b), t) && IsFinestSplit(GraphOf(b), t)
    ensures forall c :: 0 <= c < |t| ==> ConflictFree(b, Elements(t[c].transactionList))
    ensures forall c, s: set<nat> :: 0 <= c < |t| && ConflictFree(b, s) ==>
              Elements(t[c].transactionList) <= s || Elements(t[c].transactionList) !! s
    ensures (forall i: nat, j: nat :: !Edge(b, i, j)) ==> |t| == |b|
  {
    hide Conflict, ListsClasses, Separated, ConflictFree;
    forall c | 0 <= c < |t| ensures ConflictFree(b, Elements(t[c].transactionList)) {
      SeparatedIsConflictFree(b, Elements(t[c].transactionList));
    }
    forall c, s: set<nat> | 0 <= c < |t| && ConflictFree(b, s)
      ensures Elements(t[c].transactionList) <= s || Elements(t[c].transactionList) !! s
    {
      SeparatedIsConflictFree(b, s);
    }
    if forall i: nat, j: nat :: !Edge(b, i, j) {
      assert GraphOf(b).edges == {};
      NoEdgesMeansSingletons(GraphOf(b), t);
    }
  }

  lemma {:induction false} GraphOfEdges(b: Txns, edges: set<(nat, nat)>)
    requires forall x: nat, y: nat :: (x, y) in edges <==> Edge(b, x, y)
    ensures Graph(|b|, edges) == GraphOf(b) && InRange(GraphOf(b))
  {
    hide Conflict;
    forall e: (nat, nat) ensures e in edges <==> e in GraphOf(b).edges {
      var (x, y) := e;
      assert e == (x, y);
    }
  }

  lemma {:induction false} TableIsEmptyIff(g: Graph, t: Table)
    requires IsComponentTable(g, t)
    ensures t == [] <==> g.n == 0
  {
    if t != [] {
      var v := t[0].transactionList[0];
      assert v in t[0].transactionList;
    }
    if g.n > 0 {
      assert InSome(t, 0);
    }
  }
}
