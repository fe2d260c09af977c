/** The follower's scheduler: it builds the matrix of the whole block, but arms only the
    transactions of the components assigned to it, each component once. */
module FollowerScheduler {
  import opened Block
  import opened TaskCore
  import opened Graph
  import opened Assignment
  import opened DagBuild
  import opened DagModule
  import Cluster

  /** The transactions of the first `rows` table entries that belong to node f and whose
      component it has not processed yet. */
  ghost function NewBelow(t: Table, owners: Owners, f: nat, processed: set<nat>, rows: nat): set<nat>
    requires |owners| == |t| && rows <= |t|
  {
    set c, v | 0 <= c < rows && owners[c] == f && t[c].compID !in processed && v in t[c].transactionList :: v
  }

  ghost function NewTxns(t: Table, owners: Owners, f: nat, processed: set<nat>): set<nat>
    requires |owners| == |t|
  {
    NewBelow(t, owners, f, processed, |t|)
  }

  ghost function IdsBelow(t: Table, owners: Owners, f: nat, rows: nat): set<nat>
    requires |owners| == |t| && rows <= |t|
  {
    set c | 0 <= c < rows && owners[c] == f :: t[c].compID
  }

  /** Component ids are given out once. */
  ghost predicate DistinctIds(t: Table) {
    forall c, d :: 0 <= c < d < |t| ==> t[c].compID != t[d].compID
  }

  /** Entry c is new: it adds its own transactions, and none of them twice. */
  lemma {:induction false} NewBelowTakes(b: Txns, t: Table, owners: Owners, f: nat, processed: set<nat>, c: nat)
    requires Dealt(b, t, owners) && c < |t|
    ensures |Elements(t[c].transactionList)| == |t[c].transactionList|
    ensures owners[c] == f && t[c].compID !in processed ==>
              && NewBelow(t, owners, f, processed, c + 1) == NewBelow(t, owners, f, processed, c) + Elements(t[c].transactionList)
              && NewBelow(t, owners, f, processed, c) !! Elements(t[c].transactionList)
    ensures !(owners[c] == f && t[c].compID !in processed) ==>
              NewBelow(t, owners, f, processed, c + 1) == NewBelow(t, owners, f, processed, c)
  {
    hide GraphOf, ListsClasses, InSome;
    DistinctSize(t[c].transactionList);
    var before, after := NewBelow(t, owners, f, processed, c), NewBelow(t, owners, f, processed, c + 1);
    forall v ensures v in after <==> v in before || (owners[c] == f && t[c].compID !in processed && v in Elements(t[c].transactionList)) {
      if v in after {
        var d :| 0 <= d < c + 1 && owners[d] == f && t[d].compID !in processed && v in t[d].transactionList;
      }
    }
  }

  /** The in-degrees d after the transactions in `armed` have been armed. */
  ghost function ArmedWith(b: Txns, d: seq<int>, armed: set<nat>): seq<int> {
    seq(|d|, v requires 0 <= v < |d| => if v in armed then |Preds(b, v)| else d[v])
  }

  lemma {:induction false} ArmMore(b: Txns, d: seq<int>, armed: set<nat>, more: set<nat>)
    ensures ArmedWith(b, ArmedWith(b, d, armed), more) == ArmedWith(b, d, armed + more)
  {
  }

  lemma {:induction false} ArmNobody(b: Txns, d: seq<int>)
    ensures ArmedWith(b, d, {}) == d
  {
  }

  /** What a follower keeps about its reading of components tables. */
  datatype Reading = Reading(inDegree: seq<int>, completed: int, processed: set<nat>)

  /** `now` is what becomes of `was` when the first c entries of a table have been read. */
  ghost predicate HasRead(b: Txns, t: Table, owners: Owners, f: nat, was: Reading, now: Reading, c: nat)
    requires |owners| == |t| && c <= |t|
  {
    && now.inDegree == ArmedWith(b, was.inDegree, NewBelow(t, owners, f, was.processed, c))
    && now.completed == was.completed - |NewBelow(t, owners, f, was.processed, c)|
    && now.processed == was.processed + IdsBelow(t, owners, f, c)
  }

  lemma {:induction false} NothingRead(b: Txns, t: Table, owners: Owners, f: nat, r: Reading)
    requires |owners| == |t|
    ensures HasRead(b, t, owners, f, r, r, 0)
  {
    assert NewBelow(t, owners, f, r.processed, 0) == {} && IdsBelow(t, owners, f, 0) == {};
    ArmNobody(b, r.inDegree);
  }

  /** What reading one entry does. */
  ghost function ReadOne(b: Txns, component: Component, own: bool, r: Reading): Reading {
    if own && component.compID !in r.processed then
      Reading(ArmedWith(b, r.inDegree, Elements(component.transactionList)), r.completed - |component.transactionList|,
              r.processed + {component.compID})
    else r
  }

  lemma {:induction false} ReadsNext(b: Txns, t: Table, owners: Owners, f: nat, was: Reading, now: Reading, c: nat)
    requires Dealt(b, t, owners) && DistinctIds(t) && c < |t| && HasRead(b, t, owners, f, was, now, c)
    ensures HasRead(b, t, owners, f, was, ReadOne(b, t[c], owners[c] == f, now), c + 1)
    ensures ReadOne(b, t[c], owners[c] == f, now).processed != was.processed
            <==> now.processed != was.processed || (owners[c] == f && t[c].compID !in now.processed)
  {
    hide IsComponentTable, NewBelow, DistinctIds, IdsBelow, ArmedWith, Elements;
    NewBelowTakes(b, t, owners, f, was.processed, c);
    IdsBelowNext(t, owners, f, c);
    ArmMore(b, was.inDegree, NewBelow(t, owners, f, was.processed, c), Elements(t[c].transactionList));
  }

  class Scheduler {
    var txns: Txns
    var adjacencyMatrix: array2<int>
    var inDegree: array<int>
    var completedTxns: int
    var lastTxn: int
    var totalTxns: nat
    var processed: set<nat>
    var updateFlag: bool

    ghost predicate Shaped()
      reads this
    {
      && totalTxns == |txns|
      && adjacencyMatrix.Length0 == adjacencyMatrix.Length1 == totalTxns
      && inDegree.Length == totalTxns
    }

    ghost predicate MatrixIsConflict()
      reads this, adjacencyMatrix
    {
      && Shaped()
      && forall i: nat, j: nat :: i < totalTxns && j < totalTxns ==>
           adjacencyMatrix[i, j] == if Edge(txns, i, j) then 1 else 0
    }

    ghost function Now(): Reading
      reads this, inDegree
    {
      Reading(inDegree[..], completedTxns, processed)
    }

    /** extractBlock and createfollower: the whole matrix, every in-degree -1, everything
        counted as completed.  The chunks are filled one after the other here; DagBuild
        shows that their order and interleaving do not matter. */
    constructor (block: Txns, threadCount: nat)
      requires threadCount >= 1
      ensures MatrixIsConflict() && txns == block && fresh(adjacencyMatrix) && fresh(inDegree)
      ensures inDegree[..] == seq(|block|, _ => -1)
      ensures completedTxns == |block| && lastTxn == 0 && processed == {} && !updateFlag
    {
      txns, totalTxns := block, |block|;
      completedTxns, lastTxn := |block|, 0;
      processed, updateFlag := {}, false;
      adjacencyMatrix := new int[|block|, |block|]((i, j) => 0);
      inDegree := new int[|block|](i => -1);
      new;
      hide Edge, Start, End;
      LastChunkEndsAtN(totalTxns, threadCount);
      for pid := 0 to threadCount
        invariant Shaped() && txns == block && fresh(adjacencyMatrix) && fresh(inDegree)
        invariant inDegree[..] == seq(|block|, _ => -1)
        invariant forall i: nat, j: nat :: i < totalTxns && j < totalTxns ==>
                    adjacencyMatrix[i, j] == if i < Start(totalTxns, threadCount, pid) && Edge(txns, i, j) then 1 else 0
        invariant completedTxns == |block| && lastTxn == 0 && processed == {} && !updateFlag
      {
        NextChunkStartsAtEnd(totalTxns, threadCount, pid);
        ChunkInRange(totalTxns, threadCount, pid);
        DependencyMatrix(threadCount, pid);
      }
    }

    method DependencyMatrix(threadCount: nat, pid: nat)
      requires Shaped() && threadCount >= 1 && pid < threadCount
      requires forall i: nat, j: nat :: i < totalTxns && j < totalTxns && InChunk(totalTxns, threadCount, pid, i) ==>
                 adjacencyMatrix[i, j] == 0
      modifies adjacencyMatrix
      ensures forall i: nat, j: nat :: i < totalTxns && j < totalTxns ==>
                adjacencyMatrix[i, j] == if InChunk(totalTxns, threadCount, pid, i)
                                         then (if Edge(txns, i, j) then 1 else 0) else old(adjacencyMatrix[i, j])
    {
      hide Start, End, MatrixIsConflict;
      var start, end := Start(totalTxns, threadCount, pid), End(totalTxns, threadCount, pid);
      ChunkInRange(totalTxns, threadCount, pid);
      for i := start to end
        invariant forall r: nat, j: nat :: r < totalTxns && j < totalTxns ==>
                    adjacencyMatrix[r, j] == if start <= r < i then (if Edge(txns, r, j) then 1 else 0)
                                             else old(adjacencyMatrix[r, j])
      {
        for j := i + 1 to totalTxns
          invariant forall r: nat, c: nat :: r < totalTxns && c < totalTxns ==>
                      adjacencyMatrix[r, c] == if start <= r < i || (r == i && c < j) then (if Edge(txns, r, c) then 1 else 0)
                                               else old(adjacencyMatrix[r, c])
        {
          var flag := AnyEqual(txns[i].inputs, txns[j].outputs);
          if !flag {
            flag := AnyEqual(txns[i].outputs, txns[j].inputs);
          }
          if !flag {
            flag := AnyEqual(txns[i].outputs, txns[j].outputs);
          }
          if flag {
            adjacencyMatrix[i, j] := 1;
          }
        }
      }
    }

    method ColumnSum(colIndex: nat) returns (sum: int)
      requires MatrixIsConflict() && colIndex < totalTxns
      ensures sum == |Preds(txns, colIndex)|
    {
      sum := 0;
      assert PredsBelow(txns, colIndex, 0) == {};
      for row := 0 to adjacencyMatrix.Length0
        invariant sum == |PredsBelow(txns, colIndex, row)|
      {
        PredsBelowNext(txns, colIndex, row);
        sum := sum + adjacencyMatrix[row, colIndex];
      }
      assert PredsBelow(txns, colIndex, totalTxns) == Preds(txns, colIndex);
    }

    /** Arms the transactions of one component. */
    method ProcessIndegree(component: Component)
      requires MatrixIsConflict()
      requires forall v :: v in component.transactionList ==> v < totalTxns
      modifies this`completedTxns, inDegree
      ensures MatrixIsConflict()
      ensures inDegree[..] == ArmedWith(txns, old(inDegree[..]), Elements(component.transactionList))
      ensures completedTxns == old(completedTxns) - |component.transactionList|
    {
      hide Preds, Edge;
      ArmNobody(txns, inDegree[..]);
      for j := 0 to |component.transactionList|
        invariant MatrixIsConflict()
        invariant inDegree[..] == ArmedWith(txns, old(inDegree[..]), Elements(component.transactionList[..j]))
        invariant completedTxns == old(completedTxns) - j
      {
        var col := component.transactionList[j];
        assert col in component.transactionList;
        var sum := ColumnSum(col);
        inDegree[col] := sum;
        completedTxns := completedTxns - 1;
        assert component.transactionList[..j+1] == component.transactionList[..j] + [col];
      }
      assert component.transactionList[..|component.transactionList|] == component.transactionList;
    }

    method CheckForNewComponents(component: Component) returns (isNew: bool)
      modifies this`processed
      ensures isNew <==> component.compID !in old(processed)
      ensures processed == if isNew then old(processed) + {component.compID} else old(processed)
    {
      if component.compID !in processed {
        processed := processed + {component.compID};
        return true;
      }
      return false;
    }

    /** One entry of a table that has just been read. */
    method ExtractOne(component: Component, assignedFollower: nat, nodeId: nat) returns (armed: bool)
      requires MatrixIsConflict()
      requires forall v :: v in component.transactionList ==> v < totalTxns
      modifies this`completedTxns, this`processed, inDegree
      ensures MatrixIsConflict()
      ensures armed <==> assignedFollower == nodeId && component.compID !in old(processed)
      ensures Now() == ReadOne(txns, component, assignedFollower == nodeId, old(Now()))
    {
      hide ArmedWith, Edge;
      armed := false;
      if nodeId == assignedFollower {
        armed := CheckForNewComponents(component);
        if armed {
          ProcessIndegree(component);
        }
      }
    }

    /** ExtractNewComponents: reads a components table, at any time.  Exactly the transactions of
        own components that were not processed before are armed; a transaction that has been
        claimed or finished meanwhile, or that belongs to another node, is not touched. */
    method ExtractNewComponents(t: Table, owners: Owners, nodeId: nat)
      requires MatrixIsConflict() && Dealt(txns, t, owners) && DistinctIds(t)
      modifies this`completedTxns, this`processed, this`updateFlag, inDegree
      ensures MatrixIsConflict()
      ensures HasRead(txns, t, owners, nodeId, old(Now()), Now(), |t|)
      ensures updateFlag <==> old(updateFlag) || processed != old(processed)
    {
      hide HasRead, DistinctIds, Edge, ReadOne, IsComponentTable, GraphOf;
      ghost var was := Now();
      NothingRead(txns, t, owners, nodeId, was);
      for c := 0 to |t|
        invariant MatrixIsConflict() && HasRead(txns, t, owners, nodeId, was, Now(), c)
        invariant updateFlag <==> old(updateFlag) || processed != old(processed)
      {
        ReadsNext(txns, t, owners, nodeId, was, Now(), c);
        ListedInRange(txns, t, owners, c);
        var armed := ExtractOne(t[c], owners[c], nodeId);
        if armed {
          updateFlag := true;
        }
      }
    }

    /** ExtractComponents: the same, and the count is to be reported in any case. */
    method ExtractComponents(t: Table, owners: Owners, nodeId: nat)
      requires MatrixIsConflict() && Dealt(txns, t, owners) && DistinctIds(t)
      modifies this`completedTxns, this`processed, this`updateFlag, inDegree
      ensures MatrixIsConflict()
      ensures HasRead(txns, t, owners, nodeId, old(Now()), Now(), |t|)
      ensures updateFlag
    {
      hide HasRead, DistinctIds, Edge, ReadOne, IsComponentTable, GraphOf;
      ghost var was := Now();
      NothingRead(txns, t, owners, nodeId, was);
      for c := 0 to |t|
        invariant MatrixIsConflict() && HasRead(txns, t, owners, nodeId, was, Now(), c)
      {
        ReadsNext(txns, t, owners, nodeId, was, Now(), c);
        ListedInRange(txns, t, owners, c);
        var armed := ExtractOne(t[c], owners[c], nodeId);
      }
      updateFlag := true;
    }

    /** Claims a transaction with in-degree 0: the first one after the last claim, and if
        there is none there the first one of the block. */
    method SelectTxn() returns (r: int)
      requires Shaped()
      modifies this`lastTxn, inDegree
      ensures var s := Cluster.Selected(old(inDegree[..]), old(lastTxn));
              match s
              case None => r == -1 && inDegree[..] == old(inDegree[..]) && lastTxn == old(lastTxn)
              case Some(t) => r == t && t < totalTxns && lastTxn == t && inDegree[..] == old(inDegree[..])[t := -1]
      ensures var d, last := old(inDegree[..]), old(lastTxn);
              && (r == -1 <==> forall i :: 0 <= i < |d| ==> d[i] != 0)
              && (r != -1 ==> 0 <= r < |d| && d[r] == 0)
              && (r != -1 && r > last ==> forall i :: 0 <= i && last < i < r ==> d[i] != 0)
              && (r != -1 && r <= last ==> forall i :: 0 <= i < r || last < i < |d| ==> d[i] != 0)
    {
      ghost var d := inDegree[..];
      var pos := lastTxn + 1;
      var i := pos;
      if pos < 0 {
        i := 0;
      }
      Cluster.FirstZeroFacts(d, 0);
      Cluster.SelectedIsFirst(d, lastTxn);
      while i < totalTxns
        invariant 0 <= i && inDegree[..] == d
        invariant Cluster.FirstZero(d, if pos < 0 then 0 else pos) == Cluster.FirstZero(d, i)
      {
        if inDegree[i] == 0 {
          inDegree[i] := -1;
          lastTxn := i;
          return i;
        }
        i := i + 1;
      }
      i := 0;
      while i < totalTxns
        invariant 0 <= i && inDegree[..] == d
        invariant Cluster.FirstZero(d, 0) == Cluster.FirstZero(d, i)
      {
        if inDegree[i] == 0 {
          inDegree[i] := -1;
          lastTxn := i;
          return i;
        }
        i := i + 1;
      }
      return -1;
    }
  }

  lemma {:induction false} ChunkInRange(n: nat, k: nat, pid: nat)
    requires k >= 1 && pid < k
    ensures Start(n, k, pid) <= End(n, k, pid) <= n
    ensures forall i: nat :: InChunk(n, k, pid, i) <==> Start(n, k, pid) <= i < End(n, k, pid)
  {
    LastChunkEndsAtN(n, k);
    NextChunkStartsAtEnd(n, k, pid);
    if pid + 1 < k {
      ChunksAreOrdered(n, k, pid, k);
    }
  }

  lemma {:induction false} ListedInRange(b: Txns, t: Table, owners: Owners, c: nat)
    requires Dealt(b, t, owners) && c < |t|
    ensures forall v :: v in t[c].transactionList ==> v < |b|
  {
  }

  lemma {:induction false} IdsBelowNext(t: Table, owners: Owners, f: nat, c: nat)
    requires |owners| == |t| && c < |t| && DistinctIds(t)
    ensures IdsBelow(t, owners, f, c + 1) == IdsBelow(t, owners, f, c) + if owners[c] == f then {t[c].compID} else {}
    ensures t[c].compID !in IdsBelow(t, owners, f, c)
  {
    forall id ensures id in IdsBelow(t, owners, f, c + 1) <==>
                      id in IdsBelow(t, owners, f, c) || (owners[c] == f && id == t[c].compID) {
      if id in IdsBelow(t, owners, f, c + 1) {
        var d :| 0 <= d < c + 1 && owners[d] == f && id == t[d].compID;
      }
    }
  }

  /** The first reading of the table arms exactly the follower's share: the node then is the
      one the cluster machine starts from. */
  lemma {:induction false} FirstReadArmsShare(p: Cluster.Plan, f: nat, was: Reading, now: Reading)
    requires |p.owners| == |p.table| && HasRead(p.txns, p.table, p.owners, f, was, now, |p.table|)
    requires was == Reading(seq(|p.txns|, _ => -1), |p.txns|, {})
    ensures now.inDegree == Cluster.Armed(p, f).core.inDegree
    ensures now.completed == Cluster.Armed(p, f).core.completed == |p.txns| - |Mine(p.table, p.owners, f)|
  {
    assert NewTxns(p.table, p.owners, f, {}) == Mine(p.table, p.owners, f);
  }

  /** Reading the same table again, whatever has been claimed and finished since, arms nothing
      and leaves all counts as they are. */
  lemma {:induction false} RereadChangesNothing(b: Txns, t: Table, owners: Owners, f: nat, first: Reading, was: Reading, now: Reading)
    requires |owners| == |t| && was.processed == first.processed + IdsBelow(t, owners, f, |t|)
    requires HasRead(b, t, owners, f, was, now, |t|)
    ensures now == was
  {
    forall c | 0 <= c < |t| && owners[c] == f ensures t[c].compID in was.processed {
      assert t[c].compID in IdsBelow(t, owners, f, |t|);
    }
    assert NewTxns(t, owners, f, was.processed) == {};
    ArmNobody(b, was.inDegree);
  }

  /** Whatever the owners become, a component processed once is never armed again. */
  lemma {:induction false} ProcessedIsNeverRearmed(b: Txns, t: Table, owners: Owners, f: nat, processed: set<nat>, c: nat, v: nat)
    requires Dealt(b, t, owners) && c < |t| && t[c].compID in processed && v in t[c].transactionList
    ensures v !in NewTxns(t, owners, f, processed)
  {
    forall d | 0 <= d < |t| && v in t[d].transactionList ensures d == c {
      assert !(c < d) && !(d < c);
    }
  }

  /** Every predecessor that a column sum counts is in the same component. */
  lemma {:induction false} PredsAreInComponent(b: Txns, t: Table, c: nat, v: nat)
    requires IsComponentTable(GraphOf(b), t) && c < |t| && v in t[c].transactionList
    ensures forall i :: i in Preds(b, v) ==> i in t[c].transactionList
  {
    forall i | i in Preds(b, v) ensures i in t[c].transactionList {
      EdgeStaysInComponent(b, t, i, v, c);
    }
  }
}
