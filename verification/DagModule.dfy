/** The dependency matrix and the in-degree array of the serial node, updated in place. */
module DagModule {
  import opened Block
  import opened TaskCore

  /** Row x of the matrix holds the edges leaving x; only rows below `rows` are counted. */
  ghost function PredsBelow(b: Txns, j: nat, rows: nat): set<nat> {
    set x: nat | x < rows && Edge(b, x, j)
  }

  /** The predecessors of j numbered k or higher. */
  ghost function PredsFrom(b: Txns, j: nat, k: nat): set<nat> {
    set x: nat | k <= x < j && Edge(b, x, j)
  }

  lemma {:induction false} PredsBelowNext(b: Txns, j: nat, rows: nat)
    ensures |PredsBelow(b, j, rows + 1)| == |PredsBelow(b, j, rows)| + if Edge(b, rows, j) then 1 else 0
  {
    if Edge(b, rows, j) {
      assert PredsBelow(b, j, rows + 1) == PredsBelow(b, j, rows) + {rows};
    } else {
      assert PredsBelow(b, j, rows + 1) == PredsBelow(b, j, rows);
    }
  }

  lemma {:induction false} PredsFromNext(b: Txns, j: nat, k: nat)
    ensures |PredsFrom(b, j, k)| == |PredsFrom(b, j, k + 1)| + if Edge(b, k, j) then 1 else 0
  {
    if Edge(b, k, j) {
      assert PredsFrom(b, j, k) == PredsFrom(b, j, k + 1) + {k};
    } else {
      assert PredsFrom(b, j, k) == PredsFrom(b, j, k + 1);
    }
  }

  /** Two nested loops over a pair of address lists. */
  method AnyEqual(xs: seq<string>, ys: seq<string>) returns (flag: bool)
    ensures flag <==> Shares(xs, ys)
  {
    flag := false;
    for j := 0 to |xs|
      invariant flag <==> exists p :: 0 <= p < j && xs[p] in ys
    {
      for k := 0 to |ys|
        invariant flag <==> ((exists p :: 0 <= p < j && xs[p] in ys) || exists q :: 0 <= q < k && xs[j] == ys[q])
      {
        if xs[j] == ys[k] {
          flag := true;
        }
      }
    }
    assert forall p :: 0 <= p < |xs| ==> xs[p] in xs;
  }

  class DAGmodule {
    var CurrentTransactions: Txns
    var adjacencyMatrix: array2<int>
    var inDegree: array<int>
    var completedTxns: int
    var lastTxn: int
    var totalTxns: nat

    ghost predicate Shaped()
      reads this
    {
      && totalTxns == |CurrentTransactions|
      && adjacencyMatrix.Length0 == adjacencyMatrix.Length1 == totalTxns
      && inDegree.Length == totalTxns
    }

    /** Cell (i, j) is 1 exactly for the edges of the conflict relation. */
    ghost predicate MatrixIsConflict()
      reads this, adjacencyMatrix
    {
      && Shaped()
      && forall i: nat, j: nat :: i < totalTxns && j < totalTxns ==>
           adjacencyMatrix[i, j] == if Edge(CurrentTransactions, i, j) then 1 else 0
    }

    constructor ()
      ensures Shaped() && CurrentTransactions == [] && completedTxns == 0
    {
      CurrentTransactions := [];
      totalTxns := 0;
      completedTxns, lastTxn := 0, 0;
      adjacencyMatrix := new int[0, 0];
      inDegree := new int[0];
    }

    method DependencyMatrix()
      requires Shaped()
      requires forall i: nat, j: nat :: i < totalTxns && j < totalTxns ==> adjacencyMatrix[i, j] == 0
      requires forall j: nat :: j < totalTxns ==> inDegree[j] == 0
      modifies adjacencyMatrix, inDegree
      ensures MatrixIsConflict()
      ensures forall j: nat :: j < totalTxns ==> inDegree[j] == |Preds(CurrentTransactions, j)|
    {
      var b := CurrentTransactions;
      assert forall j: nat :: PredsBelow(b, j, 0) == {};
      for row := 0 to totalTxns
        invariant forall i: nat, j: nat :: i < totalTxns && j < totalTxns ==>
                    adjacencyMatrix[i, j] == if i < row && Edge(b, i, j) then 1 else 0
        invariant forall j: nat :: j < totalTxns ==> inDegree[j] == |PredsBelow(b, j, row)|
      {
        forall j: nat | j < totalTxns
          ensures |PredsBelow(b, j, row + 1)| == |PredsBelow(b, j, row)| + if Edge(b, row, j) then 1 else 0
        {
          PredsBelowNext(b, j, row);
        }
        for i := row + 1 to totalTxns
          invariant forall r: nat, j: nat :: r < totalTxns && j < totalTxns ==>
                      adjacencyMatrix[r, j] == if (r < row || (r == row && j < i)) && Edge(b, r, j) then 1 else 0
          invariant forall j: nat :: j < totalTxns ==> inDegree[j] == |PredsBelow(b, j, if j < i then row + 1 else row)|
        {
          var flag := AnyEqual(b[row].inputs, b[i].outputs);
          if !flag {
            flag := AnyEqual(b[row].outputs, b[i].inputs);
          }
          if !flag {
            flag := AnyEqual(b[row].outputs, b[i].outputs);
          }
          if flag {
            adjacencyMatrix[row, i] := 1;
            inDegree[i] := inDegree[i] + 1;
          }
        }
      }
      forall j: nat | j < totalTxns ensures PredsBelow(b, j, totalTxns) == Preds(b, j) {
      }
    }

    method Create(block: Txns)
      requires CurrentTransactions == []
      modifies this
      ensures CurrentTransactions == block && MatrixIsConflict()
      ensures forall j: nat :: j < totalTxns ==> inDegree[j] == |Preds(block, j)|
      ensures fresh(adjacencyMatrix) && fresh(inDegree)
      ensures completedTxns == old(completedTxns)
    {
      CurrentTransactions := block;
      totalTxns := |block|;
      adjacencyMatrix := new int[totalTxns, totalTxns]((i, j) => 0);
      inDegree := new int[totalTxns](i => 0);
      DependencyMatrix();
    }

    /** Claims the lowest transaction whose in-degree is 0. */
    method SelectTxn() returns (r: int)
      requires Shaped()
      modifies this`lastTxn, inDegree
      ensures r == -1 ==> inDegree[..] == old(inDegree[..]) && lastTxn == old(lastTxn)
      ensures r == -1 ==> forall j: nat :: j < totalTxns ==> inDegree[j] != 0
      ensures r != -1 ==>
                && 0 <= r < totalTxns && lastTxn == r
                && old(inDegree[r]) == 0 && (forall j: nat :: j < r ==> old(inDegree[j]) != 0)
                && inDegree[..] == old(inDegree[..])[r := -1]
    {
      for i := 0 to totalTxns
        invariant inDegree[..] == old(inDegree[..]) && lastTxn == old(lastTxn)
        invariant forall j: nat :: j < i ==> inDegree[j] != 0
      {
        if inDegree[i] == 0 {
          inDegree[i] := -1;
          lastTxn := i;
          return i;
        }
      }
      for i := 0 to totalTxns
        invariant inDegree[..] == old(inDegree[..]) && lastTxn == old(lastTxn)
        invariant forall j: nat :: j < totalTxns ==> inDegree[j] != 0
      {
        if inDegree[i] == 0 {
          inDegree[i] := -1;
          lastTxn := i;
          return i;
        }
      }
      r := -1;
    }

    method Complete(txnID: int)
      requires MatrixIsConflict()
      modifies this`completedTxns, inDegree
      ensures !(0 <= txnID < totalTxns) ==> completedTxns == old(completedTxns) && inDegree[..] == old(inDegree[..])
      ensures 0 <= txnID < totalTxns ==>
                && completedTxns == old(completedTxns) + 1
                && forall j: nat :: j < totalTxns ==>
                     inDegree[j] == old(inDegree[j]) - (if j == txnID || Edge(CurrentTransactions, txnID, j) then 1 else 0)
    {
      if txnID < 0 || txnID >= totalTxns {
        return;
      }
      inDegree[txnID] := inDegree[txnID] - 1;
      completedTxns := completedTxns + 1;
      for i := txnID + 1 to totalTxns
        invariant completedTxns == old(completedTxns) + 1
        invariant forall j: nat :: j < totalTxns ==>
                    inDegree[j] == old(inDegree[j]) - if j == txnID || (j < i && Edge(CurrentTransactions, txnID, j)) then 1 else 0
      {
        if adjacencyMatrix[txnID, i] == 1 {
          inDegree[i] := inDegree[i] - 1;
        }
      }
    }
  }
}
