/** Building the dependency matrix with several threads: thread `pid` fills the rows of one
    chunk of the block, and all of them add to the same in-degree counters.

    A schedule is the sequence of thread numbers that take the next atomic step. */
module DagBuild {
  import opened SharedMap
  import opened Block
  import opened TaskCore
  import opened WorkerMachine

  /* ----- chunks ----- */

  function Min(a: int, b: int): int {
    if a <= b then a else b
  }

  /** The first row of thread pid's chunk of n rows, cut for k threads. */
  function Start(n: nat, k: nat, pid: nat): (r: nat)
    requires k >= 1
  {
    MulIsNat(pid, n / k);
    pid * (n / k) + Min(pid, n % k)
  }

  /** One past the last row of the chunk. */
  function End(n: nat, k: nat, pid: nat): (r: nat)
    requires k >= 1
  {
    Start(n, k, pid) + n / k + if pid < n % k then 1 else 0
  }

  lemma {:induction false} MulIsNat(a: nat, b: nat)
    ensures a * b >= 0
  {
  }

  ghost predicate InChunk(n: nat, k: nat, pid: nat, row: nat)
    requires k >= 1
  {
    pid < k && Start(n, k, pid) <= row < End(n, k, pid)
  }

  lemma {:induction false} NextChunkStartsAtEnd(n: nat, k: nat, pid: nat)
    requires k >= 1
    ensures Start(n, k, pid + 1) == End(n, k, pid)
  {
    assert (pid + 1) * (n / k) == pid * (n / k) + n / k;
  }

  lemma {:induction false} ChunksAreOrdered(n: nat, k: nat, p: nat, q: nat)
    requires k >= 1 && p < q
    ensures End(n, k, p) <= Start(n, k, q)
  {
    NextChunkStartsAtEnd(n, k, q - 1);
    if p < q - 1 {
      ChunksAreOrdered(n, k, p, q - 1);
    }
  }

  lemma {:induction false} LastChunkEndsAtN(n: nat, k: nat)
    requires k >= 1
    ensures Start(n, k, 0) == 0 && Start(n, k, k) == n
  {
    assert k * (n / k) + n % k == n;
  }

  lemma {:induction false} CoveringChunk(n: nat, k: nat, row: nat, m: nat) returns (pid: nat)
    requires 1 <= k && m <= k && row < Start(n, k, m)
    ensures pid < m && InChunk(n, k, pid, row)
    decreases m
  {
    LastChunkEndsAtN(n, k);
    NextChunkStartsAtEnd(n, k, m - 1);
    if row >= Start(n, k, m - 1) {
      pid := m - 1;
    } else {
      pid := CoveringChunk(n, k, row, m - 1);
    }
  }

  /** For any number of threads, the chunks cover 0..n-1 and nothing else, without overlap. */
  lemma {:induction false} ChunksTile(n: nat, k: nat, row: nat)
    requires k >= 1
    ensures forall p: nat :: InChunk(n, k, p, row) ==> p < k
    ensures row < n <==> exists pid: nat :: InChunk(n, k, pid, row)
    ensures forall p: nat, q: nat :: InChunk(n, k, p, row) && InChunk(n, k, q, row) ==> p == q
  {
    LastChunkEndsAtN(n, k);
    if row < n {
      var pid := CoveringChunk(n, k, row, k);
    }
    forall p: nat | InChunk(n, k, p, row) ensures row < n {
      NextChunkStartsAtEnd(n, k, p);
      if p + 1 < k {
        ChunksAreOrdered(n, k, p, k);
      }
    }
    forall p: nat, q: nat | InChunk(n, k, p, row) && InChunk(n, k, q, row) ensures p == q {
      if p < q {
        ChunksAreOrdered(n, k, p, q);
      } else if q < p {
        ChunksAreOrdered(n, k, q, p);
      }
    }
  }

  /* ----- the machine ----- */

  /** About to compare row tx with j; or having set the cell, about to raise in-degree j. */
  datatype Pos = At(tx: nat, j: nat) | Adding(tx: nat, j: nat)

  datatype Build = Build(cells: set<(nat, nat)>, inDegree: seq<int>, threads: seq<Pos>)

  ghost predicate Fits(b: Txns, s: Build) {
    |s.inDegree| == |b| && s.threads != []
    && forall w :: 0 <= w < |s.threads| && s.threads[w].Adding? ==> s.threads[w].j < |b|
  }

  ghost function StartOfBuild(b: Txns, k: nat): Build
    requires k >= 1
  {
    Build({}, seq(|b|, _ => 0),
          seq(k, pid requires 0 <= pid < k => At(Start(|b|, k, pid), Start(|b|, k, pid) + 1)))
  }

  /** Where the loops of the thread responsible for the rows before `end` go next. */
  ghost function NextPos(b: Txns, p: Pos, end: nat): Pos {
    match p
    case Adding(tx, j) => At(tx, j + 1)
    case At(tx, j) =>
      if tx >= end then p
      else if j >= |b| then At(tx + 1, tx + 2)
      else if Edge(b, tx, j) then Adding(tx, j)
      else At(tx, j + 1)
  }

  /** The next step of the thread at p sets the cell it is at. */
  ghost predicate SetsCell(b: Txns, p: Pos, end: nat) {
    p.At? && p.tx < end && Edge(b, p.tx, p.j)
  }

  ghost function BuildStep(b: Txns, s: Build, w: nat): Build
    requires Fits(b, s)
  {
    if w >= |s.threads| then s else
    var p, end := s.threads[w], End(|b|, |s.threads|, w);
    s.(cells := if SetsCell(b, p, end) then s.cells + {(p.tx, p.j)} else s.cells,
       inDegree := if p.Adding? then s.inDegree[p.j := s.inDegree[p.j] + 1] else s.inDegree,
       threads := s.threads[w := NextPos(b, p, end)])
  }

  ghost function Built(b: Txns, k: nat, schedule: seq<nat>): (s: Build)
    requires k >= 1
    ensures Fits(b, s) && |s.threads| == k
  {
    if schedule == [] then StartOfBuild(b, k)
    else BuildStep(b, Built(b, k, schedule[..|schedule| - 1]), schedule[|schedule| - 1])
  }

  ghost predicate AllDone(b: Txns, s: Build) {
    s.threads != []
    && forall w :: 0 <= w < |s.threads| ==> s.threads[w].At? && s.threads[w].tx >= End(|b|, |s.threads|, w)
  }

  /* ----- invariant ----- */

  /** The thread at p has written the cell (i, j), if it is one to write. */
  ghost predicate Wrote(p: Pos, i: nat, j: nat) {
    i < p.tx || (i == p.tx && (j < p.j || (p.Adding? && j == p.j)))
  }

  /** The thread at p has counted the cell (i, j), if it is one to count. */
  ghost predicate Added(p: Pos, i: nat, j: nat) {
    i < p.tx || (i == p.tx && j < p.j)
  }

  ghost predicate RowWrote(b: Txns, s: Build, i: nat, j: nat)
    requires s.threads != []
  {
    exists w: nat :: InChunk(|b|, |s.threads|, w, i) && Wrote(s.threads[w], i, j)
  }

  ghost predicate RowAdded(b: Txns, s: Build, i: nat, j: nat)
    requires s.threads != []
  {
    exists w: nat :: InChunk(|b|, |s.threads|, w, i) && Added(s.threads[w], i, j)
  }

  ghost function AddedPreds(b: Txns, s: Build, j: nat): set<nat>
    requires s.threads != []
  {
    set i: nat | i < j && Edge(b, i, j) && RowAdded(b, s, i, j)
  }

  /** Where a thread can stand: in its own chunk, right of the diagonal. */
  ghost predicate Placed(b: Txns, s: Build, w: nat)
    requires w < |s.threads|
  {
    && Start(|b|, |s.threads|, w) <= s.threads[w].tx <= End(|b|, |s.threads|, w)
    && s.threads[w].tx < s.threads[w].j
    && (s.threads[w].Adding? ==>
          s.threads[w].tx < End(|b|, |s.threads|, w) && Edge(b, s.threads[w].tx, s.threads[w].j))
  }

  ghost predicate BuildInv(b: Txns, s: Build) {
    && Fits(b, s)
    && (forall w: nat :: w < |s.threads| ==> Placed(b, s, w))
    && (forall i: nat, j: nat :: (i, j) in s.cells <==> Edge(b, i, j) && RowWrote(b, s, i, j))
    && (forall j: nat :: j < |b| ==> s.inDegree[j] == |AddedPreds(b, s, j)|)
  }

  lemma {:induction false} NothingYet(b: Txns, k: nat, i: nat, j: nat)
    requires k >= 1 && Edge(b, i, j)
    ensures var s := StartOfBuild(b, k); !RowWrote(b, s, i, j) && !RowAdded(b, s, i, j)
  {
    hide Conflict, Start;
  }

  lemma {:induction false} StartInv(b: Txns, k: nat)
    requires k >= 1
    ensures BuildInv(b, StartOfBuild(b, k))
  {
    hide RowWrote, RowAdded, Conflict, Start;
    var s := StartOfBuild(b, k);
    forall i: nat, j: nat | Edge(b, i, j) ensures !RowWrote(b, s, i, j) && !RowAdded(b, s, i, j) {
      NothingYet(b, k, i, j);
    }
    forall j: nat | j < |b| ensures AddedPreds(b, s, j) == {} {
    }
  }

  /** Moving on writes the one cell the thread was at, and counts the one it had written. */
  lemma {:induction false} NextPosProgress(b: Txns, p: Pos, end: nat, i: nat, j: nat)
    requires Edge(b, i, j) && p.tx < p.j && i < end
    ensures Wrote(NextPos(b, p, end), i, j) <==> Wrote(p, i, j) || (SetsCell(b, p, end) && p == At(i, j))
    ensures Added(NextPos(b, p, end), i, j) <==> Added(p, i, j) || p == Adding(i, j)
    ensures p == Adding(i, j) ==> !Added(p, i, j)
  {
    hide Conflict;
  }

  /** A step of thread w changes what has been written or counted only in the row it is at. */
  lemma {:induction false} OnlyOwnRows(b: Txns, s: Build, s': Build, w: nat, i: nat, j: nat)
    requires s.threads != [] && w < |s.threads| && |s'.threads| == |s.threads|
    requires s'.threads == s.threads[w := s'.threads[w]]
    ensures InChunk(|b|, |s.threads|, w, i) ==>
              && RowWrote(b, s', i, j) == Wrote(s'.threads[w], i, j)
              && RowAdded(b, s', i, j) == Added(s'.threads[w], i, j)
              && RowWrote(b, s, i, j) == Wrote(s.threads[w], i, j)
              && RowAdded(b, s, i, j) == Added(s.threads[w], i, j)
    ensures !InChunk(|b|, |s.threads|, w, i) ==>
              RowWrote(b, s', i, j) == RowWrote(b, s, i, j) && RowAdded(b, s', i, j) == RowAdded(b, s, i, j)
  {
    hide Wrote, Added, InChunk;
    ChunksTile(|b|, |s.threads|, i);
    if InChunk(|b|, |s.threads|, w, i) {
    } else {
      forall v: nat | InChunk(|b|, |s.threads|, v, i) ensures s'.threads[v] == s.threads[v] {
      }
    }
  }

  lemma {:induction false} StepOnCell(b: Txns, s: Build, w: nat, i: nat, j: nat)
    requires BuildInv(b, s) && w < |s.threads| && Edge(b, i, j)
    ensures var s', p := BuildStep(b, s, w), s.threads[w];
            && (RowWrote(b, s', i, j) <==>
                  RowWrote(b, s, i, j) || (SetsCell(b, p, End(|b|, |s.threads|, w)) && p == At(i, j)))
            && (RowAdded(b, s', i, j) <==> RowAdded(b, s, i, j) || p == Adding(i, j))
            && (p == Adding(i, j) ==> !RowAdded(b, s, i, j))
  {
    hide RowWrote, RowAdded, AddedPreds, Edge, NextPos, Wrote, Added, Start, End;
    var s', p := BuildStep(b, s, w), s.threads[w];
    OnlyOwnRows(b, s, s', w, i, j);
    assert Placed(b, s, w);
    OwnRow(|b|, |s.threads|, w, i, p.tx);
    if InChunk(|b|, |s.threads|, w, i) {
      NextPosProgress(b, p, End(|b|, |s.threads|, w), i, j);
    }
  }

  lemma {:induction false} OwnRow(n: nat, k: nat, w: nat, i: nat, tx: nat)
    requires k >= 1 && w < k && Start(n, k, w) <= tx
    ensures InChunk(n, k, w, i) ==> i < End(n, k, w)
    ensures !InChunk(n, k, w, i) && tx < End(n, k, w) ==> i != tx
  {
  }

  lemma {:induction false} StepKeepsCells(b: Txns, s: Build, w: nat)
    requires BuildInv(b, s) && w < |s.threads|
    ensures var s' := BuildStep(b, s, w);
            forall i: nat, j: nat :: (i, j) in s'.cells <==> Edge(b, i, j) && RowWrote(b, s', i, j)
  {
    hide RowWrote, RowAdded, AddedPreds, Conflict, NextPos, Start, End;
    var s' := BuildStep(b, s, w);
    forall i: nat, j: nat ensures (i, j) in s'.cells <==> Edge(b, i, j) && RowWrote(b, s', i, j) {
      if Edge(b, i, j) {
        StepOnCell(b, s, w, i, j);
      }
    }
  }

  lemma {:induction false} StepKeepsCounts(b: Txns, s: Build, w: nat, j: nat)
    requires BuildInv(b, s) && w < |s.threads| && j < |b|
    ensures BuildStep(b, s, w).inDegree[j] == |AddedPreds(b, BuildStep(b, s, w), j)|
  {
    hide RowWrote, RowAdded, Conflict, NextPos, Start, End;
    var s' := BuildStep(b, s, w);
    var p := s.threads[w];
    assert Placed(b, s, w);
    forall i: nat | Edge(b, i, j)
      ensures RowAdded(b, s', i, j) <==> RowAdded(b, s, i, j) || p == Adding(i, j)
      ensures p == Adding(i, j) ==> !RowAdded(b, s, i, j)
    {
      StepOnCell(b, s, w, i, j);
    }
    if p.Adding? && j == p.j {
      assert AddedPreds(b, s', j) == AddedPreds(b, s, j) + {p.tx};
    } else {
      assert AddedPreds(b, s', j) == AddedPreds(b, s, j);
    }
  }

  lemma {:induction false} StepKeepsPlaced(b: Txns, s: Build, w: nat, v: nat)
    requires BuildInv(b, s) && w < |s.threads| && v < |s.threads|
    ensures Placed(b, BuildStep(b, s, w), v)
    ensures Fits(b, BuildStep(b, s, w))
  {
    hide RowWrote, RowAdded, AddedPreds, Conflict, Start;
    assert Placed(b, s, w) && Placed(b, s, v);
    NextChunkStartsAtEnd(|b|, |s.threads|, w);
  }

  lemma {:induction false} StepKeepsBuildInv(b: Txns, s: Build, w: nat)
    requires BuildInv(b, s)
    ensures BuildInv(b, BuildStep(b, s, w))
  {
    hide RowWrote, RowAdded, AddedPreds, Conflict, Start, End, NextPos, Placed;
    if w < |s.threads| {
      var s' := BuildStep(b, s, w);
      StepKeepsCells(b, s, w);
      StepKeepsPlaced(b, s, w, w);
      forall j: nat | j < |b| ensures s'.inDegree[j] == |AddedPreds(b, s', j)| {
        StepKeepsCounts(b, s, w, j);
      }
      forall v: nat | v < |s.threads| ensures Placed(b, s', v) && Fits(b, s') {
        StepKeepsPlaced(b, s, w, v);
      }
    }
  }

  lemma {:induction false} ReachableBuildInv(b: Txns, k: nat, schedule: seq<nat>)
    requires k >= 1
    ensures BuildInv(b, Built(b, k, schedule))
  {
    hide BuildInv, BuildStep, StartOfBuild;
    if schedule == [] {
      StartInv(b, k);
    } else {
      ReachableBuildInv(b, k, schedule[..|schedule| - 1]);
      StepKeepsBuildInv(b, Built(b, k, schedule[..|schedule| - 1]), schedule[|schedule| - 1]);
    }
  }

  /** For every number of threads and every interleaving: once all threads are done, the cells
      set are exactly the conflicts of the block, and every in-degree is the number of set
      cells in its column. */
  lemma {:induction false} ParallelBuildIsConflict(b: Txns, k: nat, schedule: seq<nat>)
    requires k >= 1 && AllDone(b, Built(b, k, schedule))
    ensures var s := Built(b, k, schedule);
            && (forall i: nat, j: nat :: (i, j) in s.cells <==> Edge(b, i, j))
            && (forall j: nat :: j < |b| ==> s.inDegree[j] == |Preds(b, j)|)
  {
    hide RowWrote, RowAdded, Conflict, Start, End;
    var s := Built(b, k, schedule);
    ReachableBuildInv(b, k, schedule);
    forall i: nat, j: nat | Edge(b, i, j) ensures RowWrote(b, s, i, j) && RowAdded(b, s, i, j) {
      DoneMeansAdded(b, s, i, j);
    }
    forall j: nat | j < |b| ensures AddedPreds(b, s, j) == Preds(b, j) {
    }
  }

  lemma {:induction false} DoneMeansAdded(b: Txns, s: Build, i: nat, j: nat)
    requires AllDone(b, s) && Edge(b, i, j)
    ensures RowWrote(b, s, i, j) && RowAdded(b, s, i, j)
  {
    ChunksTile(|b|, |s.threads|, i);
    var w: nat :| InChunk(|b|, |s.threads|, w, i);
    assert Wrote(s.threads[w], i, j) && Added(s.threads[w], i, j);
  }

  /** The counters the worker threads then start from are those the build left. */
  lemma {:induction false} WorkersStartFromBuild(b: Txns, start: Store, k: nat, schedule: seq<nat>, threads: nat)
    requires k >= 1 && AllDone(b, Built(b, k, schedule))
    ensures Begin(WholeBlock(b, start), threads).core.inDegree == Built(b, k, schedule).inDegree
  {
    hide Built, AllDone, Edge;
    ParallelBuildIsConflict(b, k, schedule);
  }
}
