/** The in-degree state machine every scheduler of the repository runs on: how one
    transaction is claimed, executed access by access against the shared map, and retired
    by one atomic operation at a time.  Who performs the steps, and in which order, is left
    to WorkerMachine (any number of threads on one node) and Cluster (one thread per node).

    `phase[t]` files the program counter and local state of the thread that holds t. */
module TaskCore {
  import opened SharedMap
  import opened Block

  datatype Phase =
    | Waiting                         // not claimed yet
    | Running(log: Log)               // claimed (in-degree -1), payload being processed
    | Returned(ok: bool)              // ProcessTxn has returned
    | Retiring(ok: bool)              // verdict handled, complete() entered
    | Counting(ok: bool)              // own in-degree is -2, completedTxns not yet raised
    | Releasing(ok: bool, next: nat)  // successors below `next` have been decremented

  /** The block, the map it starts from, and the transactions armed on this node. */
  datatype Job = Job(txns: Txns, start: Store, mine: set<nat>)

  datatype Core = Core(inDegree: seq<int>, store: Store, phase: seq<Phase>, completed: int)

  ghost predicate ValidJob(job: Job) {
    && WellDeclared(job.txns)
    && (forall t :: t in job.mine ==> t < |job.txns|)
    && (forall i: nat, j: nat :: Edge(job.txns, i, j) ==> (i in job.mine <==> j in job.mine))
  }

  /** The transactions with an edge into j: what column j of the matrix sums to. */
  ghost function Preds(b: Txns, j: nat): set<nat> {
    set i: nat | i < j && Edge(b, i, j)
  }

  ghost predicate Init(job: Job, c: Core) {
    && |c.inDegree| == |c.phase| == |job.txns|
    && (forall j: nat :: j < |job.txns| ==>
          c.phase[j] == Waiting && c.inDegree[j] == if j in job.mine then |Preds(job.txns, j)| else -1)
    && c.store == job.start
    && c.completed == |job.txns| - |job.mine|
  }

  /* ----- steps ----- */

  ghost predicate InProgress(job: Job, c: Core, t: nat) {
    t < |c.phase| && !c.phase[t].Waiting? && !Finished(job, c, t)
  }

  ghost predicate Finished(job: Job, c: Core, t: nat) {
    t < |c.phase| && c.phase[t].Releasing? && c.phase[t].next >= |job.txns|
  }

  /** A successful compare-exchange from 0 to -1. */
  ghost function Claim(c: Core, t: nat): Core
    requires t < |c.phase| == |c.inDegree|
  {
    c.(inDegree := c.inDegree[t := -1], phase := c.phase[t := Running([])])
  }

  /** The next atomic operation of the thread that holds t. */
  ghost function Advance(job: Job, c: Core, t: nat): Core
    requires |c.phase| == |c.inDegree| == |job.txns| && InProgress(job, c, t)
  {
    match c.phase[t]
    case Running(log) =>
      var a := job.txns[t].code(log);
      if a.Return? then c.(phase := c.phase[t := Returned(a.ok)])
      else c.(store := Apply(a, c.store), phase := c.phase[t := Running(log + [Look(c.store, a.key)])])
    case Returned(ok) => c.(phase := c.phase[t := Retiring(ok)])
    case Retiring(ok) => c.(inDegree := c.inDegree[t := c.inDegree[t] - 1], phase := c.phase[t := Counting(ok)])
    case Counting(ok) => c.(completed := c.completed + 1, phase := c.phase[t := Releasing(ok, t + 1)])
    case Releasing(ok, i) =>
      c.(inDegree := if Edge(job.txns, t, i) then c.inDegree[i := c.inDegree[i] - 1] else c.inDegree,
         phase := c.phase[t := Releasing(ok, i + 1)])
  }

  ghost predicate CoreStep(job: Job, c: Core, c': Core, t: nat) {
    && |c.phase| == |c.inDegree| == |job.txns|
    && t < |c.phase|
    && ((c.inDegree[t] == 0 && c' == Claim(c, t)) || (InProgress(job, c, t) && c' == Advance(job, c, t)))
  }

  /* ----- invariant ----- */

  /** i has decremented the in-degree of its successor j. */
  ghost predicate Released(c: Core, i: nat, j: nat)
    requires i < |c.phase|
  {
    c.phase[i].Releasing? && c.phase[i].next > j
  }

  /** The predecessors of j that have not decremented it yet. */
  ghost function Pending(job: Job, c: Core, j: nat): set<nat>
    requires |c.phase| == |job.txns|
  {
    set i: nat | i < j && Edge(job.txns, i, j) && !Released(c, i, j)
  }

  /** The transactions whose payload has been processed to the end. */
  ghost function Ran(c: Core): set<nat> {
    set t: nat | t < |c.phase| && !c.phase[t].Waiting? && !c.phase[t].Running?
  }

  ghost function Counted(c: Core): set<nat> {
    set t: nat | t < |c.phase| && c.phase[t].Releasing?
  }

  ghost predicate DegreeInv(job: Job, c: Core)
    requires |c.phase| == |c.inDegree| == |job.txns|
  {
    forall j: nat :: j < |c.phase| ==>
      match c.phase[j]
      case Waiting => c.inDegree[j] == if j in job.mine then |Pending(job, c, j)| else -1
      case Counting(_) => c.inDegree[j] == -2
      case Releasing(_, _) => c.inDegree[j] == -2
      case _ => c.inDegree[j] == -1
  }

  /** A claimed transaction is armed here and every predecessor has released it. */
  ghost predicate OrderInv(job: Job, c: Core)
    requires |c.phase| == |job.txns|
  {
    && (forall j: nat :: j < |c.phase| && !c.phase[j].Waiting? ==> j in job.mine)
    && (forall i: nat, j: nat :: Edge(job.txns, i, j) && !c.phase[j].Waiting? ==> Released(c, i, j))
    && (forall t: nat :: t < |c.phase| && c.phase[t].Releasing? ==> t < c.phase[t].next <= |job.txns|)
  }

  ghost predicate RunsRunning(c: Core, k: string, b: Txns)
    requires |c.phase| == |b|
  {
    exists t: nat :: t < |b| && c.phase[t].Running? && k in Outputs(b[t])
  }

  /** The map a block would show had the finished payloads run alone, in block order. */
  ghost function Settled(job: Job, c: Core): Store {
    Partial(job.txns, Ran(c), |job.txns|, job.start)
  }

  /** What t still has to do leads where running t whole on the settled map leads. */
  ghost predicate OnTrack(job: Job, c: Core, t: nat)
    requires t < |c.phase| == |job.txns| && c.phase[t].Running?
  {
    var x := job.txns[t];
    var now, whole := Exec(x.code, c.phase[t].log, c.store), Exec(x.code, [], Settled(job, c));
    now.ok == whole.ok && Agree(now.store, whole.store, Reads(x))
  }

  ghost predicate StoreInv(job: Job, c: Core)
    requires |c.phase| == |job.txns|
  {
    && (forall t: nat :: t < |c.phase| && c.phase[t].Running? ==> OnTrack(job, c, t))
    && (forall k :: !RunsRunning(c, k, job.txns) ==> Look(c.store, k) == Look(Settled(job, c), k))
  }

  ghost predicate VerdictInv(job: Job, c: Core)
    requires |c.phase| == |job.txns|
  {
    forall t: nat :: t in Ran(c) ==> c.phase[t].ok == SerialOk(job.txns, t, job.start)
  }

  ghost predicate Inv(job: Job, c: Core) {
    && |c.phase| == |c.inDegree| == |job.txns|
    && DegreeInv(job, c)
    && OrderInv(job, c)
    && StoreInv(job, c)
    && VerdictInv(job, c)
    && c.completed == |job.txns| - |job.mine| + |Counted(c)|
  }

  lemma {:induction false} InitInv(job: Job, c: Core)
    requires ValidJob(job) && Init(job, c)
    ensures Inv(job, c)
  {
    assert Counted(c) == {};
    forall j: nat | j < |c.phase| ensures Pending(job, c, j) == Preds(job.txns, j) {
    }
    NothingRan(job.txns, Ran(c), |job.txns|, job.start);
  }

  lemma {:induction false} NothingRan(b: Txns, ran: set<nat>, j: nat, start: Store)
    requires j <= |b| && ran == {}
    ensures Partial(b, ran, j, start) == start
  {
    if j > 0 {
      NothingRan(b, ran, j - 1, start);
    }
  }

  /* ----- who may run together ----- */

  /** Two transactions that are both past their claim and not both released do not conflict. */
  lemma {:induction false} RunningTogetherIsUnrelated(job: Job, c: Core, t: nat, u: nat)
    requires |c.phase| == |job.txns| && OrderInv(job, c)
    requires t < |c.phase| && u < |c.phase| && t != u
    requires c.phase[u].Running? && !c.phase[t].Releasing?
    requires c.phase[t].Waiting? ==> forall i: nat :: Edge(job.txns, i, t) ==> Released(c, i, t)
    ensures Unrelated(job.txns[t], job.txns[u])
  {
    NoConflictMeansUnrelated(job.txns, t, u);
  }

  lemma {:induction false} StillRunning(job: Job, c: Core, c': Core, k: string)
    requires |c.phase| == |c'.phase| == |job.txns|
    requires forall v: nat :: v < |job.txns| && c.phase[v].Running? && k in Outputs(job.txns[v]) ==> c'.phase[v].Running?
    ensures RunsRunning(c, k, job.txns) ==> RunsRunning(c', k, job.txns)
  {
    if RunsRunning(c, k, job.txns) {
      var v: nat :| v < |job.txns| && c.phase[v].Running? && k in Outputs(job.txns[v]);
      assert c'.phase[v].Running?;
    }
  }

  /** A step of t that releases nobody. */
  lemma {:induction false} QuietStep(job: Job, c: Core, c': Core, t: nat)
    requires |c.phase| == |c'.phase| == |c.inDegree| == |c'.inDegree| == |job.txns| && t < |c.phase|
    requires DegreeInv(job, c) && OrderInv(job, c)
    requires forall u: nat :: u < |c.phase| && u != t ==> c'.phase[u] == c.phase[u] && c'.inDegree[u] == c.inDegree[u]
    requires !c.phase[t].Waiting? && !c.phase[t].Releasing? && !c'.phase[t].Waiting?
    requires c'.inDegree[t] == if c'.phase[t].Counting? || c'.phase[t].Releasing? then -2 else -1
    requires c'.phase[t].Releasing? ==> c'.phase[t].next == t + 1
    ensures DegreeInv(job, c') && OrderInv(job, c')
  {
    forall i: nat, j: nat | i < j < |c.phase| ensures Released(c', i, j) == Released(c, i, j) {
    }
    forall j: nat | j < |c.phase| ensures Pending(job, c', j) == Pending(job, c, j) {
    }
  }

  /* ----- claim ----- */

  lemma {:induction false} ZeroMeansReleased(job: Job, c: Core, t: nat)
    requires Inv(job, c) && t < |c.phase| && c.inDegree[t] == 0
    ensures c.phase[t].Waiting? && t in job.mine
    ensures forall i: nat :: Edge(job.txns, i, t) ==> Released(c, i, t)
  {
    assert c.phase[t].Waiting?;
    assert Pending(job, c, t) == {};
    forall i: nat | Edge(job.txns, i, t) ensures Released(c, i, t) {
      assert i !in Pending(job, c, t);
    }
  }

  /** What a claimable transaction may look at is not being written by anybody. */
  lemma {:induction false} NobodyWrites(job: Job, c: Core, t: nat, k: string)
    requires |c.phase| == |job.txns| && OrderInv(job, c) && t < |c.phase| && c.phase[t].Waiting?
    requires forall i: nat :: Edge(job.txns, i, t) ==> Released(c, i, t)
    requires k in Reads(job.txns[t])
    ensures !RunsRunning(c, k, job.txns)
  {
    hide Reads, Outputs, Edge;
    forall v: nat | v < |job.txns| && c.phase[v].Running? ensures k !in Outputs(job.txns[v]) {
      RunningTogetherIsUnrelated(job, c, t, v);
    }
  }

  lemma {:induction false} ClaimKeepsStoreInv(job: Job, c: Core, t: nat)
    requires ValidJob(job) && Inv(job, c) && t < |c.phase| && c.inDegree[t] == 0
    ensures StoreInv(job, Claim(c, t))
  {
    var c' := Claim(c, t);
    ZeroMeansReleased(job, c, t);
    assert Ran(c') == Ran(c);
    forall u: nat | u < |c'.phase| && c'.phase[u].Running? ensures OnTrack(job, c', u) {
      if u == t {
        forall k | k in Reads(job.txns[t]) ensures Look(c.store, k) == Look(Settled(job, c), k) {
          NobodyWrites(job, c, t, k);
        }
        ExecIsLocal(job.txns[t].code, [], c.store, Settled(job, c), Reads(job.txns[t]), Outputs(job.txns[t]));
      } else {
        assert OnTrack(job, c, u);
      }
    }
    forall k | !RunsRunning(c', k, job.txns) ensures Look(c'.store, k) == Look(Settled(job, c'), k) {
      StillRunning(job, c, c', k);
    }
  }

  lemma {:induction false} ClaimKeepsInv(job: Job, c: Core, t: nat)
    requires ValidJob(job) && Inv(job, c) && t < |c.phase| && c.inDegree[t] == 0
    ensures Inv(job, Claim(c, t))
  {
    hide StoreInv, DegreeInv, OrderInv;
    var c' := Claim(c, t);
    ClaimKeepsStoreInv(job, c, t);
    ClaimKeepsOrder(job, c, t);
    assert Ran(c') == Ran(c) && Counted(c') == Counted(c);
  }

  lemma {:induction false} ClaimKeepsOrder(job: Job, c: Core, t: nat)
    requires ValidJob(job) && Inv(job, c) && t < |c.phase| && c.inDegree[t] == 0
    ensures DegreeInv(job, Claim(c, t)) && OrderInv(job, Claim(c, t))
    ensures c.phase[t].Waiting?
  {
    hide StoreInv, VerdictInv;
    var c' := Claim(c, t);
    ZeroMeansReleased(job, c, t);
    forall i: nat, j: nat | i < |c.phase| ensures Released(c', i, j) == Released(c, i, j) {
    }
    forall j: nat | j < |c.phase| ensures Pending(job, c', j) == Pending(job, c, j) {
    }
  }

  /* ----- payload ----- */

  lemma {:induction false} AccessIsFirstOfRest(code: Code, log: Log, m: Store)
    requires Bounded(code) && !code(log).Return?
    ensures Exec(code, log + [Look(m, code(log).key)], Apply(code(log), m)) == Exec(code, log, m)
  {
  }

  lemma {:induction false} AccessChangesOutputs(a: Action, m: Store, readable: set<string>, writable: set<string>)
    requires !a.Return? && Permitted(a, readable, writable)
    ensures AgreeOutside(Apply(a, m), m, writable)
  {
  }

  lemma {:induction false} AccessKeepsStoreInv(job: Job, c: Core, t: nat)
    requires ValidJob(job) && Inv(job, c) && t < |c.phase| && c.phase[t].Running?
    requires !job.txns[t].code(c.phase[t].log).Return?
    ensures StoreInv(job, Advance(job, c, t))
  {
    hide Conflict, Exec, DegreeInv, VerdictInv;
    var c' := Advance(job, c, t);
    var a := job.txns[t].code(c.phase[t].log);
    var keys := Outputs(job.txns[t]);
    assert Ran(c') == Ran(c);
    assert Permitted(a, Reads(job.txns[t]), keys);
    AccessChangesOutputs(a, c.store, Reads(job.txns[t]), keys);
    forall u: nat | u < |c'.phase| && c'.phase[u].Running? ensures OnTrack(job, c', u) {
      assert OnTrack(job, c, u);
      if u != t {
        RunningTogetherIsUnrelated(job, c, t, u);
        OutsideIsInside(c'.store, c.store, keys, Reads(job.txns[u]));
        ExecIsLocal(job.txns[u].code, c.phase[u].log, c'.store, c.store, Reads(job.txns[u]), Outputs(job.txns[u]));
      } else {
        AccessIsFirstOfRest(job.txns[t].code, c.phase[t].log, c.store);
      }
    }
    forall k | !RunsRunning(c', k, job.txns) ensures Look(c'.store, k) == Look(Settled(job, c'), k) {
      assert c'.phase[t].Running?;
      assert k !in keys;
      StillRunning(job, c, c', k);
    }
  }

  /** The end of a payload moves t into the settled map. */
  lemma {:induction false} ReturnSettles(job: Job, c: Core, t: nat)
    requires ValidJob(job) && Inv(job, c) && t < |c.phase| && c.phase[t].Running?
    requires job.txns[t].code(c.phase[t].log).Return?
    ensures Settled(job, Advance(job, c, t)) == Exec(job.txns[t].code, [], Settled(job, c)).store
    ensures job.txns[t].code(c.phase[t].log).ok == SerialOk(job.txns, t, job.start)
  {
    var c' := Advance(job, c, t);
    var ran := Ran(c);
    assert Ran(c') == ran + {t};
    forall j: nat | j in ran ensures !Edge(job.txns, t, j) {
    }
    forall i: nat, j: nat | j in ran && Edge(job.txns, i, j) ensures i in ran {
      assert Released(c, i, j);
    }
    forall i: nat | Edge(job.txns, i, t) ensures i in ran {
      assert Released(c, i, t);
    }
    RunningLastIsRunningInPlace(job.txns, ran, t, |job.txns|, job.start);
    VerdictIsSerial(job.txns, ran, t, job.start);
    assert OnTrack(job, c, t);
  }

  lemma {:induction false} ReturnKeepsStoreInv(job: Job, c: Core, t: nat)
    requires ValidJob(job) && Inv(job, c) && t < |c.phase| && c.phase[t].Running?
    requires job.txns[t].code(c.phase[t].log).Return?
    ensures StoreInv(job, Advance(job, c, t))
  {
    var c' := Advance(job, c, t);
    var s, s' := Settled(job, c), Settled(job, c');
    var keys := Outputs(job.txns[t]);
    ReturnSettles(job, c, t);
    assert OnTrack(job, c, t);
    RunChangesOutputs(job.txns, t, s);
    OutputsAreRead(job.txns[t]);
    forall u: nat | u < |c'.phase| && c'.phase[u].Running? ensures OnTrack(job, c', u) {
      assert u != t && c.phase[u].Running?;
      assert OnTrack(job, c, u);
      RunningTogetherIsUnrelated(job, c, t, u);
      OutsideIsInside(s', s, keys, Reads(job.txns[u]));
      ExecIsLocal(job.txns[u].code, [], s, s', Reads(job.txns[u]), Outputs(job.txns[u]));
    }
    forall k | !RunsRunning(c', k, job.txns) ensures Look(c'.store, k) == Look(s', k) {
      if k !in keys {
        StillRunning(job, c, c', k);
      }
    }
  }

  lemma {:induction false} PayloadStepKeepsInv(job: Job, c: Core, t: nat)
    requires ValidJob(job) && Inv(job, c) && t < |c.phase| && c.phase[t].Running?
    ensures Inv(job, Advance(job, c, t))
  {
    hide StoreInv, OnTrack, OrderInv, Exec, Conflict, SerialOk, Settled;
    var c' := Advance(job, c, t);
    if job.txns[t].code(c.phase[t].log).Return? {
      ReturnKeepsStoreInv(job, c, t);
      ReturnSettles(job, c, t);
    } else {
      AccessKeepsStoreInv(job, c, t);
      assert Ran(c') == Ran(c);
    }
    assert Counted(c') == Counted(c);
    QuietStep(job, c, c', t);
  }

  /* ----- complete() ----- */

  lemma {:induction false} StoreInvIgnoresRetirement(job: Job, c: Core, c': Core)
    requires |c.phase| == |c'.phase| == |job.txns| && StoreInv(job, c) && c'.store == c.store
    requires forall u: nat :: u < |c.phase| ==> (c.phase[u].Running? || c'.phase[u].Running? ==> c'.phase[u] == c.phase[u])
    requires Ran(c') == Ran(c)
    ensures StoreInv(job, c')
  {
    forall u: nat | u < |c'.phase| && c'.phase[u].Running? ensures OnTrack(job, c', u) {
      assert OnTrack(job, c, u);
    }
    forall k | !RunsRunning(c', k, job.txns) ensures Look(c'.store, k) == Look(Settled(job, c'), k) {
      StillRunning(job, c, c', k);
    }
  }

  /** The fields of the invariant that only look at the outside of a payload. */
  lemma {:induction false} RetireKeepsRest(job: Job, c: Core, c': Core, t: nat)
    requires Inv(job, c) && t < |c.phase| && |c'.phase| == |c.phase|
    requires c.phase[t].Returned? || c.phase[t].Retiring? || c.phase[t].Counting?
    requires c'.phase[t].Retiring? || c'.phase[t].Counting? || c'.phase[t].Releasing?
    requires c'.phase == c.phase[t := c'.phase[t]] && c'.store == c.store && c'.phase[t].ok == c.phase[t].ok
    ensures StoreInv(job, c') && VerdictInv(job, c')
    ensures Counted(c') == if c'.phase[t].Releasing? then Counted(c) + {t} else Counted(c)
    ensures t !in Counted(c)
  {
    hide StoreInv, DegreeInv, OrderInv, Pending, SerialOk, Conflict;
    assert Ran(c') == Ran(c);
    StoreInvIgnoresRetirement(job, c, c');
  }

  lemma {:induction false} RetireStepKeepsInv(job: Job, c: Core, t: nat)
    requires ValidJob(job) && Inv(job, c) && t < |c.phase| && (c.phase[t].Returned? || c.phase[t].Retiring? || c.phase[t].Counting?)
    ensures Inv(job, Advance(job, c, t))
  {
    hide StoreInv, VerdictInv, Counted;
    var c' := Advance(job, c, t);
    RetireKeepsRest(job, c, c', t);
    QuietStep(job, c, c', t);
  }

  lemma {:induction false} ReleaseStepKeepsInv(job: Job, c: Core, t: nat)
    requires ValidJob(job) && Inv(job, c) && InProgress(job, c, t) && c.phase[t].Releasing?
    ensures Inv(job, Advance(job, c, t))
  {
    hide StoreInv, DegreeInv, OrderInv;
    var c' := Advance(job, c, t);
    assert Ran(c') == Ran(c) && Counted(c') == Counted(c);
    StoreInvIgnoresRetirement(job, c, c');
    ReleaseKeepsOrder(job, c, t);
  }

  /** One decrement removes t from the pending predecessors of one successor. */
  lemma {:induction false} ReleaseKeepsPending(job: Job, c: Core, t: nat, j: nat)
    requires ValidJob(job) && Inv(job, c) && InProgress(job, c, t) && c.phase[t].Releasing? && j < |c.phase|
    ensures var c', i := Advance(job, c, t), c.phase[t].next;
            && |Pending(job, c', j)| == |Pending(job, c, j)| - (if j == i && Edge(job.txns, t, i) then 1 else 0)
            && (j == i && Edge(job.txns, t, i) ==> c.phase[j].Waiting? && j in job.mine)
  {
    hide StoreInv, VerdictInv, DegreeInv, Conflict, Counted, Ran, WellDeclared;
    var c' := Advance(job, c, t);
    var i := c.phase[t].next;
    forall u: nat | u < |c.phase| ensures Released(c', u, j) == (Released(c, u, j) || (u == t && j == i)) {
    }
    if j == i && Edge(job.txns, t, i) {
      assert !Released(c, t, i);
      assert Pending(job, c', i) == Pending(job, c, i) - {t};
      assert t in Pending(job, c, i);
    } else {
      assert Pending(job, c', j) == Pending(job, c, j);
    }
  }

  lemma {:induction false} ReleaseKeepsOrder(job: Job, c: Core, t: nat)
    requires ValidJob(job) && Inv(job, c) && InProgress(job, c, t) && c.phase[t].Releasing?
    ensures DegreeInv(job, Advance(job, c, t)) && OrderInv(job, Advance(job, c, t))
  {
    hide StoreInv, VerdictInv, Conflict, Counted, Ran, Pending, WellDeclared;
    var c' := Advance(job, c, t);
    forall j: nat | j < |c.phase|
      ensures |Pending(job, c', j)|
              == |Pending(job, c, j)| - if j == c.phase[t].next && Edge(job.txns, t, j) then 1 else 0
      ensures j == c.phase[t].next && Edge(job.txns, t, j) ==> c.phase[j].Waiting? && j in job.mine
    {
      ReleaseKeepsPending(job, c, t, j);
    }
  }

  /** Every atomic step of every scheduler keeps the invariant. */
  lemma {:induction false} StepKeepsInv(job: Job, c: Core, c': Core, t: nat)
    requires ValidJob(job) && Inv(job, c) && CoreStep(job, c, c', t)
    ensures Inv(job, c')
  {
    if c.inDegree[t] == 0 && c' == Claim(c, t) {
      ClaimKeepsInv(job, c, t);
    } else {
      match c.phase[t]
      case Running(_) => PayloadStepKeepsInv(job, c, t);
      case Releasing(_, _) => ReleaseStepKeepsInv(job, c, t);
      case _ => RetireStepKeepsInv(job, c, t);
    }
  }
}
