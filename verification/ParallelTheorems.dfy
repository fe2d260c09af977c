/** What the parallel scheduler guarantees, over every block, number of threads and schedule. */
module ParallelTheorems {
  import opened SharedMap
  import opened Block
  import opened TaskCore
  import opened WorkerMachine
  import opened Sets

  lemma {:induction false} WholeBlockIsValid(b: Txns, start: Store)
    requires WellDeclared(b)
    ensures ValidJob(WholeBlock(b, start))
  {
  }

  /* ----- the result of a run ----- */

  lemma {:induction false} EveryoneFinished(job: Job, s: State)
    requires MachineInv(job, s) && s.workers != [] && AllExited(s) && s.flag && job.mine == Range(|job.txns|)
    ensures forall t: nat :: t < |job.txns| ==> Finished(job, s.core, t)
  {
    assert s.workers[0].Exited?;
    assert s.core.completed >= |job.txns|;
    SubsetSize(Counted(s.core), Range(|job.txns|));
    forall t: nat | t < |job.txns| ensures Finished(job, s.core, t) {
      assert t in Range(|job.txns|);
      assert t in Counted(s.core);
      assert !InProgress(job, s.core, t);
    }
  }

  /** Conflict serializability: once all threads have returned, the flag tells whether every
      transaction succeeds in block order, and if so the shared map is the one the block
      leaves when it is executed in order. */
  lemma {:induction false} ParallelRunIsSerial(b: Txns, start: Store, threads: nat, schedule: seq<nat>)
    requires WellDeclared(b) && threads >= 1
    requires AllExited(After(WholeBlock(b, start), threads, schedule))
    ensures var s := After(WholeBlock(b, start), threads, schedule);
            && (s.flag <==> AllSerialOk(b, start))
            && (s.flag ==> s.core.store == Serial(b, |b|, start))
  {
    var job := WholeBlock(b, start);
    var s := After(job, threads, schedule);
    WholeBlockIsValid(b, start);
    ReachableInv(job, threads, schedule);
    if s.flag {
      EveryoneFinished(job, s);
      forall t: nat | t < |b| ensures t in Ran(s.core) && SerialOk(b, t, start) {
        assert Finished(job, s.core, t);
        assert Judged(s.core, t);
      }
      PartialOfAllIsSerial(b, Ran(s.core), |b|, start);
      forall k ensures Look(s.core.store, k) == Look(Serial(b, |b|, start), k) {
        assert !RunsRunning(s.core, k, b);
      }
      SameLooksSameMap(s.core.store, Serial(b, |b|, start));
    } else {
      var t: nat :| Judged(s.core, t) && !s.core.phase[t].ok;
      assert t in Ran(s.core);
      assert !SerialOk(b, t, start);
    }
  }

  /** Two runs of one block that have both ended never disagree, whatever their thread
      counts and schedules. */
  lemma {:induction false} VerdictIsScheduleIndependent(b: Txns, start: Store, threads: nat, schedule: seq<nat>,
                                     threads': nat, schedule': seq<nat>)
    requires WellDeclared(b) && threads >= 1 && threads' >= 1
    requires AllExited(After(WholeBlock(b, start), threads, schedule))
    requires AllExited(After(WholeBlock(b, start), threads', schedule'))
    ensures var s, s' := After(WholeBlock(b, start), threads, schedule), After(WholeBlock(b, start), threads', schedule');
            s.flag == s'.flag && (s.flag ==> s.core.store == s'.core.store)
  {
    ParallelRunIsSerial(b, start, threads, schedule);
    ParallelRunIsSerial(b, start, threads', schedule');
  }

  /* ----- claims ----- */

  /** The next step of w is a successful compare-exchange on t. */
  ghost predicate Claims(job: Job, s: State, w: nat, t: nat)
    requires Sized(job, s)
  {
    w < |s.workers| && s.workers[w] == Scan(t) && t < |job.txns| && s.core.inDegree[t] == 0
  }

  ghost function ClaimCount(job: Job, threads: nat, schedule: seq<nat>, t: nat): nat {
    if schedule == [] then 0
    else
      var before := schedule[..|schedule| - 1];
      ClaimCount(job, threads, before, t)
      + if Claims(job, After(job, threads, before), schedule[|schedule| - 1], t) then 1 else 0
  }

  /** A transaction is claimed at most once in a run, and its in-degree then stays negative. */
  lemma {:induction false} ClaimedAtMostOnce(job: Job, threads: nat, schedule: seq<nat>, t: nat)
    requires ValidJob(job) && t < |job.txns|
    ensures var c := After(job, threads, schedule).core;
            && ClaimCount(job, threads, schedule, t) == (if c.phase[t].Waiting? then 0 else 1)
            && (!c.phase[t].Waiting? ==> c.inDegree[t] == -1 || c.inDegree[t] == -2)
  {
    ReachableInv(job, threads, schedule);
    if schedule != [] {
      var before := schedule[..|schedule| - 1];
      var w := schedule[|schedule| - 1];
      ClaimedAtMostOnce(job, threads, before, t);
      ReachableInv(job, threads, before);
      var s := After(job, threads, before);
      if Claims(job, s, w, t) {
        ZeroMeansReleased(job, s.core, t);
      }
      OnlyClaimsLeaveWaiting(job, s, w, t);
    }
  }

  lemma {:induction false} OnlyClaimsLeaveWaiting(job: Job, s: State, w: nat, t: nat)
    requires MachineInv(job, s) && t < |job.txns|
    ensures Step(job, s, w).core.phase[t].Waiting? <==> s.core.phase[t].Waiting? && !Claims(job, s, w, t)
  {
    hide Inv, FlagInv, ExitInv;
    if Claims(job, s, w, t) {
    } else if w < |s.workers| && s.workers[w].Hold? {
      assert Holds(s, w, s.workers[w].t);
    }
  }

  /** When a compare-exchange on t succeeds, every earlier transaction that conflicts with t
      has processed its whole payload, with its serial verdict, and has released t; and until
      then the in-degree of t counts exactly those that have not. */
  lemma {:induction false} ClaimedAfterPredecessors(job: Job, threads: nat, schedule: seq<nat>, t: nat)
    requires ValidJob(job) && t < |job.txns| && t in job.mine
    ensures var c := After(job, threads, schedule).core;
            && (c.phase[t].Waiting? ==>
                  c.inDegree[t] == |set i | i in Preds(job.txns, t) && !Released(c, i, t)|)
            && (c.inDegree[t] == 0 || !c.phase[t].Waiting? ==>
                  forall i :: i in Preds(job.txns, t) ==>
                    Released(c, i, t) && c.phase[i].ok == SerialOk(job.txns, i, job.start))
  {
    var c := After(job, threads, schedule).core;
    ReachableInv(job, threads, schedule);
    assert Pending(job, c, t) == set i | i in Preds(job.txns, t) && !Released(c, i, t);
    if c.inDegree[t] == 0 {
      ZeroMeansReleased(job, c, t);
    }
    forall i | i in Preds(job.txns, t) && Released(c, i, t)
      ensures c.phase[i].ok == SerialOk(job.txns, i, job.start)
    {
      assert i in Ran(c);
    }
  }

  /* ----- progress ----- */

  /** While the flag is up and transactions remain, no thread has returned, and either some
      thread is in the middle of a transaction or some transaction can be claimed. */
  lemma {:induction false} NoDeadlock(b: Txns, start: Store, threads: nat, schedule: seq<nat>)
    requires WellDeclared(b)
    requires var s := After(WholeBlock(b, start), threads, schedule); s.flag && s.core.completed < |b|
    ensures var s := After(WholeBlock(b, start), threads, schedule);
            && (forall w: nat :: w < threads ==> !s.workers[w].Exited?)
            && ((exists w: nat, t: nat :: Holds(s, w, t) && InProgress(WholeBlock(b, start), s.core, t))
                || exists t: nat :: t < |b| && s.core.inDegree[t] == 0)
  {
    var job := WholeBlock(b, start);
    var s := After(job, threads, schedule);
    WholeBlockIsValid(b, start);
    ReachableInv(job, threads, schedule);
    if t: nat :| InProgress(job, s.core, t) {
      var w: nat :| Holds(s, w, t);
    } else {
      var t := SomeZero(job, s.core);
    }
  }

  /** With nothing in progress and work left, some armed transaction can be claimed. */
  lemma {:induction false} SomeZero(job: Job, c: Core) returns (t: nat)
    requires ValidJob(job) && Inv(job, c) && c.completed < |job.txns|
    requires forall t: nat :: !InProgress(job, c, t)
    ensures t < |job.txns| && c.inDegree[t] == 0
  {
    hide StoreInv, VerdictInv, DegreeInv, WellDeclared;
    if job.mine <= Counted(c) {
      SubsetSize(job.mine, Counted(c));
    }
    var u :| u in job.mine && u !in Counted(c);
    t := FirstWaiting(job, c, u);
    NobodyPending(job, c, t);
  }

  lemma {:induction false} NobodyPending(job: Job, c: Core, t: nat)
    requires ValidJob(job) && Inv(job, c) && t < |job.txns| && t in job.mine && c.phase[t].Waiting?
    requires forall i: nat :: i < t && i in job.mine ==> Finished(job, c, i)
    ensures c.inDegree[t] == 0
  {
    hide StoreInv, VerdictInv, WellDeclared;
    forall i: nat | i < t && Edge(job.txns, i, t) ensures Released(c, i, t) {
      assert i in job.mine;
      assert Finished(job, c, i);
    }
    assert Pending(job, c, t) == {};
  }

  lemma {:induction false} FirstWaiting(job: Job, c: Core, u: nat) returns (t: nat)
    requires ValidJob(job) && |c.phase| == |job.txns| && u in job.mine && u !in Counted(c)
    requires forall t: nat :: !InProgress(job, c, t)
    ensures t in job.mine && t < |job.txns| && c.phase[t].Waiting?
    ensures forall i: nat :: i < t && i in job.mine ==> Finished(job, c, i)
    decreases u
  {
    hide WellDeclared, Edge;
    assert !InProgress(job, c, u);
    if i: nat :| i < u && i in job.mine && !Finished(job, c, i) {
      assert !InProgress(job, c, i);
      t := FirstWaiting(job, c, i);
    } else {
      t := u;
    }
  }

  /* ----- bounded work ----- */

  /** An upper bound on the atomic steps a transaction still takes. */
  ghost function Left(n: nat, p: Phase): nat {
    match p
    case Waiting => MAX_ACCESSES + n + 6
    case Running(log) => (if |log| <= MAX_ACCESSES then MAX_ACCESSES - |log| else 0) + n + 5
    case Returned(_) => n + 4
    case Retiring(_) => n + 3
    case Counting(_) => n + 2
    case Releasing(_, next) => if next <= n then n - next else 0
  }

  ghost function TotalLeft(n: nat, phase: seq<Phase>): nat {
    if phase == [] then 0 else Left(n, phase[0]) + TotalLeft(n, phase[1..])
  }

  lemma {:induction false} TotalLeftUpdate(n: nat, phase: seq<Phase>, t: nat, p: Phase)
    requires t < |phase|
    ensures TotalLeft(n, phase[t := p]) + Left(n, phase[t]) == TotalLeft(n, phase) + Left(n, p)
  {
    if t == 0 {
      assert phase[t := p][1..] == phase[1..];
    } else {
      TotalLeftUpdate(n, phase[1..], t - 1, p);
      assert phase[t := p][1..] == phase[1..][t - 1 := p];
    }
  }

  /** A step that is neither polling the counters nor a failed compare-exchange. */
  ghost predicate Effective(job: Job, s: State, w: nat)
    requires Sized(job, s)
  {
    && w < |s.workers|
    && ((s.workers[w].Scan? && Claims(job, s, w, s.workers[w].i))
        || (s.workers[w].Hold? && InProgress(job, s.core, s.workers[w].t)))
  }

  ghost function EffectiveCount(job: Job, threads: nat, schedule: seq<nat>): nat {
    if schedule == [] then 0
    else
      var before := schedule[..|schedule| - 1];
      EffectiveCount(job, threads, before)
      + if Effective(job, After(job, threads, before), schedule[|schedule| - 1]) then 1 else 0
  }

  lemma {:induction false} AdvanceUsesWork(job: Job, c: Core, t: nat)
    requires ValidJob(job) && Inv(job, c) && InProgress(job, c, t)
    ensures Left(|job.txns|, Advance(job, c, t).phase[t]) + 1 <= Left(|job.txns|, c.phase[t])
    ensures Advance(job, c, t).phase == c.phase[t := Advance(job, c, t).phase[t]]
  {
    hide StoreInv, VerdictInv, DegreeInv, Edge, Counted;
  }

  lemma {:induction false} EffectiveStepUsesWork(job: Job, s: State, w: nat)
    requires ValidJob(job) && MachineInv(job, s)
    ensures TotalLeft(|job.txns|, Step(job, s, w).core.phase) + (if Effective(job, s, w) then 1 else 0)
            <= TotalLeft(|job.txns|, s.core.phase)
  {
    hide Inv, FlagInv, OwnerInv, TotalLeft;
    var n := |job.txns|;
    if Effective(job, s, w) {
      if s.workers[w].Scan? {
        var t := s.workers[w].i;
        ZeroMeansReleased(job, s.core, t);
        TotalLeftUpdate(n, s.core.phase, t, Running([]));
      } else {
        var t := s.workers[w].t;
        AdvanceUsesWork(job, s.core, t);
        TotalLeftUpdate(n, s.core.phase, t, Advance(job, s.core, t).phase[t]);
      }
    } else {
      assert Step(job, s, w).core == s.core;
    }
  }

  lemma {:induction false} AllWaitingTotal(n: nat, phase: seq<Phase>)
    requires forall i :: 0 <= i < |phase| ==> phase[i] == Waiting
    ensures TotalLeft(n, phase) == |phase| * (MAX_ACCESSES + n + 6)
  {
    if phase != [] {
      AllWaitingTotal(n, phase[1..]);
    }
  }

  /** However long the threads run, they execute only a bounded number of steps that are not
      polling: with NoDeadlock, a run can only go on by polling. */
  lemma {:induction false} WorkIsBounded(job: Job, threads: nat, schedule: seq<nat>)
    requires ValidJob(job)
    ensures EffectiveCount(job, threads, schedule)
            + TotalLeft(|job.txns|, After(job, threads, schedule).core.phase)
            <= |job.txns| * (MAX_ACCESSES + |job.txns| + 6)
  {
    if schedule == [] {
      AllWaitingTotal(|job.txns|, Begin(job, threads).core.phase);
    } else {
      var before := schedule[..|schedule| - 1];
      WorkIsBounded(job, threads, before);
      ReachableInv(job, threads, before);
      EffectiveStepUsesWork(job, After(job, threads, before), schedule[|schedule| - 1]);
    }
  }
}
