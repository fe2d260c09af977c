/** A run of the parallel scheduler can always be completed: from every state it can reach there
    is a schedule after which all threads have returned. */
module Progress {
  import opened SharedMap
  import opened Block
  import opened TaskCore
  import opened WorkerMachine
  import opened ParallelTheorems

  ghost function RunFrom(job: Job, s: State, more: seq<nat>): (s': State)
    requires Sized(job, s)
    ensures Sized(job, s')
    decreases |more|
  {
    if more == [] then s
    else
      StepKeepsSized(job, s, more[0]);
      RunFrom(job, Step(job, s, more[0]), more[1..])
  }

  lemma {:induction false} RunFromAfter(job: Job, threads: nat, schedule: seq<nat>, more: seq<nat>)
    ensures After(job, threads, schedule + more) == RunFrom(job, After(job, threads, schedule), more)
    decreases |more|
  {
    hide Step, Begin;
    if more == [] {
      assert schedule + more == schedule;
    } else {
      var longer := schedule + [more[0]];
      assert longer[..|longer| - 1] == schedule;
      assert schedule + more == longer + more[1..];
      RunFromAfter(job, threads, longer, more[1..]);
    }
  }

  /* ----- which thread to run ----- */

  ghost function Active(workers: seq<Pc>): nat {
    if workers == [] then 0 else (if workers[0].Exited? then 0 else 1) + Active(workers[1..])
  }

  ghost function FirstActive(workers: seq<Pc>): (w: nat)
    ensures w <= |workers| && (w < |workers| ==> !workers[w].Exited?)
    ensures forall v :: 0 <= v < w ==> workers[v].Exited?
  {
    if workers == [] || !workers[0].Exited? then 0 else 1 + FirstActive(workers[1..])
  }

  lemma {:induction false} ActiveAfter(workers: seq<Pc>, w: nat, pc: Pc)
    requires w < |workers| && !workers[w].Exited?
    ensures Active(workers[w := pc]) == Active(workers) - if pc.Exited? then 1 else 0
  {
    if w > 0 {
      ActiveAfter(workers[1..], w - 1, pc);
      assert workers[w := pc][1..] == workers[1..][w - 1 := pc];
    } else {
      assert workers[w := pc][1..] == workers[1..];
    }
  }

  lemma {:induction false} FirstActiveStays(workers: seq<Pc>, pc: Pc)
    requires FirstActive(workers) < |workers| && !pc.Exited?
    ensures FirstActive(workers[FirstActive(workers) := pc]) == FirstActive(workers)
  {
    var w := FirstActive(workers);
    var v := FirstActive(workers[w := pc]);
    assert workers[w := pc][w] == pc;
    assert !(v < w) && !(w < v);
  }

  /* ----- how far it is from its next claim or its return ----- */

  ghost predicate ZeroFrom(c: Core, i: nat) {
    exists t: nat :: i <= t < |c.inDegree| && c.inDegree[t] == 0
  }

  ghost function Distance(job: Job, c: Core, pc: Pc): nat {
    var n := |job.txns|;
    match pc
    case Exited => 0
    case Hold(_) => 2 * n + 30
    case AtCount => n + 3
    case AtFlag => if c.completed < n then n + 2 else 2 * n + 20
    case Scan(i) =>
      if i > n then n + 4
      else if ZeroFrom(c, i) then n + 1 - i
      else n + 5 + n - i
  }

  lemma {:induction false} SkippingKeepsZeros(c: Core, i: nat)
    requires i < |c.inDegree| && c.inDegree[i] != 0
    ensures ZeroFrom(c, i) <==> ZeroFrom(c, i + 1)
  {
  }

  lemma {:induction false} ScanIsNearer(job: Job, c: Core, i: nat)
    requires |c.inDegree| == |job.txns|
    ensures i < |c.inDegree| && c.inDegree[i] != 0 ==> Distance(job, c, Scan(i + 1)) < Distance(job, c, Scan(i))
    ensures i >= |c.inDegree| ==> Distance(job, c, AtCount) < Distance(job, c, Scan(i))
    ensures (c.completed < |job.txns| ==> ZeroFrom(c, 0)) ==> Distance(job, c, Scan(0)) < Distance(job, c, AtFlag)
  {
    if i < |c.inDegree| && c.inDegree[i] != 0 {
      SkippingKeepsZeros(c, i);
    }
  }

  lemma {:induction false} SomebodyIsFree(job: Job, c: Core)
    requires ValidJob(job) && Inv(job, c) && c.completed < |job.txns|
    requires forall t: nat :: !InProgress(job, c, t)
    ensures ZeroFrom(c, 0)
  {
    var t := SomeZero(job, c);
  }

  /** With nothing in progress, a step that claims nothing brings the thread nearer. */
  lemma {:induction false} IdleStepIsNearer(job: Job, s: State, w: nat)
    requires ValidJob(job) && MachineInv(job, s) && w < |s.workers| && !s.workers[w].Exited?
    requires (forall t: nat :: !InProgress(job, s.core, t)) && !Effective(job, s, w)
    ensures var s' := Step(job, s, w);
            && s'.core == s.core && s'.workers == s.workers[w := s'.workers[w]]
            && Distance(job, s.core, s'.workers[w]) < Distance(job, s.core, s.workers[w])
  {
    hide OwnerInv, FlagInv, Inv, InProgress, ZeroFrom, ValidJob, Advance, Claim, FlagAfter;
    var pc := s.workers[w];
    if pc.AtFlag? && s.core.completed < |job.txns| {
      SomebodyIsFree(job, s.core);
    }
    ScanIsNearer(job, s.core, if pc.Scan? then pc.i else 0);
  }

  /** From every state that satisfies the invariant the run can be completed. */
  lemma {:induction false} CanFinishFrom(job: Job, s: State) returns (more: seq<nat>)
    requires ValidJob(job) && MachineInv(job, s)
    ensures AllExited(RunFrom(job, s, more))
    decreases TotalLeft(|job.txns|, s.core.phase), Active(s.workers),
              if FirstActive(s.workers) < |s.workers| then Distance(job, s.core, s.workers[FirstActive(s.workers)]) else 0
  {
    hide MachineInv, InProgress, TotalLeft, Distance, Active, Effective, Step, ValidJob;
    FromMachineInv(job, s);
    var w := FirstActive(s.workers);
    if w == |s.workers| {
      more := [];
    } else {
      if t: nat :| InProgress(job, s.core, t) {
        w := HolderIsEffective(job, s, t);
      }
      var s' := Step(job, s, w);
      MachineStepKeepsInv(job, s, w);
      if Effective(job, s, w) {
        EffectiveStepUsesWork(job, s, w);
      } else {
        IdleStepIsNearer(job, s, w);
        ActiveAfter(s.workers, w, s'.workers[w]);
        if !s'.workers[w].Exited? {
          FirstActiveStays(s.workers, s'.workers[w]);
        }
      }
      var rest := CanFinishFrom(job, s');
      more := [w] + rest;
      assert more[1..] == rest;
    }
  }

  lemma {:induction false} FromMachineInv(job: Job, s: State)
    requires MachineInv(job, s)
    ensures Sized(job, s)
  {
  }

  lemma {:induction false} HolderIsEffective(job: Job, s: State, t: nat) returns (w: nat)
    requires MachineInv(job, s) && InProgress(job, s.core, t)
    ensures Effective(job, s, w)
  {
    hide Inv, FlagInv, InProgress;
    w :| Holds(s, w, t);
  }

  /** However far the threads have got, under whatever schedule, some continuation lets all of
      them return. */
  lemma {:induction false} EveryRunCanFinish(b: Txns, start: Store, threads: nat, schedule: seq<nat>) returns (more: seq<nat>)
    requires WellDeclared(b)
    ensures AllExited(After(WholeBlock(b, start), threads, schedule + more))
  {
    var job := WholeBlock(b, start);
    WholeBlockIsValid(b, start);
    ReachableInv(job, threads, schedule);
    more := CanFinishFrom(job, After(job, threads, schedule));
    RunFromAfter(job, threads, schedule, more);
  }
}
