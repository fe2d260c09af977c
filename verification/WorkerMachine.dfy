/** The worker threads of the single-node parallel scheduler, interleaved at every atomic
    load, compare-exchange, store, add and subtract.

    A schedule is the sequence of thread numbers that take the next step; the theorems hold
    for every block, every number of threads and every schedule. */
module WorkerMachine {
  import opened SharedMap
  import opened Block
  import opened TaskCore
  import opened Sets

  /** Where a thread stands in executeTxns: about to load completedTxns, about to load the
      flag, about to try transaction i in selectTxn, holding transaction t, or returned. */
  datatype Pc = AtCount | AtFlag | Scan(i: nat) | Hold(t: nat) | Exited

  datatype State = State(core: Core, flag: bool, workers: seq<Pc>)

  /** The job of the single node: the whole block is armed. */
  ghost function WholeBlock(b: Txns, start: Store): Job {
    Job(b, start, Range(|b|))
  }

  ghost function Begin(job: Job, threads: nat): State {
    State(Core(seq(|job.txns|, j requires 0 <= j < |job.txns| =>
                 if j in job.mine then |Preds(job.txns, j)| else -1),
               job.start, seq(|job.txns|, _ => Waiting), |job.txns| - |job.mine|),
          true, seq(threads, _ => AtCount))
  }

  ghost predicate Sized(job: Job, s: State) {
    && |s.core.phase| == |s.core.inDegree| == |job.txns|
    && forall w: nat :: w < |s.workers| && s.workers[w].Hold? ==> s.workers[w].t < |job.txns|
  }

  /** A false verdict lowers the flag; nothing raises it. */
  ghost function FlagAfter(s: State, t: nat): bool
    requires t < |s.core.phase|
  {
    if s.core.phase[t].Returned? && !s.core.phase[t].ok then false else s.flag
  }

  /** The next atomic step of thread w. */
  ghost function Step(job: Job, s: State, w: nat): State
    requires Sized(job, s)
  {
    if w >= |s.workers| then s else
    match s.workers[w]
    case AtCount =>
      s.(workers := s.workers[w := if s.core.completed < |job.txns| then AtFlag else Exited])
    case AtFlag =>
      s.(workers := s.workers[w := if s.flag then Scan(0) else Exited])
    case Scan(i) =>
      if i >= |job.txns| then s.(workers := s.workers[w := AtCount])
      else if s.core.inDegree[i] == 0 then
        s.(core := Claim(s.core, i), workers := s.workers[w := Hold(i)])
      else s.(workers := s.workers[w := Scan(i + 1)])
    case Hold(t) =>
      if InProgress(job, s.core, t) then s.(core := Advance(job, s.core, t), flag := FlagAfter(s, t))
      else s.(workers := s.workers[w := AtCount])
    case Exited => s
  }

  lemma {:induction false} StepKeepsSized(job: Job, s: State, w: nat)
    requires Sized(job, s)
    ensures Sized(job, Step(job, s, w)) && |Step(job, s, w).workers| == |s.workers|
  {
  }

  /** The state a schedule leads to. */
  ghost function After(job: Job, threads: nat, schedule: seq<nat>): (s: State)
    ensures Sized(job, s) && |s.workers| == threads
  {
    if schedule == [] then Begin(job, threads)
    else
      var s := After(job, threads, schedule[..|schedule| - 1]);
      StepKeepsSized(job, s, schedule[|schedule| - 1]);
      Step(job, s, schedule[|schedule| - 1])
  }

  ghost predicate AllExited(s: State) {
    forall w: nat :: w < |s.workers| ==> s.workers[w].Exited?
  }

  /* ----- invariant ----- */

  ghost predicate Holds(s: State, w: nat, t: nat) {
    w < |s.workers| && s.workers[w] == Hold(t)
  }

  /** Every claimed transaction still being processed is held by exactly one thread. */
  ghost predicate OwnerInv(job: Job, s: State)
    requires Sized(job, s)
  {
    && (forall w: nat, t: nat :: Holds(s, w, t) ==> !s.core.phase[t].Waiting?)
    && (forall w: nat, w': nat, t: nat :: Holds(s, w, t) && Holds(s, w', t) ==> w == w')
    && (forall t: nat :: InProgress(job, s.core, t) ==> exists w: nat :: Holds(s, w, t))
  }

  ghost predicate Judged(c: Core, t: nat) {
    t < |c.phase| && (c.phase[t].Retiring? || c.phase[t].Counting? || c.phase[t].Releasing?)
  }

  /** The flag is up exactly as long as every handled verdict was true. */
  ghost predicate FlagInv(s: State) {
    s.flag <==> forall t: nat :: Judged(s.core, t) ==> s.core.phase[t].ok
  }

  ghost predicate ExitInv(job: Job, s: State) {
    forall w: nat :: w < |s.workers| && s.workers[w].Exited? ==> !s.flag || s.core.completed >= |job.txns|
  }

  ghost predicate MachineInv(job: Job, s: State) {
    && Sized(job, s)
    && Inv(job, s.core)
    && OwnerInv(job, s)
    && FlagInv(s)
    && ExitInv(job, s)
  }

  lemma {:induction false} BeginInv(job: Job, threads: nat)
    requires ValidJob(job)
    ensures MachineInv(job, Begin(job, threads))
  {
    hide Inv;
    var s := Begin(job, threads);
    InitInv(job, s.core);
    assert forall w: nat, t: nat :: !Holds(s, w, t);
    assert forall t: nat :: !InProgress(job, s.core, t) && !Judged(s.core, t);
  }

  lemma {:induction false} AdvanceKeepsFlagInv(job: Job, s: State, t: nat)
    requires Sized(job, s) && InProgress(job, s.core, t) && FlagInv(s)
    ensures FlagInv(s.(core := Advance(job, s.core, t), flag := FlagAfter(s, t)))
  {
    var s' := s.(core := Advance(job, s.core, t), flag := FlagAfter(s, t));
    forall u: nat | u != t ensures Judged(s'.core, u) == Judged(s.core, u) {
    }
    assert Judged(s.core, t) || s.core.phase[t].Returned?
           ==> Judged(s'.core, t) && s'.core.phase[t].ok == s.core.phase[t].ok;
    assert Judged(s'.core, t) ==> Judged(s.core, t) || s.core.phase[t].Returned?;
    forall u: nat | Judged(s.core, u) ensures Judged(s'.core, u) && s'.core.phase[u].ok == s.core.phase[u].ok {
    }
  }

  lemma {:induction false} ClaimStepKeepsInv(job: Job, s: State, w: nat, i: nat)
    requires ValidJob(job) && MachineInv(job, s) && w < |s.workers| && s.workers[w] == Scan(i)
    requires i < |job.txns| && s.core.inDegree[i] == 0
    ensures MachineInv(job, Step(job, s, w))
  {
    hide Inv;
    var s' := Step(job, s, w);
    StepKeepsInv(job, s.core, s'.core, i);
    ZeroMeansReleased(job, s.core, i);
    ClaimKeepsOwners(job, s, w, i);
    forall u: nat ensures Judged(s'.core, u) == Judged(s.core, u) {
    }
  }

  lemma {:induction false} HoldStepKeepsInv(job: Job, s: State, w: nat, t: nat)
    requires ValidJob(job) && MachineInv(job, s) && Holds(s, w, t) && InProgress(job, s.core, t)
    ensures MachineInv(job, Step(job, s, w))
  {
    hide Inv, FlagInv, OwnerInv;
    StepKeepsInv(job, s.core, Step(job, s, w).core, t);
    AdvanceKeepsFlagInv(job, s, t);
    AdvanceKeepsOwners(job, s, w, t);
  }

  lemma {:induction false} MoveStepKeepsInv(job: Job, s: State, w: nat)
    requires ValidJob(job) && MachineInv(job, s) && w < |s.workers|
    requires s.workers[w].Hold? ==> !InProgress(job, s.core, s.workers[w].t)
    requires s.workers[w].Scan? ==> s.workers[w].i >= |job.txns| || s.core.inDegree[s.workers[w].i] != 0
    ensures MachineInv(job, Step(job, s, w))
  {
    hide Inv, OwnerInv;
    MovingKeepsOwners(job, s, Step(job, s, w), w);
  }

  lemma {:induction false} MachineStepKeepsInv(job: Job, s: State, w: nat)
    requires ValidJob(job) && MachineInv(job, s)
    ensures MachineInv(job, Step(job, s, w))
  {
    if w < |s.workers| {
      var pc := s.workers[w];
      if pc.Scan? && pc.i < |job.txns| && s.core.inDegree[pc.i] == 0 {
        ClaimStepKeepsInv(job, s, w, pc.i);
      } else if pc.Hold? && InProgress(job, s.core, pc.t) {
        assert Holds(s, w, pc.t);
        HoldStepKeepsInv(job, s, w, pc.t);
      } else {
        MoveStepKeepsInv(job, s, w);
      }
    }
  }

  lemma {:induction false} ClaimKeepsOwners(job: Job, s: State, w: nat, t: nat)
    requires Sized(job, s) && OwnerInv(job, s) && w < |s.workers| && !s.workers[w].Hold?
    requires t < |job.txns| && s.core.phase[t].Waiting?
    ensures OwnerInv(job, s.(core := Claim(s.core, t), workers := s.workers[w := Hold(t)]))
  {
    var s' := s.(core := Claim(s.core, t), workers := s.workers[w := Hold(t)]);
    forall v: nat, u: nat ensures Holds(s', v, u) <==> if v == w then u == t else Holds(s, v, u) {
    }
    assert Holds(s', w, t);
    forall u: nat | InProgress(job, s'.core, u) ensures exists v: nat :: Holds(s', v, u) {
      if u != t {
        assert InProgress(job, s.core, u);
        var v: nat :| Holds(s, v, u);
        assert Holds(s', v, u);
      }
    }
  }

  lemma {:induction false} AdvanceKeepsOwners(job: Job, s: State, w: nat, t: nat)
    requires Sized(job, s) && OwnerInv(job, s) && Holds(s, w, t) && InProgress(job, s.core, t)
    ensures OwnerInv(job, s.(core := Advance(job, s.core, t), flag := FlagAfter(s, t)))
  {
    var s' := s.(core := Advance(job, s.core, t), flag := FlagAfter(s, t));
    forall v: nat, u: nat ensures Holds(s', v, u) == Holds(s, v, u) {
    }
    forall u: nat | InProgress(job, s'.core, u) ensures exists v: nat :: Holds(s', v, u) {
      if u == t {
        assert Holds(s', w, u);
      } else {
        assert InProgress(job, s.core, u);
        var v: nat :| Holds(s, v, u);
        assert Holds(s', v, u);
      }
    }
  }

  lemma {:induction false} MovingKeepsOwners(job: Job, s: State, s': State, w: nat)
    requires Sized(job, s) && Sized(job, s') && OwnerInv(job, s) && w < |s.workers| && s'.core == s.core
    requires |s'.workers| == |s.workers| && s'.workers == s.workers[w := s'.workers[w]] && !s'.workers[w].Hold?
    requires s.workers[w].Hold? ==> !InProgress(job, s.core, s.workers[w].t)
    ensures OwnerInv(job, s')
  {
    forall v: nat, u: nat ensures Holds(s', v, u) <==> v != w && Holds(s, v, u) {
    }
    forall u: nat | InProgress(job, s'.core, u) ensures exists v: nat :: Holds(s', v, u) {
      var v: nat :| Holds(s, v, u);
      assert Holds(s', v, u);
    }
  }

  /** Every reachable state satisfies the invariant. */
  lemma {:induction false} ReachableInv(job: Job, threads: nat, schedule: seq<nat>)
    requires ValidJob(job)
    ensures MachineInv(job, After(job, threads, schedule))
  {
    if schedule == [] {
      BeginInv(job, threads);
    } else {
      var before := schedule[..|schedule| - 1];
      ReachableInv(job, threads, before);
      MachineStepKeepsInv(job, After(job, threads, before), schedule[|schedule| - 1]);
    }
  }
}
