/** When the leader can write run = finish: exactly for the blocks that succeed. */
module ClusterProgress {
  import opened Block
  import opened TaskCore
  import opened Sets
  import opened Assignment
  import opened Cluster
  import opened ClusterTheorems
  import ParallelTheorems

  /** Every owner is a running node whose status key the leader reads. */
  ghost predicate OwnersRead(p: Plan, size: nat, members: nat) {
    forall c :: 0 <= c < |p.owners| ==> p.owners[c] < size && p.owners[c] < members
  }

  /* ----- flags and the run key ----- */

  /** Only finish stops a node whose flag is up, and a node that has not reported will. */
  ghost predicate NodeFlags(n: Node, run: Run, reported: bool) {
    && (n.completeFlag ==> run == Finish)
    && (!reported ==> n.updateFlag)
    && (n.pc.Exited? ==> n.completeFlag || !n.flag)
  }

  ghost predicate Flags(s: State) {
    && (s.leader.AtStart? <==> s.run == Wait)
    && (s.leader.Finished? <==> s.run == Finish)
    && forall f: nat :: f < |s.nodes| ==> NodeFlags(s.nodes[f], s.run, f in s.status)
  }

  lemma {:induction false} LocalStepKeepsFlags(p: Plan, f: nat, n: Node, run: Run, reported: bool)
    requires Sized(p, n) && NodeFlags(n, run, reported)
    ensures NodeFlags(LocalStep(p, f, n, run), run, reported)
  {
    hide Advance, Claim, Selected, InProgress, Mine, Preds;
  }

  lemma {:induction false} StepKeepsFlags(p: Plan, members: nat, s: State, e: Event)
    requires AllSized(p, s) && Flags(s)
    ensures Flags(Step(p, members, s, e))
  {
    hide LocalStep, Sized;
    if e.Worker? && e.f < |s.nodes| {
      LocalStepKeepsFlags(p, e.f, s.nodes[e.f], s.run, e.f in s.status);
    }
  }

  lemma {:induction false} ReachableFlags(p: Plan, size: nat, members: nat, schedule: seq<Event>)
    requires |p.owners| == |p.table|
    ensures Flags(After(p, size, members, schedule))
  {
    hide Flags, Step, Begin;
    if schedule == [] {
      BeginFlags(p, size);
    } else {
      ReachableFlags(p, size, members, schedule[..|schedule| - 1]);
      StepKeepsFlags(p, members, After(p, size, members, schedule[..|schedule| - 1]), schedule[|schedule| - 1]);
    }
  }

  lemma {:induction false} BeginFlags(p: Plan, size: nat)
    requires |p.owners| == |p.table|
    ensures Flags(Begin(p, size))
  {
  }

  /* ----- a node that has not reported ----- */

  lemma {:induction false} FlagStaysUp(p: Plan, f: nat, n: Node)
    requires Sized(p, n) && NodeInv(p, f, n) && AllSerialOk(p.txns, map[])
    ensures n.flag
  {
    hide StoreInv, DegreeInv, OrderInv, SerialOk;
    forall t: nat | Judged(n.core, t) ensures n.core.phase[t].ok {
      assert t in Ran(n.core);
    }
  }

  ghost function WorkLeft(p: Plan, n: Node): nat {
    ParallelTheorems.TotalLeft(|p.txns|, n.core.phase)
  }

  /** How far the node is from its next claim, or from its report when its share is done. */
  ghost function NodeDistance(p: Plan, n: Node): nat {
    match n.pc
    case Idle => 13
    case Hold(_) => 12
    case Select => if n.core.completed == |p.txns| then 11 else 7
    case AtComplete => 10
    case AtFlag => 9
    case AtDone => 8
    case PutData => 7
    case PutStatus => 6
    case Exited => 0
  }

  ghost predicate Nearer(p: Plan, n: Node, n': Node) {
    WorkLeft(p, n') < WorkLeft(p, n) || (WorkLeft(p, n') == WorkLeft(p, n) && NodeDistance(p, n') < NodeDistance(p, n))
  }

  lemma {:induction false} ClaimIsNearer(p: Plan, f: nat, n: Node, t: nat)
    requires ValidPlan(p) && Sized(p, n) && NodeInv(p, f, n) && t < |p.txns| && n.core.inDegree[t] == 0
    ensures WorkLeft(p, n.(core := Claim(n.core, t), last := t, pc := Hold(t))) < WorkLeft(p, n)
  {
    hide StoreInv, VerdictInv, DegreeInv, OrderInv, ValidPlan;
    ZeroMeansReleased(JobAt(p, f), n.core, t);
    ParallelTheorems.TotalLeftUpdate(|p.txns|, n.core.phase, t, Running([]));
  }

  lemma {:induction false} AdvanceIsNearer(p: Plan, f: nat, n: Node, t: nat, flag: bool)
    requires ValidPlan(p) && Sized(p, n) && NodeInv(p, f, n) && t < |p.txns| && InProgress(JobAt(p, f), n.core, t)
    ensures WorkLeft(p, n.(core := Advance(JobAt(p, f), n.core, t), flag := flag)) < WorkLeft(p, n)
  {
    hide Inv, Advance, InProgress, WellDeclared, Dealt;
    var job := JobAt(p, f);
    ShareIsValidJobAt(p, f);
    ParallelTheorems.AdvanceUsesWork(job, n.core, t);
    ParallelTheorems.TotalLeftUpdate(|p.txns|, n.core.phase, t, Advance(job, n.core, t).phase[t]);
  }

  lemma {:induction false} ShareIsValidJobAt(p: Plan, f: nat)
    requires ValidPlan(p)
    ensures |p.owners| == |p.table| && ValidJob(JobAt(p, f))
  {
    ShareIsValidJob(p.txns, p.table, p.owners, f, map[]);
  }

  /** With work left and nothing held, there is something to select. */
  lemma {:induction false} SomethingToSelect(p: Plan, f: nat, n: Node)
    requires ValidPlan(p) && Sized(p, n) && NodeInv(p, f, n) && n.pc.Select?
    ensures n.core.completed != |p.txns| ==> Selected(n.core.inDegree, n.last).Some?
    ensures Selected(n.core.inDegree, n.last).Some? ==>
              var t := Selected(n.core.inDegree, n.last).value; t < |p.txns| && n.core.inDegree[t] == 0
  {
    hide Selected, StoreInv, VerdictInv, DegreeInv, OrderInv, WellDeclared, Dealt, InProgress;
    SelectedIsIndex(n);
    ShareIsValidJobAt(p, f);
    CountedInShare(p, f, n);
    if n.core.completed != |p.txns| {
      var t := ParallelTheorems.SomeZero(JobAt(p, f), n.core);
    }
  }

  lemma {:induction false} CountedInShare(p: Plan, f: nat, n: Node)
    requires Sized(p, n) && NodeInv(p, f, n)
    ensures n.core.completed <= |p.txns|
  {
    hide StoreInv, VerdictInv, DegreeInv, Mine;
    SubsetSize(Counted(n.core), JobAt(p, f).mine);
  }

  lemma {:induction false} LocalStepIsNearer(p: Plan, f: nat, n: Node)
    requires ValidPlan(p) && Sized(p, n) && NodeInv(p, f, n) && NodeFlags(n, Go, false) && n.flag
    requires !n.pc.PutData? && !n.pc.PutStatus?
    ensures Nearer(p, n, LocalStep(p, f, n, Go))
  {
    hide NodeInv, WorkLeft, Advance, Claim, Selected, InProgress, ValidPlan, Armed, JobAt;
    match n.pc
    case Idle => SleepingHasSameWork(p, f, n);
    case Select =>
      SomethingToSelect(p, f, n);
      if Selected(n.core.inDegree, n.last).Some? {
        ClaimIsNearer(p, f, n, Selected(n.core.inDegree, n.last).value);
      } else {
        SameCoreSameWork(p, n, n.(pc := AtComplete));
      }
    case Hold(t) =>
      if InProgress(JobAt(p, f), n.core, t) {
        AdvanceIsNearer(p, f, n, t, if n.core.phase[t].Returned? then n.core.phase[t].ok else n.flag);
      } else {
        SameCoreSameWork(p, n, n.(compCount := n.compCount + 1, pc := AtComplete));
      }
    case AtComplete => SameCoreSameWork(p, n, LocalStep(p, f, n, Go));
    case AtFlag => SameCoreSameWork(p, n, LocalStep(p, f, n, Go));
    case AtDone => SameCoreSameWork(p, n, LocalStep(p, f, n, Go));
    case _ =>
  }

  lemma {:induction false} SameCoreSameWork(p: Plan, n: Node, n': Node)
    requires n'.core == n.core
    ensures WorkLeft(p, n') == WorkLeft(p, n)
  {
  }

  lemma {:induction false} SleepingHasSameWork(p: Plan, f: nat, n: Node)
    requires Sized(p, n) && NodeInv(p, f, n) && n.pc.Idle?
    ensures WorkLeft(p, Armed(p, f)) == WorkLeft(p, n) && Armed(p, f).pc == AtComplete
  {
    SleepingIsAsleep(p, f, n);
  }

  /* ----- one node after the other ----- */

  ghost function Unreported(status: map<nat, nat>, size: nat): nat {
    if size == 0 then 0 else (if size - 1 in status then 0 else 1) + Unreported(status, size - 1)
  }

  /** A node below `size` that has not reported, if there is one. */
  ghost function Pick(status: map<nat, nat>, size: nat): (f: nat)
    ensures Unreported(status, size) > 0 ==> f < size && f !in status
    ensures Unreported(status, size) == 0 ==> forall g: nat :: g < size ==> g in status
  {
    if size == 0 then 0 else if size - 1 !in status then size - 1 else Pick(status, size - 1)
  }

  lemma {:induction false} OneFewer(status: map<nat, nat>, size: nat, f: nat, count: nat)
    requires f !in status
    ensures Unreported(status[f := count], size) == Unreported(status, size) - if f < size then 1 else 0
  {
    if size > 0 {
      OneFewer(status, size - 1, f, count);
    }
  }

  /** Node f has put its count. */
  ghost predicate JustReported(s: State, s': State, f: nat) {
    f in s'.status && s'.status == s.status[f := s'.status[f]]
  }

  /** A step of a node that has not reported makes it report, or brings it nearer to that. */
  lemma {:induction false} WorkerStepIsNearer(p: Plan, members: nat, s: State, f: nat)
    requires AllSized(p, s) && f < |s.nodes| && f !in s.status && s.run == Go
    requires SystemInv(p, members, s) && Flags(s) && AllSerialOk(p.txns, map[])
    ensures |Step(p, members, s, Worker(f, true)).nodes| == |s.nodes|
    ensures var s' := Step(p, members, s, Worker(f, true));
            JustReported(s, s', f) || (s'.status == s.status && Nearer(p, s.nodes[f], s'.nodes[f]))
  {
    hide NodeInv, LocalStep, Sized, ValidPlan, Nearer, AllSerialOk, StatusInv, DataInv, LeaderInv;
    var n := s.nodes[f];
    FlagStaysUp(p, f, n);
    if n.pc.PutStatus? {
      assert JustReported(s, Step(p, members, s, Worker(f, true)), f);
    } else if n.pc.PutData? {
      PuttingIsNearer(p, n);
    } else {
      LocalStepIsNearer(p, f, n);
    }
  }

  lemma {:induction false} PuttingIsNearer(p: Plan, n: Node)
    requires n.pc.PutData?
    ensures Nearer(p, n, n.(pc := PutStatus))
  {
  }

  /* ----- the leader's rounds ----- */

  lemma {:induction false} AllReportedSum(p: Plan, size: nat, members: nat, s: State)
    requires SystemInv(p, members, s) && OwnersRead(p, size, members) && Unreported(s.status, size) == 0
    ensures SumOfCounts(s.status, members) == |p.txns|
  {
    hide NodeInv, OwnerOf, Mine, StatusInv, DataInv, LeaderInv, AllSized;
    StatusesAreShares(p, members, s);
    SumIsOwned(p, s.status, members);
    var f := Pick(s.status, size);
    forall v: nat | v < |p.txns| ensures OwnerOf(p.txns, p.table, p.owners, v) in Reported(s.status, members) {
      OwnerIsRead(p, size, members, v);
    }
    assert OwnedBy(p, Reported(s.status, members)) == Range(|p.txns|);
  }

  lemma {:induction false} OwnerIsRead(p: Plan, size: nat, members: nat, v: nat)
    requires ValidPlan(p) && OwnersRead(p, size, members) && v < |p.txns|
    ensures OwnerOf(p.txns, p.table, p.owners, v) < size && OwnerOf(p.txns, p.table, p.owners, v) < members
  {
    hide OwnerOf;
    assert v in Mine(p.table, p.owners, OwnerOf(p.txns, p.table, p.owners, v));
  }

  /** A round that has been right so far ends after the remaining keys; any other round is
      followed by one that is right from its beginning. */
  ghost function LeaderDistance(members: nat, s: State): nat {
    match s.leader
    case AtStart => 2 * members + 10
    case Poll(i, sum, _) =>
      if i <= members && sum == SumOfCounts(s.status, i) then members - i + 2
      else 2 * members + 5 - if i <= members then i else members
    case AtFinish => 1
    case Finished => 0
  }

  lemma {:induction false} LeaderStepIsNearer(p: Plan, members: nat, s: State)
    requires !s.leader.Finished?
    requires s.leader.Poll? ==> SumOfCounts(s.status, members) == |p.txns|
    ensures LeaderDistance(members, LeaderStep(p, members, s)) < LeaderDistance(members, s)
    ensures LeaderStep(p, members, s).status == s.status && LeaderStep(p, members, s).nodes == s.nodes
  {
    assert SumOfCounts(s.status, 0) == 0;
    if s.leader.Poll? && s.leader.i < members {
      assert SumOfCounts(s.status, s.leader.i + 1)
             == SumOfCounts(s.status, s.leader.i) + if s.leader.i in s.status then s.status[s.leader.i] else 0;
    }
  }

  /* ----- the whole run ----- */

  ghost function RunFrom(p: Plan, members: nat, s: State, more: seq<Event>): State
    requires AllSized(p, s)
    decreases |more|
  {
    if more == [] then s
    else
      StepKeepsSized(p, members, s, more[0]);
      RunFrom(p, members, Step(p, members, s, more[0]), more[1..])
  }

  lemma {:induction false} RunFromAfter(p: Plan, size: nat, members: nat, schedule: seq<Event>, more: seq<Event>)
    requires |p.owners| == |p.table|
    ensures After(p, size, members, schedule + more) == RunFrom(p, members, After(p, size, members, schedule), more)
    decreases |more|
  {
    hide Step, Begin;
    if more == [] {
      assert schedule + more == schedule;
    } else {
      var longer := schedule + [more[0]];
      assert longer[..|longer| - 1] == schedule;
      assert schedule + more == longer + more[1..];
      RunFromAfter(p, size, members, longer, more[1..]);
    }
  }

  ghost function PickedWork(p: Plan, size: nat, s: State): nat {
    var f := Pick(s.status, size);
    if f < |s.nodes| then WorkLeft(p, s.nodes[f]) else 0
  }

  ghost function PickedDistance(p: Plan, size: nat, s: State): nat {
    var f := Pick(s.status, size);
    if f < |s.nodes| then NodeDistance(p, s.nodes[f]) else 0
  }

  /** One event nearer to finish: a step of the leader to start, to end its last round or, when
      everybody has reported, to read on; otherwise a step of a node that has not. */
  lemma {:induction false} NextEvent(p: Plan, size: nat, members: nat, s: State) returns (e: Event)
    requires SystemInv(p, members, s) && Flags(s) && AllSerialOk(p.txns, map[]) && OwnersRead(p, size, members)
    requires |s.nodes| == size && s.run != Finish
    ensures var s' := Step(p, members, s, e);
            && |s'.nodes| == size
            && (Unreported(s'.status, size) < Unreported(s.status, size)
                || (s'.status == s.status && PickedWork(p, size, s') < PickedWork(p, size, s))
                || (s'.status == s.status && PickedWork(p, size, s') == PickedWork(p, size, s)
                    && PickedDistance(p, size, s') < PickedDistance(p, size, s))
                || (s'.status == s.status && s'.nodes == s.nodes && LeaderDistance(members, s') < LeaderDistance(members, s)))
  {
    hide SystemInv, AllSerialOk, OwnersRead, WorkLeft, NodeDistance, LocalStep, LeaderStep, LeaderDistance;
    SizedOfSystemInv(p, members, s);
    if s.leader.Poll? && Unreported(s.status, size) > 0 {
      var f := Pick(s.status, size);
      e := Worker(f, true);
      WorkerStepIsNearer(p, members, s, f);
      var s' := Step(p, members, s, e);
      if JustReported(s, s', f) {
        OneFewer(s.status, size, f, s'.status[f]);
      }
    } else {
      e := Leader;
      if s.leader.Poll? {
        AllReportedSum(p, size, members, s);
      }
      LeaderStepIsNearer(p, members, s);
    }
  }

  lemma {:induction false} SizedOfSystemInv(p: Plan, members: nat, s: State)
    requires SystemInv(p, members, s)
    ensures AllSized(p, s)
  {
  }

  lemma {:induction false} CanFinishFrom(p: Plan, size: nat, members: nat, s: State) returns (more: seq<Event>)
    requires SystemInv(p, members, s) && Flags(s) && AllSerialOk(p.txns, map[]) && OwnersRead(p, size, members)
    requires |s.nodes| == size && AllSized(p, s)
    ensures RunFrom(p, members, s, more).run == Finish
    decreases Unreported(s.status, size), PickedWork(p, size, s), PickedDistance(p, size, s), LeaderDistance(members, s)
  {
    hide SystemInv, Flags, AllSerialOk, OwnersRead, PickedWork, PickedDistance, LeaderDistance, Unreported, Step, AllSized;
    if s.run == Finish {
      more := [];
    } else {
      var e := NextEvent(p, size, members, s);
      var s' := Step(p, members, s, e);
      StepKeepsSystemInv(p, members, s, e);
      StepKeepsFlags(p, members, s, e);
      SizedOfSystemInv(p, members, s');
      SameNodesSamePick(p, size, s, s');
      var rest := CanFinishFrom(p, size, members, s');
      more := [e] + rest;
      assert more[1..] == rest;
    }
  }

  lemma {:induction false} SameNodesSamePick(p: Plan, size: nat, s: State, s': State)
    ensures s'.status == s.status && s'.nodes == s.nodes ==>
              PickedWork(p, size, s') == PickedWork(p, size, s) && PickedDistance(p, size, s') == PickedDistance(p, size, s)
  {
  }

  /** In every state the cluster can reach: the run can still be brought to finish if and only if
      every transaction of the block succeeds in block order. */
  lemma {:induction false} CanFinishIffBlockSucceeds(p: Plan, size: nat, members: nat, schedule: seq<Event>)
    requires ValidPlan(p) && |p.owners| == |p.table| && OwnersRead(p, size, members)
    ensures (exists more :: After(p, size, members, schedule + more).run == Finish) <==> AllSerialOk(p.txns, map[])
  {
    hide ValidPlan, OwnersRead, After, AllSerialOk, Flags, SystemInv;
    if more :| After(p, size, members, schedule + more).run == Finish {
      FinishMeansDone(p, size, members, schedule + more);
    }
    if AllSerialOk(p.txns, map[]) {
      ReachableSystemInv(p, size, members, schedule);
      ReachableFlags(p, size, members, schedule);
      var more := CanFinishFrom(p, size, members, After(p, size, members, schedule));
      RunFromAfter(p, size, members, schedule, more);
    }
  }
}
