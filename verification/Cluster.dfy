/** One leader and its followers on a shared key-value store, one worker thread per follower,
    interleaved at every load, store, put and get.

    The store is an atomic map: `status` and `data` are the keys the followers write, `run`
    the key the leader writes.  Any node may be scheduled at any time; a put of a status may
    fail, in which case the follower tries again. */
module Cluster {
  import opened Wrappers
  import opened SharedMap
  import opened Block
  import opened TaskCore
  import opened Graph
  import opened Assignment

  /** What the leader has fixed before it writes run = start. */
  datatype Plan = Plan(txns: Txns, table: Table, owners: Owners)

  datatype Run = Wait | Go | Finish

  /** The follower's executeTxns loop: about to load completeFlag, the flag, the counters;
      about to put the data, the count; about to select; holding t; returned. */
  datatype Pc = Idle | AtComplete | AtFlag | AtDone | PutData | PutStatus | Select | Hold(t: nat) | Exited

  datatype Node = Node(core: Core, last: int, flag: bool, completeFlag: bool, updateFlag: bool, compCount: nat, pc: Pc)

  /** The leader: about to write start, reading the i-th status key (`sum` so far, from the
      nodes in `seen`), about to write finish, done. */
  datatype LeaderPc = AtStart | Poll(i: nat, sum: int, seen: set<nat>) | AtFinish | Finished

  datatype State = State(nodes: seq<Node>, status: map<nat, nat>, data: map<nat, Store>, run: Run, leader: LeaderPc)

  datatype Event = Worker(f: nat, putOk: bool) | Monitor(m: nat) | Leader

  ghost function JobAt(p: Plan, f: nat): Job
    requires |p.owners| == |p.table|
  {
    JobOf(p.txns, p.table, p.owners, f, map[])
  }

  ghost predicate ValidPlan(p: Plan) {
    WellDeclared(p.txns) && Dealt(p.txns, p.table, p.owners)
  }

  /** extractBlock and ExtractComponents: arm exactly the node's own transactions. */
  ghost function Armed(p: Plan, f: nat): Node
    requires |p.owners| == |p.table|
  {
    var job := JobAt(p, f);
    Node(Core(seq(|p.txns|, j requires 0 <= j < |p.txns| => if j in job.mine then |Preds(p.txns, j)| else -1),
              map[], seq(|p.txns|, _ => Waiting), |p.txns| - |job.mine|),
         0, true, false, true, 0, AtComplete)
  }

  ghost function Asleep(p: Plan, f: nat): Node
    requires |p.owners| == |p.table|
  {
    Armed(p, f).(pc := Idle)
  }

  ghost function Begin(p: Plan, size: nat): State
    requires |p.owners| == |p.table|
  {
    State(seq(size, f requires 0 <= f < size => Asleep(p, f)), map[], map[], Wait, AtStart)
  }

  /* ----- steps ----- */

  /** The first index from lo on whose in-degree is 0. */
  ghost function FirstZero(d: seq<int>, lo: nat): Option<nat>
    decreases |d| - lo
  {
    if lo >= |d| then None else if d[lo] == 0 then Some(lo) else FirstZero(d, lo + 1)
  }

  /** selectTxn: scan from the transaction after the last one claimed, then from the front. */
  ghost function Selected(d: seq<int>, last: int): Option<nat> {
    var pos := last + 1;
    var ahead := if pos >= 0 then FirstZero(d, pos) else FirstZero(d, 0);
    if ahead.Some? then ahead else FirstZero(d, 0)
  }

  ghost predicate Sized(p: Plan, n: Node) {
    && |p.owners| == |p.table|
    && |n.core.phase| == |n.core.inDegree| == |p.txns|
    && (n.pc.Hold? ==> n.pc.t < |p.txns|)
  }

  /** A worker step that touches only the node's own memory. */
  ghost function LocalStep(p: Plan, f: nat, n: Node, run: Run): Node
    requires Sized(p, n)
  {
    match n.pc
    case Idle => if run == Go then Armed(p, f) else n
    case AtComplete => n.(pc := if n.completeFlag then Exited else AtFlag)
    case AtFlag => n.(pc := if n.flag then AtDone else Exited)
    case AtDone => n.(pc := if n.core.completed == |p.txns| && n.updateFlag then PutData else Select)
    case Select => (
      match Selected(n.core.inDegree, n.last)
      case Some(t) => if t < |p.txns| then n.(core := Claim(n.core, t), last := t, pc := Hold(t)) else n
      case None => n.(pc := AtComplete))
    case Hold(t) =>
      if InProgress(JobAt(p, f), n.core, t) then
        n.(core := Advance(JobAt(p, f), n.core, t),
           flag := if n.core.phase[t].Returned? then n.core.phase[t].ok else n.flag)
      else n.(compCount := n.compCount + 1, pc := AtComplete)
    case _ => n
  }

  ghost predicate AllSized(p: Plan, s: State) {
    |p.owners| == |p.table| && forall f :: 0 <= f < |s.nodes| ==> Sized(p, s.nodes[f])
  }

  ghost function WorkerStep(p: Plan, s: State, f: nat, putOk: bool): State
    requires AllSized(p, s) && f < |s.nodes|
  {
    var n := s.nodes[f];
    match n.pc
    case PutData => s.(data := s.data[f := n.core.store], nodes := s.nodes[f := n.(pc := PutStatus)])
    case PutStatus =>
      if putOk then s.(status := s.status[f := n.compCount], nodes := s.nodes[f := n.(updateFlag := false, pc := Select)])
      else s.(nodes := s.nodes[f := n.(pc := Select)])
    case _ => s.(nodes := s.nodes[f := LocalStep(p, f, n, s.run)])
  }

  /** `members` is the number of status keys the leader reads in one round. */
  ghost function LeaderStep(p: Plan, members: nat, s: State): State {
    match s.leader
    case AtStart => s.(run := Go, leader := Poll(0, 0, {}))
    case Poll(i, sum, seen) =>
      if i < members then
        if i in s.status then s.(leader := Poll(i + 1, sum + s.status[i], seen + {i}))
        else s.(leader := Poll(i + 1, sum, seen))
      else if sum == |p.txns| then s.(leader := AtFinish)
      else s.(leader := Poll(0, 0, {}))
    case AtFinish => s.(run := Finish, leader := Finished)
    case Finished => s
  }

  ghost function Step(p: Plan, members: nat, s: State, e: Event): State
    requires AllSized(p, s)
  {
    match e
    case Worker(f, putOk) => if f < |s.nodes| then WorkerStep(p, s, f, putOk) else s
    case Monitor(f) =>
      if f < |s.nodes| && s.run == Finish && !s.nodes[f].pc.Idle? then s.(nodes := s.nodes[f := s.nodes[f].(completeFlag := true)]) else s
    case Leader => LeaderStep(p, members, s)
  }

  lemma {:induction false} LocalStepKeepsSized(p: Plan, f: nat, n: Node, run: Run)
    requires Sized(p, n)
    ensures Sized(p, LocalStep(p, f, n, run))
  {
    hide Preds, Mine, FirstZero;
    if n.pc.Hold? && InProgress(JobAt(p, f), n.core, n.pc.t) {
      AdvanceMovesOnlyOne(JobAt(p, f), n.core, n.pc.t);
    }
  }

  lemma {:induction false} StepKeepsSized(p: Plan, members: nat, s: State, e: Event)
    requires AllSized(p, s)
    ensures AllSized(p, Step(p, members, s, e)) && |Step(p, members, s, e).nodes| == |s.nodes|
  {
    hide LocalStep;
    if e.Worker? && e.f < |s.nodes| {
      LocalStepKeepsSized(p, e.f, s.nodes[e.f], s.run);
    }
  }

  lemma {:induction false} AdvanceMovesOnlyOne(job: Job, c: Core, t: nat)
    requires |c.phase| == |c.inDegree| == |job.txns| && InProgress(job, c, t)
    ensures var c' := Advance(job, c, t);
            && |c'.phase| == |c.phase| == |c'.inDegree|
            && c'.phase == c.phase[t := c'.phase[t]] && !c'.phase[t].Waiting?
            && (Judged(c', t) <==> Judged(c, t) || c.phase[t].Returned?)
            && (Judged(c', t) ==> c'.phase[t].ok == c.phase[t].ok)
            && (Counted(c') == if c.phase[t].Counting? then Counted(c) + {t} else Counted(c))
  {
  }

  lemma {:induction false} FirstZeroFacts(d: seq<int>, lo: nat)
    ensures FirstZero(d, lo).Some? ==> lo <= FirstZero(d, lo).value < |d| && d[FirstZero(d, lo).value] == 0
                                       && forall i :: lo <= i < FirstZero(d, lo).value ==> d[i] != 0
    ensures FirstZero(d, lo).None? ==> forall i :: lo <= i < |d| ==> d[i] != 0
    decreases |d| - lo
  {
    if lo < |d| && d[lo] != 0 {
      FirstZeroFacts(d, lo + 1);
    }
  }

  /** The selection is the first zero after the last claim; or, when there is none there, the first
      of all; or none, exactly when nothing is zero. */
  lemma {:induction false} SelectedIsFirst(d: seq<int>, last: int)
    ensures var r := Selected(d, last);
            && (r.None? <==> forall i :: 0 <= i < |d| ==> d[i] != 0)
            && (r.Some? ==>
                  && r.value < |d| && d[r.value] == 0
                  && (r.value > last ==> forall i :: 0 <= i && last < i < r.value ==> d[i] != 0)
                  && (r.value <= last ==> (forall i :: 0 <= i < r.value || last < i < |d| ==> d[i] != 0)))
  {
    FirstZeroFacts(d, 0);
    if last + 1 >= 0 {
      FirstZeroFacts(d, last + 1);
    }
  }

  lemma {:induction false} SelectedIsIndex(n: Node)
    ensures var r := Selected(n.core.inDegree, n.last);
            && (r.Some? ==> r.value < |n.core.inDegree| && n.core.inDegree[r.value] == 0)
            && (r.None? ==> forall i :: 0 <= i < |n.core.inDegree| ==> n.core.inDegree[i] != 0)
  {
    FirstZeroFacts(n.core.inDegree, 0);
    if n.last + 1 >= 0 {
      FirstZeroFacts(n.core.inDegree, n.last + 1);
    }
  }

  /** The state a schedule of events leads to. */
  ghost function After(p: Plan, size: nat, members: nat, schedule: seq<Event>): (s: State)
    requires |p.owners| == |p.table|
    ensures AllSized(p, s) && |s.nodes| == size
  {
    if schedule == [] then Begin(p, size)
    else
      var s := After(p, size, members, schedule[..|schedule| - 1]);
      StepKeepsSized(p, members, s, schedule[|schedule| - 1]);
      Step(p, members, s, schedule[|schedule| - 1])
  }

  /* ----- one follower ----- */

  ghost predicate Judged(c: Core, t: nat) {
    t < |c.phase| && (c.phase[t].Retiring? || c.phase[t].Counting? || c.phase[t].Releasing?)
  }

  /** Transactions finished before the one being held. */
  ghost function CountedBefore(n: Node): set<nat> {
    if n.pc.Hold? then Counted(n.core) - {n.pc.t} else Counted(n.core)
  }

  ghost predicate NodeInv(p: Plan, f: nat, n: Node)
    requires Sized(p, n)
  {
    && Inv(JobAt(p, f), n.core)
    && (forall t: nat :: InProgress(JobAt(p, f), n.core, t) ==> n.pc == Hold(t))
    && (n.pc.Hold? ==> !n.core.phase[n.pc.t].Waiting?)
    && (n.flag <==> forall t: nat :: Judged(n.core, t) ==> n.core.phase[t].ok)
    && (n.pc.AtDone? || n.pc.PutData? || n.pc.PutStatus? || n.pc.Select? ==> n.flag)
    && (n.pc.Hold? && !Judged(n.core, n.pc.t) ==> n.flag)
    && n.compCount == |CountedBefore(n)|
    && (n.pc.PutData? || n.pc.PutStatus? ==> n.core.completed == |p.txns|)
    && (n.pc.Idle? ==> n == Asleep(p, f))
  }

  lemma {:induction false} ArmedInv(p: Plan, f: nat)
    requires ValidPlan(p)
    ensures NodeInv(p, f, Armed(p, f)) && NodeInv(p, f, Asleep(p, f))
  {
    var job := JobAt(p, f);
    hide Inv, ValidPlan;
    ArmedCoreInv(p, f);
    var n := Armed(p, f);
    assert Counted(n.core) == {};
    assert forall t: nat :: !InProgress(job, n.core, t) && !Judged(n.core, t);
  }

  lemma {:induction false} ArmedCoreInv(p: Plan, f: nat)
    requires ValidPlan(p)
    ensures Inv(JobAt(p, f), Armed(p, f).core)
  {
    ShareIsValidJob(p.txns, p.table, p.owners, f, map[]);
    InitInv(JobAt(p, f), Armed(p, f).core);
  }

  lemma {:induction false} ClaimKeepsNodeInv(p: Plan, f: nat, n: Node, t: nat)
    requires ValidPlan(p) && Sized(p, n) && NodeInv(p, f, n) && n.pc.Select?
    requires t < |p.txns| && n.core.inDegree[t] == 0
    ensures var n' := n.(core := Claim(n.core, t), last := t, pc := Hold(t));
            Sized(p, n') && NodeInv(p, f, n')
  {
    hide Inv, ValidPlan;
    var job := JobAt(p, f);
    var n' := n.(core := Claim(n.core, t), last := t, pc := Hold(t));
    ClaimOnNode(p, f, n, t);
    forall u: nat ensures Judged(n'.core, u) == Judged(n.core, u) && (u != t ==> InProgress(job, n'.core, u) == InProgress(job, n.core, u)) {
    }
    assert CountedBefore(n') == CountedBefore(n);
  }

  lemma {:induction false} ClaimOnNode(p: Plan, f: nat, n: Node, t: nat)
    requires ValidPlan(p) && Sized(p, n) && Inv(JobAt(p, f), n.core) && t < |p.txns| && n.core.inDegree[t] == 0
    ensures Inv(JobAt(p, f), Claim(n.core, t)) && n.core.phase[t].Waiting?
  {
    ShareIsValidJob(p.txns, p.table, p.owners, f, map[]);
    ZeroMeansReleased(JobAt(p, f), n.core, t);
    StepKeepsInv(JobAt(p, f), n.core, Claim(n.core, t), t);
  }

  lemma {:induction false} AdvanceOnNode(p: Plan, f: nat, n: Node, t: nat)
    requires ValidPlan(p) && Sized(p, n) && Inv(JobAt(p, f), n.core) && InProgress(JobAt(p, f), n.core, t)
    ensures Inv(JobAt(p, f), Advance(JobAt(p, f), n.core, t))
  {
    ShareIsValidJob(p.txns, p.table, p.owners, f, map[]);
    StepKeepsInv(JobAt(p, f), n.core, Advance(JobAt(p, f), n.core, t), t);
  }

  /** The verdict of the held transaction becomes the flag. */
  ghost function FlagOf(n: Node, t: nat): bool
    requires t < |n.core.phase|
  {
    if n.core.phase[t].Returned? then n.core.phase[t].ok else n.flag
  }

  lemma {:induction false} AdvanceKeepsFlag(job: Job, n: Node, t: nat)
    requires |n.core.phase| == |n.core.inDegree| == |job.txns| && t < |n.core.phase| && InProgress(job, n.core, t)
    requires !Judged(n.core, t) ==> n.flag
    requires n.flag <==> forall u: nat :: Judged(n.core, u) ==> n.core.phase[u].ok
    ensures var c := Advance(job, n.core, t);
            && (FlagOf(n, t) <==> forall u: nat :: Judged(c, u) ==> c.phase[u].ok)
            && (!Judged(c, t) ==> FlagOf(n, t))
  {
    hide Advance, Counted, InProgress, Edge;
    var c := Advance(job, n.core, t);
    AdvanceMovesOnlyOne(job, n.core, t);
    forall u: nat | u != t ensures Judged(c, u) == Judged(n.core, u) && (Judged(c, u) ==> c.phase[u].ok == n.core.phase[u].ok) {
    }
    if FlagOf(n, t) {
      forall u: nat | Judged(c, u) ensures c.phase[u].ok {
      }
    } else if n.core.phase[t].Returned? {
      assert Judged(c, t) && !c.phase[t].ok;
    } else {
      var u: nat :| Judged(n.core, u) && !n.core.phase[u].ok;
      assert Judged(c, u);
    }
  }

  lemma {:induction false} OthersKeepProgress(job: Job, c: Core, c': Core, t: nat)
    requires |c'.phase| == |c.phase| && t < |c.phase| && c'.phase == c.phase[t := c'.phase[t]]
    requires forall u: nat :: InProgress(job, c, u) ==> u == t
    ensures forall u: nat :: InProgress(job, c', u) ==> u == t
  {
    forall u: nat | InProgress(job, c', u) ensures u == t {
      if u != t {
        assert InProgress(job, c, u);
      }
    }
  }

  lemma {:induction false} AdvanceKeepsNodeInv(p: Plan, f: nat, n: Node, t: nat)
    requires ValidPlan(p) && Sized(p, n) && NodeInv(p, f, n) && n.pc == Hold(t) && InProgress(JobAt(p, f), n.core, t)
    ensures var n' := n.(core := Advance(JobAt(p, f), n.core, t), flag := FlagOf(n, t));
            Sized(p, n') && NodeInv(p, f, n')
  {
    hide Inv, ValidPlan, Advance, Judged, FlagOf, Counted, Mine, InProgress;
    var job := JobAt(p, f);
    var c := Advance(job, n.core, t);
    var n' := n.(core := c, flag := FlagOf(n, t));
    AdvanceOnNode(p, f, n, t);
    AdvanceMovesOnlyOne(job, n.core, t);
    AdvanceKeepsFlag(job, n, t);
    OthersKeepProgress(job, n.core, c, t);
    assert CountedBefore(n') == CountedBefore(n);
  }

  lemma {:induction false} FinishKeepsNodeInv(p: Plan, f: nat, n: Node, t: nat)
    requires Sized(p, n) && NodeInv(p, f, n) && n.pc == Hold(t) && !InProgress(JobAt(p, f), n.core, t)
    ensures NodeInv(p, f, n.(compCount := n.compCount + 1, pc := AtComplete))
  {
    hide Inv;
    var n' := n.(compCount := n.compCount + 1, pc := AtComplete);
    assert t in Counted(n.core);
    assert CountedBefore(n') == CountedBefore(n) + {t};
  }

  lemma {:induction false} LocalStepKeepsNodeInv(p: Plan, f: nat, n: Node, run: Run)
    requires ValidPlan(p) && Sized(p, n) && NodeInv(p, f, n) && !n.pc.PutData? && !n.pc.PutStatus?
    ensures Sized(p, LocalStep(p, f, n, run)) && NodeInv(p, f, LocalStep(p, f, n, run))
  {
    hide NodeInv, Advance, Armed, Claim;
    FlagIsUp(p, f, n);
    if n.pc.Idle? {
      ArmedInv(p, f);
      SleepingIsAsleep(p, f, n);
    } else if n.pc.Select? {
      SelectedIsIndex(n);
      if Selected(n.core.inDegree, n.last).Some? {
        ClaimKeepsNodeInv(p, f, n, Selected(n.core.inDegree, n.last).value);
      } else {
        MovingKeepsNodeInv(p, f, n, AtComplete);
      }
    } else if n.pc.Hold? {
      if InProgress(JobAt(p, f), n.core, n.pc.t) {
        AdvanceKeepsNodeInv(p, f, n, n.pc.t);
      } else {
        FinishKeepsNodeInv(p, f, n, n.pc.t);
      }
    } else {
      MovingKeepsNodeInv(p, f, n, LocalStep(p, f, n, run).pc);
    }
  }

  lemma {:induction false} FlagIsUp(p: Plan, f: nat, n: Node)
    requires Sized(p, n) && NodeInv(p, f, n)
    ensures n.pc.AtDone? || n.pc.PutData? || n.pc.PutStatus? || n.pc.Select? ==> n.flag
  {
  }

  lemma {:induction false} SleepingIsAsleep(p: Plan, f: nat, n: Node)
    requires Sized(p, n) && NodeInv(p, f, n) && n.pc.Idle?
    ensures n == Asleep(p, f) && Sized(p, Armed(p, f))
  {
  }

  lemma {:induction false} MovingKeepsNodeInv(p: Plan, f: nat, n: Node, pc: Pc)
    requires Sized(p, n) && NodeInv(p, f, n) && !n.pc.Hold? && !n.pc.Idle? && !pc.Hold? && !pc.Idle?
    requires pc.AtDone? || pc.PutData? || pc.PutStatus? || pc.Select? ==> n.flag
    requires pc.PutData? || pc.PutStatus? ==> n.core.completed == |p.txns|
    ensures NodeInv(p, f, n.(pc := pc)) && Sized(p, n.(pc := pc))
  {
    hide Inv;
    assert CountedBefore(n.(pc := pc)) == CountedBefore(n);
  }
}
