/** Fair runs of the cluster finish: when the block succeeds and puts no longer fail, a bounded number
    of rounds, in each of which the leader and every node take at least one step, leads to finish. */
module FairCluster {
  import opened Arithmetic
  import opened Block
  import opened TaskCore
  import opened Cluster
  import opened ClusterTheorems
  import opened ClusterProgress
  import ParallelTheorems
  import SharedMap

  type Round = seq<Event>

  /** The leader and every node take a step, and no put fails. */
  ghost predicate FairRound(round: Round, size: nat) {
    && Leader in round
    && (forall f: nat :: f < size ==> Worker(f, true) in round)
    && AllPutsSucceed(round)
  }

  ghost predicate AllPutsSucceed(round: Round) {
    forall i :: 0 <= i < |round| && round[i].Worker? ==> round[i].putOk
  }

  function Flat(rounds: seq<Round>): seq<Event> {
    if rounds == [] then [] else rounds[0] + Flat(rounds[1..])
  }

  /** What every state of a run under consideration satisfies. */
  ghost predicate Good(p: Plan, size: nat, members: nat, s: State) {
    && SystemInv(p, members, s) && AllSized(p, s) && Flags(s) && |s.nodes| == size
    && AllSerialOk(p.txns, map[]) && OwnersRead(p, size, members)
  }

  lemma {:induction false} GoodIsSized(p: Plan, size: nat, members: nat, s: State)
    requires Good(p, size, members, s)
    ensures AllSized(p, s) && |s.nodes| == size
  {
  }

  lemma {:induction false} StepKeepsGood(p: Plan, size: nat, members: nat, s: State, e: Event)
    requires Good(p, size, members, s)
    ensures AllSized(p, s) && Good(p, size, members, Step(p, members, s, e))
  {
    hide SystemInv, Flags, AllSerialOk, OwnersRead, Step;
    StepKeepsSystemInv(p, members, s, e);
    StepKeepsFlags(p, members, s, e);
    StepKeepsSized(p, members, s, e);
  }

  /* ----- the measure ----- */

  /** How much a node that has not reported still has to do. */
  ghost function NodeOpen(p: Plan, s: State, f: nat): nat {
    if f in s.status || f >= |s.nodes| then 0 else 20 * WorkLeft(p, s.nodes[f]) + NodeDistance(p, s.nodes[f]) + 1
  }

  ghost function SumOpen(p: Plan, s: State, size: nat): nat {
    if size == 0 then 0 else SumOpen(p, s, size - 1) + NodeOpen(p, s, size - 1)
  }

  lemma {:induction false} SumOpenFollows(p: Plan, s: State, s': State, size: nat)
    requires forall f: nat :: f < size ==> NodeOpen(p, s', f) <= NodeOpen(p, s, f)
    ensures SumOpen(p, s', size) <= SumOpen(p, s, size)
    ensures forall f: nat :: f < size && NodeOpen(p, s', f) < NodeOpen(p, s, f) ==> SumOpen(p, s', size) < SumOpen(p, s, size)
  {
    hide NodeOpen;
    if size > 0 {
      SumOpenFollows(p, s, s', size - 1);
    }
  }

  lemma {:induction false} NothingOpenMeansReported(p: Plan, s: State, size: nat)
    requires |s.nodes| == size
    ensures SumOpen(p, s, size) == 0 <==> forall f: nat :: f < size ==> f in s.status
  {
    NothingOpenBelow(p, s, size);
  }

  lemma {:induction false} NothingOpenBelow(p: Plan, s: State, m: nat)
    requires m <= |s.nodes|
    ensures SumOpen(p, s, m) == 0 <==> forall f: nat :: f < m ==> f in s.status
  {
    hide WorkLeft, NodeDistance;
    if m > 0 {
      NothingOpenBelow(p, s, m - 1);
    }
  }

  /* ----- one event ----- */

  lemma {:induction false} LocalStepWaits(p: Plan, f: nat, n: Node, run: Run)
    requires Sized(p, n)
    ensures LocalStep(p, f, n, run) == if n.pc.Idle? && run != Go then n else LocalStep(p, f, n, Go)
  {
    hide Advance, Claim, Selected, InProgress, Armed;
  }

  lemma {:induction false} NearerIsLess(p: Plan, n: Node, n': Node)
    requires Nearer(p, n, n')
    ensures 20 * WorkLeft(p, n') + NodeDistance(p, n') < 20 * WorkLeft(p, n) + NodeDistance(p, n)
  {
    hide WorkLeft;
  }

  lemma {:induction false} OtherFlags(n: Node, run: Run)
    requires NodeFlags(n, run, false) && run != Finish
    ensures NodeFlags(n, Go, false)
  {
  }

  /** A step of a node that has not reported. */
  lemma {:induction false} OwnEvent(p: Plan, size: nat, members: nat, s: State, f: nat)
    requires Good(p, size, members, s) && s.run != Finish && f < size && f !in s.status
    ensures AllSized(p, s)
    ensures var s' := Step(p, members, s, Worker(f, true));
            && NodeOpen(p, s', f) <= NodeOpen(p, s, f)
            && (s.run == Go ==> NodeOpen(p, s', f) < NodeOpen(p, s, f))
  {
    hide SystemInv, NodeInv, LocalStep, Sized, ValidPlan, Nearer, AllSerialOk, WorkLeft, NodeDistance, OwnersRead, NodeFlags;
    NodeOfSystemInv(p, members, s, f);
    var n := s.nodes[f];
    FlagStaysUp(p, f, n);
    assert NodeFlags(n, s.run, false);
    OtherFlags(n, s.run);
    if n.pc.PutStatus? {
    } else if n.pc.PutData? {
      PuttingIsNearer(p, n);
      NearerIsLess(p, n, n.(pc := PutStatus));
    } else {
      LocalStepWaits(p, f, n, s.run);
      LocalStepIsNearer(p, f, n);
      NearerIsLess(p, n, LocalStep(p, f, n, Go));
    }
  }

  lemma {:induction false} NodeOfSystemInv(p: Plan, members: nat, s: State, f: nat)
    requires SystemInv(p, members, s) && f < |s.nodes|
    ensures ValidPlan(p) && AllSized(p, s) && Sized(p, s.nodes[f]) && NodeInv(p, f, s.nodes[f])
  {
  }

  /** Everybody else leaves node f as it is, apart from its completeFlag once the run is finished. */
  lemma {:induction false} OtherEvent(p: Plan, members: nat, s: State, e: Event, f: nat)
    requires AllSized(p, s) && f < |s.nodes| && s.run != Finish && !(e.Worker? && e.f == f)
    ensures |Step(p, members, s, e).nodes| == |s.nodes|
    ensures Step(p, members, s, e).nodes[f] == s.nodes[f] && (f in Step(p, members, s, e).status <==> f in s.status)
  {
    hide LocalStep, Sized;
    StepKeepsSized(p, members, s, e);
  }

  lemma {:induction false} ReportStays(p: Plan, members: nat, s: State, e: Event, f: nat)
    requires AllSized(p, s) && f in s.status
    ensures f in Step(p, members, s, e).status
  {
    hide LocalStep, Sized;
  }

  /** No event makes more to do, and a step of a node that has not reported makes less. */
  lemma {:induction false} EventKeepsOpen(p: Plan, size: nat, members: nat, s: State, e: Event)
    requires Good(p, size, members, s) && s.run != Finish && (e.Worker? ==> e.putOk)
    ensures AllSized(p, s)
    ensures var s' := Step(p, members, s, e);
            && SumOpen(p, s', size) <= SumOpen(p, s, size)
            && (e.Worker? && e.f < size && e.f !in s.status && s.run == Go ==> SumOpen(p, s', size) < SumOpen(p, s, size))
            && (forall f: nat :: f < size && f !in s.status && f in s'.status ==> SumOpen(p, s', size) < SumOpen(p, s, size))
  {
    hide SystemInv, Flags, AllSerialOk, OwnersRead, Step, SumOpen, WorkLeft, NodeDistance;
    GoodIsSized(p, size, members, s);
    var s' := Step(p, members, s, e);
    StepKeepsSized(p, members, s, e);
    forall f: nat | f < size
      ensures NodeOpen(p, s', f) <= NodeOpen(p, s, f)
      ensures e == Worker(f, true) && f !in s.status && s.run == Go ==> NodeOpen(p, s', f) < NodeOpen(p, s, f)
      ensures f !in s.status && f in s'.status ==> NodeOpen(p, s', f) < NodeOpen(p, s, f)
    {
      if f in s.status {
        ReportStays(p, members, s, e, f);
      } else if e.Worker? && e.f == f {
        OwnEvent(p, size, members, s, f);
      } else {
        OtherEvent(p, members, s, e, f);
      }
    }
    SumOpenFollows(p, s, s', size);
  }

  lemma {:induction false} FinishStays(p: Plan, members: nat, s: State, e: Event)
    requires AllSized(p, s) && Flags(s) && s.run == Finish
    ensures Step(p, members, s, e).run == Finish
  {
    hide LocalStep, Sized, NodeFlags;
  }

  /** When everybody has reported, only the leader changes what counts. */
  lemma {:induction false} ReportedEvent(p: Plan, size: nat, members: nat, s: State, e: Event)
    requires Good(p, size, members, s) && s.run != Finish && SumOpen(p, s, size) == 0 && (e.Worker? ==> e.putOk)
    ensures AllSized(p, s) && SumOpen(p, Step(p, members, s, e), size) == 0
    ensures LeaderDistance(members, Step(p, members, s, e)) <= LeaderDistance(members, s)
    ensures e.Leader? ==> LeaderDistance(members, Step(p, members, s, e)) < LeaderDistance(members, s)
  {
    hide SystemInv, AllSerialOk, OwnersRead, Step, SumOpen, LeaderDistance, WorkLeft, NodeDistance, NodeFlags, Sized;
    GoodIsSized(p, size, members, s);
    EventKeepsOpen(p, size, members, s, e);
    NothingOpenMeansReported(p, s, size);
    if e.Leader? {
      NobodyUnreported(s.status, size);
      AllReportedSum(p, size, members, s);
      LeaderStepIsNearer(p, members, s);
      LeaderEvent(p, members, s);
    } else {
      StepKeepsGood(p, size, members, s, e);
      SameCounts(p, size, members, s, Step(p, members, s, e));
      NodeEventKeepsLeader(p, members, s, e);
    }
  }

  lemma {:induction false} LeaderEvent(p: Plan, members: nat, s: State)
    requires AllSized(p, s)
    ensures Step(p, members, s, Leader) == LeaderStep(p, members, s)
  {
  }

  lemma {:induction false} NobodyUnreported(status: map<nat, nat>, size: nat)
    requires forall f: nat :: f < size ==> f in status
    ensures Unreported(status, size) == 0
  {
    if size > 0 {
      NobodyUnreported(status, size - 1);
    }
  }

  lemma {:induction false} NodeEventKeepsLeader(p: Plan, members: nat, s: State, e: Event)
    requires AllSized(p, s) && !e.Leader?
    ensures Step(p, members, s, e).leader == s.leader
    ensures Step(p, members, s, e).status == s.status ==> LeaderDistance(members, Step(p, members, s, e)) == LeaderDistance(members, s)
  {
    hide LocalStep, Sized;
  }

  /** Reported counts are fixed: the size of the share. */
  lemma {:induction false} SameCounts(p: Plan, size: nat, members: nat, s: State, s': State)
    requires SystemInv(p, members, s) && SystemInv(p, members, s') && |s.nodes| == |s'.nodes| == size
    requires forall f: nat :: f < size ==> f in s.status
    requires SumOpen(p, s', size) == 0
    ensures s'.status == s.status
  {
    hide NodeInv, ShareDone, DataInv, LeaderInv, SumOpen, ValidPlan;
    NothingOpenMeansReported(p, s', size);
    StatusesAreShares(p, members, s);
    StatusesAreShares(p, members, s');
    assert s.status.Keys == s'.status.Keys;
  }

  /* ----- one round ----- */

  lemma {:induction false} RoundKeepsGood(p: Plan, size: nat, members: nat, s: State, round: Round)
    requires Good(p, size, members, s) && AllSized(p, s) && AllPutsSucceed(round)
    ensures var s' := RunFrom(p, members, s, round);
            && Good(p, size, members, s')
            && (s.run == Finish ==> s'.run == Finish)
            && (s'.run == Finish || SumOpen(p, s', size) <= SumOpen(p, s, size))
    decreases |round|
  {
    hide Good, Step, SumOpen, AllSized;
    if round != [] {
      var s1 := Step(p, members, s, round[0]);
      StepKeepsGood(p, size, members, s, round[0]);
      GoodIsSized(p, size, members, s1);
      RestSucceeds(round);
      RoundKeepsGood(p, size, members, s1, round[1..]);
      if s.run == Finish {
        FlagsOfGood(p, size, members, s);
        FinishStays(p, members, s, round[0]);
      } else {
        EventKeepsOpen(p, size, members, s, round[0]);
      }
    }
  }

  lemma {:induction false} FlagsOfGood(p: Plan, size: nat, members: nat, s: State)
    requires Good(p, size, members, s)
    ensures Flags(s) && AllSized(p, s)
  {
  }

  lemma {:induction false} RestSucceeds(round: Round)
    requires AllPutsSucceed(round) && round != []
    ensures AllPutsSucceed(round[1..]) && (round[0].Worker? ==> round[0].putOk)
  {
    forall i | 0 <= i < |round[1..]| && round[1..][i].Worker? ensures round[1..][i].putOk {
      assert round[1..][i] == round[i + 1];
    }
  }

  /** Once started, a round in which a node that has not reported takes a step leaves less to do. */
  lemma {:induction false} OpenRound(p: Plan, size: nat, members: nat, s: State, round: Round, f: nat)
    requires Good(p, size, members, s) && AllSized(p, s) && AllPutsSucceed(round) && s.run == Go
    requires f < size && f !in s.status && Worker(f, true) in round
    ensures var s' := RunFrom(p, members, s, round); s'.run == Finish || SumOpen(p, s', size) < SumOpen(p, s, size)
    decreases |round|
  {
    hide Good, Step, SumOpen, AllSized;
    var e, rest := round[0], round[1..];
    var s1 := Step(p, members, s, e);
    StepKeepsGood(p, size, members, s, e);
    GoodIsSized(p, size, members, s1);
    RestSucceeds(round);
    EventKeepsOpen(p, size, members, s, e);
    RoundKeepsGood(p, size, members, s1, rest);
    NeverBackToWait(p, members, s, e);
    if e != Worker(f, true) && f !in s1.status && s1.run != Finish {
      assert Worker(f, true) in rest;
      OpenRound(p, size, members, s1, rest, f);
    }
  }

  lemma {:induction false} NeverBackToWait(p: Plan, members: nat, s: State, e: Event)
    requires AllSized(p, s) && s.run != Wait
    ensures Step(p, members, s, e).run != Wait
  {
    hide LocalStep, Sized;
  }

  /** When everybody has reported, a round in which the leader takes a step brings it nearer. */
  lemma {:induction false} ReportedRound(p: Plan, size: nat, members: nat, s: State, round: Round)
    requires Good(p, size, members, s) && AllSized(p, s) && AllPutsSucceed(round) && SumOpen(p, s, size) == 0 && s.run != Finish
    ensures var s' := RunFrom(p, members, s, round);
            s'.run == Finish
            || (LeaderDistance(members, s') <= LeaderDistance(members, s)
                && (Leader in round ==> LeaderDistance(members, s') < LeaderDistance(members, s)))
    decreases |round|
  {
    hide Good, Step, SumOpen, AllSized, LeaderDistance;
    if round != [] {
      var s1 := Step(p, members, s, round[0]);
      StepKeepsGood(p, size, members, s, round[0]);
      GoodIsSized(p, size, members, s1);
      RestSucceeds(round);
      ReportedEvent(p, size, members, s, round[0]);
      RoundKeepsGood(p, size, members, s1, round[1..]);
      if s1.run != Finish {
        ReportedRound(p, size, members, s1, round[1..]);
      }
    }
  }

  /** A round in which the leader takes a step starts the run. */
  lemma {:induction false} StartingRound(p: Plan, size: nat, members: nat, s: State, round: Round)
    requires AllSized(p, s)
    ensures Leader in round || !s.leader.AtStart? ==> !RunFrom(p, members, s, round).leader.AtStart?
    decreases |round|
  {
    hide Sized, LocalStep;
    if round != [] {
      StepKeepsSized(p, members, s, round[0]);
      StartingRound(p, size, members, Step(p, members, s, round[0]), round[1..]);
    }
  }

  /** More than any distance of the leader. */
  function Far(members: nat): nat {
    2 * members + 11
  }

  lemma {:induction false} LeaderIsNotFar(members: nat, s: State)
    ensures LeaderDistance(members, s) < Far(members)
    ensures !s.leader.AtStart? ==> LeaderDistance(members, s) < 2 * members + 10
    ensures s.leader.AtStart? ==> LeaderDistance(members, s) == 2 * members + 10
  {
    hide SumOfCounts;
  }

  ghost function Measure(p: Plan, size: nat, members: nat, s: State): nat {
    MulIsNat(SumOpen(p, s, size), Far(members));
    SumOpen(p, s, size) * Far(members) + LeaderDistance(members, s)
  }

  lemma {:induction false} MulIsNat(a: nat, b: nat)
    ensures a * b >= 0
  {
  }

  lemma {:induction false} LessOpenWins(a: nat, a': nat, k: nat, d: nat, d': nat)
    requires a' < a && d' < k
    ensures a' * k + d' < a * k + d
  {
    MulGrows(k, a', a);
    assert a' * k == k * a' && a * k == k * a;
  }

  lemma {:induction false} FairRoundUsesMeasure(p: Plan, size: nat, members: nat, s: State, round: Round)
    requires Good(p, size, members, s) && AllSized(p, s) && FairRound(round, size)
    ensures var s' := RunFrom(p, members, s, round);
            s'.run == Finish || (s.run != Finish && Measure(p, size, members, s') < Measure(p, size, members, s))
  {
    hide Good, SumOpen, LeaderDistance, AllSized, RunFrom, AllPutsSucceed, Far;
    var s' := RunFrom(p, members, s, round);
    RoundKeepsGood(p, size, members, s, round);
    FlagsOfGood(p, size, members, s);
    GoodIsSized(p, size, members, s);
    LeaderIsNotFar(members, s);
    LeaderIsNotFar(members, s');
    StartingRound(p, size, members, s, round);
    NothingOpenMeansReported(p, s, size);
    if s'.run != Finish {
      if SumOpen(p, s', size) < SumOpen(p, s, size) {
        LessOpenWins(SumOpen(p, s, size), SumOpen(p, s', size), Far(members), LeaderDistance(members, s), LeaderDistance(members, s'));
      } else if s.run == Go {
        if f: nat :| f < size && f !in s.status {
          OpenRound(p, size, members, s, round, f);
        } else {
          ReportedRound(p, size, members, s, round);
        }
      } else {
        StillAtStart(s);
      }
    }
  }

  lemma {:induction false} StillAtStart(s: State)
    requires Flags(s)
    ensures s.run == Wait <==> s.leader.AtStart?
  {
  }

  /* ----- all rounds ----- */

  lemma {:induction false} RunFromConcat(p: Plan, members: nat, s: State, a: seq<Event>, b: seq<Event>)
    requires AllSized(p, s)
    ensures AllSized(p, RunFrom(p, members, s, a))
    ensures RunFrom(p, members, s, a + b) == RunFrom(p, members, RunFrom(p, members, s, a), b)
    decreases |a|
  {
    hide Step, AllSized;
    if a == [] {
      assert a + b == b;
    } else {
      StepKeepsSized(p, members, s, a[0]);
      assert (a + b)[1..] == a[1..] + b;
      RunFromConcat(p, members, Step(p, members, s, a[0]), a[1..], b);
    }
  }

  lemma {:induction false} FairRoundsUseMeasure(p: Plan, size: nat, members: nat, s: State, rounds: seq<Round>)
    requires Good(p, size, members, s) && AllSized(p, s)
    requires forall i :: 0 <= i < |rounds| ==> FairRound(rounds[i], size)
    ensures s.run == Finish || RunFrom(p, members, s, Flat(rounds)).run == Finish || |rounds| <= Measure(p, size, members, s)
    ensures s.run == Finish ==> RunFrom(p, members, s, Flat(rounds)).run == Finish
    decreases |rounds|
  {
    hide Good, Measure, AllSized, AllPutsSucceed, SumOpen;
    if rounds != [] {
      var round, rest := rounds[0], rounds[1..];
      assert FairRound(round, size);
      RunFromConcat(p, members, s, round, Flat(rest));
      RoundKeepsGood(p, size, members, s, round);
      FairRoundUsesMeasure(p, size, members, s, round);
      forall i | 0 <= i < |rest| ensures FairRound(rest[i], size) {
        assert rest[i] == rounds[i + 1];
      }
      FairRoundsUseMeasure(p, size, members, RunFrom(p, members, s, round), rest);
    }
  }

  /** As much as one node can have to do. */
  function MostOpen(n: nat): nat {
    20 * (n * (SharedMap.MAX_ACCESSES + n + 6)) + 14
  }

  lemma {:induction false} WorkIsBounded(n: nat, phase: seq<Phase>)
    ensures ParallelTheorems.TotalLeft(n, phase) <= |phase| * (SharedMap.MAX_ACCESSES + n + 6)
  {
    if phase != [] {
      WorkIsBounded(n, phase[1..]);
      assert |phase| * (SharedMap.MAX_ACCESSES + n + 6)
             == (|phase| - 1) * (SharedMap.MAX_ACCESSES + n + 6) + (SharedMap.MAX_ACCESSES + n + 6);
    }
  }

  lemma {:induction false} OpenIsBounded(p: Plan, s: State, f: nat)
    requires AllSized(p, s)
    ensures NodeOpen(p, s, f) <= MostOpen(|p.txns|)
  {
    if f < |s.nodes| {
      WorkIsBounded(|p.txns|, s.nodes[f].core.phase);
      assert Sized(p, s.nodes[f]);
    }
  }

  lemma {:induction false} SumOpenIsBounded(p: Plan, s: State, size: nat)
    requires AllSized(p, s)
    ensures SumOpen(p, s, size) <= size * MostOpen(|p.txns|)
  {
    hide MostOpen, NodeOpen, AllSized;
    if size > 0 {
      SumOpenIsBounded(p, s, size - 1);
      OpenIsBounded(p, s, size - 1);
      assert size * MostOpen(|p.txns|) == (size - 1) * MostOpen(|p.txns|) + MostOpen(|p.txns|);
    }
  }

  /** How many rounds are enough. */
  function EnoughRounds(n: nat, size: nat, members: nat): int {
    (size * MostOpen(n) + 1) * Far(members)
  }

  lemma {:induction false} MeasureIsBounded(p: Plan, size: nat, members: nat, s: State)
    requires AllSized(p, s)
    ensures Measure(p, size, members, s) < EnoughRounds(|p.txns|, size, members)
  {
    hide MostOpen, SumOpen, Far, LeaderDistance, AllSized;
    SumOpenIsBounded(p, s, size);
    LeaderIsNotFar(members, s);
    MulIsNat(size, MostOpen(|p.txns|));
    LessOpenWins(size * MostOpen(|p.txns|) + 1, SumOpen(p, s, size), Far(members), 0, LeaderDistance(members, s));
  }

  /** Whatever the cluster has done so far, and however many puts have failed: if the block succeeds in
      block order, then once enough fair rounds follow the leader has written finish. */
  lemma {:induction false} FairRunsFinish(p: Plan, size: nat, members: nat, schedule: seq<Event>, rounds: seq<Round>)
    requires ValidPlan(p) && |p.owners| == |p.table| && OwnersRead(p, size, members) && AllSerialOk(p.txns, map[])
    requires forall i :: 0 <= i < |rounds| ==> FairRound(rounds[i], size)
    requires |rounds| >= EnoughRounds(|p.txns|, size, members)
    ensures After(p, size, members, schedule + Flat(rounds)).run == Finish
  {
    hide ValidPlan, OwnersRead, AllSerialOk, After, Flat, FairRound, Measure, EnoughRounds, SystemInv, Flags, AllSized;
    var s := After(p, size, members, schedule);
    ReachableSystemInv(p, size, members, schedule);
    ReachableFlags(p, size, members, schedule);
    RunFromAfter(p, size, members, schedule, Flat(rounds));
    MeasureIsBounded(p, size, members, s);
    FairRoundsUseMeasure(p, size, members, s, rounds);
  }
}
