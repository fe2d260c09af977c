/** Fair runs of the parallel scheduler end: after a bounded number of rounds, in each of which every
    thread takes at least one step, all threads have returned. */
module FairThreads {
  import opened Arithmetic
  import opened Block
  import opened SharedMap
  import opened TaskCore
  import opened WorkerMachine
  import opened ParallelTheorems
  import opened Progress

  type Round = seq<nat>

  ghost predicate FairRound(round: Round, threads: nat) {
    forall w: nat :: w < threads ==> w in round
  }

  function Flat(rounds: seq<Round>): seq<nat> {
    if rounds == [] then [] else rounds[0] + Flat(rounds[1..])
  }

  lemma {:induction false} RunFromConcat(job: Job, s: State, a: seq<nat>, b: seq<nat>)
    requires Sized(job, s)
    ensures RunFrom(job, s, a + b) == RunFrom(job, RunFrom(job, s, a), b)
    decreases |a|
  {
    hide Step;
    if a == [] {
      assert a + b == b;
    } else {
      StepKeepsSized(job, s, a[0]);
      assert (a + b)[1..] == a[1..] + b;
      RunFromConcat(job, Step(job, s, a[0]), a[1..], b);
    }
  }

  /* ----- the measure ----- */

  /** More than any distance of a thread. */
  function Far(n: nat): nat {
    2 * n + 30
  }

  ghost function SumOfDistances(job: Job, c: Core, workers: seq<Pc>): nat {
    if workers == [] then 0
    else SumOfDistances(job, c, workers[..|workers| - 1]) + Distance(job, c, workers[|workers| - 1])
  }

  lemma {:induction false} DistancesAreBounded(job: Job, c: Core, workers: seq<Pc>)
    ensures SumOfDistances(job, c, workers) <= |workers| * Far(|job.txns|)
  {
    hide ZeroFrom;
    if workers != [] {
      DistancesAreBounded(job, c, workers[..|workers| - 1]);
      assert |workers| * Far(|job.txns|) == (|workers| - 1) * Far(|job.txns|) + Far(|job.txns|);
    }
  }

  /** No thread is farther. */
  ghost predicate NoFarther(job: Job, c: Core, workers: seq<Pc>, workers': seq<Pc>) {
    |workers'| == |workers|
    && forall w: nat :: w < |workers| ==> Distance(job, c, workers'[w]) <= Distance(job, c, workers[w])
  }

  lemma {:induction false} SumFollows(job: Job, c: Core, workers: seq<Pc>, workers': seq<Pc>)
    requires NoFarther(job, c, workers, workers')
    ensures SumOfDistances(job, c, workers') <= SumOfDistances(job, c, workers)
    ensures forall w: nat :: w < |workers| && Distance(job, c, workers'[w]) < Distance(job, c, workers[w]) ==>
              SumOfDistances(job, c, workers') < SumOfDistances(job, c, workers)
  {
    hide Distance;
    if workers != [] {
      var most, most' := workers[..|workers| - 1], workers'[..|workers| - 1];
      forall w: nat | w < |most| ensures Distance(job, c, most'[w]) <= Distance(job, c, most[w]) {
        assert most'[w] == workers'[w] && most[w] == workers[w];
      }
      SumFollows(job, c, most, most');
      forall w: nat | w < |workers| && Distance(job, c, workers'[w]) < Distance(job, c, workers[w])
        ensures SumOfDistances(job, c, workers') < SumOfDistances(job, c, workers)
      {
        if w < |most| {
          assert Distance(job, c, most'[w]) < Distance(job, c, most[w]);
        }
      }
    }
  }

  /** One more than the largest sum of distances. */
  function Weight(n: nat, threads: nat): nat {
    threads * Far(n) + 1
  }

  ghost function Measure(job: Job, s: State): nat {
    var left := TotalLeft(|job.txns|, s.core.phase);
    MulIsNat(left, Weight(|job.txns|, |s.workers|));
    left * Weight(|job.txns|, |s.workers|) + SumOfDistances(job, s.core, s.workers)
  }

  lemma {:induction false} MulIsNat(a: nat, b: nat)
    ensures a * b >= 0
  {
  }

  lemma {:induction false} LessWorkWins(a: nat, a': nat, k: nat, d: nat, d': nat)
    requires a' < a && d' < k
    ensures a' * k + d' < a * k + d
  {
    MulGrows(k, a', a);
    assert a' * k == k * a' && a * k == k * a;
  }

  /* ----- one round ----- */

  lemma {:induction false} IneffectiveStep(job: Job, s: State, w: nat)
    requires Sized(job, s) && !Effective(job, s, w)
    ensures var s' := Step(job, s, w);
            && s'.core == s.core && |s'.workers| == |s.workers|
            && forall v: nat :: v < |s.workers| && v != w ==> s'.workers[v] == s.workers[v]
  {
    hide InProgress, Advance, Claim, FlagAfter;
  }

  lemma {:induction false} WorkNeverGrows(job: Job, s: State, round: Round)
    requires ValidJob(job) && MachineInv(job, s)
    ensures var s' := RunFrom(job, s, round);
            && MachineInv(job, s') && |s'.workers| == |s.workers|
            && TotalLeft(|job.txns|, s'.core.phase) <= TotalLeft(|job.txns|, s.core.phase)
    decreases |round|
  {
    hide MachineInv, Step, TotalLeft, Effective, ValidJob;
    FromMachineInv(job, s);
    if round != [] {
      StepKeepsSized(job, s, round[0]);
      MachineStepKeepsInv(job, s, round[0]);
      EffectiveStepUsesWork(job, s, round[0]);
      WorkNeverGrows(job, Step(job, s, round[0]), round[1..]);
    }
  }

  /** The round ends with less work left, or with the same core and nobody farther, each thread that
      was in the round and had not returned being nearer. */
  ghost predicate Quiet(job: Job, s: State, s': State, round: Round) {
    && s'.core == s.core && NoFarther(job, s.core, s.workers, s'.workers)
    && forall w: nat :: w < |s.workers| && w in round && !s.workers[w].Exited? ==>
         Distance(job, s.core, s'.workers[w]) < Distance(job, s.core, s.workers[w])
  }

  ghost predicate LessWork(job: Job, s: State, s': State) {
    TotalLeft(|job.txns|, s'.core.phase) < TotalLeft(|job.txns|, s.core.phase)
  }

  lemma {:induction false} ExitedDoesNothing(job: Job, s: State, w: nat)
    requires Sized(job, s) && (w >= |s.workers| || s.workers[w].Exited?)
    ensures Step(job, s, w) == s
  {
  }

  lemma {:induction false} QuietAfter(job: Job, s: State, s1: State, s': State, w: nat, rest: Round)
    requires |s.workers| == |s1.workers| && s1.core == s.core && w < |s.workers|
    requires s1.workers == s.workers[w := s1.workers[w]]
    requires Distance(job, s.core, s1.workers[w]) < Distance(job, s.core, s.workers[w])
    requires Quiet(job, s1, s', rest)
    ensures Quiet(job, s, s', [w] + rest)
  {
    hide Distance;
    forall v: nat | v < |s.workers|
      ensures Distance(job, s.core, s'.workers[v]) <= Distance(job, s.core, s1.workers[v]) <= Distance(job, s.core, s.workers[v])
    {
      assert v != w ==> s1.workers[v] == s.workers[v];
    }
    forall v: nat | v < |s.workers| && v in [w] + rest && !s.workers[v].Exited?
      ensures Distance(job, s.core, s'.workers[v]) < Distance(job, s.core, s.workers[v])
    {
      if v != w {
        assert v in rest;
      }
    }
  }

  lemma {:induction false} QuietRound(job: Job, s: State, round: Round)
    requires ValidJob(job) && MachineInv(job, s) && forall t: nat :: !InProgress(job, s.core, t)
    ensures LessWork(job, s, RunFrom(job, s, round)) || Quiet(job, s, RunFrom(job, s, round), round)
    decreases |round|
  {
    hide MachineInv, Step, Effective, ValidJob, InProgress, Distance, TotalLeft, NoFarther;
    FromMachineInv(job, s);
    var s' := RunFrom(job, s, round);
    if round == [] {
      NothingIsFarther(job, s);
    } else {
      var w, rest := round[0], round[1..];
      assert round == [w] + rest;
      StepKeepsSized(job, s, w);
      var s1 := Step(job, s, w);
      if w >= |s.workers| || s.workers[w].Exited? {
        ExitedDoesNothing(job, s, w);
        QuietRound(job, s, rest);
        if Quiet(job, s, s', rest) {
          QuietWithIdler(job, s, s', w, rest);
        }
      } else {
        MachineStepKeepsInv(job, s, w);
        EffectiveStepUsesWork(job, s, w);
        if Effective(job, s, w) {
          WorkNeverGrows(job, s1, rest);
        } else {
          IdleStepIsNearer(job, s, w);
          QuietRound(job, s1, rest);
          if Quiet(job, s1, s', rest) {
            QuietAfter(job, s, s1, s', w, rest);
          }
        }
      }
    }
  }

  lemma {:induction false} NothingIsFarther(job: Job, s: State)
    ensures Quiet(job, s, s, [])
  {
    hide Distance;
  }

  lemma {:induction false} QuietWithIdler(job: Job, s: State, s': State, w: nat, rest: Round)
    requires Quiet(job, s, s', rest) && (w >= |s.workers| || s.workers[w].Exited?)
    ensures Quiet(job, s, s', [w] + rest)
  {
    hide Distance, NoFarther;
  }

  lemma {:induction false} BusyRound(job: Job, s: State, round: Round, w: nat, t: nat)
    requires ValidJob(job) && MachineInv(job, s) && Holds(s, w, t) && InProgress(job, s.core, t) && w in round
    ensures LessWork(job, s, RunFrom(job, s, round))
    decreases |round|
  {
    hide MachineInv, Step, ValidJob, InProgress, TotalLeft;
    FromMachineInv(job, s);
    var s1 := Step(job, s, round[0]);
    StepKeepsSized(job, s, round[0]);
    MachineStepKeepsInv(job, s, round[0]);
    EffectiveStepUsesWork(job, s, round[0]);
    if Effective(job, s, round[0]) {
      WorkNeverGrows(job, s1, round[1..]);
    } else {
      IneffectiveStep(job, s, round[0]);
      BusyRound(job, s1, round[1..], w, t);
    }
  }

  lemma {:induction false} ReturnedStaysReturned(job: Job, s: State, round: Round, w: nat)
    requires Sized(job, s) && w < |s.workers| && s.workers[w].Exited?
    ensures var s' := RunFrom(job, s, round); |s'.workers| == |s.workers| && s'.workers[w].Exited?
    decreases |round|
  {
    hide InProgress, Advance, Claim;
    if round != [] {
      StepKeepsSized(job, s, round[0]);
      ReturnedStaysReturned(job, Step(job, s, round[0]), round[1..], w);
    }
  }

  /** A fair round after which somebody is still at work has used up some of the measure. */
  lemma {:induction false} FairRoundUsesMeasure(job: Job, s: State, round: Round)
    requires ValidJob(job) && MachineInv(job, s) && FairRound(round, |s.workers|)
    requires !AllExited(RunFrom(job, s, round))
    ensures Measure(job, RunFrom(job, s, round)) < Measure(job, s)
  {
    hide MachineInv, ValidJob, InProgress, Distance, TotalLeft, RunFrom, SumOfDistances, Weight, FairRound;
    FromMachineInv(job, s);
    var s' := RunFrom(job, s, round);
    WorkNeverGrows(job, s, round);
    DistancesAreBounded(job, s'.core, s'.workers);
    var w: nat :| w < |s'.workers| && !s'.workers[w].Exited?;
    if s.workers[w].Exited? {
      ReturnedStaysReturned(job, s, round, w);
    }
    assert w in round by {
      FairMeansIn(round, |s.workers|, w);
    }
    if t: nat :| InProgress(job, s.core, t) {
      var v := HolderOf(job, s, t);
      FairMeansIn(round, |s.workers|, v);
      BusyRound(job, s, round, v, t);
    } else {
      QuietRound(job, s, round);
    }
    if LessWork(job, s, s') {
      WeightIsMore(|job.txns|, |s.workers|);
      LessWorkWins(TotalLeft(|job.txns|, s.core.phase), TotalLeft(|job.txns|, s'.core.phase), Weight(|job.txns|, |s.workers|),
                   SumOfDistances(job, s.core, s.workers), SumOfDistances(job, s'.core, s'.workers));
    } else {
      SumFollows(job, s.core, s.workers, s'.workers);
    }
  }

  lemma {:induction false} WeightIsMore(n: nat, threads: nat)
    ensures Weight(n, threads) == threads * Far(n) + 1
  {
  }

  lemma {:induction false} FairMeansIn(round: Round, threads: nat, w: nat)
    requires FairRound(round, threads) && w < threads
    ensures w in round
  {
  }

  lemma {:induction false} HolderOf(job: Job, s: State, t: nat) returns (w: nat)
    requires MachineInv(job, s) && InProgress(job, s.core, t)
    ensures Holds(s, w, t) && w < |s.workers|
  {
    hide Inv, FlagInv, InProgress;
    w :| Holds(s, w, t);
  }

  /* ----- all rounds ----- */

  lemma {:induction false} FairRoundsUseMeasure(job: Job, s: State, rounds: seq<Round>)
    requires ValidJob(job) && MachineInv(job, s) && Sized(job, s)
    requires forall i :: 0 <= i < |rounds| ==> FairRound(rounds[i], |s.workers|)
    ensures AllExited(RunFrom(job, s, Flat(rounds))) || |rounds| <= Measure(job, s)
    decreases |rounds|
  {
    hide MachineInv, ValidJob, Measure, FairRound, Step;
    if rounds != [] {
      var round, rest := rounds[0], rounds[1..];
      var s1 := RunFrom(job, s, round);
      RunFromConcat(job, s, round, Flat(rest));
      WorkNeverGrows(job, s, round);
      if AllExited(s1) {
        EverybodyStaysReturned(job, s1, Flat(rest));
      } else {
        FairRoundUsesMeasure(job, s, round);
        forall i | 0 <= i < |rest| ensures FairRound(rest[i], |s1.workers|) {
          assert rest[i] == rounds[i + 1];
        }
        FairRoundsUseMeasure(job, s1, rest);
      }
    }
  }

  lemma {:induction false} EverybodyStaysReturned(job: Job, s: State, round: Round)
    requires Sized(job, s) && AllExited(s)
    ensures AllExited(RunFrom(job, s, round))
  {
    hide RunFrom;
    SameCrew(job, s, round);
    forall w: nat | w < |s.workers| ensures RunFrom(job, s, round).workers[w].Exited? {
      ReturnedStaysReturned(job, s, round, w);
    }
  }

  lemma {:induction false} SameCrew(job: Job, s: State, round: Round)
    requires Sized(job, s)
    ensures |RunFrom(job, s, round).workers| == |s.workers|
    decreases |round|
  {
    hide Step;
    if round != [] {
      StepKeepsSized(job, s, round[0]);
      SameCrew(job, Step(job, s, round[0]), round[1..]);
    }
  }

  /** As much work as a block of n transactions can be. */
  function MostWork(n: nat): nat {
    n * (MAX_ACCESSES + n + 6)
  }

  /** How many rounds are enough. */
  function EnoughRounds(n: nat, threads: nat): int {
    (MostWork(n) + 1) * Weight(n, threads)
  }

  lemma {:induction false} MeasureIsBounded(job: Job, threads: nat, schedule: seq<nat>)
    requires ValidJob(job)
    ensures Measure(job, After(job, threads, schedule)) < EnoughRounds(|job.txns|, threads)
  {
    hide ValidJob, After, EffectiveCount, Weight, SumOfDistances, TotalLeft;
    var s := After(job, threads, schedule);
    WorkIsBounded(job, threads, schedule);
    DistancesAreBounded(job, s.core, s.workers);
    WeightIsMore(|job.txns|, threads);
    LessWorkWins(MostWork(|job.txns|) + 1, TotalLeft(|job.txns|, s.core.phase), Weight(|job.txns|, threads),
                 0, SumOfDistances(job, s.core, s.workers));
  }

  /** Whatever the threads have done so far: once enough rounds follow, in each of which every thread
      takes a step, in any order and any number of times, all threads have returned. */
  lemma {:induction false} FairRunsFinish(b: Txns, start: Store, threads: nat, schedule: seq<nat>, rounds: seq<Round>)
    requires WellDeclared(b)
    requires forall i :: 0 <= i < |rounds| ==> FairRound(rounds[i], threads)
    requires |rounds| >= EnoughRounds(|b|, threads)
    ensures AllExited(After(WholeBlock(b, start), threads, schedule + Flat(rounds)))
  {
    hide WellDeclared, After, Flat, FairRound, Measure, EnoughRounds;
    var job := WholeBlock(b, start);
    WholeBlockIsValid(b, start);
    ReachableInv(job, threads, schedule);
    RunFromAfter(job, threads, schedule, Flat(rounds));
    MeasureIsBounded(job, threads, schedule);
    FairRoundsUseMeasure(job, After(job, threads, schedule), rounds);
  }
}
