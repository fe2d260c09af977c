/** What the leader may rely on when it writes run = finish. */
module ClusterTheorems {
  import opened Wrappers
  import opened SharedMap
  import opened Block
  import opened TaskCore
  import opened Graph
  import opened Sets
  import opened Assignment
  import opened Cluster

  /** The node has executed its whole share, successfully, and holds nothing. */
  ghost predicate ShareDone(p: Plan, n: Node) {
    n.core.completed == |p.txns| && n.flag && !n.pc.Hold? && !n.pc.Idle?
  }

  /** The transactions owned by a set of nodes. */
  ghost function OwnedBy(p: Plan, nodes: set<nat>): set<nat>
    requires Dealt(p.txns, p.table, p.owners)
  {
    set v | v in Range(|p.txns|) && OwnerOf(p.txns, p.table, p.owners, v) in nodes
  }

  ghost predicate StatusInv(p: Plan, s: State)
    requires |p.owners| == |p.table|
  {
    forall f :: f in s.status ==>
      f < |s.nodes| && ShareDone(p, s.nodes[f]) && f in s.data
      && s.status[f] == |Mine(p.table, p.owners, f)|
  }

  ghost predicate DataInv(p: Plan, s: State)
    requires |p.owners| == |p.table|
  {
    && (forall f :: f in s.data ==> s.data[f] == ShareMap(p.txns, p.table, p.owners, f))
    && (forall f :: 0 <= f < |s.nodes| && s.nodes[f].pc.PutStatus? ==> f in s.data)
  }

  /** What the leader has added up is the number of transactions of the nodes it has seen. */
  ghost predicate LeaderInv(p: Plan, members: nat, s: State)
    requires Dealt(p.txns, p.table, p.owners)
  {
    && (s.leader.Poll? ==>
          s.leader.seen <= s.status.Keys && s.leader.sum == |OwnedBy(p, s.leader.seen)|
          && forall f :: f in s.leader.seen ==> f < s.leader.i)
    && (s.leader.AtFinish? || s.leader.Finished? ==>
          forall v: nat :: v < |p.txns| ==> OwnerOf(p.txns, p.table, p.owners, v) in s.status)
    && (s.run == Finish ==> s.leader.Finished?)
  }

  ghost predicate SystemInv(p: Plan, members: nat, s: State) {
    && ValidPlan(p) && AllSized(p, s)
    && (forall f :: 0 <= f < |s.nodes| ==> NodeInv(p, f, s.nodes[f]))
    && StatusInv(p, s) && DataInv(p, s) && LeaderInv(p, members, s)
  }

  /* ----- a finished share ----- */

  /** All of the share is counted, so no in-degree is 0 and every payload has run. */
  lemma {:induction false} DoneMeansAllCounted(p: Plan, f: nat, n: Node)
    requires ValidPlan(p) && Sized(p, n) && NodeInv(p, f, n) && n.core.completed == |p.txns| && !n.pc.Hold?
    ensures Counted(n.core) == Ran(n.core) == Mine(p.table, p.owners, f)
    ensures forall j :: 0 <= j < |n.core.inDegree| ==> n.core.inDegree[j] != 0
    ensures n.compCount == |Mine(p.table, p.owners, f)|
  {
    hide StoreInv, VerdictInv, Mine, Edge;
    var job := JobAt(p, f);
    SubsetSize(Counted(n.core), job.mine);
    forall t: nat | t < |n.core.phase| ensures n.core.phase[t].Waiting? || n.core.phase[t].Releasing? {
      assert !InProgress(job, n.core, t);
    }
    assert Counted(n.core) == Ran(n.core);
  }

  lemma {:induction false} DoneMeansShareMap(p: Plan, f: nat, n: Node)
    requires ValidPlan(p) && Sized(p, n) && NodeInv(p, f, n) && n.core.completed == |p.txns| && !n.pc.Hold?
    ensures n.core.store == ShareMap(p.txns, p.table, p.owners, f)
  {
    DoneMeansAllCounted(p, f, n);
    StoreIsSettled(p, f, n);
  }

  lemma {:induction false} StoreIsSettled(p: Plan, f: nat, n: Node)
    requires Sized(p, n) && Inv(JobAt(p, f), n.core) && Counted(n.core) == Ran(n.core) == Mine(p.table, p.owners, f)
    ensures n.core.store == ShareMap(p.txns, p.table, p.owners, f)
  {
    hide Mine;
    forall k ensures Look(n.core.store, k) == Look(Settled(JobAt(p, f), n.core), k) {
      forall t: nat | t < |n.core.phase| ensures !n.core.phase[t].Running? {
        assert !n.core.phase[t].Waiting? ==> t in Mine(p.table, p.owners, f);
      }
      assert !RunsRunning(n.core, k, p.txns);
    }
    SameLooksSameMap(n.core.store, Settled(JobAt(p, f), n.core));
  }

  /** A node that is done stays done and keeps its map. */
  lemma {:induction false} DoneIsStable(p: Plan, f: nat, n: Node, run: Run)
    requires ValidPlan(p) && Sized(p, n) && NodeInv(p, f, n) && ShareDone(p, n)
    ensures ShareDone(p, LocalStep(p, f, n, run))
  {
    hide NodeInv, ValidPlan, Selected, Advance, Claim, Armed, InProgress, Mine, Counted, Ran;
    DoneMeansAllCounted(p, f, n);
    SelectedIsIndex(n);
  }

  /* ----- steps ----- */

  /** Replacing one node's memory. */
  lemma {:induction false} ReplaceNode(p: Plan, members: nat, s: State, f: nat, n: Node)
    requires SystemInv(p, members, s) && f < |s.nodes|
    requires Sized(p, n) && NodeInv(p, f, n)
    requires f in s.status ==> ShareDone(p, n)
    requires n.pc.PutStatus? ==> f in s.data
    ensures SystemInv(p, members, s.(nodes := s.nodes[f := n]))
  {
    hide NodeInv, ShareDone, ValidPlan, OwnedBy, Sized, ShareMap, Mine, Dealt;
  }

  lemma {:induction false} LocalEventKeepsInv(p: Plan, members: nat, s: State, f: nat)
    requires SystemInv(p, members, s) && f < |s.nodes| && !s.nodes[f].pc.PutData? && !s.nodes[f].pc.PutStatus?
    ensures SystemInv(p, members, s.(nodes := s.nodes[f := LocalStep(p, f, s.nodes[f], s.run)]))
  {
    hide NodeInv, LocalStep, ValidPlan, OwnedBy, ShareMap, Mine, Dealt;
    var n := s.nodes[f];
    LocalStepKeepsNodeInv(p, f, n, s.run);
    if f in s.status {
      DoneIsStable(p, f, n, s.run);
    }
    LocalStepNeverPuts(p, f, n, s.run);
    ReplaceNode(p, members, s, f, LocalStep(p, f, n, s.run));
  }

  lemma {:induction false} LocalStepNeverPuts(p: Plan, f: nat, n: Node, run: Run)
    requires Sized(p, n) && !n.pc.PutData? && !n.pc.PutStatus?
    ensures !LocalStep(p, f, n, run).pc.PutStatus?
  {
    hide Advance, Claim;
  }

  lemma {:induction false} StoreData(p: Plan, members: nat, s: State, f: nat)
    requires SystemInv(p, members, s) && f < |s.nodes|
    ensures SystemInv(p, members, s.(data := s.data[f := ShareMap(p.txns, p.table, p.owners, f)]))
  {
    hide NodeInv, ShareDone, ValidPlan, OwnedBy, Sized, ShareMap, Mine, Dealt;
  }

  lemma {:induction false} StoreStatus(p: Plan, members: nat, s: State, f: nat)
    requires SystemInv(p, members, s) && f < |s.nodes| && ShareDone(p, s.nodes[f]) && f in s.data
    ensures SystemInv(p, members, s.(status := s.status[f := |Mine(p.table, p.owners, f)|]))
  {
    hide NodeInv, ShareDone, ValidPlan, OwnedBy, Sized, ShareMap, Mine, Dealt;
  }

  lemma {:induction false} PutFacts(p: Plan, f: nat, n: Node)
    requires ValidPlan(p) && Sized(p, n) && NodeInv(p, f, n) && (n.pc.PutData? || n.pc.PutStatus?)
    ensures n.core.completed == |p.txns| && n.flag
    ensures n.core.store == ShareMap(p.txns, p.table, p.owners, f)
    ensures n.compCount == |Mine(p.table, p.owners, f)|
  {
    DoneMeansShareMap(p, f, n);
    DoneMeansAllCounted(p, f, n);
  }

  lemma {:induction false} PutDataKeepsInv(p: Plan, members: nat, s: State, f: nat)
    requires SystemInv(p, members, s) && f < |s.nodes| && s.nodes[f].pc.PutData?
    ensures SystemInv(p, members, WorkerStep(p, s, f, true))
  {
    hide NodeInv, ValidPlan, OwnedBy, ShareMap, Mine, Dealt, LocalStep;
    var n := s.nodes[f];
    PutFacts(p, f, n);
    MovingKeepsNodeInv(p, f, n, PutStatus);
    var mid := s.(data := s.data[f := n.core.store]);
    StoreData(p, members, s, f);
    ReplaceNode(p, members, mid, f, n.(pc := PutStatus));
  }

  lemma {:induction false} PutStatusKeepsInv(p: Plan, members: nat, s: State, f: nat, putOk: bool)
    requires SystemInv(p, members, s) && f < |s.nodes| && s.nodes[f].pc.PutStatus?
    ensures SystemInv(p, members, WorkerStep(p, s, f, putOk))
  {
    hide NodeInv, ValidPlan, OwnedBy, ShareMap, Mine, Dealt, LocalStep;
    var n := s.nodes[f];
    PutFacts(p, f, n);
    MovingKeepsNodeInv(p, f, n, Select);
    if putOk {
      UpdateFlagIsFree(p, f, n.(pc := Select));
      var n' := n.(updateFlag := false, pc := Select);
      ReplaceNode(p, members, s, f, n');
      StoreStatus(p, members, s.(nodes := s.nodes[f := n']), f);
    } else {
      ReplaceNode(p, members, s, f, n.(pc := Select));
    }
  }

  lemma {:induction false} UpdateFlagIsFree(p: Plan, f: nat, n: Node)
    requires Sized(p, n) && NodeInv(p, f, n) && !n.pc.Idle?
    ensures Sized(p, n.(updateFlag := false)) && NodeInv(p, f, n.(updateFlag := false))
  {
    assert CountedBefore(n.(updateFlag := false)) == CountedBefore(n);
  }

  lemma {:induction false} CompleteFlagIsFree(p: Plan, f: nat, n: Node)
    requires Sized(p, n) && NodeInv(p, f, n) && !n.pc.Idle?
    ensures Sized(p, n.(completeFlag := true)) && NodeInv(p, f, n.(completeFlag := true))
  {
    assert CountedBefore(n.(completeFlag := true)) == CountedBefore(n);
  }

  lemma {:induction false} MonitorKeepsInv(p: Plan, members: nat, s: State, f: nat)
    requires SystemInv(p, members, s) && f < |s.nodes| && !s.nodes[f].pc.Idle?
    ensures SystemInv(p, members, s.(nodes := s.nodes[f := s.nodes[f].(completeFlag := true)]))
  {
    hide NodeInv, ValidPlan, OwnedBy, ShareMap, Mine, Dealt;
    CompleteFlagIsFree(p, f, s.nodes[f]);
    ReplaceNode(p, members, s, f, s.nodes[f].(completeFlag := true));
  }

  lemma {:induction false} OwnedByOneMore(p: Plan, seen: set<nat>, i: nat)
    requires ValidPlan(p) && i !in seen
    ensures |OwnedBy(p, seen + {i})| == |OwnedBy(p, seen)| + |Mine(p.table, p.owners, i)|
  {
    var mine := Mine(p.table, p.owners, i);
    forall v | v in mine ensures v < |p.txns| && OwnerOf(p.txns, p.table, p.owners, v) == i {
      OwnerIsUnique(p.txns, p.table, p.owners, v, i);
    }
    assert OwnedBy(p, seen + {i}) == OwnedBy(p, seen) + mine;
    assert OwnedBy(p, seen) !! mine;
  }

  lemma {:induction false} EverythingSeen(p: Plan, seen: set<nat>)
    requires ValidPlan(p) && |OwnedBy(p, seen)| == |p.txns|
    ensures forall v: nat :: v < |p.txns| ==> OwnerOf(p.txns, p.table, p.owners, v) in seen
  {
    SubsetSize(OwnedBy(p, seen), Range(|p.txns|));
    forall v: nat | v < |p.txns| ensures OwnerOf(p.txns, p.table, p.owners, v) in seen {
      assert v in OwnedBy(p, seen);
    }
  }

  lemma {:induction false} LeaderKeepsInv(p: Plan, members: nat, s: State)
    requires SystemInv(p, members, s)
    ensures SystemInv(p, members, LeaderStep(p, members, s))
  {
    hide LeaderStep, LeaderInv, NodeInv, ShareDone, ValidPlan, Sized, ShareMap, Mine, OwnedBy;
    LeaderStepKeepsSum(p, members, s);
    LeaderMovesOnlyItself(p, members, s);
  }

  lemma {:induction false} LeaderMovesOnlyItself(p: Plan, members: nat, s: State)
    ensures var s' := LeaderStep(p, members, s);
            s'.nodes == s.nodes && s'.status == s.status && s'.data == s.data
  {
  }

  lemma {:induction false} LeaderStepKeepsSum(p: Plan, members: nat, s: State)
    requires ValidPlan(p) && AllSized(p, s) && StatusInv(p, s) && LeaderInv(p, members, s)
    ensures LeaderInv(p, members, LeaderStep(p, members, s))
  {
    hide ShareDone, ValidPlan, ShareMap, Mine, OwnerOf, OwnedBy, Sized;
    if s.leader.Poll? {
      var seen := s.leader.seen;
      if s.leader.i < members && s.leader.i in s.status {
        OwnedByOneMore(p, seen, s.leader.i);
      } else if s.leader.i >= members && s.leader.sum == |p.txns| {
        EverythingSeen(p, seen);
      }
    }
    NothingOwned(p);
  }

  lemma {:induction false} NothingOwned(p: Plan)
    requires ValidPlan(p)
    ensures OwnedBy(p, {}) == {}
  {
    assert OwnedBy(p, {}) == {};
  }

  lemma {:induction false} StepKeepsSystemInv(p: Plan, members: nat, s: State, e: Event)
    requires SystemInv(p, members, s)
    ensures SystemInv(p, members, Step(p, members, s, e))
  {
    hide NodeInv, ValidPlan, OwnedBy, ShareMap, Mine, Dealt, LocalStep, ShareDone, StatusInv, DataInv, LeaderInv;
    if e.Leader? {
      LeaderKeepsInv(p, members, s);
    } else if e.Monitor? {
      if e.m < |s.nodes| && s.run == Finish && !s.nodes[e.m].pc.Idle? {
        MonitorKeepsInv(p, members, s, e.m);
      }
    } else if e.f < |s.nodes| {
      if s.nodes[e.f].pc.PutData? {
        PutDataKeepsInv(p, members, s, e.f);
        assert WorkerStep(p, s, e.f, e.putOk) == WorkerStep(p, s, e.f, true);
      } else if s.nodes[e.f].pc.PutStatus? {
        PutStatusKeepsInv(p, members, s, e.f, e.putOk);
      } else {
        LocalEventKeepsInv(p, members, s, e.f);
      }
    }
  }

  lemma {:induction false} BeginSystemInv(p: Plan, size: nat, members: nat)
    requires ValidPlan(p)
    ensures SystemInv(p, members, Begin(p, size))
  {
    hide NodeInv, Mine, ShareMap, OwnerOf, Preds;
    var s := Begin(p, size);
    forall f: nat | f < |s.nodes| ensures Sized(p, s.nodes[f]) && NodeInv(p, f, s.nodes[f]) {
      ArmedInv(p, f);
    }
  }

  /** Every state the cluster can reach satisfies the invariant. */
  lemma {:induction false} ReachableSystemInv(p: Plan, size: nat, members: nat, schedule: seq<Event>)
    requires ValidPlan(p)
    ensures SystemInv(p, members, After(p, size, members, schedule))
  {
    hide SystemInv, ValidPlan, Step, Begin;
    PlanIsSized(p);
    if schedule == [] {
      BeginSystemInv(p, size, members);
    } else {
      var before := schedule[..|schedule| - 1];
      ReachableSystemInv(p, size, members, before);
      StepKeepsSystemInv(p, members, After(p, size, members, before), schedule[|schedule| - 1]);
    }
  }

  lemma {:induction false} PlanIsSized(p: Plan)
    requires ValidPlan(p)
    ensures |p.owners| == |p.table|
  {
  }

  /* ----- what finish means ----- */

  /** t has been executed by its owner, successfully and as in block order, and by nobody else. */
  ghost predicate ExecutedOnce(p: Plan, s: State, t: nat)
    requires ValidPlan(p) && t < |p.txns| && AllSized(p, s)
  {
    var owner := OwnerOf(p.txns, p.table, p.owners, t);
    && owner < |s.nodes|
    && t in Ran(s.nodes[owner].core) && s.nodes[owner].core.phase[t].ok
    && forall f: nat :: f < |s.nodes| && f != owner ==> s.nodes[f].core.phase[t].Waiting?
  }

  /** What a stored status says about its node. */
  lemma {:induction false} StatusMeansDone(p: Plan, members: nat, s: State, f: nat)
    requires SystemInv(p, members, s) && f in s.status
    ensures f < |s.nodes| && f in s.data && s.data[f] == ShareMap(p.txns, p.table, p.owners, f)
    ensures forall t: nat :: t in Mine(p.table, p.owners, f) ==>
              t < |p.txns| && t in Ran(s.nodes[f].core) && s.nodes[f].core.phase[t].ok
              && SerialOk(p.txns, t, map[])
  {
    hide ShareMap, Mine;
    DoneMeansAllCounted(p, f, s.nodes[f]);
    forall t: nat | t in Mine(p.table, p.owners, f)
      ensures t < |p.txns| && t in Ran(s.nodes[f].core) && s.nodes[f].core.phase[t].ok && SerialOk(p.txns, t, map[])
    {
      assert t in Counted(s.nodes[f].core);
      assert Judged(s.nodes[f].core, t);
    }
  }

  lemma {:induction false} OthersNeverClaim(p: Plan, members: nat, s: State, t: nat, f: nat)
    requires SystemInv(p, members, s) && t < |p.txns| && f < |s.nodes|
    requires f != OwnerOf(p.txns, p.table, p.owners, t)
    ensures s.nodes[f].core.phase[t].Waiting?
  {
    if t in Mine(p.table, p.owners, f) {
      OwnerIsUnique(p.txns, p.table, p.owners, t, f);
    }
  }

  /** Whenever the leader writes run = finish, although it has read the counts one by one and
      at different moments: every transaction of the block has been executed exactly once, by
      its owner and with the verdict it has in block order, which is success; and every
      follower that has work has already stored the complete map of its share. */
  lemma {:induction false} FinishMeansDone(p: Plan, size: nat, members: nat, schedule: seq<Event>)
    requires ValidPlan(p)
    ensures var s := After(p, size, members, schedule);
            s.run == Finish || s.leader.AtFinish? ==>
              && AllSerialOk(p.txns, map[])
              && (forall t: nat :: t < |p.txns| ==> ExecutedOnce(p, s, t))
              && (forall f: nat :: Mine(p.table, p.owners, f) != {} ==>
                    f in s.data && s.data[f] == ShareMap(p.txns, p.table, p.owners, f))
  {
    hide NodeInv, Mine, ShareMap, OwnerOf, ShareDone;
    var s := After(p, size, members, schedule);
    ReachableSystemInv(p, size, members, schedule);
    if s.run == Finish || s.leader.AtFinish? {
      forall t: nat | t < |p.txns| ensures ExecutedOnce(p, s, t) && SerialOk(p.txns, t, map[]) {
        var owner := OwnerOf(p.txns, p.table, p.owners, t);
        StatusMeansDone(p, members, s, owner);
        forall f: nat | f < |s.nodes| && f != owner ensures s.nodes[f].core.phase[t].Waiting? {
          OthersNeverClaim(p, members, s, t, f);
        }
      }
      forall f: nat | Mine(p.table, p.owners, f) != {}
        ensures f in s.data && s.data[f] == ShareMap(p.txns, p.table, p.owners, f)
      {
        var t :| t in Mine(p.table, p.owners, f);
        MineIsInBlock(p, f, t);
        OwnerIsUnique(p.txns, p.table, p.owners, t, f);
        StatusMeansDone(p, members, s, f);
      }
    }
  }

  lemma {:induction false} MineIsInBlock(p: Plan, f: nat, t: nat)
    requires ValidPlan(p) && t in Mine(p.table, p.owners, f)
    ensures t < |p.txns|
  {
  }

  ghost predicate Stored(s: State, k: string, v: string) {
    exists f: nat :: f in s.data && Look(s.data[f], k) == Some(v)
  }

  /** The pairs are those of the stored maps, each at least once and in any order. */
  ghost predicate ReadsAll(s: State, pairs: seq<(string, string)>) {
    && (forall i :: 0 <= i < |pairs| ==>
          Stored(s, pairs[i].0, pairs[i].1))
    && (forall f: nat, k :: f in s.data && k in s.data[f] ==> HasPair(pairs, k, s.data[f][k]))
  }

  /** What saveData inserts after finish, in whatever order its threads are interleaved,
      updates the state as executing the whole block in order would. */
  lemma {:induction false} MergeAfterFinishIsSerial(p: Plan, size: nat, members: nat, schedule: seq<Event>,
                                                    state: Store, pairs: seq<(string, string)>)
    requires ValidPlan(p)
    requires var s := After(p, size, members, schedule); s.run == Finish && ReadsAll(s, pairs)
    ensures InsertPairs(state, pairs) == state + Serial(p.txns, |p.txns|, map[])
  {
    hide NodeInv, Mine, ShareMap, OwnerOf, StatusInv, LeaderInv, Serial, InsertPairs;
    var s := After(p, size, members, schedule);
    ReachableSystemInv(p, size, members, schedule);
    FinishMeansDone(p, size, members, schedule);
    forall i | 0 <= i < |pairs|
      ensures FromSomeShare(p.txns, p.table, p.owners, pairs[i].0, pairs[i].1)
    {
      assert Stored(s, pairs[i].0, pairs[i].1);
      var f: nat :| f in s.data && Look(s.data[f], pairs[i].0) == Some(pairs[i].1);
      assert s.data[f] == ShareMap(p.txns, p.table, p.owners, f);
    }
    forall f: nat, k | k in ShareMap(p.txns, p.table, p.owners, f)
      ensures HasPair(pairs, k, ShareMap(p.txns, p.table, p.owners, f)[k])
    {
      if Mine(p.table, p.owners, f) == {} {
        NoShareNoMap(p, f, k);
      }
    }
    MergeIsSerial(p.txns, p.table, p.owners, state, pairs);
  }

  lemma {:induction false} NoShareNoMap(p: Plan, f: nat, k: string)
    requires ValidPlan(p) && k in ShareMap(p.txns, p.table, p.owners, f)
    ensures Mine(p.table, p.owners, f) != {}
  {
    hide Mine, ShareMap;
    ShareMapAt(p.txns, p.table, p.owners, f, k);
  }

  /** On a follower, totalTxns minus completedTxns is always the number of its own transactions
      that it has not finished yet. */
  lemma {:induction false} UnfinishedCount(p: Plan, size: nat, members: nat, schedule: seq<Event>, f: nat)
    requires ValidPlan(p) && f < size
    ensures var c := After(p, size, members, schedule).nodes[f].core;
            |p.txns| - c.completed == |Mine(p.table, p.owners, f) - Counted(c)|
  {
    ReachableSystemInv(p, size, members, schedule);
    var c := After(p, size, members, schedule).nodes[f].core;
    hide Mine, After, StoreInv, VerdictInv, DegreeInv, StatusInv, DataInv, LeaderInv;
    assert NodeInv(p, f, After(p, size, members, schedule).nodes[f]);
    forall t | t in Counted(c) ensures t in Mine(p.table, p.owners, f) {
    }
    var mine := Mine(p.table, p.owners, f);
    assert mine == (mine - Counted(c)) + Counted(c);
  }

  /* ----- when the counts add up ----- */

  /** The counts of the first m status keys, read at one moment. */
  ghost function SumOfCounts(status: map<nat, nat>, m: nat): nat {
    if m == 0 then 0 else SumOfCounts(status, m - 1) + if m - 1 in status then status[m - 1] else 0
  }

  ghost function Reported(status: map<nat, nat>, m: nat): set<nat> {
    set i | i in Range(m) && i in status
  }

  lemma {:induction false} ReportedNext(status: map<nat, nat>, m: nat)
    ensures Reported(status, 0) == {}
    ensures m in status ==> Reported(status, m + 1) == Reported(status, m) + {m}
    ensures m !in status ==> Reported(status, m + 1) == Reported(status, m)
    ensures m !in Reported(status, m)
  {
  }

  lemma {:induction false} SumIsOwned(p: Plan, status: map<nat, nat>, m: nat)
    requires ValidPlan(p) && forall f :: f in status ==> status[f] == |Mine(p.table, p.owners, f)|
    ensures SumOfCounts(status, m) == |OwnedBy(p, Reported(status, m))|
  {
    hide OwnedBy, Mine, WellDeclared, IsComponentTable, Reported;
    if m == 0 {
      ReportedNext(status, 0);
      NothingOwned(p);
    } else {
      SumIsOwned(p, status, m - 1);
      ReportedNext(status, m - 1);
      OwnedByOneMore(p, Reported(status, m - 1), m - 1);
    }
  }

  lemma {:induction false} StatusesAreShares(p: Plan, members: nat, s: State)
    requires SystemInv(p, members, s)
    ensures forall f :: f in s.status ==> s.status[f] == |Mine(p.table, p.owners, f)|
  {
    hide NodeInv, Mine, ShareDone, DataInv, LeaderInv;
  }

  /** In every reachable state the counts add up to the size of the block exactly when the owner
      of every transaction is among the keys read and has reported. */
  lemma {:induction false} CountsAddUpIffAllReported(p: Plan, size: nat, members: nat, schedule: seq<Event>)
    requires ValidPlan(p)
    ensures var s := After(p, size, members, schedule);
            SumOfCounts(s.status, members) == |p.txns|
            <==> forall v: nat :: v < |p.txns| ==> OwnerOf(p.txns, p.table, p.owners, v) in Reported(s.status, members)
  {
    hide SystemInv, OwnerOf, After;
    PlanIsSized(p);
    var s := After(p, size, members, schedule);
    ReachableSystemInv(p, size, members, schedule);
    StatusesAreShares(p, members, s);
    SumIsOwned(p, s.status, members);
    var seen := Reported(s.status, members);
    if |OwnedBy(p, seen)| == |p.txns| {
      EverythingSeen(p, seen);
    }
    if forall v: nat :: v < |p.txns| ==> OwnerOf(p.txns, p.table, p.owners, v) in seen {
      assert OwnedBy(p, seen) == Range(|p.txns|);
    }
  }

  /* ----- claims, counted over the run ----- */

  /** The event is a successful compare-exchange of node f on t. */
  ghost predicate ClaimsAt(p: Plan, s: State, e: Event, f: nat, t: nat) {
    && e.Worker? && e.f == f && f < |s.nodes|
    && s.nodes[f].pc.Select? && t < |p.txns| && Selected(s.nodes[f].core.inDegree, s.nodes[f].last) == Some(t)
  }

  ghost function ClaimCount(p: Plan, size: nat, members: nat, schedule: seq<Event>, f: nat, t: nat): nat
    requires |p.owners| == |p.table|
  {
    if schedule == [] then 0
    else
      var before := schedule[..|schedule| - 1];
      ClaimCount(p, size, members, before, f, t)
      + if ClaimsAt(p, After(p, size, members, before), schedule[|schedule| - 1], f, t) then 1 else 0
  }

  lemma {:induction false} SelectEndsWaiting(p: Plan, f: nat, n: Node, t: nat, u: nat)
    requires ValidPlan(p) && Sized(p, n) && NodeInv(p, f, n) && t < |p.txns| && u < |p.txns| && n.core.inDegree[u] == 0
    ensures n.core.phase[u].Waiting?
    ensures Claim(n.core, u).phase[t].Waiting? <==> n.core.phase[t].Waiting? && u != t
  {
    hide StoreInv, VerdictInv, DegreeInv, OrderInv, ValidPlan, Mine;
    ZeroMeansReleased(JobAt(p, f), n.core, u);
  }

  lemma {:induction false} HoldEndsNoWaiting(p: Plan, f: nat, n: Node, t: nat)
    requires Sized(p, n) && NodeInv(p, f, n) && n.pc.Hold? && t < |p.txns| && InProgress(JobAt(p, f), n.core, n.pc.t)
    ensures |Advance(JobAt(p, f), n.core, n.pc.t).phase| == |p.txns|
    ensures Advance(JobAt(p, f), n.core, n.pc.t).phase[t].Waiting? <==> n.core.phase[t].Waiting?
  {
    hide Inv, Advance, InProgress, Mine, Counted, Judged;
    AdvanceMovesOnlyOne(JobAt(p, f), n.core, n.pc.t);
  }

  lemma {:induction false} OnlyClaimsEndWaiting(p: Plan, f: nat, n: Node, run: Run, t: nat)
    requires ValidPlan(p) && Sized(p, n) && NodeInv(p, f, n) && t < |p.txns|
    ensures Sized(p, LocalStep(p, f, n, run))
    ensures var claims := n.pc.Select? && Selected(n.core.inDegree, n.last) == Some(t);
            && (LocalStep(p, f, n, run).core.phase[t].Waiting? <==> n.core.phase[t].Waiting? && !claims)
            && (claims ==> n.core.phase[t].Waiting?)
  {
    hide NodeInv, ValidPlan, Advance, Claim, Selected, InProgress, Armed;
    LocalStepKeepsSized(p, f, n, run);
    SelectedIsIndex(n);
    if n.pc.Idle? {
      SleepingIsAsleep(p, f, n);
    } else if n.pc.Hold? && InProgress(JobAt(p, f), n.core, n.pc.t) {
      HoldEndsNoWaiting(p, f, n, t);
    } else if n.pc.Select? && Selected(n.core.inDegree, n.last).Some? {
      SelectEndsWaiting(p, f, n, t, Selected(n.core.inDegree, n.last).value);
    }
  }

  lemma {:induction false} EventAndWaiting(p: Plan, members: nat, s: State, e: Event, f: nat, t: nat)
    requires SystemInv(p, members, s) && AllSized(p, s) && f < |s.nodes| && t < |p.txns|
    ensures AllSized(p, Step(p, members, s, e)) && |Step(p, members, s, e).nodes| == |s.nodes|
    ensures Step(p, members, s, e).nodes[f].core.phase[t].Waiting? <==> s.nodes[f].core.phase[t].Waiting? && !ClaimsAt(p, s, e, f, t)
    ensures ClaimsAt(p, s, e, f, t) ==> s.nodes[f].core.phase[t].Waiting?
  {
    hide NodeInv, LocalStep, ValidPlan, StatusInv, DataInv, LeaderInv, Selected;
    StepKeepsSized(p, members, s, e);
    if e.Worker? && e.f == f {
      OnlyClaimsEndWaiting(p, f, s.nodes[f], s.run, t);
    }
  }

  /** In every run a node claims a transaction at most once: once from the moment on at which it no
      longer waits there. */
  lemma {:induction false} ClaimsAreCounted(p: Plan, size: nat, members: nat, schedule: seq<Event>, f: nat, t: nat)
    requires ValidPlan(p) && |p.owners| == |p.table| && f < size && t < |p.txns|
    ensures ClaimCount(p, size, members, schedule, f, t)
            == if After(p, size, members, schedule).nodes[f].core.phase[t].Waiting? then 0 else 1
  {
    hide ValidPlan, SystemInv, Step, ClaimsAt, Mine, Preds;
    if schedule != [] {
      var before := schedule[..|schedule| - 1];
      ClaimsAreCounted(p, size, members, before, f, t);
      ReachableSystemInv(p, size, members, before);
      EventAndWaiting(p, members, After(p, size, members, before), schedule[|schedule| - 1], f, t);
    }
  }

  /** Whenever the leader writes finish, every transaction has been claimed exactly once in the whole
      run, by its owner. */
  lemma {:induction false} FinishMeansClaimedOnce(p: Plan, size: nat, members: nat, schedule: seq<Event>, t: nat)
    requires ValidPlan(p) && |p.owners| == |p.table| && t < |p.txns|
    requires After(p, size, members, schedule).run == Finish
    ensures OwnerOf(p.txns, p.table, p.owners, t) < size
    ensures forall f: nat :: f < size ==>
              ClaimCount(p, size, members, schedule, f, t) == if f == OwnerOf(p.txns, p.table, p.owners, t) then 1 else 0
  {
    hide After, ClaimCount, OwnerOf, WellDeclared, Dealt;
    FinishMeansDone(p, size, members, schedule);
    assert ExecutedOnce(p, After(p, size, members, schedule), t);
    forall f: nat | f < size
      ensures ClaimCount(p, size, members, schedule, f, t) == if f == OwnerOf(p.txns, p.table, p.owners, t) then 1 else 0
    {
      ClaimsAreCounted(p, size, members, schedule, f, t);
    }
  }
}
