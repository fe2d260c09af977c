/** Blocks whose transactions are contract calls: the schedulers' theorems apply to them. */
module ContractBlocks {
  import opened SharedMap
  import opened Block
  import opened Program
  import opened Ledger
  import Wallet
  import Voting
  import ECommerce
  import Assignment
  import Cluster
  import ClusterTheorems
  import WorkerMachine
  import ParallelTheorems

  /** The family and the call; another family name fails without touching the map. */
  datatype Contract =
    | WalletTxn(op: Wallet.Op)
    | VoteTxn(vote: Voting.Op)
    | ShopTxn(call: ECommerce.Op)
    | UnknownFamily

  function Dispatch(view: View, c: Contract): Prog {
    match c
    case WalletTxn(op) => Wallet.Process(view, op)
    case VoteTxn(vote) => Voting.Process(view, vote)
    case ShopTxn(call) => ECommerce.Process(view, call)
    case UnknownFamily => Done(false)
  }

  function Effect(view: View, c: Contract, m: Store): Outcome {
    match c
    case WalletTxn(op) => Wallet.Effect(view, op, m)
    case VoteTxn(vote) => Voting.Effect(view, vote, m)
    case ShopTxn(call) => ECommerce.Effect(view, call, m)
    case UnknownFamily => Outcome(false, m)
  }

  /** The addresses the call can touch. */
  function Touched(c: Contract): set<string> {
    match c
    case WalletTxn(op) => Wallet.Names(op)
    case VoteTxn(vote) => Voting.Names(vote)
    case ShopTxn(call) => ECommerce.Address(call)
    case UnknownFamily => {}
  }

  /** The transaction carries this call, and its header declares what the call touches. */
  ghost predicate Carries(view: View, x: Txn, c: Contract) {
    x.code == CodeOf(Dispatch(view, c)) && Touched(c) <= Outputs(x)
  }

  ghost predicate AllCarry(view: View, b: Txns, calls: seq<Contract>) {
    |calls| == |b| && forall t :: 0 <= t < |b| ==> Carries(view, b[t], calls[t])
  }

  /** Such a transaction is a bounded payload within what its call touches, and run alone it has
      the effect of the call. */
  lemma {:induction false} CallIsPayload(view: View, x: Txn, c: Contract)
    requires Carries(view, x, c)
    ensures Bounded(x.code) && Within(x.code, Touched(c), Touched(c)) && Within(x.code, Reads(x), Outputs(x))
    ensures forall m :: Exec(x.code, [], m) == Effect(view, c, m)
  {
    hide Wallet.Process, Voting.Process, ECommerce.Process, Wallet.Effect, Voting.Effect, ECommerce.Effect, Run;
    forall m ensures Exec(x.code, [], m) == Effect(view, c, m) {
      match c
      case WalletTxn(op) =>
        Wallet.WalletPayload(view, op, Touched(c));
        Wallet.VerbHasEffect(view, op, m);
      case VoteTxn(vote) =>
        Voting.VotingPayload(view, vote, Touched(c));
        Voting.VerbHasEffect(view, vote, m);
      case ShopTxn(call) =>
        ECommerce.ShopPayload(view, call, Touched(c));
        ECommerce.VerbHasEffect(view, call, m);
      case UnknownFamily =>
    }
    match c
    case WalletTxn(op) => Wallet.WalletPayload(view, op, Touched(c));
    case VoteTxn(vote) => Voting.VotingPayload(view, vote, Touched(c));
    case ShopTxn(call) => ECommerce.ShopPayload(view, call, Touched(c));
    case UnknownFamily =>
  }

  lemma {:induction false} CallsAreWellDeclared(view: View, b: Txns, calls: seq<Contract>)
    requires AllCarry(view, b, calls)
    ensures WellDeclared(b)
  {
    hide Carries;
    forall t | 0 <= t < |b| ensures Bounded(b[t].code) && Within(b[t].code, Reads(b[t]), Outputs(b[t])) {
      CallIsPayload(view, b[t], calls[t]);
    }
  }

  /** The calls one after the other, in block order. */
  function InOrder(view: View, calls: seq<Contract>, start: Store): Store {
    if calls == [] then start
    else Effect(view, calls[|calls| - 1], InOrder(view, calls[..|calls| - 1], start)).store
  }

  predicate AllSucceed(view: View, calls: seq<Contract>, start: Store) {
    calls == []
    || (AllSucceed(view, calls[..|calls| - 1], start)
        && Effect(view, calls[|calls| - 1], InOrder(view, calls[..|calls| - 1], start)).ok)
  }

  lemma {:induction false} SerialIsInOrder(view: View, b: Txns, calls: seq<Contract>, start: Store, j: nat)
    requires AllCarry(view, b, calls) && j <= |b|
    ensures Serial(b, j, start) == InOrder(view, calls[..j], start)
    ensures AllSucceed(view, calls[..j], start) <==> forall t: nat :: t < j ==> SerialOk(b, t, start)
  {
    hide Carries, Effect, Exec;
    if j > 0 {
      SerialIsInOrder(view, b, calls, start, j - 1);
      assert calls[..j][..j-1] == calls[..j-1];
      CallIsPayload(view, b[j-1], calls[j-1]);
      assert SerialOk(b, j - 1, start) == Effect(view, calls[j-1], InOrder(view, calls[..j-1], start)).ok;
      assert (forall t: nat :: t < j ==> SerialOk(b, t, start))
             <==> (forall t: nat :: t < j - 1 ==> SerialOk(b, t, start)) && SerialOk(b, j - 1, start);
    } else {
      assert calls[..0] == [];
    }
  }

  /** For every block of contract calls whose touched addresses are declared, every number of
      worker threads and every interleaving of their accesses: when all have returned, the
      verdict is that of making the calls one after the other, and if it is true so is the map. */
  lemma {:induction false} ContractRunIsSerial(view: View, b: Txns, calls: seq<Contract>, start: Store,
                                               threads: nat, schedule: seq<nat>)
    requires AllCarry(view, b, calls) && threads >= 1
    requires WorkerMachine.AllExited(WorkerMachine.After(WorkerMachine.WholeBlock(b, start), threads, schedule))
    ensures var s := WorkerMachine.After(WorkerMachine.WholeBlock(b, start), threads, schedule);
            && (s.flag <==> AllSucceed(view, calls, start))
            && (s.flag ==> s.core.store == InOrder(view, calls, start))
  {
    hide AllCarry, WorkerMachine.After, WorkerMachine.AllExited, Serial, InOrder, AllSucceed, SerialOk;
    CallsAreWellDeclared(view, b, calls);
    ParallelTheorems.ParallelRunIsSerial(b, start, threads, schedule);
    SameLength(view, b, calls);
    SerialIsInOrder(view, b, calls, start, |b|);
    assert calls[..|b|] == calls;
  }

  lemma {:induction false} SameLength(view: View, b: Txns, calls: seq<Contract>)
    requires AllCarry(view, b, calls)
    ensures |calls| == |b|
  {
  }

  /** For every block of contract calls, every split of its components over followers and every
      interleaving of leader and followers: what the leader merges after finish updates the
      state as making the calls one after the other would. */
  lemma {:induction false} ContractClusterIsSerial(view: View, p: Cluster.Plan, calls: seq<Contract>, size: nat, members: nat,
                                                   schedule: seq<Cluster.Event>, state: Store, pairs: seq<(string, string)>)
    requires AllCarry(view, p.txns, calls) && Assignment.Dealt(p.txns, p.table, p.owners)
    requires var s := Cluster.After(p, size, members, schedule);
             s.run == Cluster.Finish && ClusterTheorems.ReadsAll(s, pairs)
    ensures AllSucceed(view, calls, map[])
    ensures Assignment.InsertPairs(state, pairs) == state + InOrder(view, calls, map[])
  {
    hide AllCarry, Serial, InOrder, AllSucceed, SerialOk, ClusterTheorems.ReadsAll, Assignment.InsertPairs, Cluster.Step;
    CallsAreWellDeclared(view, p.txns, calls);
    ClusterTheorems.FinishMeansDone(p, size, members, schedule);
    ClusterTheorems.MergeAfterFinishIsSerial(p, size, members, schedule, state, pairs);
    SameLength(view, p.txns, calls);
    SerialIsInOrder(view, p.txns, calls, map[], |p.txns|);
    assert calls[..|p.txns|] == calls;
  }
}
