/** What blocks of wallet and voting transactions do to the sum of all amounts, over every run. */
module Conservation {
  import opened Wrappers
  import opened SharedMap
  import opened Block
  import opened Decimal
  import opened Ledger
  import opened ContractBlocks
  import Wallet
  import Voting
  import ECommerce
  import WorkerMachine

  function AmountOf(text: string): int {
    if Stoi(text).Some? then Stoi(text).value else 0
  }

  /** By how much a successful transaction changes the sum.  Moving an amount leaves it fixed,
      except from a name to itself; a registration replaces what the committed state had. */
  function Delta(view: View, c: Contract): int {
    match c
    case UnknownFamily => 0
    case ShopTxn(_) => 0
    case WalletTxn(op) => (
      match op
      case Deposit(_, value) => AmountOf(value)
      case Withdraw(_, value) => -AmountOf(value)
      case Transfer(name1, name2, value) => if name1 == name2 then AmountOf(value) else 0
      case Rejected => 0)
    case VoteTxn(vote) => (
      match vote
      case RegisterVoter(name) => 1 - Amount(view, map[], name)
      case RegisterCandidate(name) => 0 - Amount(view, map[], name)
      case TransferVote(source, target, count) => if source == target then AmountOf(count) else 0
      case CastVote(voter, candidate) => if voter == candidate then 1 else 0
      case Rejected => 0)
  }

  ghost predicate AllIn(keys: set<string>, names: seq<string>) {
    forall k :: k in keys ==> k in names
  }

  ghost predicate NoneIn(keys: set<string>, names: seq<string>) {
    forall i :: 0 <= i < |names| ==> names[i] !in keys
  }

  /** The names cover a wallet or voting call, and are not addresses of the shop. */
  ghost predicate Covers(names: seq<string>, c: Contract) {
    if c.WalletTxn? || c.VoteTxn? then AllIn(Touched(c), names) else NoneIn(Touched(c), names)
  }

  ghost predicate AllCovered(names: seq<string>, calls: seq<Contract>) {
    forall t :: 0 <= t < |calls| ==> Covers(names, calls[t])
  }

  /* ----- one transaction ----- */

  lemma {:induction false} WalletChange(view: View, op: Wallet.Op, m: Store, names: seq<string>)
    requires DistinctNames(names) && AllIn(Wallet.Names(op), names)
    ensures var r := Wallet.Effect(view, op, m);
            Total(view, r.store, names) == Total(view, m, names) + if r.ok then Delta(view, WalletTxn(op)) else 0
  {
    hide Wallet.Effect, Stoi, Total, Balance, DistinctNames;
    var r := Wallet.Effect(view, op, m);
    match op
    case Deposit(name, value) =>
      forall k
        ensures Amount(view, r.store, k)
                == if r.ok && k == name then Amount(view, m, name) + AmountOf(value) else Amount(view, m, k)
      {
        Wallet.DepositAndWithdraw(view, m, name, value, k);
      }
      Wallet.DepositAndWithdraw(view, m, name, value, name);
      TotalChange(view, m, r.store, names, name);
    case Withdraw(name, value) =>
      forall k
        ensures Amount(view, r.store, k)
                == if r.ok && k == name then Amount(view, m, name) - AmountOf(value) else Amount(view, m, k)
      {
        Wallet.DepositAndWithdraw(view, m, name, value, k);
      }
      Wallet.DepositAndWithdraw(view, m, name, value, name);
      TotalChange(view, m, r.store, names, name);
    case Transfer(name1, name2, value) => TransferChange(view, m, name1, name2, value, names);
    case Rejected => Wallet.RejectedEffect(view, m);
  }

  lemma {:induction false} TransferChange(view: View, m: Store, name1: string, name2: string, value: string, names: seq<string>)
    requires DistinctNames(names) && name1 in names && name2 in names
    ensures var r := Wallet.Effect(view, Wallet.Transfer(name1, name2, value), m);
            Total(view, r.store, names)
            == Total(view, m, names) + if r.ok && name1 == name2 then AmountOf(value) else 0
  {
    hide Wallet.Effect, Stoi, Total, Balance, DistinctNames;
    var r := Wallet.Effect(view, Wallet.Transfer(name1, name2, value), m);
    forall k ensures Amount(view, r.store, k)
                     == if r.ok && k == name2 then Amount(view, m, name2) + AmountOf(value)
                        else if r.ok && k == name1 then Amount(view, m, name1) - AmountOf(value)
                        else Amount(view, m, k)
    {
      Wallet.TransferMoves(view, m, name1, name2, value, k);
    }
    if name1 == name2 {
      TotalChange(view, m, r.store, names, name1);
    } else {
      TotalChangeTwo(view, m, r.store, names, name1, name2);
    }
  }

  lemma {:induction false} MoveChange(view: View, m: Store, source: string, target: string, amount: int, names: seq<string>)
    requires DistinctNames(names) && source in names && target in names
    ensures var r := Voting.Moved(view, source, target, amount, m);
            Total(view, r.store, names) == Total(view, m, names) + if r.ok && source == target then amount else 0
  {
    hide Voting.Moved, Total, Amount, DistinctNames;
    var r := Voting.Moved(view, source, target, amount, m);
    forall k ensures Amount(view, r.store, k)
                     == if r.ok && k == target then Amount(view, m, target) + amount
                        else if r.ok && k == source then Amount(view, m, source) - amount
                        else Amount(view, m, k)
    {
      Voting.MoveMeans(view, m, source, target, amount, k);
    }
    if source == target {
      TotalChange(view, m, r.store, names, source);
    } else {
      TotalChangeTwo(view, m, r.store, names, source, target);
    }
  }

  lemma {:induction false} RegisterChange(view: View, m: Store, name: string, names: seq<string>)
    requires DistinctNames(names) && name in names
    ensures var r := Voting.Effect(view, Voting.RegisterVoter(name), m);
            Total(view, r.store, names) == Total(view, m, names) + if r.ok then 1 - Amount(view, map[], name) else 0
    ensures var r := Voting.Effect(view, Voting.RegisterCandidate(name), m);
            Total(view, r.store, names) == Total(view, m, names) + if r.ok then 0 - Amount(view, map[], name) else 0
  {
    hide Total, DistinctNames, Voting.Effect, Stoi, StateBalance;
    var v, c := Voting.Effect(view, Voting.RegisterVoter(name), m), Voting.Effect(view, Voting.RegisterCandidate(name), m);
    forall k
      ensures Amount(view, v.store, k) == if v.ok && k == name then 1 else Amount(view, m, k)
      ensures Amount(view, c.store, k) == if c.ok && k == name then 0 else Amount(view, m, k)
    {
      Voting.RegistrationMeans(view, m, name, k);
    }
    Voting.RegistrationMeans(view, m, name, name);
    TotalChange(view, m, v.store, names, name);
    TotalChange(view, m, c.store, names, name);
    assert name !in m ==> Amount(view, m, name) == Amount(view, map[], name);
  }

  lemma {:induction false} VoteChange(view: View, vote: Voting.Op, m: Store, names: seq<string>)
    requires DistinctNames(names) && AllIn(Voting.Names(vote), names)
    ensures var r := Voting.Effect(view, vote, m);
            Total(view, r.store, names) == Total(view, m, names) + if r.ok then Delta(view, VoteTxn(vote)) else 0
  {
    hide Stoi, Total, Amount, DistinctNames, Voting.Moved, Voting.Registered;
    match vote
    case RegisterVoter(name) => RegisterChange(view, m, name, names);
    case RegisterCandidate(name) => RegisterChange(view, m, name, names);
    case TransferVote(source, target, count) =>
      if Stoi(count).Some? {
        MoveChange(view, m, source, target, Stoi(count).value, names);
      }
    case CastVote(voter, candidate) => MoveChange(view, m, voter, candidate, 1, names);
    case Rejected =>
  }

  lemma {:induction false} CallChange(view: View, c: Contract, m: Store, names: seq<string>)
    requires DistinctNames(names) && Covers(names, c)
    ensures var r := Effect(view, c, m);
            Total(view, r.store, names) == Total(view, m, names) + if r.ok then Delta(view, c) else 0
  {
    hide Total, DistinctNames, Wallet.Effect, Voting.Effect, AllIn;
    match c
    case WalletTxn(op) => WalletChange(view, op, m, names);
    case VoteTxn(vote) => VoteChange(view, vote, m, names);
    case ShopTxn(_) => ShopChange(view, c, m, names);
    case UnknownFamily =>
  }

  /** A shop call changes no amount under a name that is not its address. */
  lemma {:induction false} ShopChange(view: View, c: Contract, m: Store, names: seq<string>)
    requires c.ShopTxn? && NoneIn(Touched(c), names)
    ensures Total(view, Effect(view, c, m).store, names) == Total(view, m, names)
    ensures forall i :: 0 <= i < |names| ==> Amount(view, Effect(view, c, m).store, names[i]) == Amount(view, m, names[i])
  {
    hide Total, ECommerce.UpdateOf, Balance;
    var m' := Effect(view, c, m).store;
    forall i | 0 <= i < |names| ensures Amount(view, m', names[i]) == Amount(view, m, names[i]) {
      OtherEntry(view, c, m, names[i]);
    }
    TotalUnchanged(view, m, m', names);
  }

  lemma {:induction false} OtherEntry(view: View, c: Contract, m: Store, name: string)
    requires c.ShopTxn? && name !in Touched(c)
    ensures Balance(view, Effect(view, c, m).store, name) == Balance(view, m, name)
  {
    hide ECommerce.UpdateOf, Stoi;
  }

  /* ----- whole blocks ----- */

  function SumOfDeltas(view: View, calls: seq<Contract>): int {
    if calls == [] then 0
    else SumOfDeltas(view, calls[..|calls| - 1]) + Delta(view, calls[|calls| - 1])
  }

  lemma {:induction false} TotalInOrder(view: View, calls: seq<Contract>, names: seq<string>, start: Store)
    requires DistinctNames(names) && AllCovered(names, calls) && AllSucceed(view, calls, start)
    ensures Total(view, InOrder(view, calls, start), names) == Total(view, start, names) + SumOfDeltas(view, calls)
  {
    hide Covers, Delta, DistinctNames, Effect, Total;
    if calls != [] {
      TotalInOrder(view, calls[..|calls| - 1], names, start);
      CallChange(view, calls[|calls| - 1], InOrder(view, calls[..|calls| - 1], start), names);
    }
  }

  /** Over every successful run of a block, whatever the number of threads and the schedule,
      the sum of the amounts under any names that cover the block's wallet and voting
      transactions changes by exactly what those transactions deposit, withdraw and register. */
  lemma {:induction false} RunConservesTotal(view: View, b: Txns, calls: seq<Contract>, names: seq<string>,
                                             start: Store, threads: nat, schedule: seq<nat>)
    requires DistinctNames(names) && AllCarry(view, b, calls) && AllCovered(names, calls) && threads >= 1
    requires WorkerMachine.AllExited(WorkerMachine.After(WorkerMachine.WholeBlock(b, start), threads, schedule))
    ensures var s := WorkerMachine.After(WorkerMachine.WholeBlock(b, start), threads, schedule);
            s.flag ==> Total(view, s.core.store, names) == Total(view, start, names) + SumOfDeltas(view, calls)
  {
    hide WorkerMachine.After, WorkerMachine.AllExited, DistinctNames, AllCarry, AllCovered, InOrder, AllSucceed, Total;
    ContractRunIsSerial(view, b, calls, start, threads, schedule);
    if AllSucceed(view, calls, start) {
      TotalInOrder(view, calls, names, start);
    }
  }

  /** A call that moves an amount from one name to another. */
  predicate IsMove(c: Contract) {
    (c.WalletTxn? && c.op.Transfer?) || (c.VoteTxn? && (c.vote.TransferVote? || c.vote.CastVote?))
  }

  predicate DifferentSides(c: Contract)
    requires IsMove(c)
  {
    if c.WalletTxn? then c.op.name1 != c.op.name2
    else if c.vote.CastVote? then c.vote.voter != c.vote.candidate
    else c.vote.source != c.vote.target
  }

  function MovedAmount(c: Contract): int
    requires IsMove(c)
  {
    if c.WalletTxn? then AmountOf(c.op.value) else if c.vote.CastVote? then 1 else AmountOf(c.vote.count)
  }

  /** A successful move leaves the sum of all amounts fixed exactly when its two names differ or
      it moves nothing. */
  lemma {:induction false} MovesConserve(view: View, c: Contract, m: Store, names: seq<string>)
    requires DistinctNames(names) && Covers(names, c) && IsMove(c) && Effect(view, c, m).ok
    ensures Total(view, Effect(view, c, m).store, names) == Total(view, m, names)
            <==> DifferentSides(c) || MovedAmount(c) == 0
  {
    hide Total, Effect, DistinctNames, Covers, AmountOf;
    CallChange(view, c, m, names);
  }

  lemma {:induction false} NoDeltas(view: View, calls: seq<Contract>)
    requires forall t :: 0 <= t < |calls| ==> IsMove(calls[t]) && (DifferentSides(calls[t]) || MovedAmount(calls[t]) == 0)
    ensures SumOfDeltas(view, calls) == 0
  {
    if calls != [] {
      NoDeltas(view, calls[..|calls| - 1]);
    }
  }

  /** A block of moves between different names leaves the sum fixed over every successful run,
      under every schedule. */
  lemma {:induction false} MovesLeaveTotalFixed(view: View, b: Txns, calls: seq<Contract>, names: seq<string>,
                                                start: Store, threads: nat, schedule: seq<nat>)
    requires DistinctNames(names) && AllCarry(view, b, calls) && AllCovered(names, calls) && threads >= 1
    requires forall t :: 0 <= t < |calls| ==> IsMove(calls[t]) && (DifferentSides(calls[t]) || MovedAmount(calls[t]) == 0)
    requires WorkerMachine.AllExited(WorkerMachine.After(WorkerMachine.WholeBlock(b, start), threads, schedule))
    ensures var s := WorkerMachine.After(WorkerMachine.WholeBlock(b, start), threads, schedule);
            s.flag ==> Total(view, s.core.store, names) == Total(view, start, names)
  {
    hide WorkerMachine.After, WorkerMachine.AllExited, DistinctNames, AllCarry, AllCovered, Total, SumOfDeltas;
    RunConservesTotal(view, b, calls, names, start, threads, schedule);
    NoDeltas(view, calls);
  }

  /** A concrete self-transfer that makes money. */
  lemma {:induction false} SelfTransferMakesMoney()
    ensures var r := Wallet.Effect((k: string) => "", Wallet.Transfer("a", "a", "5"), map["a" := "7"]);
            r.ok && Balance((k: string) => "", r.store, "a") == Some(12)
  {
    var view := (k: string) => "";
    var m := map["a" := "7"];
    assert ToString(7) == "7" && ToString(5) == "5";
    PrintedIsParsed(7);
    PrintedIsParsed(5);
    Wallet.TransferMoves(view, m, "a", "a", "5", "a");
  }

  /* ----- no debts ----- */

  ghost predicate NoDebts(view: View, m: Store, names: seq<string>) {
    forall i :: 0 <= i < |names| ==> Amount(view, m, names[i]) >= 0
  }

  /** The amounts the transaction mentions are not negative. */
  predicate NonNegative(k: Contract) {
    match k
    case UnknownFamily => true
    case ShopTxn(_) => true
    case WalletTxn(op) => op.Rejected? || AmountOf(op.value) >= 0
    case VoteTxn(vote) => vote.TransferVote? ==> AmountOf(vote.count) >= 0
  }

  lemma {:induction false} WalletKeepsNoDebts(view: View, op: Wallet.Op, m: Store, k: string)
    requires NonNegative(WalletTxn(op)) && Amount(view, m, k) >= 0
    requires forall n :: n in Wallet.Names(op) ==> Amount(view, m, n) >= 0
    ensures Amount(view, Wallet.Effect(view, op, m).store, k) >= 0
  {
    hide Wallet.Effect, Stoi, Balance;
    match op
    case Deposit(name, value) => Wallet.DepositAndWithdraw(view, m, name, value, k);
    case Withdraw(name, value) => Wallet.DepositAndWithdraw(view, m, name, value, k);
    case Transfer(name1, name2, value) =>
      assert name2 in Wallet.Names(op);
      Wallet.TransferMoves(view, m, name1, name2, value, k);
    case Rejected => Wallet.RejectedEffect(view, m);
  }

  lemma {:induction false} VoteKeepsNoDebts(view: View, vote: Voting.Op, m: Store, k: string)
    requires NonNegative(VoteTxn(vote)) && Amount(view, m, k) >= 0
    requires forall n :: n in Voting.Names(vote) ==> Amount(view, m, n) >= 0
    ensures Amount(view, Voting.Effect(view, vote, m).store, k) >= 0
  {
    hide Stoi, Amount, Voting.Moved, Voting.Registered;
    match vote
    case RegisterVoter(name) => Voting.RegistrationMeans(view, m, name, k);
    case RegisterCandidate(name) => Voting.RegistrationMeans(view, m, name, k);
    case TransferVote(source, target, count) =>
      if Stoi(count).Some? {
        assert target in Voting.Names(vote);
        Voting.MoveMeans(view, m, source, target, Stoi(count).value, k);
      }
    case CastVote(voter, candidate) =>
      assert candidate in Voting.Names(vote);
      Voting.MoveMeans(view, m, voter, candidate, 1, k);
    case Rejected =>
  }

  lemma {:induction false} CallKeepsNoDebts(view: View, c: Contract, m: Store, names: seq<string>)
    requires Covers(names, c) && NonNegative(c) && NoDebts(view, m, names)
    ensures NoDebts(view, Effect(view, c, m).store, names)
  {
    hide NonNegative, Amount, Wallet.Effect, Voting.Effect, ECommerce.Effect, Wallet.Names, Voting.Names, ECommerce.Address;
    match c
    case WalletTxn(op) =>
      forall i | 0 <= i < |names| ensures Amount(view, Effect(view, c, m).store, names[i]) >= 0 {
        WalletKeepsNoDebts(view, op, m, names[i]);
      }
    case VoteTxn(vote) =>
      forall i | 0 <= i < |names| ensures Amount(view, Effect(view, c, m).store, names[i]) >= 0 {
        VoteKeepsNoDebts(view, vote, m, names[i]);
      }
    case ShopTxn(_) => ShopChange(view, c, m, names);
    case UnknownFamily =>
  }

  lemma {:induction false} NoDebtsInOrder(view: View, calls: seq<Contract>, names: seq<string>, start: Store)
    requires AllCovered(names, calls) && NoDebts(view, start, names)
    requires forall t :: 0 <= t < |calls| ==> NonNegative(calls[t])
    ensures NoDebts(view, InOrder(view, calls, start), names)
  {
    hide Covers, NonNegative, Effect, NoDebts;
    if calls != [] {
      NoDebtsInOrder(view, calls[..|calls| - 1], names, start);
      CallKeepsNoDebts(view, calls[|calls| - 1], InOrder(view, calls[..|calls| - 1], start), names);
    }
  }

  /** With non-negative amounts no successful run, under any schedule, leaves a negative balance. */
  lemma {:induction false} RunLeavesNoDebts(view: View, b: Txns, calls: seq<Contract>, names: seq<string>,
                                            start: Store, threads: nat, schedule: seq<nat>)
    requires AllCarry(view, b, calls) && AllCovered(names, calls) && threads >= 1 && NoDebts(view, start, names)
    requires forall t :: 0 <= t < |calls| ==> NonNegative(calls[t])
    requires WorkerMachine.AllExited(WorkerMachine.After(WorkerMachine.WholeBlock(b, start), threads, schedule))
    ensures var s := WorkerMachine.After(WorkerMachine.WholeBlock(b, start), threads, schedule);
            s.flag ==> NoDebts(view, s.core.store, names)
  {
    hide WorkerMachine.After, WorkerMachine.AllExited, AllCarry, AllCovered, NoDebts, NonNegative, InOrder, AllSucceed;
    ContractRunIsSerial(view, b, calls, start, threads, schedule);
    NoDebtsInOrder(view, calls, names, start);
  }
}
