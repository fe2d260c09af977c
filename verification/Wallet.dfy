/** The wallet contract. */
module Wallet {
  import opened Wrappers
  import opened SharedMap
  import opened Decimal
  import opened Program
  import opened Ledger

  datatype Op =
    | Deposit(name: string, value: string)
    | Withdraw(name: string, value: string)
    | Transfer(name1: string, name2: string, value: string)
    | Rejected

  /** The verb and its arguments; anything else fails before the map is touched. */
  function Parse(p: Payload): Op {
    var verb, value := Field(p, "Verb"), Field(p, "Value");
    if verb == Some("deposit") && Field(p, "Name").Some? && value.Some? then
      Deposit(Field(p, "Name").value, value.value)
    else if verb == Some("withdraw") && Field(p, "Name").Some? && value.Some? then
      Withdraw(Field(p, "Name").value, value.value)
    else if verb == Some("transfer") && Field(p, "Name1").Some? && Field(p, "Name2").Some? && value.Some? then
      Transfer(Field(p, "Name1").value, Field(p, "Name2").value, value.value)
    else Rejected
  }

  function Names(op: Op): set<string> {
    match op
    case Deposit(name, _) => {name}
    case Withdraw(name, _) => {name}
    case Transfer(name1, name2, _) => {name1, name2}
    case Rejected => {}
  }

  /* ----- the verbs, access by access ----- */

  function GetOrLoadBalance(view: View, name: string, use: int -> Prog): Prog {
    Step(Find(name), (seen: Option<string>) =>
      if seen.Some? then (if Stoi(seen.value).Some? then use(Stoi(seen.value).value) else Done(false))
      else if StateBalance(view, name).None? then Done(false)
      else Step(Insert(name, ToString(StateBalance(view, name).value)),
                (_: Option<string>) => use(StateBalance(view, name).value)))
  }

  function DepositInto(name: string, value: string): int -> Prog {
    (balance: int) =>
      if Stoi(value).None? then Done(false)
      else Step(Write(name, ToString(balance + Stoi(value).value)), (_: Option<string>) => Done(true))
  }

  function WithdrawFrom(name: string, value: string): int -> Prog {
    (balance: int) =>
      if Stoi(value).None? then Done(false)
      else if balance >= Stoi(value).value then
        Step(Write(name, ToString(balance - Stoi(value).value)), (_: Option<string>) => Done(true))
      else Done(false)
  }

  function Pay(name1: string, name2: string, amount: int, balance1: int): int -> Prog {
    (balance2: int) =>
      if balance1 >= amount then
        Step(Write(name1, ToString(balance1 - amount)), (_: Option<string>) =>
          Step(Write(name2, ToString(balance2 + amount)), (_: Option<string>) => Done(true)))
      else Done(false)
  }

  function TransferTo(view: View, name1: string, name2: string, amount: int): int -> Prog {
    (balance1: int) => GetOrLoadBalance(view, name2, Pay(name1, name2, amount, balance1))
  }

  /** ProcessTxn; an exception means the transaction fails. */
  function Process(view: View, op: Op): Prog {
    match op
    case Deposit(name, value) => GetOrLoadBalance(view, name, DepositInto(name, value))
    case Withdraw(name, value) => GetOrLoadBalance(view, name, WithdrawFrom(name, value))
    case Transfer(name1, name2, value) =>
      if Stoi(value).None? then Done(false)
      else GetOrLoadBalance(view, name1, TransferTo(view, name1, name2, Stoi(value).value))
    case Rejected => Done(false)
  }

  lemma {:induction false} LoadIsConfined(view: View, name: string, use: int -> Prog, keys: set<string>, n: nat)
    requires name in keys && forall v :: Confined(use(v), keys, n)
    ensures Confined(GetOrLoadBalance(view, name, use), keys, n + 2)
  {
    var p := GetOrLoadBalance(view, name, use);
    forall seen: Option<string> ensures Confined(p.next(seen), keys, n + 1) {
      if seen.Some? && Stoi(seen.value).Some? {
        ConfinedMore(use(Stoi(seen.value).value), keys, n, n + 1);
      } else if seen.None? && StateBalance(view, name).Some? {
        var v := StateBalance(view, name).value;
        assert forall x :: p.next(seen).next(x) == use(v);
      }
    }
  }

  /** Every verb makes at most six accesses, to the names it mentions. */
  lemma {:induction false} VerbsAreConfined(view: View, op: Op)
    ensures Confined(Process(view, op), Names(op), 6)
  {
    match op
    case Deposit(name, value) =>
      forall v ensures Confined(DepositInto(name, value)(v), {name}, 1) {
      }
      LoadIsConfined(view, name, DepositInto(name, value), {name}, 1);
      ConfinedMore(Process(view, op), {name}, 3, 6);
    case Withdraw(name, value) =>
      forall v ensures Confined(WithdrawFrom(name, value)(v), {name}, 1) {
      }
      LoadIsConfined(view, name, WithdrawFrom(name, value), {name}, 1);
      ConfinedMore(Process(view, op), {name}, 3, 6);
    case Transfer(name1, name2, value) =>
      if Stoi(value).Some? {
        PayIsConfined(view, name1, name2, Stoi(value).value);
        LoadIsConfined(view, name1, TransferTo(view, name1, name2, Stoi(value).value), {name1, name2}, 4);
      }
    case Rejected =>
  }

  lemma {:induction false} PayIsConfined(view: View, name1: string, name2: string, amount: int)
    ensures forall v, w :: Confined(Pay(name1, name2, amount, v)(w), {name1, name2}, 2)
    ensures forall v :: Confined(TransferTo(view, name1, name2, amount)(v), {name1, name2}, 4)
  {
    var keys := {name1, name2};
    forall v, w ensures Confined(Pay(name1, name2, amount, v)(w), keys, 2) {
      var p := Pay(name1, name2, amount, v)(w);
      if v >= amount {
        forall x ensures Confined(p.next(x), keys, 1) {
          assert forall y :: p.next(x).next(y) == Done(true);
        }
      }
    }
    forall v ensures Confined(TransferTo(view, name1, name2, amount)(v), keys, 4) {
      LoadIsConfined(view, name2, Pay(name1, name2, amount, v), keys, 2);
    }
  }

  /** A transaction whose header declares its names as outputs is a well-declared payload. */
  lemma {:induction false} WalletPayload(view: View, op: Op, outputs: set<string>)
    requires Names(op) <= outputs
    ensures Bounded(CodeOf(Process(view, op))) && Within(CodeOf(Process(view, op)), outputs, outputs)
    ensures forall m :: Exec(CodeOf(Process(view, op)), [], m) == Result(Process(view, op), m)
  {
    VerbsAreConfined(view, op);
    ConfinedMoreKeys(Process(view, op), Names(op), outputs, 6);
    ConfinedCode(Process(view, op), outputs, 6);
    forall m ensures Exec(CodeOf(Process(view, op)), [], m) == Result(Process(view, op), m) {
      ExecIsRun(Process(view, op), Names(op), 6, m);
    }
  }

  /* ----- what the verbs come to ----- */

  /** The map after a balance has been looked up: it is there from then on. */
  function Loaded(view: View, m: Store, name: string): Store {
    if name in m || Balance(view, m, name).None? then m else Put(m, name, Balance(view, m, name).value)
  }

  function Effect(view: View, op: Op, m: Store): Outcome {
    match op
    case Deposit(name, value) => (
      var balance, amount := Balance(view, m, name), Stoi(value);
      if balance.None? || amount.None? then Outcome(false, Loaded(view, m, name))
      else Outcome(true, Put(m, name, balance.value + amount.value)))
    case Withdraw(name, value) => (
      var balance, amount := Balance(view, m, name), Stoi(value);
      if balance.None? || amount.None? || balance.value < amount.value then Outcome(false, Loaded(view, m, name))
      else Outcome(true, Put(m, name, balance.value - amount.value)))
    case Transfer(name1, name2, value) => (
      var amount, balance1, m1 := Stoi(value), Balance(view, m, name1), Loaded(view, m, name1);
      if amount.None? then Outcome(false, m)
      else if balance1.None? then Outcome(false, m1)
      else
        var balance2, m2 := Balance(view, m1, name2), Loaded(view, m1, name2);
        if balance2.None? || balance1.value < amount.value then Outcome(false, m2)
        else Outcome(true, Put(Put(m2, name1, balance1.value - amount.value), name2, balance2.value + amount.value)))
    case Rejected => Outcome(false, m)
  }

  lemma {:induction false} LoadRuns(view: View, name: string, use: int -> Prog, keys: set<string>, n: nat, m: Store)
    requires name in keys && n + 2 <= MAX_ACCESSES && forall v :: Confined(use(v), keys, n)
    ensures Result(GetOrLoadBalance(view, name, use), m)
            == if Balance(view, m, name).None? then Outcome(false, m)
               else Result(use(Balance(view, m, name).value), Loaded(view, m, name))
  {
    var p := GetOrLoadBalance(view, name, use);
    var seen := Look(m, name);
    LoadIsConfined(view, name, use, keys, n);
    ResultStep(p, keys, n + 2, m);
    assert Confined(p.next(seen), keys, n + 1);
    if name !in m && Balance(view, m, name).Some? {
      ResultStep(p.next(seen), keys, n + 1, m);
    }
  }

  lemma {:induction false} DepositRuns(view: View, name: string, value: string, m: Store)
    ensures Result(Process(view, Deposit(name, value)), m) == Effect(view, Deposit(name, value), m)
  {
    hide Stoi, ToString, Balance, GetOrLoadBalance, Run;
    var use := DepositInto(name, value);
    forall v ensures Confined(use(v), {name}, 1) {
    }
    LoadRuns(view, name, use, {name}, 1, m);
    if Balance(view, m, name).Some? {
      ShortRun(use(Balance(view, m, name).value), {name}, Loaded(view, m, name));
      PutWhereLoaded(view, m, name);
    }
  }

  lemma {:induction false} WithdrawRuns(view: View, name: string, value: string, m: Store)
    ensures Result(Process(view, Withdraw(name, value)), m) == Effect(view, Withdraw(name, value), m)
  {
    hide Stoi, ToString, Balance, GetOrLoadBalance, Run;
    var use := WithdrawFrom(name, value);
    forall v ensures Confined(use(v), {name}, 1) {
    }
    LoadRuns(view, name, use, {name}, 1, m);
    if Balance(view, m, name).Some? {
      ShortRun(use(Balance(view, m, name).value), {name}, Loaded(view, m, name));
      PutWhereLoaded(view, m, name);
    }
  }

  /** A program of at most one access. */
  lemma {:induction false} ShortRun(p: Prog, keys: set<string>, m: Store)
    requires Confined(p, keys, 1)
    ensures p.Done? ==> Result(p, m) == Outcome(p.ok, m)
    ensures !p.Done? ==> p.next(Look(m, p.action.key)).Done?
                         && Result(p, m) == Outcome(p.next(Look(m, p.action.key)).ok, Apply(p.action, m))
  {
    if !p.Done? {
      ResultStep(p, keys, 1, m);
      assert Confined(p.next(Look(m, p.action.key)), keys, 0);
    }
  }

  lemma {:induction false} PutWhereLoaded(view: View, m: Store, name: string)
    ensures forall amount :: Put(Loaded(view, m, name), name, amount) == Put(m, name, amount)
  {
  }

  /** The accesses of a verb, made without interruption, come to its effect. */
  lemma {:induction false} VerbHasEffect(view: View, op: Op, m: Store)
    ensures Result(Process(view, op), m) == Effect(view, op, m)
  {
    hide Stoi, ToString, Balance, GetOrLoadBalance;
    match op
    case Deposit(name, value) => DepositRuns(view, name, value, m);
    case Withdraw(name, value) => WithdrawRuns(view, name, value, m);
    case Transfer(name1, name2, value) =>
      if Stoi(value).Some? {
        TransferRuns(view, name1, name2, Stoi(value).value, m);
      }
    case Rejected =>
  }

  lemma {:induction false} TransferRuns(view: View, name1: string, name2: string, amount: int, m: Store)
    ensures Result(GetOrLoadBalance(view, name1, TransferTo(view, name1, name2, amount)), m)
            == (var balance1, m1 := Balance(view, m, name1), Loaded(view, m, name1);
                if balance1.None? then Outcome(false, m1)
                else
                  var balance2, m2 := Balance(view, m1, name2), Loaded(view, m1, name2);
                  if balance2.None? || balance1.value < amount then Outcome(false, m2)
                  else Outcome(true, Put(Put(m2, name1, balance1.value - amount), name2, balance2.value + amount)))
  {
    var keys := {name1, name2};
    PayIsConfined(view, name1, name2, amount);
    LoadRuns(view, name1, TransferTo(view, name1, name2, amount), keys, 4, m);
    if Balance(view, m, name1).Some? {
      var balance1, m1 := Balance(view, m, name1).value, Loaded(view, m, name1);
      var pay := Pay(name1, name2, amount, balance1);
      LoadRuns(view, name2, pay, keys, 2, m1);
      if Balance(view, m1, name2).Some? && balance1 >= amount {
        var p := pay(Balance(view, m1, name2).value);
        var m2 := Loaded(view, m1, name2);
        ResultStep(p, keys, 2, m2);
        assert Confined(p.next(Look(m2, name1)), keys, 1);
        ResultStep(p.next(Look(m2, name1)), keys, 1, Apply(p.action, m2));
      }
    }
  }

  /* ----- what the verbs mean for the balances ----- */

  lemma {:induction false} LoadingKeepsBalances(view: View, m: Store, name: string, other: string)
    ensures Balance(view, Loaded(view, m, name), other) == Balance(view, m, other)
  {
    if name !in m && Balance(view, m, name).Some? {
      PutThenBalance(view, m, name, Balance(view, m, name).value, other);
    }
  }

  /** A deposit succeeds exactly when the balance and the amount are numbers, and then adds the
      amount; a withdrawal needs the money as well.  No other balance changes. */
  lemma {:induction false} DepositAndWithdraw(view: View, m: Store, name: string, value: string, other: string)
    ensures var r := Effect(view, Deposit(name, value), m);
            && (r.ok <==> Balance(view, m, name).Some? && Stoi(value).Some?)
            && Balance(view, r.store, other)
               == if r.ok && other == name then Some(Balance(view, m, name).value + Stoi(value).value)
                  else Balance(view, m, other)
    ensures var r := Effect(view, Withdraw(name, value), m);
            && (r.ok <==> Balance(view, m, name).Some? && Stoi(value).Some?
                          && Balance(view, m, name).value >= Stoi(value).value)
            && Balance(view, r.store, other)
               == if r.ok && other == name then Some(Balance(view, m, name).value - Stoi(value).value)
                  else Balance(view, m, other)
  {
    hide Balance, Loaded, Put, Stoi, ToString;
    LoadingKeepsBalances(view, m, name, other);
    var b, a := Balance(view, m, name), Stoi(value);
    if b.Some? && a.Some? {
      PutThenBalance(view, m, name, b.value + a.value, other);
      PutThenBalance(view, m, name, b.value - a.value, other);
    }
  }

  /** A transfer succeeds exactly when both balances and the amount are numbers and the payer has
      the money.  Between different names it moves the amount; from a name to itself the second
      write wins and the amount is added. */
  lemma {:induction false} TransferMoves(view: View, m: Store, name1: string, name2: string, value: string, other: string)
    ensures var r := Effect(view, Transfer(name1, name2, value), m);
            && (r.ok <==> Balance(view, m, name1).Some? && Balance(view, m, name2).Some? && Stoi(value).Some?
                          && Balance(view, m, name1).value >= Stoi(value).value)
            && Balance(view, r.store, other)
               == if r.ok && other == name2 then Some(Balance(view, m, name2).value + Stoi(value).value)
                  else if r.ok && other == name1 then Some(Balance(view, m, name1).value - Stoi(value).value)
                  else Balance(view, m, other)
  {
    hide Balance, Loaded, Put, Stoi, ToString;
    var m1 := Loaded(view, m, name1);
    var m2 := Loaded(view, m1, name2);
    LoadingKeepsBalances(view, m, name1, other);
    LoadingKeepsBalances(view, m, name1, name2);
    LoadingKeepsBalances(view, m1, name2, other);
    var b1, b2, a := Balance(view, m, name1), Balance(view, m, name2), Stoi(value);
    if b1.Some? && b2.Some? && a.Some? {
      PutThenBalance(view, m2, name1, b1.value - a.value, other);
      PutThenBalance(view, Put(m2, name1, b1.value - a.value), name2, b2.value + a.value, other);
    }
  }

  /* ----- what a payload does ----- */

  function Outcomes(view: View, p: Payload, m: Store): Outcome {
    Result(Process(view, Parse(p)), m)
  }

  /** The balance a payload with the verb deposit or withdraw changes is the one under its Name,
      and its Value is the amount. */
  lemma {:induction false} DepositPayload(view: View, f: map<string, string>, m: Store, other: string)
    requires Asks(Some(f), "deposit", {"Name", "Value"})
    ensures var r, b, v := Outcomes(view, Some(f), m), Balance(view, m, f["Name"]), Stoi(f["Value"]);
            && (r.ok <==> b.Some? && v.Some?)
            && Balance(view, r.store, other)
               == if r.ok && other == f["Name"] then Some(b.value + v.value) else Balance(view, m, other)
  {
    hide Balance, Effect, Process, Stoi, Run;
    VerbHasEffect(view, Parse(Some(f)), m);
    DepositAndWithdraw(view, m, f["Name"], f["Value"], other);
  }

  lemma {:induction false} WithdrawPayload(view: View, f: map<string, string>, m: Store, other: string)
    requires Asks(Some(f), "withdraw", {"Name", "Value"})
    ensures var r, b, v := Outcomes(view, Some(f), m), Balance(view, m, f["Name"]), Stoi(f["Value"]);
            && (r.ok <==> b.Some? && v.Some? && b.value >= v.value)
            && Balance(view, r.store, other)
               == if r.ok && other == f["Name"] then Some(b.value - v.value) else Balance(view, m, other)
  {
    hide Balance, Effect, Process, Stoi, Run;
    VerbHasEffect(view, Parse(Some(f)), m);
    DepositAndWithdraw(view, m, f["Name"], f["Value"], other);
  }

  /** A transfer is paid by Name1 to Name2. */
  lemma {:induction false} TransferPayload(view: View, f: map<string, string>, m: Store, other: string)
    requires Asks(Some(f), "transfer", {"Name1", "Name2", "Value"})
    ensures var r, v := Outcomes(view, Some(f), m), Stoi(f["Value"]);
            var b1, b2 := Balance(view, m, f["Name1"]), Balance(view, m, f["Name2"]);
            && (r.ok <==> b1.Some? && b2.Some? && v.Some? && b1.value >= v.value)
            && Balance(view, r.store, other)
               == if r.ok && other == f["Name2"] then Some(b2.value + v.value)
                  else if r.ok && other == f["Name1"] then Some(b1.value - v.value)
                  else Balance(view, m, other)
  {
    hide Balance, Effect, Process, Stoi, Run;
    VerbHasEffect(view, Parse(Some(f)), m);
    TransferMoves(view, m, f["Name1"], f["Name2"], f["Value"], other);
  }

  /** Any other payload fails and leaves the map untouched. */
  lemma {:induction false} OtherPayload(view: View, p: Payload, m: Store)
    requires !Asks(p, "deposit", {"Name", "Value"}) && !Asks(p, "withdraw", {"Name", "Value"})
             && !Asks(p, "transfer", {"Name1", "Name2", "Value"})
    ensures Outcomes(view, p, m) == Outcome(false, m)
  {
    assert Parse(p) == Rejected;
  }

  /** A deposit, on the entries themselves: a name the map and the state know nothing of starts
      from 0, a name in the map from its entry there, any other from its value in the state. */
  lemma {:induction false} DepositOnEntries(view: View, f: map<string, string>, m: Store)
    requires Asks(Some(f), "deposit", {"Name", "Value"}) && Stoi(f["Value"]).Some?
    ensures var r, name, v := Outcomes(view, Some(f), m), f["Name"], Stoi(f["Value"]).value;
            && (name !in m && view(name) == "" ==> r == Outcome(true, m[name := ToString(v)]))
            && (name in m && Stoi(m[name]).Some? ==>
                  r == Outcome(true, m[name := ToString(Stoi(m[name]).value + v)]))
            && (name !in m && view(name) != "" && Stoi(view(name)).Some? ==>
                  r == Outcome(true, m[name := ToString(Stoi(view(name)).value + v)]))
            && ((if name in m then Stoi(m[name]) == None else view(name) != "" && Stoi(view(name)) == None) ==>
                  r == Outcome(false, m))
  {
    hide Process, Stoi, ToString, Run;
    VerbHasEffect(view, Parse(Some(f)), m);
  }

  /** A transfer between two names of the map rewrites their two entries. */
  lemma {:induction false} TransferOnEntries(view: View, f: map<string, string>, m: Store)
    requires Asks(Some(f), "transfer", {"Name1", "Name2", "Value"}) && Stoi(f["Value"]).Some?
    requires f["Name1"] in m && f["Name2"] in m && Stoi(m[f["Name1"]]).Some? && Stoi(m[f["Name2"]]).Some?
    ensures var r, a, b, v := Outcomes(view, Some(f), m), f["Name1"], f["Name2"], Stoi(f["Value"]).value;
            r == if Stoi(m[a]).value < v then Outcome(false, m)
                 else Outcome(true, m[a := ToString(Stoi(m[a]).value - v)][b := ToString(Stoi(m[b]).value + v)])
  {
    hide Process, Stoi, ToString, Run;
    VerbHasEffect(view, Parse(Some(f)), m);
  }

  /* ----- the processor, rewriting the map in place ----- */

  class WalletProcessor {
    const view: View
    var myMap: Store

    constructor (state: View, shared: Store)
      ensures view == state && myMap == shared
    {
      view, myMap := state, shared;
    }

    /** None when std::stoi throws. */
    method GetOrLoad(name: string) returns (balance: Option<int>)
      modifies this`myMap
      ensures balance == Balance(view, old(myMap), name) && myMap == Loaded(view, old(myMap), name)
    {
      if name in myMap {
        return Stoi(myMap[name]);
      }
      var fromState := view(name);
      balance := if fromState == "" then Some(0) else Stoi(fromState);
      if balance.Some? {
        myMap := myMap[name := ToString(balance.value)];
      }
    }

    method DoDeposit(name: string, value: string) returns (ok: bool)
      modifies this`myMap
      ensures Outcome(ok, myMap) == Effect(view, Deposit(name, value), old(myMap))
    {
      var currentBalance := GetOrLoad(name);
      var amount := Stoi(value);
      if currentBalance.None? || amount.None? {
        return false;
      }
      myMap := myMap[name := ToString(currentBalance.value + amount.value)];
      return true;
    }

    method DoWithdraw(name: string, value: string) returns (ok: bool)
      modifies this`myMap
      ensures Outcome(ok, myMap) == Effect(view, Withdraw(name, value), old(myMap))
    {
      var currentBalance := GetOrLoad(name);
      var amount := Stoi(value);
      if currentBalance.None? || amount.None? {
        return false;
      }
      if currentBalance.value >= amount.value {
        myMap := myMap[name := ToString(currentBalance.value - amount.value)];
        return true;
      }
      return false;
    }

    method DoTransfer(name1: string, name2: string, value: string) returns (ok: bool)
      modifies this`myMap
      ensures Outcome(ok, myMap) == Effect(view, Transfer(name1, name2, value), old(myMap))
    {
      hide Balance, Loaded, Stoi, ToString;
      var amount := Stoi(value);
      if amount.None? {
        return false;
      }
      var balance1 := GetOrLoad(name1);
      if balance1.None? {
        return false;
      }
      var balance2 := GetOrLoad(name2);
      if balance2.None? {
        return false;
      }
      if balance1.value >= amount.value {
        myMap := myMap[name1 := ToString(balance1.value - amount.value)];
        myMap := myMap[name2 := ToString(balance2.value + amount.value)];
        return true;
      }
      return false;
    }

    method ProcessTxn(payload: Payload) returns (ok: bool)
      modifies this`myMap
      ensures Outcome(ok, myMap) == Outcomes(view, payload, old(myMap))
    {
      hide Effect, Balance, Loaded, Process;
      VerbHasEffect(view, Parse(payload), myMap);
      var op := Parse(payload);
      match op
      case Deposit(name, value) => ok := DoDeposit(name, value);
      case Withdraw(name, value) => ok := DoWithdraw(name, value);
      case Transfer(name1, name2, value) => ok := DoTransfer(name1, name2, value);
      case Rejected =>
        RejectedEffect(view, myMap);
        ok := false;
    }
  }

  lemma {:induction false} RejectedEffect(view: View, m: Store)
    ensures Effect(view, Rejected, m) == Outcome(false, m)
  {
  }
}
