/** The voting contract. */
module Voting {
  import opened Wrappers
  import opened SharedMap
  import opened Decimal
  import opened Program
  import opened Ledger

  datatype Op =
    | RegisterVoter(name: string)
    | RegisterCandidate(name: string)
    | TransferVote(source: string, target: string, count: string)
    | CastVote(voter: string, candidate: string)
    | Rejected

  function Parse(p: Payload): Op {
    var verb := Field(p, "Verb");
    if verb == Some("registerVoter") && Field(p, "Name").Some? then RegisterVoter(Field(p, "Name").value)
    else if verb == Some("registerCandidate") && Field(p, "Name").Some? then RegisterCandidate(Field(p, "Name").value)
    else if verb == Some("transferVote") && Field(p, "From").Some? && Field(p, "To").Some? && Field(p, "Count").Some? then
      TransferVote(Field(p, "From").value, Field(p, "To").value, Field(p, "Count").value)
    else if verb == Some("castVote") && Field(p, "Voter").Some? && Field(p, "Candidate").Some? then
      CastVote(Field(p, "Voter").value, Field(p, "Candidate").value)
    else Rejected
  }

  function Names(op: Op): set<string> {
    match op
    case RegisterVoter(name) => {name}
    case RegisterCandidate(name) => {name}
    case TransferVote(source, target, _) => {source, target}
    case CastVote(voter, candidate) => {voter, candidate}
    case Rejected => {}
  }

  /* ----- the verbs, access by access ----- */

  /** std::stoi with its exceptions caught: bad text counts as no votes. */
  function Count(text: string): int {
    if Stoi(text).Some? then Stoi(text).value else 0
  }

  function StateCount(view: View, name: string): int {
    if view(name) == "" then 0 else Count(view(name))
  }

  function GetOrLoadVoteCount(view: View, name: string, use: int -> Prog): Prog {
    Step(Find(name), (seen: Option<string>) =>
      if seen.Some? then use(Count(seen.value))
      else Step(Insert(name, ToString(StateCount(view, name))), (_: Option<string>) => use(StateCount(view, name))))
  }

  /** An amount of votes is overwritten on both sides, if the entries are still there. */
  function MoveVotes(source: string, target: string, amount: int, from: int): int -> Prog {
    (to: int) =>
      if from >= amount then
        Step(Update(source, ToString(from - amount)), (seen: Option<string>) =>
          if seen.Some? then
            Step(Update(target, ToString(to + amount)), (seen': Option<string>) => Done(seen'.Some?))
          else Done(false))
      else Done(false)
  }

  function MoveAfter(view: View, source: string, target: string, amount: int): int -> Prog {
    (from: int) => GetOrLoadVoteCount(view, target, MoveVotes(source, target, amount, from))
  }

  function Register(name: string, votes: string): Prog {
    Step(Insert(name, votes), (seen: Option<string>) => Done(seen.None?))
  }

  function Process(view: View, op: Op): Prog {
    match op
    case RegisterVoter(name) => Register(name, "1")
    case RegisterCandidate(name) => Register(name, "0")
    case TransferVote(source, target, count) =>
      if Stoi(count).None? then Done(false)
      else GetOrLoadVoteCount(view, source, MoveAfter(view, source, target, Stoi(count).value))
    case CastVote(voter, candidate) =>
      GetOrLoadVoteCount(view, voter, MoveAfter(view, voter, candidate, 1))
    case Rejected => Done(false)
  }

  lemma {:induction false} LoadIsConfined(view: View, name: string, use: int -> Prog, keys: set<string>, n: nat)
    requires name in keys && forall v :: Confined(use(v), keys, n)
    ensures Confined(GetOrLoadVoteCount(view, name, use), keys, n + 2)
  {
    var p := GetOrLoadVoteCount(view, name, use);
    forall seen: Option<string> ensures Confined(p.next(seen), keys, n + 1) {
      if seen.Some? {
        ConfinedMore(use(Count(seen.value)), keys, n, n + 1);
      } else {
        assert forall x :: p.next(seen).next(x) == use(StateCount(view, name));
      }
    }
  }

  lemma {:induction false} MoveIsConfined(view: View, source: string, target: string, amount: int)
    ensures forall v, w :: Confined(MoveVotes(source, target, amount, v)(w), {source, target}, 2)
    ensures forall v :: Confined(MoveAfter(view, source, target, amount)(v), {source, target}, 4)
    ensures Confined(GetOrLoadVoteCount(view, source, MoveAfter(view, source, target, amount)), {source, target}, 6)
  {
    var keys := {source, target};
    forall v, w ensures Confined(MoveVotes(source, target, amount, v)(w), keys, 2) {
      var p := MoveVotes(source, target, amount, v)(w);
      if v >= amount {
        forall x ensures Confined(p.next(x), keys, 1) {
          if x.Some? {
            assert forall y :: p.next(x).next(y).Done?;
          }
        }
      }
    }
    forall v ensures Confined(MoveAfter(view, source, target, amount)(v), keys, 4) {
      LoadIsConfined(view, target, MoveVotes(source, target, amount, v), keys, 2);
    }
    LoadIsConfined(view, source, MoveAfter(view, source, target, amount), keys, 4);
  }

  lemma {:induction false} VerbsAreConfined(view: View, op: Op)
    ensures Confined(Process(view, op), Names(op), 6)
  {
    match op
    case TransferVote(source, target, count) =>
      if Stoi(count).Some? {
        MoveIsConfined(view, source, target, Stoi(count).value);
      }
    case CastVote(voter, candidate) => MoveIsConfined(view, voter, candidate, 1);
    case RegisterVoter(name) => RegisterIsConfined(name, "1");
    case RegisterCandidate(name) => RegisterIsConfined(name, "0");
    case Rejected =>
  }

  lemma {:induction false} RegisterIsConfined(name: string, votes: string)
    ensures Confined(Register(name, votes), {name}, 6)
  {
    forall x ensures Confined(Register(name, votes).next(x), {name}, 5) {
    }
  }

  /** A transaction whose header declares its names as outputs is a well-declared payload. */
  lemma {:induction false} VotingPayload(view: View, op: Op, outputs: set<string>)
    requires Names(op) <= outputs
    ensures Bounded(CodeOf(Process(view, op))) && Within(CodeOf(Process(view, op)), outputs, outputs)
    ensures forall m :: Exec(CodeOf(Process(view, op)), [], m) == Result(Process(view, op), m)
  {
    VerbsAreConfined(view, op);
    ConfinedMoreKeys(Process(view, op), Names(op), outputs, 6);
    ConfinedCode(Process(view, op), outputs, 6);
    forall m ensures Exec(CodeOf(Process(view, op)), [], m) == Result(Process(view, op), m) {
      ExecIsRun(Process(view, op), Names(op), 6, m);
    }
  }

  /* ----- what the verbs come to ----- */

  function Loaded(view: View, m: Store, name: string): Store {
    if name in m then m else Put(m, name, Amount(view, m, name))
  }

  /** Both sides are loaded; then the votes are moved if the source has them. */
  function Moved(view: View, source: string, target: string, amount: int, m: Store): Outcome {
    var m1 := Loaded(view, m, source);
    var m2 := Loaded(view, m1, target);
    var from, to := Amount(view, m, source), Amount(view, m1, target);
    if from >= amount then Outcome(true, Put(Put(m2, source, from - amount), target, to + amount))
    else Outcome(false, m2)
  }

  function Registered(name: string, votes: string, m: Store): Outcome {
    if name in m then Outcome(false, m) else Outcome(true, m[name := votes])
  }

  function Effect(view: View, op: Op, m: Store): Outcome {
    match op
    case RegisterVoter(name) => Registered(name, "1", m)
    case RegisterCandidate(name) => Registered(name, "0", m)
    case TransferVote(source, target, count) =>
      if Stoi(count).None? then Outcome(false, m) else Moved(view, source, target, Stoi(count).value, m)
    case CastVote(voter, candidate) => Moved(view, voter, candidate, 1, m)
    case Rejected => Outcome(false, m)
  }

  lemma {:induction false} LoadRuns(view: View, name: string, use: int -> Prog, keys: set<string>, n: nat, m: Store)
    requires name in keys && n + 2 <= MAX_ACCESSES && forall v :: Confined(use(v), keys, n)
    ensures Result(GetOrLoadVoteCount(view, name, use), m)
            == Result(use(Amount(view, m, name)), Loaded(view, m, name))
  {
    hide Run, Stoi, ToString;
    var p := GetOrLoadVoteCount(view, name, use);
    var seen := Look(m, name);
    LoadIsConfined(view, name, use, keys, n);
    ResultStep(p, keys, n + 2, m);
    assert Confined(p.next(seen), keys, n + 1);
    if name !in m {
      ResultStep(p.next(seen), keys, n + 1, m);
      assert StateCount(view, name) == Amount(view, m, name);
      assert p.next(seen).next(None) == use(Amount(view, m, name));
    } else {
      assert p.next(seen) == use(Amount(view, m, name));
    }
  }

  lemma {:induction false} MoveRuns(view: View, source: string, target: string, amount: int, m: Store)
    ensures Result(GetOrLoadVoteCount(view, source, MoveAfter(view, source, target, amount)), m)
            == Moved(view, source, target, amount, m)
  {
    hide Amount, Run, Stoi, ToString;
    var keys := {source, target};
    var from, m1 := Amount(view, m, source), Loaded(view, m, source);
    var to, m2 := Amount(view, m1, target), Loaded(view, m1, target);
    MoveIsConfined(view, source, target, amount);
    LoadRuns(view, source, MoveAfter(view, source, target, amount), keys, 4, m);
    LoadRuns(view, target, MoveVotes(source, target, amount, from), keys, 2, m1);
    WriteBoth(source, target, amount, from, to, m2);
  }

  lemma {:induction false} WriteBoth(source: string, target: string, amount: int, from: int, to: int, m: Store)
    requires source in m && target in m
    ensures Result(MoveVotes(source, target, amount, from)(to), m)
            == if from >= amount then Outcome(true, Put(Put(m, source, from - amount), target, to + amount))
               else Outcome(false, m)
  {
    hide Stoi, ToString;
    var keys := {source, target};
    MoveIsConfined((k: string) => "", source, target, amount);
    var p := MoveVotes(source, target, amount, from)(to);
    if from >= amount {
      ResultStep(p, keys, 2, m);
      var p', m' := p.next(Look(m, source)), Apply(p.action, m);
      assert Confined(p', keys, 1);
      ResultStep(p', keys, 1, m');
    }
  }

  /** The accesses of a verb, made without interruption, come to its effect: in particular the
      entries that have just been loaded are always found again. */
  lemma {:induction false} VerbHasEffect(view: View, op: Op, m: Store)
    ensures Result(Process(view, op), m) == Effect(view, op, m)
  {
    hide GetOrLoadVoteCount, Moved, Stoi;
    match op
    case TransferVote(source, target, count) =>
      if Stoi(count).Some? {
        MoveRuns(view, source, target, Stoi(count).value, m);
      }
    case CastVote(voter, candidate) => MoveRuns(view, voter, candidate, 1, m);
    case RegisterVoter(name) =>
      RegisterIsConfined(name, "1");
      ResultStep(Register(name, "1"), {name}, 6, m);
    case RegisterCandidate(name) =>
      RegisterIsConfined(name, "0");
      ResultStep(Register(name, "0"), {name}, 6, m);
    case Rejected =>
  }

  /* ----- what the verbs mean for the counts ----- */

  lemma {:induction false} PutThenAmount(view: View, m: Store, name: string, amount: int, other: string)
    ensures Amount(view, Put(m, name, amount), other) == if other == name then amount else Amount(view, m, other)
  {
    PutThenBalance(view, m, name, amount, other);
  }

  lemma {:induction false} LoadingKeepsCounts(view: View, m: Store, name: string, other: string)
    ensures Amount(view, Loaded(view, m, name), other) == Amount(view, m, other)
  {
    PutThenAmount(view, m, name, Amount(view, m, name), other);
  }

  /** A registration succeeds exactly when the name is not in the shared map; the name then
      counts one vote for a voter and none for a candidate. */
  lemma {:induction false} RegistrationMeans(view: View, m: Store, name: string, other: string)
    ensures var r := Effect(view, RegisterVoter(name), m);
            && (r.ok <==> name !in m)
            && Amount(view, r.store, other) == if r.ok && other == name then 1 else Amount(view, m, other)
    ensures var r := Effect(view, RegisterCandidate(name), m);
            && (r.ok <==> name !in m)
            && Amount(view, r.store, other) == if r.ok && other == name then 0 else Amount(view, m, other)
  {
    assert ToString(1) == "1" && ToString(0) == "0";
    PutThenAmount(view, m, name, 1, other);
    PutThenAmount(view, m, name, 0, other);
  }

  /** Moving votes succeeds exactly when the source has them.  Between different names it moves
      them; from a name to itself the second write wins and the votes are added. */
  lemma {:induction false} MoveMeans(view: View, m: Store, source: string, target: string, amount: int, other: string)
    ensures var r := Moved(view, source, target, amount, m);
            && (r.ok <==> Amount(view, m, source) >= amount)
            && Amount(view, r.store, other)
               == if r.ok && other == target then Amount(view, m, target) + amount
                  else if r.ok && other == source then Amount(view, m, source) - amount
                  else Amount(view, m, other)
  {
    hide Amount, Loaded, Put;
    var m1 := Loaded(view, m, source);
    var m2 := Loaded(view, m1, target);
    LoadingKeepsCounts(view, m, source, other);
    LoadingKeepsCounts(view, m, source, target);
    LoadingKeepsCounts(view, m1, target, other);
    var from, to := Amount(view, m, source), Amount(view, m, target);
    PutThenAmount(view, m2, source, from - amount, other);
    PutThenAmount(view, Put(m2, source, from - amount), target, to + amount, other);
  }

  /** Casting a vote takes one vote from the voter, who must have one, and gives it to the
      candidate; a name that votes for itself gains one. */
  lemma {:induction false} CastVoteMeans(view: View, m: Store, voter: string, candidate: string, other: string)
    ensures var r := Effect(view, CastVote(voter, candidate), m);
            && (r.ok <==> Amount(view, m, voter) >= 1)
            && Amount(view, r.store, other)
               == if r.ok && other == candidate then Amount(view, m, candidate) + 1
                  else if r.ok && other == voter then Amount(view, m, voter) - 1
                  else Amount(view, m, other)
  {
    hide Amount, Moved;
    MoveMeans(view, m, voter, candidate, 1, other);
  }

  /** A transfer of votes needs a number, and the source to have that many; a Count that is no
      number leaves the map as it was. */
  lemma {:induction false} TransferVoteMeans(view: View, m: Store, source: string, target: string, count: string, other: string)
    ensures var r, n := Effect(view, TransferVote(source, target, count), m), Stoi(count);
            && (r.ok <==> n.Some? && Amount(view, m, source) >= n.value)
            && (n.None? ==> r.store == m)
            && Amount(view, r.store, other)
               == if r.ok && other == target then Amount(view, m, target) + n.value
                  else if r.ok && other == source then Amount(view, m, source) - n.value
                  else Amount(view, m, other)
  {
    hide Amount, Moved, Stoi;
    if Stoi(count).Some? {
      MoveMeans(view, m, source, target, Stoi(count).value, other);
    }
  }

  /* ----- what a payload does ----- */

  function Outcomes(view: View, p: Payload, m: Store): Outcome {
    Result(Process(view, Parse(p)), m)
  }

  /** The vote is taken from the name in Voter and given to the one in Candidate. */
  lemma {:induction false} CastVotePayload(view: View, f: map<string, string>, m: Store, other: string)
    requires Asks(Some(f), "castVote", {"Voter", "Candidate"})
    ensures var r, v, c := Outcomes(view, Some(f), m), f["Voter"], f["Candidate"];
            && (r.ok <==> Amount(view, m, v) >= 1)
            && Amount(view, r.store, other)
               == if r.ok && other == c then Amount(view, m, c) + 1
                  else if r.ok && other == v then Amount(view, m, v) - 1
                  else Amount(view, m, other)
  {
    hide Amount, Effect, Process, Run;
    VerbHasEffect(view, Parse(Some(f)), m);
    CastVoteMeans(view, m, f["Voter"], f["Candidate"], other);
  }

  /** As many votes as Count says are taken from the name in From and given to the one in To. */
  lemma {:induction false} TransferVotePayload(view: View, f: map<string, string>, m: Store, other: string)
    requires Asks(Some(f), "transferVote", {"From", "To", "Count"})
    ensures var r, n, a, b := Outcomes(view, Some(f), m), Stoi(f["Count"]), f["From"], f["To"];
            && (r.ok <==> n.Some? && Amount(view, m, a) >= n.value)
            && (n.None? ==> r.store == m)
            && Amount(view, r.store, other)
               == if r.ok && other == b then Amount(view, m, b) + n.value
                  else if r.ok && other == a then Amount(view, m, a) - n.value
                  else Amount(view, m, other)
  {
    hide Amount, Effect, Process, Stoi, Run;
    VerbHasEffect(view, Parse(Some(f)), m);
    TransferVoteMeans(view, m, f["From"], f["To"], f["Count"], other);
  }

  /** A voter is entered with one vote, a candidate with none, unless the name is in the map. */
  lemma {:induction false} RegisterPayload(view: View, f: map<string, string>, m: Store)
    ensures Asks(Some(f), "registerVoter", {"Name"}) ==>
              Outcomes(view, Some(f), m)
              == if f["Name"] in m then Outcome(false, m) else Outcome(true, m[f["Name"] := "1"])
    ensures Asks(Some(f), "registerCandidate", {"Name"}) ==>
              Outcomes(view, Some(f), m)
              == if f["Name"] in m then Outcome(false, m) else Outcome(true, m[f["Name"] := "0"])
  {
    hide Process, Run;
    VerbHasEffect(view, Parse(Some(f)), m);
  }

  /** Any other payload fails and leaves the map untouched. */
  lemma {:induction false} OtherPayload(view: View, p: Payload, m: Store)
    requires !Asks(p, "registerVoter", {"Name"}) && !Asks(p, "registerCandidate", {"Name"})
             && !Asks(p, "transferVote", {"From", "To", "Count"}) && !Asks(p, "castVote", {"Voter", "Candidate"})
    ensures Outcomes(view, p, m) == Outcome(false, m)
  {
    assert Parse(p) == Rejected;
  }

  /** A cast vote, on the texts themselves: those in the map, or else those in the state, and
      text without a number counts as no votes. */
  lemma {:induction false} CastVoteOnTexts(view: View, f: map<string, string>, m: Store)
    requires Asks(Some(f), "castVote", {"Voter", "Candidate"})
    ensures var r, v, c := Outcomes(view, Some(f), m), f["Voter"], f["Candidate"];
            var from, to := Stoi(if v in m then m[v] else view(v)), Stoi(if c in m then m[c] else view(c));
            && (r.ok <==> from.Some? && from.value >= 1)
            && (r.ok ==> r.store == m[v := ToString(from.value - 1)]
                                     [c := ToString(if to.Some? then to.value + 1 else 1)])
  {
    hide Amount, Effect, Process, Run, Stoi, ToString;
    VerbHasEffect(view, Parse(Some(f)), m);
    TextsCount(view, m, f["Voter"]);
    TextsCount(view, m, f["Candidate"]);
    CastVoteMeans(view, m, f["Voter"], f["Candidate"], "");
    if Amount(view, m, f["Voter"]) >= 1 {
      CastVoteWrites(view, f["Voter"], f["Candidate"], m);
    }
  }

  lemma {:induction false} TextsCount(view: View, m: Store, name: string)
    ensures var have := Stoi(if name in m then m[name] else view(name));
            Amount(view, m, name) == if have.Some? then have.value else 0
  {
    assert SkipSpace("") == "" && Stoi("") == None;
  }

  lemma {:induction false} CastVoteWrites(view: View, voter: string, candidate: string, m: Store)
    requires Amount(view, m, voter) >= 1
    ensures Effect(view, CastVote(voter, candidate), m).store
            == m[voter := ToString(Amount(view, m, voter) - 1)][candidate := ToString(Amount(view, m, candidate) + 1)]
  {
    hide Amount, ToString;
    LoadingKeepsCounts(view, m, voter, candidate);
  }

  /* ----- the processor, rewriting the map in place ----- */

  class VotingProcessor {
    const view: View
    var myMap: Store

    constructor (state: View, shared: Store)
      ensures view == state && myMap == shared
    {
      view, myMap := state, shared;
    }

    method GetOrLoad(name: string) returns (votes: int)
      modifies this`myMap
      ensures votes == Amount(view, old(myMap), name) && myMap == Loaded(view, old(myMap), name)
      ensures name in myMap && old(myMap).Keys <= myMap.Keys
    {
      if name in myMap {
        return Count(myMap[name]);
      }
      var fromState := view(name);
      votes := 0;
      if fromState != "" {
        votes := Count(fromState);
      }
      myMap := myMap[name := ToString(votes)];
    }

    method DoRegister(name: string, votes: string) returns (ok: bool)
      modifies this`myMap
      ensures Outcome(ok, myMap) == Registered(name, votes, old(myMap))
    {
      if name !in myMap {
        myMap := myMap[name := votes];
        return true;
      }
      return false;
    }

    /** Overwrites both counts; an entry that is not there would stop it. */
    method WriteCounts(source: string, target: string, amount: int, fromVotes: int, toVotes: int) returns (ok: bool)
      requires source in myMap && target in myMap
      modifies this`myMap
      ensures ok <==> fromVotes >= amount
      ensures myMap == if ok then Put(Put(old(myMap), source, fromVotes - amount), target, toVotes + amount)
                       else old(myMap)
    {
      hide Digits;
      if fromVotes >= amount {
        if source in myMap {
          myMap := myMap[source := ToString(fromVotes - amount)];
        } else {
          return false;
        }
        if target in myMap {
          myMap := myMap[target := ToString(toVotes + amount)];
        } else {
          return false;
        }
        return true;
      }
      return false;
    }

    method Move(source: string, target: string, amount: int) returns (ok: bool)
      modifies this`myMap
      ensures Outcome(ok, myMap) == Moved(view, source, target, amount, old(myMap))
    {
      hide Amount, Loaded, Put;
      var fromVotes := GetOrLoad(source);
      var toVotes := GetOrLoad(target);
      ok := WriteCounts(source, target, amount, fromVotes, toVotes);
    }

    method ProcessTxn(payload: Payload) returns (ok: bool)
      modifies this`myMap
      ensures Outcome(ok, myMap) == Outcomes(view, payload, old(myMap))
    {
      hide Moved, Registered, Process, Parse;
      VerbHasEffect(view, Parse(payload), myMap);
      match Parse(payload)
      case RegisterVoter(name) => ok := DoRegister(name, "1");
      case RegisterCandidate(name) => ok := DoRegister(name, "0");
      case TransferVote(source, target, count) =>
        if Stoi(count).None? {
          ok := false;
        } else {
          ok := Move(source, target, Stoi(count).value);
        }
      case CastVote(voter, candidate) => ok := Move(voter, candidate, 1);
      case Rejected => ok := false;
    }
  }
}
