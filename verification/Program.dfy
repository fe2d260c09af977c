/** Contract verbs as programs over the shared map: an access, then whatever follows from what
    was seen.  A program is a transaction payload in the sense of SharedMap. */
module Program {
  import opened Wrappers
  import opened SharedMap

  datatype Prog = Done(ok: bool) | Step(action: Action, next: Option<string> -> Prog)

  /** What the program does next after having seen the contents in the log. */
  function Walk(p: Prog, log: Log): Action
    decreases |log|
  {
    if p.Done? then Return(p.ok)
    else if log == [] then p.action
    else Walk(p.next(log[0]), log[1..])
  }

  function CodeOf(p: Prog): Code {
    log => Walk(p, log)
  }

  /** The program that is left after the log. */
  function Rest(p: Prog, log: Log): Prog
    decreases |log|
  {
    if p.Done? || log == [] then p else Rest(p.next(log[0]), log[1..])
  }

  /** Runs at most `fuel` accesses of a program. */
  function Run(p: Prog, fuel: nat, m: Store): Outcome
    decreases fuel
  {
    if p.Done? then Outcome(p.ok, m)
    else if fuel == 0 || p.action.Return? then Outcome(false, m)
    else Run(p.next(Look(m, p.action.key)), fuel - 1, Apply(p.action, m))
  }

  /** Within n accesses the program is done, and it touches only these addresses. */
  ghost predicate Confined(p: Prog, keys: set<string>, n: nat)
    decreases n
  {
    p.Done? || (n > 0 && !p.action.Return? && p.action.key in keys
                && forall seen :: Confined(p.next(seen), keys, n - 1))
  }

  lemma {:induction false} ConfinedMore(p: Prog, keys: set<string>, n: nat, more: nat)
    requires Confined(p, keys, n) && n <= more
    ensures Confined(p, keys, more)
    decreases n
  {
    if !p.Done? {
      forall seen ensures Confined(p.next(seen), keys, more - 1) {
        ConfinedMore(p.next(seen), keys, n - 1, more - 1);
      }
    }
  }

  lemma {:induction false} ConfinedMoreKeys(p: Prog, keys: set<string>, more: set<string>, n: nat)
    requires Confined(p, keys, n) && keys <= more
    ensures Confined(p, more, n)
    decreases n
  {
    if !p.Done? {
      forall seen ensures Confined(p.next(seen), more, n - 1) {
        ConfinedMoreKeys(p.next(seen), keys, more, n - 1);
      }
    }
  }

  lemma {:induction false} ConfinedWalk(p: Prog, keys: set<string>, n: nat, log: Log)
    requires Confined(p, keys, n)
    ensures Walk(p, log).Return? || Walk(p, log).key in keys
    ensures |log| >= n ==> Walk(p, log).Return?
    decreases |log|
  {
    if !p.Done? && log != [] {
      assert Confined(p.next(log[0]), keys, n - 1);
      ConfinedWalk(p.next(log[0]), keys, n - 1, log[1..]);
    }
  }

  /** A confined program is a payload with a bounded number of accesses and this footprint. */
  lemma {:induction false} ConfinedCode(p: Prog, keys: set<string>, n: nat)
    requires Confined(p, keys, n) && n <= MAX_ACCESSES
    ensures Bounded(CodeOf(p)) && Within(CodeOf(p), keys, keys)
  {
    forall log: Log ensures Permitted(CodeOf(p)(log), keys, keys) {
      ConfinedWalk(p, keys, n, log);
    }
    forall log: Log | |log| >= MAX_ACCESSES ensures CodeOf(p)(log).Return? {
      ConfinedWalk(p, keys, n, log);
    }
  }

  lemma {:induction false} RestNext(p: Prog, log: Log, seen: Option<string>)
    ensures Walk(p, log) == (var r := Rest(p, log); if r.Done? then Return(r.ok) else r.action)
    ensures !Rest(p, log).Done? ==> Rest(p, log + [seen]) == Rest(p, log).next(seen)
    decreases |log|
  {
    if p.Done? {
    } else if log == [] {
      assert (log + [seen])[1..] == [];
    } else {
      RestNext(p.next(log[0]), log[1..], seen);
      assert (log + [seen])[1..] == log[1..] + [seen];
    }
  }

  lemma {:induction false} RunAgrees(p: Prog, keys: set<string>, n: nat, log: Log, m: Store)
    requires |log| <= MAX_ACCESSES && Confined(Rest(p, log), keys, n)
    ensures Exec(CodeOf(p), log, m) == Run(Rest(p, log), MAX_ACCESSES - |log|, m)
    decreases MAX_ACCESSES - |log|
  {
    var r := Rest(p, log);
    if r.Done? {
      RestNext(p, log, None);
    } else {
      var seen := Look(m, r.action.key);
      RestNext(p, log, seen);
      if |log| < MAX_ACCESSES {
        assert Confined(r.next(seen), keys, n - 1);
        RunAgrees(p, keys, n - 1, log + [seen], Apply(r.action, m));
      }
    }
  }

  /** Executing the payload is running the program. */
  lemma {:induction false} ExecIsRun(p: Prog, keys: set<string>, n: nat, m: Store)
    requires Confined(p, keys, n)
    ensures Exec(CodeOf(p), [], m) == Run(p, MAX_ACCESSES, m)
  {
    RunAgrees(p, keys, n, [], m);
  }

  lemma {:induction false} EnoughFuel(p: Prog, keys: set<string>, n: nat, f: nat, f': nat, m: Store)
    requires Confined(p, keys, n) && n <= f && n <= f'
    ensures Run(p, f, m) == Run(p, f', m)
    decreases n
  {
    if !p.Done? {
      var seen := Look(m, p.action.key);
      assert Confined(p.next(seen), keys, n - 1);
      EnoughFuel(p.next(seen), keys, n - 1, f - 1, f' - 1, Apply(p.action, m));
    }
  }

  /** What a program does from start to end. */
  function Result(p: Prog, m: Store): Outcome {
    Run(p, MAX_ACCESSES, m)
  }

  lemma {:induction false} ResultStep(p: Prog, keys: set<string>, n: nat, m: Store)
    requires Confined(p, keys, n) && n <= MAX_ACCESSES && !p.Done?
    ensures Result(p, m) == Result(p.next(Look(m, p.action.key)), Apply(p.action, m))
  {
    var seen := Look(m, p.action.key);
    assert Confined(p.next(seen), keys, n - 1);
    EnoughFuel(p.next(seen), keys, n - 1, MAX_ACCESSES - 1, MAX_ACCESSES, Apply(p.action, m));
  }
}
