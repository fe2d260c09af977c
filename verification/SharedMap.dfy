/** The write map `myMap` that all transactions of a block share
    (a concurrent hash map from addresses to values), and what it means to run one
    transaction against it.

    The hash map serialises accesses to one address by its accessor lock, so a
    transaction is a sequence of atomic accesses, each to one address.  What a
    transaction does next depends only on its own payload, on the committed state
    (constant while a block runs) and on the contents it has seen so far.  It is
    therefore a function from the log of contents seen to the next access. */
module SharedMap {
  import opened Wrappers

  type Store = map<string, string>

  /** One atomic access.  Insert writes only when the address is absent, Update only
      when it is present, Write in both cases. */
  datatype Action =
    | Return(ok: bool)
    | Find(key: string)
    | Insert(key: string, value: string)
    | Update(key: string, value: string)
    | Write(key: string, value: string)

  /** The contents seen at each access so far, oldest first. */
  type Log = seq<Option<string>>

  type Code = Log -> Action

  /** No contract verb makes more than six accesses. */
  const MAX_ACCESSES: nat := 8

  ghost predicate Bounded(code: Code) {
    forall log: Log :: |log| >= MAX_ACCESSES ==> code(log).Return?
  }

  /** A lookup stays within `readable`, and an access that may write within `writable`. */
  predicate Permitted(a: Action, readable: set<string>, writable: set<string>) {
    a.Return? || a.key in (if a.Find? then readable else writable)
  }

  /** The code can only ever look up addresses in `readable` and write addresses in `writable`. */
  ghost predicate Within(code: Code, readable: set<string>, writable: set<string>) {
    forall log: Log :: Permitted(code(log), readable, writable)
  }

  function Look(m: Store, key: string): Option<string> {
    if key in m then Some(m[key]) else None
  }

  function Apply(a: Action, m: Store): Store
    requires !a.Return?
  {
    match a
    case Find(_) => m
    case Insert(k, v) => if k in m then m else m[k := v]
    case Update(k, v) => if k in m then m[k := v] else m
    case Write(k, v) => m[k := v]
  }

  datatype Outcome = Outcome(ok: bool, store: Store)

  /** Runs the code alone, from a given log, to its end. */
  function Exec(code: Code, log: Log, m: Store): Outcome
    decreases MAX_ACCESSES - |log|
  {
    if code(log).Return? then Outcome(code(log).ok, m)
    else if |log| >= MAX_ACCESSES then Outcome(false, m)
    else Exec(code, log + [Look(m, code(log).key)], Apply(code(log), m))
  }

  /** Both maps show the same content at each of these addresses. */
  ghost predicate Agree(m: Store, m': Store, keys: set<string>) {
    forall k :: k in keys ==> Look(m, k) == Look(m', k)
  }

  /** Both maps show the same content at each other address. */
  ghost predicate AgreeOutside(m: Store, m': Store, keys: set<string>) {
    forall k :: k !in keys ==> Look(m, k) == Look(m', k)
  }

  /** A run sees nothing outside the addresses it may read, and changes nothing outside those
      it may write. */
  lemma {:induction false} ExecIsLocal(code: Code, log: Log, m: Store, m': Store, readable: set<string>, writable: set<string>)
    requires Within(code, readable, writable) && writable <= readable && Agree(m, m', readable)
    ensures Exec(code, log, m).ok == Exec(code, log, m').ok
    ensures Agree(Exec(code, log, m).store, Exec(code, log, m').store, readable)
    ensures AgreeOutside(Exec(code, log, m).store, m, writable)
    decreases MAX_ACCESSES - |log|
  {
    var a := code(log);
    if !a.Return? && |log| < MAX_ACCESSES {
      assert Permitted(a, readable, writable);
      assert a.key in readable;
      assert Look(m, a.key) == Look(m', a.key);
      ExecIsLocal(code, log + [Look(m, a.key)], Apply(a, m), Apply(a, m'), readable, writable);
    }
  }

  lemma {:induction false} SameLooksSameMap(m: Store, m': Store)
    requires forall k :: Look(m, k) == Look(m', k)
    ensures m == m'
  {
    forall k ensures k in m <==> k in m' {
      assert Look(m, k) == Look(m', k);
    }
    forall k | k in m ensures m[k] == m'[k] {
      assert Look(m, k) == Look(m', k);
    }
  }

  /** Two transactions neither of which writes what the other may read commute: same map, same
      verdicts. */
  lemma {:induction false} UnrelatedRunsCommute(a: Code, b: Code, m: Store,
                                                ra: set<string>, wa: set<string>, rb: set<string>, wb: set<string>)
    requires Within(a, ra, wa) && wa <= ra && Within(b, rb, wb) && wb <= rb && wa !! rb && wb !! ra
    ensures Exec(b, [], Exec(a, [], m).store).store == Exec(a, [], Exec(b, [], m).store).store
    ensures Exec(b, [], Exec(a, [], m).store).ok == Exec(b, [], m).ok
    ensures Exec(a, [], Exec(b, [], m).store).ok == Exec(a, [], m).ok
  {
    hide Exec, Within, Look;
    var ma, mb := Exec(a, [], m).store, Exec(b, [], m).store;
    ExecIsLocal(a, [], m, m, ra, wa);
    ExecIsLocal(b, [], m, m, rb, wb);
    OutsideIsInside(ma, m, wa, rb);
    OutsideIsInside(mb, m, wb, ra);
    ExecIsLocal(a, [], mb, m, ra, wa);
    ExecIsLocal(b, [], ma, m, rb, wb);
    var ab, ba := Exec(b, [], ma).store, Exec(a, [], mb).store;
    forall k ensures Look(ab, k) == Look(ba, k) {
      if k in wa {
        assert k in ra && k !in wb;
      } else if k in wb {
        assert k in rb;
      }
    }
    SameLooksSameMap(ab, ba);
  }

  /** What changes only inside one set agrees on any set disjoint from it. */
  lemma {:induction false} OutsideIsInside(m: Store, m': Store, changed: set<string>, keys: set<string>)
    requires AgreeOutside(m, m', changed) && changed !! keys
    ensures Agree(m, m', keys) && Agree(m', m, keys)
  {
  }
}
