/** A block of transactions, the conflict relation of the dependency matrix, and the
    meaning of a block: the fold of its transactions in block order. */
module Block {
  import opened SharedMap

  /** A transaction: the addresses its header declares, and what its payload does. */
  datatype Txn = Txn(inputs: seq<string>, outputs: seq<string>, code: Code)

  type Txns = seq<Txn>

  ghost function Outputs(t: Txn): set<string> {
    set a | a in t.outputs
  }

  /** The addresses a transaction may look at. */
  ghost function Reads(t: Txn): set<string> {
    (set a | a in t.inputs) + Outputs(t)
  }

  predicate Shares(xs: seq<string>, ys: seq<string>) {
    exists x :: x in xs && x in ys
  }

  /** Input/output, output/input or output/output on a common address. */
  predicate Conflict(a: Txn, b: Txn) {
    Shares(a.inputs, b.outputs) || Shares(a.outputs, b.inputs) || Shares(a.outputs, b.outputs)
  }

  /** The entry (i, j) of the dependency matrix. */
  predicate Edge(b: Txns, i: int, j: int) {
    0 <= i < j < |b| && Conflict(b[i], b[j])
  }

  /** Every address a transaction can look at is one of its declared inputs or outputs, and
      every address it can write is one of its declared outputs. */
  ghost predicate WellDeclared(b: Txns) {
    forall t :: 0 <= t < |b| ==> Bounded(b[t].code) && Within(b[t].code, Reads(b[t]), Outputs(b[t]))
  }

  /** Neither transaction may write what the other may look at. */
  ghost predicate Unrelated(a: Txn, b: Txn) {
    Outputs(a) !! Reads(b) && Outputs(b) !! Reads(a)
  }

  /** Two transactions are unrelated exactly when the matrix has no edge between them. */
  lemma {:induction false} UnrelatedIffNoConflict(b: Txns, i: nat, j: nat)
    requires i < j < |b|
    ensures Unrelated(b[i], b[j]) <==> !Edge(b, i, j)
  {
    var x, y := b[i], b[j];
    forall a ensures (a in Outputs(x) && a in Reads(y)) ==> Conflict(x, y)
             ensures (a in Outputs(y) && a in Reads(x)) ==> Conflict(x, y) {
      if a in x.outputs && a in y.inputs {
        assert Shares(x.outputs, y.inputs);
      }
      if a in x.outputs && a in y.outputs {
        assert Shares(x.outputs, y.outputs);
      }
      if a in y.outputs && a in x.inputs {
        assert Shares(x.inputs, y.outputs);
      }
    }
    if Conflict(x, y) {
      if a :| a in x.inputs && a in y.outputs {
        assert a in Outputs(y) && a in Reads(x);
      } else if a :| a in x.outputs && a in y.inputs {
        assert a in Outputs(x) && a in Reads(y);
      } else {
        var a :| a in x.outputs && a in y.outputs;
        assert a in Outputs(x) && a in Reads(y);
      }
    }
  }

  lemma {:induction false} NoConflictMeansUnrelated(b: Txns, i: nat, j: nat)
    requires i < |b| && j < |b| && i != j && !Edge(b, i, j) && !Edge(b, j, i)
    ensures Unrelated(b[i], b[j])
  {
    if i < j {
      UnrelatedIffNoConflict(b, i, j);
    } else {
      UnrelatedIffNoConflict(b, j, i);
    }
  }

  /** Somebody who may write what t may look at has an edge to t or from t. */
  lemma {:induction false} WriterIsEdge(b: Txns, x: nat, t: nat, k: string)
    requires x < |b| && t < |b| && x != t && k in Outputs(b[x]) && k in Reads(b[t])
    ensures Edge(b, x, t) || Edge(b, t, x)
  {
    if x < t {
      UnrelatedIffNoConflict(b, x, t);
    } else {
      UnrelatedIffNoConflict(b, t, x);
    }
  }

  /** Runs, in block order, those of the first j transactions that are in `ran`. */
  ghost function Partial(b: Txns, ran: set<nat>, j: nat, start: Store): Store
    requires j <= |b|
  {
    if j == 0 then start
    else if j - 1 in ran then Exec(b[j-1].code, [], Partial(b, ran, j - 1, start)).store
    else Partial(b, ran, j - 1, start)
  }

  /** The first j transactions in block order: the reference semantics. */
  ghost function Serial(b: Txns, j: nat, start: Store): Store
    requires j <= |b|
  {
    if j == 0 then start else Exec(b[j-1].code, [], Serial(b, j - 1, start)).store
  }

  /** The verdict of transaction t when the block runs in order. */
  ghost predicate SerialOk(b: Txns, t: nat, start: Store)
    requires t < |b|
  {
    Exec(b[t].code, [], Serial(b, t, start)).ok
  }

  ghost predicate AllSerialOk(b: Txns, start: Store) {
    forall t: nat :: t < |b| ==> SerialOk(b, t, start)
  }

  /** A set of transactions that contains every earlier transaction a member conflicts with. */
  ghost predicate Closed(b: Txns, ran: set<nat>) {
    forall i: nat, j: nat :: j in ran && Edge(b, i, j) ==> i in ran
  }

  /** No later transaction in `ran` conflicts with t. */
  ghost predicate NothingAfter(b: Txns, ran: set<nat>, t: nat) {
    forall j: nat :: j in ran ==> !Edge(b, t, j)
  }

  lemma {:induction false} PartialOfAllIsSerial(b: Txns, ran: set<nat>, j: nat, start: Store)
    requires j <= |b| && forall t: nat :: t < j ==> t in ran
    ensures Partial(b, ran, j, start) == Serial(b, j, start)
  {
    if j > 0 {
      PartialOfAllIsSerial(b, ran, j - 1, start);
    }
  }

  lemma {:induction false} PartialIgnoresLater(b: Txns, ran: set<nat>, more: set<nat>, j: nat, start: Store)
    requires j <= |b| && forall t: nat :: t < j ==> (t in ran <==> t in more)
    ensures Partial(b, ran, j, start) == Partial(b, more, j, start)
  {
    if j > 0 {
      PartialIgnoresLater(b, ran, more, j - 1, start);
    }
  }

  /** Running t last gives the same map as running it in its place, when nothing that
      conflicts with it has run after it. */
  lemma {:induction false} RunningLastIsRunningInPlace(b: Txns, ran: set<nat>, t: nat, j: nat, start: Store)
    requires WellDeclared(b) && t < j <= |b| && t !in ran && NothingAfter(b, ran, t)
    ensures Partial(b, ran + {t}, j, start) == Exec(b[t].code, [], Partial(b, ran, j, start)).store
  {
    if j == t + 1 {
      PartialIgnoresLater(b, ran, ran + {t}, t, start);
    } else {
      RunningLastIsRunningInPlace(b, ran, t, j - 1, start);
      if j - 1 in ran {
        assert !Edge(b, t, j - 1);
        NoConflictMeansUnrelated(b, t, j - 1);
        UnrelatedRunsCommute(b[t].code, b[j-1].code, Partial(b, ran, j - 1, start),
                             Reads(b[t]), Outputs(b[t]), Reads(b[j-1]), Outputs(b[j-1]));
      }
    }
  }

  /** Every one of the first j transactions that declares k as an output is in `ran`. */
  ghost predicate AllTouching(b: Txns, ran: set<nat>, j: nat, k: string)
    requires j <= |b|
  {
    forall x: nat :: x < j && k in Outputs(b[x]) ==> x in ran
  }

  lemma {:induction false} PartialAgreesWithSerial(b: Txns, ran: set<nat>, j: nat, start: Store, k: string)
    requires WellDeclared(b) && Closed(b, ran) && j <= |b| && AllTouching(b, ran, j, k)
    ensures Look(Partial(b, ran, j, start), k) == Look(Serial(b, j, start), k)
  {
    hide Exec, Reads, Conflict, Within;
    if j > 0 {
      var t := j - 1;
      var p, s := Partial(b, ran, t, start), Serial(b, t, start);
      RunChangesOutputs(b, t, p);
      RunChangesOutputs(b, t, s);
      if k !in Outputs(b[t]) {
        PartialAgreesWithSerial(b, ran, t, start, k);
      } else {
        forall k' | k' in Reads(b[t]) ensures Look(p, k') == Look(s, k') {
          forall x: nat | x < t && k' in Outputs(b[x]) ensures x in ran {
            WriterIsEdge(b, x, t, k');
          }
          PartialAgreesWithSerial(b, ran, t, start, k');
        }
        OutputsAreRead(b[t]);
        ExecIsLocal(b[t].code, [], p, s, Reads(b[t]), Outputs(b[t]));
      }
    }
  }

  lemma {:induction false} OutputsAreRead(x: Txn)
    ensures Outputs(x) <= Reads(x)
  {
  }

  lemma {:induction false} RunChangesOutputs(b: Txns, t: nat, m: Store)
    requires WellDeclared(b) && t < |b|
    ensures AgreeOutside(Exec(b[t].code, [], m).store, m, Outputs(b[t]))
  {
    ExecIsLocal(b[t].code, [], m, m, Reads(b[t]), Outputs(b[t]));
  }

  lemma {:induction false} PartialUnchangedWhereNothingRan(b: Txns, ran: set<nat>, t: nat, j: nat, start: Store, k: string)
    requires WellDeclared(b) && t <= j <= |b|
    requires forall x: nat :: t <= x < j && x in ran ==> k !in Outputs(b[x])
    ensures Look(Partial(b, ran, j, start), k) == Look(Partial(b, ran, t, start), k)
  {
    if j > t {
      PartialUnchangedWhereNothingRan(b, ran, t, j - 1, start, k);
      RunChangesOutputs(b, j - 1, Partial(b, ran, j - 1, start));
    }
  }

  /** A transaction whose earlier conflicting transactions have all run, and no later one,
      gives the verdict it gives in block order. */
  lemma {:induction false} VerdictIsSerial(b: Txns, ran: set<nat>, t: nat, start: Store)
    requires WellDeclared(b) && Closed(b, ran) && t < |b| && t !in ran && NothingAfter(b, ran, t)
    requires forall i: nat :: Edge(b, i, t) ==> i in ran
    ensures Exec(b[t].code, [], Partial(b, ran, |b|, start)).ok == SerialOk(b, t, start)
  {
    hide Exec, Reads, Conflict, Within;
    forall k | k in Reads(b[t])
      ensures Look(Partial(b, ran, |b|, start), k) == Look(Serial(b, t, start), k)
    {
      forall x: nat | x < t && k in Outputs(b[x]) ensures x in ran {
        WriterIsEdge(b, x, t, k);
      }
      PartialAgreesWithSerial(b, ran, t, start, k);
      forall x: nat | t <= x < |b| && x in ran ensures k !in Outputs(b[x]) {
        if k in Outputs(b[x]) {
          WriterIsEdge(b, x, t, k);
        }
      }
      PartialUnchangedWhereNothingRan(b, ran, t, |b|, start, k);
    }
    OutputsAreRead(b[t]);
    ExecIsLocal(b[t].code, [], Partial(b, ran, |b|, start), Serial(b, t, start), Reads(b[t]), Outputs(b[t]));
  }
}
