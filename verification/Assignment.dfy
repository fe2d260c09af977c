/** Components of a block, dealt to followers; each follower's share of the block, and why
    the shares can be executed apart. */
module Assignment {
  import opened Wrappers
  import opened SharedMap
  import opened Block
  import opened TaskCore
  import opened Graph
  import opened Sets

  /** The dependency graph of a block: cell (i, j) of its matrix. */
  ghost function GraphOf(b: Txns): Graph {
    Graph(|b|, set i: nat, j: nat | i in Range(|b|) && j in Range(|b|) && Edge(b, i, j) :: (i, j))
  }

  /** The node each component is assigned to. */
  type Owners = seq<nat>

  /** The transactions assigned to node f. */
  ghost function Mine(t: Table, owners: Owners, f: nat): set<nat>
    requires |owners| == |t|
  {
    set c, v | 0 <= c < |t| && owners[c] == f && v in t[c].transactionList :: v
  }

  ghost predicate Dealt(b: Txns, t: Table, owners: Owners) {
    |owners| == |t| && IsComponentTable(GraphOf(b), t)
  }

  ghost function JobOf(b: Txns, t: Table, owners: Owners, f: nat, start: Store): Job
    requires |owners| == |t|
  {
    Job(b, start, Mine(t, owners, f))
  }

  lemma {:induction false} EdgeStaysInComponent(b: Txns, t: Table, i: nat, j: nat, c: nat)
    requires IsComponentTable(GraphOf(b), t) && Edge(b, i, j) && c < |t|
    ensures i in t[c].transactionList <==> j in t[c].transactionList
  {
    var g := GraphOf(b);
    assert (i, j) in g.edges;
    assert Link(g, i, j) && Link(g, j, i);
    LinkConnects(g, i, j);
    LinkConnects(g, j, i);
  }

  /** Every share is closed under conflicts, so it is a job of its own. */
  lemma {:induction false} ShareIsValidJob(b: Txns, t: Table, owners: Owners, f: nat, start: Store)
    requires WellDeclared(b) && Dealt(b, t, owners)
    ensures ValidJob(JobOf(b, t, owners, f, start))
  {
    var mine := Mine(t, owners, f);
    forall i: nat, j: nat | Edge(b, i, j) ensures i in mine <==> j in mine {
      forall c: nat | c < |t| ensures i in t[c].transactionList <==> j in t[c].transactionList {
        EdgeStaysInComponent(b, t, i, j, c);
      }
    }
  }

  /** The node that owns v. */
  ghost function OwnerOf(b: Txns, t: Table, owners: Owners, v: nat): (f: nat)
    requires Dealt(b, t, owners) && v < |b|
    ensures v in Mine(t, owners, f)
  {
    assert InSome(t, v);
    var c :| 0 <= c < |t| && v in t[c].transactionList;
    owners[c]
  }

  lemma {:induction false} OwnerIsUnique(b: Txns, t: Table, owners: Owners, v: nat, f: nat)
    requires Dealt(b, t, owners) && v < |b| && v in Mine(t, owners, f)
    ensures f == OwnerOf(b, t, owners, v)
  {
    var h := OwnerOf(b, t, owners, v);
    var c :| 0 <= c < |t| && owners[c] == f && v in t[c].transactionList;
    var d :| 0 <= d < |t| && owners[d] == h && v in t[d].transactionList;
    assert !(c < d) && !(d < c);
  }

  /* ----- merging the shares ----- */

  /** The map node f ends with when its share runs in block order from an empty map. */
  ghost function ShareMap(b: Txns, t: Table, owners: Owners, f: nat): Store
    requires |owners| == |t|
  {
    Partial(b, Mine(t, owners, f), |b|, map[])
  }

  /** Where a share touches an address its map is the serial map; elsewhere it has no entry. */
  lemma {:induction false} ShareMapAt(b: Txns, t: Table, owners: Owners, f: nat, k: string)
    requires WellDeclared(b) && Dealt(b, t, owners)
    ensures Look(ShareMap(b, t, owners, f), k)
            == if exists x :: x in Mine(t, owners, f) && x < |b| && k in Outputs(b[x])
               then Look(Serial(b, |b|, map[]), k) else None
  {
    var mine := Mine(t, owners, f);
    ShareIsValidJob(b, t, owners, f, map[]);
    if x :| x in mine && x < |b| && k in Outputs(b[x]) {
      forall y: nat | y < |b| && k in Outputs(b[y]) ensures y in mine {
        if x != y {
          SharedOutputIsEdge(b, x, y, k);
        }
      }
      PartialAgreesWithSerial(b, mine, |b|, map[], k);
    } else {
      PartialUnchangedWhereNothingRan(b, mine, 0, |b|, map[], k);
    }
  }

  lemma {:induction false} SharedOutputIsEdge(b: Txns, x: nat, y: nat, k: string)
    requires x < |b| && y < |b| && x != y && k in Outputs(b[x]) && k in Outputs(b[y])
    ensures Edge(b, x, y) || Edge(b, y, x)
  {
    if x < y {
      assert Shares(b[x].outputs, b[y].outputs);
    } else {
      assert Shares(b[y].outputs, b[x].outputs);
    }
  }

  /** Two followers never write the same address. */
  lemma {:induction false} ShareMapsAreDisjoint(b: Txns, t: Table, owners: Owners, f: nat, h: nat)
    requires WellDeclared(b) && Dealt(b, t, owners) && f != h
    ensures ShareMap(b, t, owners, f).Keys !! ShareMap(b, t, owners, h).Keys
  {
    forall k | k in ShareMap(b, t, owners, f) && k in ShareMap(b, t, owners, h) ensures false {
      ShareMapAt(b, t, owners, f, k);
      ShareMapAt(b, t, owners, h, k);
      var x :| x in Mine(t, owners, f) && x < |b| && k in Outputs(b[x]);
      var y :| y in Mine(t, owners, h) && y < |b| && k in Outputs(b[y]);
      OwnerIsUnique(b, t, owners, x, f);
      OwnerIsUnique(b, t, owners, y, h);
      ShareIsValidJob(b, t, owners, f, map[]);
      if x != y {
        SharedOutputIsEdge(b, x, y, k);
      }
    }
  }

  /** One insert per pair, in the order given. */
  function InsertPairs(state: Store, pairs: seq<(string, string)>): Store {
    if pairs == [] then state
    else InsertPairs(state, pairs[..|pairs| - 1])[pairs[|pairs| - 1].0 := pairs[|pairs| - 1].1]
  }

  ghost predicate HasPair(pairs: seq<(string, string)>, k: string, v: string) {
    exists i :: 0 <= i < |pairs| && pairs[i] == (k, v)
  }

  lemma {:induction false} InsertPairsAt(state: Store, pairs: seq<(string, string)>, final: Store)
    requires forall i :: 0 <= i < |pairs| ==> pairs[i].0 in final && final[pairs[i].0] == pairs[i].1
    ensures forall k :: Look(InsertPairs(state, pairs), k)
                        == if exists i :: 0 <= i < |pairs| && pairs[i].0 == k then Look(final, k) else Look(state, k)
  {
    if pairs != [] {
      var most, last := pairs[..|pairs| - 1], pairs[|pairs| - 1];
      InsertPairsAt(state, most, final);
      forall k ensures Look(InsertPairs(state, pairs), k)
                       == if exists i :: 0 <= i < |pairs| && pairs[i].0 == k then Look(final, k) else Look(state, k)
      {
        if k == last.0 {
          assert pairs[|pairs| - 1].0 == k;
        } else if i :| 0 <= i < |pairs| && pairs[i].0 == k {
          assert most[i].0 == k;
        } else {
          forall i | 0 <= i < |most| ensures most[i].0 != k {
            assert pairs[i].0 != k;
          }
        }
      }
    }
  }

  ghost predicate FromSomeShare(b: Txns, t: Table, owners: Owners, k: string, v: string)
    requires |owners| == |t|
  {
    exists f: nat :: Look(ShareMap(b, t, owners, f), k) == Some(v)
  }

  /** The pairs are those of the followers' maps, each at least once, in any order at all. */
  ghost predicate IsInterleaving(b: Txns, t: Table, owners: Owners, pairs: seq<(string, string)>)
    requires |owners| == |t|
  {
    && (forall i :: 0 <= i < |pairs| ==>
          FromSomeShare(b, t, owners, pairs[i].0, pairs[i].1))
    && (forall f: nat, k :: k in ShareMap(b, t, owners, f) ==> HasPair(pairs, k, ShareMap(b, t, owners, f)[k]))
  }

  /** Inserting the followers' maps, pair by pair and in any order, updates the state exactly
      as executing the whole block in order would. */
  lemma {:induction false} MergeIsSerial(b: Txns, t: Table, owners: Owners, state: Store, pairs: seq<(string, string)>)
    requires WellDeclared(b) && Dealt(b, t, owners) && IsInterleaving(b, t, owners, pairs)
    ensures InsertPairs(state, pairs) == state + Serial(b, |b|, map[])
  {
    var final := Serial(b, |b|, map[]);
    forall i | 0 <= i < |pairs| ensures pairs[i].0 in final && final[pairs[i].0] == pairs[i].1 {
      assert FromSomeShare(b, t, owners, pairs[i].0, pairs[i].1);
      var f: nat :| Look(ShareMap(b, t, owners, f), pairs[i].0) == Some(pairs[i].1);
      ShareMapAt(b, t, owners, f, pairs[i].0);
      assert Look(final, pairs[i].0) == Some(pairs[i].1);
    }
    InsertPairsAt(state, pairs, final);
    forall k ensures Look(InsertPairs(state, pairs), k) == Look(state + final, k) {
      if x: nat :| x < |b| && k in Outputs(b[x]) {
        var f := OwnerOf(b, t, owners, x);
        ShareMapAt(b, t, owners, f, k);
        if k in final {
          assert HasPair(pairs, k, ShareMap(b, t, owners, f)[k]);
        }
      } else {
        SerialWhereUntouched(b, k);
      }
    }
    SameLooksSameMap(InsertPairs(state, pairs), state + final);
  }

  lemma {:induction false} SerialWhereUntouched(b: Txns, k: string)
    requires WellDeclared(b) && forall x: nat :: x < |b| ==> k !in Outputs(b[x])
    ensures Look(Serial(b, |b|, map[]), k) == None
  {
    PartialOfAllIsSerial(b, Range(|b|), |b|, map[]);
    PartialUnchangedWhereNothingRan(b, Range(|b|), 0, |b|, map[], k);
  }
}
