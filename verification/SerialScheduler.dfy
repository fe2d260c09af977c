/** The single-worker scheduler: the reference the parallel and the distributed schedulers are
    measured against, and the commit of a block to the Merkle state. */
module SerialScheduler {
  import opened SharedMap
  import opened Block
  import opened TaskCore
  import opened DagModule
  import opened NodeCodec
  import opened StoredTree
  import opened StoredStateModule
  import Records = MerkleTree

  /** The in-degrees when the first k transactions are complete and no other is claimed. */
  ghost predicate DegreesAt(b: Txns, d: seq<int>, k: nat) {
    && |d| == |b|
    && forall j: nat :: j < |b| ==> d[j] == if j < k then -2 else |PredsFrom(b, j, k)|
  }

  lemma {:induction false} DegreesAtStart(b: Txns, d: seq<int>)
    requires |d| == |b| && forall j: nat :: j < |b| ==> d[j] == |Preds(b, j)|
    ensures DegreesAt(b, d, 0)
  {
    forall j: nat | j < |b| ensures PredsFrom(b, j, 0) == Preds(b, j) {
    }
  }

  lemma {:induction false} NextIsZero(b: Txns, d: seq<int>, k: nat)
    requires DegreesAt(b, d, k) && k < |b|
    ensures d[k] == 0 && forall j: nat :: j < k ==> d[j] != 0
  {
    assert PredsFrom(b, k, k) == {};
  }

  lemma {:induction false} DegreesAfterComplete(b: Txns, d: seq<int>, d': seq<int>, k: nat)
    requires DegreesAt(b, d, k) && k < |b| && |d'| == |b|
    requires forall j: nat :: j < |b| ==> d'[j] == d[k := -1][j] - if j == k || Edge(b, k, j) then 1 else 0
    ensures DegreesAt(b, d', k + 1)
  {
    hide Conflict;
    forall j: nat | j < |b| ensures d'[j] == if j < k + 1 then -2 else |PredsFrom(b, j, k + 1)| {
      PredsFromNext(b, j, k);
    }
  }

  /** The first k transactions have run in block order; all but the last of them must have
      succeeded, and the last one has if the flag is up. */
  ghost predicate RunSoFar(b: Txns, start: Store, k: nat, flag: bool, m: Store) {
    && k <= |b| && m == Serial(b, k, start)
    && (forall t: nat :: t < k && (flag || t < k - 1) ==> SerialOk(b, t, start))
    && (!flag ==> k > 0 && !SerialOk(b, k - 1, start))
  }

  lemma {:induction false} RunNext(b: Txns, start: Store, k: nat, m: Store, ok: bool, m': Store)
    requires RunSoFar(b, start, k, true, m) && k < |b| && Outcome(ok, m') == Exec(b[k].code, [], m)
    ensures RunSoFar(b, start, k + 1, ok, m')
  {
  }

  /** The digests of these keys differ. */
  ghost predicate DistinctDigests(h: Digest, keys: set<string>) {
    forall a, b :: a in keys && b in keys && h(a) == h(b) ==> a == b
  }

  /** The state shows the map's value, up to its first comma, wherever the map has one, and what
      it showed before everywhere else. */
  ghost predicate Committed(h: Digest, was: Bytes, now: Bytes, m: Store) {
    forall key :: DistinctDigests(h, m.Keys + {key}) ==>
      Lookup(h, now, key) == if key in m then UpToComma(m[key]) else Lookup(h, was, key)
  }

  ghost predicate CommaFreeValues(m: Store) {
    forall k :: k in m ==> CommaFree(m[k])
  }

  /** A committed value reads back whole exactly when it has no comma in it. */
  lemma {:induction false} CommittedValueIffCommaFree(h: Digest, was: Bytes, now: Bytes, m: Store, key: string)
    requires Committed(h, was, now, m) && DistinctDigests(h, m.Keys) && key in m
    ensures Lookup(h, now, key) == m[key] <==> CommaFree(m[key])
  {
    hide Lookup, UpToComma;
    assert m.Keys + {key} == m.Keys;
    WholeIffCommaFree(m[key]);
  }

  /** A map without commas in its values is committed as it is. */
  lemma {:induction false} CommittedExactly(h: Digest, was: Bytes, now: Bytes, m: Store, key: string)
    requires Committed(h, was, now, m) && CommaFreeValues(m) && DistinctDigests(h, m.Keys + {key})
    ensures Lookup(h, now, key) == if key in m then m[key] else Lookup(h, was, key)
  {
    hide Lookup, UpToComma;
    if key in m {
      WholeIffCommaFree(m[key]);
    }
  }

  /** The entries of a map, in the order in which the hash map is traversed. */
  ghost predicate EntriesOf(m: Store, entries: seq<(string, string)>) {
    && (forall i :: 0 <= i < |entries| ==> entries[i].0 in m && m[entries[i].0] == entries[i].1)
    && (forall i, j :: 0 <= i < j < |entries| ==> entries[i].0 != entries[j].0)
    && (forall k :: k in m ==> exists i :: 0 <= i < |entries| && entries[i].0 == k)
  }

  lemma {:induction false} LastValueOfEntries(h: Digest, m: Store, entries: seq<(string, string)>, key: string, otherwise: string)
    requires forall i :: 0 <= i < |entries| ==> entries[i].0 in m && m[entries[i].0] == entries[i].1
    requires DistinctDigests(h, m.Keys + {key})
    ensures LastValue(h, entries, key, otherwise)
            == if exists i :: 0 <= i < |entries| && entries[i].0 == key then UpToComma(m[key]) else otherwise
  {
    hide UpToComma;
    if entries != [] {
      var most, last := entries[..|entries| - 1], entries[|entries| - 1];
      LastValueOfEntries(h, m, most, key, otherwise);
      assert last.0 in m.Keys + {key};
      if h(last.0) == h(key) {
        assert entries[|entries| - 1].0 == key;
      } else if i :| 0 <= i < |entries| && entries[i].0 == key {
        assert most[i].0 == key;
      } else {
        forall i | 0 <= i < |most| ensures most[i].0 != key {
          assert entries[i].0 != key;
        }
      }
    }
  }

  /** Any way of storing the entries that leaves the last value under every digest commits. */
  lemma {:induction false} EntriesCommit(h: Digest, was: Bytes, now: Bytes, m: Store, entries: seq<(string, string)>)
    requires EntriesOf(m, entries)
    requires forall key :: Lookup(h, now, key) == LastValue(h, entries, key, Lookup(h, was, key))
    ensures Committed(h, was, now, m)
  {
    forall key | DistinctDigests(h, m.Keys + {key})
      ensures Lookup(h, now, key) == if key in m then UpToComma(m[key]) else Lookup(h, was, key)
    {
      LastValueOfEntries(h, m, entries, key, Lookup(h, was, key));
      assert key in m <==> exists i :: 0 <= i < |entries| && entries[i].0 == key;
    }
  }

  class Scheduler {
    const state: StoredState
    const dag: DAGmodule
    var transactions: Txns
    var flag: bool
    var myMap: Store

    constructor (s: StoredState)
      ensures state == s && transactions == [] && myMap == map[] && flag
      ensures fresh(dag) && dag.CurrentTransactions == [] && dag.completedTxns == 0
    {
      state := s;
      dag := new DAGmodule();
      transactions, flag, myMap := [], true, map[];
    }

    method ExtractBlock(block: Txns)
      requires dag.CurrentTransactions == [] && dag.completedTxns == 0
      modifies this`transactions, dag
      ensures transactions == block && fresh(dag.inDegree) && fresh(dag.adjacencyMatrix)
      ensures Ready()
    {
      transactions := block;
      dag.Create(block);
      DegreesAtStart(block, dag.inDegree[..]);
    }

    /** A block has been extracted and none of it has run. */
    ghost predicate Ready()
      reads this, dag, dag.adjacencyMatrix, dag.inDegree
    {
      && dag.MatrixIsConflict() && dag.CurrentTransactions == transactions && dag.completedTxns == 0
      && DegreesAt(transactions, dag.inDegree[..], 0)
    }

    /** ProcessTxn: one access after the other, until the payload returns. */
    method ProcessTxn(code: Code) returns (ok: bool)
      modifies this`myMap
      ensures Outcome(ok, myMap) == Exec(code, [], old(myMap))
    {
      var log: Log := [];
      while !code(log).Return? && |log| < MAX_ACCESSES
        invariant |log| <= MAX_ACCESSES
        invariant Exec(code, log, myMap) == Exec(code, [], old(myMap))
      {
        var action := code(log);
        log := log + [Look(myMap, action.key)];
        myMap := Apply(action, myMap);
      }
      return code(log).Return? && code(log).ok;
    }

    /** The single worker picks 0, 1, 2, ... and stops at the first failure.  `picks` are the
        results of its selections: it never finds nothing to select, so the number of
        unfinished transactions bounds its loop. */
    method ExecuteTxns() returns (ghost picks: seq<int>)
      requires Ready() && flag
      modifies this`flag, this`myMap, dag`completedTxns, dag`lastTxn, dag.inDegree
      ensures 0 <= dag.completedTxns <= |transactions|
      ensures RunSoFar(transactions, old(myMap), dag.completedTxns, flag, myMap)
      ensures flag ==> dag.completedTxns == |transactions|
      ensures |picks| == dag.completedTxns && forall i :: 0 <= i < |picks| ==> picks[i] == i
    {
      hide RunSoFar, DegreesAt, Edge;
      ghost var start, b := myMap, transactions;
      ghost var k: nat := 0;
      picks := [];
      assert RunSoFar(b, start, 0, true, start) by {
        RunStart(b, start);
      }
      RunBound(b, start, k, flag, myMap);
      while dag.completedTxns < dag.totalTxns && flag
        invariant dag.MatrixIsConflict() && dag.CurrentTransactions == transactions == b
        invariant k == dag.completedTxns && k <= |b|
        invariant |picks| == k && forall i :: 0 <= i < |picks| ==> picks[i] == i
        invariant DegreesAt(b, dag.inDegree[..], k)
        invariant RunSoFar(b, start, k, flag, myMap)
        decreases dag.totalTxns - dag.completedTxns
      {
        ghost var d := dag.inDegree[..];
        NextIsZero(b, d, k);
        var txnId := dag.SelectTxn();
        picks := picks + [txnId];
        if txnId != -1 {
          ghost var before := myMap;
          flag := ProcessTxn(transactions[txnId].code);
          RunNext(b, start, k, before, flag, myMap);
          assert dag.inDegree[..] == d[k := -1];
          dag.Complete(txnId);
          DegreesAfterComplete(b, d, dag.inDegree[..], k);
          k := k + 1;
        }
      }
    }

    /** Copies the entries out of the hash map. */
    method Entries() returns (entries: seq<(string, string)>)
      ensures EntriesOf(myMap, entries)
    {
      entries := [];
      var rest := myMap.Keys;
      while rest != {}
        invariant rest <= myMap.Keys
        invariant forall i :: 0 <= i < |entries| ==>
                    entries[i].0 in myMap && myMap[entries[i].0] == entries[i].1 && entries[i].0 !in rest
        invariant forall i, j :: 0 <= i < j < |entries| ==> entries[i].0 != entries[j].0
        invariant forall k :: k in myMap && k !in rest ==> exists i :: 0 <= i < |entries| && entries[i].0 == k
        decreases rest
      {
        var k :| k in rest;
        ghost var before := entries;
        entries := entries + [(k, myMap[k])];
        rest := rest - {k};
        forall x | x in myMap && x !in rest ensures exists i :: 0 <= i < |entries| && entries[i].0 == x {
          if x == k {
            assert entries[|before|].0 == x;
          } else {
            var i :| 0 <= i < |before| && before[i].0 == x;
            assert entries[i].0 == x;
          }
        }
      }
    }

    /** Every entry is inserted, then the prefixes of every raw key are rehashed.  The keys of the
        map must not be empty: the rehash drops their last character first. */
    method FlushMapToState()
      requires Records.GoodDigest(state.computeHash, state.len) && !state.eager && "" !in myMap
      modifies state`db
      ensures Committed(state.computeHash, old(state.db), state.db, myMap)
    {
      hide LazyInsert, RehashPath, Records.GoodDigest, Lookup, Committed, LastValue;
      GoodDigestIsClean(state.computeHash, state.len);
      var entries := Entries();
      ghost var was, h := state.db, state.computeHash;
      for i := 0 to |entries|
        invariant state.db == LazyAll(h, was, entries[..i])
      {
        assert entries[..i+1][..i] == entries[..i];
        state.Insert(entries[i].0, entries[i].1);
      }
      assert entries[..|entries|] == entries;
      ghost var stored := state.db;
      forall key ensures Lookup(h, stored, key) == LastValue(h, entries, key, Lookup(h, was, key)) {
        LookupIsLastValue(h, was, entries, key);
      }
      for i := 0 to |entries|
        invariant forall key :: Lookup(h, state.db, key) == Lookup(h, stored, key)
      {
        ghost var before := state.db;
        state.UpdateParentHashes(entries[i].0);
        RehashKeepsLookups(h, before, entries[i].0);
      }
      EntriesCommit(h, was, state.db, myMap, entries);
    }

    /** A block is all or nothing: the verdict is true exactly if every transaction succeeds in
        block order; then the state shows the serial result, and otherwise it is untouched. */
    method SchedulTxns() returns (ok: bool)
      requires Ready() && Records.GoodDigest(state.computeHash, state.len) && !state.eager
      requires "" !in Serial(transactions, |transactions|, myMap)
      modifies this`flag, this`myMap, dag`completedTxns, dag`lastTxn, dag.inDegree, state`db
      ensures ok <==> AllSerialOk(transactions, old(myMap))
      ensures ok ==> Committed(state.computeHash, old(state.db), state.db,
                               Serial(transactions, |transactions|, old(myMap)))
      ensures !ok ==> state.db == old(state.db)
    {
      hide Committed, Records.GoodDigest, DegreesAt, Edge;
      flag := true;
      ghost var picks := ExecuteTxns();
      if flag {
        FlushMapToState();
      }
      return flag;
    }
  }

  lemma {:induction false} RunStart(b: Txns, start: Store)
    ensures RunSoFar(b, start, 0, true, start)
  {
  }

  lemma {:induction false} RunBound(b: Txns, start: Store, k: nat, flag: bool, m: Store)
    requires RunSoFar(b, start, k, flag, m)
    ensures k <= |b|
  {
  }

  lemma {:induction false} RehashKeepsLookups(h: Digest, db: Bytes, key: string)
    requires CleanDigest(h) && key != ""
    ensures forall other :: Lookup(h, RehashPath(h, db, key, |key| - 1), other) == Lookup(h, db, other)
  {
    hide GetNode, RehashPath;
    RehashPathKeepsValues(h, db, key, |key| - 1);
  }
}
