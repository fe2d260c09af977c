/** The commit of the parallel scheduler: several threads insert chunks of the write map into
    one tree without any lock.  They race on the child lists of shared prefixes, but not on
    the leaves, so lookups come out right in every interleaving. */
module ParallelFlush {
  import opened SharedMap
  import opened NodeCodec
  import opened StoredTree
  import Records = MerkleTree
  import opened SerialScheduler
  import opened Block
  import ParallelTheorems
  import WorkerMachine

  type Entries = seq<(string, string)>

  /* ----- chunks ----- */

  function ChunkSize(n: nat, k: nat): nat
    requires k >= 1
  {
    (n + k - 1) / k
  }

  function ChunkStart(n: nat, k: nat, t: nat): (r: nat)
    requires k >= 1
  {
    Product(t, ChunkSize(n, k))
  }

  function Product(a: nat, b: nat): nat {
    if a == 0 then 0 else b + Product(a - 1, b)
  }

  function ChunkEnd(n: nat, k: nat, t: nat): nat
    requires k >= 1
  {
    var end := ChunkStart(n, k, t) + ChunkSize(n, k);
    if end <= n then end else n
  }

  ghost predicate InChunk(n: nat, k: nat, t: nat, i: nat)
    requires k >= 1
  {
    t < k && ChunkStart(n, k, t) <= i < ChunkEnd(n, k, t)
  }

  lemma {:induction false} ChunkEndInRange(n: nat, k: nat, t: nat)
    requires k >= 1
    ensures ChunkEnd(n, k, t) <= n
  {
  }

  lemma {:induction false} ProductIsMul(a: nat, b: nat)
    ensures Product(a, b) == a * b
  {
    if a > 0 {
      ProductIsMul(a - 1, b);
    }
  }

  lemma {:induction false} ProductMonotone(a: nat, a': nat, b: nat)
    requires a < a'
    ensures Product(a, b) + b <= Product(a', b)
  {
    if a + 1 < a' {
      ProductMonotone(a, a' - 1, b);
    }
  }

  lemma {:induction false} ChunksAreEnough(n: nat, k: nat)
    requires k >= 1
    ensures n <= ChunkStart(n, k, k)
  {
    ProductIsMul(k, ChunkSize(n, k));
    var q, r := (n + k - 1) / k, (n + k - 1) % k;
    assert n + k - 1 == k * q + r;
  }

  lemma {:induction false} OwnerOfEntry(n: nat, k: nat, i: nat, m: nat) returns (t: nat)
    requires 1 <= k && m <= k && i < n && i < ChunkStart(n, k, m)
    ensures t < m && InChunk(n, k, t, i)
  {
    if i >= ChunkStart(n, k, m - 1) {
      t := m - 1;
    } else {
      t := OwnerOfEntry(n, k, i, m - 1);
    }
  }

  /** For any number of threads every entry is in exactly one chunk. */
  lemma {:induction false} FlushChunksTile(n: nat, k: nat, i: nat)
    requires k >= 1
    ensures forall p: nat :: InChunk(n, k, p, i) ==> p < k
    ensures i < n <==> exists t: nat :: InChunk(n, k, t, i)
    ensures forall t: nat, u: nat :: InChunk(n, k, t, i) && InChunk(n, k, u, i) ==> t == u
  {
    if i < n {
      ChunksAreEnough(n, k);
      var t := OwnerOfEntry(n, k, i, k);
    }
    forall t: nat, u: nat | InChunk(n, k, t, i) && InChunk(n, k, u, i) ensures t == u {
      if t < u {
        ProductMonotone(t, u, ChunkSize(n, k));
      } else if u < t {
        ProductMonotone(u, t, ChunkSize(n, k));
      }
    }
  }

  /* ----- the machine ----- */

  /** About to put the leaf of entry i; about to read the parent of its prefix of length j;
      about to put that parent back if the prefix is missing from it. */
  datatype Pc = PutLeaf(i: nat) | GetParent(i: nat, j: nat) | PutParent(i: nat, j: nat, parent: Records.Node)

  datatype Flush = Flush(db: Bytes, threads: seq<Pc>)

  ghost predicate Fits(h: Digest, es: Entries, s: Flush) {
    && s.threads != []
    && forall t :: 0 <= t < |s.threads| && !s.threads[t].PutLeaf? ==>
         s.threads[t].i < |es| && 1 <= s.threads[t].j <= |h(es[s.threads[t].i].0)|
  }

  ghost function StartOfFlush(db: Bytes, es: Entries, k: nat): Flush
    requires k >= 1
  {
    Flush(db, seq(k, t requires 0 <= t < k => PutLeaf(ChunkStart(|es|, k, t))))
  }

  ghost function NextPrefix(d: string, i: nat, j: nat): Pc {
    if j < |d| then GetParent(i, j + 1) else PutLeaf(i + 1)
  }

  ghost function FlushStep(h: Digest, es: Entries, s: Flush, t: nat): Flush
    requires Fits(h, es, s)
  {
    if t >= |s.threads| then s else
    var pc := s.threads[t];
    if pc.PutLeaf? then
      if pc.i < ChunkEnd(|es|, |s.threads|, t) then
        var d, v := h(es[pc.i].0), es[pc.i].1;
        Flush(Put(s.db, d, Records.Node(v, h(v), [])), s.threads[t := NextPrefix(d, pc.i, 0)])
      else s
    else
      var d := h(es[pc.i].0);
      var parentKey := Records.Parent(d[..pc.j]);
      if pc.GetParent? then
        s.(threads := s.threads[t := PutParent(pc.i, pc.j, GetNode(s.db, parentKey))])
      else if d[..pc.j] in pc.parent.children then
        s.(threads := s.threads[t := NextPrefix(d, pc.i, pc.j)])
      else
        Flush(Put(s.db, parentKey, pc.parent.(children := pc.parent.children + [d[..pc.j]])),
              s.threads[t := NextPrefix(d, pc.i, pc.j)])
  }

  ghost function Flushed(h: Digest, db: Bytes, es: Entries, k: nat, schedule: seq<nat>): (s: Flush)
    requires k >= 1
    ensures Fits(h, es, s) && |s.threads| == k
  {
    if schedule == [] then StartOfFlush(db, es, k)
    else FlushStep(h, es, Flushed(h, db, es, k, schedule[..|schedule| - 1]), schedule[|schedule| - 1])
  }

  ghost predicate AllDone(es: Entries, s: Flush) {
    s.threads != []
    && forall t :: 0 <= t < |s.threads| ==> s.threads[t].PutLeaf? && s.threads[t].i >= ChunkEnd(|es|, |s.threads|, t)
  }

  /* ----- invariant ----- */

  ghost predicate Past(pc: Pc, i: nat) {
    i < pc.i || (i == pc.i && !pc.PutLeaf?)
  }

  /** The leaf of entry i has been put. */
  ghost predicate Stored(es: Entries, s: Flush, i: nat)
    requires s.threads != []
  {
    exists t: nat :: InChunk(|es|, |s.threads|, t, i) && Past(s.threads[t], i)
  }

  /** No two entries have the same digest. */
  ghost predicate Apart(h: Digest, es: Entries) {
    forall i, j :: 0 <= i < j < |es| ==> h(es[i].0) != h(es[j].0)
  }

  ghost predicate SameDigest(h: Digest, es: Entries, i: int, key: string) {
    0 <= i < |es| && h(es[i].0) == h(key)
  }

  /** A key reads the value of the stored entry with its digest, and otherwise its old value. */
  ghost predicate KeyInv(h: Digest, was: Bytes, es: Entries, s: Flush, key: string)
    requires s.threads != []
  {
    && (forall i: nat :: SameDigest(h, es, i, key) ==>
          Lookup(h, s.db, key) == if Stored(es, s, i) then UpToComma(es[i].1) else Lookup(h, was, key))
    && ((forall i: nat :: !SameDigest(h, es, i, key)) ==> Lookup(h, s.db, key) == Lookup(h, was, key))
  }

  ghost predicate FlushInv(h: Digest, was: Bytes, es: Entries, s: Flush) {
    && Fits(h, es, s)
    && (forall t: nat :: t < |s.threads| ==> ChunkStart(|es|, |s.threads|, t) <= s.threads[t].i)
    && (forall key :: KeyInv(h, was, es, s, key))
  }

  lemma {:induction false} StartInv(h: Digest, was: Bytes, es: Entries, k: nat)
    requires k >= 1
    ensures FlushInv(h, was, es, StartOfFlush(was, es, k))
  {
    hide ChunkStart, ChunkEnd;
    var s := StartOfFlush(was, es, k);
    forall i: nat ensures !Stored(es, s, i) {
    }
  }

  /** Only a put of its own leaf changes what a step of thread t has stored. */
  lemma {:induction false} StoredAfter(es: Entries, s: Flush, s': Flush, t: nat, i: nat)
    requires s.threads != [] && t < |s.threads| && |s'.threads| == |s.threads|
    requires s'.threads == s.threads[t := s'.threads[t]]
    ensures InChunk(|es|, |s.threads|, t, i) ==>
              Stored(es, s', i) == Past(s'.threads[t], i) && Stored(es, s, i) == Past(s.threads[t], i)
    ensures !InChunk(|es|, |s.threads|, t, i) ==> Stored(es, s', i) == Stored(es, s, i)
  {
    hide Past, InChunk;
    FlushChunksTile(|es|, |s.threads|, i);
    if !InChunk(|es|, |s.threads|, t, i) {
      forall u: nat | InChunk(|es|, |s.threads|, u, i) ensures s'.threads[u] == s.threads[u] {
      }
    }
  }

  /** A parent key is never a digest. */
  lemma {:induction false} ParentIsNoDigest(h: Digest, len: nat, d: string, j: nat, key: string)
    requires Records.GoodDigest(h, len) && |d| == len && 1 <= j <= len
    ensures Records.Parent(d[..j]) != h(key)
  {
    Records.RootIsNotHex();
    assert |h(key)| == len && Records.IsHex(h(key));
  }

  /** A step that does not put a leaf. */
  lemma {:induction false} PathStepKeepsKey(h: Digest, len: nat, was: Bytes, es: Entries, s: Flush, t: nat, key: string)
    requires Records.GoodDigest(h, len) && FlushInv(h, was, es, s) && t < |s.threads| && !s.threads[t].PutLeaf?
    ensures KeyInv(h, was, es, FlushStep(h, es, s, t), key)
  {
    hide Records.GoodDigest, Records.Parent, Stored, InChunk, ChunkStart, ChunkEnd;
    var s' := FlushStep(h, es, s, t);
    var pc := s.threads[t];
    DigestLength(h, len, es[pc.i].0);
    ParentIsNoDigest(h, len, h(es[pc.i].0), pc.j, key);
    assert Lookup(h, s'.db, key) == Lookup(h, s.db, key);
    forall i: nat ensures Stored(es, s', i) == Stored(es, s, i) {
      StoredAfter(es, s, s', t, i);
      MovedPast(es, s, t, i);
    }
    assert KeyInv(h, was, es, s, key);
  }

  lemma {:induction false} DigestLength(h: Digest, len: nat, key: string)
    requires Records.GoodDigest(h, len)
    ensures |h(key)| == len >= 1
  {
  }

  lemma {:induction false} MovedPast(es: Entries, s: Flush, t: nat, i: nat)
    requires s.threads != [] && t < |s.threads| && !s.threads[t].PutLeaf?
    ensures forall pc: Pc :: pc == PutLeaf(s.threads[t].i + 1) || (pc.i == s.threads[t].i && !pc.PutLeaf?) ==>
              Past(pc, i) == Past(s.threads[t], i)
  {
  }

  lemma {:induction false} LeafStepKeepsKey(h: Digest, len: nat, was: Bytes, es: Entries, s: Flush, t: nat, key: string)
    requires Records.GoodDigest(h, len) && Apart(h, es) && FlushInv(h, was, es, s)
    requires t < |s.threads| && s.threads[t].PutLeaf? && s.threads[t].i < ChunkEnd(|es|, |s.threads|, t)
    ensures KeyInv(h, was, es, FlushStep(h, es, s, t), key)
  {
    hide Records.GoodDigest, Records.Parent, Stored, Parsed, Serialized, UpToComma, ChunkStart, ChunkEnd;
    var s' := FlushStep(h, es, s, t);
    var x := s.threads[t].i;
    ChunkEndInRange(|es|, |s.threads|, t);
    DigestLength(h, len, es[x].0);
    GoodDigestIsClean(h, len);
    LeafComesBack(h(es[x].1), es[x].1);
    assert InChunk(|es|, |s.threads|, t, x);
    forall i: nat ensures Stored(es, s', i) <==> Stored(es, s, i) || i == x {
      StoredAfter(es, s, s', t, i);
    }
    assert KeyInv(h, was, es, s, key);
    forall i: nat | SameDigest(h, es, i, key)
      ensures Lookup(h, s'.db, key) == if Stored(es, s', i) then UpToComma(es[i].1) else Lookup(h, was, key)
    {
      assert h(es[x].0) == h(key) <==> i == x;
    }
    if forall i: nat :: !SameDigest(h, es, i, key) {
      assert !SameDigest(h, es, x, key);
    }
  }

  lemma {:induction false} FlushStepKeepsInv(h: Digest, len: nat, was: Bytes, es: Entries, s: Flush, t: nat)
    requires Records.GoodDigest(h, len) && Apart(h, es) && FlushInv(h, was, es, s)
    ensures FlushInv(h, was, es, FlushStep(h, es, s, t))
  {
    hide Records.GoodDigest, Records.Parent, KeyInv, Apart, ChunkStart, ChunkEnd;
    if t < |s.threads| {
      var s' := FlushStep(h, es, s, t);
      ChunkEndInRange(|es|, |s.threads|, t);
      if !s.threads[t].PutLeaf? {
        forall key ensures KeyInv(h, was, es, s', key) {
          PathStepKeepsKey(h, len, was, es, s, t, key);
        }
      } else if s.threads[t].i < ChunkEnd(|es|, |s.threads|, t) {
        forall key ensures KeyInv(h, was, es, s', key) {
          LeafStepKeepsKey(h, len, was, es, s, t, key);
        }
      }
    }
  }

  lemma {:induction false} ReachableFlushInv(h: Digest, len: nat, was: Bytes, es: Entries, k: nat, schedule: seq<nat>)
    requires Records.GoodDigest(h, len) && Apart(h, es) && k >= 1
    ensures FlushInv(h, was, es, Flushed(h, was, es, k, schedule))
  {
    hide FlushInv, FlushStep, Records.GoodDigest, Apart;
    if schedule == [] {
      StartInv(h, was, es, k);
    } else {
      ReachableFlushInv(h, len, was, es, k, schedule[..|schedule| - 1]);
      FlushStepKeepsInv(h, len, was, es, Flushed(h, was, es, k, schedule[..|schedule| - 1]), schedule[|schedule| - 1]);
    }
  }

  /** The sequential rehash of the raw keys that follows. */
  function RehashAll(h: Digest, db: Bytes, keys: seq<string>): Bytes
    requires forall i :: 0 <= i < |keys| ==> keys[i] != ""
  {
    if keys == [] then db
    else
      var last := keys[|keys| - 1];
      RehashPath(h, RehashAll(h, db, keys[..|keys| - 1]), last, |last| - 1)
  }

  lemma {:induction false} RehashAllKeepsLookups(h: Digest, db: Bytes, keys: seq<string>)
    requires CleanDigest(h)
    requires forall i :: 0 <= i < |keys| ==> keys[i] != ""
    ensures forall key :: Lookup(h, RehashAll(h, db, keys), key) == Lookup(h, db, key)
  {
    if keys != [] {
      RehashAllKeepsLookups(h, db, keys[..|keys| - 1]);
      RehashKeepsLookups(h, RehashAll(h, db, keys[..|keys| - 1]), keys[|keys| - 1]);
    }
  }

  /** For any number of threads and any interleaving of their puts and gets, the commit of a
      write map leaves every key with its value in the map if it has one there, and with its
      old value otherwise. */
  lemma {:induction false} ParallelFlushCommits(h: Digest, len: nat, was: Bytes, m: Store, es: Entries, keys: seq<string>,
                                                k: nat, schedule: seq<nat>)
    requires Records.GoodDigest(h, len) && EntriesOf(m, es) && k >= 1
    requires forall i :: 0 <= i < |keys| ==> keys[i] != ""
    requires AllDone(es, Flushed(h, was, es, k, schedule))
    ensures Committed(h, was, RehashAll(h, Flushed(h, was, es, k, schedule).db, keys), m)
  {
    hide Records.GoodDigest, RehashAll, Flushed, AllDone, Lookup;
    var s := Flushed(h, was, es, k, schedule);
    GoodDigestIsClean(h, len);
    RehashAllKeepsLookups(h, s.db, keys);
    forall key | DistinctDigests(h, m.Keys + {key})
      ensures Lookup(h, s.db, key) == if key in m then UpToComma(m[key]) else Lookup(h, was, key)
    {
      forall i, j | 0 <= i < j < |es| ensures h(es[i].0) != h(es[j].0) {
        assert es[i].0 in m.Keys + {key} && es[j].0 in m.Keys + {key};
      }
      ReachableFlushInv(h, len, was, es, k, schedule);
      assert KeyInv(h, was, es, s, key);
      if key in m {
        var i :| 0 <= i < |es| && es[i].0 == key;
        assert SameDigest(h, es, i, key);
        DoneMeansStored(h, es, s, i);
      } else {
        forall i: nat ensures !SameDigest(h, es, i, key) {
          if i < |es| {
            assert es[i].0 in m.Keys + {key} && key in m.Keys + {key};
          }
        }
      }
    }
  }

  lemma {:induction false} DoneMeansStored(h: Digest, es: Entries, s: Flush, i: nat)
    requires AllDone(es, s) && i < |es|
    ensures Stored(es, s, i)
  {
    FlushChunksTile(|es|, |s.threads|, i);
    var t: nat :| InChunk(|es|, |s.threads|, t, i);
    assert Past(s.threads[t], i);
  }

  function KeysOf(es: Entries): seq<string> {
    seq(|es|, i requires 0 <= i < |es| => es[i].0)
  }

  /** schedulTxns of the parallel scheduler: for every number of threads, every interleaving of
      the workers and every interleaving of the commit, the verdict is that of the block in
      order; on success the state shows the serial result, and otherwise it is untouched. */
  lemma {:induction false} ParallelBlockCommits(b: Txns, start: Store, threads: nat, schedule: seq<nat>,
                                                h: Digest, len: nat, was: Bytes, es: Entries, flushing: seq<nat>)
    requires WellDeclared(b) && threads >= 1 && Records.GoodDigest(h, len)
    requires WorkerMachine.AllExited(WorkerMachine.After(WorkerMachine.WholeBlock(b, start), threads, schedule))
    requires var s := WorkerMachine.After(WorkerMachine.WholeBlock(b, start), threads, schedule);
             s.flag ==> EntriesOf(s.core.store, es) && (forall i :: 0 <= i < |es| ==> es[i].0 != "")
                        && AllDone(es, Flushed(h, was, es, threads, flushing))
    ensures var s := WorkerMachine.After(WorkerMachine.WholeBlock(b, start), threads, schedule);
            var now := if s.flag then RehashAll(h, Flushed(h, was, es, threads, flushing).db, KeysOf(es)) else was;
            && (s.flag <==> AllSerialOk(b, start))
            && (AllSerialOk(b, start) ==> Committed(h, was, now, Serial(b, |b|, start)))
            && (!AllSerialOk(b, start) ==> now == was)
  {
    hide WellDeclared, Records.GoodDigest, WorkerMachine.AllExited, WorkerMachine.After, AllDone, Flushed, Committed, Serial, AllSerialOk;
    var s := WorkerMachine.After(WorkerMachine.WholeBlock(b, start), threads, schedule);
    ParallelTheorems.ParallelRunIsSerial(b, start, threads, schedule);
    if s.flag {
      ParallelFlushCommits(h, len, was, s.core.store, es, KeysOf(es), threads, flushing);
    }
  }
}
