/** The one post-order rehash, through the codec: it follows the children that nodes are read back
    with, also those that were never written.  The root it leaves is not the intended one. */
module StoredRehash {
  import opened NodeCodec
  import opened StoredTree
  import Records = MerkleTree

  /** The store, the keys seen, and the hash returned; for a list of children, their hashes one
      after the other. */
  datatype Walk = Walk(db: Bytes, visited: set<string>, hash: string)

  /** The keys and the children read back from any of them: a search from the root meets no other
      key (RehashReach keeps this), so the guard on `u` never applies to it. */
  ghost function Universe(db: Bytes): set<string> {
    {ROOT} + db.Keys + set k, c | k in db && c in Parsed(db[k]).children :: c
  }

  /** dfs(key): a key seen before returns its stored hash. */
  ghost function Visit(h: Digest, u: set<string>, db: Bytes, visited: set<string>, key: string): (w: Walk)
    ensures visited <= w.visited
    decreases |u - visited|, 0
  {
    if key in visited || key !in u then Walk(db, visited, GetNode(db, key).hash)
    else
      FewerLeft(u, visited, key);
      var node := GetNode(db, key);
      var w := VisitAll(h, u, db, visited + {key}, node.children);
      var hash := h(w.hash + node.value);
      Walk(Put(w.db, key, node.(hash := hash)), w.visited, hash)
  }

  ghost function VisitAll(h: Digest, u: set<string>, db: Bytes, visited: set<string>, children: seq<string>): (w: Walk)
    ensures visited <= w.visited
    decreases |u - visited|, |children| + 1
  {
    if children == [] then Walk(db, visited, "")
    else
      var before := VisitAll(h, u, db, visited, children[..|children| - 1]);
      NoMoreLeft(u, visited, before.visited);
      var last := Visit(h, u, before.db, before.visited, children[|children| - 1]);
      Walk(last.db, last.visited, before.hash + last.hash)
  }

  lemma {:induction false} NoMoreLeft(u: set<string>, visited: set<string>, more: set<string>)
    requires visited <= more
    ensures |u - more| <= |u - visited|
  {
    assert u - visited == (u - more) + (u * (more - visited));
  }

  lemma {:induction false} FewerLeft(u: set<string>, visited: set<string>, key: string)
    requires key in u && key !in visited
    ensures |u - (visited + {key})| < |u - visited|
  {
    assert u - visited == (u - (visited + {key})) + {key};
  }

  ghost predicate KidsIn(u: set<string>, db: Bytes, k: string) {
    forall i :: 0 <= i < |GetNode(db, k).children| ==> GetNode(db, k).children[i] in u
  }

  /** What the search can still meet is in the universe. */
  ghost predicate RehashReach(u: set<string>, db: Bytes, visited: set<string>) {
    forall k :: k in u && k !in visited ==> KidsIn(u, db, k)
  }

  lemma {:induction false} UniverseReaches(db: Bytes)
    ensures ROOT in Universe(db) && RehashReach(Universe(db), db, {})
  {
    hide Parsed;
    forall k | k in Universe(db) ensures KidsIn(Universe(db), db, k) {
      forall i | 0 <= i < |GetNode(db, k).children| ensures GetNode(db, k).children[i] in Universe(db) {
        assert k in db && GetNode(db, k).children[i] in Parsed(db[k]).children;
      }
    }
  }

  /** The search rewrites only what it has seen. */
  ghost predicate SameUnseen(db: Bytes, db': Bytes, visited: set<string>) {
    forall k :: k !in visited ==> GetNode(db', k) == GetNode(db, k)
  }

  lemma {:induction false} ReachStays(u: set<string>, db: Bytes, visited: set<string>, db': Bytes, visited': set<string>)
    requires RehashReach(u, db, visited) && visited <= visited' && SameUnseen(db, db', visited')
    ensures RehashReach(u, db', visited')
  {
    forall k | k in u && k !in visited' ensures KidsIn(u, db', k) {
      assert KidsIn(u, db, k);
    }
  }

  /** updateAllNonLeafHashes */
  ghost function Rehashed(h: Digest, db: Bytes): Bytes {
    Visit(h, Universe(db), db, {}, ROOT).db
  }

  /** The text whose digest the rehash stores at the root. */
  ghost function RehashedText(h: Digest, db: Bytes): string {
    VisitAll(h, Universe(db), db, {ROOT}, GetNode(db, ROOT).children).hash + GetNode(db, ROOT).value
  }

  lemma {:induction false} RootIsRehashed(h: Digest, db: Bytes)
    requires CleanDigest(h)
    ensures GetNode(Rehashed(h, db), ROOT).hash == h(RehashedText(h, db))
  {
    hide Parsed, Serialized;
    var n := GetNode(db, ROOT);
    FieldsAreCommaFree(db, ROOT);
    HeadComesBack(n.(hash := h(RehashedText(h, db))));
    assert {} + {ROOT} == {ROOT};
  }

  /* ----- how long that text is ----- */

  /** Every key that the search has left behind holds a digest. */
  ghost predicate LeftDigests(db: Bytes, len: nat, visited: set<string>, stack: set<string>) {
    forall k :: k in visited && k !in stack ==> |GetNode(db, k).hash| == len
  }

  lemma {:induction false} VisitReturnsDigest(h: Digest, len: nat, u: set<string>, db: Bytes, visited: set<string>,
                                              stack: set<string>, key: string)
    requires Records.GoodDigest(h, len) && LeftDigests(db, len, visited, stack) && key in u
    ensures var w := Visit(h, u, db, visited, key);
            LeftDigests(w.db, len, w.visited, stack) && (key !in stack ==> |w.hash| == len)
    decreases |u - visited|, 0
  {
    hide Parsed, Serialized, Records.GoodDigest;
    if key !in visited {
      FewerLeft(u, visited, key);
      var node := GetNode(db, key);
      var w := VisitAll(h, u, db, visited + {key}, node.children);
      var hash := h(w.hash + node.value);
      VisitAllReturnsDigests(h, len, u, db, visited + {key}, stack + {key}, node.children);
      DigestsAreClean(h, len, w.hash + node.value);
      FieldsAreCommaFree(db, key);
      HeadComesBack(node.(hash := hash));
    }
  }

  lemma {:induction false} DigestsAreClean(h: Digest, len: nat, text: string)
    requires Records.GoodDigest(h, len)
    ensures |h(text)| == len && CommaFree(h(text))
  {
    GoodDigestIsClean(h, len);
  }

  /** Children outside the universe have no record and are not met; see RehashReach. */
  lemma {:induction false} VisitAllReturnsDigests(h: Digest, len: nat, u: set<string>, db: Bytes, visited: set<string>,
                                                  stack: set<string>, children: seq<string>)
    requires Records.GoodDigest(h, len) && LeftDigests(db, len, visited, stack)
    ensures var w := VisitAll(h, u, db, visited, children);
            && LeftDigests(w.db, len, w.visited, stack)
            && ((forall i :: 0 <= i < |children| ==> children[i] in u && children[i] !in stack) ==> |w.hash| == len * |children|)
    decreases |u - visited|, |children| + 1
  {
    hide Parsed, Serialized, Records.GoodDigest, LeftDigests;
    if children != [] {
      var before := VisitAll(h, u, db, visited, children[..|children| - 1]);
      var last := children[|children| - 1];
      VisitAllReturnsDigests(h, len, u, db, visited, stack, children[..|children| - 1]);
      NoMoreLeft(u, visited, before.visited);
      if last in u {
        VisitReturnsDigest(h, len, u, before.db, before.visited, stack, last);
      }
      assert len * |children| == len * (|children| - 1) + len;
    }
  }

  lemma {:induction false} ChildrenAreInUniverse(db: Bytes)
    ensures forall i :: 0 <= i < |GetNode(db, ROOT).children| ==> GetNode(db, ROOT).children[i] in Universe(db)
  {
    hide Parsed;
    forall i | 0 <= i < |GetNode(db, ROOT).children| ensures GetNode(db, ROOT).children[i] in Universe(db) {
      assert ROOT in db && GetNode(db, ROOT).children[i] in Parsed(db[ROOT]).children;
    }
  }

  lemma {:induction false} TextIsDigests(h: Digest, len: nat, db: Bytes)
    requires Records.GoodDigest(h, len)
    requires forall i :: 0 <= i < |GetNode(db, ROOT).children| ==> GetNode(db, ROOT).children[i] != ROOT
    ensures |RehashedText(h, db)| == len * |GetNode(db, ROOT).children| + |GetNode(db, ROOT).value|
  {
    hide Parsed, Records.GoodDigest, Universe;
    ChildrenAreInUniverse(db);
    VisitAllReturnsDigests(h, len, Universe(db), db, {ROOT}, {ROOT}, GetNode(db, ROOT).children);
  }

  /* ----- the defect ----- */

  lemma {:induction false} HashesAreDigests(h: Digest, len: nat, db: Records.Db, keys: seq<string>)
    requires Records.GoodDigest(h, len) && Records.Hashed(h, db) && forall i :: 0 <= i < |keys| ==> keys[i] in db
    ensures |Records.Hashes(db, keys)| == len * |keys|
  {
    if keys != [] {
      HashesAreDigests(h, len, db, keys[..|keys| - 1]);
      assert Records.HashedAt(h, db, keys[|keys| - 1]);
      assert len * |keys| == len * (|keys| - 1) + len;
    }
  }

  /** The children the root is meant to have. */
  function RootChildrenOf(db: Records.Db): seq<string> {
    Records.GetNode(db, ROOT).children
  }

  lemma {:induction false} IntendedText(h: Digest, len: nat, pairs: seq<(string, string)>)
    requires Records.GoodDigest(h, len)
    ensures var db := Records.EagerAll(h, Records.EmptyDb(h), pairs);
            && |RootText(db)| == len * |RootChildrenOf(db)|
            && Records.GetNode(db, ROOT).hash == h(RootText(db))
  {
    hide Records.EagerAll, Records.WellFormed;
    var db := Records.EagerAll(h, Records.EmptyDb(h), pairs);
    Records.EmptyTree(h, len);
    Records.EagerAllKeepsTree(h, Records.EmptyDb(h), len, pairs);
    RootOfWellFormed(db, len);
    RootChildren(db, len);
    HashesAreDigests(h, len, db, db[ROOT].children);
    assert Records.HashedAt(h, db, ROOT);
    assert RootText(db) + "" == RootText(db);
  }

  lemma {:induction false} RootOfRepresented(h: Digest, len: nat, s: Bytes, db: Records.Db)
    requires Represents(h, len, s, db)
    ensures GetNode(s, ROOT).value == "" && GetNode(s, ROOT).children == [h("")] + RootChildrenOf(db)
  {
    hide NodeShown, Parsed;
  }

  lemma {:induction false} SameRootChildren(a: Records.Db, b: Records.Db)
    requires Records.SameShape(a, b)
    ensures RootChildrenOf(a) == RootChildrenOf(b)
  {
  }

  lemma {:induction false} LazyRoot(h: Digest, len: nat, pairs: seq<(string, string)>)
    requires Records.GoodDigest(h, len) && len >= 2
    ensures var s, db := LazyAll(h, Fresh(h), pairs), Records.EagerAll(h, Records.EmptyDb(h), pairs);
            && GetNode(s, ROOT).value == ""
            && GetNode(s, ROOT).children == [h("")] + RootChildrenOf(db)
            && forall i :: 0 <= i < |RootChildrenOf(db)| ==> RootChildrenOf(db)[i] != ROOT
  {
    hide Represents, LazyAll, Fresh, Records.EagerAll, Records.LazyAll, Records.WellFormed, Records.Hashed, Records.SameShape, Parsed;
    var s, db := LazyAll(h, Fresh(h), pairs), Records.EagerAll(h, Records.EmptyDb(h), pairs);
    LazyAllRepresents(h, len, pairs);
    RootOfRepresented(h, len, s, Records.LazyAll(h, Records.EmptyDb(h), pairs));
    Records.EmptyTree(h, len);
    Records.EagerAllKeepsTree(h, Records.EmptyDb(h), len, pairs);
    SameRootChildren(db, Records.LazyAll(h, Records.EmptyDb(h), pairs));
    RootChildren(db, len);
  }

  lemma {:induction false} DigestIsNoRoot(h: Digest, len: nat, text: string)
    requires Records.GoodDigest(h, len)
    ensures h(text) != ROOT
  {
    Records.RootIsNotHex();
  }

  lemma {:induction false} OneMore(len: nat, n: nat)
    ensures len * (1 + n) == len * n + len
  {
  }

  /** The root that inserting lazily and rehashing once leaves in the store, for any pairs: its text
      is longer by a digest than the text of the intended root, so the two root hashes agree only
      if the hash function collides on these two texts. */
  lemma {:induction false} LazyRehashMissesIntendedRoot(h: Digest, len: nat, pairs: seq<(string, string)>)
    requires Records.GoodDigest(h, len) && len >= 2
    ensures var s, db := LazyAll(h, Fresh(h), pairs), Records.EagerAll(h, Records.EmptyDb(h), pairs);
            && GetNode(Rehashed(h, s), ROOT).hash == h(RehashedText(h, s))
            && Records.GetNode(db, ROOT).hash == h(RootText(db))
            && |RehashedText(h, s)| == |RootText(db)| + len
            && RehashedText(h, s) != RootText(db)
  {
    hide Parsed, Serialized, LazyAll, Records.EagerAll, Universe, VisitAll, Visit, RehashedText, Rehashed, RootText;
    var s := LazyAll(h, Fresh(h), pairs);
    IntendedText(h, len, pairs);
    LazyRoot(h, len, pairs);
    DigestIsNoRoot(h, len, "");
    OneMore(len, |RootChildrenOf(Records.EagerAll(h, Records.EmptyDb(h), pairs))|);
    GoodDigestIsClean(h, len);
    RootIsRehashed(h, s);
    TextIsDigests(h, len, s);
  }

  lemma {:induction false} RootChildren(db: Records.Db, len: nat)
    requires Records.WellFormed(db, len)
    ensures ROOT in db
    ensures forall i :: 0 <= i < |db[ROOT].children| ==> db[ROOT].children[i] in db && db[ROOT].children[i] != ROOT
  {
    assert Records.ChildrenOk(db, ROOT);
  }

  /** The two ways of building the stored tree, for any pairs none of which has the digest of the
      empty string: the roots are digests of two texts of different lengths, so they agree exactly
      when the hash function collides on them. */
  lemma {:induction false} StoredRootsAgreeIffCollision(h: Digest, len: nat, pairs: seq<(string, string)>)
    requires Records.GoodDigest(h, len) && len >= 2
    requires !HasEmptyDigest(h, pairs)
    ensures var lazy, eager := LazyAll(h, Fresh(h), pairs), EagerAll(h, Fresh(h), pairs);
            var x, y := RehashedText(h, lazy), RootText(Records.EagerAll(h, Records.EmptyDb(h), pairs));
            && |x| == |y| + len
            && (GetNode(Rehashed(h, lazy), ROOT).hash == GetNode(eager, ROOT).hash <==> h(x) == h(y))
  {
    hide Parsed, Serialized, LazyAll, EagerAll, Records.EagerAll, Rehashed, RehashedText, RootText;
    LazyRehashMissesIntendedRoot(h, len, pairs);
    EagerRootThroughCodec(h, len, pairs);
    EmptyDigestIsStoredIff(h, len, pairs);
  }

  lemma {:induction false} LinkPathAddsNoLeaf(db: Records.Db, d: string, i: nat, k: string)
    requires i <= |d| == |k| && Records.IsHex(k)
    ensures k in Records.LinkPath(db, d, i) <==> k in db
  {
    Records.RootIsNotHex();
    if i > 0 {
      LinkPathAddsNoLeaf(db, d, i - 1, k);
    }
  }

  lemma {:induction false} InsertStores(h: Digest, len: nat, db: Records.Db, key: string, value: string)
    requires Records.GoodDigest(h, len)
    ensures h("") in Records.LazyInsert(h, db, key, value) <==> h("") in db || h(key) == h("")
  {
    hide Records.LinkPath;
    LinkPathAddsNoLeaf(db[h(key) := Records.Node(value, h(value), [])], h(key), |h(key)|, h(""));
  }

  ghost predicate HasEmptyDigest(h: Digest, pairs: seq<(string, string)>) {
    exists i :: 0 <= i < |pairs| && h(pairs[i].0) == h("")
  }

  lemma {:induction false} HasEmptyDigestNext(h: Digest, pairs: seq<(string, string)>)
    requires pairs != []
    ensures HasEmptyDigest(h, pairs) <==> HasEmptyDigest(h, pairs[..|pairs| - 1]) || h(pairs[|pairs| - 1].0) == h("")
  {
    var most := pairs[..|pairs| - 1];
    if HasEmptyDigest(h, most) {
      var i :| 0 <= i < |most| && h(most[i].0) == h("");
      assert h(pairs[i].0) == h("");
    }
    if HasEmptyDigest(h, pairs) {
      var i :| 0 <= i < |pairs| && h(pairs[i].0) == h("");
      assert i < |most| ==> most[i] == pairs[i];
    }
  }

  lemma {:induction false} LazyStoresIff(h: Digest, len: nat, pairs: seq<(string, string)>)
    requires Records.GoodDigest(h, len)
    ensures h("") in Records.LazyAll(h, Records.EmptyDb(h), pairs) <==> HasEmptyDigest(h, pairs)
  {
    hide Records.LazyInsert, HasEmptyDigest;
    if pairs == [] {
      Records.RootIsNotHex();
      NoPairs(h);
    } else {
      var most, last := pairs[..|pairs| - 1], pairs[|pairs| - 1];
      LazyStoresIff(h, len, most);
      InsertStores(h, len, Records.LazyAll(h, Records.EmptyDb(h), most), last.0, last.1);
      HasEmptyDigestNext(h, pairs);
    }
  }

  lemma {:induction false} NoPairs(h: Digest)
    ensures !HasEmptyDigest(h, [])
  {
  }

  /** The digest of the empty string is stored exactly when a key with that digest was inserted. */
  lemma {:induction false} EmptyDigestIsStoredIff(h: Digest, len: nat, pairs: seq<(string, string)>)
    requires Records.GoodDigest(h, len)
    ensures h("") in Records.EagerAll(h, Records.EmptyDb(h), pairs) <==> HasEmptyDigest(h, pairs)
  {
    hide Records.EagerAll, Records.LazyAll, Records.WellFormed, HasEmptyDigest;
    Records.EmptyTree(h, len);
    Records.EagerAllKeepsTree(h, Records.EmptyDb(h), len, pairs);
    LazyStoresIff(h, len, pairs);
  }

  /** On the fresh store already: the eager root is the digest of the empty string, the rehashed one
      the digest of that digest. */
  lemma {:induction false} FreshRootsDiffer(h: Digest, len: nat)
    requires Records.GoodDigest(h, len)
    ensures GetNode(Fresh(h), ROOT).hash == h("")
    ensures GetNode(Rehashed(h, Fresh(h)), ROOT).hash == h(h(""))
  {
    hide Parsed, Serialized;
    var s := Fresh(h);
    FreshRepresents(h, len);
    GoodDigestIsClean(h, len);
    RootIsRehashed(h, s);
    Records.RootIsNotHex();
    ChildrenAreInUniverse(s);
    var u, d := Universe(s), h("");
    assert GetNode(s, ROOT).children == [d];
    assert d in u && d != ROOT && d !in s;
    assert GetNode(s, d) == Records.Node("", "", []);
    assert VisitAll(h, u, s, {ROOT, d}, []) == Walk(s, {ROOT, d}, "");
    assert {ROOT} + {d} == {ROOT, d};
    assert "" + "" == "";
    var w := Visit(h, u, s, {ROOT}, d);
    assert w.hash == h("");
    assert [d][..0] == [];
    assert VisitAll(h, u, s, {ROOT}, [d][..0]) == Walk(s, {ROOT}, "");
    assert VisitAll(h, u, s, {ROOT}, [d]).hash == "" + w.hash;
    assert "" + w.hash == w.hash && w.hash + "" == w.hash;
  }

  /* ----- lookups survive it ----- */

  lemma {:induction false} VisitKeepsValues(h: Digest, u: set<string>, db: Bytes, visited: set<string>, key: string)
    requires CleanDigest(h)
    ensures SameValues(db, Visit(h, u, db, visited, key).db)
    decreases |u - visited|, 0
  {
    hide Parsed, Serialized, CleanDigest;
    if key !in visited && key in u {
      FewerLeft(u, visited, key);
      var node := GetNode(db, key);
      var w := VisitAll(h, u, db, visited + {key}, node.children);
      var hash := h(w.hash + node.value);
      VisitAllKeepsValues(h, u, db, visited + {key}, node.children);
      CleanAt(h, w.hash + node.value);
      WriteBackKeepsValues(w.db, key, node.(hash := hash));
    }
  }

  lemma {:induction false} CleanAt(h: Digest, text: string)
    requires CleanDigest(h)
    ensures CommaFree(h(text))
  {
  }

  lemma {:induction false} VisitAllKeepsValues(h: Digest, u: set<string>, db: Bytes, visited: set<string>, children: seq<string>)
    requires CleanDigest(h)
    ensures SameValues(db, VisitAll(h, u, db, visited, children).db)
    decreases |u - visited|, |children| + 1
  {
    hide Parsed, Serialized, CleanDigest;
    if children != [] {
      var before := VisitAll(h, u, db, visited, children[..|children| - 1]);
      VisitAllKeepsValues(h, u, db, visited, children[..|children| - 1]);
      NoMoreLeft(u, visited, before.visited);
      VisitKeepsValues(h, u, before.db, before.visited, children[|children| - 1]);
    }
  }

  /** The rehash spoils hashes and adds nodes, but every key still reads what it read. */
  lemma {:induction false} RehashKeepsLookups(h: Digest, db: Bytes, key: string)
    requires CleanDigest(h)
    ensures Lookup(h, Rehashed(h, db), key) == Lookup(h, db, key)
  {
    hide Visit, Universe, GetNode;
    VisitKeepsValues(h, Universe(db), db, {}, ROOT);
  }
}
