/** The Merkle state as the nodes really keep it: strings in a key-value store, every node written
    and read through the comma codec. */
module StoredStateModule {
  import opened StoredTree
  import opened StoredRehash
  import Finished = RehashedHashes
  import Records = MerkleTree

  /** GlobalState and serialMerkleTree differ only in whether insert rehashes its path. */
  class StoredState {
    const computeHash: Digest
    ghost const len: nat
    const eager: bool
    var db: Bytes

    constructor (h: Digest, ghost n: nat, rehashOnInsert: bool)
      requires Records.GoodDigest(h, n)
      ensures db == Fresh(h) && computeHash == h && len == n && eager == rehashOnInsert
    {
      computeHash, len, eager := h, n, rehashOnInsert;
      db := Put(map[], ROOT, Records.Node("", h(""), []));
    }

    method GetRootHash() returns (r: string)
      ensures r == GetNode(db, ROOT).hash
    {
      var root := GetNode(db, ROOT);
      r := root.hash;
    }

    method GetValue(key: string) returns (r: string)
      ensures r == Lookup(computeHash, db, key)
    {
      var keyHash := computeHash(key);
      var node := GetNode(db, keyHash);
      r := node.value;
    }

    /** Stores the leaf and lists the prefixes of its digest, shortest first. */
    method PutAndLink(key: string, value: string)
      requires Records.GoodDigest(computeHash, len)
      modifies this`db
      ensures db == LazyInsert(computeHash, old(db), key, value)
    {
      hide GetNode, Put, LinkPath, Records.IsHex;
      var keyHash := computeHash(key);
      db := Put(db, keyHash, Records.Node(value, computeHash(value), []));
      ghost var leafed := db;
      var currentHash := "" + [keyHash[0]];
      FirstLink(leafed, keyHash);
      var root := GetNode(db, ROOT);
      if currentHash !in root.children {
        db := Put(db, ROOT, root.(children := root.children + [currentHash]));
      }
      for i := 1 to |keyHash|
        invariant currentHash == keyHash[..i]
        invariant db == LinkPath(leafed, keyHash, i)
      {
        NextLink(leafed, keyHash, i);
        var parentNode := GetNode(db, currentHash);
        var parentKey := currentHash;
        currentHash := currentHash + [keyHash[i]];
        if currentHash !in parentNode.children {
          db := Put(db, parentKey, parentNode.(children := parentNode.children + [currentHash]));
        }
      }
    }

    /** insert: in the eager tree the path is rehashed at once. */
    method Insert(key: string, value: string)
      requires Records.GoodDigest(computeHash, len)
      modifies this`db
      ensures db == if eager then EagerInsert(computeHash, old(db), key, value)
                    else LazyInsert(computeHash, old(db), key, value)
    {
      hide LazyInsert, RehashPath;
      PutAndLink(key, value);
      if eager {
        UpdateParentHashes(computeHash(key));
      }
    }

    method CombinedHash(children: seq<string>) returns (combinedHash: string)
      ensures combinedHash == Hashes(db, children)
    {
      hide GetNode;
      combinedHash := "";
      for i := 0 to |children|
        invariant combinedHash == Hashes(db, children[..i])
      {
        var childNode := GetNode(db, children[i]);
        combinedHash := combinedHash + childNode.hash;
        assert children[..i+1][..i] == children[..i];
      }
      assert children[..|children|] == children;
    }

    /** Rehashes every proper prefix of a key, longest first, and then the root. */
    method UpdateParentHashes(keyHash: string)
      requires keyHash != ""
      modifies this`db
      ensures db == RehashPath(computeHash, old(db), keyHash, |keyHash| - 1)
    {
      hide GetNode, Put, Hashes;
      var currentHashKey := keyHash[..|keyHash| - 1];
      while currentHashKey != ""
        invariant |currentHashKey| < |keyHash| && currentHashKey == keyHash[..|currentHashKey|]
        invariant RehashPath(computeHash, db, keyHash, |currentHashKey|)
                  == RehashPath(computeHash, old(db), keyHash, |keyHash| - 1)
        decreases |currentHashKey|
      {
        var currentNode := GetNode(db, currentHashKey);
        var combinedHash := CombinedHash(currentNode.children);
        combinedHash := combinedHash + currentNode.value;
        db := Put(db, currentHashKey, currentNode.(hash := computeHash(combinedHash)));
        currentHashKey := currentHashKey[..|currentHashKey| - 1];
      }
      var currentNode := GetNode(db, ROOT);
      var combinedHash := CombinedHash(currentNode.children);
      db := Put(db, ROOT, currentNode.(hash := computeHash(combinedHash)));
    }

    /** Post-order rehash from one key, skipping keys seen before. */
    method Dfs(key: string, visited: set<string>, ghost u: set<string>) returns (hash: string, seen: set<string>)
      requires RehashReach(u, db, visited) && key in u
      modifies this`db
      ensures Walk(db, seen, hash) == Visit(computeHash, u, old(db), visited, key)
      ensures SameUnseen(old(db), db, seen) && visited <= seen
      decreases |u - visited|
    {
      hide GetNode, RehashReach;
      if key in visited {
        return GetNode(db, key).hash, visited;
      }
      FewerLeft(u, visited, key);
      seen := visited + {key};
      ghost var before := db;
      var node := GetNode(db, key);
      KidsOfUnseen(u, db, visited, key);
      ReachStays(u, before, visited, before, seen);
      var combinedHash := "";
      for i := 0 to |node.children|
        invariant Walk(db, seen, combinedHash) == VisitAll(computeHash, u, before, visited + {key}, node.children[..i])
        invariant visited + {key} <= seen
        invariant SameUnseen(before, db, seen) && RehashReach(u, db, seen)
      {
        assert node.children[..i+1][..i] == node.children[..i];
        NoMoreLeft(u, visited + {key}, seen);
        ghost var mid, seenBefore := db, seen;
        var childHash;
        childHash, seen := Dfs(node.children[i], seen, u);
        ReachStays(u, mid, seenBefore, db, seen);
        combinedHash := combinedHash + childHash;
      }
      assert node.children[..|node.children|] == node.children;
      combinedHash := combinedHash + node.value;
      hash := computeHash(combinedHash);
      PutIsUnseen(db, key, node.(hash := hash), seen);
      db := Put(db, key, node.(hash := hash));
    }

    /** Afterwards every key that the search reaches, and from which no chain of children leads
        back to it, holds the digest of the new hashes of its children followed by its value. */
    method UpdateAllNonLeafHashes()
      modifies this`db
      ensures db == Rehashed(computeHash, old(db))
      ensures CleanDigest(computeHash) ==>
                forall k :: Finished.Reaches(old(db), ROOT, k) && Finished.NoWayBack(old(db), k) ==>
                  GetNode(db, k).hash
                  == computeHash(Hashes(db, GetNode(old(db), k).children) + GetNode(old(db), k).value)
    {
      hide Finished.Reaches, Finished.NoWayBack, GetNode, Rehashed;
      UniverseReaches(db);
      RehashedIsFinished(computeHash, db);
      RehashedIsVisit(computeHash, db);
      var hash, seen := Dfs(ROOT, {}, Universe(db));
    }

    /** Inserting a list of pairs one by one. */
    method InsertAll(pairs: seq<(string, string)>)
      requires Records.GoodDigest(computeHash, len)
      modifies this`db
      ensures db == if eager then EagerAll(computeHash, old(db), pairs) else LazyAll(computeHash, old(db), pairs)
    {
      hide LazyInsert, EagerInsert;
      ghost var before := db;
      for i := 0 to |pairs|
        invariant db == if eager then EagerAll(computeHash, before, pairs[..i]) else LazyAll(computeHash, before, pairs[..i])
      {
        assert pairs[..i+1][..i] == pairs[..i];
        Insert(pairs[i].0, pairs[i].1);
      }
      assert pairs[..|pairs|] == pairs;
    }
  }

  lemma {:induction false} RehashedIsFinished(h: Digest, db: Bytes)
    ensures CleanDigest(h) ==>
              forall k :: Finished.Reaches(db, ROOT, k) && Finished.NoWayBack(db, k) ==>
                var r := Rehashed(h, db);
                GetNode(r, k).hash == h(Hashes(r, GetNode(db, k).children) + GetNode(db, k).value)
  {
    hide Finished.Reaches, Finished.NoWayBack, GetNode, Rehashed, CleanDigest;
    forall k | CleanDigest(h) && Finished.Reaches(db, ROOT, k) && Finished.NoWayBack(db, k)
      ensures var r := Rehashed(h, db);
              GetNode(r, k).hash == h(Hashes(r, GetNode(db, k).children) + GetNode(db, k).value)
    {
      Finished.RehashedHash(h, db, k);
    }
  }

  lemma {:induction false} RehashedIsVisit(h: Digest, db: Bytes)
    ensures Rehashed(h, db) == Visit(h, Universe(db), db, {}, ROOT).db
  {
  }

  /** The node at a key after a child has been listed there. */
  function WithChild(db: Bytes, parent: string, child: string): Bytes {
    var p := GetNode(db, parent);
    if child in p.children then db else Put(db, parent, p.(children := p.children + [child]))
  }

  lemma {:induction false} FirstLink(db: Bytes, d: string)
    requires d != ""
    ensures "" + [d[0]] == d[..1] && LinkPath(db, d, 1) == WithChild(db, ROOT, d[..1])
  {
    hide GetNode, Put;
    assert LinkPath(db, d, 0) == db;
  }

  lemma {:induction false} NextLink(db: Bytes, d: string, i: nat)
    requires 1 <= i < |d|
    ensures d[..i] + [d[i]] == d[..i+1]
    ensures LinkPath(db, d, i + 1) == WithChild(LinkPath(db, d, i), d[..i], d[..i+1])
  {
    hide GetNode, Put;
    assert d[..i+1][..i] == d[..i];
  }

  lemma {:induction false} KidsOfUnseen(u: set<string>, db: Bytes, visited: set<string>, key: string)
    requires RehashReach(u, db, visited) && key in u && key !in visited
    ensures forall i :: 0 <= i < |GetNode(db, key).children| ==> GetNode(db, key).children[i] in u
    ensures SameUnseen(db, db, visited + {key})
  {
    assert KidsIn(u, db, key);
  }

  lemma {:induction false} PutIsUnseen(db: Bytes, key: string, n: Records.Node, seen: set<string>)
    requires key in seen
    ensures SameUnseen(db, Put(db, key, n), seen)
  {
  }

  /** Building a fresh store lazily and rehashing it once, and building it eagerly: the root hashes
      are digests of two texts which, unless some key has the digest of the empty string, differ
      in length. */
  method BuildBothWays(h: Digest, ghost len: nat, pairs: seq<(string, string)>)
    returns (lazyRoot: string, eagerRoot: string, ghost lazyText: string, ghost eagerText: string)
    requires Records.GoodDigest(h, len) && len >= 2
    ensures lazyRoot == h(lazyText) && eagerRoot == h(eagerText)
    ensures !HasEmptyDigest(h, pairs) ==> |lazyText| == |eagerText| + len
  {
    hide LazyAll, EagerAll, Rehashed, RehashedText, GetNode, HasEmptyDigest, Records.EagerAll;
    var lazyTree := new StoredState(h, len, false);
    lazyTree.InsertAll(pairs);
    lazyTree.UpdateAllNonLeafHashes();
    var eagerTree := new StoredState(h, len, true);
    eagerTree.InsertAll(pairs);
    lazyRoot := lazyTree.GetRootHash();
    eagerRoot := eagerTree.GetRootHash();
    ghost var db := Records.EagerAll(h, Records.EmptyDb(h), pairs);
    lazyText, eagerText := RehashedText(h, LazyAll(h, Fresh(h), pairs)), Extra(h, db) + RootText(db);
    LazyRehashMissesIntendedRoot(h, len, pairs);
    EagerRootThroughCodec(h, len, pairs);
    EmptyDigestIsStoredIff(h, len, pairs);
  }
}
