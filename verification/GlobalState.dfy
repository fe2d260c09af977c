/** The Merkle state as it is meant to be kept: a store of node records rewritten in place.  For the
    store of strings see StoredStateModule. */
module GlobalStateModule {
  import opened MerkleTree
  import opened Subtrees

  /** GlobalState and serialMerkleTree differ only in whether insert rehashes its path. */
  class GlobalState {
    const computeHash: Digest
    ghost const len: nat
    const eager: bool
    var db: Db

    ghost predicate Valid()
      reads this
    {
      GoodDigest(computeHash, len) && WellFormed(db, len)
    }

    constructor (h: Digest, ghost n: nat, rehashOnInsert: bool)
      requires GoodDigest(h, n)
      ensures Valid() && db == EmptyDb(h) && computeHash == h && len == n && eager == rehashOnInsert
      ensures Hashed(computeHash, db)
    {
      computeHash, len, eager := h, n, rehashOnInsert;
      db := map[ROOT := Node("", h(""), [])];
      new;
      EmptyTree(h, n);
    }

    method GetRootHash() returns (r: string)
      ensures r == GetNode(db, ROOT).hash
    {
      var root := GetNode(db, ROOT);
      r := root.hash;
    }

    method GetValue(key: string) returns (r: string)
      ensures r == Lookup(computeHash, db, key)
    {
      var keyHash := computeHash(key);
      var node := GetNode(db, keyHash);
      r := node.value;
    }

    /** Stores the leaf and lists the prefixes of its digest, shortest first. */
    method PutAndLink(key: string, value: string)
      requires GoodDigest(computeHash, len)
      modifies this`db
      ensures db == LazyInsert(computeHash, old(db), key, value)
    {
      hide GetNode, LinkPath, IsHex;
      var keyHash := computeHash(key);
      var valueHash := computeHash(value);
      db := db[keyHash := Node(value, valueHash, [])];
      ghost var leafed := db;
      var currentHash := "" + [keyHash[0]];
      FirstLink(leafed, keyHash);
      var root := GetNode(db, ROOT);
      if currentHash !in root.children {
        db := db[ROOT := root.(children := root.children + [currentHash])];
      }
      for i := 1 to |keyHash|
        invariant currentHash == keyHash[..i]
        invariant db == LinkPath(leafed, keyHash, i)
      {
        NextLink(leafed, keyHash, i);
        var parentNode := GetNode(db, currentHash);
        var parentKey := currentHash;
        currentHash := currentHash + [keyHash[i]];
        if currentHash !in parentNode.children {
          db := db[parentKey := parentNode.(children := parentNode.children + [currentHash])];
        }
      }
    }

    /** insert: in the eager tree the path is rehashed at once. */
    method Insert(key: string, value: string)
      requires GoodDigest(computeHash, len)
      modifies this`db
      ensures db == if eager then EagerInsert(computeHash, old(db), key, value)
                    else LazyInsert(computeHash, old(db), key, value)
      ensures old(Valid()) ==> Valid()
      ensures old(Valid()) && eager && old(Hashed(computeHash, db)) ==> Hashed(computeHash, db)
    {
      hide WellFormed, Hashed, LazyInsert, RehashPath;
      ghost var before := db;
      PutAndLink(key, value);
      if WellFormed(before, len) {
        LazyInsertKeepsWellFormed(computeHash, before, len, key, value);
      }
      if eager {
        UpdateParentHashes(computeHash(key));
        if WellFormed(before, len) {
          EagerInsertKeepsWellFormed(computeHash, before, len, key, value);
          if Hashed(computeHash, before) {
            EagerInsertKeepsTree(computeHash, before, len, key, value);
          }
        }
      }
    }

    method CombinedHash(children: seq<string>) returns (combinedHash: string)
      ensures combinedHash == Hashes(db, children)
    {
      combinedHash := "";
      for i := 0 to |children|
        invariant combinedHash == Hashes(db, children[..i])
      {
        var childNode := GetNode(db, children[i]);
        combinedHash := combinedHash + childNode.hash;
        assert children[..i+1][..i] == children[..i];
      }
      assert children[..|children|] == children;
    }

    /** Rehashes every proper prefix of a key, longest first, and then the root. */
    method UpdateParentHashes(keyHash: string)
      requires keyHash != ""
      modifies this`db
      ensures db == RehashPath(computeHash, old(db), keyHash, |keyHash| - 1)
    {
      var currentHashKey := keyHash[..|keyHash| - 1];
      while currentHashKey != ""
        invariant |currentHashKey| < |keyHash| && currentHashKey == keyHash[..|currentHashKey|]
        invariant RehashPath(computeHash, db, keyHash, |currentHashKey|)
                  == RehashPath(computeHash, old(db), keyHash, |keyHash| - 1)
        decreases |currentHashKey|
      {
        var currentNode := GetNode(db, currentHashKey);
        var combinedHash := CombinedHash(currentNode.children);
        combinedHash := combinedHash + currentNode.value;
        db := db[currentHashKey := currentNode.(hash := computeHash(combinedHash))];
        currentHashKey := currentHashKey[..|currentHashKey| - 1];
      }
      var currentNode := GetNode(db, ROOT);
      var combinedHash := CombinedHash(currentNode.children);
      db := db[ROOT := currentNode.(hash := computeHash(combinedHash))];
    }

    /** Post-order rehash of one subtree, skipping nodes seen before. */
    method Dfs(key: string, visited: set<string>) returns (hash: string, seen: set<string>)
      requires Valid() && key in db
      requires VisitedDone(computeHash, db, key, visited)
      modifies this`db
      ensures Valid() && SameShape(old(db), db) && SameOutside(old(db), db, key)
      ensures SubtreeHashed(computeHash, db, key)
      ensures hash == GetNode(db, key).hash
      ensures forall v :: v in seen ==> v in visited || Below(v, key)
      decreases len - Level(key)
    {
      hide WellFormed, SubtreeHashed, Progress, NewlySeen;
      if key in visited {
        VisitedSubtree(key, visited);
        return GetNode(db, key).hash, visited;
      }
      seen := visited + {key};
      ghost var before := db;
      var node := GetNode(db, key);
      var combinedHash := "";
      ProgressStart(computeHash, db, len, key);
      NewlySeenStart(visited, key, node.children);
      for i := 0 to |node.children|
        invariant Progress(computeHash, before, db, len, key, i)
        invariant NewlySeen(visited, seen, key, node.children, i)
        invariant combinedHash == Hashes(db, node.children[..i])
      {
        var child := node.children[i];
        ghost var mid, seenBefore := db, seen;
        ProgressFacts(computeHash, before, db, len, key, i);
        VisitedIsHashed(computeHash, before, db, len, key, i, visited, seen);
        var childHash;
        childHash, seen := Dfs(child, seen);
        NextChild(computeHash, before, mid, db, len, key, i);
        NewlySeenNext(visited, seenBefore, seen, key, node.children, i);
        EarlierHashesStay(mid, db, len, key, i);
        combinedHash := combinedHash + childHash;
        assert node.children[..i+1][..i] == node.children[..i];
      }
      assert node.children[..|node.children|] == node.children;
      combinedHash := combinedHash + node.value;
      ProgressFacts(computeHash, before, db, len, key, |node.children|);
      FinishNode(computeHash, before, db, len, key);
      NewlySeenIsBelow(before, len, visited, seen, key);
      db := db[key := node.(hash := computeHash(combinedHash))];
      hash := computeHash(combinedHash);
    }

    lemma {:induction false} VisitedSubtree(key: string, visited: set<string>)
      requires VisitedDone(computeHash, db, key, visited) && key in visited
      ensures SubtreeHashed(computeHash, db, key) && SameShape(db, db) && SameOutside(db, db, key)
    {
      assert key[..|key|] == key;
    }

    /** One complete post-order rehash from the root. */
    method UpdateAllNonLeafHashes()
      requires Valid()
      modifies this`db
      ensures Valid() && SameShape(old(db), db) && Hashed(computeHash, db)
    {
      var hash, seen := Dfs(ROOT, {});
      assert forall k :: k in db ==> Below(k, ROOT);
    }

    /** Inserting a list of pairs one by one. */
    method InsertAll(pairs: seq<(string, string)>)
      requires Valid()
      modifies this`db
      ensures Valid()
      ensures db == if eager then EagerAll(computeHash, old(db), pairs) else LazyAll(computeHash, old(db), pairs)
    {
      ghost var before := db;
      for i := 0 to |pairs|
        invariant Valid()
        invariant db == if eager then EagerAll(computeHash, before, pairs[..i]) else LazyAll(computeHash, before, pairs[..i])
      {
        assert pairs[..i+1][..i] == pairs[..i];
        Insert(pairs[i].0, pairs[i].1);
      }
      assert pairs[..|pairs|] == pairs;
    }
  }

  /** The store after a child has been listed at a key. */
  function WithChild(db: Db, parent: string, child: string): Db {
    var p := GetNode(db, parent);
    if child in p.children then db else db[parent := p.(children := p.children + [child])]
  }

  lemma {:induction false} FirstLink(db: Db, d: string)
    requires d != ""
    ensures "" + [d[0]] == d[..1] && LinkPath(db, d, 1) == WithChild(db, ROOT, d[..1])
  {
    hide GetNode;
    assert LinkPath(db, d, 0) == db;
  }

  lemma {:induction false} NextLink(db: Db, d: string, i: nat)
    requires 1 <= i < |d|
    ensures d[..i] + [d[i]] == d[..i+1]
    ensures LinkPath(db, d, i + 1) == WithChild(LinkPath(db, d, i), d[..i], d[..i+1])
  {
    hide GetNode;
    assert d[..i+1][..i] == d[..i];
  }

  /** Building a fresh tree lazily and rehashing it once gives the eagerly built tree. */
  method BuildBothWays(h: Digest, ghost len: nat, pairs: seq<(string, string)>)
    returns (lazyRoot: string, eagerRoot: string, ghost lazyDb: Db, ghost eagerDb: Db)
    requires GoodDigest(h, len)
    ensures lazyDb == eagerDb == EagerAll(h, EmptyDb(h), pairs)
    ensures lazyRoot == eagerRoot == GetNode(lazyDb, ROOT).hash
  {
    var lazyTree := new GlobalState(h, len, false);
    lazyTree.InsertAll(pairs);
    lazyTree.UpdateAllNonLeafHashes();
    var eagerTree := new GlobalState(h, len, true);
    eagerTree.InsertAll(pairs);
    EmptyTree(h, len);
    SameShapeSymmetric(LazyAll(h, EmptyDb(h), pairs), lazyTree.db);
    LazyThenRehashIsEager(h, EmptyDb(h), len, pairs, lazyTree.db);
    lazyDb, eagerDb := lazyTree.db, eagerTree.db;
    lazyRoot := lazyTree.GetRootHash();
    eagerRoot := eagerTree.GetRootHash();
  }
}
