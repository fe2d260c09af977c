/** What the one rehash leaves at every key, said without the search that computes it: the hash of a
    node is the digest of the new hashes of its children followed by its value, for every node from
    which no chain of children leads back to itself. */
module RehashedHashes {
  import opened NodeCodec
  import opened StoredTree
  import opened StoredRehash
  import opened ChildOrder
  import Records = MerkleTree

  /* ----- chains of children ----- */

  /** y is a child that x is read back with. */
  predicate Kid(s: Bytes, x: string, y: string) {
    y in GetNode(s, x).children
  }

  ghost predicate IsChain(s: Bytes, p: seq<string>, x: string, y: string) {
    && p != [] && p[0] == x && p[|p| - 1] == y
    && forall i :: 0 <= i < |p| - 1 ==> Kid(s, p[i], p[i+1])
  }

  ghost predicate Reaches(s: Bytes, x: string, y: string) {
    exists p :: IsChain(s, p, x, y)
  }

  /** No chain of children leads from k back to k. */
  ghost predicate NoWayBack(s: Bytes, k: string) {
    forall c :: Kid(s, k, c) ==> !Reaches(s, c, k)
  }

  lemma {:induction false} ReachesSelf(s: Bytes, x: string)
    ensures Reaches(s, x, x)
  {
    assert IsChain(s, [x], x, x);
  }

  lemma {:induction false} ReachesKid(s: Bytes, x: string, y: string, z: string)
    requires Reaches(s, x, y) && Kid(s, y, z)
    ensures Reaches(s, x, z)
  {
    hide Kid;
    var p :| IsChain(s, p, x, y);
    assert IsChain(s, p + [z], x, z);
  }

  /** A set that no child leaves contains everything reached from a member. */
  lemma {:induction false} ChainStays(s: Bytes, keys: iset<string>, p: seq<string>, i: nat)
    requires i < |p| && p[0] in keys
    requires forall j :: 0 <= j < |p| - 1 ==> Kid(s, p[j], p[j+1])
    requires forall x, y :: x in keys && Kid(s, x, y) ==> y in keys
    ensures p[i] in keys
  {
    hide Kid;
    if i > 0 {
      ChainStays(s, keys, p, i - 1);
      assert Kid(s, p[i-1], p[i-1+1]);
    }
  }

  lemma {:induction false} ClosedUnderKids(s: Bytes, keys: iset<string>, x: string, y: string)
    requires x in keys && Reaches(s, x, y)
    requires forall a, b :: a in keys && Kid(s, a, b) ==> b in keys
    ensures y in keys
  {
    hide Kid;
    var p :| IsChain(s, p, x, y);
    ChainStays(s, keys, p, |p| - 1);
  }

  /* ----- the search ----- */

  /** The equation, for a node with no way back. */
  ghost predicate Settled(h: Digest, s: Bytes, db: Bytes, k: string) {
    GetNode(db, k).hash == h(Hashes(db, GetNode(s, k).children) + GetNode(s, k).value)
  }

  /** A key the search has left: its children have been seen, and if there is no way back to it they
      have been left as well and its hash is right. */
  ghost predicate Left(h: Digest, s: Bytes, db: Bytes, visited: set<string>, stack: set<string>, k: string) {
    && (forall c :: Kid(s, k, c) ==> c in visited)
    && (NoWayBack(s, k) ==> (forall c :: Kid(s, k, c) ==> c !in stack) && Settled(h, s, db, k))
  }

  /** `stack` are the keys the search is inside of. */
  ghost predicate Searching(h: Digest, s: Bytes, db: Bytes, visited: set<string>, stack: set<string>) {
    && stack <= visited && SameUnseen(s, db, visited)
    && forall k :: k in visited && k !in stack ==> Left(h, s, db, visited, stack, k)
  }

  /** Keys seen before are not rewritten. */
  ghost predicate SameSeen(db: Bytes, db': Bytes, visited: set<string>) {
    forall k :: k in visited ==> GetNode(db', k) == GetNode(db, k)
  }

  ghost predicate FromStack(s: Bytes, stack: set<string>, key: string) {
    forall x :: x in stack ==> Reaches(s, x, key)
  }

  lemma {:induction false} HashesStay(db: Bytes, db': Bytes, keys: seq<string>)
    requires forall i :: 0 <= i < |keys| ==> GetNode(db', keys[i]).hash == GetNode(db, keys[i]).hash
    ensures Hashes(db', keys) == Hashes(db, keys)
  {
    hide GetNode;
    if keys != [] {
      HashesStay(db, db', keys[..|keys| - 1]);
    }
  }

  lemma {:induction false} EnterKey(h: Digest, s: Bytes, db: Bytes, visited: set<string>, stack: set<string>, key: string)
    requires Searching(h, s, db, visited, stack) && key !in visited
    ensures Searching(h, s, db, visited + {key}, stack + {key})
    ensures GetNode(db, key) == GetNode(s, key)
  {
    hide Kid, NoWayBack, Settled, GetNode;
    forall k | k in visited + {key} && k !in stack + {key} ensures Left(h, s, db, visited + {key}, stack + {key}, k) {
      assert Left(h, s, db, visited, stack, k);
    }
  }

  lemma {:induction false} KidIsReached(s: Bytes, stack: set<string>, key: string, c: string)
    requires FromStack(s, stack, key) && Kid(s, key, c)
    ensures FromStack(s, stack + {key}, c)
  {
    hide Kid, Reaches;
    ReachesSelf(s, key);
    forall x | x in stack + {key} ensures Reaches(s, x, c) {
      ReachesKid(s, x, key, c);
    }
  }

  /** Writing the key that has just been finished. */
  lemma {:induction false} LeaveKey(h: Digest, s: Bytes, db: Bytes, db': Bytes, visited: set<string>, stack: set<string>, key: string)
    requires Searching(h, s, db, visited, stack + {key}) && key !in stack && FromStack(s, stack, key)
    requires forall c :: Kid(s, key, c) ==> c in visited
    requires forall k :: k != key ==> GetNode(db', k) == GetNode(db, k)
    requires GetNode(db', key).hash == h(Hashes(db, GetNode(s, key).children) + GetNode(s, key).value)
    ensures Searching(h, s, db', visited, stack)
  {
    hide GetNode, Reaches;
    forall k | k in visited && k !in stack ensures Left(h, s, db', visited, stack, k) {
      if k == key {
        if NoWayBack(s, key) {
          ReachesSelf(s, key);
          forall c | Kid(s, key, c) ensures c !in stack && c != key {
            assert c in stack ==> Reaches(s, c, key);
          }
          HashesStay(db, db', GetNode(s, key).children);
        }
      } else {
        assert Left(h, s, db, visited, stack + {key}, k);
        if NoWayBack(s, k) {
          forall i | 0 <= i < |GetNode(s, k).children| ensures GetNode(s, k).children[i] != key {
            assert Kid(s, k, GetNode(s, k).children[i]);
          }
          HashesStay(db, db', GetNode(s, k).children);
        }
      }
    }
  }

  lemma {:induction false} VisitSettles(h: Digest, s: Bytes, u: set<string>, db: Bytes, visited: set<string>,
                                        stack: set<string>, key: string)
    requires CleanDigest(h) && Searching(h, s, db, visited, stack) && FromStack(s, stack, key)
    requires key in u && RehashReach(u, s, {})
    ensures var w := Visit(h, u, db, visited, key);
            && Searching(h, s, w.db, w.visited, stack) && key in w.visited
            && SameSeen(db, w.db, visited) && w.hash == GetNode(w.db, key).hash
    decreases |u - visited|, 0
  {
    hide GetNode, Put, CleanDigest, Searching, FromStack, Kid, RehashReach, Hashes;
    if key !in visited {
      FewerLeft(u, visited, key);
      EnterKey(h, s, db, visited, stack, key);
      var node := GetNode(s, key);
      forall i | 0 <= i < |node.children|
        ensures node.children[i] in u && FromStack(s, stack + {key}, node.children[i])
      {
        KidAt(s, key, i);
        KidInUniverse(u, s, key, i);
        KidIsReached(s, stack, key, node.children[i]);
      }
      VisitAllSettles(h, s, u, db, visited + {key}, stack + {key}, node.children);
      var w := VisitAll(h, u, db, visited + {key}, node.children);
      WriteFinished(h, s, w.db, key, w.hash);
      var db' := Put(w.db, key, node.(hash := h(w.hash + node.value)));
      KidsAreSeen(s, key, w.visited);
      StackStays(h, s, db, visited, stack);
      LeaveKey(h, s, w.db, db', w.visited, stack, key);
    }
  }

  lemma {:induction false} StackStays(h: Digest, s: Bytes, db: Bytes, visited: set<string>, stack: set<string>)
    requires Searching(h, s, db, visited, stack)
    ensures stack <= visited
  {
  }

  lemma {:induction false} KidAt(s: Bytes, key: string, i: nat)
    requires i < |GetNode(s, key).children|
    ensures Kid(s, key, GetNode(s, key).children[i])
  {
  }

  lemma {:induction false} KidInUniverse(u: set<string>, s: Bytes, key: string, i: nat)
    requires RehashReach(u, s, {}) && key in u && i < |GetNode(s, key).children|
    ensures GetNode(s, key).children[i] in u
  {
    assert KidsIn(u, s, key);
  }

  lemma {:induction false} KidsAreSeen(s: Bytes, key: string, visited: set<string>)
    requires forall i :: 0 <= i < |GetNode(s, key).children| ==> GetNode(s, key).children[i] in visited
    ensures forall c :: Kid(s, key, c) ==> c in visited
  {
  }

  lemma {:induction false} WriteFinished(h: Digest, s: Bytes, db: Bytes, key: string, text: string)
    requires CleanDigest(h)
    ensures var n := GetNode(s, key);
            var db' := Put(db, key, n.(hash := h(text + n.value)));
            && GetNode(db', key).hash == h(text + n.value)
            && forall k :: k != key ==> GetNode(db', k) == GetNode(db, k)
  {
    hide Parsed, Serialized;
    var n := GetNode(s, key);
    FieldsAreCommaFree(s, key);
    HeadComesBack(n.(hash := h(text + n.value)));
  }

  lemma {:induction false} VisitAllSettles(h: Digest, s: Bytes, u: set<string>, db: Bytes, visited: set<string>,
                                           stack: set<string>, children: seq<string>)
    requires CleanDigest(h) && Searching(h, s, db, visited, stack) && RehashReach(u, s, {})
    requires forall i :: 0 <= i < |children| ==> children[i] in u && FromStack(s, stack, children[i])
    ensures var w := VisitAll(h, u, db, visited, children);
            && Searching(h, s, w.db, w.visited, stack)
            && (forall i :: 0 <= i < |children| ==> children[i] in w.visited)
            && SameSeen(db, w.db, visited) && w.hash == Hashes(w.db, children)
    decreases |u - visited|, |children| + 1
  {
    hide GetNode, CleanDigest, Searching, FromStack, RehashReach;
    if children != [] {
      var most, last := children[..|children| - 1], children[|children| - 1];
      var before := VisitAll(h, u, db, visited, most);
      VisitAllSettles(h, s, u, db, visited, stack, most);
      NoMoreLeft(u, visited, before.visited);
      VisitSettles(h, s, u, before.db, before.visited, stack, last);
      var w := Visit(h, u, before.db, before.visited, last);
      forall i | 0 <= i < |children| ensures children[i] in w.visited {
        assert i < |most| ==> children[i] == most[i];
      }
      forall i | 0 <= i < |most| ensures GetNode(w.db, most[i]) == GetNode(before.db, most[i]) {
      }
      HashesStay(before.db, w.db, most);
    }
  }

  /* ----- the result ----- */

  /** After the rehash, in any store at all: the hash of every key that is reached from the root and
      cannot be reached from its own children is the digest of the new hashes of its children
      followed by its value. */
  lemma {:induction false} RehashedHash(h: Digest, s: Bytes, k: string)
    requires CleanDigest(h) && Reaches(s, ROOT, k) && NoWayBack(s, k)
    ensures var r := Rehashed(h, s);
            GetNode(r, k).hash == h(Hashes(r, GetNode(s, k).children) + GetNode(s, k).value)
  {
    hide Visit, Universe, CleanDigest, Reaches, NoWayBack, Kid, Hashes, GetNode;
    var u := Universe(s);
    UniverseReaches(s);
    var w := Visit(h, u, s, {}, ROOT);
    VisitSettles(h, s, u, s, {}, {}, ROOT);
    var seen := iset x | x in w.visited;
    forall x, y | x in seen && Kid(s, x, y) ensures y in seen {
      assert Left(h, s, w.db, w.visited, {}, x);
    }
    ClosedUnderKids(s, seen, ROOT, k);
    assert Left(h, s, w.db, w.visited, {}, k);
  }

  /* ----- the children listed ----- */

  /** A record with children, the last of which is not the empty string, can be written back. */
  ghost predicate HasWords(db: Bytes, k: string) {
    var ch := GetNode(db, k).children;
    ch != [] && ch[|ch| - 1] != ""
  }

  ghost predicate SameChildren(db: Bytes, db': Bytes) {
    forall k :: HasWords(db, k) ==> GetNode(db', k).children == GetNode(db, k).children
  }

  lemma {:induction false} WriteBackKeepsChildren(db: Bytes, db': Bytes, key: string, hash: string)
    requires SameChildren(db, db') && CommaFree(hash)
    ensures SameChildren(db, Put(db', key, GetNode(db, key).(hash := hash)))
  {
    hide Parsed, Serialized;
    FieldsAreCommaFree(db, key);
    if HasWords(db, key) {
      InnerNodeComesBack(GetNode(db, key).(hash := hash));
    }
  }

  lemma {:induction false} SameChildrenTransitive(a: Bytes, b: Bytes, c: Bytes)
    requires SameChildren(a, b) && SameChildren(b, c)
    ensures SameChildren(a, c)
  {
    hide GetNode;
    forall k | HasWords(a, k) ensures GetNode(c, k).children == GetNode(a, k).children {
      assert HasWords(b, k);
    }
  }

  lemma {:induction false} VisitKeepsChildren(h: Digest, u: set<string>, db: Bytes, visited: set<string>, key: string)
    requires CleanDigest(h)
    ensures SameChildren(db, Visit(h, u, db, visited, key).db)
    decreases |u - visited|, 0
  {
    hide GetNode, CleanDigest, CommaFree;
    if key !in visited && key in u {
      FewerLeft(u, visited, key);
      var node := GetNode(db, key);
      var w := VisitAll(h, u, db, visited + {key}, node.children);
      VisitAllKeepsChildren(h, u, db, visited + {key}, node.children);
      CleanAt(h, w.hash + node.value);
      WriteBackKeepsChildren(db, w.db, key, h(w.hash + node.value));
    }
  }

  lemma {:induction false} VisitAllKeepsChildren(h: Digest, u: set<string>, db: Bytes, visited: set<string>, children: seq<string>)
    requires CleanDigest(h)
    ensures SameChildren(db, VisitAll(h, u, db, visited, children).db)
    decreases |u - visited|, |children| + 1
  {
    hide GetNode, CleanDigest, HasWords;
    if children != [] {
      var before := VisitAll(h, u, db, visited, children[..|children| - 1]);
      VisitAllKeepsChildren(h, u, db, visited, children[..|children| - 1]);
      NoMoreLeft(u, visited, before.visited);
      VisitKeepsChildren(h, u, before.db, before.visited, children[|children| - 1]);
      SameChildrenTransitive(db, before.db, VisitAll(h, u, db, visited, children).db);
    }
  }

  /** The rehash leaves the list of children of every such record as it was. */
  lemma {:induction false} RehashKeepsChildren(h: Digest, s: Bytes, k: string)
    requires CleanDigest(h) && HasWords(s, k)
    ensures GetNode(Rehashed(h, s), k).children == GetNode(s, k).children
  {
    hide Visit, Universe, GetNode, HasWords;
    VisitKeepsChildren(h, Universe(s), s, {}, ROOT);
  }

  /* ----- trees ----- */

  /** The root, or a stored prefix shorter than a digest. */
  predicate InnerKey(s: Bytes, len: nat, k: string) {
    k == ROOT || (k in s && |k| < len)
  }

  function Depth(k: string): nat {
    if k == ROOT then 0 else |k|
  }

  /** A child that a leaf is read back with, such as its value, is no inner key. */
  ghost predicate ValuesAreNoKeys(s: Bytes, len: nat) {
    forall k, c :: Kid(s, k, c) && !InnerKey(s, len, k) ==> !InnerKey(s, len, c)
  }

  /** The store represents a well-formed tree. */
  ghost predicate IsTree(h: Digest, len: nat, s: Bytes, db: Records.Db) {
    Records.GoodDigest(h, len) && Represents(h, len, s, db) && Records.WellFormed(db, len)
  }

  lemma {:induction false} RootKids(h: Digest, len: nat, s: Bytes, db: Records.Db, c: string)
    requires IsTree(h, len, s, db) && Kid(s, ROOT, c)
    ensures c != ROOT && (|c| == len || |c| == 1)
  {
    hide Parsed;
    Records.RootIsNotHex();
    if c != h("") {
      var i :| 0 <= i < |db[ROOT].children| && db[ROOT].children[i] == c;
      assert Records.ChildrenOk(db, ROOT);
      assert Records.IsKey(c, len);
    }
  }

  lemma {:induction false} InnerKids(h: Digest, len: nat, s: Bytes, db: Records.Db, k: string, c: string)
    requires IsTree(h, len, s, db) && InnerKey(s, len, k) && k != ROOT && Kid(s, k, c)
    ensures c != ROOT && |c| == |k| + 1
  {
    hide Parsed;
    assert NodeShown(len, s, db, k);
    var i :| 0 <= i < |db[k].children| && db[k].children[i] == c;
    assert Records.ChildrenOk(db, k);
    assert Records.IsKey(c, len) && Records.IsKey(k, len);
  }

  /** Where a search below the inner key k can get to: deeper inner keys, and keys that are not inner. */
  ghost predicate Beyond(s: Bytes, len: nat, k: string, x: string) {
    !InnerKey(s, len, x) || (x != ROOT && |x| > Depth(k))
  }

  lemma {:induction false} InnerHasNoWayBack(h: Digest, len: nat, s: Bytes, db: Records.Db, k: string)
    requires IsTree(h, len, s, db) && len >= 2 && ValuesAreNoKeys(s, len) && InnerKey(s, len, k)
    ensures NoWayBack(s, k)
  {
    hide IsTree, Kid, Reaches;
    forall c | Kid(s, k, c) ensures !Reaches(s, c, k) {
      var beyond := iset x | Beyond(s, len, k, x);
      if k == ROOT {
        RootKids(h, len, s, db, c);
      } else {
        InnerKids(h, len, s, db, k, c);
      }
      assert c in beyond;
      forall x, y | x in beyond && Kid(s, x, y) ensures y in beyond {
        if InnerKey(s, len, x) {
          InnerKids(h, len, s, db, x, y);
        }
      }
      assert k !in beyond;
      if Reaches(s, c, k) {
        ClosedUnderKids(s, beyond, c, k);
      }
    }
  }

  /** Every stored key is reached from the root. */
  lemma {:induction false} StoredIsReached(h: Digest, len: nat, s: Bytes, db: Records.Db, k: string)
    requires IsTree(h, len, s, db) && k in s
    ensures Reaches(s, ROOT, k)
    decreases Depth(k)
  {
    hide Parsed, Reaches, Records.GoodDigest;
    if k == ROOT {
      ReachesSelf(s, ROOT);
    } else {
      var p := ParentHasKid(h, len, s, db, k);
      StoredIsReached(h, len, s, db, p);
      ReachesKid(s, ROOT, p, k);
    }
  }

  lemma {:induction false} ParentHasKid(h: Digest, len: nat, s: Bytes, db: Records.Db, k: string) returns (p: string)
    requires IsTree(h, len, s, db) && k in s && k != ROOT
    ensures p in s && Kid(s, p, k) && Depth(p) < Depth(k)
  {
    hide Parsed, Records.GoodDigest;
    p := Records.Parent(k);
    StoredIsListed(db, len, k);
    assert Records.IsKey(k, len) && Records.IsKey(p, len);
    if p != ROOT {
      assert NodeShown(len, s, db, p);
    }
  }

  /** The rehash of a tree whose values are none of its inner keys: every inner node, the root
      included, holds the digest of the new hashes of its children followed by its value. */
  lemma {:induction false} InnerHashAfterRehash(h: Digest, len: nat, s: Bytes, db: Records.Db, k: string)
    requires IsTree(h, len, s, db) && len >= 2 && ValuesAreNoKeys(s, len) && InnerKey(s, len, k)
    ensures var r := Rehashed(h, s);
            GetNode(r, k).hash == h(Hashes(r, GetNode(s, k).children) + GetNode(s, k).value)
  {
    hide Reaches, NoWayBack, Rehashed, ValuesAreNoKeys, GetNode, Hashes, Represents, Records.WellFormed;
    GoodDigestIsClean(h, len);
    RootIsStored(h, len, s, db);
    StoredIsReached(h, len, s, db, k);
    InnerHasNoWayBack(h, len, s, db, k);
    RehashedHash(h, s, k);
  }

  lemma {:induction false} RootIsStored(h: Digest, len: nat, s: Bytes, db: Records.Db)
    requires IsTree(h, len, s, db)
    ensures ROOT in s
  {
  }

  /** An unstored key that the search meets gets the digest of the empty string. */
  lemma {:induction false} UnstoredAfterRehash(h: Digest, s: Bytes, k: string)
    requires CleanDigest(h) && Reaches(s, ROOT, k) && k !in s
    ensures GetNode(Rehashed(h, s), k).hash == h("")
  {
    hide Reaches, Rehashed;
    assert NoWayBack(s, k);
    RehashedHash(h, s, k);
    assert "" + "" == "";
  }

  /** A leaf does not keep the digest of its value: it is rehashed over the keys that are its digest
      and its value. */
  lemma {:induction false} LeafHashAfterRehash(h: Digest, len: nat, s: Bytes, db: Records.Db, d: string, v: string)
    requires IsTree(h, len, s, db) && d in s && s[d] == Serialized(Records.Node(v, h(v), [])) && CommaFree(v)
    requires NoWayBack(s, d)
    ensures var r := Rehashed(h, s);
            GetNode(r, d).hash == h(GetNode(r, h(v)).hash + (if v == "" then "" else GetNode(r, v).hash) + v)
    ensures h(v) !in s && v !in s ==>
              GetNode(Rehashed(h, s), d).hash == h(h("") + (if v == "" then "" else h("")) + v)
  {
    hide Reaches, Rehashed, Parsed, Serialized, Represents, Records.WellFormed, Records.GoodDigest, NoWayBack;
    var r := Rehashed(h, s);
    GoodDigestIsClean(h, len);
    StoredIsReached(h, len, s, db, d);
    RehashedHash(h, s, d);
    ChildlessRoundTrip(Records.Node(v, h(v), []));
    assert Kid(s, d, h(v));
    ReachesKid(s, ROOT, d, h(v));
    TwoHashes(r, h(v), v);
    if h(v) !in s {
      UnstoredAfterRehash(h, s, h(v));
    }
    if v != "" {
      assert Kid(s, d, v);
      ReachesKid(s, ROOT, d, v);
      if v !in s {
        UnstoredAfterRehash(h, s, v);
      }
    } else {
      assert GetNode(r, h(v)).hash + "" == GetNode(r, h(v)).hash;
    }
  }

  lemma {:induction false} TwoHashes(db: Bytes, a: string, b: string)
    ensures Hashes(db, [a]) == GetNode(db, a).hash
    ensures Hashes(db, [a, b]) == GetNode(db, a).hash + GetNode(db, b).hash
  {
    hide Parsed;
    assert [a, b][..1] == [a] && [a][..0] == [];
  }

  /* ----- built by inserting ----- */

  lemma {:induction false} BuiltIsTree(h: Digest, len: nat, pairs: seq<(string, string)>)
    requires Records.GoodDigest(h, len) && len >= 2
    ensures IsTree(h, len, LazyAll(h, Fresh(h), pairs), Records.LazyAll(h, Records.EmptyDb(h), pairs))
    ensures IsTree(h, len, EagerAll(h, Fresh(h), pairs), Records.EagerAll(h, Records.EmptyDb(h), pairs))
  {
    hide Represents, Records.WellFormed, LazyAll, EagerAll, Records.LazyAll, Records.EagerAll, Fresh, Records.EmptyDb;
    LazyAllRepresents(h, len, pairs);
    EagerAllRepresents(h, len, pairs);
    Records.EmptyTree(h, len);
    Records.LazyAllKeepsWellFormed(h, Records.EmptyDb(h), len, pairs);
    Records.EagerAllKeepsTree(h, Records.EmptyDb(h), len, pairs);
  }

  /** The store built by inserting any pairs, lazily or eagerly, and then rehashed. */
  lemma {:induction false} BuiltThenRehashed(h: Digest, len: nat, pairs: seq<(string, string)>, eager: bool, k: string)
    requires Records.GoodDigest(h, len) && len >= 2
    requires var s := if eager then EagerAll(h, Fresh(h), pairs) else LazyAll(h, Fresh(h), pairs);
             ValuesAreNoKeys(s, len) && InnerKey(s, len, k)
    ensures var s := if eager then EagerAll(h, Fresh(h), pairs) else LazyAll(h, Fresh(h), pairs);
            var r := Rehashed(h, s);
            GetNode(r, k).hash == h(Hashes(r, GetNode(s, k).children) + GetNode(s, k).value)
  {
    hide IsTree, LazyAll, EagerAll, Rehashed, ValuesAreNoKeys, InnerKey, Hashes, GetNode, Fresh, Records.GoodDigest;
    BuiltIsTree(h, len, pairs);
    if eager {
      InnerHashAfterRehash(h, len, EagerAll(h, Fresh(h), pairs), Records.EagerAll(h, Records.EmptyDb(h), pairs), k);
    } else {
      InnerHashAfterRehash(h, len, LazyAll(h, Fresh(h), pairs), Records.LazyAll(h, Records.EmptyDb(h), pairs), k);
    }
  }

  /** The record of some pair stands under the digest d, as it was put there. */
  ghost predicate LeafOf(h: Digest, pairs: seq<(string, string)>, s: Bytes, d: string) {
    d in s && exists n :: 0 <= n < |pairs| && IsLeafRecord(h, pairs[n], d, s[d])
  }

  ghost predicate IsLeafRecord(h: Digest, pair: (string, string), d: string, text: string) {
    h(pair.0) == d && text == Serialized(Records.Node(pair.1, h(pair.1), []))
  }

  ghost predicate LeavesAreOfPairs(h: Digest, len: nat, pairs: seq<(string, string)>, s: Bytes) {
    forall d :: d in s && d != ROOT && |d| >= len ==> LeafOf(h, pairs, s, d)
  }

  lemma {:induction false} LinkPathKeepsRecord(s: Bytes, d: string, i: nat, x: string)
    requires i <= |d| && x != ROOT && |x| >= i
    ensures x in LinkPath(s, d, i) <==> x in s
    ensures x in s ==> LinkPath(s, d, i)[x] == s[x]
  {
    hide GetNode, Serialized;
    if i > 0 {
      LinkPathKeepsRecord(s, d, i - 1, x);
    }
  }

  lemma {:induction false} RehashPathKeepsRecord(h: Digest, s: Bytes, d: string, i: nat, x: string)
    requires i <= |d| && x != ROOT && |x| > i
    ensures x in RehashPath(h, s, d, i) <==> x in s
    ensures x in s ==> RehashPath(h, s, d, i)[x] == s[x]
    decreases i
  {
    hide GetNode, Serialized, Hashes;
    if i > 0 {
      RehashPathKeepsRecord(h, Rehash(h, s, d[..i]), d, i - 1, x);
    }
  }

  lemma {:induction false} InsertKeepsLeaves(h: Digest, len: nat, most: seq<(string, string)>, s: Bytes, key: string, value: string)
    requires Records.GoodDigest(h, len) && LeavesAreOfPairs(h, len, most, s)
    ensures LeavesAreOfPairs(h, len, most + [(key, value)], LazyInsert(h, s, key, value))
    ensures LeavesAreOfPairs(h, len, most + [(key, value)], EagerInsert(h, s, key, value))
  {
    hide LinkPath, RehashPath, Serialized, Parsed;
    var pairs, leaf := most + [(key, value)], h(key);
    var lazy, eager := LazyInsert(h, s, key, value), EagerInsert(h, s, key, value);
    assert pairs[|pairs| - 1] == (key, value);
    forall d | (d in lazy || d in eager) && d != ROOT && |d| >= len
      ensures LeafOf(h, pairs, lazy, d) && LeafOf(h, pairs, eager, d)
    {
      LinkPathKeepsRecord(Put(s, leaf, Records.Node(value, h(value), [])), leaf, len, d);
      RehashPathKeepsRecord(h, lazy, leaf, len - 1, d);
      if d == leaf {
        assert IsLeafRecord(h, pairs[|pairs| - 1], d, lazy[d]);
      } else {
        assert LeafOf(h, most, s, d);
        var n :| 0 <= n < |most| && IsLeafRecord(h, most[n], d, s[d]);
        assert pairs[n] == most[n];
      }
    }
  }

  lemma {:induction false} BuiltLeaves(h: Digest, len: nat, pairs: seq<(string, string)>)
    requires Records.GoodDigest(h, len)
    ensures LeavesAreOfPairs(h, len, pairs, LazyAll(h, Fresh(h), pairs))
    ensures LeavesAreOfPairs(h, len, pairs, EagerAll(h, Fresh(h), pairs))
  {
    hide LazyInsert, EagerInsert;
    if pairs != [] {
      var most, last := pairs[..|pairs| - 1], pairs[|pairs| - 1];
      BuiltLeaves(h, len, most);
      InsertKeepsLeaves(h, len, most, LazyAll(h, Fresh(h), most), last.0, last.1);
      InsertKeepsLeaves(h, len, most, EagerAll(h, Fresh(h), most), last.0, last.1);
      assert most + [(last.0, last.1)] == pairs;
    }
  }

  /** No value has a comma, is the name of the root, or begins one of the digests. */
  ghost predicate PlainValues(h: Digest, pairs: seq<(string, string)>) {
    forall n :: 0 <= n < |pairs| ==> PlainValue(h, pairs, pairs[n].1)
  }

  ghost predicate PlainValue(h: Digest, pairs: seq<(string, string)>, v: string) {
    CommaFree(v) && v != ROOT && (v != "" ==> forall m :: 0 <= m < |pairs| ==> !(v < h(pairs[m].0)))
  }

  /** Inner keys are proper prefixes of digests. */
  lemma {:induction false} InnerKeyIsPrefix(h: Digest, len: nat, pairs: seq<(string, string)>, s: Bytes, db: Records.Db, k: string)
    requires IsTree(h, len, s, db) && InnerKey(s, len, k) && k != ROOT
    requires Records.SameShape(db, Records.LazyAll(h, Records.EmptyDb(h), pairs))
    ensures k != "" && exists m :: 0 <= m < |pairs| && k < h(pairs[m].0)
  {
    hide Parsed, Serialized, Records.LazyAll, Records.EmptyDb, NodeShown, RootShown;
    var p := Records.Parent(k);
    StoredIsListed(db, len, k);
    assert Records.IsKey(k, len) && Records.IsKey(p, len);
    ChildrenInOrder(h, len, pairs, p);
    assert k in Records.GetNode(db, p).children;
    assert ChildOrder.Used(h, pairs, k);
    var m :| ChildOrder.Opens(h, pairs, m, k);
  }

  lemma {:induction false} PlainValuesAreNoKeys(h: Digest, len: nat, pairs: seq<(string, string)>, s: Bytes, db: Records.Db)
    requires IsTree(h, len, s, db) && LeavesAreOfPairs(h, len, pairs, s) && PlainValues(h, pairs)
    requires Records.SameShape(db, Records.LazyAll(h, Records.EmptyDb(h), pairs))
    ensures ValuesAreNoKeys(s, len)
  {
    hide Parsed, Serialized, IsTree, Records.LazyAll, Records.EmptyDb, Records.SameShape;
    forall k, c | Kid(s, k, c) && !InnerKey(s, len, k) ensures !InnerKey(s, len, c) {
      assert LeafOf(h, pairs, s, k);
      var n :| 0 <= n < |pairs| && IsLeafRecord(h, pairs[n], k, s[k]);
      var v := pairs[n].1;
      assert PlainValue(h, pairs, v);
      DigestFacts(h, len, s, db, v);
      ChildlessRoundTrip(Records.Node(v, h(v), []));
      assert c == h(v) || (c == v && v != "");
      if InnerKey(s, len, c) && c != ROOT {
        InnerKeyIsPrefix(h, len, pairs, s, db, c);
      }
    }
  }

  lemma {:induction false} DigestFacts(h: Digest, len: nat, s: Bytes, db: Records.Db, v: string)
    requires IsTree(h, len, s, db)
    ensures CommaFree(h(v)) && h(v) != ROOT && |h(v)| == len
  {
    Records.RootIsNotHex();
    HexIsCommaFree(h(v));
  }

  lemma {:induction false} InnerHasWords(h: Digest, len: nat, pairs: seq<(string, string)>, s: Bytes, db: Records.Db, k: string)
    requires IsTree(h, len, s, db) && InnerKey(s, len, k) && len >= 2
    requires Records.SameShape(db, Records.LazyAll(h, Records.EmptyDb(h), pairs))
    ensures HasWords(s, k)
  {
    hide Parsed, Serialized, Records.LazyAll, Records.EmptyDb;
    ChildrenAreWords(db, len, k);
    if k == ROOT {
      assert h("") != "";
    } else {
      assert NodeShown(len, s, db, k);
      InnerKeyIsPrefix(h, len, pairs, s, db, k);
      var m :| 0 <= m < |pairs| && k < h(pairs[m].0);
      ChildrenInOrder(h, len, pairs, k);
      var c := h(pairs[m].0)[..|k| + 1];
      assert ChildOrder.Opens(h, pairs, m, c) && ChildOrder.OneLonger(k, c);
      assert c in db[k].children;
    }
  }

  /** Building a store and rehashing it leaves the children of every inner node as they were. */
  lemma {:induction false} BuiltKeepsChildren(h: Digest, len: nat, pairs: seq<(string, string)>, eager: bool, k: string)
    requires Records.GoodDigest(h, len) && len >= 2
    requires var s := if eager then EagerAll(h, Fresh(h), pairs) else LazyAll(h, Fresh(h), pairs); InnerKey(s, len, k)
    ensures var s := if eager then EagerAll(h, Fresh(h), pairs) else LazyAll(h, Fresh(h), pairs);
            GetNode(Rehashed(h, s), k).children == GetNode(s, k).children
  {
    hide IsTree, LazyAll, EagerAll, Rehashed, InnerKey, GetNode, Fresh, Records.EmptyDb, HasWords,
         Records.GoodDigest, Records.SameShape, Records.LazyAll, Records.EagerAll;
    BuiltIsTree(h, len, pairs);
    SameShapeAsLazy(h, len, pairs);
    GoodDigestIsClean(h, len);
    if eager {
      InnerHasWords(h, len, pairs, EagerAll(h, Fresh(h), pairs), Records.EagerAll(h, Records.EmptyDb(h), pairs), k);
      RehashKeepsChildren(h, EagerAll(h, Fresh(h), pairs), k);
    } else {
      InnerHasWords(h, len, pairs, LazyAll(h, Fresh(h), pairs), Records.LazyAll(h, Records.EmptyDb(h), pairs), k);
      RehashKeepsChildren(h, LazyAll(h, Fresh(h), pairs), k);
    }
  }

  /** Building a store, lazily or eagerly, from values that have no comma, are not the root's name
      and begin no digest, and rehashing it: the root and every stored proper prefix of a digest
      hold the digest of their children's new hashes, one after the other. */
  lemma {:induction false} PlainBuiltThenRehashed(h: Digest, len: nat, pairs: seq<(string, string)>, eager: bool, k: string)
    requires Records.GoodDigest(h, len) && len >= 2 && PlainValues(h, pairs)
    requires var s := if eager then EagerAll(h, Fresh(h), pairs) else LazyAll(h, Fresh(h), pairs); InnerKey(s, len, k)
    ensures var s := if eager then EagerAll(h, Fresh(h), pairs) else LazyAll(h, Fresh(h), pairs);
            var r := Rehashed(h, s);
            GetNode(r, k).hash == h(Hashes(r, GetNode(s, k).children) + GetNode(s, k).value)
  {
    hide IsTree, LazyAll, EagerAll, Rehashed, ValuesAreNoKeys, InnerKey, Hashes, GetNode, Fresh, Records.EmptyDb,
         Records.GoodDigest, LeavesAreOfPairs, PlainValues, Records.SameShape, Records.LazyAll, Records.EagerAll;
    BuiltIsTree(h, len, pairs);
    BuiltLeaves(h, len, pairs);
    SameShapeAsLazy(h, len, pairs);
    if eager {
      PlainValuesAreNoKeys(h, len, pairs, EagerAll(h, Fresh(h), pairs), Records.EagerAll(h, Records.EmptyDb(h), pairs));
    } else {
      PlainValuesAreNoKeys(h, len, pairs, LazyAll(h, Fresh(h), pairs), Records.LazyAll(h, Records.EmptyDb(h), pairs));
    }
    BuiltThenRehashed(h, len, pairs, eager, k);
  }

  lemma {:induction false} SameShapeAsLazy(h: Digest, len: nat, pairs: seq<(string, string)>)
    requires Records.GoodDigest(h, len)
    ensures var lazy := Records.LazyAll(h, Records.EmptyDb(h), pairs);
            Records.SameShape(lazy, lazy) && Records.SameShape(Records.EagerAll(h, Records.EmptyDb(h), pairs), lazy)
  {
    hide Records.LazyAll, Records.EagerAll;
    Records.EmptyTree(h, len);
    Records.EagerAllKeepsTree(h, Records.EmptyDb(h), len, pairs);
  }
}
