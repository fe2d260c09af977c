/** The prefix-tree Merkle state: every digest is a path of its prefixes, node records are
    kept in a key-value store under their prefix, and the root under "rootNode".

    This module states what the tree is meant to be, on node records.  The store really holds
    strings, and the codec does not give every record back; StoredTree and StoredRehash say what
    becomes of the tree then.

    The hash function is a parameter: all that is used of it is that its digests are
    hexadecimal and of one length. */
module MerkleTree {

  datatype Node = Node(value: string, hash: string, children: seq<string>)

  type Db = map<string, Node>

  type Digest = string -> string

  const ROOT: string := "rootNode"

  predicate IsHexChar(c: char) {
    '0' <= c <= '9' || 'a' <= c <= 'f'
  }

  predicate IsHex(s: string) {
    forall i :: 0 <= i < |s| ==> IsHexChar(s[i])
  }

  ghost predicate GoodDigest(h: Digest, len: nat) {
    len >= 1 && forall s: string :: |h(s)| == len && IsHex(h(s))
  }

  /* ----- what the operations compute ----- */

  /** A key that is not stored reads as an empty node. */
  function GetNode(db: Db, key: string): Node {
    if key in db then db[key] else Node("", "", [])
  }

  /** The key a prefix is listed under. */
  function Parent(k: string): string {
    if |k| <= 1 then ROOT else k[..|k| - 1]
  }

  /** The concatenated hashes of a list of nodes. */
  function Hashes(db: Db, keys: seq<string>): string {
    if keys == [] then ""
    else Hashes(db, keys[..|keys| - 1]) + GetNode(db, keys[|keys| - 1]).hash
  }

  /** A list of keys stands for their hashes, one after the other and in this order. */
  lemma {:induction false} HashesJoin(db: Db, a: seq<string>, b: seq<string>)
    ensures Hashes(db, a + b) == Hashes(db, a) + Hashes(db, b)
    ensures forall k :: Hashes(db, [k]) == GetNode(db, k).hash
  {
    hide GetNode;
    assert forall k: string :: [k][..0] == [];
    if b == [] {
      assert a + b == a;
    } else {
      HashesJoin(db, a, b[..|b| - 1]);
      assert (a + b)[..|a + b| - 1] == a + b[..|b| - 1];
    }
  }

  function AddChild(db: Db, child: string): Db {
    var p := GetNode(db, Parent(child));
    if child in p.children then db
    else db[Parent(child) := p.(children := p.children + [child])]
  }

  /** Lists the first i prefixes of the digest d under their parents, shortest first. */
  function LinkPath(db: Db, d: string, i: nat): Db
    requires i <= |d|
  {
    if i == 0 then db else AddChild(LinkPath(db, d, i - 1), d[..i])
  }

  function LazyInsert(h: Digest, db: Db, key: string, value: string): Db {
    LinkPath(db[h(key) := Node(value, h(value), [])], h(key), |h(key)|)
  }

  function Rehash(h: Digest, db: Db, key: string): Db {
    var n := GetNode(db, key);
    db[key := n.(hash := h(Hashes(db, n.children) + n.value))]
  }

  function RehashRoot(h: Digest, db: Db): Db {
    var n := GetNode(db, ROOT);
    db[ROOT := n.(hash := h(Hashes(db, n.children)))]
  }

  /** Rehashes the prefixes of length i, i-1, ..., 1 and then the root. */
  function RehashPath(h: Digest, db: Db, d: string, i: nat): Db
    requires i <= |d|
    decreases i
  {
    if i == 0 then RehashRoot(h, db) else RehashPath(h, Rehash(h, db, d[..i]), d, i - 1)
  }

  function EagerInsert(h: Digest, db: Db, key: string, value: string): Db {
    var d := h(key);
    if d == "" then LazyInsert(h, db, key, value)
    else RehashPath(h, LazyInsert(h, db, key, value), d, |d| - 1)
  }

  function EmptyDb(h: Digest): Db {
    map[ROOT := Node("", h(""), [])]
  }

  /* ----- well-formed trees ----- */

  ghost predicate IsKey(k: string, len: nat) {
    k == ROOT || (IsHex(k) && 1 <= |k| <= len)
  }

  /** A listed child is stored, is a one-character extension, and is listed once. */
  ghost predicate ChildrenOk(db: Db, k: string)
    requires k in db
  {
    && (forall i :: 0 <= i < |db[k].children| ==>
          var c := db[k].children[i]; c in db && c != ROOT && Parent(c) == k)
    && (forall i, j :: 0 <= i < j < |db[k].children| ==> db[k].children[i] != db[k].children[j])
  }

  ghost predicate Listed(db: Db, c: string) {
    Parent(c) in db && c in db[Parent(c)].children
  }

  /** Every stored prefix is listed under its parent, and only full digests carry a value. */
  ghost predicate WellFormed(db: Db, len: nat) {
    && ROOT in db
    && (forall k :: k in db ==> IsKey(k, len) && ChildrenOk(db, k))
    && (forall c {:trigger Listed(db, c)} :: c in db && c != ROOT ==> Listed(db, c))
    && (forall k :: k in db && (k == ROOT || |k| < len) ==> db[k].value == "")
  }

  /** The hash of a node is the hash of its children's hashes followed by its value. */
  ghost predicate HashedAt(h: Digest, db: Db, k: string) {
    k in db ==> db[k].hash == h(Hashes(db, db[k].children) + db[k].value)
  }

  ghost predicate Hashed(h: Digest, db: Db) {
    forall k :: k in db ==> HashedAt(h, db, k)
  }

  /** The same tree up to the stored hashes. */
  ghost predicate SameShape(a: Db, b: Db) {
    && a.Keys == b.Keys
    && forall k :: k in a ==> a[k].value == b[k].value && a[k].children == b[k].children
  }

  lemma {:induction false} RootIsNotHex()
    ensures !IsHex(ROOT)
  {
    assert !IsHexChar(ROOT[0]);
  }

  lemma {:induction false} HashesDependOnHashes(a: Db, b: Db, keys: seq<string>)
    requires forall i :: 0 <= i < |keys| ==> GetNode(a, keys[i]).hash == GetNode(b, keys[i]).hash
    ensures Hashes(a, keys) == Hashes(b, keys)
  {
    if keys != [] {
      HashesDependOnHashes(a, b, keys[..|keys| - 1]);
    }
  }

  /* ----- a fully hashed tree is determined by its shape ----- */

  lemma {:induction false} SameHashes(h: Digest, a: Db, b: Db, len: nat, k: string)
    requires WellFormed(a, len) && SameShape(a, b) && Hashed(h, a) && Hashed(h, b) && k in a
    ensures a[k].hash == b[k].hash
    decreases len - if k == ROOT then 0 else |k|
  {
    assert ChildrenOk(a, k);
    forall i | 0 <= i < |a[k].children|
      ensures GetNode(a, a[k].children[i]).hash == GetNode(b, a[k].children[i]).hash
    {
      var c := a[k].children[i];
      assert IsKey(c, len) && Parent(c) == k;
      SameHashes(h, a, b, len, c);
    }
    HashesDependOnHashes(a, b, a[k].children);
    assert HashedAt(h, a, k) && HashedAt(h, b, k);
  }

  lemma {:induction false} HashedShapeIsUnique(h: Digest, a: Db, b: Db, len: nat)
    requires WellFormed(a, len) && SameShape(a, b) && Hashed(h, a) && Hashed(h, b)
    ensures a == b
  {
    forall k | k in a ensures a[k] == b[k] {
      SameHashes(h, a, b, len, k);
    }
  }

  /* ----- lazy insert keeps the tree well formed ----- */

  /** Well formed but for the path of d: prefixes longer than i may still be unlisted, and the
      prefix of length i may be listed before it is stored. */
  ghost predicate AlmostWellFormed(db: Db, len: nat, d: string, i: nat)
    requires i <= |d|
  {
    && ROOT in db && d in db
    && (forall k :: k in db ==> IsKey(k, len))
    && (forall k :: k in db && (k == ROOT || |k| < len) ==> db[k].value == "")
    && (forall k :: k in db ==> KidsAlmostOk(db, d, i, k))
    && (forall c {:trigger Listed(db, c)} :: c in db && c != ROOT && c != d ==> Listed(db, c))
    && (i > 0 ==> Listed(db, d[..i]))
  }

  ghost predicate KidsAlmostOk(db: Db, d: string, i: nat, k: string)
    requires i <= |d| && k in db
  {
    && (forall n :: 0 <= n < |db[k].children| ==>
          var c := db[k].children[n];
          c != ROOT && Parent(c) == k && (c in db || (i > 0 && c == d[..i])))
    && (forall n, m :: 0 <= n < m < |db[k].children| ==> db[k].children[n] != db[k].children[m])
  }

  lemma {:induction false} PrefixFacts(d: string, i: nat)
    requires IsHex(d) && 1 <= i <= |d|
    ensures IsHex(d[..i]) && d[..i] != ROOT
    ensures Parent(d[..i]) == if i == 1 then ROOT else d[..i-1]
  {
    RootIsNotHex();
    assert i > 1 ==> d[..i][..i-1] == d[..i-1];
  }

  /** The next prefix is already listed: nothing is written, and its parent is stored. */
  lemma {:induction false} ListedKeepsAlmost(db: Db, len: nat, d: string, i: nat)
    requires IsHex(d) && 1 <= i <= |d| == len && AlmostWellFormed(db, len, d, i - 1)
    requires d[..i] in GetNode(db, Parent(d[..i])).children
    ensures AlmostWellFormed(db, len, d, i)
  {
    PrefixFacts(d, i);
    forall k | k in db ensures KidsAlmostOk(db, d, i, k) {
      assert KidsAlmostOk(db, d, i - 1, k);
    }
  }

  lemma {:induction false} AppendKeepsKids(db: Db, len: nat, d: string, i: nat, k: string)
    requires IsHex(d) && 1 <= i <= |d| == len && AlmostWellFormed(db, len, d, i - 1)
    requires d[..i] !in GetNode(db, Parent(d[..i])).children && k in AddChild(db, d[..i])
    ensures KidsAlmostOk(AddChild(db, d[..i]), d, i, k)
  {
    PrefixFacts(d, i);
    if i > 1 {
      PrefixFacts(d, i - 1);
    }
    if k in db {
      assert KidsAlmostOk(db, d, i - 1, k);
    }
  }

  /** The next prefix is appended to its parent, which is stored now if it was not. */
  lemma {:induction false} AppendKeepsAlmost(db: Db, len: nat, d: string, i: nat)
    requires IsHex(d) && 1 <= i <= |d| == len && AlmostWellFormed(db, len, d, i - 1)
    requires d[..i] !in GetNode(db, Parent(d[..i])).children
    ensures AlmostWellFormed(AddChild(db, d[..i]), len, d, i)
  {
    var q := d[..i];
    var p := Parent(q);
    PrefixFacts(d, i);
    if i > 1 {
      PrefixFacts(d, i - 1);
    }
    var db' := AddChild(db, q);
    assert p in db' && db'[p].children == GetNode(db, p).children + [q];
    forall k | k in db' ensures KidsAlmostOk(db', d, i, k) {
      AppendKeepsKids(db, len, d, i, k);
    }
    forall c | c in db' && c != ROOT && c != d ensures Listed(db', c) {
      if c in db {
        assert Listed(db, c);
      }
    }
  }

  lemma {:induction false} AddChildKeepsAlmost(db: Db, len: nat, d: string, i: nat)
    requires IsHex(d) && 1 <= i <= |d| == len && AlmostWellFormed(db, len, d, i - 1)
    ensures AlmostWellFormed(AddChild(db, d[..i]), len, d, i)
  {
    if d[..i] in GetNode(db, Parent(d[..i])).children {
      ListedKeepsAlmost(db, len, d, i);
    } else {
      AppendKeepsAlmost(db, len, d, i);
    }
  }

  lemma {:induction false} LinkPathAlmost(db: Db, len: nat, d: string, i: nat)
    requires IsHex(d) && i <= |d| == len && AlmostWellFormed(db, len, d, 0)
    ensures AlmostWellFormed(LinkPath(db, d, i), len, d, i)
  {
    if i > 0 {
      LinkPathAlmost(db, len, d, i - 1);
      AddChildKeepsAlmost(LinkPath(db, d, i - 1), len, d, i);
    }
  }

  lemma {:induction false} LazyInsertKeepsWellFormed(h: Digest, db: Db, len: nat, key: string, value: string)
    requires GoodDigest(h, len) && WellFormed(db, len)
    ensures WellFormed(LazyInsert(h, db, key, value), len)
  {
    var d := h(key);
    var db0 := db[d := Node(value, h(value), [])];
    RootIsNotHex();
    LeafHasNoChildren(db, len, d);
    forall k | k in db0 ensures KidsAlmostOk(db0, d, 0, k) {
      if k != d {
        assert ChildrenOk(db, k);
      }
    }
    forall c | c in db0 && c != ROOT && c != d ensures Listed(db0, c) {
      assert Listed(db, c);
    }
    LinkPathAlmost(db0, len, d, len);
    assert d[..len] == d;
    var db1 := LinkPath(db0, d, len);
    assert Listed(db1, d);
    forall k | k in db1 ensures ChildrenOk(db1, k) {
      assert KidsAlmostOk(db1, d, len, k);
    }
  }

  function Level(k: string): nat {
    if k == ROOT then 0 else |k|
  }

  lemma {:induction false} ChildIsOneLonger(db: Db, len: nat, k: string, i: nat)
    requires WellFormed(db, len) && k in db && i < |db[k].children|
    ensures Level(db[k].children[i]) == Level(k) + 1 <= len
  {
    assert ChildrenOk(db, k);
    assert IsKey(db[k].children[i], len) && IsKey(k, len);
    RootIsNotHex();
  }

  lemma {:induction false} LeafHasNoChildren(db: Db, len: nat, d: string)
    requires WellFormed(db, len) && IsHex(d) && |d| == len
    ensures d in db ==> db[d].children == []
  {
    RootIsNotHex();
    if d in db && db[d].children != [] {
      ChildIsOneLonger(db, len, d, 0);
    }
  }

  /* ----- shapes ----- */

  lemma {:induction false} AddChildKeepsShape(a: Db, b: Db, child: string)
    requires SameShape(a, b)
    ensures SameShape(AddChild(a, child), AddChild(b, child))
  {
  }

  lemma {:induction false} LinkPathKeepsShape(a: Db, b: Db, d: string, i: nat)
    requires SameShape(a, b) && i <= |d|
    ensures SameShape(LinkPath(a, d, i), LinkPath(b, d, i))
  {
    if i > 0 {
      LinkPathKeepsShape(a, b, d, i - 1);
      AddChildKeepsShape(LinkPath(a, d, i - 1), LinkPath(b, d, i - 1), d[..i]);
    }
  }

  lemma {:induction false} LazyInsertKeepsShape(h: Digest, a: Db, b: Db, key: string, value: string)
    requires SameShape(a, b)
    ensures SameShape(LazyInsert(h, a, key, value), LazyInsert(h, b, key, value))
  {
    var leaf := Node(value, h(value), []);
    LinkPathKeepsShape(a[h(key) := leaf], b[h(key) := leaf], h(key), |h(key)|);
  }

  lemma {:induction false} SameShapeSymmetric(a: Db, b: Db)
    requires SameShape(a, b)
    ensures SameShape(b, a)
  {
  }

  lemma {:induction false} SameShapeTransitive(a: Db, b: Db, c: Db)
    requires SameShape(a, b) && SameShape(b, c)
    ensures SameShape(a, c)
  {
  }

  /** Being well formed says nothing about hashes. */
  lemma {:induction false} ShapeDecidesWellFormed(a: Db, b: Db, len: nat)
    requires SameShape(a, b) && WellFormed(a, len)
    ensures WellFormed(b, len)
  {
    forall k | k in b ensures IsKey(k, len) && ChildrenOk(b, k) {
      assert ChildrenOk(a, k);
    }
    forall c | c in b && c != ROOT ensures Listed(b, c) {
      assert Listed(a, c);
    }
  }

  /* ----- eager insert hashes the whole tree ----- */

  /** k is the root or one of the first i prefixes of d. */
  ghost predicate OnPath(d: string, i: nat, k: string)
    requires i <= |d|
  {
    k == ROOT || (1 <= |k| <= i && k == d[..|k|])
  }

  /** Lazy insert touches only the path: other nodes keep everything, and so do the hashes of
      their children. */
  lemma {:induction false} LinkPathOffPath(db: Db, d: string, i: nat, k: string)
    requires IsHex(d) && 1 <= i <= |d| && !OnPath(d, i - 1, k)
    ensures k in LinkPath(db, d, i) <==> k in db
    ensures GetNode(LinkPath(db, d, i), k) == GetNode(db, k)
  {
    PrefixFacts(d, i);
    if i > 1 {
      PrefixFacts(d, i - 1);
      LinkPathOffPath(db, d, i - 1, k);
      assert d[..i-1] == d[..|d[..i-1]|];
    }
    assert Parent(d[..i]) != k;
  }

  lemma {:induction false} LazyInsertBreaksOnlyPath(h: Digest, db: Db, len: nat, key: string, value: string, k: string)
    requires GoodDigest(h, len) && WellFormed(db, len) && Hashed(h, db) && !OnPath(h(key), len - 1, k)
    ensures HashedAt(h, LazyInsert(h, db, key, value), k)
  {
    var d := h(key);
    var db0 := db[d := Node(value, h(value), [])];
    var db1 := LazyInsert(h, db, key, value);
    LinkPathOffPath(db0, d, len, k);
    if k in db1 {
      if k == d {
        assert "" + value == value;
      } else {
        assert HashedAt(h, db, k);
        LazyInsertKeepsHashesOffPath(h, db, len, key, value, k);
      }
    }
  }

  lemma {:induction false} LazyInsertKeepsHashesOffPath(h: Digest, db: Db, len: nat, key: string, value: string, k: string)
    requires GoodDigest(h, len) && WellFormed(db, len) && k in db && !OnPath(h(key), len - 1, k)
    ensures Hashes(LazyInsert(h, db, key, value), db[k].children) == Hashes(db, db[k].children)
  {
    var d := h(key);
    var db0 := db[d := Node(value, h(value), [])];
    var db1 := LazyInsert(h, db, key, value);
    forall n | 0 <= n < |db[k].children|
      ensures GetNode(db1, db[k].children[n]).hash == GetNode(db, db[k].children[n]).hash
    {
      var c := db[k].children[n];
      assert ChildrenOk(db, k);
      ChildIsOneLonger(db, len, k, n);
      ParentIsOnPath(d, len, c);
      LinkPathOffPath(db0, d, len, c);
    }
    HashesDependOnHashes(db1, db, db[k].children);
  }

  /** If a child lies on the path, so does its parent. */
  lemma {:induction false} ParentIsOnPath(d: string, i: nat, c: string)
    requires 1 <= i <= |d| && c != ROOT && 1 <= |c|
    ensures OnPath(d, i, c) ==> OnPath(d, i - 1, Parent(c))
  {
    if OnPath(d, i, c) && |c| > 1 {
      assert c[..|c|-1] == d[..|c|-1];
    }
  }

  lemma {:induction false} PathIsStored(db: Db, len: nat, d: string, i: nat)
    requires WellFormed(db, len) && IsHex(d) && |d| == len && d in db && 1 <= i <= len
    ensures d[..i] in db
    decreases len - i
  {
    if i == len {
      assert d[..len] == d;
    } else {
      PathIsStored(db, len, d, i + 1);
      PrefixFacts(d, i + 1);
      assert Listed(db, d[..i+1]);
    }
  }

  lemma {:induction false} LinkPathKeepsKeys(db: Db, d: string, i: nat, k: string)
    requires i <= |d| && k in db
    ensures k in LinkPath(db, d, i)
  {
    if i > 0 {
      LinkPathKeepsKeys(db, d, i - 1, k);
    }
  }

  /** At most the root and the first i prefixes of d carry a stale hash. */
  ghost predicate HashedOffPath(h: Digest, db: Db, d: string, i: nat)
    requires i <= |d|
  {
    forall k :: k in db && !OnPath(d, i, k) ==> HashedAt(h, db, k)
  }

  /** Rehashing one node of a well-formed tree repairs it and breaks at most its parent. */
  lemma {:induction false} RehashRepairs(h: Digest, db: Db, len: nat, d: string, i: nat)
    requires WellFormed(db, len) && IsHex(d) && |d| == len && d in db && 1 <= i <= len
    requires HashedOffPath(h, db, d, i)
    ensures SameShape(Rehash(h, db, d[..i]), db)
    ensures HashedOffPath(h, Rehash(h, db, d[..i]), d, i - 1)
  {
    var p := d[..i];
    var db' := Rehash(h, db, p);
    PathIsStored(db, len, d, i);
    PrefixFacts(d, i);
    forall k | k in db' && !OnPath(d, i - 1, k) ensures HashedAt(h, db', k) {
      ChildrenOffPathKeepHash(h, db, len, d, i, k);
      assert k != p ==> !OnPath(d, i, k);
    }
  }

  lemma {:induction false} ChildrenOffPathKeepHash(h: Digest, db: Db, len: nat, d: string, i: nat, k: string)
    requires WellFormed(db, len) && IsHex(d) && 1 <= i <= len == |d| && d[..i] in db
    requires k in db && !OnPath(d, i - 1, k)
    ensures Hashes(Rehash(h, db, d[..i]), db[k].children) == Hashes(db, db[k].children)
  {
    var db' := Rehash(h, db, d[..i]);
    assert ChildrenOk(db, k);
    forall n | 0 <= n < |db[k].children|
      ensures GetNode(db', db[k].children[n]).hash == GetNode(db, db[k].children[n]).hash
    {
      var c := db[k].children[n];
      ChildIsOneLonger(db, len, k, n);
      ParentIsOnPath(d, i, c);
    }
    HashesDependOnHashes(db', db, db[k].children);
  }

  lemma {:induction false} RootIsNoChild(h: Digest, db: Db, len: nat, k: string)
    requires WellFormed(db, len) && k in db
    ensures Hashes(RehashRoot(h, db), db[k].children) == Hashes(db, db[k].children)
  {
    assert ChildrenOk(db, k);
    HashesDependOnHashes(RehashRoot(h, db), db, db[k].children);
  }

  lemma {:induction false} RehashRootRepairs(h: Digest, db: Db, len: nat, d: string)
    requires WellFormed(db, len) && HashedOffPath(h, db, d, 0)
    ensures SameShape(RehashRoot(h, db), db) && Hashed(h, RehashRoot(h, db))
  {
    var db' := RehashRoot(h, db);
    forall k | k in db' ensures HashedAt(h, db', k) {
      RootIsNoChild(h, db, len, k);
      if k == ROOT {
        assert Hashes(db, db[ROOT].children) + "" == Hashes(db, db[ROOT].children);
      } else {
        assert HashedAt(h, db, k);
      }
    }
  }

  lemma {:induction false} RehashPathRepairs(h: Digest, db: Db, len: nat, d: string, i: nat)
    requires WellFormed(db, len) && IsHex(d) && |d| == len && d in db && i <= len
    requires HashedOffPath(h, db, d, i)
    ensures SameShape(RehashPath(h, db, d, i), db) && Hashed(h, RehashPath(h, db, d, i))
    decreases i
  {
    hide WellFormed, HashedOffPath, Hashed, SameShape, Rehash, RehashRoot;
    if i == 0 {
      RehashRootRepairs(h, db, len, d);
    } else {
      var db' := Rehash(h, db, d[..i]);
      RehashRepairs(h, db, len, d, i);
      ShapeDecidesWellFormed(db, db', len);
      RehashPathRepairs(h, db', len, d, i - 1);
      SameShapeTransitive(RehashPath(h, db', d, i - 1), db', db);
      assert RehashPath(h, db, d, i) == RehashPath(h, db', d, i - 1);
    }
  }

  lemma {:induction false} RehashKeepsShape(h: Digest, db: Db, len: nat, d: string, i: nat)
    requires WellFormed(db, len) && IsHex(d) && |d| == len && d in db && 1 <= i <= len
    ensures SameShape(Rehash(h, db, d[..i]), db)
    ensures WellFormed(Rehash(h, db, d[..i]), len) && d in Rehash(h, db, d[..i])
  {
    PathIsStored(db, len, d, i);
    ShapeDecidesWellFormed(db, Rehash(h, db, d[..i]), len);
  }

  lemma {:induction false} RehashRootKeepsShape(h: Digest, db: Db, len: nat)
    requires WellFormed(db, len)
    ensures SameShape(RehashRoot(h, db), db)
  {
  }

  lemma {:induction false} RehashPathKeepsShape(h: Digest, db: Db, len: nat, d: string, i: nat)
    requires WellFormed(db, len) && IsHex(d) && |d| == len && d in db && i <= len
    ensures SameShape(RehashPath(h, db, d, i), db)
    decreases i
  {
    hide WellFormed, SameShape, Rehash, RehashRoot;
    if i == 0 {
      RehashRootKeepsShape(h, db, len);
    } else {
      var db' := Rehash(h, db, d[..i]);
      RehashKeepsShape(h, db, len, d, i);
      RehashPathKeepsShape(h, db', len, d, i - 1);
      SameShapeTransitive(RehashPath(h, db', d, i - 1), db', db);
      assert RehashPath(h, db, d, i) == RehashPath(h, db', d, i - 1);
    }
  }

  lemma {:induction false} LeafIsStored(h: Digest, db: Db, key: string, value: string)
    ensures h(key) in LazyInsert(h, db, key, value)
  {
    LinkPathKeepsKeys(db[h(key) := Node(value, h(value), [])], h(key), |h(key)|, h(key));
  }

  /** Well-formedness is kept even when some hashes were stale before. */
  lemma {:induction false} EagerInsertKeepsWellFormed(h: Digest, db: Db, len: nat, key: string, value: string)
    requires GoodDigest(h, len) && WellFormed(db, len)
    ensures WellFormed(EagerInsert(h, db, key, value), len)
  {
    hide WellFormed, SameShape, LazyInsert, RehashPath;
    var d := h(key);
    var lazy := LazyInsert(h, db, key, value);
    LazyInsertKeepsWellFormed(h, db, len, key, value);
    LeafIsStored(h, db, key, value);
    RehashPathKeepsShape(h, lazy, len, d, len - 1);
    SameShapeSymmetric(RehashPath(h, lazy, d, len - 1), lazy);
    ShapeDecidesWellFormed(lazy, RehashPath(h, lazy, d, len - 1), len);
    assert EagerInsert(h, db, key, value) == RehashPath(h, lazy, d, len - 1);
  }

  lemma {:induction false} LazyInsertLeavesPathStale(h: Digest, db: Db, len: nat, key: string, value: string)
    requires GoodDigest(h, len) && WellFormed(db, len) && Hashed(h, db)
    ensures h(key) in LazyInsert(h, db, key, value)
    ensures HashedOffPath(h, LazyInsert(h, db, key, value), h(key), len - 1)
  {
    var d := h(key);
    var lazy := LazyInsert(h, db, key, value);
    LeafIsStored(h, db, key, value);
    forall k | k in lazy && !OnPath(d, len - 1, k) ensures HashedAt(h, lazy, k) {
      LazyInsertBreaksOnlyPath(h, db, len, key, value, k);
    }
  }

  /** Eager insert keeps the tree well formed and fully hashed, and builds the tree lazy
      insert builds. */
  lemma {:induction false} EagerInsertKeepsTree(h: Digest, db: Db, len: nat, key: string, value: string)
    requires GoodDigest(h, len) && WellFormed(db, len) && Hashed(h, db)
    ensures WellFormed(EagerInsert(h, db, key, value), len) && Hashed(h, EagerInsert(h, db, key, value))
    ensures SameShape(EagerInsert(h, db, key, value), LazyInsert(h, db, key, value))
  {
    hide WellFormed, HashedOffPath, Hashed, SameShape, LazyInsert, RehashPath;
    var lazy := LazyInsert(h, db, key, value);
    LazyInsertKeepsWellFormed(h, db, len, key, value);
    LazyInsertLeavesPathStale(h, db, len, key, value);
    RehashPathRepairs(h, lazy, len, h(key), len - 1);
    assert EagerInsert(h, db, key, value) == RehashPath(h, lazy, h(key), len - 1);
    SameShapeSymmetric(EagerInsert(h, db, key, value), lazy);
    ShapeDecidesWellFormed(lazy, EagerInsert(h, db, key, value), len);
  }

  /* ----- whole sequences ----- */

  function LazyAll(h: Digest, db: Db, pairs: seq<(string, string)>): Db {
    if pairs == [] then db
    else
      var last := pairs[|pairs| - 1];
      LazyInsert(h, LazyAll(h, db, pairs[..|pairs| - 1]), last.0, last.1)
  }

  function EagerAll(h: Digest, db: Db, pairs: seq<(string, string)>): Db {
    if pairs == [] then db
    else
      var last := pairs[|pairs| - 1];
      EagerInsert(h, EagerAll(h, db, pairs[..|pairs| - 1]), last.0, last.1)
  }

  lemma {:induction false} EmptyTree(h: Digest, len: nat)
    requires GoodDigest(h, len)
    ensures WellFormed(EmptyDb(h), len) && Hashed(h, EmptyDb(h))
  {
    assert "" + "" == "";
  }

  lemma {:induction false} LazyAllKeepsWellFormed(h: Digest, db: Db, len: nat, pairs: seq<(string, string)>)
    requires GoodDigest(h, len) && WellFormed(db, len)
    ensures WellFormed(LazyAll(h, db, pairs), len)
  {
    if pairs != [] {
      var most := pairs[..|pairs| - 1];
      LazyAllKeepsWellFormed(h, db, len, most);
      LazyInsertKeepsWellFormed(h, LazyAll(h, db, most), len, pairs[|pairs| - 1].0, pairs[|pairs| - 1].1);
    }
  }

  lemma {:induction false} EagerAllKeepsTree(h: Digest, db: Db, len: nat, pairs: seq<(string, string)>)
    requires GoodDigest(h, len) && WellFormed(db, len) && Hashed(h, db)
    ensures WellFormed(EagerAll(h, db, pairs), len) && Hashed(h, EagerAll(h, db, pairs))
    ensures SameShape(EagerAll(h, db, pairs), LazyAll(h, db, pairs))
  {
    if pairs != [] {
      var most, last := pairs[..|pairs| - 1], pairs[|pairs| - 1];
      EagerAllKeepsTree(h, db, len, most);
      EagerInsertKeepsTree(h, EagerAll(h, db, most), len, last.0, last.1);
      LazyInsertKeepsShape(h, EagerAll(h, db, most), LazyAll(h, db, most), last.0, last.1);
    }
  }

  /** Any complete rehash of the lazily built tree is the eagerly built tree, node for node;
      in particular the root hashes agree. */
  lemma {:induction false} LazyThenRehashIsEager(h: Digest, db: Db, len: nat, pairs: seq<(string, string)>, rehashed: Db)
    requires GoodDigest(h, len) && WellFormed(db, len) && Hashed(h, db)
    requires SameShape(rehashed, LazyAll(h, db, pairs)) && Hashed(h, rehashed)
    ensures rehashed == EagerAll(h, db, pairs)
    ensures GetNode(rehashed, ROOT).hash == GetNode(EagerAll(h, db, pairs), ROOT).hash
  {
    EagerAllKeepsTree(h, db, len, pairs);
    HashedShapeIsUnique(h, EagerAll(h, db, pairs), rehashed, len);
  }

  /* ----- lookups ----- */

  function Lookup(h: Digest, db: Db, key: string): string {
    GetNode(db, h(key)).value
  }

  lemma {:induction false} LinkPathKeepsValues(db: Db, d: string, i: nat, k: string)
    requires i <= |d|
    ensures GetNode(LinkPath(db, d, i), k).value == GetNode(db, k).value
  {
    if i > 0 {
      LinkPathKeepsValues(db, d, i - 1, k);
    }
  }

  lemma {:induction false} RehashPathKeepsValues(h: Digest, db: Db, d: string, i: nat, k: string)
    requires i <= |d|
    ensures GetNode(RehashPath(h, db, d, i), k).value == GetNode(db, k).value
    decreases i
  {
    if i > 0 {
      RehashPathKeepsValues(h, Rehash(h, db, d[..i]), d, i - 1, k);
    }
  }

  lemma {:induction false} InsertThenLookup(h: Digest, db: Db, key: string, value: string, other: string)
    ensures Lookup(h, LazyInsert(h, db, key, value), other)
            == if h(other) == h(key) then value else Lookup(h, db, other)
    ensures Lookup(h, EagerInsert(h, db, key, value), other)
            == if h(other) == h(key) then value else Lookup(h, db, other)
  {
    var d := h(key);
    LinkPathKeepsValues(db[d := Node(value, h(value), [])], d, |d|, h(other));
    if d != "" {
      RehashPathKeepsValues(h, LazyInsert(h, db, key, value), d, |d| - 1, h(other));
    }
  }

  /** The value of the last pair whose digest is that of the key. */
  function LastValue(h: Digest, pairs: seq<(string, string)>, key: string, otherwise: string): string {
    if pairs == [] then otherwise
    else if h(pairs[|pairs| - 1].0) == h(key) then pairs[|pairs| - 1].1
    else LastValue(h, pairs[..|pairs| - 1], key, otherwise)
  }

  /** A lookup returns the last value inserted under the key's digest, after either kind of
      insertion; with distinct digests this is the last value inserted under the key. */
  lemma {:induction false} LookupIsLastValue(h: Digest, db: Db, pairs: seq<(string, string)>, key: string)
    ensures Lookup(h, LazyAll(h, db, pairs), key) == LastValue(h, pairs, key, Lookup(h, db, key))
    ensures Lookup(h, EagerAll(h, db, pairs), key) == LastValue(h, pairs, key, Lookup(h, db, key))
  {
    if pairs != [] {
      var most, last := pairs[..|pairs| - 1], pairs[|pairs| - 1];
      LookupIsLastValue(h, db, most, key);
      InsertThenLookup(h, LazyAll(h, db, most), last.0, last.1, key);
      InsertThenLookup(h, EagerAll(h, db, most), last.0, last.1, key);
    }
  }
}
