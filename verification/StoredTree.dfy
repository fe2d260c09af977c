/** The tree as it is really stored: every node goes through the comma codec.  Reading back what
    was written is not always the node that was meant (see NodeCodec.RoundTrip); this module says
    what it is, and what that does to lookups and to the root hash.

    The functions carry the names of their counterparts on node records in MerkleTree. */
module StoredTree {
  import opened NodeCodec
  import Records = MerkleTree

  type Bytes = map<string, string>

  type Digest = Records.Digest

  const ROOT := Records.ROOT

  function GetNode(db: Bytes, key: string): Records.Node {
    if key in db then Parsed(db[key]) else Records.Node("", "", [])
  }

  function Put(db: Bytes, key: string, n: Records.Node): Bytes {
    db[key := Serialized(n)]
  }

  function Hashes(db: Bytes, keys: seq<string>): string {
    if keys == [] then ""
    else Hashes(db, keys[..|keys| - 1]) + GetNode(db, keys[|keys| - 1]).hash
  }

  /** A list of keys stands for their hashes, one after the other and in this order. */
  lemma {:induction false} HashesJoin(db: Bytes, a: seq<string>, b: seq<string>)
    ensures Hashes(db, a + b) == Hashes(db, a) + Hashes(db, b)
    ensures forall k :: Hashes(db, [k]) == GetNode(db, k).hash
  {
    hide GetNode;
    assert forall k: string :: [k][..0] == [];
    if b == [] {
      assert a + b == a;
    } else {
      HashesJoin(db, a, b[..|b| - 1]);
      assert (a + b)[..|a + b| - 1] == a + b[..|b| - 1];
    }
  }

  function AddChild(db: Bytes, child: string): Bytes {
    var p := GetNode(db, Records.Parent(child));
    if child in p.children then db
    else Put(db, Records.Parent(child), p.(children := p.children + [child]))
  }

  function LinkPath(db: Bytes, d: string, i: nat): Bytes
    requires i <= |d|
  {
    if i == 0 then db else AddChild(LinkPath(db, d, i - 1), d[..i])
  }

  function LazyInsert(h: Digest, db: Bytes, key: string, value: string): Bytes {
    LinkPath(Put(db, h(key), Records.Node(value, h(value), [])), h(key), |h(key)|)
  }

  function Rehash(h: Digest, db: Bytes, key: string): Bytes {
    var n := GetNode(db, key);
    Put(db, key, n.(hash := h(Hashes(db, n.children) + n.value)))
  }

  function RehashRoot(h: Digest, db: Bytes): Bytes {
    var n := GetNode(db, ROOT);
    Put(db, ROOT, n.(hash := h(Hashes(db, n.children))))
  }

  function RehashPath(h: Digest, db: Bytes, d: string, i: nat): Bytes
    requires i <= |d|
    decreases i
  {
    if i == 0 then RehashRoot(h, db) else RehashPath(h, Rehash(h, db, d[..i]), d, i - 1)
  }

  function EagerInsert(h: Digest, db: Bytes, key: string, value: string): Bytes {
    var d := h(key);
    if d == "" then LazyInsert(h, db, key, value)
    else RehashPath(h, LazyInsert(h, db, key, value), d, |d| - 1)
  }

  function Fresh(h: Digest): Bytes {
    Put(map[], ROOT, Records.Node("", h(""), []))
  }

  function LazyAll(h: Digest, db: Bytes, pairs: seq<(string, string)>): Bytes {
    if pairs == [] then db
    else LazyInsert(h, LazyAll(h, db, pairs[..|pairs| - 1]), pairs[|pairs| - 1].0, pairs[|pairs| - 1].1)
  }

  function EagerAll(h: Digest, db: Bytes, pairs: seq<(string, string)>): Bytes {
    if pairs == [] then db
    else EagerInsert(h, EagerAll(h, db, pairs[..|pairs| - 1]), pairs[|pairs| - 1].0, pairs[|pairs| - 1].1)
  }

  function Lookup(h: Digest, db: Bytes, key: string): string {
    GetNode(db, h(key)).value
  }

  /* ----- lookups ----- */

  /** No digest has a comma in it. */
  ghost predicate CleanDigest(h: Digest) {
    forall s: string :: CommaFree(h(s))
  }

  lemma {:induction false} HexIsCommaFree(s: string)
    requires Records.IsHex(s)
    ensures CommaFree(s)
  {
    forall i | 0 <= i < |s| ensures s[i] != ',' {
      assert Records.IsHexChar(s[i]);
    }
  }

  lemma {:induction false} GoodDigestIsClean(h: Digest, len: nat)
    requires Records.GoodDigest(h, len)
    ensures CleanDigest(h)
  {
    forall s: string ensures CommaFree(h(s)) {
      HexIsCommaFree(h(s));
    }
  }

  lemma {:induction false} FieldsAreCommaFree(db: Bytes, key: string)
    ensures var n := GetNode(db, key); CommaFree(n.hash) && CommaFree(n.value) && AllCommaFree(n.children)
  {
    if key in db {
      ReadFieldsAreCommaFree(db[key]);
    }
  }

  ghost predicate SameValues(db: Bytes, db': Bytes) {
    forall k :: GetNode(db', k).value == GetNode(db, k).value
  }

  /** Writing a node back with its value changes no value. */
  lemma {:induction false} WriteBackKeepsValues(db: Bytes, key: string, n: Records.Node)
    requires n.value == GetNode(db, key).value && CommaFree(n.hash)
    ensures SameValues(db, Put(db, key, n))
  {
    hide Parsed, Serialized;
    FieldsAreCommaFree(db, key);
    HeadComesBack(n);
  }

  lemma {:induction false} LinkPathKeepsValues(db: Bytes, d: string, i: nat)
    requires i <= |d|
    ensures SameValues(db, LinkPath(db, d, i))
  {
    hide Parsed, Serialized, GetNode, Records.Parent;
    if i > 0 {
      LinkPathKeepsValues(db, d, i - 1);
      var mid := LinkPath(db, d, i - 1);
      var key := Records.Parent(d[..i]);
      var p := GetNode(mid, key);
      FieldsAreCommaFree(mid, key);
      WriteBackKeepsValues(mid, key, p.(children := p.children + [d[..i]]));
    }
  }

  /** Rehashing along any string, a digest or not, changes no value. */
  lemma {:induction false} RehashPathKeepsValues(h: Digest, db: Bytes, d: string, i: nat)
    requires CleanDigest(h) && i <= |d|
    ensures SameValues(db, RehashPath(h, db, d, i))
    decreases i
  {
    hide Parsed, Serialized, GetNode, Hashes;
    if i == 0 {
      var n := GetNode(db, ROOT);
      WriteBackKeepsValues(db, ROOT, n.(hash := h(Hashes(db, n.children))));
    } else {
      var n := GetNode(db, d[..i]);
      WriteBackKeepsValues(db, d[..i], n.(hash := h(Hashes(db, n.children) + n.value)));
      RehashPathKeepsValues(h, Rehash(h, db, d[..i]), d, i - 1);
    }
  }

  /** An inserted value reads back up to its first comma; every other key keeps its value. */
  lemma {:induction false} InsertThenLookup(h: Digest, db: Bytes, key: string, value: string, other: string)
    requires CleanDigest(h)
    ensures Lookup(h, LazyInsert(h, db, key, value), other)
            == if h(other) == h(key) then UpToComma(value) else Lookup(h, db, other)
    ensures Lookup(h, EagerInsert(h, db, key, value), other)
            == if h(other) == h(key) then UpToComma(value) else Lookup(h, db, other)
  {
    hide Parsed, Serialized, UpToComma, LinkPath, RehashPath;
    var d := h(key);
    LeafComesBack(h(value), value);
    LinkPathKeepsValues(Put(db, d, Records.Node(value, h(value), [])), d, |d|);
    if d != "" {
      RehashPathKeepsValues(h, LazyInsert(h, db, key, value), d, |d| - 1);
    }
  }

  /** What the last pair with the digest of the key leaves to be read. */
  function LastValue(h: Digest, pairs: seq<(string, string)>, key: string, otherwise: string): string {
    if pairs == [] then otherwise
    else if h(pairs[|pairs| - 1].0) == h(key) then UpToComma(pairs[|pairs| - 1].1)
    else LastValue(h, pairs[..|pairs| - 1], key, otherwise)
  }

  /** After any inserts of either kind, a key reads the last value inserted under its digest, up
      to the first comma of that value. */
  lemma {:induction false} LookupIsLastValue(h: Digest, db: Bytes, pairs: seq<(string, string)>, key: string)
    requires CleanDigest(h)
    ensures Lookup(h, LazyAll(h, db, pairs), key) == LastValue(h, pairs, key, Lookup(h, db, key))
    ensures Lookup(h, EagerAll(h, db, pairs), key) == LastValue(h, pairs, key, Lookup(h, db, key))
  {
    hide CleanDigest, UpToComma, Lookup, LazyInsert, EagerInsert;
    if pairs != [] {
      var most, last := pairs[..|pairs| - 1], pairs[|pairs| - 1];
      LookupIsLastValue(h, db, most, key);
      InsertThenLookup(h, LazyAll(h, db, most), last.0, last.1, key);
      InsertThenLookup(h, EagerAll(h, db, most), last.0, last.1, key);
    }
  }

  /** A value that has just been inserted reads back whole exactly when it has no comma. */
  lemma {:induction false} ValueReadsBackIffCommaFree(h: Digest, db: Bytes, key: string, value: string)
    requires CleanDigest(h)
    ensures Lookup(h, LazyInsert(h, db, key, value), key) == value <==> CommaFree(value)
    ensures Lookup(h, EagerInsert(h, db, key, value), key) == value <==> CommaFree(value)
  {
    InsertThenLookup(h, db, key, value, key);
    WholeIffCommaFree(value);
  }

  /* ----- how the stored tree stands for the intended one ----- */

  /** An inner node is stored as meant.  A leaf is read back with children of its own, and with
      its value cut at a comma, but with the right hash. */
  ghost predicate NodeShown(len: nat, s: Bytes, db: Records.Db, k: string)
    requires k in db
  {
    if |k| < len then GetNode(s, k) == db[k] else GetNode(s, k).hash == db[k].hash
  }

  /** The root carries one child too many: the digest of the empty string, which its first,
      childless, record is read back with. */
  ghost predicate RootShown(h: Digest, s: Bytes, db: Records.Db) {
    && ROOT in db
    && GetNode(s, ROOT).value == ""
    && GetNode(s, ROOT).children == [h("")] + db[ROOT].children
  }

  ghost predicate Represents(h: Digest, len: nat, s: Bytes, db: Records.Db) {
    && s.Keys == db.Keys
    && (forall k :: k in db && k != ROOT ==> NodeShown(len, s, db, k))
    && RootShown(h, s, db)
  }

  /** A node with children all of which are words without commas comes back as written. */
  lemma {:induction false} InnerNodeComesBack(n: Records.Node)
    requires CommaFree(n.hash) && CommaFree(n.value) && AllCommaFree(n.children)
    requires n.children != [] && n.children[|n.children| - 1] != ""
    ensures Parsed(Serialized(n)) == n
  {
    RoundTrip(n);
  }

  lemma {:induction false} FreshRepresents(h: Digest, len: nat)
    requires Records.GoodDigest(h, len)
    ensures Represents(h, len, Fresh(h), Records.EmptyDb(h))
    ensures GetNode(Fresh(h), ROOT) == Records.Node("", h(""), [h("")])
  {
    hide Parsed, Serialized;
    GoodDigestIsClean(h, len);
    ChildlessRoundTrip(Records.Node("", h(""), []));
  }

  lemma {:induction false} PutInner(h: Digest, len: nat, s: Bytes, db: Records.Db, k: string, n: Records.Node)
    requires Represents(h, len, s, db) && |k| < len && k != ROOT && Parsed(Serialized(n)) == n
    ensures Represents(h, len, Put(s, k, n), db[k := n])
  {
    hide Parsed, Serialized;
    var s', db' := Put(s, k, n), db[k := n];
    forall x | x in db' && x != ROOT ensures NodeShown(len, s', db', x) {
      assert x != k ==> NodeShown(len, s, db, x);
    }
  }

  lemma {:induction false} PutRoot(h: Digest, len: nat, s: Bytes, db: Records.Db, n: Records.Node, n': Records.Node)
    requires Represents(h, len, s, db) && Parsed(Serialized(n)) == n
    requires n.value == "" && n.children == [h("")] + n'.children
    ensures Represents(h, len, Put(s, ROOT, n), db[ROOT := n'])
  {
    hide Parsed, Serialized;
    var s', db' := Put(s, ROOT, n), db[ROOT := n'];
    forall x | x in db' && x != ROOT ensures NodeShown(len, s', db', x) {
      assert NodeShown(len, s, db, x);
    }
  }

  lemma {:induction false} PutLeafRepresents(h: Digest, len: nat, s: Bytes, db: Records.Db, key: string, value: string)
    requires Records.GoodDigest(h, len) && Represents(h, len, s, db)
    ensures Represents(h, len, Put(s, h(key), Records.Node(value, h(value), [])),
                       db[h(key) := Records.Node(value, h(value), [])])
  {
    hide Parsed, Serialized, UpToComma;
    var d, leaf := h(key), Records.Node(value, h(value), []);
    var s', db' := Put(s, d, leaf), db[d := leaf];
    GoodDigestIsClean(h, len);
    LeafComesBack(h(value), value);
    Records.RootIsNotHex();
    forall x | x in db' && x != ROOT ensures NodeShown(len, s', db', x) {
      assert x != d ==> NodeShown(len, s, db, x);
    }
  }

  lemma {:induction false} AppendedIsCommaFree(children: seq<string>, child: string)
    requires AllCommaFree(children) && CommaFree(child)
    ensures AllCommaFree(children + [child])
  {
  }

  lemma {:induction false} AddChildRepresents(h: Digest, len: nat, s: Bytes, db: Records.Db, d: string, i: nat)
    requires Records.GoodDigest(h, len) && len >= 2 && Represents(h, len, s, db)
    requires Records.IsHex(d) && 1 <= i <= |d| == len
    ensures Represents(h, len, AddChild(s, d[..i]), Records.AddChild(db, d[..i]))
  {
    hide Parsed, Serialized, CommaFree, Records.IsHex;
    var child := d[..i];
    Records.PrefixFacts(d, i);
    HexIsCommaFree(child);
    var p := Records.Parent(child);
    var n, r := GetNode(s, p), Records.GetNode(db, p);
    FieldsAreCommaFree(s, p);
    AppendedIsCommaFree(n.children, child);
    var n' := n.(children := n.children + [child]);
    InnerNodeComesBack(n');
    if i >= 2 {
      Records.PrefixFacts(d, i - 1);
    }
    if p == ROOT {
      assert |h("")| == len && |child| == 1;
      assert [h("")] + r.children + [child] == [h("")] + (r.children + [child]);
      PutRoot(h, len, s, db, n', r.(children := r.children + [child]));
    } else {
      assert p in db ==> NodeShown(len, s, db, p);
      PutInner(h, len, s, db, p, n');
    }
  }

  lemma {:induction false} LinkPathRepresents(h: Digest, len: nat, s: Bytes, db: Records.Db, d: string, i: nat)
    requires Records.GoodDigest(h, len) && len >= 2 && Represents(h, len, s, db)
    requires Records.IsHex(d) && i <= |d| == len
    ensures Represents(h, len, LinkPath(s, d, i), Records.LinkPath(db, d, i))
  {
    hide Represents, AddChild, Records.AddChild, Records.GoodDigest;
    if i > 0 {
      LinkPathRepresents(h, len, s, db, d, i - 1);
      AddChildRepresents(h, len, LinkPath(s, d, i - 1), Records.LinkPath(db, d, i - 1), d, i);
    }
  }

  lemma {:induction false} LazyInsertRepresents(h: Digest, len: nat, s: Bytes, db: Records.Db, key: string, value: string)
    requires Records.GoodDigest(h, len) && len >= 2 && Represents(h, len, s, db)
    ensures Represents(h, len, LazyInsert(h, s, key, value), Records.LazyInsert(h, db, key, value))
  {
    hide Represents, LinkPath, Records.LinkPath, Put;
    PutLeafRepresents(h, len, s, db, key, value);
    LinkPathRepresents(h, len, Put(s, h(key), Records.Node(value, h(value), [])),
                       db[h(key) := Records.Node(value, h(value), [])], h(key), |h(key)|);
  }

  lemma {:induction false} LazyAllRepresents(h: Digest, len: nat, pairs: seq<(string, string)>)
    requires Records.GoodDigest(h, len) && len >= 2
    ensures Represents(h, len, LazyAll(h, Fresh(h), pairs), Records.LazyAll(h, Records.EmptyDb(h), pairs))
  {
    hide Represents, LazyInsert, Records.LazyInsert, Fresh, Records.EmptyDb, Records.GoodDigest;
    if pairs == [] {
      FreshRepresents(h, len);
    } else {
      LazyAllRepresents(h, len, pairs[..|pairs| - 1]);
      LazyInsertRepresents(h, len, LazyAll(h, Fresh(h), pairs[..|pairs| - 1]),
                           Records.LazyAll(h, Records.EmptyDb(h), pairs[..|pairs| - 1]), pairs[|pairs| - 1].0, pairs[|pairs| - 1].1);
    }
  }

  /* ----- the eager rehash, through the codec ----- */

  lemma {:induction false} SameHashes(h: Digest, len: nat, s: Bytes, db: Records.Db, keys: seq<string>)
    requires Represents(h, len, s, db)
    requires forall i :: 0 <= i < |keys| ==> keys[i] != ROOT
    ensures Hashes(s, keys) == Records.Hashes(db, keys)
  {
    hide Parsed;
    if keys != [] {
      SameHashes(h, len, s, db, keys[..|keys| - 1]);
      var k := keys[|keys| - 1];
      assert k in db ==> NodeShown(len, s, db, k);
    }
  }

  lemma {:induction false} InnerHasChildren(db: Records.Db, len: nat, d: string, i: nat)
    requires Records.WellFormed(db, len) && Records.IsHex(d) && |d| == len && d in db && 1 <= i < len
    ensures d[..i] in db && db[d[..i]].children != []
  {
    hide Records.WellFormed, Records.IsHex;
    Records.PathIsStored(db, len, d, i);
    Records.PathIsStored(db, len, d, i + 1);
    Records.PrefixFacts(d, i + 1);
    StoredIsListed(db, len, d[..i+1]);
  }

  lemma {:induction false} StoredIsListed(db: Records.Db, len: nat, c: string)
    requires Records.WellFormed(db, len) && c in db && c != ROOT
    ensures Records.Listed(db, c)
  {
  }

  lemma {:induction false} ChildrenAreWords(db: Records.Db, len: nat, k: string)
    requires Records.WellFormed(db, len) && k in db
    ensures forall i :: 0 <= i < |db[k].children| ==> db[k].children[i] != "" && db[k].children[i] != ROOT
  {
    assert Records.ChildrenOk(db, k);
    forall i | 0 <= i < |db[k].children| ensures db[k].children[i] != "" && db[k].children[i] != ROOT {
      assert Records.IsKey(db[k].children[i], len);
    }
  }

  lemma {:induction false} RehashRepresents(h: Digest, len: nat, s: Bytes, db: Records.Db, d: string, i: nat)
    requires Records.GoodDigest(h, len) && Represents(h, len, s, db) && Records.WellFormed(db, len)
    requires Records.IsHex(d) && |d| == len && d in db && 1 <= i < len
    ensures Represents(h, len, Rehash(h, s, d[..i]), Records.Rehash(h, db, d[..i]))
  {
    hide Parsed, Serialized, CommaFree, Records.WellFormed, Records.IsHex;
    var k := d[..i];
    Records.PrefixFacts(d, i);
    InnerHasChildren(db, len, d, i);
    ChildrenAreWords(db, len, k);
    assert NodeShown(len, s, db, k);
    SameHashes(h, len, s, db, db[k].children);
    FieldsAreCommaFree(s, k);
    GoodDigestIsClean(h, len);
    var n := db[k].(hash := h(Records.Hashes(db, db[k].children) + db[k].value));
    InnerNodeComesBack(n);
    PutInner(h, len, s, db, k, n);
  }

  /** What the root's spurious child contributes to the text that is hashed. */
  function Extra(h: Digest, db: Records.Db): string {
    Records.GetNode(db, h("")).hash
  }

  ghost predicate RootHash(h: Digest, s: Bytes, db: Records.Db) {
    ROOT in db && GetNode(s, ROOT).hash == h(Extra(h, db) + Records.Hashes(db, db[ROOT].children))
  }

  lemma {:induction false} HashesOfFirst(db: Bytes, first: string, rest: seq<string>)
    ensures Hashes(db, [first] + rest) == GetNode(db, first).hash + Hashes(db, rest)
  {
    hide Parsed;
    var keys := [first] + rest;
    if rest != [] {
      HashesOfFirst(db, first, rest[..|rest| - 1]);
      assert keys[..|keys| - 1] == [first] + rest[..|rest| - 1];
    } else {
      assert keys[..0] == [];
    }
  }

  lemma {:induction false} RehashRootRepresents(h: Digest, len: nat, s: Bytes, db: Records.Db)
    requires Records.GoodDigest(h, len) && Represents(h, len, s, db) && Records.WellFormed(db, len)
    ensures Represents(h, len, RehashRoot(h, s), Records.RehashRoot(h, db))
    ensures RootHash(h, RehashRoot(h, s), Records.RehashRoot(h, db))
  {
    hide Parsed, Serialized, CommaFree, Records.WellFormed, Hashes;
    var n, r := GetNode(s, ROOT), db[ROOT];
    ChildrenAreWords(db, len, ROOT);
    SameHashes(h, len, s, db, r.children);
    HashesOfFirst(s, h(""), r.children);
    Records.RootIsNotHex();
    assert h("") != ROOT && h("") in db ==> NodeShown(len, s, db, h(""));
    assert Hashes(s, n.children) == Extra(h, db) + Records.Hashes(db, r.children);
    FieldsAreCommaFree(s, ROOT);
    GoodDigestIsClean(h, len);
    var n' := n.(hash := h(Hashes(s, n.children)));
    var r' := r.(hash := h(Records.Hashes(db, r.children)));
    InnerNodeComesBack(n');
    PutRoot(h, len, s, db, n', r');
    Records.RootIsNoChild(h, db, len, ROOT);
  }

  lemma {:induction false} RehashPathRepresents(h: Digest, len: nat, s: Bytes, db: Records.Db, d: string, i: nat)
    requires Records.GoodDigest(h, len) && Represents(h, len, s, db) && Records.WellFormed(db, len)
    requires Records.IsHex(d) && |d| == len && d in db && i < len
    ensures Represents(h, len, RehashPath(h, s, d, i), Records.RehashPath(h, db, d, i))
    ensures RootHash(h, RehashPath(h, s, d, i), Records.RehashPath(h, db, d, i))
    decreases i
  {
    hide Represents, RootHash, Rehash, Records.Rehash, RehashRoot, Records.RehashRoot, Records.WellFormed, Records.GoodDigest;
    if i == 0 {
      RehashRootRepresents(h, len, s, db);
    } else {
      RehashRepresents(h, len, s, db, d, i);
      Records.RehashKeepsShape(h, db, len, d, i);
      RehashPathRepresents(h, len, Rehash(h, s, d[..i]), Records.Rehash(h, db, d[..i]), d, i - 1);
    }
  }

  lemma {:induction false} EagerInsertRepresents(h: Digest, len: nat, s: Bytes, db: Records.Db, key: string, value: string)
    requires Records.GoodDigest(h, len) && len >= 2 && Represents(h, len, s, db) && Records.WellFormed(db, len)
    ensures Represents(h, len, EagerInsert(h, s, key, value), Records.EagerInsert(h, db, key, value))
    ensures RootHash(h, EagerInsert(h, s, key, value), Records.EagerInsert(h, db, key, value))
  {
    hide Represents, RootHash, LazyInsert, Records.LazyInsert, RehashPath, Records.RehashPath, Records.WellFormed;
    LazyInsertRepresents(h, len, s, db, key, value);
    Records.LazyInsertKeepsWellFormed(h, db, len, key, value);
    Records.LeafIsStored(h, db, key, value);
    RehashPathRepresents(h, len, LazyInsert(h, s, key, value), Records.LazyInsert(h, db, key, value), h(key), |h(key)| - 1);
  }

  lemma {:induction false} EagerAllRepresents(h: Digest, len: nat, pairs: seq<(string, string)>)
    requires Records.GoodDigest(h, len) && len >= 2
    ensures Represents(h, len, EagerAll(h, Fresh(h), pairs), Records.EagerAll(h, Records.EmptyDb(h), pairs))
    ensures RootHash(h, EagerAll(h, Fresh(h), pairs), Records.EagerAll(h, Records.EmptyDb(h), pairs))
  {
    hide Represents, EagerInsert, Records.EagerInsert, Records.GoodDigest, Records.WellFormed, Parsed, Serialized;
    Records.EmptyTree(h, len);
    if pairs == [] {
      FreshRepresents(h, len);
      FreshRootHash(h, len);
    } else {
      var most := pairs[..|pairs| - 1];
      EagerAllRepresents(h, len, most);
      Records.EagerAllKeepsTree(h, Records.EmptyDb(h), len, most);
      EagerInsertRepresents(h, len, EagerAll(h, Fresh(h), most), Records.EagerAll(h, Records.EmptyDb(h), most),
                            pairs[|pairs| - 1].0, pairs[|pairs| - 1].1);
    }
  }

  lemma {:induction false} FreshRootHash(h: Digest, len: nat)
    requires Records.GoodDigest(h, len)
    ensures RootHash(h, Fresh(h), Records.EmptyDb(h))
  {
    hide Parsed, Serialized;
    FreshRepresents(h, len);
    Records.RootIsNotHex();
    assert h("") != ROOT;
  }

  /** The text whose digest is the root hash the tree is meant to have. */
  function RootText(db: Records.Db): string {
    Records.Hashes(db, Records.GetNode(db, ROOT).children)
  }

  /** The root hash of the stored tree after eager inserts, and when it is the intended one: when
      no inserted key has the digest of the empty string, and otherwise only if the hash function
      gives one digest to two texts of which one is longer by a digest. */
  lemma {:induction false} EagerRootThroughCodec(h: Digest, len: nat, pairs: seq<(string, string)>)
    requires Records.GoodDigest(h, len) && len >= 2
    ensures var s, db := EagerAll(h, Fresh(h), pairs), Records.EagerAll(h, Records.EmptyDb(h), pairs);
            && GetNode(s, ROOT).children == [h("")] + Records.GetNode(db, ROOT).children
            && GetNode(s, ROOT).hash == h(Extra(h, db) + RootText(db))
            && Records.GetNode(db, ROOT).hash == h(RootText(db))
            && |Extra(h, db)| == (if h("") in db then len else 0)
            && (GetNode(s, ROOT).hash == Records.GetNode(db, ROOT).hash
                <==> h("") !in db || h(Extra(h, db) + RootText(db)) == h(RootText(db)))
  {
    hide Parsed, Serialized, EagerAll, Records.EagerAll, Records.WellFormed;
    var db := Records.EagerAll(h, Records.EmptyDb(h), pairs);
    EagerAllRepresents(h, len, pairs);
    Records.EmptyTree(h, len);
    Records.EagerAllKeepsTree(h, Records.EmptyDb(h), len, pairs);
    RootOfWellFormed(db, len);
    assert Records.HashedAt(h, db, ROOT);
    assert Records.HashedAt(h, db, h(""));
    assert RootText(db) + "" == RootText(db);
    assert h("") !in db ==> Extra(h, db) + RootText(db) == RootText(db);
  }

  lemma {:induction false} RootOfWellFormed(db: Records.Db, len: nat)
    requires Records.WellFormed(db, len)
    ensures ROOT in db && db[ROOT].value == ""
  {
  }
}
