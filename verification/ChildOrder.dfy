/** In which order a node lists its children, on which its hash depends: that of the first insert
    under each of them. */
module ChildOrder {
  import opened MerkleTree
  import Stored = StoredTree

  type Pairs = seq<(string, string)>

  /** The digest of the n-th key starts with c. */
  ghost predicate Opens(h: Digest, pairs: Pairs, n: int, c: string) {
    0 <= n < |pairs| && c <= h(pairs[n].0)
  }

  ghost predicate Used(h: Digest, pairs: Pairs, c: string) {
    exists n :: Opens(h, pairs, n, c)
  }

  /** The n-th insert needed a, and none up to it needed b. */
  ghost predicate OpensOnly(h: Digest, pairs: Pairs, n: int, a: string, b: string) {
    Opens(h, pairs, n, a) && forall m :: m <= n ==> !Opens(h, pairs, m, b)
  }

  ghost predicate UsedBefore(h: Digest, pairs: Pairs, a: string, b: string) {
    exists n :: OpensOnly(h, pairs, n, a, b)
  }

  ghost predicate InInsertionOrder(h: Digest, pairs: Pairs, children: seq<string>) {
    forall i, j :: 0 <= i < j < |children| ==> UsedBefore(h, pairs, children[i], children[j])
  }

  /** c is one character longer than k, or one character alone below the root. */
  ghost predicate OneLonger(k: string, c: string) {
    if k == ROOT then |c| == 1 else |c| == |k| + 1 && k <= c
  }

  /** The children of k are the prefixes of digests that are one longer, in insertion order. */
  ghost predicate ChildrenOf(h: Digest, pairs: Pairs, k: string, children: seq<string>) {
    && (forall c :: c in children <==> OneLonger(k, c) && Used(h, pairs, c))
    && InInsertionOrder(h, pairs, children)
  }

  ghost function WithChild(children: seq<string>, c: string): seq<string> {
    if c in children then children else children + [c]
  }

  lemma {:induction false} AddedChild(db: Db, child: string, k: string)
    ensures GetNode(AddChild(db, child), k).children
            == if Parent(child) == k then WithChild(GetNode(db, k).children, child) else GetNode(db, k).children
  {
  }

  lemma {:induction false} PathChildren(db: Db, d: string, i: nat, k: string)
    requires IsHex(d) && 1 <= i <= |d| && OnPath(d, i - 1, k)
    ensures GetNode(LinkPath(db, d, i), k).children == WithChild(GetNode(db, k).children, d[..Level(k) + 1])
  {
    hide GetNode, WithChild, Parent, AddChild, IsHex;
    RootIsNotHex();
    PrefixFacts(d, i);
    AddedChild(LinkPath(db, d, i - 1), d[..i], k);
    if i > 1 {
      PrefixFacts(d, i - 1);
      if Level(k) + 1 < i {
        PathChildren(db, d, i - 1, k);
      } else {
        LinkPathOffPath(db, d, i - 1, k);
      }
    }
  }

  /** An insert appends the prefix that continues k, if it is new. */
  lemma {:induction false} InsertChildren(h: Digest, len: nat, db: Db, key: string, value: string, k: string)
    requires GoodDigest(h, len) && (k == ROOT || 1 <= |k| < len)
    ensures var ch := GetNode(db, k).children;
            GetNode(LazyInsert(h, db, key, value), k).children
            == if OnPath(h(key), len - 1, k) then WithChild(ch, h(key)[..Level(k) + 1]) else ch
  {
    var d := h(key);
    RootIsNotHex();
    var db0 := db[d := Node(value, h(value), [])];
    assert GetNode(db0, k) == GetNode(db, k);
    if OnPath(d, len - 1, k) {
      PathChildren(db0, d, len, k);
    } else {
      LinkPathOffPath(db0, d, len, k);
    }
  }

  /** The prefix of d one longer than k, and when there is one. */
  lemma {:induction false} NextPrefix(d: string, k: string, c: string)
    requires IsHex(d) && d != "" && (k == ROOT || 1 <= |k| < |d|)
    ensures OneLonger(k, c) && c <= d <==> OnPath(d, |d| - 1, k) && c == d[..Level(k) + 1]
  {
    RootIsNotHex();
    if c <= d {
      assert c == d[..|c|];
    }
  }

  lemma {:induction false} OneMorePair(h: Digest, pairs: Pairs, c: string)
    requires pairs != []
    ensures var most := pairs[..|pairs| - 1];
            && (forall n :: n < |most| ==> (Opens(h, pairs, n, c) <==> Opens(h, most, n, c)))
            && (Used(h, pairs, c) <==> Used(h, most, c) || c <= h(pairs[|pairs| - 1].0))
  {
    var most := pairs[..|pairs| - 1];
    if n :| Opens(h, most, n, c) {
      assert Opens(h, pairs, n, c);
    }
    if c <= h(pairs[|pairs| - 1].0) {
      assert Opens(h, pairs, |pairs| - 1, c);
    }
    if n :| Opens(h, pairs, n, c) {
      assert n < |most| ==> Opens(h, most, n, c);
    }
  }

  lemma {:induction false} BeforeStays(h: Digest, pairs: Pairs, a: string, b: string)
    requires pairs != [] && UsedBefore(h, pairs[..|pairs| - 1], a, b)
    ensures UsedBefore(h, pairs, a, b)
  {
    hide Opens;
    var most := pairs[..|pairs| - 1];
    var n :| OpensOnly(h, most, n, a, b);
    OneMorePair(h, pairs, a);
    OneMorePair(h, pairs, b);
    OpensInRange(h, most, n, a);
    assert OpensOnly(h, pairs, n, a, b);
  }

  lemma {:induction false} OpensInRange(h: Digest, pairs: Pairs, n: int, c: string)
    requires Opens(h, pairs, n, c)
    ensures 0 <= n < |pairs|
  {
  }

  /** What was used comes before what is used for the first time now. */
  lemma {:induction false} UsedIsBeforeNew(h: Digest, pairs: Pairs, a: string, c: string)
    requires pairs != [] && Used(h, pairs[..|pairs| - 1], a) && !Used(h, pairs[..|pairs| - 1], c)
    ensures UsedBefore(h, pairs, a, c)
  {
    hide Opens;
    var most := pairs[..|pairs| - 1];
    var n :| Opens(h, most, n, a);
    assert OpensOnly(h, most, n, a, c);
    BeforeStays(h, pairs, a, c);
  }

  lemma {:induction false} OrderStays(h: Digest, pairs: Pairs, children: seq<string>)
    requires pairs != [] && InInsertionOrder(h, pairs[..|pairs| - 1], children)
    ensures InInsertionOrder(h, pairs, children)
  {
    hide UsedBefore;
    forall i, j | 0 <= i < j < |children| ensures UsedBefore(h, pairs, children[i], children[j]) {
      BeforeStays(h, pairs, children[i], children[j]);
    }
  }

  lemma {:induction false} NewChildIsLast(h: Digest, pairs: Pairs, k: string, children: seq<string>, c: string)
    requires pairs != [] && ChildrenOf(h, pairs[..|pairs| - 1], k, children)
    requires OneLonger(k, c) && c !in children
    ensures InInsertionOrder(h, pairs, children + [c])
  {
    hide UsedBefore, Used, OneLonger;
    OrderStays(h, pairs, children);
    var all := children + [c];
    forall i, j | 0 <= i < j < |all| ensures UsedBefore(h, pairs, all[i], all[j]) {
      if j < |children| {
        assert all[i] == children[i] && all[j] == children[j];
      } else {
        assert all[i] in children;
        UsedIsBeforeNew(h, pairs, all[i], c);
      }
    }
  }

  lemma {:induction false} LazyChildren(h: Digest, len: nat, pairs: Pairs, k: string)
    requires GoodDigest(h, len) && (k == ROOT || 1 <= |k| < len)
    ensures ChildrenOf(h, pairs, k, GetNode(LazyAll(h, EmptyDb(h), pairs), k).children)
  {
    if pairs != [] {
      var most, last := pairs[..|pairs| - 1], pairs[|pairs| - 1];
      var d, db := h(last.0), LazyAll(h, EmptyDb(h), most);
      var ch := GetNode(db, k).children;
      var ch' := GetNode(LazyAll(h, EmptyDb(h), pairs), k).children;
      LazyChildren(h, len, most, k);
      InsertChildren(h, len, db, last.0, last.1, k);
      NextStep(h, len, pairs, k, ch);
    }
  }

  lemma {:induction false} NextStep(h: Digest, len: nat, pairs: Pairs, k: string, ch: seq<string>)
    requires GoodDigest(h, len) && (k == ROOT || 1 <= |k| < len)
    requires pairs != [] && ChildrenOf(h, pairs[..|pairs| - 1], k, ch)
    ensures var d := h(pairs[|pairs| - 1].0);
            ChildrenOf(h, pairs, k, if OnPath(d, len - 1, k) then WithChild(ch, d[..Level(k) + 1]) else ch)
  {
    hide InInsertionOrder, Used, Opens;
    var d := h(pairs[|pairs| - 1].0);
    var ch' := if OnPath(d, len - 1, k) then WithChild(ch, d[..Level(k) + 1]) else ch;
    forall c ensures c in ch' <==> OneLonger(k, c) && Used(h, pairs, c) {
      OneMorePair(h, pairs, c);
      NextPrefix(d, k, c);
    }
    OrderStays(h, pairs, ch);
    if OnPath(d, len - 1, k) && d[..Level(k) + 1] !in ch {
      NextPrefix(d, k, d[..Level(k) + 1]);
      NewChildIsLast(h, pairs, k, ch, d[..Level(k) + 1]);
    }
  }

  /** The children of every inner node, after any inserts of either kind. */
  lemma {:induction false} ChildrenInOrder(h: Digest, len: nat, pairs: Pairs, k: string)
    requires GoodDigest(h, len) && (k == ROOT || 1 <= |k| < len)
    ensures ChildrenOf(h, pairs, k, GetNode(LazyAll(h, EmptyDb(h), pairs), k).children)
    ensures ChildrenOf(h, pairs, k, GetNode(EagerAll(h, EmptyDb(h), pairs), k).children)
  {
    hide ChildrenOf, LazyAll, EagerAll;
    LazyChildren(h, len, pairs, k);
    EmptyTree(h, len);
    EagerAllKeepsTree(h, EmptyDb(h), len, pairs);
  }

  /** The same in the store, where the root begins with one more child, the digest of the empty
      string. */
  lemma {:induction false} StoredChildrenInOrder(h: Digest, len: nat, pairs: Pairs, k: string)
    requires GoodDigest(h, len) && len >= 2 && 1 <= |k| < len
    requires k != ROOT
    ensures ChildrenOf(h, pairs, k, Stored.GetNode(Stored.LazyAll(h, Stored.Fresh(h), pairs), k).children)
    ensures ChildrenOf(h, pairs, k, Stored.GetNode(Stored.EagerAll(h, Stored.Fresh(h), pairs), k).children)
  {
    hide ChildrenOf, LazyAll, EagerAll, Stored.LazyAll, Stored.EagerAll, Stored.Fresh;
    ChildrenInOrder(h, len, pairs, k);
    Stored.LazyAllRepresents(h, len, pairs);
    Stored.EagerAllRepresents(h, len, pairs);
    ShownChildren(h, len, Stored.LazyAll(h, Stored.Fresh(h), pairs), LazyAll(h, EmptyDb(h), pairs), k);
    ShownChildren(h, len, Stored.EagerAll(h, Stored.Fresh(h), pairs), EagerAll(h, EmptyDb(h), pairs), k);
  }

  lemma {:induction false} StoredRootChildrenInOrder(h: Digest, len: nat, pairs: Pairs)
    requires GoodDigest(h, len) && len >= 2
    ensures var ch := Stored.GetNode(Stored.LazyAll(h, Stored.Fresh(h), pairs), ROOT).children;
            ch != [] && ch[0] == h("") && ChildrenOf(h, pairs, ROOT, ch[1..])
    ensures var ch := Stored.GetNode(Stored.EagerAll(h, Stored.Fresh(h), pairs), ROOT).children;
            ch != [] && ch[0] == h("") && ChildrenOf(h, pairs, ROOT, ch[1..])
  {
    hide ChildrenOf, LazyAll, EagerAll, Stored.LazyAll, Stored.EagerAll, Stored.Fresh, Stored.GetNode;
    ChildrenInOrder(h, len, pairs, ROOT);
    Stored.LazyAllRepresents(h, len, pairs);
    Stored.EagerAllRepresents(h, len, pairs);
  }

  lemma {:induction false} ShownChildren(h: Digest, len: nat, s: Stored.Bytes, db: Db, k: string)
    requires Stored.Represents(h, len, s, db) && |k| < len && k != ROOT
    ensures Stored.GetNode(s, k).children == GetNode(db, k).children
  {
    assert k in db ==> Stored.NodeShown(len, s, db, k);
  }
}
