/** Subtrees of the Merkle state, for the post-order rehash. */
module Subtrees {
  import opened MerkleTree

  /** k lies in the subtree of top. */
  ghost predicate Below(k: string, top: string) {
    top == ROOT || (k != ROOT && |top| <= |k| && k[..|top|] == top)
  }

  ghost predicate SubtreeHashed(h: Digest, db: Db, top: string) {
    forall k :: k in db && Below(k, top) ==> HashedAt(h, db, k)
  }

  /** Every node outside the subtree is what it was. */
  ghost predicate SameOutside(a: Db, b: Db, top: string) {
    forall k :: k in a && !Below(k, top) ==> k in b && a[k] == b[k]
  }

  ghost predicate SameInside(a: Db, b: Db, top: string) {
    forall k :: k in a && Below(k, top) ==> k in b && a[k] == b[k]
  }

  lemma {:induction false} PrefixIsStored(db: Db, len: nat, k: string, i: nat)
    requires WellFormed(db, len) && k in db && k != ROOT && 1 <= i <= |k|
    ensures k[..i] in db && IsHex(k)
    decreases |k| - i
  {
    assert IsKey(k, len);
    if i == |k| {
      assert k[..i] == k;
    } else {
      PrefixIsStored(db, len, k, i + 1);
      PrefixFacts(k, i + 1);
      assert Listed(db, k[..i+1]);
    }
  }

  /** A node below top other than top is below one of top's children. */
  lemma {:induction false} BelowAChild(db: Db, len: nat, k: string, top: string) returns (n: nat)
    requires WellFormed(db, len) && k in db && top in db && Below(k, top) && k != top
    ensures n < |db[top].children| && Below(k, db[top].children[n])
  {
    var i := Level(top) + 1;
    assert IsKey(k, len) && IsKey(top, len);
    RootIsNotHex();
    assert k[..|k|] == k;
    PrefixIsStored(db, len, k, i);
    PrefixFacts(k, i);
    var c := k[..i];
    assert Parent(c) == top;
    assert Listed(db, c);
    n :| n < |db[top].children| && db[top].children[n] == c;
  }

  /** A child and all that is below it lie below the parent, which does not. */
  lemma {:induction false} ChildSubtree(db: Db, len: nat, top: string, n: nat, k: string)
    requires WellFormed(db, len) && top in db && n < |db[top].children|
    ensures Below(k, db[top].children[n]) ==> Below(k, top) && k != top
  {
    var c := db[top].children[n];
    assert ChildrenOk(db, top);
    ChildIsOneLonger(db, len, top, n);
    if Below(k, c) && top != ROOT {
      assert k[..|top|] == k[..|c|][..|top|];
    }
  }

  /** Subtrees of two siblings are disjoint. */
  lemma {:induction false} SiblingsAreDisjoint(db: Db, len: nat, top: string, n: nat, m: nat, k: string)
    requires WellFormed(db, len) && top in db && n < m < |db[top].children|
    ensures !(Below(k, db[top].children[n]) && Below(k, db[top].children[m]))
  {
    assert ChildrenOk(db, top);
    ChildIsOneLonger(db, len, top, n);
    ChildIsOneLonger(db, len, top, m);
  }

  /** Whether a node is hashed depends on the node and its children only. */
  lemma {:induction false} HashedAtDependsOnSubtree(h: Digest, a: Db, b: Db, len: nat, top: string)
    requires WellFormed(a, len) && SameShape(a, b) && SubtreeHashed(h, a, top) && SameInside(a, b, top)
    ensures SubtreeHashed(h, b, top)
  {
    forall k | k in b && Below(k, top) ensures HashedAt(h, b, k) {
      assert HashedAt(h, a, k) && ChildrenOk(a, k);
      forall n | 0 <= n < |a[k].children|
        ensures GetNode(a, a[k].children[n]).hash == GetNode(b, a[k].children[n]).hash
      {
        ChildSubtree(a, len, k, n, a[k].children[n]);
        BelowIsTransitive(a[k].children[n], k, top);
      }
      HashesDependOnHashes(a, b, a[k].children);
    }
  }

  lemma {:induction false} BelowIsTransitive(x: string, y: string, z: string)
    requires Below(x, y) && Below(y, z)
    ensures Below(x, z)
  {
    if z != ROOT {
      assert x[..|z|] == x[..|y|][..|z|];
    }
  }

  /** What the loop over the children of `top` has done after `done` of them. */
  ghost predicate Progress(h: Digest, before: Db, db: Db, len: nat, top: string, done: nat)
    requires top in before
  {
    && SameShape(before, db) && WellFormed(db, len)
    && SameOutside(before, db, top)
    && db[top] == before[top]
    && (forall j :: 0 <= j < done && j < |before[top].children| ==> SubtreeHashed(h, db, before[top].children[j]))
    && (forall j :: done <= j < |before[top].children| ==> SameInside(before, db, before[top].children[j]))
  }

  lemma {:induction false} ChildKeepsOutside(before: Db, mid: Db, db: Db, len: nat, top: string, i: nat)
    requires WellFormed(before, len) && top in before && i < |before[top].children|
    requires SameShape(before, mid) && SameOutside(before, mid, top) && mid[top] == before[top]
    requires SameOutside(mid, db, before[top].children[i])
    ensures SameOutside(before, db, top) && top in db && db[top] == before[top]
  {
    forall k | k in before && !Below(k, top) ensures k in db && before[k] == db[k] {
      ChildSubtree(before, len, top, i, k);
    }
    ChildSubtree(before, len, top, i, top);
  }

  lemma {:induction false} ChildKeepsSibling(mid: Db, db: Db, len: nat, top: string, i: nat, j: nat)
    requires WellFormed(mid, len) && top in mid && i < |mid[top].children| && j < |mid[top].children| && i != j
    requires SameOutside(mid, db, mid[top].children[i])
    ensures SameInside(mid, db, mid[top].children[j])
  {
    forall k | k in mid && Below(k, mid[top].children[j]) ensures k in db && mid[k] == db[k] {
      if i < j {
        SiblingsAreDisjoint(mid, len, top, i, j, k);
      } else {
        SiblingsAreDisjoint(mid, len, top, j, i, k);
      }
    }
  }

  /** Rehashing the next child completely is the next step of the loop. */
  lemma {:induction false} NextChild(h: Digest, before: Db, mid: Db, db: Db, len: nat, top: string, i: nat)
    requires WellFormed(before, len) && top in before && i < |before[top].children|
    requires Progress(h, before, mid, len, top, i)
    requires SameShape(mid, db) && WellFormed(db, len)
    requires SameOutside(mid, db, before[top].children[i]) && SubtreeHashed(h, db, before[top].children[i])
    ensures Progress(h, before, db, len, top, i + 1)
  {
    hide WellFormed, SubtreeHashed, Below;
    var kids := before[top].children;
    ChildKeepsOutside(before, mid, db, len, top, i);
    forall j | 0 <= j < i ensures SubtreeHashed(h, db, kids[j]) {
      ChildKeepsSibling(mid, db, len, top, i, j);
      HashedAtDependsOnSubtree(h, mid, db, len, kids[j]);
    }
    forall j | i + 1 <= j < |kids| ensures SameInside(before, db, kids[j]) {
      ChildKeepsSibling(mid, db, len, top, i, j);
    }
  }

  lemma {:induction false} TopIsHashed(h: Digest, mid: Db, len: nat, top: string)
    requires WellFormed(mid, len) && top in mid
    ensures HashedAt(h, Rehash(h, mid, top), top)
  {
    var db := Rehash(h, mid, top);
    forall n | 0 <= n < |mid[top].children|
      ensures GetNode(mid, mid[top].children[n]).hash == GetNode(db, mid[top].children[n]).hash
    {
      ChildIsOneLonger(mid, len, top, n);
    }
    HashesDependOnHashes(mid, db, mid[top].children);
  }

  lemma {:induction false} ChildStaysHashed(h: Digest, mid: Db, len: nat, top: string, n: nat)
    requires WellFormed(mid, len) && top in mid && n < |mid[top].children|
    requires SubtreeHashed(h, mid, mid[top].children[n])
    ensures SubtreeHashed(h, Rehash(h, mid, top), mid[top].children[n])
  {
    var db := Rehash(h, mid, top);
    var c := mid[top].children[n];
    forall x | x in mid && Below(x, c) ensures x in db && mid[x] == db[x] {
      ChildSubtree(mid, len, top, n, x);
    }
    HashedAtDependsOnSubtree(h, mid, db, len, c);
  }

  lemma {:induction false} SubtreeIsHashed(h: Digest, mid: Db, len: nat, top: string)
    requires WellFormed(mid, len) && top in mid
    requires forall j :: 0 <= j < |mid[top].children| ==> SubtreeHashed(h, mid, mid[top].children[j])
    ensures SubtreeHashed(h, Rehash(h, mid, top), top)
  {
    forall k | k in mid && Below(k, top) ensures HashedAt(h, Rehash(h, mid, top), k) {
      if k == top {
        TopIsHashed(h, mid, len, top);
      } else {
        var n := BelowAChild(mid, len, k, top);
        ChildStaysHashed(h, mid, len, top, n);
      }
    }
  }

  lemma {:induction false} RehashKeepsRest(h: Digest, mid: Db, len: nat, top: string)
    requires WellFormed(mid, len) && top in mid
    ensures WellFormed(Rehash(h, mid, top), len)
  {
    hide WellFormed, Hashes;
    assert SameShape(mid, Rehash(h, mid, top));
    ShapeDecidesWellFormed(mid, Rehash(h, mid, top), len);
  }

  lemma {:induction false} RehashChangesOnlyHash(h: Digest, before: Db, mid: Db, len: nat, top: string)
    requires SameShape(before, mid) && WellFormed(mid, len) && top in before && SameOutside(before, mid, top)
    ensures SameShape(before, Rehash(h, mid, top)) && WellFormed(Rehash(h, mid, top), len)
    ensures SameOutside(before, Rehash(h, mid, top), top)
  {
    hide WellFormed, Hashes;
    assert top[..|top|] == top;
    RehashKeepsRest(h, mid, len, top);
  }

  /** Hashing the node itself after all its children finishes its subtree. */
  lemma {:induction false} FinishNode(h: Digest, before: Db, mid: Db, len: nat, top: string)
    requires WellFormed(before, len) && top in before
    requires Progress(h, before, mid, len, top, |before[top].children|)
    ensures var db := Rehash(h, mid, top);
            && SameShape(before, db) && WellFormed(db, len)
            && SameOutside(before, db, top) && SubtreeHashed(h, db, top)
  {
    hide WellFormed, SubtreeHashed, SameOutside;
    RehashChangesOnlyHash(h, before, mid, len, top);
    SubtreeIsHashed(h, mid, len, top);
  }

  /** Rehashing one child leaves the hashes of its siblings. */
  lemma {:induction false} EarlierHashesStay(mid: Db, db: Db, len: nat, top: string, i: nat)
    requires WellFormed(mid, len) && SameShape(mid, db) && top in mid && i < |mid[top].children|
    requires SameOutside(mid, db, mid[top].children[i])
    ensures Hashes(mid, mid[top].children[..i]) == Hashes(db, mid[top].children[..i])
  {
    var kids := mid[top].children;
    forall j | 0 <= j < i ensures GetNode(mid, kids[..i][j]).hash == GetNode(db, kids[..i][j]).hash {
      assert ChildrenOk(mid, top);
      assert kids[j][..|kids[j]|] == kids[j];
      SiblingsAreDisjoint(mid, len, top, j, i, kids[j]);
    }
    HashesDependOnHashes(mid, db, kids[..i]);
  }

  /** What a visit to `top` may rely on: visited nodes below it have finished subtrees. */
  ghost predicate VisitedDone(h: Digest, db: Db, top: string, visited: set<string>) {
    forall v :: v in visited && Below(v, top) ==> SubtreeHashed(h, db, v)
  }

  /** Nodes seen since `top` was entered are top itself or below one of its first i children. */
  ghost predicate NewlySeen(visited: set<string>, seen: set<string>, top: string, kids: seq<string>, i: nat) {
    forall v :: v in seen && v !in visited ==> v == top || exists j :: 0 <= j < i && j < |kids| && Below(v, kids[j])
  }

  /** Before child i is entered, every visited node below it has a finished subtree. */
  lemma {:induction false} VisitedIsHashed(h: Digest, before: Db, db: Db, len: nat, top: string, i: nat, visited: set<string>, seen: set<string>)
    requires WellFormed(before, len) && top in before && i < |before[top].children|
    requires Progress(h, before, db, len, top, i)
    requires VisitedDone(h, before, top, visited)
    requires NewlySeen(visited, seen, top, before[top].children, i)
    ensures VisitedDone(h, db, before[top].children[i], seen)
  {
    var kids := before[top].children;
    forall v | v in seen && Below(v, kids[i]) ensures SubtreeHashed(h, db, v) {
      ChildSubtree(before, len, top, i, v);
      forall j | 0 <= j < i ensures !Below(v, kids[j]) {
        SiblingsAreDisjoint(before, len, top, j, i, v);
      }
      assert v in visited;
      forall k | k in before && Below(k, v) ensures k in db && before[k] == db[k] {
        BelowIsTransitive(k, v, kids[i]);
      }
      HashedAtDependsOnSubtree(h, before, db, len, v);
    }
  }

  lemma {:induction false} NewlySeenStart(visited: set<string>, top: string, kids: seq<string>)
    ensures NewlySeen(visited, visited + {top}, top, kids, 0)
  {
  }

  lemma {:induction false} NewlySeenNext(visited: set<string>, seen: set<string>, seen': set<string>, top: string, kids: seq<string>, i: nat)
    requires i < |kids| && NewlySeen(visited, seen, top, kids, i)
    requires forall v :: v in seen' ==> v in seen || Below(v, kids[i])
    ensures NewlySeen(visited, seen', top, kids, i + 1)
  {
  }

  lemma {:induction false} NewlySeenIsBelow(before: Db, len: nat, visited: set<string>, seen: set<string>, top: string)
    requires WellFormed(before, len) && top in before
    requires NewlySeen(visited, seen, top, before[top].children, |before[top].children|)
    ensures forall v :: v in seen ==> v in visited || Below(v, top)
  {
    var kids := before[top].children;
    forall v | v in seen && v !in visited ensures Below(v, top) {
      if v == top {
        assert top[..|top|] == top;
      } else {
        var j :| 0 <= j < |kids| && Below(v, kids[j]);
        ChildSubtree(before, len, top, j, v);
      }
    }
  }

  lemma {:induction false} ProgressFacts(h: Digest, before: Db, db: Db, len: nat, top: string, i: nat)
    requires WellFormed(before, len) && top in before && Progress(h, before, db, len, top, i)
    ensures SameShape(before, db) && WellFormed(db, len) && top in db && db[top] == before[top]
    ensures i < |before[top].children| ==>
              before[top].children[i] in db && Level(before[top].children[i]) == Level(top) + 1 <= len
  {
    assert ChildrenOk(before, top);
    if i < |before[top].children| {
      ChildIsOneLonger(before, len, top, i);
    }
  }

  lemma {:induction false} ProgressStart(h: Digest, db: Db, len: nat, top: string)
    requires WellFormed(db, len) && top in db
    ensures Progress(h, db, db, len, top, 0)
  {
  }
}
