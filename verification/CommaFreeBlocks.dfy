/** Which values survive the commit whole: those without a comma.  Everything the contracts write is
    such a value, except for what a cart takes over from the payload. */
module CommaFreeBlocks {
  import opened Wrappers
  import opened Block
  import opened SharedMap
  import opened Decimal
  import opened Cart
  import opened Ledger
  import opened NodeCodec
  import opened ContractBlocks
  import Wallet
  import Voting
  import ECommerce
  import ParallelFlush
  import Records = MerkleTree
  import SerialScheduler
  import StoredTree
  import WorkerMachine

  lemma {:induction false} BothCommaFree(a: string, b: string)
    ensures CommaFree(a + b) <==> CommaFree(a) && CommaFree(b)
  {
  }

  lemma {:induction false} PrintedIsCommaFree(n: int)
    ensures CommaFree(ToString(n))
  {
    var m: nat := if n < 0 then -n else n;
    DigitsAreDigits(m);
    forall i | 0 <= i < |Digits(m)| ensures Digits(m)[i] != ',' {
      assert IsDigit(Digits(m)[i]);
    }
    if n < 0 {
      BothCommaFree("-", Digits(m));
    }
  }

  lemma {:induction false} EntryIsCommaFree(name: string, quantity: string)
    ensures CommaFree(Entry(name, quantity)) <==> CommaFree(name) && CommaFree(quantity)
  {
    BothCommaFree(name + " " + quantity, " ");
    BothCommaFree(name + " ", quantity);
    BothCommaFree(name, " ");
  }

  /** A printed cart has no comma exactly when no item name has one. */
  lemma {:induction false} CartIsCommaFreeIffNamesAre(cart: Lines)
    ensures CommaFree(Print(cart)) <==> forall i :: 0 <= i < |cart| ==> CommaFree(cart[i].name)
  {
    hide CommaFree, Entry, ToString;
    if cart == [] {
      EmptyIsCommaFree();
    } else {
      CartIsCommaFreeIffNamesAre(cart[1..]);
      PrintedIsCommaFree(cart[0].quantity);
      EntryIsCommaFree(cart[0].name, ToString(cart[0].quantity));
      BothCommaFree(Entry(cart[0].name, ToString(cart[0].quantity)), Print(cart[1..]));
      assert (forall i :: 0 <= i < |cart| ==> CommaFree(cart[i].name))
             <==> CommaFree(cart[0].name) && forall i :: 0 <= i < |cart[1..]| ==> CommaFree(cart[1..][i].name);
    }
  }

  lemma {:induction false} EmptyIsCommaFree()
    ensures CommaFree("")
  {
  }

  lemma {:induction false} SkipSpaceIsSuffix(s: string)
    ensures exists i :: 0 <= i <= |s| && SkipSpace(s) == s[i..]
  {
    if s != "" && IsSpace(s[0]) {
      SkipSpaceIsSuffix(s[1..]);
      var i :| 0 <= i <= |s[1..]| && SkipSpace(s[1..]) == s[1..][i..];
      assert s[1..][i..] == s[i+1..];
    } else {
      assert s[0..] == s;
    }
  }

  ghost predicate AllClean(ts: seq<string>) {
    forall i :: 0 <= i < |ts| ==> CommaFree(ts[i])
  }

  lemma {:induction false} TokensAreCommaFree(s: string)
    requires CommaFree(s)
    ensures AllClean(Tokens(s))
    decreases |s|
  {
    hide CommaFree, IsSpace;
    SkipSpaceIsSuffix(s);
    var t := SkipSpace(s);
    PartsOfCommaFree(s, t);
    if t != "" {
      var n := WordLength(t);
      assert t == t[..n] + t[n..];
      BothCommaFree(t[..n], t[n..]);
      TokensAreCommaFree(t[n..]);
    }
  }

  lemma {:induction false} PartsOfCommaFree(s: string, t: string)
    requires CommaFree(s) && exists i :: 0 <= i <= |s| && t == s[i..]
    ensures CommaFree(t)
  {
    var i :| 0 <= i <= |s| && t == s[i..];
    assert s == s[..i] + s[i..];
  }

  /** The edits print numbers, so only the item name can bring a comma. */
  ghost predicate CleanEdit(item: string, edit: Edit) {
    forall have :: edit(have).Some? && CommaFree(item) ==> CommaFree(edit(have).value)
  }

  lemma {:induction false} EditsAreClean(item: string, quantity: string)
    ensures CleanEdit(item, AddEdit(item, quantity)) && CleanEdit(item, RemoveEdit(item, quantity))
  {
    hide CommaFree, Entry, Stoi, ToString;
    EmptyIsCommaFree();
    forall n: int ensures CommaFree(Entry(item, ToString(n))) <==> CommaFree(item) {
      PrintedIsCommaFree(n);
      EntryIsCommaFree(item, ToString(n));
    }
  }

  lemma {:induction false} RewriteIsCommaFree(ts: seq<string>, item: string, edit: Edit)
    requires AllClean(ts) && CleanEdit(item, edit)
    ensures var r := Rewrite(ts, item, edit); r.Text? ==> CommaFree(r.text) && (r.found ==> CommaFree(item))
  {
    hide CommaFree, Entry;
    if |ts| >= 2 {
      RewriteIsCommaFree(ts[2..], item, edit);
      EntryIsCommaFree(ts[0], ts[1]);
      var piece := Piece(ts[0], ts[1], item, edit);
      var rest := Rewrite(ts[2..], item, edit);
      if piece.Some? && rest.Text? {
        BothCommaFree(piece.value, rest.text);
      }
    } else {
      EmptyIsCommaFree();
    }
  }

  /** When the new contents of a cart have no comma: always if the item was in the cart, and
      otherwise exactly if the payload's item and quantity have none. */
  lemma {:induction false} AddedIsCommaFreeIff(contents: string, item: string, quantity: string)
    requires CommaFree(contents) && Added(contents, item, quantity).Some?
    ensures CommaFree(Added(contents, item, quantity).value)
            <==> Rewrite(Tokens(contents), item, AddEdit(item, quantity)).found || (CommaFree(item) && CommaFree(quantity))
  {
    hide CommaFree, Entry, Tokens, Rewrite, AddEdit;
    TokensAreCommaFree(contents);
    EditsAreClean(item, quantity);
    RewriteIsCommaFree(Tokens(contents), item, AddEdit(item, quantity));
    EntryIsCommaFree(item, quantity);
    var r := Rewrite(Tokens(contents), item, AddEdit(item, quantity));
    if !r.found {
      BothCommaFree(r.text, Entry(item, quantity));
    }
  }

  lemma {:induction false} RemovedIsCommaFree(contents: string, item: string, quantity: string)
    requires CommaFree(contents) && Removed(contents, item, quantity).Some?
    ensures CommaFree(Removed(contents, item, quantity).value)
  {
    hide CommaFree, Tokens, Rewrite, RemoveEdit;
    TokensAreCommaFree(contents);
    EditsAreClean(item, quantity);
    RewriteIsCommaFree(Tokens(contents), item, RemoveEdit(item, quantity));
  }

  /* ----- blocks of contract calls ----- */

  /** What addToCart takes over from the payload has no comma in it. */
  predicate CleanCall(c: Contract) {
    c.ShopTxn? && c.call.AddToCart? ==> CommaFree(c.call.item) && CommaFree(c.call.quantity)
  }

  ghost predicate CleanView(view: View) {
    forall k :: CommaFree(view(k))
  }

  lemma {:induction false} PutKeepsClean(m: Store, name: string, amount: int)
    requires SerialScheduler.CommaFreeValues(m)
    ensures SerialScheduler.CommaFreeValues(Put(m, name, amount))
  {
    PrintedIsCommaFree(amount);
  }

  lemma {:induction false} WalletKeepsClean(view: View, op: Wallet.Op, m: Store)
    requires SerialScheduler.CommaFreeValues(m)
    ensures SerialScheduler.CommaFreeValues(Wallet.Effect(view, op, m).store)
  {
    hide SerialScheduler.CommaFreeValues, Put, Balance, Stoi;
    forall m', name, amount | SerialScheduler.CommaFreeValues(m')
      ensures SerialScheduler.CommaFreeValues(Put(m', name, amount))
    {
      PutKeepsClean(m', name, amount);
    }
  }

  lemma {:induction false} MoveKeepsClean(view: View, source: string, target: string, amount: int, m: Store)
    requires SerialScheduler.CommaFreeValues(m)
    ensures SerialScheduler.CommaFreeValues(Voting.Moved(view, source, target, amount, m).store)
  {
    hide SerialScheduler.CommaFreeValues, Put, Amount;
    forall m', name, n | SerialScheduler.CommaFreeValues(m')
      ensures SerialScheduler.CommaFreeValues(Put(m', name, n))
    {
      PutKeepsClean(m', name, n);
    }
  }

  lemma {:induction false} VoteKeepsClean(view: View, vote: Voting.Op, m: Store)
    requires SerialScheduler.CommaFreeValues(m)
    ensures SerialScheduler.CommaFreeValues(Voting.Effect(view, vote, m).store)
  {
    hide Voting.Moved, Stoi;
    match vote
    case TransferVote(source, target, count) =>
      if Stoi(count).Some? {
        MoveKeepsClean(view, source, target, Stoi(count).value, m);
      }
    case CastVote(voter, candidate) => MoveKeepsClean(view, voter, candidate, 1, m);
    case _ =>
  }

  lemma {:induction false} ShopUpdateIsClean(call: ECommerce.Op, contents: string)
    requires CommaFree(contents) && CleanCall(ShopTxn(call))
    ensures var u := ECommerce.UpdateOf(call, contents); u.contents.Some? ==> CommaFree(u.contents.value)
  {
    hide CommaFree, Added, Removed, Stoi, ToString;
    match call
    case Checkout(_) => EmptyIsCommaFree();
    case AddToCart(_, item, quantity) =>
      if Added(contents, item, quantity).Some? {
        AddedIsCommaFreeIff(contents, item, quantity);
      }
    case RemoveFromCart(_, item, quantity) =>
      if Removed(contents, item, quantity).Some? {
        RemovedIsCommaFree(contents, item, quantity);
      }
    case RefillItem(_, quantity) =>
      forall n: int ensures CommaFree(ToString(n)) {
        PrintedIsCommaFree(n);
      }
    case Rejected =>
  }

  lemma {:induction false} ShopKeepsClean(view: View, call: ECommerce.Op, m: Store)
    requires SerialScheduler.CommaFreeValues(m) && CleanView(view) && CleanCall(ShopTxn(call))
    ensures SerialScheduler.CommaFreeValues(ECommerce.Effect(view, call, m).store)
  {
    hide CommaFree, ECommerce.UpdateOf, CleanCall;
    if !call.Rejected? {
      var address := if call.RefillItem? then call.stock else call.cart;
      ShopUpdateIsClean(call, Contents(view, m, address));
    }
  }

  /** No call puts a comma into the map, if the carts take none over from the payloads. */
  lemma {:induction false} CallKeepsClean(view: View, c: Contract, m: Store)
    requires SerialScheduler.CommaFreeValues(m) && CleanView(view) && CleanCall(c)
    ensures SerialScheduler.CommaFreeValues(Effect(view, c, m).store)
  {
    hide SerialScheduler.CommaFreeValues, CleanView, Wallet.Effect, Voting.Effect, ECommerce.Effect;
    match c
    case WalletTxn(op) => WalletKeepsClean(view, op, m);
    case VoteTxn(vote) => VoteKeepsClean(view, vote, m);
    case ShopTxn(call) => ShopKeepsClean(view, call, m);
    case UnknownFamily =>
  }

  lemma {:induction false} BlockKeepsClean(view: View, calls: seq<Contract>, start: Store)
    requires SerialScheduler.CommaFreeValues(start) && CleanView(view)
    requires forall t :: 0 <= t < |calls| ==> CleanCall(calls[t])
    ensures SerialScheduler.CommaFreeValues(InOrder(view, calls, start))
  {
    hide SerialScheduler.CommaFreeValues, CleanView, CleanCall, Effect;
    if calls != [] {
      BlockKeepsClean(view, calls[..|calls| - 1], start);
      CallKeepsClean(view, calls[|calls| - 1], InOrder(view, calls[..|calls| - 1], start));
    }
  }

  /** What the committed state shows has no comma: it has been read through the codec. */
  lemma {:induction false} StateViewIsClean(h: StoredTree.Digest, was: StoredTree.Bytes, view: View)
    requires forall k :: view(k) == StoredTree.Lookup(h, was, k)
    ensures CleanView(view)
  {
    hide CommaFree, Parsed;
    forall k ensures CommaFree(view(k)) {
      StoredTree.FieldsAreCommaFree(was, h(k));
    }
  }

  /** A block of contract calls, run on the committed state and committed to it: if no cart takes a
      comma over, every key with a distinct digest reads exactly what making the calls one after
      the other leaves there, and its old value if they leave nothing. */
  lemma {:induction false} CleanBlockReadsBack(h: StoredTree.Digest, was: StoredTree.Bytes, now: StoredTree.Bytes, view: View,
                                               calls: seq<Contract>, key: string)
    requires forall k :: view(k) == StoredTree.Lookup(h, was, k)
    requires forall t :: 0 <= t < |calls| ==> CleanCall(calls[t])
    requires var m := InOrder(view, calls, map[]);
             SerialScheduler.Committed(h, was, now, m) && SerialScheduler.DistinctDigests(h, m.Keys + {key})
    ensures StoredTree.Lookup(h, now, key) == Contents(view, InOrder(view, calls, map[]), key)
  {
    hide SerialScheduler.Committed, StoredTree.Lookup, CleanCall, InOrder, SerialScheduler.DistinctDigests;
    StateViewIsClean(h, was, view);
    BlockKeepsClean(view, calls, map[]);
    SerialScheduler.CommittedExactly(h, was, now, InOrder(view, calls, map[]), key);
  }

  /** From the payloads to the committed state, for any number of threads, any interleaving of the
      workers and any interleaving of the commit: after a block of contract calls that succeeds and
      takes no comma over, every key with a distinct digest reads what making the calls one after
      the other on the old state leaves. */
  lemma {:induction false} ContractBlockReadsBack(h: StoredTree.Digest, len: nat, was: StoredTree.Bytes, view: View,
                                                  b: Txns, calls: seq<Contract>, threads: nat, schedule: seq<nat>,
                                                  es: ParallelFlush.Entries, flushing: seq<nat>, key: string)
    requires Records.GoodDigest(h, len) && forall k :: view(k) == StoredTree.Lookup(h, was, k)
    requires AllCarry(view, b, calls) && threads >= 1 && forall t :: 0 <= t < |calls| ==> CleanCall(calls[t])
    requires WorkerMachine.AllExited(WorkerMachine.After(WorkerMachine.WholeBlock(b, map[]), threads, schedule))
    requires var s := WorkerMachine.After(WorkerMachine.WholeBlock(b, map[]), threads, schedule);
             s.flag && SerialScheduler.EntriesOf(s.core.store, es)
    requires forall i :: 0 <= i < |es| ==> es[i].0 != ""
    requires ParallelFlush.AllDone(es, ParallelFlush.Flushed(h, was, es, threads, flushing))
    requires SerialScheduler.DistinctDigests(h, InOrder(view, calls, map[]).Keys + {key})
    ensures AllSucceed(view, calls, map[])
    ensures var now := ParallelFlush.RehashAll(h, ParallelFlush.Flushed(h, was, es, threads, flushing).db, ParallelFlush.KeysOf(es));
            StoredTree.Lookup(h, now, key) == Contents(view, InOrder(view, calls, map[]), key)
  {
    hide Records.GoodDigest, StoredTree.Lookup, AllCarry, CleanCall, WorkerMachine.AllExited, WorkerMachine.After, ParallelFlush.AllDone,
      ParallelFlush.Flushed, ParallelFlush.RehashAll, SerialScheduler.Committed, InOrder, AllSucceed, Contents, SerialScheduler.DistinctDigests;
    var s := WorkerMachine.After(WorkerMachine.WholeBlock(b, map[]), threads, schedule);
    ContractRunIsSerial(view, b, calls, map[], threads, schedule);
    ParallelFlush.ParallelFlushCommits(h, len, was, s.core.store, es, ParallelFlush.KeysOf(es), threads, flushing);
    var now := ParallelFlush.RehashAll(h, ParallelFlush.Flushed(h, was, es, threads, flushing).db, ParallelFlush.KeysOf(es));
    CleanBlockReadsBack(h, was, now, view, calls, key);
  }

  lemma {:induction false} FirstAdd(item: string, quantity: string)
    ensures Added("", item, quantity) == Some(Entry(item, quantity))
  {
    hide Entry, AddEdit;
    EmptyStream();
    assert "" + Entry(item, quantity) == Entry(item, quantity);
  }

  lemma {:induction false} CutAtComma(before: string, after: string)
    requires CommaFree(before)
    ensures UpToComma(before + "," + after) == before
  {
    FirstCommaAfter(before, after);
  }

  /** A cart that takes a comma over: the item is a word, the call succeeds, and the committed cart
      reads back as the part of the item name before the comma. */
  lemma {:induction false} CommaInItemIsLost(h: StoredTree.Digest, db: StoredTree.Bytes)
    requires StoredTree.CleanDigest(h)
    ensures IsName("a,b")
    ensures var r := ECommerce.Effect((k: string) => "", ECommerce.AddToCart("cart", "a,b", "3"), map[]);
            && r.ok && r.store == map["cart" := "a,b 3 "]
            && StoredTree.Lookup(h, StoredTree.LazyInsert(h, db, "cart", "a,b 3 "), "cart") == "a"
  {
    hide Added, Parsed, Serialized, UpToComma, StoredTree.LazyInsert, StoredTree.EagerInsert, StoredTree.Lookup;
    FirstAdd("a,b", "3");
    assert Entry("a,b", "3") == "a,b 3 ";
    StoredTree.InsertThenLookup(h, db, "cart", "a,b 3 ", "cart");
    assert "a,b 3 " == "a" + "," + "b 3 ";
    CutAtComma("a", "b 3 ");
  }
}
