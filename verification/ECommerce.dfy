/** The shop contract: carts and stock in the shared map. */
module ECommerce {
  import opened Wrappers
  import opened SharedMap
  import opened Decimal
  import opened Program
  import opened Ledger
  import opened Cart

  datatype Op =
    | Checkout(cart: string)
    | AddToCart(cart: string, item: string, quantity: string)
    | RemoveFromCart(cart: string, item: string, quantity: string)
    | RefillItem(stock: string, quantity: string)
    | Rejected

  function Parse(p: Payload): Op {
    var verb, name, item, value := Field(p, "Verb"), Field(p, "Name"), Field(p, "Item"), Field(p, "Value");
    if verb == Some("checkout") && Field(p, "Name1").Some? then Checkout(Field(p, "Name1").value)
    else if verb == Some("addToCart") && name.Some? && item.Some? && value.Some? then
      AddToCart(name.value, item.value, value.value)
    else if verb == Some("removeFromCart") && name.Some? && item.Some? && value.Some? then
      RemoveFromCart(name.value, item.value, value.value)
    else if verb == Some("refillItem") && name.Some? && value.Some? then RefillItem(name.value, value.value)
    else Rejected
  }

  function Address(op: Op): set<string> {
    match op
    case Checkout(cart) => {cart}
    case AddToCart(cart, _, _) => {cart}
    case RemoveFromCart(cart, _, _) => {cart}
    case RefillItem(stock, _) => {stock}
    case Rejected => {}
  }

  /** What a verb makes of the contents it finds: the verdict, and new contents if it writes. */
  datatype Change = Change(ok: bool, contents: Option<string>)

  function Refilled(contents: string, quantity: string): Option<string> {
    var have, more := Stoi(if contents == "" then "0" else contents), Stoi(quantity);
    if have.None? || more.None? then None else Some(ToString(have.value + more.value))
  }

  function UpdateOf(op: Op, contents: string): Change {
    match op
    case Checkout(_) => Change(true, if contents == "" then None else Some(""))
    case AddToCart(_, item, quantity) =>
      Change(Added(contents, item, quantity).Some?, Added(contents, item, quantity))
    case RemoveFromCart(_, item, quantity) =>
      Change(Removed(contents, item, quantity).Some?, Removed(contents, item, quantity))
    case RefillItem(_, quantity) => Change(Refilled(contents, quantity).Some?, Refilled(contents, quantity))
    case Rejected => Change(false, None)
  }

  /* ----- the verbs, access by access ----- */

  function WriteBack(address: string, u: Change): Prog {
    if u.contents.None? then Done(u.ok)
    else Step(Write(address, u.contents.value), (_: Option<string>) => Done(u.ok))
  }

  function Finish(op: Op, address: string): string -> Prog {
    (contents: string) => WriteBack(address, UpdateOf(op, contents))
  }

  function GetOrLoadValue(view: View, name: string, use: string -> Prog): Prog {
    Step(Find(name), (seen: Option<string>) =>
      if seen.Some? then use(seen.value)
      else Step(Write(name, view(name)), (_: Option<string>) => use(view(name))))
  }

  function Process(view: View, op: Op): Prog {
    if op.Rejected? then Done(false)
    else
      var address := if op.RefillItem? then op.stock else op.cart;
      GetOrLoadValue(view, address, Finish(op, address))
  }

  function Effect(view: View, op: Op, m: Store): Outcome {
    if op.Rejected? then Outcome(false, m)
    else
      var address := if op.RefillItem? then op.stock else op.cart;
      var contents := Contents(view, m, address);
      var u := UpdateOf(op, contents);
      Outcome(u.ok, m[address := if u.contents.Some? then u.contents.value else contents])
  }

  lemma {:induction false} FinishIsConfined(op: Op, address: string)
    ensures forall contents :: Confined(Finish(op, address)(contents), {address}, 1)
  {
    hide UpdateOf;
    forall contents ensures Confined(Finish(op, address)(contents), {address}, 1) {
      var p := Finish(op, address)(contents);
      assert p.Step? ==> forall x :: p.next(x).Done?;
    }
  }

  lemma {:induction false} VerbsAreConfined(view: View, op: Op)
    ensures Confined(Process(view, op), Address(op), 3)
  {
    hide Finish;
    if !op.Rejected? {
      var address := if op.RefillItem? then op.stock else op.cart;
      FinishIsConfined(op, address);
      var p := Process(view, op);
      forall seen: Option<string> ensures Confined(p.next(seen), {address}, 2) {
        if seen.Some? {
          ConfinedMore(Finish(op, address)(seen.value), {address}, 1, 2);
        } else {
          assert forall x :: p.next(seen).next(x) == Finish(op, address)(view(address));
        }
      }
    }
  }

  /** A transaction whose header declares its address as an output is a well-declared payload. */
  lemma {:induction false} ShopPayload(view: View, op: Op, outputs: set<string>)
    requires Address(op) <= outputs
    ensures Bounded(CodeOf(Process(view, op))) && Within(CodeOf(Process(view, op)), outputs, outputs)
    ensures forall m :: Exec(CodeOf(Process(view, op)), [], m) == Result(Process(view, op), m)
  {
    VerbsAreConfined(view, op);
    ConfinedMoreKeys(Process(view, op), Address(op), outputs, 3);
    ConfinedCode(Process(view, op), outputs, 3);
    forall m ensures Exec(CodeOf(Process(view, op)), [], m) == Result(Process(view, op), m) {
      ExecIsRun(Process(view, op), Address(op), 3, m);
    }
  }

  /** The accesses of a verb, made without interruption, come to its effect. */
  lemma {:induction false} VerbHasEffect(view: View, op: Op, m: Store)
    ensures Result(Process(view, op), m) == Effect(view, op, m)
  {
    hide UpdateOf, Run;
    if op.Rejected? {
      DoneAtOnce(m);
    } else {
      var address := if op.RefillItem? then op.stock else op.cart;
      var keys := {address};
      var p := Process(view, op);
      var seen := Look(m, address);
      VerbsAreConfined(view, op);
      ResultStep(p, keys, 3, m);
      assert Confined(p.next(seen), keys, 2);
      FinishIsConfined(op, address);
      FinishRuns(op, address, Contents(view, m, address), m[address := Contents(view, m, address)]);
      if address in m {
        assert m[address := m[address]] == m;
        assert p.next(seen) == Finish(op, address)(m[address]);
      } else {
        ResultStep(p.next(seen), keys, 2, m);
        assert p.next(seen).next(Look(m, address)) == Finish(op, address)(view(address));
      }
    }
  }

  lemma {:induction false} DoneAtOnce(m: Store)
    ensures Result(Done(false), m) == Outcome(false, m)
  {
  }

  lemma {:induction false} FinishRuns(op: Op, address: string, contents: string, m: Store)
    ensures Result(Finish(op, address)(contents), m)
            == (var u := UpdateOf(op, contents);
                Outcome(u.ok, if u.contents.Some? then m[address := u.contents.value] else m))
  {
    hide UpdateOf;
    FinishIsConfined(op, address);
    var p := Finish(op, address)(contents);
    if p.Step? {
      ResultStep(p, {address}, 1, m);
      assert p.next(Look(m, address)) == Done(UpdateOf(op, contents).ok);
      DoneRuns(UpdateOf(op, contents).ok, Apply(p.action, m));
    }
  }

  lemma {:induction false} DoneRuns(ok: bool, m: Store)
    ensures Result(Done(ok), m) == Outcome(ok, m)
  {
  }

  /* ----- what the verbs mean for a cart ----- */

  /** The cart at an address shows these lines. */
  ghost predicate Shows(view: View, m: Store, address: string, cart: Lines) {
    GoodCart(cart) && Contents(view, m, address) == Print(cart)
  }

  lemma {:induction false} WrittenShows(view: View, m: Store, address: string, cart: Lines)
    requires GoodCart(cart)
    ensures Shows(view, m[address := Print(cart)], address, cart)
  {
  }

  /** Adding to the cart at an address adds to the lines it shows. */
  lemma {:induction false} AddVerb(view: View, m: Store, address: string, cart: Lines, item: string, quantity: int)
    requires Shows(view, m, address, cart) && IsName(item)
    ensures var r := Effect(view, AddToCart(address, item, ToString(quantity)), m);
            r.ok && Shows(view, r.store, address, AddLine(cart, item, quantity))
  {
    hide Added, Print, GoodCart, AddLine, ToString;
    AddRefinesList(cart, item, quantity);
    CartStaysGood(cart, item, quantity);
    WrittenShows(view, m, address, AddLine(cart, item, quantity));
  }

  /** Removing fails exactly when no line has the item, and then the cart shows what it did;
      otherwise the lines are those the removal leaves. */
  lemma {:induction false} RemoveVerb(view: View, m: Store, address: string, cart: Lines, item: string, quantity: int)
    requires Shows(view, m, address, cart) && IsName(item)
    ensures var r := Effect(view, RemoveFromCart(address, item, ToString(quantity)), m);
            && (r.ok <==> QuantityOf(cart, item).Some?)
            && match RemoveLine(cart, item, quantity)
               case None => !r.ok && Shows(view, r.store, address, cart)
               case Some(rest) => r.ok && Shows(view, r.store, address, rest)
  {
    hide Removed, Print, GoodCart, RemoveLine, ToString, QuantityOf;
    RemoveRefinesList(cart, item, quantity);
    CartStaysGood(cart, item, quantity);
    CartQuantities(cart, item, quantity, item);
    if RemoveLine(cart, item, quantity).Some? {
      WrittenShows(view, m, address, RemoveLine(cart, item, quantity).value);
    }
  }

  /** Checking out leaves an empty cart. */
  lemma {:induction false} CheckoutVerb(view: View, m: Store, address: string)
    ensures var r := Effect(view, Checkout(address), m);
            r.ok && Shows(view, r.store, address, [])
  {
    EmptyCart();
  }

  lemma {:induction false} EmptyCart()
    ensures GoodCart([]) && Print([]) == ""
  {
  }

  /** Refilling adds to the stock, and fails only on text without a number. */
  lemma {:induction false} RefillAdds(view: View, m: Store, stock: string, quantity: string)
    ensures var r := Effect(view, RefillItem(stock, quantity), m);
            var have := Stoi(if Contents(view, m, stock) == "" then "0" else Contents(view, m, stock));
            && (r.ok <==> have.Some? && Stoi(quantity).Some?)
            && (r.ok ==> Stoi(Contents(view, r.store, stock)) == Some(have.value + Stoi(quantity).value))
            && (!r.ok ==> Contents(view, r.store, stock) == Contents(view, m, stock))
  {
    hide Stoi, ToString;
    var have := Stoi(if Contents(view, m, stock) == "" then "0" else Contents(view, m, stock));
    if have.Some? && Stoi(quantity).Some? {
      PrintedIsParsed(have.value + Stoi(quantity).value);
    }
  }

  /* ----- what a payload does ----- */

  function Outcomes(view: View, p: Payload, m: Store): Outcome {
    Result(Process(view, Parse(p)), m)
  }

  /** The text at an address is a printed cart: the one in the map, or else that in the state. */
  ghost predicate PrintedAt(view: View, m: Store, address: string, cart: Lines) {
    && GoodCart(cart)
    && (address in m ==> m[address] == Print(cart))
    && (address !in m ==> view(address) == Print(cart))
  }

  /** Adding writes the cart under Name with the Item put last, its Value as it stands; or, when
      line k has the item, with that line raised, which throws when the Value is no number. */
  lemma {:induction false} AddPayload(view: View, f: map<string, string>, m: Store, cart: Lines)
    requires Asks(Some(f), "addToCart", {"Name", "Item", "Value"}) && PrintedAt(view, m, f["Name"], cart)
    ensures var r, name, item, value := Outcomes(view, Some(f), m), f["Name"], f["Item"], f["Value"];
            && ((forall i :: 0 <= i < |cart| ==> cart[i].name != item) ==>
                  r == Outcome(true, m[name := Print(cart) + item + " " + value + " "]))
            && (forall k :: 0 <= k < |cart| && cart[k].name == item ==>
                  r == if Stoi(value) == None then Outcome(false, m[name := Print(cart)])
                       else Outcome(true, m[name := Print(cart[k := Line(item, cart[k].quantity + Stoi(value).value)])]))
  {
    hide Process, Run, Added, Print, GoodCart, Stoi;
    VerbHasEffect(view, Parse(Some(f)), m);
    if forall i :: 0 <= i < |cart| ==> cart[i].name != f["Item"] {
      AbsentItem(cart, f["Item"], f["Value"]);
    }
    forall k | 0 <= k < |cart| && cart[k].name == f["Item"]
      ensures Outcomes(view, Some(f), m)
              == if Stoi(f["Value"]) == None then Outcome(false, m[f["Name"] := Print(cart)])
                 else Outcome(true, m[f["Name"] := Print(cart[k := Line(f["Item"], cart[k].quantity + Stoi(f["Value"]).value)])])
    {
      PresentItem(cart, f["Item"], f["Value"], k);
    }
  }

  /** Removing fails without a line of the Item or a number in Value, and then the cart under Name
      is as it was; otherwise line k is lowered, or taken out when nothing is left. */
  lemma {:induction false} RemovePayload(view: View, f: map<string, string>, m: Store, cart: Lines)
    requires Asks(Some(f), "removeFromCart", {"Name", "Item", "Value"}) && PrintedAt(view, m, f["Name"], cart)
    ensures var r, name, item, value := Outcomes(view, Some(f), m), f["Name"], f["Item"], f["Value"];
            && ((forall i :: 0 <= i < |cart| ==> cart[i].name != item) ==> r == Outcome(false, m[name := Print(cart)]))
            && (forall k :: 0 <= k < |cart| && cart[k].name == item ==>
                  r == if Stoi(value) == None then Outcome(false, m[name := Print(cart)])
                       else
                         var left := cart[k].quantity - Stoi(value).value;
                         Outcome(true, m[name := Print(if left > 0 then cart[k := Line(item, left)]
                                                       else cart[..k] + cart[k + 1..])]))
  {
    hide Process, Run, Removed, Print, GoodCart, Stoi;
    VerbHasEffect(view, Parse(Some(f)), m);
    if forall i :: 0 <= i < |cart| ==> cart[i].name != f["Item"] {
      AbsentItem(cart, f["Item"], f["Value"]);
    }
    forall k | 0 <= k < |cart| && cart[k].name == f["Item"]
      ensures Outcomes(view, Some(f), m)
              == if Stoi(f["Value"]) == None then Outcome(false, m[f["Name"] := Print(cart)])
                 else Outcome(true, m[f["Name"] := Print(Lowered(cart, k, Stoi(f["Value"]).value))])
    {
      PresentItem(cart, f["Item"], f["Value"], k);
    }
  }

  /** Checking out empties the entry under Name1. */
  lemma {:induction false} CheckoutPayload(view: View, f: map<string, string>, m: Store)
    requires Asks(Some(f), "checkout", {"Name1"})
    ensures Outcomes(view, Some(f), m) == Outcome(true, m[f["Name1"] := ""])
  {
    hide Process, Run;
    VerbHasEffect(view, Parse(Some(f)), m);
  }

  /** Refilling adds Value to the number under Name, 0 if there is nothing; it fails without a
      number on either side, and the entry is then what it was. */
  lemma {:induction false} RefillPayload(view: View, f: map<string, string>, m: Store)
    requires Asks(Some(f), "refillItem", {"Name", "Value"})
    ensures var r, name, more := Outcomes(view, Some(f), m), f["Name"], Stoi(f["Value"]);
            var text := if name in m then m[name] else view(name);
            var have := if text == "" then Some(0) else Stoi(text);
            r == if have == None || more == None then Outcome(false, m[name := text])
                 else Outcome(true, m[name := ToString(have.value + more.value)])
  {
    hide Process, Run, Stoi, ToString;
    VerbHasEffect(view, Parse(Some(f)), m);
    PrintedIsParsed(0);
    ZeroIsPrinted();
  }

  lemma {:induction false} ZeroIsPrinted()
    ensures ToString(0) == "0"
  {
  }

  /** Any other payload fails and leaves the map untouched. */
  lemma {:induction false} OtherPayload(view: View, p: Payload, m: Store)
    requires !Asks(p, "checkout", {"Name1"}) && !Asks(p, "addToCart", {"Name", "Item", "Value"})
             && !Asks(p, "removeFromCart", {"Name", "Item", "Value"}) && !Asks(p, "refillItem", {"Name", "Value"})
    ensures Outcomes(view, p, m) == Outcome(false, m)
  {
    hide Parse, UpdateOf, Run;
    OtherIsRejected(p);
    DoneAtOnce(m);
  }

  lemma {:induction false} OtherIsRejected(p: Payload)
    requires !Asks(p, "checkout", {"Name1"}) && !Asks(p, "addToCart", {"Name", "Item", "Value"})
             && !Asks(p, "removeFromCart", {"Name", "Item", "Value"}) && !Asks(p, "refillItem", {"Name", "Value"})
    ensures Parse(p) == Rejected
  {
    var verb := Field(p, "Verb");
    if verb == Some("checkout") {
      assert "Name1" !in p.value;
    } else if verb == Some("addToCart") || verb == Some("removeFromCart") {
      assert !({"Name", "Item", "Value"} <= p.value.Keys);
      assert "Name" !in p.value || "Item" !in p.value || "Value" !in p.value;
    } else if verb == Some("refillItem") {
      assert !({"Name", "Value"} <= p.value.Keys);
      assert "Name" !in p.value || "Value" !in p.value;
    }
  }

  /* ----- the processor, rewriting the map in place ----- */

  class ECommProcessor {
    const view: View
    var myMap: Store

    constructor (state: View, shared: Store)
      ensures view == state && myMap == shared
    {
      view, myMap := state, shared;
    }

    method GetOrLoad(name: string) returns (contents: string)
      modifies this`myMap
      ensures contents == Contents(view, old(myMap), name) && myMap == old(myMap)[name := contents]
    {
      if name in myMap {
        contents := myMap[name];
        assert myMap == myMap[name := contents];
      } else {
        contents := view(name);
        myMap := myMap[name := contents];
      }
    }

    method DoCheckout(cart: string) returns (ok: bool)
      modifies this`myMap
      ensures Outcome(ok, myMap) == Effect(view, Checkout(cart), old(myMap))
    {
      var cartContents := GetOrLoad(cart);
      if cartContents == "" {
        return true;
      }
      myMap := myMap[cart := ""];
      return true;
    }

    method DoAddToCart(cart: string, item: string, quantity: string) returns (ok: bool)
      modifies this`myMap
      ensures Outcome(ok, myMap) == Effect(view, AddToCart(cart, item, quantity), old(myMap))
    {
      hide Added;
      var cartContents := GetOrLoad(cart);
      var updatedCart := AddToText(cartContents, item, quantity);
      if updatedCart.None? {
        return false;
      }
      myMap := myMap[cart := updatedCart.value];
      return true;
    }

    method DoRemoveFromCart(cart: string, item: string, quantity: string) returns (ok: bool)
      modifies this`myMap
      ensures Outcome(ok, myMap) == Effect(view, RemoveFromCart(cart, item, quantity), old(myMap))
    {
      hide Removed;
      var cartContents := GetOrLoad(cart);
      var updatedCart := RemoveFromText(cartContents, item, quantity);
      if updatedCart.None? {
        return false;
      }
      myMap := myMap[cart := updatedCart.value];
      return true;
    }

    method DoRefillItem(stock: string, quantity: string) returns (ok: bool)
      modifies this`myMap
      ensures Outcome(ok, myMap) == Effect(view, RefillItem(stock, quantity), old(myMap))
    {
      var existingQuantity := GetOrLoad(stock);
      if existingQuantity == "" {
        existingQuantity := "0";
      }
      var have, more := Stoi(existingQuantity), Stoi(quantity);
      if have.None? || more.None? {
        return false;
      }
      myMap := myMap[stock := ToString(have.value + more.value)];
      return true;
    }

    method ProcessTxn(payload: Payload) returns (ok: bool)
      modifies this`myMap
      ensures Outcome(ok, myMap) == Outcomes(view, payload, old(myMap))
    {
      hide UpdateOf, Process, Parse, Result;
      VerbHasEffect(view, Parse(payload), myMap);
      match Parse(payload)
      case Checkout(cart) => ok := DoCheckout(cart);
      case AddToCart(cart, item, quantity) => ok := DoAddToCart(cart, item, quantity);
      case RemoveFromCart(cart, item, quantity) => ok := DoRemoveFromCart(cart, item, quantity);
      case RefillItem(stock, quantity) => ok := DoRefillItem(stock, quantity);
      case Rejected => ok := false;
    }
  }
}
