/** A cart is kept as one string of tokens, "name quantity name quantity ...".  Adding and
    removing rewrite that string token by token; on a printed list of lines they do what the
    same operations do on the list. */
module Cart {
  import opened Wrappers
  import opened Decimal

  /* ----- the token string ----- */

  function WordLength(s: string): (n: nat)
    ensures n <= |s| && (s != "" && !IsSpace(s[0]) ==> n > 0)
  {
    if s == "" || IsSpace(s[0]) then 0 else 1 + WordLength(s[1..])
  }

  /** The words that reading from a string stream delivers, one after the other. */
  function Tokens(s: string): seq<string>
    decreases |s|
  {
    var t := SkipSpace(s);
    if t == "" then [] else [t[..WordLength(t)]] + Tokens(t[WordLength(t)..])
  }

  function Entry(name: string, quantity: string): string {
    name + " " + quantity + " "
  }

  /** A rewritten string and whether the item was in it; or an exception from std::stoi. */
  datatype Rewritten = Threw | Text(text: string, found: bool)

  /** How the quantity of the item itself is rewritten; None when it is not a number. */
  type Edit = string -> Option<string>

  function AddEdit(item: string, quantity: string): Edit {
    (have: string) =>
      if Stoi(have).None? || Stoi(quantity).None? then None
      else Some(Entry(item, ToString(Stoi(have).value + Stoi(quantity).value)))
  }

  function RemoveEdit(item: string, quantity: string): Edit {
    (have: string) =>
      if Stoi(have).None? || Stoi(quantity).None? then None
      else
        var newQuantity := Stoi(have).value - Stoi(quantity).value;
        Some(if newQuantity > 0 then Entry(item, ToString(newQuantity)) else "")
  }

  /** Every pair of tokens is copied, except that those of the item are edited; a last token
      without a quantity is dropped. */
  function Rewrite(ts: seq<string>, item: string, edit: Edit): Rewritten {
    if |ts| < 2 then Text("", false)
    else
      var piece := if ts[0] == item then edit(ts[1]) else Some(Entry(ts[0], ts[1]));
      var rest := Rewrite(ts[2..], item, edit);
      if piece.None? || rest.Threw? then Threw
      else Text(piece.value + rest.text, ts[0] == item || rest.found)
  }

  /** The new contents after adding; None when the call throws. */
  function Added(contents: string, item: string, quantity: string): Option<string> {
    match Rewrite(Tokens(contents), item, AddEdit(item, quantity))
    case Threw => None
    case Text(text, found) => Some(if found then text else text + Entry(item, quantity))
  }

  /** The new contents after removing; None when the call throws or the item is not there. */
  function Removed(contents: string, item: string, quantity: string): Option<string> {
    match Rewrite(Tokens(contents), item, RemoveEdit(item, quantity))
    case Threw => None
    case Text(text, found) => if found then Some(text) else None
  }

  /* ----- the loops ----- */

  function Joined(updated: string, found: bool, r: Rewritten): Rewritten {
    if r.Threw? then Threw else Text(updated + r.text, found || r.found)
  }

  /** stream >> token */
  method ReadToken(stream: string) returns (ok: bool, token: string, rest: string)
    ensures ok <==> Tokens(stream) != []
    ensures ok ==> Tokens(stream) == [token] + Tokens(rest) && |rest| < |stream|
    ensures !ok ==> rest == ""
  {
    var t := SkipSpace(stream);
    if t == "" {
      return false, "", "";
    }
    return true, t[..WordLength(t)], t[WordLength(t)..];
  }

  /** The new text of one pair of tokens. */
  function Piece(token: string, quantity: string, item: string, edit: Edit): Option<string> {
    if token == item then edit(quantity) else Some(Entry(token, quantity))
  }

  lemma {:induction false} RewriteNextPair(updated: string, found: bool, token: string, quantity: string,
                                           rest: seq<string>, item: string, edit: Edit)
    ensures Joined(updated, found, Rewrite([token, quantity] + rest, item, edit))
            == (var piece := Piece(token, quantity, item, edit);
                if piece.None? then Threw
                else Joined(updated + piece.value, found || token == item, Rewrite(rest, item, edit)))
  {
    hide Entry;
    var ts := [token, quantity] + rest;
    assert ts[2..] == rest;
    var piece, r := Piece(token, quantity, item, edit), Rewrite(rest, item, edit);
    if piece.Some? && r.Text? {
      assert updated + (piece.value + r.text) == (updated + piece.value) + r.text;
    }
  }

  lemma {:induction false} RewriteEnd(updated: string, found: bool, ts: seq<string>, item: string, edit: Edit)
    requires |ts| < 2
    ensures Joined(updated, found, Rewrite(ts, item, edit)) == Text(updated, found)
  {
    assert updated + "" == updated;
  }

  lemma {:induction false} RewriteBegin(r: Rewritten)
    ensures Joined("", false, r) == r
  {
    if r.Text? {
      assert "" + r.text == r.text;
    }
  }

  /** The loop that addToCart and removeFromCart share. */
  method RewriteText(contents: string, item: string, edit: Edit) returns (r: Rewritten)
    ensures r == Rewrite(Tokens(contents), item, edit)
  {
    hide Rewrite, Joined, Tokens, Entry;
    var updatedCart, found := "", false;
    var ok, token, stream := ReadToken(contents);
    ghost var ahead := Tokens(contents);
    RewriteBegin(Rewrite(ahead, item, edit));
    while ok
      invariant ahead == if ok then [token] + Tokens(stream) else ahead
      invariant !ok ==> |ahead| < 2
      invariant Joined(updatedCart, found, Rewrite(ahead, item, edit)) == Rewrite(Tokens(contents), item, edit)
      decreases ok, |stream|
    {
      var hasQuantity, itemQuantity, rest := ReadToken(stream);
      if hasQuantity {
        RewriteNextPair(updatedCart, found, token, itemQuantity, Tokens(rest), item, edit);
        assert ahead == [token, itemQuantity] + Tokens(rest);
        if token == item {
          found := true;
          var piece := edit(itemQuantity);
          if piece.None? {
            return Threw;
          }
          updatedCart := updatedCart + piece.value;
        } else {
          updatedCart := updatedCart + Entry(token, itemQuantity);
        }
        ahead := Tokens(rest);
        ok, token, stream := ReadToken(rest);
      } else {
        EmptyStream();
        ok, token, stream := ReadToken(rest);
      }
    }
    RewriteEnd(updatedCart, found, ahead, item, edit);
    r := Text(updatedCart, found);
  }

  lemma {:induction false} EmptyStream()
    ensures Tokens("") == []
  {
  }

  method AddToText(contents: string, item: string, quantity: string) returns (r: Option<string>)
    ensures r == Added(contents, item, quantity)
  {
    var updated := RewriteText(contents, item, AddEdit(item, quantity));
    match updated
    case Threw => r := None;
    case Text(text, found) =>
      if !found {
        r := Some(text + Entry(item, quantity));
      } else {
        r := Some(text);
      }
  }

  method RemoveFromText(contents: string, item: string, quantity: string) returns (r: Option<string>)
    ensures r == Removed(contents, item, quantity)
  {
    var updated := RewriteText(contents, item, RemoveEdit(item, quantity));
    match updated
    case Threw => r := None;
    case Text(text, found) =>
      if !found {
        r := None;
      } else {
        r := Some(text);
      }
  }

  /* ----- lists of lines ----- */

  datatype Line = Line(name: string, quantity: int)

  type Lines = seq<Line>

  function Print(cart: Lines): string {
    if cart == [] then ""
    else Entry(cart[0].name, ToString(cart[0].quantity)) + Print(cart[1..])
  }

  predicate IsName(s: string) {
    s != "" && forall i :: 0 <= i < |s| ==> !IsSpace(s[i])
  }

  predicate Has(cart: Lines, item: string) {
    cart != [] && (cart[0].name == item || Has(cart[1..], item))
  }

  /** Names are words, and no name occurs twice. */
  predicate GoodCart(cart: Lines) {
    cart == [] || (IsName(cart[0].name) && !Has(cart[1..], cart[0].name) && GoodCart(cart[1..]))
  }

  /** Changes the quantity of an item; with `drop` its line goes when nothing is left. */
  function Adjust(cart: Lines, item: string, change: int, drop: bool): Lines {
    if cart == [] then []
    else if cart[0].name != item then [cart[0]] + Adjust(cart[1..], item, change, drop)
    else if drop && cart[0].quantity + change <= 0 then Adjust(cart[1..], item, change, drop)
    else [Line(item, cart[0].quantity + change)] + Adjust(cart[1..], item, change, drop)
  }

  function AddLine(cart: Lines, item: string, quantity: int): Lines {
    if Has(cart, item) then Adjust(cart, item, quantity, false) else cart + [Line(item, quantity)]
  }

  function RemoveLine(cart: Lines, item: string, quantity: int): Option<Lines> {
    if Has(cart, item) then Some(Adjust(cart, item, -quantity, true)) else None
  }

  function QuantityOf(cart: Lines, item: string): Option<int> {
    if cart == [] then None
    else if cart[0].name == item then Some(cart[0].quantity)
    else QuantityOf(cart[1..], item)
  }

  /* ----- reading back what was printed ----- */

  lemma {:induction false} WordBeforeSpace(word: string, rest: string)
    requires IsName(word)
    ensures WordLength(word + " " + rest) == |word|
  {
    var s := word + " " + rest;
    if |word| > 1 {
      WordBeforeSpace(word[1..], rest);
      assert s[1..] == word[1..] + " " + rest;
    } else {
      assert s[1..] == " " + rest;
    }
  }

  lemma {:induction false} TokenThenRest(word: string, rest: string)
    requires IsName(word)
    ensures Tokens(word + " " + rest) == [word] + Tokens(rest)
  {
    var s := word + " " + rest;
    WordBeforeSpace(word, rest);
    assert SkipSpace(s) == s;
    assert s[..|word|] == word && s[|word|..] == " " + rest;
    assert (" " + rest)[1..] == rest;
    assert SkipSpace(" " + rest) == SkipSpace(rest);
  }

  function Flat(cart: Lines): seq<string> {
    if cart == [] then [] else [cart[0].name, ToString(cart[0].quantity)] + Flat(cart[1..])
  }

  lemma {:induction false} PrintedTokens(cart: Lines)
    requires GoodCart(cart)
    ensures Tokens(Print(cart)) == Flat(cart)
  {
    hide ToString, Tokens, IsSpace;
    EmptyStream();
    if cart != [] {
      var name, quantity, rest := cart[0].name, ToString(cart[0].quantity), Print(cart[1..]);
      PrintedHasNoSpace(cart[0].quantity);
      PrintedTokens(cart[1..]);
      assert Print(cart) == name + " " + (quantity + " " + rest);
      TokenThenRest(name, quantity + " " + rest);
      TokenThenRest(quantity, rest);
    }
  }

  lemma {:induction false} Associative(a: string, b: string, c: string)
    ensures a + (b + c) == (a + b) + c
  {
  }

  lemma {:induction false} PrintConcat(a: Lines, b: Lines)
    ensures Print(a + b) == Print(a) + Print(b)
  {
    hide Entry, ToString;
    if a == [] {
      assert a + b == b;
    } else {
      PrintConcat(a[1..], b);
      assert (a + b)[1..] == a[1..] + b;
      Associative(Entry(a[0].name, ToString(a[0].quantity)), Print(a[1..]), Print(b));
    }
  }

  /* ----- refinement ----- */

  lemma {:induction false} RewriteFlat(cart: Lines, item: string, edit: Edit)
    requires cart != []
    ensures Rewrite(Flat(cart), item, edit)
            == (var piece := Piece(cart[0].name, ToString(cart[0].quantity), item, edit);
                var rest := Rewrite(Flat(cart[1..]), item, edit);
                if piece.None? || rest.Threw? then Threw
                else Text(piece.value + rest.text, cart[0].name == item || rest.found))
  {
    hide Entry, ToString;
    assert Flat(cart)[2..] == Flat(cart[1..]);
  }

  lemma {:induction false} NothingToRewrite(item: string)
    ensures forall edit: Edit :: Rewrite(Flat([]), item, edit) == Text(Print([]), false)
  {
  }

  lemma {:induction false} AddRewrites(cart: Lines, item: string, text: string, quantity: int)
    requires Stoi(text) == Some(quantity)
    ensures Rewrite(Flat(cart), item, AddEdit(item, text))
            == Text(Print(Adjust(cart, item, quantity, false)), Has(cart, item))
  {
    hide Entry, ToString, Stoi, Rewrite, Flat, Print;
    NothingToRewrite(item);
    if cart != [] {
      AddRewrites(cart[1..], item, text, quantity);
      RewriteFlat(cart, item, AddEdit(item, text));
      PrintedIsParsed(cart[0].quantity);
      var rest := Adjust(cart[1..], item, quantity, false);
      PrintOne(cart[0], rest);
      PrintOne(Line(item, cart[0].quantity + quantity), rest);
    }
  }

  lemma {:induction false} RemoveRewrites(cart: Lines, item: string, text: string, quantity: int)
    requires Stoi(text) == Some(quantity)
    ensures Rewrite(Flat(cart), item, RemoveEdit(item, text))
            == Text(Print(Adjust(cart, item, -quantity, true)), Has(cart, item))
  {
    hide Entry, ToString, Stoi, Rewrite, Flat, Print;
    NothingToRewrite(item);
    if cart != [] {
      RemoveRewrites(cart[1..], item, text, quantity);
      RewriteFlat(cart, item, RemoveEdit(item, text));
      PrintedIsParsed(cart[0].quantity);
      var rest := Adjust(cart[1..], item, -quantity, true);
      PrintOne(cart[0], rest);
      PrintOne(Line(item, cart[0].quantity - quantity), rest);
      assert "" + Print(rest) == Print(rest);
    }
  }

  lemma {:induction false} PrintOne(line: Line, rest: Lines)
    ensures Print([line] + rest) == Entry(line.name, ToString(line.quantity)) + Print(rest)
  {
    assert ([line] + rest)[1..] == rest;
  }

  /** Adding to the printed cart prints the cart with the line added. */
  lemma {:induction false} AddRefinesList(cart: Lines, item: string, quantity: int)
    requires GoodCart(cart) && IsName(item)
    ensures Added(Print(cart), item, ToString(quantity)) == Some(Print(AddLine(cart, item, quantity)))
  {
    PrintedTokens(cart);
    PrintedIsParsed(quantity);
    AddRewrites(cart, item, ToString(quantity), quantity);
    if !Has(cart, item) {
      AdjustAbsent(cart, item, quantity, false);
      PrintConcat(cart, [Line(item, quantity)]);
      assert Print([Line(item, quantity)]) == Entry(item, ToString(quantity));
    }
  }

  /** Removing from the printed cart fails exactly when the list has no such line, and otherwise
      prints what removing from the list leaves. */
  lemma {:induction false} RemoveRefinesList(cart: Lines, item: string, quantity: int)
    requires GoodCart(cart) && IsName(item)
    ensures Removed(Print(cart), item, ToString(quantity))
            == (var r := RemoveLine(cart, item, quantity); if r.None? then None else Some(Print(r.value)))
  {
    PrintedTokens(cart);
    PrintedIsParsed(quantity);
    RemoveRewrites(cart, item, ToString(quantity), quantity);
  }

  /** A text without a number is copied past the other items, and throws at the item itself. */
  lemma {:induction false} BadTextRewrites(cart: Lines, item: string, text: string)
    requires Stoi(text) == None
    ensures Has(cart, item) ==> Rewrite(Flat(cart), item, AddEdit(item, text)).Threw?
                                && Rewrite(Flat(cart), item, RemoveEdit(item, text)).Threw?
    ensures !Has(cart, item) ==> Rewrite(Flat(cart), item, AddEdit(item, text)) == Text(Print(cart), false)
                                 && Rewrite(Flat(cart), item, RemoveEdit(item, text)) == Text(Print(cart), false)
  {
    hide Entry, ToString, Stoi, Rewrite, Flat, Print;
    NothingToRewrite(item);
    if cart != [] {
      BadTextRewrites(cart[1..], item, text);
      RewriteFlat(cart, item, AddEdit(item, text));
      RewriteFlat(cart, item, RemoveEdit(item, text));
      PrintOne(cart[0], cart[1..]);
      assert [cart[0]] + cart[1..] == cart;
    }
  }

  lemma {:induction false} AbsentRewrites(cart: Lines, item: string, text: string)
    requires !Has(cart, item)
    ensures Rewrite(Flat(cart), item, AddEdit(item, text)) == Text(Print(cart), false)
    ensures Rewrite(Flat(cart), item, RemoveEdit(item, text)) == Text(Print(cart), false)
  {
    hide Print, Rewrite, Tokens, Stoi, AddEdit, RemoveEdit, Adjust, Flat, Has;
    if Stoi(text).Some? {
      AddRewrites(cart, item, text, Stoi(text).value);
      RemoveRewrites(cart, item, text, Stoi(text).value);
      AdjustAbsent(cart, item, Stoi(text).value, false);
      AdjustAbsent(cart, item, -Stoi(text).value, true);
    } else {
      BadTextRewrites(cart, item, text);
    }
  }

  lemma {:induction false} LongEntry(before: string, name: string, quantity: string)
    ensures before + Entry(name, quantity) == before + name + " " + quantity + " "
  {
  }

  /** The quantity as the payload has it, any text at all, given to a cart without the item: it is
      written at the end as it stands, and removing fails. */
  lemma {:induction false} AbsentItem(cart: Lines, item: string, text: string)
    requires GoodCart(cart) && forall i :: 0 <= i < |cart| ==> cart[i].name != item
    ensures Added(Print(cart), item, text) == Some(Print(cart) + item + " " + text + " ")
    ensures Removed(Print(cart), item, text) == None
  {
    hide Print, Rewrite, Tokens, Stoi, AddEdit, RemoveEdit, Adjust, Flat, GoodCart, Has;
    PrintedTokens(cart);
    HasIff(cart, item);
    AbsentRewrites(cart, item, text);
    LongEntry(Print(cart), item, text);
  }

  /** Line k without what is taken from it; it goes when nothing is left. */
  ghost function Lowered(cart: Lines, k: nat, quantity: int): Lines
    requires k < |cart|
  {
    if cart[k].quantity > quantity then cart[k := Line(cart[k].name, cart[k].quantity - quantity)]
    else cart[..k] + cart[k + 1..]
  }

  /** The same for a cart whose line k has the item: the line is rewritten where it stands, or
      taken out, and the call throws exactly when the text has no number in it. */
  lemma {:induction false} PresentItem(cart: Lines, item: string, text: string, k: nat)
    requires GoodCart(cart) && k < |cart| && cart[k].name == item
    ensures Stoi(text) == None ==> Added(Print(cart), item, text) == None && Removed(Print(cart), item, text) == None
    ensures Stoi(text).Some? ==>
              var n := Stoi(text).value;
              && Added(Print(cart), item, text) == Some(Print(cart[k := Line(item, cart[k].quantity + n)]))
              && Removed(Print(cart), item, text) == Some(Print(Lowered(cart, k, n)))
  {
    hide Print, Rewrite, Tokens, Stoi, AddEdit, RemoveEdit, Entry, Adjust, Flat, GoodCart, Has;
    PrintedTokens(cart);
    HasIff(cart, item);
    if Stoi(text).Some? {
      AddRewrites(cart, item, text, Stoi(text).value);
      RemoveRewrites(cart, item, text, Stoi(text).value);
      AdjustPresent(cart, item, Stoi(text).value, false, k);
      LoweredIsAdjusted(cart, item, Stoi(text).value, k);
    } else {
      BadTextRewrites(cart, item, text);
    }
  }

  lemma {:induction false} HasIff(cart: Lines, item: string)
    ensures Has(cart, item) <==> exists i :: 0 <= i < |cart| && cart[i].name == item
  {
    if cart != [] {
      HasIff(cart[1..], item);
      if i :| 0 <= i < |cart[1..]| && cart[1..][i].name == item {
        assert cart[i + 1].name == item;
      }
      assert forall i :: 1 <= i < |cart| ==> cart[1..][i - 1] == cart[i];
    }
  }

  /** A good cart has words for names, each on one line only. */
  lemma {:induction false} GoodCartIff(cart: Lines)
    ensures GoodCart(cart) <==> (forall i :: 0 <= i < |cart| ==> IsName(cart[i].name))
                                && forall i, j :: 0 <= i < j < |cart| ==> cart[i].name != cart[j].name
  {
    if cart != [] {
      var rest := cart[1..];
      GoodCartIff(rest);
      HasIff(rest, cart[0].name);
      assert forall i :: 0 <= i < |rest| ==> rest[i] == cart[i + 1];
      assert forall i :: 1 <= i < |cart| ==> rest[i - 1] == cart[i];
    }
  }

  /** Where the one line of an item is rewritten, all others stay where they are. */
  lemma {:induction false} AdjustPresent(cart: Lines, item: string, change: int, drop: bool, k: nat)
    requires GoodCart(cart) && k < |cart| && cart[k].name == item
    ensures Adjust(cart, item, change, drop)
            == if drop && cart[k].quantity + change <= 0 then cart[..k] + cart[k + 1..]
               else cart[k := Line(item, cart[k].quantity + change)]
  {
    if k == 0 {
      AdjustAbsent(cart[1..], item, change, drop);
    } else {
      HasIff(cart[1..], cart[0].name);
      assert cart[1..][k - 1] == cart[k];
      AdjustPresent(cart[1..], item, change, drop, k - 1);
      assert cart[..k] == [cart[0]] + cart[1..][..k - 1];
      assert cart[k + 1..] == cart[1..][k..];
    }
  }

  /** Adding puts a new item last, and changes the line of one that is there where it stands;
      removing changes that line or takes it out.  The order of the lines stays. */
  lemma {:induction false} LinesKeepOrder(cart: Lines, item: string, quantity: int)
    requires GoodCart(cart)
    ensures (forall i :: 0 <= i < |cart| ==> cart[i].name != item) ==>
              AddLine(cart, item, quantity) == cart + [Line(item, quantity)] && RemoveLine(cart, item, quantity) == None
    ensures forall k :: 0 <= k < |cart| && cart[k].name == item ==>
              AddLine(cart, item, quantity) == cart[k := Line(item, cart[k].quantity + quantity)]
              && RemoveLine(cart, item, quantity) == Some(Lowered(cart, k, quantity))
  {
    hide Adjust, GoodCart, Has, Lowered;
    HasIff(cart, item);
    forall k | 0 <= k < |cart| && cart[k].name == item
      ensures AddLine(cart, item, quantity) == cart[k := Line(item, cart[k].quantity + quantity)]
              && RemoveLine(cart, item, quantity) == Some(Lowered(cart, k, quantity))
    {
      AdjustPresent(cart, item, quantity, false, k);
      LoweredIsAdjusted(cart, item, quantity, k);
    }
  }

  lemma {:induction false} LoweredIsAdjusted(cart: Lines, item: string, quantity: int, k: nat)
    requires GoodCart(cart) && k < |cart| && cart[k].name == item
    ensures Adjust(cart, item, -quantity, true) == Lowered(cart, k, quantity)
  {
    AdjustPresent(cart, item, -quantity, true, k);
  }

  lemma {:induction false} AdjustAbsent(cart: Lines, item: string, change: int, drop: bool)
    requires !Has(cart, item)
    ensures Adjust(cart, item, change, drop) == cart
  {
    if cart != [] {
      AdjustAbsent(cart[1..], item, change, drop);
    }
  }

  lemma {:induction false} AdjustAddsNoName(cart: Lines, item: string, change: int, drop: bool, other: string)
    ensures Has(Adjust(cart, item, change, drop), other) ==> Has(cart, other)
  {
    if cart != [] {
      AdjustAddsNoName(cart[1..], item, change, drop, other);
      var rest := Adjust(cart[1..], item, change, drop);
      assert ([cart[0]] + rest)[1..] == rest;
      assert ([Line(item, cart[0].quantity + change)] + rest)[1..] == rest;
    }
  }

  lemma {:induction false} AdjustKeepsGood(cart: Lines, item: string, change: int, drop: bool)
    requires GoodCart(cart)
    ensures GoodCart(Adjust(cart, item, change, drop))
  {
    if cart != [] {
      AdjustKeepsGood(cart[1..], item, change, drop);
      AdjustAddsNoName(cart[1..], item, change, drop, cart[0].name);
      var rest := Adjust(cart[1..], item, change, drop);
      assert ([cart[0]] + rest)[1..] == rest;
      assert ([Line(item, cart[0].quantity + change)] + rest)[1..] == rest;
    }
  }

  lemma {:induction false} AppendKeepsGood(cart: Lines, line: Line)
    requires GoodCart(cart) && IsName(line.name) && !Has(cart, line.name)
    ensures GoodCart(cart + [line])
    ensures forall other :: Has(cart + [line], other) <==> Has(cart, other) || other == line.name
    ensures forall other :: QuantityOf(cart + [line], other)
                            == if other == line.name then Some(line.quantity) else QuantityOf(cart, other)
  {
    if cart == [] {
      assert [] + [line] == [line];
    } else {
      AppendKeepsGood(cart[1..], line);
      assert (cart + [line])[1..] == cart[1..] + [line];
    }
  }

  /** Names stay words and stay distinct. */
  lemma {:induction false} CartStaysGood(cart: Lines, item: string, quantity: int)
    requires GoodCart(cart) && IsName(item)
    ensures GoodCart(AddLine(cart, item, quantity))
    ensures RemoveLine(cart, item, quantity).Some? ==> GoodCart(RemoveLine(cart, item, quantity).value)
  {
    AdjustKeepsGood(cart, item, quantity, false);
    AdjustKeepsGood(cart, item, -quantity, true);
    if !Has(cart, item) {
      AppendKeepsGood(cart, Line(item, quantity));
    }
  }

  lemma {:induction false} AdjustQuantities(cart: Lines, item: string, change: int, drop: bool, other: string)
    requires GoodCart(cart)
    ensures QuantityOf(Adjust(cart, item, change, drop), other)
            == (var q := QuantityOf(cart, other);
                if other != item || q.None? then q
                else if drop && q.value + change <= 0 then None
                else Some(q.value + change))
    ensures Has(cart, other) <==> QuantityOf(cart, other).Some?
  {
    if cart != [] {
      AdjustQuantities(cart[1..], item, change, drop, other);
      var rest := Adjust(cart[1..], item, change, drop);
      assert ([cart[0]] + rest)[1..] == rest;
      assert ([Line(item, cart[0].quantity + change)] + rest)[1..] == rest;
      if cart[0].name == item {
        AdjustAbsent(cart[1..], item, change, drop);
      }
    }
  }

  /** Adding raises the quantity of the item, from nothing if it was not there; removing lowers
      it, the line going when nothing is left; all other items keep their quantities. */
  lemma {:induction false} CartQuantities(cart: Lines, item: string, quantity: int, other: string)
    requires GoodCart(cart) && IsName(item)
    ensures QuantityOf(AddLine(cart, item, quantity), other)
            == (var q := QuantityOf(cart, other);
                if other != item then q else Some(quantity + if q.Some? then q.value else 0))
    ensures RemoveLine(cart, item, quantity).Some? <==> QuantityOf(cart, item).Some?
    ensures RemoveLine(cart, item, quantity).Some? ==>
              QuantityOf(RemoveLine(cart, item, quantity).value, other)
              == (var q := QuantityOf(cart, other);
                  if other != item then q else if q.value > quantity then Some(q.value - quantity) else None)
  {
    AdjustQuantities(cart, item, quantity, false, other);
    AdjustQuantities(cart, item, -quantity, true, other);
    AdjustQuantities(cart, item, quantity, false, item);
    if !Has(cart, item) {
      AppendKeepsGood(cart, Line(item, quantity));
    }
  }
}
