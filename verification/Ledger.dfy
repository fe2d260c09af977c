/** Amounts kept under names: in the shared map once a block has touched the name, in the
    committed state before that. */
module Ledger {
  import opened Wrappers
  import opened SharedMap
  import opened Decimal

  /** What the committed state shows under a key; the empty string when it has none. */
  type View = string -> string

  /** A payload as the JSON parser delivers it: nothing, or the string fields of an object.  A
      field that is missing or not a string makes the access throw. */
  type Payload = Option<map<string, string>>

  function Field(p: Payload, name: string): Option<string> {
    if p.Some? && name in p.value then Some(p.value[name]) else None
  }

  /** The payload names a verb and has these fields. */
  predicate Asks(p: Payload, verb: string, fields: set<string>) {
    p.Some? && "Verb" in p.value && p.value["Verb"] == verb && fields <= p.value.Keys
  }

  /** The contents under a name as a transaction sees them. */
  function Contents(view: View, m: Store, name: string): string {
    if name in m then m[name] else view(name)
  }

  /** The amount the committed state has under a name; None when the text has no number in it. */
  function StateBalance(view: View, name: string): Option<int> {
    if view(name) == "" then Some(0) else Stoi(view(name))
  }

  /** The amount under a name; None when the stored text has no number in it. */
  function Balance(view: View, m: Store, name: string): Option<int> {
    if name in m then Stoi(m[name]) else StateBalance(view, name)
  }

  /** The amount under a name, and 0 when there is none. */
  function Amount(view: View, m: Store, name: string): int {
    if Balance(view, m, name).Some? then Balance(view, m, name).value else 0
  }

  /** The map after an amount has been written. */
  function Put(m: Store, name: string, amount: int): Store {
    m[name := ToString(amount)]
  }

  /** A written amount is read back, and nothing else changes. */
  lemma {:induction false} PutThenBalance(view: View, m: Store, name: string, amount: int, other: string)
    ensures Balance(view, Put(m, name, amount), other)
            == if other == name then Some(amount) else Balance(view, m, other)
  {
    PrintedIsParsed(amount);
  }

  /** The sum of the amounts under some names. */
  function Total(view: View, m: Store, names: seq<string>): int {
    if names == [] then 0
    else Total(view, m, names[..|names| - 1]) + Amount(view, m, names[|names| - 1])
  }

  ghost predicate DistinctNames(names: seq<string>) {
    forall i, j :: 0 <= i < j < |names| ==> names[i] != names[j]
  }

  ghost predicate SameExcept(view: View, m: Store, m': Store, names: set<string>) {
    forall k :: k !in names ==> Amount(view, m', k) == Amount(view, m, k)
  }

  lemma {:induction false} TotalUnchanged(view: View, m: Store, m': Store, names: seq<string>)
    requires forall i :: 0 <= i < |names| ==> Amount(view, m', names[i]) == Amount(view, m, names[i])
    ensures Total(view, m', names) == Total(view, m, names)
  {
    if names != [] {
      TotalUnchanged(view, m, m', names[..|names| - 1]);
    }
  }

  /** A change of one amount changes the total by as much. */
  lemma {:induction false} TotalChange(view: View, m: Store, m': Store, names: seq<string>, k: string)
    requires DistinctNames(names) && SameExcept(view, m, m', {k})
    ensures Total(view, m', names)
            == Total(view, m, names) + if k in names then Amount(view, m', k) - Amount(view, m, k) else 0
  {
    if names != [] {
      var most, last := names[..|names| - 1], names[|names| - 1];
      if last == k {
        TotalUnchanged(view, m, m', most);
      } else {
        TotalChange(view, m, m', most, k);
        assert names == most + [last];
      }
    }
  }

  /** A change of two amounts. */
  lemma {:induction false} TotalChangeTwo(view: View, m: Store, m': Store, names: seq<string>, a: string, b: string)
    requires DistinctNames(names) && SameExcept(view, m, m', {a, b}) && a != b && a in names && b in names
    ensures Total(view, m', names)
            == Total(view, m, names) + (Amount(view, m', a) - Amount(view, m, a)) + (Amount(view, m', b) - Amount(view, m, b))
  {
    var mid := Put(m, a, Amount(view, m', a));
    forall k ensures Amount(view, mid, k) == if k == a then Amount(view, m', a) else Amount(view, m, k) {
      PutThenBalance(view, m, a, Amount(view, m', a), k);
    }
    TotalChange(view, m, mid, names, a);
    TotalChange(view, mid, m', names, b);
  }
}
