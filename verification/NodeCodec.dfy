/** How a tree node is written as one comma-separated string and read back, with the unsigned
    positions of std::string: npos is the largest one, and the position after it is 0. */
module NodeCodec {
  import opened MerkleTree

  const WIDTH: nat := 0x1_0000_0000_0000_0000
  const NPOS: nat := WIDTH - 1

  /** The result of one unsigned addition or subtraction, wrapped around. */
  function Wrap(x: int): (r: nat)
    requires 0 <= x + WIDTH && x < 2 * WIDTH
    ensures r < WIDTH && (0 <= x < WIDTH ==> r == x) && (x == NPOS + 1 ==> r == 0)
    ensures r == x % WIDTH
  {
    if x < 0 then x + WIDTH else if x >= WIDTH then x - WIDTH else x
  }

  predicate CommaFree(s: string) {
    ',' !in s
  }

  /** The position of the first comma, or the length if there is none. */
  function FirstComma(s: string): (k: nat)
    ensures k <= |s| && CommaFree(s[..k]) && (k < |s| ==> s[k] == ',')
  {
    if s == "" || s[0] == ',' then 0
    else
      var k := 1 + FirstComma(s[1..]);
      assert s[..k] == [s[0]] + s[1..][..k-1];
      k
  }

  /** data.find(',', pos) */
  function Find(data: string, pos: nat): (r: nat)
    requires |data| < NPOS
    ensures r == NPOS || pos <= r < |data|
  {
    if pos > |data| then NPOS
    else
      var k := FirstComma(data[pos..]);
      if k == |data| - pos then NPOS else pos + k
  }

  /** data.substr(pos, count); a position past the end would throw. */
  function Substr(data: string, pos: nat, count: nat): string
    requires pos <= |data|
  {
    if count <= |data| - pos then data[pos..pos + count] else data[pos..]
  }

  /** The parts between the commas; there is always at least one. */
  function Split(s: string): (parts: seq<string>)
    ensures parts != []
    decreases |s|
  {
    var k := FirstComma(s);
    if k == |s| then [s] else [s[..k]] + Split(s[k+1..])
  }

  /* ----- writing ----- */

  function ChildrenText(children: seq<string>): string {
    if children == [] then "" else ChildrenText(children[..|children| - 1]) + "," + children[|children| - 1]
  }

  function Serialized(n: Node): string {
    n.hash + "," + n.value + ChildrenText(n.children)
  }

  method SerializeNode(n: Node) returns (serialized: string)
    ensures serialized == Serialized(n)
  {
    serialized := n.hash + "," + n.value;
    for i := 0 to |n.children|
      invariant serialized == n.hash + "," + n.value + ChildrenText(n.children[..i])
    {
      assert n.children[..i+1][..i] == n.children[..i];
      serialized := serialized + "," + n.children[i];
    }
    assert n.children[..|n.children|] == n.children;
  }

  /* ----- reading ----- */

  /** A last part that is empty is not taken as a child. */
  function WithoutEmptyLast(parts: seq<string>): seq<string>
    requires parts != []
  {
    if parts[|parts| - 1] == "" then parts[..|parts| - 1] else parts
  }

  /** With fewer than two commas the position wraps to 0, so the children are read from the
      beginning of the string again. */
  function Parsed(data: string): Node {
    var parts := Split(data);
    if |parts| == 1 then Node(parts[0], parts[0], WithoutEmptyLast(parts))
    else if |parts| == 2 then Node(parts[1], parts[0], WithoutEmptyLast(parts))
    else Node(parts[1], parts[0], WithoutEmptyLast(parts[2..]))
  }

  lemma {:induction false} FindNothing(data: string, pos: nat)
    requires |data| < NPOS && pos <= |data| && Find(data, pos) == NPOS
    ensures Split(data[pos..]) == [data[pos..]]
  {
  }

  lemma {:induction false} FindSomething(data: string, pos: nat)
    requires |data| < NPOS && pos <= |data| && Find(data, pos) != NPOS
    ensures Split(data[pos..]) == [data[pos..Find(data, pos)]] + Split(data[Find(data, pos) + 1..])
  {
    hide CommaFree;
    var rest := data[pos..];
    var k := FirstComma(rest);
    assert rest[..k] == data[pos..pos + k];
    assert rest[k+1..] == data[pos + k + 1..];
  }

  /** What is cut out up to the position found is the next part, also when nothing was found. */
  lemma {:induction false} CutIsFirstPart(data: string, pos: nat)
    requires |data| < NPOS && pos <= |data|
    ensures Substr(data, pos, Wrap(Find(data, pos) - pos)) == Split(data[pos..])[0]
    ensures Find(data, pos) != NPOS ==> Split(data[pos..])[1..] == Split(data[Find(data, pos) + 1..])
    ensures Find(data, pos) == NPOS ==> |Split(data[pos..])| == 1
  {
    hide Find, Split, Wrap;
    if Find(data, pos) == NPOS {
      FindNothing(data, pos);
    } else {
      FindSomething(data, pos);
    }
  }

  /** Where reading goes on after a part that starts at pos. */
  function After(data: string, pos: nat): (r: nat)
    requires |data| < NPOS && pos <= |data|
    ensures r <= |data|
    ensures r == Wrap(Find(data, pos) + 1)
  {
    if Find(data, pos) == NPOS then 0 else Find(data, pos) + 1
  }

  /** The parts left after one part; when there was none after it, reading starts over. */
  function Left(whole: seq<string>, parts: seq<string>): seq<string> {
    if |parts| <= 1 then whole else parts[1..]
  }

  lemma {:induction false} AfterSplits(data: string, pos: nat)
    requires |data| < NPOS && pos <= |data|
    ensures Split(data[After(data, pos)..]) == Left(Split(data), Split(data[pos..]))
  {
    hide Find, Split, Wrap;
    if Find(data, pos) == NPOS {
      FindNothing(data, pos);
      assert data[0..] == data;
    } else {
      FindSomething(data, pos);
    }
  }

  method DeserializeNode(data: string) returns (node: Node)
    requires |data| < NPOS
    ensures node == Parsed(data)
  {
    hide FirstComma, Find, Split, Substr, Wrap, Parsed;
    var pos, nextPos := 0, Find(data, 0);
    assert data[0..] == data;
    CutIsFirstPart(data, 0);
    AfterSplits(data, 0);
    var hash := Substr(data, pos, Wrap(nextPos - pos));
    pos := Wrap(nextPos + 1);
    nextPos := Find(data, pos);
    CutIsFirstPart(data, pos);
    AfterSplits(data, pos);
    var value := Substr(data, pos, Wrap(nextPos - pos));
    pos := Wrap(nextPos + 1);
    ghost var parts := Split(data[pos..]);
    ThreeStages(data, Split(data));
    var children := ReadChildren(data, pos);
    node := Node(value, hash, children);
  }

  lemma {:induction false} ThreeStages(data: string, parts: seq<string>)
    requires parts == Split(data)
    ensures var second := Left(parts, parts);
            second != [] && Left(parts, second) != []
            && Parsed(data) == Node(second[0], parts[0], WithoutEmptyLast(Left(parts, second)))
  {
  }

  /** The loop over the children, from a given position on. */
  method ReadChildren(data: string, start: nat) returns (children: seq<string>)
    requires |data| < NPOS && start <= |data|
    ensures children == WithoutEmptyLast(Split(data[start..]))
  {
    hide FirstComma, Find, Split, Wrap;
    var pos := start;
    ghost var parts := Split(data[start..]);
    children := [];
    var nextPos := Find(data, pos);
    while nextPos != NPOS
      invariant pos <= |data| && nextPos == Find(data, pos)
      invariant parts == children + Split(data[pos..])
      decreases |data| - pos
    {
      FindSomething(data, pos);
      children := children + [Substr(data, pos, nextPos - pos)];
      pos := nextPos + 1;
      nextPos := Find(data, pos);
    }
    FindNothing(data, pos);
    ghost var read := children;
    if pos < |data| {
      children := children + [data[pos..]];
    } else {
      assert data[pos..] == "";
    }
    assert (read + [data[pos..]])[..|read|] == read;
  }

  /* ----- round trip ----- */

  lemma {:induction false} FirstCommaAfter(a: string, rest: string)
    requires CommaFree(a)
    ensures FirstComma(a + "," + rest) == |a|
    ensures FirstComma(a) == |a|
  {
    var s := a + "," + rest;
    if a != "" {
      assert s[1..] == a[1..] + "," + rest;
      FirstCommaAfter(a[1..], rest);
    } else {
      assert s[0] == ',';
    }
  }

  lemma {:induction false} SplitFirst(a: string, rest: string)
    requires CommaFree(a)
    ensures Split(a + "," + rest) == [a] + Split(rest)
    ensures Split(a) == [a]
  {
    var s := a + "," + rest;
    FirstCommaAfter(a, rest);
    assert s[..|a|] == a && s[|a|+1..] == rest;
  }

  ghost predicate AllCommaFree(parts: seq<string>) {
    forall i :: 0 <= i < |parts| ==> CommaFree(parts[i])
  }

  lemma {:induction false} PartsAreCommaFree(s: string)
    ensures AllCommaFree(Split(s))
    decreases |s|
  {
    var k := FirstComma(s);
    if k < |s| {
      PartsAreCommaFree(s[k+1..]);
    } else {
      assert s[..k] == s;
    }
  }

  lemma {:induction false} ChildrenTextFirst(children: seq<string>)
    requires children != []
    ensures ChildrenText(children) == "," + children[0] + ChildrenText(children[1..])
  {
    if |children| > 1 {
      var most := children[..|children| - 1];
      ChildrenTextFirst(most);
      assert children[1..][..|children| - 2] == most[1..];
      assert children[1..][|children| - 2] == children[|children| - 1];
    }
  }

  lemma {:induction false} Regroup(a: string, b: string, c: string)
    ensures a + ("," + b + c) == a + "," + (b + c)
  {
  }

  lemma {:induction false} SplitWithChildren(a: string, children: seq<string>)
    requires CommaFree(a) && AllCommaFree(children)
    ensures Split(a + ChildrenText(children)) == [a] + children
    decreases |children|
  {
    hide Split, ChildrenText;
    if children == [] {
      NoChildrenText();
      assert a + "" == a;
      SplitFirst(a, "");
    } else {
      ChildrenTextFirst(children);
      var rest := children[0] + ChildrenText(children[1..]);
      Regroup(a, children[0], ChildrenText(children[1..]));
      SplitFirst(a, rest);
      SplitWithChildren(children[0], children[1..]);
    }
  }

  lemma {:induction false} NoChildrenText()
    ensures ChildrenText([]) == ""
  {
  }

  lemma {:induction false} SplitSerialized(n: Node)
    requires CommaFree(n.hash) && CommaFree(n.value) && AllCommaFree(n.children)
    ensures Split(Serialized(n)) == [n.hash, n.value] + n.children
  {
    hide Split, ChildrenText;
    var rest := n.value + ChildrenText(n.children);
    assert n.hash + "," + n.value + ChildrenText(n.children) == n.hash + "," + rest;
    SplitFirst(n.hash, rest);
    SplitWithChildren(n.value, n.children);
  }

  /** Reading back what was written gives the node exactly when it has a child, no field has a
      comma in it, and the last child is not the empty string. */
  lemma {:induction false} RoundTrip(n: Node)
    ensures Parsed(Serialized(n)) == n
            <==> n.children != [] && n.children[|n.children| - 1] != ""
                 && CommaFree(n.hash) && CommaFree(n.value) && AllCommaFree(n.children)
  {
    hide Serialized, Split;
    if CommaFree(n.hash) && CommaFree(n.value) && AllCommaFree(n.children) {
      SplitSerialized(n);
      assert ([n.hash, n.value] + n.children)[2..] == n.children;
    } else {
      PartsAreCommaFree(Serialized(n));
      ParsedFieldsAreParts(Serialized(n));
    }
  }

  lemma {:induction false} ParsedFieldsAreParts(data: string)
    requires AllCommaFree(Split(data))
    ensures CommaFree(Parsed(data).hash) && CommaFree(Parsed(data).value) && AllCommaFree(Parsed(data).children)
  {
    hide Split, CommaFree;
  }

  /** A childless node with comma-free fields gets its hash and value back, but its own hash,
      and its value unless that is empty, come back as children. */
  lemma {:induction false} ChildlessRoundTrip(n: Node)
    requires n.children == [] && CommaFree(n.hash) && CommaFree(n.value)
    ensures Parsed(Serialized(n)).hash == n.hash && Parsed(Serialized(n)).value == n.value
    ensures Parsed(Serialized(n)).children == if n.value == "" then [n.hash] else [n.hash, n.value]
  {
    hide Serialized, Split;
    SplitSerialized(n);
    assert [n.hash, n.value][..1] == [n.hash];
  }

  /* ----- what of a node always comes back ----- */

  function UpToComma(s: string): (t: string)
    ensures CommaFree(t)
  {
    s[..FirstComma(s)]
  }

  /** A string is cut at its first comma, so it stays whole exactly when it has none. */
  lemma {:induction false} WholeIffCommaFree(s: string)
    ensures UpToComma(s) == s <==> CommaFree(s)
  {
    if CommaFree(s) {
      FirstCommaAfter(s, "");
    }
  }

  /** Hash and value come back whenever they have no comma in them, whatever the children. */
  lemma {:induction false} HeadComesBack(n: Node)
    requires CommaFree(n.hash) && CommaFree(n.value)
    ensures Parsed(Serialized(n)).hash == n.hash && Parsed(Serialized(n)).value == n.value
  {
    hide Split, ChildrenText, CommaFree;
    SplitFirst(n.hash, n.value + ChildrenText(n.children));
    assert n.hash + "," + n.value + ChildrenText(n.children) == n.hash + "," + (n.value + ChildrenText(n.children));
    if n.children == [] {
      NoChildrenText();
      assert n.value + "" == n.value;
      SplitFirst(n.value, "");
    } else {
      ChildrenTextFirst(n.children);
      var rest := n.children[0] + ChildrenText(n.children[1..]);
      Regroup(n.value, n.children[0], ChildrenText(n.children[1..]));
      SplitFirst(n.value, rest);
    }
  }

  /** A leaf gets its hash back, and its value up to the first comma. */
  lemma {:induction false} LeafComesBack(hash: string, value: string)
    requires CommaFree(hash)
    ensures Parsed(Serialized(Node(value, hash, []))).hash == hash
    ensures Parsed(Serialized(Node(value, hash, []))).value == UpToComma(value)
  {
    hide CommaFree;
    NoChildrenText();
    assert hash + "," + value + "" == hash + "," + value;
    SplitFirst(hash, value);
  }

  /** Whatever was written, what is read has no comma in any field. */
  lemma {:induction false} ReadFieldsAreCommaFree(data: string)
    ensures CommaFree(Parsed(data).hash) && CommaFree(Parsed(data).value) && AllCommaFree(Parsed(data).children)
  {
    PartsAreCommaFree(data);
    ParsedFieldsAreParts(data);
  }
}
