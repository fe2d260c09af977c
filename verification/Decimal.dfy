/** std::stoi and std::to_string, over unbounded integers. */
module Decimal {
  import opened Wrappers

  predicate IsSpace(c: char) {
    c == ' ' || c == '\t' || c == '\n' || c == 11 as char || c == 12 as char || c == '\r'
  }

  predicate IsDigit(c: char) {
    '0' <= c <= '9'
  }

  function DigitChar(d: nat): (c: char)
    requires d < 10
  {
    '0' + d as char
  }

  function DigitValue(c: char): int
    requires IsDigit(c)
  {
    c as int - '0' as int
  }

  function Digits(n: nat): (s: string)
    ensures s != ""
  {
    if n < 10 then [DigitChar(n)] else Digits(n / 10) + [DigitChar(n % 10)]
  }

  function ToString(n: int): (s: string)
    ensures s != ""
  {
    if n < 0 then "-" + Digits(-n) else Digits(n)
  }

  function SkipSpace(s: string): (t: string)
    ensures |t| <= |s| && (t != "" ==> !IsSpace(t[0]))
  {
    if s != "" && IsSpace(s[0]) then SkipSpace(s[1..]) else s
  }

  /** The number of digits s starts with. */
  function DigitCount(s: string): (n: nat)
    ensures n <= |s| && forall i :: 0 <= i < n ==> IsDigit(s[i])
  {
    if s != "" && IsDigit(s[0]) then 1 + DigitCount(s[1..]) else 0
  }

  function Value(s: string): int
    requires forall i :: 0 <= i < |s| ==> IsDigit(s[i])
  {
    if s == "" then 0 else 10 * Value(s[..|s| - 1]) + DigitValue(s[|s| - 1])
  }

  function StoiDigits(s: string): Option<int> {
    var n := DigitCount(s);
    if n == 0 then None else Some(Value(s[..n]))
  }

  /** Leading white space, an optional sign, then as many digits as there are; what follows them
      is ignored.  Without a digit the call throws. */
  function Stoi(s: string): Option<int> {
    var t := SkipSpace(s);
    if t != "" && t[0] == '-' then
      var r := StoiDigits(t[1..]);
      if r.Some? then Some(-r.value) else None
    else if t != "" && t[0] == '+' then StoiDigits(t[1..])
    else StoiDigits(t)
  }

  ghost predicate AllDigits(s: string) {
    forall i :: 0 <= i < |s| ==> IsDigit(s[i])
  }

  lemma {:induction false} AllDigitsCount(s: string)
    requires AllDigits(s)
    ensures DigitCount(s) == |s|
  {
    if s != "" {
      assert IsDigit(s[0]);
      forall i | 0 <= i < |s[1..]| ensures IsDigit(s[1..][i]) {
        assert IsDigit(s[i+1]);
      }
      AllDigitsCount(s[1..]);
    }
  }

  lemma {:induction false} DigitsAreDigits(n: nat)
    ensures AllDigits(Digits(n)) && Value(Digits(n)) == n
  {
    if n >= 10 {
      DigitsAreDigits(n / 10);
      assert Digits(n)[..|Digits(n)| - 1] == Digits(n / 10);
    } else {
      assert Digits(n)[..|Digits(n)| - 1] == "";
    }
  }

  /** What is printed is read back. */
  lemma {:induction false} PrintedIsParsed(n: int)
    ensures Stoi(ToString(n)) == Some(n)
  {
    hide Digits, Value, DigitCount, StoiDigits;
    var m: nat := if n < 0 then -n else n;
    DigitsAreRead(m);
    assert IsDigit(Digits(m)[0]);
    if n < 0 {
      assert ToString(n)[1..] == Digits(m);
    }
  }

  lemma {:induction false} DigitsAreRead(n: nat)
    ensures AllDigits(Digits(n)) && StoiDigits(Digits(n)) == Some(n)
  {
    hide Digits;
    DigitsAreDigits(n);
    AllDigitsCount(Digits(n));
    assert Digits(n)[..|Digits(n)|] == Digits(n);
  }

  /** No white space is printed. */
  lemma {:induction false} PrintedHasNoSpace(n: int)
    ensures forall i :: 0 <= i < |ToString(n)| ==> !IsSpace(ToString(n)[i])
  {
    var m: nat := if n < 0 then -n else n;
    DigitsAreDigits(m);
    forall i | 0 <= i < |ToString(n)| ensures !IsSpace(ToString(n)[i]) {
      if n < 0 {
        assert i > 0 ==> ToString(n)[i] == Digits(m)[i-1] && IsDigit(Digits(m)[i-1]);
      } else {
        assert IsDigit(Digits(m)[i]);
      }
    }
  }

  lemma {:induction false} NoLeadingZero(n: nat)
    ensures Digits(n)[0] == '0' ==> n == 0
  {
    if n >= 10 {
      NoLeadingZero(n / 10);
      assert Digits(n)[0] == Digits(n / 10)[0];
    }
  }

  /** A printed number is a minus sign exactly when it is negative, then digits, the first of
      which is not 0 unless the number is. */
  lemma {:induction false} PrintedShape(n: int)
    ensures var s := ToString(n);
            && (s[0] == '-' <==> n < 0)
            && (n < 0 ==> |s| > 1 && s[1] != '0' && forall i :: 1 <= i < |s| ==> '0' <= s[i] <= '9')
            && (n >= 0 ==> (s[0] == '0' ==> s == "0") && forall i :: 0 <= i < |s| ==> '0' <= s[i] <= '9')
  {
    var m: nat := if n < 0 then -n else n;
    var s, d := ToString(n), Digits(m);
    NoLeadingZero(m);
    DigitsAreDigits(m);
    assert forall i :: 0 <= i < |d| ==> IsDigit(d[i]);
    if n < 0 {
      assert forall i :: 1 <= i < |s| ==> s[i] == d[i - 1];
    }
    assert Digits(0) == "0";
  }

  /* ----- what std::stoi reads ----- */

  /** Only the characters std::isspace accepts. */
  ghost predicate AllSpaces(s: string) {
    forall i :: 0 <= i < |s| ==> s[i] in [' ', '\t', '\n', 11 as char, 12 as char, '\r']
  }

  ghost predicate Numeral(s: string) {
    s != "" && forall i :: 0 <= i < |s| ==> '0' <= s[i] <= '9'
  }

  ghost predicate StartsWithDigit(s: string) {
    s != "" && '0' <= s[0] <= '9'
  }

  lemma {:induction false} SpacesAreSkipped(spaces: string, t: string)
    requires AllSpaces(spaces)
    ensures SkipSpace(spaces + t) == SkipSpace(t)
  {
    if spaces == "" {
      assert spaces + t == t;
    } else {
      assert spaces[0] in [' ', '\t', '\n', 11 as char, 12 as char, '\r'] && IsSpace(spaces[0]);
      SpacesAreSkipped(spaces[1..], t);
      assert (spaces + t)[1..] == spaces[1..] + t;
    }
  }

  lemma {:induction false} DigitsUpToTail(digits: string, tail: string)
    requires AllDigits(digits) && !StartsWithDigit(tail)
    ensures DigitCount(digits + tail) == |digits|
  {
    if digits == "" {
      assert digits + tail == tail;
    } else {
      assert forall i :: 0 <= i < |digits[1..]| ==> digits[1..][i] == digits[i + 1];
      DigitsUpToTail(digits[1..], tail);
      assert (digits + tail)[1..] == digits[1..] + tail;
    }
  }

  lemma {:induction false} NumeralWithTail(digits: string, tail: string)
    requires Numeral(digits) && !StartsWithDigit(tail)
    ensures StoiDigits(digits + tail) == Some(Value(digits)) && StoiDigits(digits) == Some(Value(digits))
    ensures Stoi(digits) == Some(Value(digits))
  {
    DigitsUpToTail(digits, tail);
    DigitsUpToTail(digits, "");
    assert digits + "" == digits;
    assert (digits + tail)[..|digits|] == digits && digits[..|digits|] == digits;
  }

  /** White space before a number, a sign in front of it, and anything after it that is no digit
      make no difference to the number read, but that a minus sign negates it. */
  lemma {:induction false} StoiReads(spaces: string, digits: string, tail: string)
    requires AllSpaces(spaces) && Numeral(digits) && !StartsWithDigit(tail)
    ensures Stoi(digits).Some?
    ensures Stoi(spaces + (digits + tail)) == Stoi(digits)
    ensures Stoi(spaces + ("+" + (digits + tail))) == Stoi(digits)
    ensures Stoi(spaces + ("-" + (digits + tail))) == Some(-Stoi(digits).value)
  {
    NumeralWithTail(digits, tail);
    var t := digits + tail;
    assert IsDigit(t[0]);
    SpacesAreSkipped(spaces, t);
    SpacesAreSkipped(spaces, "+" + t);
    SpacesAreSkipped(spaces, "-" + t);
    assert ("+" + t)[1..] == t && ("-" + t)[1..] == t;
  }

  /** A numeral is read in base ten. */
  lemma {:induction false} NumeralInBaseTen(digits: string, c: char)
    requires Numeral([c])
    ensures Stoi([c]) == Some(c as int - '0' as int)
    ensures Numeral(digits) ==>
              Stoi(digits).Some? && Stoi(digits + [c]) == Some(10 * Stoi(digits).value + (c as int - '0' as int))
  {
    assert [c][0] == c;
    NumeralWithTail([c], "");
    assert [c][..0] == "";
    if Numeral(digits) {
      NumeralWithTail(digits, "");
      NumeralWithTail(digits + [c], "");
      assert (digits + [c])[..|digits|] == digits;
    }
  }

  /** Where no digit follows the white space and at most one sign, the call throws. */
  lemma {:induction false} StoiThrows(spaces: string, t: string)
    requires AllSpaces(spaces) && (t != "" ==> !AllSpaces([t[0]])) && !StartsWithDigit(t)
    requires t != "" && t[0] in ['+', '-'] ==> !StartsWithDigit(t[1..])
    ensures Stoi(spaces + t) == None
  {
    SpacesAreSkipped(spaces, t);
    assert forall c :: IsSpace(c) ==> AllSpaces([c]);
  }
}
