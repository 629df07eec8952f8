/** The JavaScript built-ins that the modelled code relies on: string trimming,
    `split(',')[0]`, `startsWith`, `Number.prototype.toString` on integers and
    `parseInt` without a radix. Strings are Dafny strings (sequences of Unicode
    scalar values) and numbers are unbounded integers or NaN. */
module Js {

  datatype Option<+T> = None | Some(value: T)

  /** A JavaScript number as the modelled code produces it: an integer, or
      NaN (what `parseInt` gives for a string without digits). */
  datatype JsNumber = NaN | Num(value: int)

  /** `Math.min(x, bound)`: NaN propagates. */
  function Min(x: JsNumber, bound: int): (r: JsNumber)
    ensures r.NaN? <==> x.NaN?
    ensures r.Num? ==> r.value <= bound && (r.value == bound || r.value == x.value)
    ensures r.Num? ==> r.value <= x.value
  {
    match x
    case NaN => NaN
    case Num(v) => Num(if v < bound then v else bound)
  }

  /** The WhiteSpace and LineTerminator code points of ECMAScript, which
      `trim` and `parseInt` strip (sections 12.2 and 12.3 of ECMA-262). */
  predicate IsWhitespace(c: char) {
    var n := c as int;
    n == 0x09 || n == 0x0B || n == 0x0C || n == 0x20 || n == 0xA0 || n == 0xFEFF
    || n == 0x1680 || (0x2000 <= n <= 0x200A) || n == 0x202F || n == 0x205F || n == 0x3000
    || IsLineTerminator(c)
  }

  /** The LineTerminator code points: the characters that `.` in a regular
      expression without the `s` flag does not match. */
  predicate IsLineTerminator(c: char) {
    var n := c as int;
    n == 0x0A || n == 0x0D || n == 0x2028 || n == 0x2029
  }

  /** `s.startsWith(prefix)`. */
  predicate StartsWith(s: string, prefix: string) {
    prefix <= s
  }

  /** Length of the whitespace run at the start of `s`. */
  function LeadingWhitespace(s: string): (n: nat)
    ensures n <= |s|
    ensures forall i :: 0 <= i < n ==> IsWhitespace(s[i])
    ensures n == |s| || !IsWhitespace(s[n])
  {
    if s == [] || !IsWhitespace(s[0]) then 0 else 1 + LeadingWhitespace(s[1..])
  }

  /** Length of the whitespace run at the end of `s`. */
  function TrailingWhitespace(s: string): (n: nat)
    ensures n <= |s|
    ensures forall i :: |s| - n <= i < |s| ==> IsWhitespace(s[i])
    ensures n == |s| || !IsWhitespace(s[|s| - 1 - n])
  {
    if s == [] || !IsWhitespace(s[|s| - 1]) then 0 else 1 + TrailingWhitespace(s[..|s| - 1])
  }

  /** `s.trim()`. */
  function Trim(s: string): (r: string)
    ensures |r| <= |s|
    ensures r == [] || (!IsWhitespace(r[0]) && !IsWhitespace(r[|r| - 1]))
  {
    var t := s[LeadingWhitespace(s)..];
    t[..|t| - TrailingWhitespace(t)]
  }

  predicate AllWhitespace(s: string) {
    forall i :: 0 <= i < |s| ==> IsWhitespace(s[i])
  }

  /** Trimming removes exactly the padding: whatever whitespace surrounds a
      string whose ends are not whitespace, `trim` gives that string back. */
  lemma {:induction false} TrimRemovesPadding(lead: string, s: string, trail: string)
    requires AllWhitespace(lead) && AllWhitespace(trail)
    requires s == [] || (!IsWhitespace(s[0]) && !IsWhitespace(s[|s| - 1]))
    requires s == [] ==> trail == []
    ensures Trim(lead + s + trail) == s
  {
    var whole := lead + s + trail;
    LeadingRun(lead, s + trail);
    assert whole == lead + (s + trail);
    assert whole[|lead|..] == s + trail;
    TrailingRun(s, trail);
  }

  lemma {:induction false} LeadingRun(lead: string, rest: string)
    requires AllWhitespace(lead)
    requires rest == [] || !IsWhitespace(rest[0])
    ensures LeadingWhitespace(lead + rest) == |lead|
  {
    if lead != [] {
      assert (lead + rest)[1..] == lead[1..] + rest;
      LeadingRun(lead[1..], rest);
    }
  }

  lemma {:induction false} TrailingRun(s: string, trail: string)
    requires AllWhitespace(trail)
    requires s == [] || !IsWhitespace(s[|s| - 1])
    ensures TrailingWhitespace(s + trail) == |trail|
  {
    if trail != [] {
      assert (s + trail)[..|s + trail| - 1] == s + trail[..|trail| - 1];
      TrailingRun(s, trail[..|trail| - 1]);
    }
  }

  /** `s.split(sep)[0]`: everything before the first `sep`, or all of `s`. */
  function BeforeFirst(s: string, sep: char): (r: string)
    ensures r <= s
    ensures sep !in r
    ensures |r| == |s| || s[|r|] == sep
  {
    if s == [] || s[0] == sep then [] else [s[0]] + BeforeFirst(s[1..], sep)
  }

  predicate IsDecimalDigit(c: char) {
    '0' <= c <= '9'
  }

  /** A digit of the given radix (10 or 16), in either case for 16. */
  predicate IsRadixDigit(c: char, radix: int) {
    if radix == 16 then IsDecimalDigit(c) || 'a' <= c <= 'f' || 'A' <= c <= 'F'
    else IsDecimalDigit(c)
  }

  function DigitValue(c: char): (d: nat)
    requires IsRadixDigit(c, 16)
    ensures d < 16
    ensures IsDecimalDigit(c) ==> d < 10
  {
    if IsDecimalDigit(c) then c as int - '0' as int
    else if 'a' <= c <= 'f' then c as int - 'a' as int + 10
    else c as int - 'A' as int + 10
  }

  function DigitChar(d: nat): (c: char)
    requires d < 10
    ensures IsDecimalDigit(c) && DigitValue(c) == d
  {
    ('0' as int + d) as char
  }

  /** The integer a string of radix digits denotes. */
  function DigitsValue(z: string, radix: int): (v: nat)
    requires radix == 10 || radix == 16
    requires forall i :: 0 <= i < |z| ==> IsRadixDigit(z[i], radix)
  {
    if z == [] then 0
    else
      var last := z[|z| - 1];
      assert IsRadixDigit(last, radix);
      DigitsValue(z[..|z| - 1], radix) * radix + DigitValue(last)
  }

  /** The longest prefix of `s` made of radix digits. */
  function DigitRun(s: string, radix: int): (z: string)
    ensures z <= s
    ensures forall i :: 0 <= i < |z| ==> IsRadixDigit(z[i], radix)
    ensures |z| == |s| || !IsRadixDigit(s[|z|], radix)
  {
    if s == [] || !IsRadixDigit(s[0], radix) then [] else [s[0]] + DigitRun(s[1..], radix)
  }

  /** `parseInt(s)` with no radix argument (section 19.2.5 of ECMA-262):
      leading whitespace is skipped, one sign is read, a `0x`/`0X` prefix
      switches to radix 16, and the longest run of digits is read; no digits
      gives NaN. */
  function ParseInt(s: string): JsNumber {
    var t := s[LeadingWhitespace(s)..];
    if |t| > 0 && t[0] == '-' then Negate(ParseUnsigned(t[1..]))
    else if |t| > 0 && t[0] == '+' then ParseUnsigned(t[1..])
    else ParseUnsigned(t)
  }

  /** The digits after the sign: a `0x`/`0X` prefix switches to radix 16. */
  function ParseUnsigned(u: string): JsNumber {
    var hex := |u| >= 2 && u[0] == '0' && (u[1] == 'x' || u[1] == 'X');
    var radix := if hex then 16 else 10;
    var z := DigitRun(if hex then u[2..] else u, radix);
    if z == [] then NaN else Num(DigitsValue(z, radix))
  }

  function Negate(x: JsNumber): JsNumber {
    if x.NaN? then NaN else Num(-x.value)
  }

  /** Decimal digits of a natural number, without leading zeros. */
  function NatToString(n: nat): (s: string)
    ensures |s| >= 1
    ensures forall i :: 0 <= i < |s| ==> IsDecimalDigit(s[i])
    ensures s[0] == '0' ==> n == 0
  {
    if n < 10 then [DigitChar(n)] else NatToString(n / 10) + [DigitChar(n % 10)]
  }

  /** `n.toString()` for an integer-valued number. */
  function IntToString(n: int): (s: string)
    ensures |s| >= 1
    ensures forall i :: 0 <= i < |s| ==> IsDecimalDigit(s[i]) || (i == 0 && s[i] == '-')
  {
    if n < 0 then "-" + NatToString(-n) else NatToString(n)
  }

  lemma {:induction false} NatToStringValue(n: nat)
    ensures DigitsValue(NatToString(n), 10) == n
  {
    var s := NatToString(n);
    if n >= 10 {
      NatToStringValue(n / 10);
      assert s[..|s| - 1] == NatToString(n / 10);
    }
  }

  /** `parseInt` reads back what `toString` writes. */
  lemma ParseIntOfIntToString(n: int)
    ensures ParseInt(IntToString(n)) == Num(n)
  {
    var m: nat := if n < 0 then -n else n;
    var digits := NatToString(m);
    DigitRunAll(digits);
    NatToStringValue(m);
    ParseUnsignedDigits(digits);
    var s := IntToString(n);
    LeadingWhitespaceNone(s);
    assert s[0..] == s;
    if n < 0 {
      assert s[0] == '-' && s[1..] == digits;
    } else {
      assert s == digits && s[0] != '-' && s[0] != '+';
    }
  }

  /** `parseInt` of a string without any decimal digit is NaN, whatever
      whitespace, sign or `0x` prefix it starts with. */
  lemma ParseIntDigitFree(s: string)
    requires forall i :: 0 <= i < |s| ==> !IsDecimalDigit(s[i])
    ensures ParseInt(s) == NaN
  {
    var t := s[LeadingWhitespace(s)..];
    assert forall i :: 0 <= i < |t| ==> !IsDecimalDigit(t[i]) by {
      forall i | 0 <= i < |t| ensures !IsDecimalDigit(t[i]) {
        assert t[i] == s[LeadingWhitespace(s) + i];
      }
    }
    var u := if |t| > 0 && (t[0] == '-' || t[0] == '+') then t[1..] else t;
    assert forall i :: 0 <= i < |u| ==> !IsDecimalDigit(u[i]) by {
      forall i | 0 <= i < |u| ensures !IsDecimalDigit(u[i]) {
        if u != t { assert u[i] == t[i + 1]; }
      }
    }
    assert !(|u| >= 2 && u[0] == '0');
    assert u == [] || !IsRadixDigit(u[0], 10);
    assert DigitRun(u, 10) == [];
  }

  lemma LeadingWhitespaceNone(s: string)
    requires s != [] && !IsWhitespace(s[0])
    ensures LeadingWhitespace(s) == 0
  {
  }

  /** A non-empty run of decimal digits reads as the number it denotes. */
  lemma ParseUnsignedDigits(z: string)
    requires |z| >= 1 && forall i :: 0 <= i < |z| ==> IsDecimalDigit(z[i])
    requires DigitRun(z, 10) == z
    ensures ParseUnsigned(z) == Num(DigitsValue(z, 10))
  {
    var hex := |z| >= 2 && z[0] == '0' && (z[1] == 'x' || z[1] == 'X');
    assert !hex by {
      if |z| >= 2 {
        assert IsDecimalDigit(z[1]);
      }
    }
    var run := DigitRun(z, 10);
    assert run == z;
    assert run != [];
  }

  lemma {:induction false} DigitRunAll(z: string)
    requires forall i :: 0 <= i < |z| ==> IsDecimalDigit(z[i])
    ensures DigitRun(z, 10) == z
  {
    if z != [] {
      DigitRunAll(z[1..]);
      assert z == [z[0]] + z[1..];
    }
  }
}
