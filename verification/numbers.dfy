/**
 * The JavaScript number conversions the application relies on: decimal
 * printing (`toString`), `padStart(2, "0")`, `parseInt` with radix 10 and
 * without a radix, the truncating remainder `%` and `Math.ceil` of a quotient.
 */
module Numbers {
  import opened Wrappers
  import Strings

  predicate IsDigit(c: char) { '0' <= c <= '9' }

  predicate AllDigits(s: string) {
    forall k | 0 <= k < |s| :: IsDigit(s[k])
  }

  function DigitChar(d: nat): (c: char)
    requires d < 10
    ensures IsDigit(c)
  {
    ('0' as int + d) as char
  }

  function DigitValue(c: char): nat
    requires IsDigit(c)
  {
    c as int - '0' as int
  }

  /** The number a string of decimal digits denotes. */
  function DigitsValue(s: string): nat
    requires AllDigits(s)
  {
    if |s| == 0 then 0 else DigitsValue(s[..|s| - 1]) * 10 + DigitValue(s[|s| - 1])
  }

  /** `n.toString()` for a non-negative integer: its decimal digits without leading zeros. */
  function NatToString(n: nat): (s: string)
    ensures |s| >= 1 && AllDigits(s)
    ensures s[0] == '0' ==> n == 0 && s == "0"
    ensures DigitsValue(s) == n
  {
    if n < 10 then [DigitChar(n)]
    else
      var s := NatToString(n / 10) + [DigitChar(n % 10)];
      assert s[..|s| - 1] == NatToString(n / 10);
      s
  }

  /** `i.toString()` for any integer. */
  function IntToString(i: int): string {
    if i < 0 then "-" + NatToString(-i) else NatToString(i)
  }

  /** `s.padStart(2, "0")`. */
  function Pad2(s: string): (r: string)
    ensures |s| >= 2 ==> r == s
    ensures |s| < 2 ==> |r| == 2 && r[2 - |s|..] == s && forall k | 0 <= k < 2 - |s| :: r[k] == '0'
  {
    if |s| >= 2 then s else if |s| == 1 then "0" + s else "00"
  }

  /** Leading zeros do not change the value of a digit string. */
  lemma {:induction false} LeadingZero(s: string)
    requires AllDigits(s)
    ensures AllDigits("0" + s) && DigitsValue("0" + s) == DigitsValue(s)
    decreases |s|
  {
    if |s| > 0 {
      var t := "0" + s;
      assert t[..|t| - 1] == "0" + s[..|s| - 1];
      LeadingZero(s[..|s| - 1]);
    }
  }

  /** The longest prefix of `s` made of decimal digits. */
  function DigitPrefix(s: string): (p: string)
    ensures |p| <= |s| && p == s[..|p|] && AllDigits(p)
    ensures |p| < |s| ==> !IsDigit(s[|p|])
  {
    if |s| > 0 && IsDigit(s[0]) then
      var p := [s[0]] + DigitPrefix(s[1..]);
      assert s[..|p|] == [s[0]] + s[1..][..|p| - 1];
      p
    else []
  }

  /**
   * `parseInt(s, 10)`: skip leading whitespace, read an optional sign, then
   * the longest run of digits; `None` stands for `NaN` (no digit at all).
   */
  function ParseInt(s: string): Option<int> {
    var t := Strings.TrimStart(s);
    var negative := |t| > 0 && t[0] == '-';
    var body := if |t| > 0 && (t[0] == '-' || t[0] == '+') then t[1..] else t;
    var digits := DigitPrefix(body);
    if |digits| == 0 then None
    else Some(if negative then -(DigitsValue(digits) as int) else DigitsValue(digits))
  }

  /** `parseInt` reads back every integer that `toString` prints. */
  lemma ParseIntToString(i: int)
    ensures ParseInt(IntToString(i)) == Some(i)
  {
    var n: nat := if i < 0 then -i else i;
    var ds := NatToString(n);
    ParseIntDigits(ds);
  }

  /** `parseInt` of a digit string, with or without a leading minus sign. */
  lemma ParseIntDigits(ds: string)
    requires |ds| > 0 && AllDigits(ds)
    ensures ParseInt(ds) == Some(DigitsValue(ds) as int)
    ensures ParseInt("-" + ds) == Some(-(DigitsValue(ds) as int))
  {
    DigitPrefixAll(ds);
    ParseIntUnsigned(ds);
    ParseIntMinus(ds);
  }

  lemma ParseIntUnsigned(ds: string)
    requires |ds| > 0 && IsDigit(ds[0]) && DigitPrefix(ds) == ds
    ensures ParseInt(ds) == Some(DigitsValue(ds) as int)
  {
    UnpaddedStart(ds);
  }

  lemma ParseIntMinus(ds: string)
    requires |ds| > 0 && DigitPrefix(ds) == ds
    ensures ParseInt("-" + ds) == Some(-(DigitsValue(ds) as int))
  {
    var m := "-" + ds;
    UnpaddedStart(m);
    var t := Strings.TrimStart(m);
    assert t[0] == '-' && t[1..] == ds;
  }

  /** A string that starts with a sign or a digit has no leading whitespace. */
  lemma UnpaddedStart(m: string)
    requires |m| > 0 && (m[0] == '-' || m[0] == '+' || IsDigit(m[0]))
    ensures Strings.TrimStart(m) == m
  {
    assert !Strings.IsWhitespace(m[0]);
  }

  predicate IsHexDigit(c: char) { IsDigit(c) || 'a' <= c <= 'f' || 'A' <= c <= 'F' }

  predicate AllHexDigits(s: string) {
    forall k | 0 <= k < |s| :: IsHexDigit(s[k])
  }

  function HexDigitValue(c: char): (v: nat)
    requires IsHexDigit(c)
    ensures v < 16
  {
    if IsDigit(c) then DigitValue(c)
    else if 'a' <= c <= 'f' then c as int - 'a' as int + 10
    else c as int - 'A' as int + 10
  }

  /** The number a string of hexadecimal digits denotes. */
  function HexValue(s: string): nat
    requires AllHexDigits(s)
  {
    if |s| == 0 then 0 else HexValue(s[..|s| - 1]) * 16 + HexDigitValue(s[|s| - 1])
  }

  /** The longest prefix of `s` made of hexadecimal digits. */
  function HexPrefix(s: string): (p: string)
    ensures |p| <= |s| && p == s[..|p|] && AllHexDigits(p)
    ensures |p| < |s| ==> !IsHexDigit(s[|p|])
  {
    if |s| > 0 && IsHexDigit(s[0]) then
      var p := [s[0]] + HexPrefix(s[1..]);
      assert s[..|p|] == [s[0]] + s[1..][..|p| - 1];
      p
    else []
  }

  /** `0x` or `0X`: the prefix that makes `parseInt` without a radix read base 16. */
  predicate HexMarked(s: string) {
    |s| >= 2 && s[0] == '0' && (s[1] == 'x' || s[1] == 'X')
  }

  /** What `parseInt` reads its digits from: `s` after leading whitespace and one sign. */
  function Unsigned(s: string): string {
    var t := Strings.TrimStart(s);
    if |t| > 0 && (t[0] == '-' || t[0] == '+') then t[1..] else t
  }

  /** Whether `parseInt` reads a minus sign before the digits of `s`. */
  predicate Negative(s: string) {
    var t := Strings.TrimStart(s);
    |t| > 0 && t[0] == '-'
  }

  /** The longest run of hexadecimal digits at the start of `s`, read in base 16; `None` when there is none. */
  function ParseHex(s: string): Option<nat> {
    var digits := HexPrefix(s);
    if |digits| == 0 then None else Some(HexValue(digits))
  }

  /**
   * `parseInt(s)` with no radix: as `ParseInt`, except that a `0x` or `0X`
   * after the sign switches to base 16 and reads the longest run of
   * hexadecimal digits after it; `0x` followed by no such digit is `NaN`.
   */
  function ParseIntAuto(s: string): Option<int> {
    var body := Unsigned(s);
    if HexMarked(body) then
      match ParseHex(body[2..])
      case None => None
      case Some(v) => Some(if Negative(s) then -(v as int) else v)
    else ParseInt(s)
  }

  /** Without a `0x` after the sign, the radix-less `parseInt` reads decimal. */
  lemma ParseIntAutoDecimal(s: string)
    requires !HexMarked(Unsigned(s))
    ensures ParseIntAuto(s) == ParseInt(s)
  {
  }

  /** The radix-less `parseInt` reads back every integer that `toString` prints. */
  lemma ParseIntAutoToString(i: int)
    ensures ParseIntAuto(IntToString(i)) == Some(i)
  {
    var n: nat := if i < 0 then -i else i;
    var ds := NatToString(n);
    var m := IntToString(i);
    UnpaddedStart(m);
    assert Unsigned(m) == ds;
    assert !HexMarked(ds);
    ParseIntToString(i);
  }

  /**
   * A `0x`/`0X` prefix reads the hexadecimal digits that follow; the decimal
   * reading stops at the `x` and gives 0.
   */
  lemma ParseIntAutoHex(hs: string)
    requires |hs| > 0 && AllHexDigits(hs)
    ensures ParseIntAuto("0x" + hs) == Some(HexValue(hs) as int)
    ensures ParseIntAuto("0X" + hs) == Some(HexValue(hs) as int)
    ensures ParseInt("0x" + hs) == Some(0)
  {
    LowerHexReads(hs);
    UpperHexReads(hs);
    DecimalStopsAtX('x', hs);
  }

  lemma LowerHexReads(hs: string)
    requires |hs| > 0 && AllHexDigits(hs)
    ensures ParseIntAuto("0x" + hs) == Some(HexValue(hs) as int)
  {
    ParseHexAll(hs);
    HexMarkedReads('x', hs);
  }

  lemma UpperHexReads(hs: string)
    requires |hs| > 0 && AllHexDigits(hs)
    ensures ParseIntAuto("0X" + hs) == Some(HexValue(hs) as int)
  {
    ParseHexAll(hs);
    HexMarkedReads('X', hs);
  }

  /** `0x` or `0X` with no hexadecimal digit after it is `NaN`, though the decimal reading gives 0. */
  lemma ParseIntAutoBareHex(x: char)
    requires x == 'x' || x == 'X'
    ensures ParseIntAuto(['0', x]) == None
    ensures ParseInt(['0', x]) == Some(0)
  {
    BareHexMarked(x);
    DecimalStopsAtX(x, []);
    assert ['0', x] + [] == ['0', x];
  }

  lemma BareHexMarked(x: char)
    requires x == 'x' || x == 'X'
    ensures ParseIntAuto(['0', x] + []) == None
  {
    HexSplit(x, []);
    UnpaddedStart(['0', x] + []);
    assert ParseHex([]) == None;
  }

  lemma ParseHexAll(hs: string)
    requires |hs| > 0 && AllHexDigits(hs)
    ensures ParseHex(hs) == Some(HexValue(hs))
  {
    HexPrefixAll(hs);
  }

  lemma HexSplit(x: char, hs: string)
    ensures |['0', x] + hs| >= 2 && (['0', x] + hs)[0] == '0' && (['0', x] + hs)[1] == x && (['0', x] + hs)[2..] == hs
  {
  }

  lemma HexMarkedReads(x: char, hs: string)
    requires x == 'x' || x == 'X'
    requires ParseHex(hs).Some?
    ensures ParseIntAuto(['0', x] + hs) == Some(ParseHex(hs).value as int)
  {
    HexSplit(x, hs);
    UnpaddedStart(['0', x] + hs);
    HexMarkedValue(['0', x] + hs);
  }

  /** After a minus sign, `0x` reads the hexadecimal digits that follow and negates them. */
  lemma NegativeHexReads(hs: string)
    requires ParseHex(hs).Some?
    ensures ParseIntAuto("-0x" + hs) == Some(-(ParseHex(hs).value as int))
  {
    MinusHexSplit(hs);
    UnpaddedStart("-0x" + hs);
    HexMarkedValue("-0x" + hs);
  }

  lemma HexMarkedValue(s: string)
    requires HexMarked(Unsigned(s)) && ParseHex(Unsigned(s)[2..]).Some?
    ensures var v := ParseHex(Unsigned(s)[2..]).value;
            ParseIntAuto(s) == Some(if Negative(s) then -(v as int) else v)
  {
  }

  lemma MinusHexSplit(hs: string)
    ensures ("-0x" + hs)[0] == '-' && ("-0x" + hs)[1..] == ['0', 'x'] + hs && (['0', 'x'] + hs)[2..] == hs
  {
  }

  /** The decimal reading of `0` followed by a non-digit is 0. */
  lemma DecimalStopsAtX(x: char, rest: string)
    requires !IsDigit(x)
    ensures ParseInt(['0', x] + rest) == Some(0)
  {
    var m := ['0', x] + rest;
    HexSplit(x, rest);
    UnpaddedStart(m);
    DigitPrefixStops(m);
    assert ['0'][..0] == [];
  }

  lemma DigitPrefixStops(m: string)
    requires |m| >= 2 && m[0] == '0' && !IsDigit(m[1])
    ensures DigitPrefix(m) == ['0']
  {
    assert m[1..][0] == m[1];
  }

  lemma {:induction false} HexPrefixAll(s: string)
    requires AllHexDigits(s)
    ensures HexPrefix(s) == s
  {
    if |s| > 0 {
      HexPrefixAll(s[1..]);
      assert s == [s[0]] + s[1..];
    }
  }

  /** `parseInt` of a two-digit zero-padded number gives the number back. */
  lemma ParseIntPad2(n: nat)
    requires n < 100
    ensures ParseInt(Pad2(NatToString(n))) == Some(n)
  {
    var ds := NatToString(n);
    var p := Pad2(ds);
    if |ds| < 2 {
      assert p == "0" + ds;
      LeadingZero(ds);
      ParseIntDigits(p);
    } else {
      ParseIntDigits(ds);
    }
  }

  lemma {:induction false} DigitPrefixAll(s: string)
    requires AllDigits(s)
    ensures DigitPrefix(s) == s
  {
    if |s| > 0 {
      DigitPrefixAll(s[1..]);
      assert s == [s[0]] + s[1..];
    }
  }

  /** JavaScript's `a % b`: the remainder of division truncated toward zero, carrying the sign of `a`. */
  function JsRem(a: int, b: int): (r: int)
    requires b != 0
    ensures a == b * TruncDiv(a, b) + r
    ensures -(Abs(b) as int) < r < Abs(b)
    ensures r != 0 ==> (r > 0 <==> a > 0)
  {
    var m := Abs(a) % Abs(b);
    TruncDivMod(a, b);
    if a >= 0 then m else -m
  }

  lemma TruncDivMod(a: int, b: int)
    requires b != 0
    ensures a >= 0 ==> a == b * TruncDiv(a, b) + Abs(a) % Abs(b)
    ensures a < 0 ==> a == b * TruncDiv(a, b) - Abs(a) % Abs(b)
  {
    var q := Abs(a) / Abs(b);
    var m := Abs(a) % Abs(b);
    assert Abs(a) == Abs(b) * q + m;
    if b > 0 {
      assert Abs(b) * q == b * q;
      assert b * -q == -(b * q);
    } else {
      assert Abs(b) * q == -(b * q);
      assert b * -q == -(b * q);
    }
  }

  /** Division truncated toward zero, the quotient that goes with `JsRem`. */
  function TruncDiv(a: int, b: int): int
    requires b != 0
  {
    if (a >= 0) == (b > 0) then Abs(a) / Abs(b) else -(Abs(a) / Abs(b))
  }

  function Abs(x: int): nat { if x < 0 then -x else x }

  /**
   * `Math.ceil(total / limit)` of the exact quotient. Dafny's `/` rounds down
   * for a positive divisor, so the ceiling of a quotient is minus the floor
   * of its negation.
   */
  function CeilDiv(total: int, limit: int): (r: int)
    requires limit != 0
    ensures limit > 0 ==> (r - 1) * limit < total <= r * limit
    ensures limit < 0 ==> r * limit <= total < (r - 1) * limit
  {
    if limit > 0 then
      var q := (-total) / limit;
      FloorBounds(-total, limit);
      MulNegate(q, limit);
      MulPredecessor(-q, limit);
      -q
    else
      var q := total / (-limit);
      FloorBounds(total, -limit);
      MulNegate(q, -limit);
      MulNegate(-q, limit);
      MulPredecessor(-q, limit);
      -q
  }

  /** Euclidean division of `a` by a positive `b` rounds down. */
  lemma FloorBounds(a: int, b: int)
    requires b > 0
    ensures (a / b) * b <= a < (a / b) * b + b
  {
    var q, m := a / b, a % b;
    assert a == q * b + m && 0 <= m < b;
  }

  lemma MulNegate(x: int, y: int)
    ensures (-x) * y == -(x * y) && x * (-y) == -(x * y)
  {
  }

  lemma MulPredecessor(x: int, y: int)
    ensures (x - 1) * y == x * y - y
  {
  }
}
