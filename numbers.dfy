/**
 * `Number.parseInt` with no radix, and the decimal rendering of an integer it reads back: leading
 * white space is skipped, one sign is read, `0x` or `0X` switches to base 16, and the longest run of
 * digits that follows is the value. No digit at all is `NaN`, modelled as `None`.
 */
module Numbers {
  import opened Wrappers
  import opened Text

  /** The value of `c` as a digit of base `radix` (10 or 16), when it is one. */
  function DigitValue(c: char, radix: nat): Option<nat> {
    if '0' <= c <= '9' && c as int - '0' as int < radix then Some(c as int - '0' as int)
    else if radix == 16 && 'a' <= c <= 'f' then Some(c as int - 'a' as int + 10)
    else if radix == 16 && 'A' <= c <= 'F' then Some(c as int - 'A' as int + 10)
    else None
  }

  predicate IsDigitOf(c: char, radix: nat) { DigitValue(c, radix).Some? }

  /** The length of the run of base-`radix` digits at the start of `s`. */
  function DigitRun(s: string, radix: nat): (n: nat)
    ensures n <= |s|
    ensures forall k :: 0 <= k < n ==> IsDigitOf(s[k], radix)
    ensures n == |s| || !IsDigitOf(s[n], radix)
  {
    if s == [] || !IsDigitOf(s[0], radix) then 0 else 1 + DigitRun(s[1..], radix)
  }

  /** The value of a string of digits, most significant first. */
  function DigitsValue(s: string, radix: nat): nat
    requires radix == 10 || radix == 16
    requires forall k :: 0 <= k < |s| ==> IsDigitOf(s[k], radix)
  {
    if s == [] then 0
    else
      assert IsDigitOf(s[|s| - 1], radix);
      (if radix == 10 then 10 else 16) * DigitsValue(s[..|s| - 1], radix) + DigitValue(s[|s| - 1], radix).value
  }

  /** The digits after the sign: base 16 after `0x` or `0X`, base 10 otherwise; no digit at all is `NaN`. */
  function ParseDigits(v: string): Option<nat> {
    var hex := |v| >= 2 && v[0] == '0' && (v[1] == 'x' || v[1] == 'X');
    var radix := if hex then 16 else 10;
    var w := if hex then v[2..] else v;
    var n := DigitRun(w, radix);
    if n == 0 then None else Some(DigitsValue(w[..n], radix))
  }

  /** `Number.parseInt(s)`: the leading digits after white space and one sign. */
  function ParseInt(s: string): Option<int> {
    var u := TrimStart(s);
    if |u| > 0 && u[0] == '-' then
      match ParseDigits(u[1..])
      case None => None
      case Some(m) => Some(-(m as int))
    else
      match ParseDigits(if |u| > 0 && u[0] == '+' then u[1..] else u)
      case None => None
      case Some(m) => Some(m as int)
  }

  function DecimalDigit(d: nat): char
    requires d < 10
  {
    ('0' as int + d) as char
  }

  /** The decimal digits of `n`, as `String(n)` writes them. */
  function NatToString(n: nat): (r: string)
    ensures |r| >= 1
    ensures forall k :: 0 <= k < |r| ==> IsDigitOf(r[k], 10)
    decreases n
  {
    if n < 10 then [DecimalDigit(n)] else NatToString(n / 10) + [DecimalDigit(n % 10)]
  }

  /** `String(i)` of an integer: a minus sign before the digits of a negative one. */
  function IntToString(i: int): string {
    if i < 0 then "-" + NatToString(-i) else NatToString(i)
  }

  /** The digits of `n` are worth `n`. */
  lemma {:induction false} NatToStringValue(n: nat)
    ensures DigitsValue(NatToString(n), 10) == n
    decreases n
  {
    var s := NatToString(n);
    if n >= 10 {
      NatToStringValue(n / 10);
      assert s[..|s| - 1] == NatToString(n / 10);
    }
  }

  /** Only zero is written with a leading `0`. */
  lemma {:induction false} NatToStringLeading(n: nat)
    ensures n > 0 ==> NatToString(n)[0] != '0'
    decreases n
  {
    if n >= 10 {
      NatToStringLeading(n / 10);
      assert NatToString(n)[0] == NatToString(n / 10)[0];
    }
  }

  /** The digit run of `NatToString(n) + rest` is `NatToString(n)` itself when `rest` does not start with a digit. */
  lemma DigitRunOfDecimal(n: nat, rest: string)
    requires rest == [] || !IsDigitOf(rest[0], 10)
    ensures DigitRun(NatToString(n) + rest, 10) == |NatToString(n)|
    ensures (NatToString(n) + rest)[..|NatToString(n)|] == NatToString(n)
  {
    var d := NatToString(n);
    var s := d + rest;
    assert forall k :: 0 <= k < |d| ==> s[k] == d[k];
    assert |s| == |d| || s[|d|] == rest[0];
  }

  /** Text that starts with a character other than white space is its own `TrimStart`. */
  lemma TrimStartNoSpace(s: string)
    requires s != [] && !IsSpace(s[0])
    ensures TrimStart(s) == s
  {
  }

  /** The digits `String` writes for `n`, followed by a non-digit, are read as `n` in base 10. */
  lemma ParseDigitsDecimal(n: nat, rest: string)
    requires rest == [] || !IsDigitOf(rest[0], 10)
    requires n != 0 || rest == [] || (rest[0] != 'x' && rest[0] != 'X')
    ensures ParseDigits(NatToString(n) + rest) == Some(n)
  {
    var d := NatToString(n);
    var v := d + rest;
    NatToStringValue(n);
    NatToStringLeading(n);
    DigitRunOfDecimal(n, rest);
    assert v[0] == d[0];
    assert !(|v| >= 2 && v[0] == '0' && (v[1] == 'x' || v[1] == 'X')) by {
      if |d| >= 2 {
        assert v[1] == d[1];
        assert IsDigitOf(d[1], 10);
      } else if |v| >= 2 {
        assert v[1] == rest[0];
      }
    }
  }

  /** Text that starts with a digit is read without a sign. */
  lemma ParseIntUnsigned(v: string)
    requires v != [] && IsDigitOf(v[0], 10)
    ensures ParseDigits(v).Some? ==> ParseInt(v) == Some(ParseDigits(v).value as int)
  {
    TrimStartNoSpace(v);
  }

  /** A leading `-` negates what the digits after it are worth. */
  lemma ParseIntNegative(v: string)
    ensures ParseDigits(v).Some? ==> ParseInt("-" + v) == Some(-(ParseDigits(v).value as int))
  {
    var s := "-" + v;
    TrimStartNoSpace(s);
    assert s[1..] == v;
  }

  lemma ConcatAssoc(a: string, b: string, c: string)
    ensures (a + b) + c == a + (b + c)
  {
  }

  /** The digits of `n` followed by a non-digit are read as `n`. */
  lemma ParseIntNat(n: nat, rest: string)
    requires rest == [] || !IsDigitOf(rest[0], 10)
    requires n != 0 || rest == [] || (rest[0] != 'x' && rest[0] != 'X')
    ensures ParseInt(NatToString(n) + rest) == Some(n as int)
  {
    var v := NatToString(n) + rest;
    ParseDigitsDecimal(n, rest);
    assert v[0] == NatToString(n)[0];
    ParseIntUnsigned(v);
  }

  /** With a `-` before them, they are read as `-n`. */
  lemma ParseIntNegatedNat(n: nat, rest: string)
    requires rest == [] || !IsDigitOf(rest[0], 10)
    requires n != 0 || rest == [] || (rest[0] != 'x' && rest[0] != 'X')
    ensures ParseInt(("-" + NatToString(n)) + rest) == Some(-(n as int))
  {
    var v := NatToString(n) + rest;
    ParseDigitsDecimal(n, rest);
    ParseIntNegative(v);
    ConcatAssoc("-", NatToString(n), rest);
  }

  /**
   * `parseInt` reads back what `String` writes, and stops at the first character that is not a
   * digit: `parseInt("12abc")` is 12. Only a `0` directly followed by `x` would be read as base 16.
   */
  lemma ParseIntPrefix(i: int, rest: string)
    requires rest == [] || !IsDigitOf(rest[0], 10)
    requires i != 0 || rest == [] || (rest[0] != 'x' && rest[0] != 'X')
    ensures ParseInt(IntToString(i) + rest) == Some(i)
  {
    if i < 0 {
      ParseIntNegatedNat(-i, rest);
    } else {
      ParseIntNat(i, rest);
    }
  }

  /** `parseInt` of a text whose first non-blank character is neither a sign nor a digit is `NaN`. */
  lemma ParseIntNaN(s: string)
    requires var u := TrimStart(s); u == [] || (u[0] != '-' && u[0] != '+' && !IsDigitOf(u[0], 10))
    ensures ParseInt(s).None?
  {
  }

  /** `parseInt("abc")` is `NaN`. */
  lemma ParseIntLetters()
    ensures ParseInt("abc").None?
  {
    var abc: string := "abc";
    TrimStartNoSpace(abc);
    ParseIntNaN(abc);
  }

  /** `parseInt("12abc")` is 12. */
  lemma ParseIntDigitsThenLetters()
    ensures ParseInt("12abc") == Some(12)
  {
    var abc: string := "abc";
    assert NatToString(1) == "1";
    assert NatToString(12) == "12";
    assert NatToString(12) + abc == "12abc";
    ParseIntNat(12, abc);
  }
}
