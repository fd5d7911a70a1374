/** Java `int` parsing and printing as used by IntValue and the key parser. */
module Scalars {
  import opened Wrappers

  const INT_MIN: int := -0x8000_0000
  const INT_MAX: int := 0x7fff_ffff

  /** The value fits a Java `int`. */
  predicate IsInt32(i: int) {
    INT_MIN <= i <= INT_MAX
  }

  predicate IsDigit(c: char) {
    '0' <= c <= '9'
  }

  predicate AllDigits(s: string) {
    forall i :: 0 <= i < |s| ==> IsDigit(s[i])
  }

  function DigitValue(c: char): nat
    requires IsDigit(c)
  {
    c as int - '0' as int
  }

  function DigitChar(d: nat): (c: char)
    requires d < 10
    ensures IsDigit(c) && DigitValue(c) == d
  {
    ('0' as int + d) as char
  }

  /** The number a string of decimal digits denotes. */
  function DigitsValue(s: string): nat
    requires AllDigits(s)
  {
    if s == [] then 0 else DigitsValue(s[..|s| - 1]) * 10 + DigitValue(s[|s| - 1])
  }

  /** The shortest decimal digit string of `n`: no leading zero except for 0 itself. */
  function NatString(n: nat): (r: string)
    ensures |r| >= 1 && AllDigits(r) && DigitsValue(r) == n
    ensures r[0] == '0' ==> n == 0 && r == "0"
  {
    if n < 10 then [DigitChar(n)]
    else
      var r := NatString(n / 10) + [DigitChar(n % 10)];
      assert r[..|r| - 1] == NatString(n / 10);
      r
  }

  /** `String.valueOf(int)` (IntValue.toString): a minus sign for negatives, then the digits. */
  function DecimalString(i: int): string {
    if i < 0 then "-" + NatString(-i) else NatString(i)
  }

  /**
   * `Integer.parseInt(s)` in radix 10: an optional `+` or `-`, then at least one decimal
   * digit (leading zeros allowed), denoting a value within the `int` range; None where Java
   * throws NumberFormatException.
   */
  function ParseInt(s: string): (r: Option<int>)
    ensures r.Some? ==> IsInt32(r.value)
  {
    if s == [] then None
    else
      var body := if s[0] == '-' || s[0] == '+' then s[1..] else s;
      if body == [] || !AllDigits(body) then None
      else
        var magnitude: int := DigitsValue(body);
        var n := if s[0] == '-' then -magnitude else magnitude;
        if IsInt32(n) then Some(n) else None
  }

  /** Printing an `int` and parsing it back gives the same `int`. */
  lemma ParseDecimalString(i: int)
    requires IsInt32(i)
    ensures ParseInt(DecimalString(i)) == Some(i)
  {
    var s := DecimalString(i);
    if i < 0 {
      assert s[1..] == NatString(-i);
    } else {
      assert s[0] != '-' && s[0] != '+';
    }
  }

  /** A canonical decimal string is one that parses to an `int` that prints back as the same text. */
  predicate IsCanonicalInt(s: string) {
    ParseInt(s).Some? && DecimalString(ParseInt(s).value) == s
  }

  /** Canonical text is exactly the printed form of an `int`. */
  lemma CanonicalIffPrinted(s: string)
    ensures IsCanonicalInt(s) <==> exists i :: IsInt32(i) && DecimalString(i) == s
  {
    if exists i :: IsInt32(i) && DecimalString(i) == s {
      var i :| IsInt32(i) && DecimalString(i) == s;
      ParseDecimalString(i);
    }
  }
}
