/**
 * The string primitives the DNS core leans on: ASCII case mapping (standing in for
 * String.toUpperCase/toLowerCase), Java's decimal integer parsing (Integer.parseInt and
 * Long.parseLong) and decimal rendering of non-negative numbers (Integer.toString).
 */
module Text {
  import opened Base

  const INT_MIN: int := -0x8000_0000
  const INT_MAX: int := 0x7FFF_FFFF
  const LONG_MIN: int := -0x8000_0000_0000_0000
  const LONG_MAX: int := 0x7FFF_FFFF_FFFF_FFFF

  function UpperChar(c: char): char {
    if 'a' <= c <= 'z' then (c as int - 32) as char else c
  }

  function LowerChar(c: char): char {
    if 'A' <= c <= 'Z' then (c as int + 32) as char else c
  }

  /** Upper-case form of a string (ASCII letters only). */
  function Upper(s: string): string {
    seq(|s|, i requires 0 <= i < |s| => UpperChar(s[i]))
  }

  /** Lower-case form of a string (ASCII letters only). */
  function Lower(s: string): string {
    seq(|s|, i requires 0 <= i < |s| => LowerChar(s[i]))
  }

  /** Case mapping is idempotent, so sanitising an already sanitised string changes nothing. */
  lemma CaseIdempotent(s: string)
    ensures Upper(Upper(s)) == Upper(s)
    ensures Lower(Lower(s)) == Lower(s)
  {
  }

  /** Case mapping distributes over concatenation. */
  lemma CaseAppend(a: string, b: string)
    ensures Upper(a + b) == Upper(a) + Upper(b)
    ensures Lower(a + b) == Lower(a) + Lower(b)
  {
  }

  /** Case-insensitive comparison of Java's String.equalsIgnoreCase, on ASCII. */
  predicate EqualsIgnoreCase(a: string, b: string) {
    Lower(a) == Lower(b)
  }

  /** String.indexOf(char): the first position of c, or -1. */
  function IndexOfChar(s: string, c: char): (r: int)
    ensures -1 <= r < |s|
    ensures r == -1 <==> c !in s
    ensures r >= 0 ==> s[r] == c && c !in s[..r]
    decreases |s|
  {
    if s == [] then -1
    else if s[0] == c then 0
    else
      var k := IndexOfChar(s[1..], c);
      if k < 0 then -1 else k + 1
  }

  predicate IsDigit(c: char) {
    '0' <= c <= '9'
  }

  predicate AllDigits(s: string) {
    forall i :: 0 <= i < |s| ==> IsDigit(s[i])
  }

  /** The value of a string of decimal digits (leading zeros allowed). */
  function DigitsValue(s: string): nat
    requires AllDigits(s)
  {
    if s == [] then 0 else DigitsValue(s[..|s| - 1]) * 10 + (s[|s| - 1] as int - '0' as int)
  }

  /**
   * Java's parseInt/parseLong: an optional '+' or '-', then one or more decimal digits, and the
   * value must lie in [lo, hi]; anything else is a NumberFormatException, here None.
   */
  function ParseDecimal(s: string, lo: int, hi: int): (r: Option<int>)
    ensures r.Some? ==> lo <= r.value <= hi
    ensures r.Some? ==> (|s| > 0 && AllDigits(s)) || (|s| > 1 && (s[0] == '-' || s[0] == '+') && AllDigits(s[1..]))
  {
    if |s| == 0 then None
    else
      var body := if s[0] == '-' || s[0] == '+' then s[1..] else s;
      if |body| == 0 || !AllDigits(body) then None
      else
        var d: int := DigitsValue(body);
        var v := if s[0] == '-' then -d else d;
        if lo <= v <= hi then Some(v) else None
  }

  /** Integer.parseInt: a 32-bit value; plain digits are read as their value when it fits. */
  function ParseInt(s: string): (r: Option<int>)
    ensures r.Some? ==> INT_MIN <= r.value <= INT_MAX
    ensures |s| > 0 && AllDigits(s) ==>
      (r.Some? <==> DigitsValue(s) <= INT_MAX) && (r.Some? ==> r.value == DigitsValue(s))
  {
    ParseDecimal(s, INT_MIN, INT_MAX)
  }

  /** Long.parseLong: a 64-bit value; plain digits are read as their value when it fits. */
  function ParseLong(s: string): (r: Option<int>)
    ensures r.Some? ==> LONG_MIN <= r.value <= LONG_MAX
    ensures |s| > 0 && AllDigits(s) ==>
      (r.Some? <==> DigitsValue(s) <= LONG_MAX) && (r.Some? ==> r.value == DigitsValue(s))
  {
    ParseDecimal(s, LONG_MIN, LONG_MAX)
  }

  function DigitChar(d: nat): char
    requires d < 10
  {
    ('0' as int + d) as char
  }

  /** Integer.toString of a non-negative number: its decimal digits, without leading zeros. */
  function ToDecimal(n: nat): (r: string)
    decreases n
  {
    if n < 10 then [DigitChar(n)] else ToDecimal(n / 10) + [DigitChar(n % 10)]
  }

  /** The rendered digits are digits, start with no sign, and read back as the number. */
  lemma {:induction false} ToDecimalDigits(n: nat)
    ensures |ToDecimal(n)| > 0 && AllDigits(ToDecimal(n))
    ensures DigitsValue(ToDecimal(n)) == n
  {
    if n >= 10 {
      ToDecimalDigits(n / 10);
      var s := ToDecimal(n);
      assert s[..|s| - 1] == ToDecimal(n / 10);
    }
  }

  /** Parsing the decimal rendering of an in-range number gives the number back. */
  lemma ParseToDecimal(n: nat, lo: int, hi: int)
    requires lo <= n <= hi
    ensures ParseDecimal(ToDecimal(n), lo, hi) == Some(n)
  {
    ToDecimalDigits(n);
  }

  /** A string made of digits only, if parsed, is parsed as its digit value. */
  lemma ParseAllDigits(s: string, lo: int, hi: int)
    requires |s| > 0 && AllDigits(s)
    ensures ParseDecimal(s, lo, hi) == if lo <= DigitsValue(s) <= hi then Some(DigitsValue(s)) else None
  {
  }

  /** A sign followed by digits is parsed as the signed digit value, if that value is in range. */
  lemma ParseSigned(d: string, lo: int, hi: int)
    requires |d| > 0 && AllDigits(d)
    ensures ParseDecimal("+" + d, lo, hi) == if lo <= DigitsValue(d) <= hi then Some(DigitsValue(d)) else None
    ensures ParseDecimal("-" + d, lo, hi) == if lo <= 0 - DigitsValue(d) <= hi then Some(0 - DigitsValue(d)) else None
  {
    assert ("+" + d)[1..] == d;
    assert ("-" + d)[1..] == d;
  }
}
