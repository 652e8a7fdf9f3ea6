/**
 * Decimal and hexadecimal rendering of integers, as Python's `str(int)` and
 * `'{0:04x}'.format(n)` produce them, together with the parsers that read
 * them back. The output formatters use the renderers; the decoders that
 * check the formatters' round trips use the parsers.
 */
module Strings {
  import opened Wrappers

  predicate IsDigit(c: char) {
    '0' <= c <= '9'
  }

  predicate AllDigits(s: string) {
    forall i :: 0 <= i < |s| ==> IsDigit(s[i])
  }

  function DigitValue(c: char): (d: nat)
    requires IsDigit(c)
    ensures d < 10
  {
    c as int - '0' as int
  }

  function DigitChar(d: nat): (c: char)
    requires d < 10
    ensures IsDigit(c) && DigitValue(c) == d
  {
    ('0' as int + d) as char
  }

  /** `str(n)` for a non-negative integer: its decimal digits, most significant first. */
  function NatToString(n: nat): (s: string)
    ensures s != [] && AllDigits(s)
  {
    if n < 10 then [DigitChar(n)] else NatToString(n / 10) + [DigitChar(n % 10)]
  }

  /** `str(n)` for any integer: a minus sign before the digits of a negative number. */
  function IntToString(n: int): (s: string)
    ensures s != [] && (n >= 0 <==> IsDigit(s[0])) && (n < 0 <==> s[0] == '-')
  {
    if n < 0 then "-" + NatToString(-n) else NatToString(n)
  }

  /** The value of a string of decimal digits. */
  function DigitsValue(s: string): nat
    requires AllDigits(s)
  {
    if s == [] then 0 else DigitsValue(s[..|s| - 1]) * 10 + DigitValue(s[|s| - 1])
  }

  lemma {:induction false} NatToStringValue(n: nat)
    ensures DigitsValue(NatToString(n)) == n
  {
    if n >= 10 {
      var s := NatToString(n);
      assert s[..|s| - 1] == NatToString(n / 10);
      NatToStringValue(n / 10);
    }
  }

  /** The number of decimal digits at the front of `s`. */
  function LeadingDigits(s: string): (k: nat)
    ensures k <= |s| && AllDigits(s[..k]) && (k < |s| ==> !IsDigit(s[k]))
  {
    if s == [] || !IsDigit(s[0]) then 0
    else
      var k := 1 + LeadingDigits(s[1..]);
      assert s[..k] == [s[0]] + s[1..][..k - 1];
      k
  }

  lemma {:induction false} LeadingDigitsOf(ds: string, rest: string)
    requires AllDigits(ds)
    requires rest == [] || !IsDigit(rest[0])
    ensures LeadingDigits(ds + rest) == |ds|
  {
    if ds == [] {
      assert ds + rest == rest;
    } else {
      assert (ds + rest)[1..] == ds[1..] + rest;
      LeadingDigitsOf(ds[1..], rest);
    }
  }

  /** Reads the longest run of decimal digits at the front of `s`; fails when there is none. */
  function ParseNat(s: string): (r: Option<(nat, string)>)
    ensures r.Some? ==> |r.value.1| < |s|
  {
    var k := LeadingDigits(s);
    if k == 0 then None else Some((DigitsValue(s[..k]), s[k..]))
  }

  /** Reads an optional minus sign and a run of digits. */
  function ParseInt(s: string): (r: Option<(int, string)>)
    ensures r.Some? ==> |r.value.1| < |s|
  {
    if s != [] && s[0] == '-' then
      match ParseNat(s[1..])
      case None => None
      case Some((v, t)) => Some((-(v as int), t))
    else
      match ParseNat(s)
      case None => None
      case Some((v, t)) => Some((v, t))
  }

  lemma ParseNatRoundTrip(n: nat, rest: string)
    requires rest == [] || !IsDigit(rest[0])
    ensures ParseNat(NatToString(n) + rest) == Some((n, rest))
  {
    var ds := NatToString(n);
    LeadingDigitsOf(ds, rest);
    assert (ds + rest)[..|ds|] == ds;
    assert (ds + rest)[|ds|..] == rest;
    NatToStringValue(n);
  }

  /** Reading back what `str` printed, when the next character is not a digit, gives the number back. */
  lemma ParseIntRoundTrip(n: int, rest: string)
    requires rest == [] || !IsDigit(rest[0])
    ensures ParseInt(IntToString(n) + rest) == Some((n, rest))
  {
    if n < 0 {
      assert ("-" + NatToString(-n) + rest)[1..] == NatToString(-n) + rest;
      ParseNatRoundTrip(-n, rest);
    } else {
      ParseNatRoundTrip(n, rest);
    }
  }

  predicate IsLowerHex(c: char) {
    '0' <= c <= '9' || 'a' <= c <= 'f'
  }

  function HexChar(d: nat): (c: char)
    requires d < 16
    ensures IsLowerHex(c)
  {
    if d < 10 then ('0' as int + d) as char else ('a' as int + d - 10) as char
  }

  /** The value of one hexadecimal digit, in either case. */
  function HexValue(c: char): (r: Option<nat>)
    ensures r.Some? ==> r.value < 16
  {
    if '0' <= c <= '9' then Some(c as int - '0' as int)
    else if 'a' <= c <= 'f' then Some(c as int - 'a' as int + 10)
    else if 'A' <= c <= 'F' then Some(c as int - 'A' as int + 10)
    else None
  }

  /** `'{0:04x}'.format(n)`: four lower-case hexadecimal digits. */
  function Hex4(n: nat): (s: string)
    requires n < 0x10000
    ensures |s| == 4 && forall i :: 0 <= i < 4 ==> IsLowerHex(s[i])
  {
    var q1 := n / 16;
    var q2 := q1 / 16;
    [HexChar(q2 / 16), HexChar(q2 % 16), HexChar(q1 % 16), HexChar(n % 16)]
  }

  /** The value of exactly four hexadecimal digits. */
  function ParseHex4(s: string): (r: Option<nat>)
    requires |s| == 4
    ensures r.Some? ==> r.value < 0x10000
  {
    match (HexValue(s[0]), HexValue(s[1]), HexValue(s[2]), HexValue(s[3]))
    case (Some(a), Some(b), Some(c), Some(d)) => Some(((a * 16 + b) * 16 + c) * 16 + d)
    case _ => None
  }

  lemma Hex4RoundTrip(n: nat)
    requires n < 0x10000
    ensures ParseHex4(Hex4(n)) == Some(n)
  {
    var q1 := n / 16;
    var q2 := q1 / 16;
    assert HexValue(HexChar(q2 / 16)) == Some(q2 / 16);
    assert HexValue(HexChar(q2 % 16)) == Some(q2 % 16);
    assert HexValue(HexChar(q1 % 16)) == Some(q1 % 16);
    assert HexValue(HexChar(n % 16)) == Some(n % 16);
  }

  // ---------------------------------------------------------------------
  // Reading literals, and regrouping concatenations

  /** Consumes `lit` at the front of `s`. */
  function Expect(lit: string, s: string): (r: Option<string>)
    ensures r.Some? ==> |r.value| == |s| - |lit| && s == lit + r.value
  {
    if |lit| <= |s| && s[..|lit|] == lit then Some(s[|lit|..]) else None
  }

  lemma ExpectOf(lit: string, rest: string)
    ensures Expect(lit, lit + rest) == Some(rest)
  {
    assert (lit + rest)[..|lit|] == lit;
    assert (lit + rest)[|lit|..] == rest;
  }

  lemma ConcatAssoc(x: string, y: string, z: string)
    ensures (x + y) + z == x + (y + z)
  {
  }

  lemma Regroup4(a: string, b: string, c: string, d: string)
    ensures a + b + c + d == a + (b + c + d)
  {
    ConcatAssoc(a, b, c);
    ConcatAssoc(a, b + c, d);
  }

  lemma Regroup5(a: string, b: string, c: string, d: string, e: string)
    ensures a + b + c + d + e == a + (b + c + d + e)
  {
    ConcatAssoc(a, b, c);
    ConcatAssoc(a, b + c, d);
    ConcatAssoc(a, b + c + d, e);
  }

  lemma Regroup6(a: string, b: string, c: string, d: string, e: string, f: string)
    ensures a + b + c + d + e + f == a + (b + c + d + e + f)
  {
    Regroup5(a, b, c, d, e);
    ConcatAssoc(a, b + c + d + e, f);
  }
}
