/**
 * The few pieces of JavaScript number-to-string conversion the core relies on:
 * template-literal interpolation of an integer (decimal), `n.toString(16)`,
 * `padStart(2, '0')`, and `parseInt(s, 16)` on hexadecimal digit strings.
 */
module Text {

  predicate IsDecimalDigit(c: char) {
    '0' <= c <= '9'
  }

  predicate IsDecimalString(s: string) {
    forall i :: 0 <= i < |s| ==> IsDecimalDigit(s[i])
  }

  /** One hexadecimal digit, in either case, as accepted by `[a-f\d]` under the `i` flag. */
  predicate IsHexDigit(c: char) {
    ('0' <= c <= '9') || ('a' <= c <= 'f') || ('A' <= c <= 'F')
  }

  predicate IsHexString(s: string) {
    forall i :: 0 <= i < |s| ==> IsHexDigit(s[i])
  }

  predicate IsLowerHexDigit(c: char) {
    ('0' <= c <= '9') || ('a' <= c <= 'f')
  }

  /** The digit JavaScript prints for d (lower-case for 10..15). */
  function DigitChar(d: nat): (c: char)
    requires d < 16
    ensures IsLowerHexDigit(c)
    ensures d < 10 <==> IsDecimalDigit(c)
  {
    "0123456789abcdef"[d]
  }

  function HexDigitValue(c: char): (v: nat)
    requires IsHexDigit(c)
    ensures v < 16
  {
    if '0' <= c <= '9' then (c - '0') as nat
    else if 'a' <= c <= 'f' then (c - 'a') as nat + 10
    else (c - 'A') as nat + 10
  }

  lemma DigitCharValue(d: nat)
    requires d < 16
    ensures IsHexDigit(DigitChar(d)) && HexDigitValue(DigitChar(d)) == d
  {
  }

  lemma LowerHexDigitChar(c: char)
    requires IsLowerHexDigit(c)
    ensures IsHexDigit(c) && DigitChar(HexDigitValue(c)) == c
  {
  }

  /** `${n}` for a non-negative integer: decimal, no leading zeros. */
  function NatToDecimal(n: nat): (s: string)
    ensures 1 <= |s| && IsDecimalString(s)
    ensures s[0] == '0' ==> n == 0
    decreases n
  {
    if n < 10 then [DigitChar(n)] else NatToDecimal(n / 10) + [DigitChar(n % 10)]
  }

  predicate HasNoSpace(s: string) {
    forall i :: 0 <= i < |s| ==> s[i] != ' '
  }

  /** `${n}` for any integer. */
  function IntToDecimal(n: int): (s: string)
    ensures 1 <= |s| && HasNoSpace(s)
    ensures n < 0 <==> s[0] == '-'
  {
    if n < 0 then "-" + NatToDecimal(-n) else NatToDecimal(n)
  }

  /** The value of a string of decimal digits. */
  function DecimalValue(s: string): nat
    requires IsDecimalString(s)
  {
    if s == [] then 0 else DecimalValue(s[..|s| - 1]) * 10 + (s[|s| - 1] - '0') as nat
  }

  /** Printing a natural number in decimal loses nothing. */
  lemma {:induction false} DecimalRoundTrip(n: nat)
    ensures DecimalValue(NatToDecimal(n)) == n
  {
    var s := NatToDecimal(n);
    if n >= 10 {
      var t, d := n / 10, n % 10;
      DecimalRoundTrip(t);
      assert s[..|s| - 1] == NatToDecimal(t) && s[|s| - 1] == DigitChar(d);
      DigitCharValue(d);
    } else {
      DigitCharValue(n);
    }
  }

  /** Printing a natural number is injective. */
  lemma NatToDecimalInjective(a: nat, b: nat)
    requires NatToDecimal(a) == NatToDecimal(b)
    ensures a == b
  {
    DecimalRoundTrip(a);
    DecimalRoundTrip(b);
  }

  /** Integer printing is injective, so every label built from it can be read back. */
  lemma IntToDecimalInjective(a: int, b: int)
    requires IntToDecimal(a) == IntToDecimal(b)
    ensures a == b
  {
    if a < 0 {
      assert b < 0;
      NegativeDecimalInjective(a, b);
    } else {
      assert b >= 0;
      NatToDecimalInjective(a, b);
    }
  }

  /** Two negative numbers print alike only if their magnitudes do. */
  lemma NegativeDecimalInjective(a: int, b: int)
    requires a < 0 && b < 0 && IntToDecimal(a) == IntToDecimal(b)
    ensures a == b
  {
    var x, y := -a, -b;
    DropPrefix("-", NatToDecimal(x), NatToDecimal(y));
    NatToDecimalInjective(x, y);
  }

  /** `n.toString(16)` for a non-negative integer: lower-case, no leading zeros. */
  function NatToHex(n: nat): (s: string)
    ensures 1 <= |s|
    ensures forall i :: 0 <= i < |s| ==> IsLowerHexDigit(s[i])
    ensures n < 16 <==> |s| == 1
    decreases n
  {
    if n < 16 then [DigitChar(n)] else NatToHex(n / 16) + [DigitChar(n % 16)]
  }

  /** `n.toString(16)` for any integer: a minus sign precedes the magnitude. */
  function IntToHex(n: int): string {
    if n < 0 then "-" + NatToHex(-n) else NatToHex(n)
  }

  /** `s.padStart(width, '0')`. */
  function PadStartZeros(s: string, width: nat): (r: string)
    ensures |r| == if |s| >= width then |s| else width
    ensures r[|r| - |s|..] == s
    ensures forall i :: 0 <= i < |r| - |s| ==> r[i] == '0'
  {
    if |s| >= width then s else seq(width - |s|, _ => '0') + s
  }

  /** A space-free field followed by a space can be split off again unambiguously. */
  lemma SplitAtSpace(a1: string, b1: string, a2: string, b2: string)
    requires HasNoSpace(a1) && HasNoSpace(a2)
    requires a1 + (" " + b1) == a2 + (" " + b2)
    ensures a1 == a2 && b1 == b2
  {
    var s := a1 + (" " + b1);
    assert s[|a1|] == ' ' && forall i :: 0 <= i < |a1| ==> s[i] != ' ';
    assert s[|a2|] == ' ' && forall i :: 0 <= i < |a2| ==> s[i] != ' ';
    assert |a1| == |a2|;
    assert a1 == s[..|a1|] == a2;
    assert b1 == s[|a1| + 1..] == b2;
  }

  /** Equal strings with a common prefix agree after it. */
  lemma DropPrefix(pre: string, x: string, y: string)
    requires pre + x == pre + y
    ensures x == y
  {
    assert x == (pre + x)[|pre|..];
  }

  /** A space-free field followed by nothing or by a part starting with a space splits off unambiguously. */
  lemma SplitBeforeSpace(a1: string, b1: string, a2: string, b2: string)
    requires HasNoSpace(a1) && HasNoSpace(a2)
    requires (b1 == [] || b1[0] == ' ') && (b2 == [] || b2[0] == ' ')
    requires a1 + b1 == a2 + b2
    ensures a1 == a2 && b1 == b2
  {
    var s := a1 + b1;
    assert (|a1| < |s| ==> s[|a1|] == ' ') && forall i :: 0 <= i < |a1| ==> s[i] != ' ';
    assert (|a2| < |s| ==> s[|a2|] == ' ') && forall i :: 0 <= i < |a2| ==> s[i] != ' ';
    assert |a1| == |a2|;
    assert a1 == s[..|a1|] == a2;
    assert b1 == s[|a1|..] == b2;
  }
}
