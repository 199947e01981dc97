/**
 * Code-point classes and the small string conversions the tokenizer, the
 * serialisers and the matchers share: ident code points (section 4.2 of CSS
 * Syntax Module Level 3), hexadecimal and decimal digits, and ASCII case.
 */
module Chars {

  /** The replacement character U+FFFD. */
  const REPLACEMENT: char := '\U{FFFD}'

  predicate IsDigit(c: char) { '0' <= c <= '9' }

  predicate IsAsciiLetter(c: char) { 'a' <= c <= 'z' || 'A' <= c <= 'Z' }

  /** The non-ASCII ranges that count as ident code points. */
  predicate IsNonAsciiIdent(c: char)
  {
    var x := c as int;
    x == 0xB7 || 0xC0 <= x <= 0xD6 || 0xD8 <= x <= 0xF6 || 0xF8 <= x <= 0x37D
    || 0x37F <= x <= 0x1FFF || x == 0x200C || x == 0x200D || x == 0x203F || x == 0x2040
    || 0x2070 <= x <= 0x218F || 0x2C00 <= x <= 0x2FEF || 0x3001 <= x <= 0xD7FF
    || 0xF900 <= x <= 0xFDCF || 0xFDF0 <= x <= 0xFFFD || 0x10000 <= x <= 0x10FFFF
  }

  /** `[a-zA-Z_]` plus the non-ASCII ident ranges. */
  predicate IsIdentStart(c: char) { IsAsciiLetter(c) || c == '_' || IsNonAsciiIdent(c) }

  /** An ident-start code point, a digit or '-'. */
  predicate IsIdentCodePoint(c: char) { IsIdentStart(c) || IsDigit(c) || c == '-' }

  /** U+0000-U+0008, U+000B, U+000E-U+001F and U+007F. */
  predicate IsNonPrintable(c: char)
  {
    var x := c as int;
    x <= 8 || x == 0xB || 0xE <= x <= 0x1F || x == 0x7F
  }

  /** The whitespace of the normalised text: space, tab and line feed. */
  predicate IsCssWhitespace(c: char) { c == ' ' || c == '\t' || c == '\n' }

  /** What a PCRE `\s` matches in a pattern without the `/u` modifier: space, \t, \n, \v, \f and \r. */
  predicate IsSpace(c: char)
  {
    c == ' ' || c == '\t' || c == '\n' || c == '\U{000B}' || c == '\U{000C}' || c == '\r'
  }

  /**
   * What a PCRE `\s` matches under `/u`, which turns on Unicode properties: the
   * ASCII spaces, the separators (Zs, Zl, Zp), the next-line control U+0085
   * and the Mongolian vowel separator U+180E.
   */
  predicate IsUnicodeSpace(c: char)
    ensures IsSpace(c) ==> IsUnicodeSpace(c)
  {
    var x := c as int;
    IsSpace(c) || x == 0x85 || x == 0xA0 || x == 0x1680 || x == 0x180E || 0x2000 <= x <= 0x200A
    || x == 0x2028 || x == 0x2029 || x == 0x202F || x == 0x205F || x == 0x3000
  }

  function AsciiLower(c: char): (r: char)
    ensures 'A' <= c <= 'Z' ==> r as int == c as int + 32
    ensures !('A' <= c <= 'Z') ==> r == c
  {
    if 'A' <= c <= 'Z' then (c as int + 32) as char else c
  }

  /** `strtolower`: ASCII letters are lowered, everything else is kept. */
  function Lower(s: string): (r: string)
    ensures |r| == |s|
    ensures forall i :: 0 <= i < |s| ==> r[i] == AsciiLower(s[i])
  {
    if s == [] then [] else [AsciiLower(s[0])] + Lower(s[1..])
  }

  predicate IsHexDigit(c: char) { '0' <= c <= '9' || 'a' <= c <= 'f' || 'A' <= c <= 'F' }

  predicate AllHex(s: string) { forall i :: 0 <= i < |s| ==> IsHexDigit(s[i]) }

  function HexDigitValue(c: char): (v: nat)
    requires IsHexDigit(c)
    ensures v < 16
  {
    if '0' <= c <= '9' then c as int - '0' as int
    else if 'a' <= c <= 'f' then c as int - 'a' as int + 10
    else c as int - 'A' as int + 10
  }

  /** The upper-case hexadecimal digit of a value below 16. */
  function HexDigit(d: nat): (c: char)
    requires d < 16
    ensures IsHexDigit(c) && HexDigitValue(c) == d
    ensures !('a' <= c <= 'z')
  {
    if d < 10 then ('0' as int + d) as char else ('A' as int + d - 10) as char
  }

  /** `hexdec` of a string of hex digits; the empty string gives 0. */
  function HexValue(s: string): nat
    requires AllHex(s)
  {
    if s == [] then 0 else HexValue(s[..|s| - 1]) * 16 + HexDigitValue(s[|s| - 1])
  }

  /** `strtoupper(dechex(n))`, also `sprintf('%X', n)`. */
  function ToHex(n: nat): (s: string)
    ensures |s| >= 1 && AllHex(s)
    ensures forall i :: 0 <= i < |s| ==> !('a' <= s[i] <= 'z')
    decreases n
  {
    if n < 16 then [HexDigit(n)] else ToHex(n / 16) + [HexDigit(n % 16)]
  }

  /** Reading back the printed hexadecimal gives the value. */
  lemma {:induction false} HexRoundTrip(n: nat)
    ensures HexValue(ToHex(n)) == n
    decreases n
  {
    if n >= 16 {
      HexRoundTrip(n / 16);
      var s := ToHex(n);
      assert s[..|s| - 1] == ToHex(n / 16);
    }
  }

  /** The printed hexadecimal has no leading zero. */
  lemma {:induction false} ToHexCanonical(n: nat)
    ensures ToHex(n)[0] == '0' <==> n == 0
    decreases n
  {
    if n >= 16 {
      ToHexCanonical(n / 16);
    }
  }

  /** Values below 16^k print in at most k digits. */
  lemma {:induction false} ToHexLength(n: nat, k: nat, bound: nat)
    requires bound == Pow16(k) && n < bound
    ensures |ToHex(n)| <= if k == 0 then 1 else k
    decreases k
  {
    if n >= 16 {
      ToHexLength(n / 16, k - 1, Pow16(k - 1));
    }
  }

  function Pow16(k: nat): (p: nat)
    ensures p >= 1
  {
    if k == 0 then 1 else 16 * Pow16(k - 1)
  }

  /** Every code point prints in at most six hex digits, below U+10000 in at most four. */
  lemma CodePointHexLength(c: char)
    ensures |ToHex(c as int)| <= 6
    ensures c as int < 0x10000 ==> |ToHex(c as int)| <= 4
    ensures c as int < 0x100000 ==> |ToHex(c as int)| <= 5
  {
    assert Pow16(4) == 0x10000;
    assert Pow16(5) == 0x100000;
    assert Pow16(6) == 0x1000000;
    if c as int < 0x10000 {
      ToHexLength(c as int, 4, Pow16(4));
    } else if c as int < 0x100000 {
      ToHexLength(c as int, 5, Pow16(5));
    } else {
      ToHexLength(c as int, 6, Pow16(6));
    }
  }

  predicate AllDigits(s: string) { forall i :: 0 <= i < |s| ==> IsDigit(s[i]) }

  /** The value of a string of decimal digits; the empty string gives 0. */
  function DecimalValue(s: string): nat
    requires AllDigits(s)
  {
    if s == [] then 0 else DecimalValue(s[..|s| - 1]) * 10 + (s[|s| - 1] as int - '0' as int)
  }

  function DecimalDigits(n: nat): (s: string)
    ensures |s| >= 1 && AllDigits(s)
    decreases n
  {
    if n < 10 then [('0' as int + n) as char]
    else DecimalDigits(n / 10) + [('0' as int + n % 10) as char]
  }

  /** `strval` of an integer: optional '-' then the decimal digits. */
  function IntToString(i: int): (s: string)
    ensures |s| >= 1
    ensures (s[0] == '-') == (i < 0)
  {
    if i < 0 then "-" + DecimalDigits(-i) else DecimalDigits(i)
  }

  lemma {:induction false} DecimalRoundTrip(n: nat)
    ensures DecimalValue(DecimalDigits(n)) == n
    decreases n
  {
    if n >= 10 {
      DecimalRoundTrip(n / 10);
      var s := DecimalDigits(n);
      assert s[..|s| - 1] == DecimalDigits(n / 10);
    }
  }
}
