/**
 * The CSS tokens (section 4 of CSS Syntax Module Level 3) as one datatype,
 * with the serialisers that print a token back as CSS text.
 */
module Tokens {
  import opened Chars

  datatype Symbol =
    | Colon | Comma | Semicolon
    | LeftParenthesis | RightParenthesis
    | LeftSquareBracket | RightSquareBracket
    | LeftCurlyBracket | RightCurlyBracket
    | Cdc | Cdo

  /** The source text of a symbol. */
  function SymbolText(s: Symbol): string
  {
    match s
    case Colon => ":"
    case Comma => ","
    case Semicolon => ";"
    case LeftParenthesis => "("
    case RightParenthesis => ")"
    case LeftSquareBracket => "["
    case RightSquareBracket => "]"
    case LeftCurlyBracket => "{"
    case RightCurlyBracket => "}"
    case Cdc => "-->"
    case Cdo => "<!--"
  }

  /**
   * A numeric literal: its text, the two flags the tokenizer derives from
   * it, and its exact value (-1)^negative * digits * 10^exponent.
   */
  datatype Num = Num(text: string, isInt: bool, hasSign: bool, negative: bool, digits: nat, exponent: int)

  /** The magnitude digits * 10^exponent, truncated toward zero. */
  function Scaled(digits: nat, exponent: int): nat
  {
    if exponent >= 0 then ScaleUp(digits, exponent) else ScaleDown(digits, -exponent)
  }

  /** digits * 10^k. */
  function ScaleUp(digits: nat, k: nat): nat
    decreases k
  {
    if k == 0 then digits else ScaleUp(digits * 10, k - 1)
  }

  /** digits / 10^k, one digit dropped at a time. */
  function ScaleDown(digits: nat, k: nat): nat
    decreases k
  {
    if k == 0 then digits else ScaleDown(digits / 10, k - 1)
  }

  /** `(int) value`: the value truncated toward zero. */
  function IntVal(n: Num): (v: int)
    ensures n.exponent == 0 && n.negative ==> v == -(n.digits as int)
    ensures n.exponent == 0 && !n.negative ==> v == n.digits as int
    ensures n.negative ==> v <= 0
    ensures !n.negative ==> v >= 0
  {
    var magnitude := Scaled(n.digits, n.exponent);
    if n.negative then -(magnitude as int) else magnitude as int
  }

  datatype TokenKind =
    | Ident(value: string)
    | Function(value: string)
    | AtKeyword(value: string)
    | Hash(value: string, isIdType: bool)
    | Str(value: string)
    | BadString
    | Url(value: string)
    | BadUrl
    | Delim(delim: char)
    | Number(num: Num)
    | Percentage(num: Num)
    | Dimension(num: Num, unit: string)
    | UnicodeRange(start: nat, end: nat)
    | Whitespace
    | Sym(symbol: Symbol)

  /** A token with the offset it starts at and its length in the normalised text. */
  datatype Token = Token(kind: TokenKind, offset: nat, length: nat)

  /** The character sets the serialisers escape. */
  datatype EscapeSet =
    | IdentFirst   // anything but '-' and ident-start code points
    | IdentRest    // anything but ident code points
    | StringChars  // '"', line feed and backslash
    | UrlChars     // quotes, parentheses, backslash, Unicode `\s` and non-printables

  /**
   * The characters a set escapes. The backslash is escaped by every set, so
   * an escaped text never holds a backslash that does not start an escape;
   * the rest-of-ident set escapes nothing the ident-start set keeps.
   */
  predicate NeedsEscape(k: EscapeSet, c: char)
    ensures c == '\\' ==> NeedsEscape(k, c)
    ensures k == IdentRest && NeedsEscape(k, c) ==> c != '-' && !IsIdentStart(c)
  {
    match k
    case IdentFirst => !(c == '-' || IsIdentStart(c))
    case IdentRest => !IsIdentCodePoint(c)
    case StringChars => c == '"' || c == '\n' || c == '\\'
    case UrlChars => c == '"' || c == '\'' || c == '(' || c == ')' || c == '\\' || IsUnicodeSpace(c) || IsNonPrintable(c)
  }

  /** One escaped code point: backslash, upper-case hex, a space unless the hex has six digits. */
  function EscapeCodePoint(c: char): string
  {
    var hex := ToHex(c as int);
    "\\" + hex + (if |hex| < 6 then " " else "")
  }

  /** `escape`: each character of the set is escaped, the others are copied. */
  function Escape(s: string, k: EscapeSet): (r: string)
    ensures |r| >= |s|
    decreases |s|
  {
    if s == [] then "" else (if NeedsEscape(k, s[0]) then EscapeCodePoint(s[0]) else [s[0]]) + Escape(s[1..], k)
  }

  /** `escapeIdent`: the first character against the ident-start set, the rest against ident code points. */
  function EscapeIdent(s: string): (r: string)
    ensures |r| >= |s|
  {
    if s == [] then "" else Escape(s[..1], IdentFirst) + Escape(s[1..], IdentRest)
  }

  /** A number as printed: integers in decimal; other values keep their literal. */
  function NumText(n: Num): string
  {
    if n.isInt then IntToString(IntVal(n)) else n.text
  }

  /** `__toString` of every token class. */
  function ToString(t: TokenKind): (r: string)
    ensures t.Ident? ==> |r| >= |t.value|
    ensures t.Function? ==> |r| > |t.value| && r[|r| - 1] == '('
    ensures t.Str? ==> |r| >= |t.value| + 2 && r[0] == '"' && r[|r| - 1] == '"'
    ensures t.Url? ==> |r| >= |t.value| + 5 && r[..4] == "url(" && r[|r| - 1] == ')'
  {
    match t
    case Ident(v) => EscapeIdent(v)
    case Function(v) => EscapeIdent(v) + "("
    case AtKeyword(v) => "@" + EscapeIdent(v)
    case Hash(v, _) => "#" + Escape(v, IdentRest)
    case Str(v) => "\"" + Escape(v, StringChars) + "\""
    case BadString => "\"bad-string\""
    case Url(v) => "url(" + Escape(v, UrlChars) + ")"
    case BadUrl => "url(bad-url)"
    case Delim(c) => [c]
    case Number(n) => NumText(n)
    case Percentage(n) => NumText(n) + "%"
    case Dimension(n, unit) => NumText(n) + EscapeIdent(unit)
    case UnicodeRange(start, end) =>
      if start == end then "U+" + ToHex(start) else "U+" + ToHex(start) + "-" + ToHex(end)
    case Whitespace => " "
    case Sym(s) => SymbolText(s)
  }
}
