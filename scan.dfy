/**
 * The character scans the tokenizer obtains from anchored regular
 * expressions and substring searches, stated as explicit functions over
 * the text.
 */
module Scan {
  import opened Wrappers
  import opened Chars

  /** The character classes of the anchored runs `[...]{0,max}`. */
  datatype CharClass = Whitespace | Hex | Ident | Digit | Question

  predicate InClass(k: CharClass, c: char)
  {
    match k
    case Whitespace => IsCssWhitespace(c)
    case Hex => IsHexDigit(c)
    case Ident => IsIdentCodePoint(c)
    case Digit => IsDigit(c)
    case Question => c == '?'
  }

  /** The end of the longest run of at most `max` characters of class `k` starting at `pos`. */
  function SpanEnd(text: string, pos: nat, k: CharClass, max: nat): (r: nat)
    requires pos <= |text|
    ensures pos <= r <= |text| && r - pos <= max
    ensures forall i :: pos <= i < r ==> InClass(k, text[i])
    ensures r < |text| && r - pos < max ==> !InClass(k, text[r])
    decreases |text| - pos
  {
    if pos < |text| && max > 0 && InClass(k, text[pos]) then SpanEnd(text, pos + 1, k, max - 1) else pos
  }

  /** The end of the unbounded run of class `k` starting at `pos`. */
  function RunEnd(text: string, pos: nat, k: CharClass): (r: nat)
    requires pos <= |text|
    ensures pos <= r <= |text|
    ensures forall i :: pos <= i < r ==> InClass(k, text[i])
    ensures r == |text| || !InClass(k, text[r])
  {
    SpanEnd(text, pos, k, |text| - pos)
  }

  /** A span of hex digits reads as a hex number. */
  lemma HexSpan(text: string, pos: nat, max: nat)
    requires pos <= |text|
    ensures var h := SpanEnd(text, pos, Hex, max); AllHex(text[pos..h])
  {
    var h := SpanEnd(text, pos, Hex, max);
    assert forall i :: 0 <= i < h - pos ==> text[pos..h][i] == text[pos + i];
  }

  /** A span of hex digits stops before its first non-hex character. */
  lemma {:induction false} HexSpanStops(text: string, pos: nat, end: nat, max: nat)
    requires pos <= end < |text| && end - pos < max
    requires AllHex(text[pos..end]) && !IsHexDigit(text[end])
    ensures SpanEnd(text, pos, Hex, max) == end
    decreases end - pos
  {
    if pos < end {
      assert text[pos] == text[pos..end][0];
      assert text[pos + 1..end] == text[pos..end][1..];
      HexSpanStops(text, pos + 1, end, max - 1);
    }
  }

  /** What a forward search looks for. */
  datatype Target =
    | StringStop(ending: char)  // the closing quote, a line feed or a backslash
    | UrlStop                   // whitespace, parentheses, quotes, backslash or a non-printable
    | CommentClose              // the two characters "*/"
    | BadUrlClose               // a ')' not preceded by a backslash

  predicate IsUrlStop(c: char)
  {
    c == ' ' || c == '\t' || c == '\n' || c == '(' || c == ')' || c == '\'' || c == '"'
    || c == '\\' || IsNonPrintable(c)
  }

  predicate IsTargetAt(text: string, j: nat, t: Target)
    requires j < |text|
  {
    match t
    case StringStop(ending) => text[j] == ending || text[j] == '\n' || text[j] == '\\'
    case UrlStop => IsUrlStop(text[j])
    case CommentClose => j + 1 < |text| && text[j] == '*' && text[j + 1] == '/'
    case BadUrlClose => text[j] == ')' && (j == 0 || text[j - 1] != '\\')
  }

  /** The first index at or after `pos` where the target occurs, if any. */
  function Find(text: string, pos: nat, t: Target): (r: Option<nat>)
    requires pos <= |text|
    ensures r.Some? ==> pos <= r.value < |text| && IsTargetAt(text, r.value, t)
    ensures r.Some? ==> forall i :: pos <= i < r.value ==> !IsTargetAt(text, i, t)
    ensures r.None? ==> forall i :: pos <= i < |text| ==> !IsTargetAt(text, i, t)
    decreases |text| - pos
  {
    if pos == |text| then None
    else if IsTargetAt(text, pos, t) then Some(pos)
    else Find(text, pos + 1, t)
  }

  /** `substr(text, pos, n)`: at most n characters from `pos`. */
  function Peek(text: string, pos: nat, n: nat): (s: string)
    requires pos <= |text|
    ensures |s| == if pos + n <= |text| then n else |text| - pos
    ensures s == text[pos..pos + |s|]
  {
    if pos + n <= |text| then text[pos..pos + n] else text[pos..]
  }
}
