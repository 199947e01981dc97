/**
 * The input text of the tokenizer (section 3.3 of CSS Syntax Module Level 3
 * for the preprocessing) with its mutable read position.
 */
module TextStreams {
  import opened Wrappers
  import opened Chars
  import opened Errors
  import opened Scan

  const FORM_FEED: char := '\U{000C}'

  /** No NUL, carriage return or form feed: what preprocessing guarantees. */
  predicate IsPreprocessed(s: string)
  {
    forall i :: 0 <= i < |s| ==> s[i] != '\0' && s[i] != '\r' && s[i] != FORM_FEED
  }

  /** Every NUL becomes U+FFFD. */
  function ReplaceNul(s: string): (r: string)
    ensures |r| == |s|
    ensures forall i :: 0 <= i < |s| ==> r[i] == if s[i] == '\0' then REPLACEMENT else s[i]
  {
    if s == [] then [] else [if s[0] == '\0' then REPLACEMENT else s[0]] + ReplaceNul(s[1..])
  }

  /** Every CR LF pair, lone CR and form feed becomes one line feed. */
  function NormalizeNewlines(s: string): (r: string)
    ensures |r| <= |s|
    ensures forall i :: 0 <= i < |r| ==> r[i] != '\r' && r[i] != FORM_FEED
    ensures (forall i :: 0 <= i < |s| ==> s[i] != '\0') ==> (forall i :: 0 <= i < |r| ==> r[i] != '\0')
  {
    if s == [] then []
    else if s[0] == '\r' && |s| > 1 && s[1] == '\n' then "\n" + NormalizeNewlines(s[2..])
    else if s[0] == '\r' || s[0] == FORM_FEED then "\n" + NormalizeNewlines(s[1..])
    else [s[0]] + NormalizeNewlines(s[1..])
  }

  /** The constructor's preprocessing: NUL first, then the newlines. */
  function Normalize(s: string): (r: string)
    ensures IsPreprocessed(r)
    ensures |r| <= |s|
  {
    NormalizeNewlines(ReplaceNul(s))
  }

  /** Preprocessing leaves text without NUL, CR and FF unchanged. */
  lemma {:induction false} NormalizeKeepsPreprocessed(s: string)
    requires IsPreprocessed(s)
    ensures Normalize(s) == s
  {
    assert ReplaceNul(s) == s;
    NewlinesKeep(s);
  }

  lemma {:induction false} NewlinesKeep(s: string)
    requires IsPreprocessed(s)
    ensures NormalizeNewlines(s) == s
  {
    if s != [] {
      NewlinesKeep(s[1..]);
    }
  }

  /** Preprocessing is idempotent. */
  lemma NormalizeIdempotent(s: string)
    ensures Normalize(Normalize(s)) == Normalize(s)
  {
    NormalizeKeepsPreprocessed(Normalize(s));
  }

  /** The error `recordParseException` builds: an empty message is replaced by a default. */
  function LoggedError(text: string, pos: nat, message: string): (e: ParseError)
    ensures e.position == pos
    ensures message != "" ==> e.message == message
    ensures message == "" && pos < |text| ==> e.message == "Unexpected character \"" + [text[pos]] + "\"."
    ensures message == "" && pos >= |text| ==> e.message == "Unexpected end of input."
  {
    if message != "" then ParseError(message, pos)
    else if pos < |text| then ParseError("Unexpected character \"" + [text[pos]] + "\".", pos)
    else ParseError("Unexpected end of input.", pos)
  }

  class TextStream {
    const text: string
    const length: nat
    var position: nat
    const errors: ErrorLog

    ghost predicate Valid()
      reads this
    {
      length == |text| && position <= length
    }

    constructor (input: string, errors: ErrorLog)
      ensures Valid()
      ensures text == Normalize(input) && length == |text| && position == 0
      ensures this.errors == errors
    {
      var normalized := NormalizeNewlines(ReplaceNul(input));
      text := normalized;
      length := |normalized|;
      position := 0;
      this.errors := errors;
    }

    /** The next character, or the end-of-stream failure. */
    method Consume() returns (r: Result<char, string>)
      requires Valid()
      modifies this`position
      ensures Valid()
      ensures old(position) < length ==> r == Success(text[old(position)]) && position == old(position) + 1
      ensures old(position) >= length ==> r == Failure("The end of the text stream has been reached.")
      ensures old(position) >= length ==> position == old(position)
    {
      if position >= length {
        return Failure("The end of the text stream has been reached.");
      }
      r := Success(text[position]);
      position := position + 1;
    }

    function HasMore(): bool
      reads this
    {
      position < length
    }

    /** At most n characters from the current position. */
    function PeekAhead(n: nat): (s: string)
      reads this
      requires Valid()
      ensures |s| <= n && position + |s| <= length && s == text[position..position + |s|]
      ensures position + n <= length ==> |s| == n
    {
      Peek(text, position, n)
    }

    /** Logs one error at the current position; the position stays. */
    method RecordParseException(message: string) returns (e: ParseError)
      requires Valid()
      modifies errors
      ensures e == LoggedError(text, position, message)
      ensures errors.items == old(errors.items) + [e]
    {
      if message == "" {
        if position < length {
          e := ParseError("Unexpected character \"" + [text[position]] + "\".", position);
        } else {
          e := ParseError("Unexpected end of input.", position);
        }
      } else {
        e := ParseError(message, position);
      }
      errors.Add(e);
    }

    /** Moves over the maximal run of space, tab and line feed. */
    method SkipWhitespace()
      requires Valid()
      modifies this`position
      ensures Valid()
      ensures position == RunEnd(text, old(position), Whitespace)
    {
      position := RunEnd(text, position, Whitespace);
    }
  }
}
