/**
 * The cursor over the tokens a tokenizer produced. Saving and restoring
 * `position` is how the parsers backtrack.
 */
module TokenStreams {
  import opened Wrappers
  import opened Errors
  import opened Tokens

  /** Just past the whitespace tokens starting at pos. */
  function WhitespaceEnd(tokens: seq<Token>, pos: nat): (r: nat)
    requires pos <= |tokens|
    ensures pos <= r <= |tokens|
    ensures forall i :: pos <= i < r ==> tokens[i].kind.Whitespace?
    ensures r == |tokens| || !tokens[r].kind.Whitespace?
    decreases |tokens| - pos
  {
    if pos < |tokens| && tokens[pos].kind.Whitespace? then WhitespaceEnd(tokens, pos + 1) else pos
  }

  /** The index of the first token at or after pos that satisfies p. */
  function FirstFrom(tokens: seq<Token>, pos: nat, p: Token -> bool): (r: Option<nat>)
    requires pos <= |tokens|
    ensures r.Some? ==> pos <= r.value < |tokens| && p(tokens[r.value])
    ensures r.Some? ==> forall i :: pos <= i < r.value ==> !p(tokens[i])
    ensures r.None? ==> forall i :: pos <= i < |tokens| ==> !p(tokens[i])
    decreases |tokens| - pos
  {
    if pos == |tokens| then None
    else if p(tokens[pos]) then Some(pos)
    else FirstFrom(tokens, pos + 1, p)
  }

  /**
   * Where `recordParseException` places an error: the requested position if
   * it is not negative, else the current token's offset, else the last
   * token's, else 0.
   */
  function ErrorPosition(tokens: seq<Token>, position: nat, requested: int): (r: int)
    ensures requested >= 0 ==> r == requested
    ensures requested < 0 && position < |tokens| ==> r == tokens[position].offset
    ensures requested < 0 && position >= |tokens| && |tokens| > 0 ==> r == tokens[|tokens| - 1].offset
    ensures requested < 0 && |tokens| == 0 ==> r == 0
  {
    if requested >= 0 then requested
    else if position < |tokens| then tokens[position].offset
    else if |tokens| > 0 then tokens[|tokens| - 1].offset
    else 0
  }

  /**
   * The error position of `recordParseException` as the token stream's code
   * has it. It reads a `position` property that tokens do not declare, so
   * with a negative request and at least one token the value is null, and the
   * `int` parameter of `ParseException` rejects it with a TypeError before
   * anything is logged. Only a non-negative request, or an empty stream,
   * yields a position.
   */
  function ErrorPositionAsWritten(tokens: seq<Token>, position: nat, requested: int): (r: Result<int, string>)
    ensures r.Failure? <==> requested < 0 && |tokens| > 0
    ensures r.Success? ==> r.value == ErrorPosition(tokens, position, requested)
  {
    if requested >= 0 then Success(requested)
    else if |tokens| > 0 then Failure("TypeError")
    else Success(0)
  }

  class TokenStream {
    const tokens: seq<Token>
    const length: nat
    var position: nat
    const errors: ErrorLog

    ghost predicate Valid()
      reads this
    {
      length == |tokens| && position <= length
    }

    constructor (tokens: seq<Token>, errors: ErrorLog)
      ensures Valid()
      ensures this.tokens == tokens && length == |tokens| && position == 0 && this.errors == errors
    {
      this.tokens := tokens;
      length := |tokens|;
      position := 0;
      this.errors := errors;
    }

    /** Whether a token remains. */
    function HasMore(): (r: bool)
      reads this
      ensures r <==> position < length
    {
      position < length
    }

    /** The next token, or none at the end; only then does the position stay. */
    method TryConsume() returns (t: Option<Token>)
      requires Valid()
      modifies this`position
      ensures Valid()
      ensures old(position) < length ==> t == Some(tokens[old(position)]) && position == old(position) + 1
      ensures old(position) >= length ==> t.None? && position == old(position)
    {
      if position >= length {
        return None;
      }
      t := Some(tokens[position]);
      position := position + 1;
    }

    /** Skips the whitespace tokens at the position; true iff there was one. */
    method SkipWhitespace() returns (skipped: bool)
      requires Valid()
      modifies this`position
      ensures Valid()
      ensures position == WhitespaceEnd(tokens, old(position))
      ensures skipped <==> position > old(position)
    {
      skipped := false;
      while position < length
        invariant Valid() && old(position) <= position
        invariant WhitespaceEnd(tokens, position) == WhitespaceEnd(tokens, old(position))
        invariant skipped <==> position > old(position)
        decreases length - position
      {
        if !tokens[position].kind.Whitespace? {
          break;
        }
        skipped := true;
        position := position + 1;
      }
    }

    /** The first token from the position on that satisfies p; the position stays. */
    method First(p: Token -> bool) returns (t: Option<Token>)
      requires Valid()
      ensures FirstFrom(tokens, position, p).None? ==> t.None?
      ensures FirstFrom(tokens, position, p).Some? ==> t == Some(tokens[FirstFrom(tokens, position, p).value])
    {
      var i := position;
      while i < length
        invariant position <= i <= length
        invariant FirstFrom(tokens, i, p) == FirstFrom(tokens, position, p)
        decreases length - i
      {
        if p(tokens[i]) {
          return Some(tokens[i]);
        }
        i := i + 1;
      }
      return None;
    }

    /** Logs one error at `requested`, or, when that is negative, at the position's token. */
    method RecordParseException(message: string, requested: int) returns (e: ParseError)
      requires Valid()
      modifies errors
      ensures e == ParseError(message, ErrorPosition(tokens, position, requested))
      ensures errors.items == old(errors.items) + [e]
    {
      var at := requested;
      if at < 0 {
        if position < length {
          at := tokens[position].offset;
        } else {
          at := if length > 0 then tokens[length - 1].offset else 0;
        }
      }
      e := ParseError(message, at);
      errors.Add(e);
    }
  }
}
