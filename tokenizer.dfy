/**
 * The tokenizer's routines as methods that move a TextStream's position
 * and append to its error log. Each is proved to leave exactly the
 * position, value and errors its Lexing function describes.
 */
module Tokenizer {
  import opened Wrappers
  import opened Chars
  import opened Errors
  import opened Scan
  import opened Tokens
  import opened TextStreams
  import opened TokenStreams
  import opened Lexing

  /** At an opener without a closer, the comments run to the end with one error. */
  lemma CommentsUnterminated(text: string, pos: nat)
    requires pos + 2 <= |text| && Peek(text, pos, 2) == "/*" && Find(text, pos, CommentClose).None?
    ensures CommentsAsWritten(text, pos) == Lexed((), |text|, [ParseError("Unterminated comment.", pos)])
  {
  }

  /** At an opener whose closer starts at j, the comments continue after the closer. */
  lemma CommentsSkip(text: string, pos: nat, j: nat)
    requires pos + 2 <= |text| && Peek(text, pos, 2) == "/*" && Find(text, pos, CommentClose) == Some(j)
    ensures CommentsAsWritten(text, pos) == CommentsAsWritten(text, j + 2)
  {
  }

  /** Without an opener there are no comments to consume. */
  lemma CommentsDone(text: string, pos: nat)
    requires pos <= |text| && Peek(text, pos, 2) != "/*"
    ensures CommentsAsWritten(text, pos) == Lexed((), pos, [])
  {
  }

  /**
   * The body of `consumeComments`' loop, at an opener: move past the closer,
   * or, when there is none, log the error and move to the end.
   */
  method SkipComment(ts: TextStream) returns (unterminated: bool)
    requires ts.Valid() && ts.position < ts.length && Peek(ts.text, ts.position, 2) == "/*"
    modifies ts`position, ts.errors
    ensures ts.Valid()
    ensures unterminated ==> ts.position == CommentsAsWritten(ts.text, old(ts.position)).pos
    ensures unterminated ==> ts.errors.items == old(ts.errors.items) + CommentsAsWritten(ts.text, old(ts.position)).errs
    ensures !unterminated ==> old(ts.position) < ts.position
    ensures !unterminated ==> CommentsAsWritten(ts.text, old(ts.position)) == CommentsAsWritten(ts.text, ts.position)
    ensures !unterminated ==> ts.errors.items == old(ts.errors.items)
  {
    var close := Find(ts.text, ts.position, CommentClose);
    if close.None? {
      CommentsUnterminated(ts.text, ts.position);
      var _ := ts.RecordParseException("Unterminated comment.");
      ts.position := ts.length;
      return true;
    }
    assert ts.text[ts.position] == '/';
    CommentsSkip(ts.text, ts.position, close.value);
    ts.position := close.value + 2;
    return false;
  }

  /** `consumeComments`, searching for the closer from the opener on, as the source does. */
  method ConsumeComments(ts: TextStream)
    requires ts.Valid()
    modifies ts`position, ts.errors
    ensures ts.Valid()
    ensures ts.position == CommentsAsWritten(ts.text, old(ts.position)).pos
    ensures ts.errors.items == old(ts.errors.items) + CommentsAsWritten(ts.text, old(ts.position)).errs
  {
    ghost var whole := CommentsAsWritten(ts.text, ts.position);
    ghost var items0 := ts.errors.items;
    AppendNil(items0);
    while ts.PeekAhead(2) == "/*"
      invariant ts.Valid()
      invariant whole == CommentsAsWritten(ts.text, ts.position)
      invariant ts.errors.items == items0
      decreases ts.length - ts.position
    {
      var unterminated := SkipComment(ts);
      if unterminated {
        return;
      }
    }
    CommentsDone(ts.text, ts.position);
  }

  /** `consumeEscapedCodePoint`, called just after the backslash. */
  method ConsumeEscapedCodePoint(ts: TextStream) returns (c: char)
    requires ts.Valid()
    modifies ts`position, ts.errors
    ensures ts.Valid()
    ensures var r := EscapedCodePoint(ts.text, old(ts.position));
      c == r.value && ts.position == r.pos && ts.errors.items == old(ts.errors.items) + r.errs
  {
    var h := SpanEnd(ts.text, ts.position, Hex, 6);
    if h > ts.position {
      var end := if h < ts.length && IsCssWhitespace(ts.text[h]) then h + 1 else h;
      var v := HexValue(ts.text[ts.position..h]);
      if IsInvalidCodePoint(v) {
        var _ := ts.RecordParseException("Invalid unicode code point U+" + ToHex(v) + ".");
        ts.position := end;
        return REPLACEMENT;
      }
      ts.position := end;
      return v as char;
    }
    if !ts.HasMore() {
      var _ := ts.RecordParseException("");
      return REPLACEMENT;
    }
    c := ts.text[ts.position];
    ts.position := ts.position + 1;
  }

  /** An ident sequence continued after `chunk` and the errors `errs`. */
  function PrependIdent(chunk: string, errs: seq<ParseError>, rest: Lexed<string>): Lexed<string>
  {
    Lexed(chunk + rest.value, rest.pos, errs + rest.errs)
  }

  /** Continuing an ident sequence after two chunks is continuing it after their concatenation. */
  lemma PrependIdentCompose(a: string, e1: seq<ParseError>, b: string, e2: seq<ParseError>, r: Lexed<string>)
    ensures PrependIdent(a, e1, PrependIdent(b, e2, r)) == PrependIdent(a + b, e1 + e2, r)
  {
    assert a + (b + r.value) == (a + b) + r.value;
    assert e1 + (e2 + r.errs) == (e1 + e2) + r.errs;
  }

  /** What one round of `consumeIdentSequence` reads at `pos`: a run of ident code points, one valid escape, or nothing. */
  function IdentChunk(text: string, pos: nat): (r: Lexed<string>)
    requires pos <= |text|
    ensures pos <= r.pos <= |text|
    ensures r.value == [] <==> r.pos == pos
  {
    var n := RunEnd(text, pos, CharClass.Ident);
    if n > pos then Lexed(text[pos..n], n, [])
    else if ValidEscapeAt(text, pos) then
      var e := EscapedCodePoint(text, pos + 1);
      Lexed([e.value], e.pos, e.errs)
    else Lexed([], pos, [])
  }

  /** An ident sequence is its first chunk followed by the sequence after it; an empty chunk ends it. */
  lemma IdentSequenceByChunks(text: string, pos: nat)
    requires pos <= |text|
    ensures var c := IdentChunk(text, pos);
      IdentSequence(text, pos) == if c.pos == pos then Lexed([], pos, []) else PrependIdent(c.value, c.errs, IdentSequence(text, c.pos))
  {
    var n := RunEnd(text, pos, CharClass.Ident);
    if n > pos {
      assert [] + IdentSequence(text, n).errs == IdentSequence(text, n).errs;
    }
  }

  /**
   * One round of `consumeIdentSequence`: a run of ident code points or one
   * escape; done, with nothing consumed, where neither starts.
   */
  method IdentRound(ts: TextStream) returns (chunk: string, ghost added: seq<ParseError>, done: bool)
    requires ts.Valid()
    modifies ts`position, ts.errors
    ensures ts.Valid()
    ensures var c := IdentChunk(ts.text, old(ts.position));
      chunk == c.value && added == c.errs && ts.position == c.pos && (done <==> c.pos == old(ts.position))
    ensures ts.errors.items == old(ts.errors.items) + added
  {
    var n := RunEnd(ts.text, ts.position, CharClass.Ident);
    if n > ts.position {
      chunk := ts.text[ts.position..n];
      ts.position := n;
      added, done := [], false;
      assert ts.errors.items == old(ts.errors.items) + added;
    } else if !ValidEscapeAt(ts.text, ts.position) {
      chunk, added, done := [], [], true;
      assert ts.errors.items == old(ts.errors.items) + added;
    } else {
      ghost var q := ts.position;
      var c := IdentEscapeRound(ts);
      chunk, added, done := [c], EscapedCodePoint(ts.text, q + 1).errs, false;
    }
  }

  /** The escape branch of a round of `consumeIdentSequence`: the backslash, then the escaped code point. */
  method IdentEscapeRound(ts: TextStream) returns (c: char)
    requires ts.Valid() && ValidEscapeAt(ts.text, ts.position)
    modifies ts`position, ts.errors
    ensures ts.Valid()
    ensures var e := EscapedCodePoint(ts.text, old(ts.position) + 1);
      c == e.value && ts.position == e.pos && ts.errors.items == old(ts.errors.items) + e.errs
  {
    ts.position := ts.position + 1;
    c := ConsumeEscapedCodePoint(ts);
  }

  /** `consumeIdentSequence`: alternately runs of ident code points and escapes. */
  method ConsumeIdentSequence(ts: TextStream) returns (name: string)
    requires ts.Valid()
    modifies ts`position, ts.errors
    ensures ts.Valid()
    ensures var r := IdentSequence(ts.text, old(ts.position));
      name == r.value && ts.position == r.pos && ts.errors.items == old(ts.errors.items) + r.errs
  {
    ghost var p0 := ts.position;
    ghost var logged: seq<ParseError> := [];
    name := "";
    assert name + IdentSequence(ts.text, p0).value == IdentSequence(ts.text, p0).value;
    assert logged + IdentSequence(ts.text, p0).errs == IdentSequence(ts.text, p0).errs;
    assert ts.errors.items == old(ts.errors.items) + logged;
    while true
      invariant ts.Valid() && p0 <= ts.position
      invariant ts.errors.items == old(ts.errors.items) + logged
      invariant IdentSequence(ts.text, p0) == PrependIdent(name, logged, IdentSequence(ts.text, ts.position))
      decreases ts.length - ts.position
    {
      ghost var q := ts.position;
      var chunk, added, done := IdentRound(ts);
      IdentSequenceByChunks(ts.text, q);
      if done {
        assert name + [] == name && logged + [] == logged;
        break;
      }
      PrependIdentCompose(name, logged, chunk, added, IdentSequence(ts.text, ts.position));
      AppendAssoc(old(ts.errors.items), logged, added);
      name, logged := name + chunk, logged + added;
    }
  }

  /** Continuing a body after two chunks is continuing it after their concatenation. */
  lemma PrependCompose(a: string, e1: seq<ParseError>, b: string, e2: seq<ParseError>, r: Lexed<TokenKind>)
    ensures PrependBody(a, e1, PrependBody(b, e2, r)) == PrependBody(a + b, e1 + e2, r)
  {
    assert e1 + (e2 + r.errs) == (e1 + e2) + r.errs;
    if r.value.Str? {
      assert a + (b + r.value.value) == (a + b) + r.value.value;
    } else if r.value.Url? {
      assert a + (b + r.value.value) == (a + b) + r.value.value;
    }
  }

  /**
   * One round of `consumeStringToken`'s loop: the text up to the next quote,
   * newline or backslash, and what that character does.
   */
  method ConsumeStringStep(ts: TextStream, ending: char) returns (step: Step)
    requires ts.Valid()
    requires ending == '"' || ending == '\''
    modifies ts`position, ts.errors
    ensures ts.Valid()
    ensures step == StringStep(ts.text, old(ts.position), ending)
    ensures step.More? ==> ts.position == step.next && ts.errors.items == old(ts.errors.items) + step.errs
    ensures step.Done? ==> ts.position == step.body.pos && ts.errors.items == old(ts.errors.items) + step.body.errs
  {
    var found := Find(ts.text, ts.position, StringStop(ending));
    if found.None? {
      var rest := ts.text[ts.position..];
      ts.position := ts.length;
      var e := ts.RecordParseException("Unterminated string.");
      return Done(Lexed(Str(rest), ts.position, [e]));
    }
    var j := found.value;
    var chunk := ts.text[ts.position..j];
    if ts.text[j] == ending {
      ts.position := j + 1;
      return Done(Lexed(Str(chunk), ts.position, []));
    }
    if ts.text[j] == '\n' {
      ts.position := j;
      var e := ts.RecordParseException("Newline found in the string.");
      return Done(Lexed(BadString, ts.position, [e]));
    }
    ts.position := j + 1;
    if ts.position == ts.length {
      var e := ts.RecordParseException("Unterminated string.");
      return Done(Lexed(Str(chunk), ts.position, [e]));
    }
    if ts.text[ts.position] == '\n' {
      ts.position := ts.position + 1;
      return More(chunk, [], ts.position);
    }
    var logged := |ts.errors.items|;
    var c := ConsumeEscapedCodePoint(ts);
    return More(chunk + [c], ts.errors.items[logged..], ts.position);
  }

  /** `consumeStringToken`, called just after the opening quote `ending`. */
  method ConsumeStringToken(ts: TextStream, ending: char) returns (t: Token)
    requires ts.Valid() && 1 <= ts.position
    requires ending == '"' || ending == '\''
    modifies ts`position, ts.errors
    ensures ts.Valid()
    ensures var r := StringToken(ts.text, old(ts.position), ending);
      t == r.value && ts.position == r.pos && ts.errors.items == old(ts.errors.items) + r.errs
  {
    var offset := ts.position - 1;
    ghost var text, log := ts.text, ts.errors;
    ghost var whole := StringBody(text, ts.position, ending);
    ghost var logged: seq<ParseError> := [];
    var value := "";
    assert whole.value.Str? ==> "" + whole.value.value == whole.value.value;
    assert [] + whole.errs == whole.errs;
    while true
      invariant ts.Valid() && offset < ts.position
      invariant log.items == old(log.items) + logged
      invariant whole == PrependBody(value, logged, StringBody(text, ts.position, ending))
      decreases ts.length - ts.position
    {
      ghost var p := ts.position;
      ghost var before := log.items;
      var step := ConsumeStringStep(ts, ending);
      StringAdvance(text, ending, whole, value, logged, p, step);
      if step.Done? {
        AppendAssoc(old(log.items), logged, step.body.errs);
        return Token(if step.body.value.Str? then Str(value + step.body.value.value) else BadString,
                     offset, ts.position - offset);
      }
      AppendAssoc(old(log.items), logged, step.errs);
      value := value + step.chunk;
      logged := logged + step.errs;
    }
  }

  lemma AppendNil<T>(a: seq<T>)
    ensures a + [] == a
  {
  }

  /** How one round of the string loop moves the state its invariant is about. */
  lemma StringAdvance(text: string, ending: char, whole: Lexed<TokenKind>, value: string,
                      logged: seq<ParseError>, pos: nat, step: Step)
    requires pos <= |text|
    requires ending == '"' || ending == '\''
    requires whole == PrependBody(value, logged, StringBody(text, pos, ending))
    requires step == StringStep(text, pos, ending)
    ensures step.Done? ==> whole == Lexed(if step.body.value.Str? then Str(value + step.body.value.value) else BadString,
                                         step.body.pos, logged + step.body.errs)
    ensures step.More? ==> pos < step.next <= |text|
    ensures step.More? ==> whole == PrependBody(value + step.chunk, logged + step.errs, StringBody(text, step.next, ending))
  {
    if step.More? {
      PrependCompose(value, logged, step.chunk, step.errs, StringBody(text, step.next, ending));
    }
  }

  /** `consumeRemnantsOfBadUrl`: past the next unescaped ')', or to the end. */
  method ConsumeRemnantsOfBadUrl(ts: TextStream)
    requires ts.Valid()
    modifies ts`position
    ensures ts.Valid()
    ensures ts.position == BadUrlRemnants(ts.text, old(ts.position))
  {
    var close := Find(ts.text, ts.position, BadUrlClose);
    ts.position := if close.Some? then close.value + 1 else ts.length;
  }

  /**
   * One round of `consumeUrlToken`'s loop: the text up to the next character
   * that stops an unquoted URL, and what that character does.
   */
  method ConsumeUrlStep(ts: TextStream) returns (step: Step)
    requires ts.Valid()
    modifies ts`position, ts.errors
    ensures ts.Valid()
    ensures step == UrlStep(ts.text, old(ts.position))
    ensures step.More? ==> ts.position == step.next && ts.errors.items == old(ts.errors.items) + step.errs
    ensures step.Done? ==> ts.position == step.body.pos && ts.errors.items == old(ts.errors.items) + step.body.errs
  {
    var found := Find(ts.text, ts.position, UrlStop);
    if found.None? {
      var rest := ts.text[ts.position..];
      ts.position := ts.length;
      var e := ts.RecordParseException("");
      return Done(Lexed(Url(rest), ts.position, [e]));
    }
    var j := found.value;
    var c := ts.text[j];
    var chunk := ts.text[ts.position..j];
    ts.position := j + 1;
    if c == ')' {
      return Done(Lexed(Url(chunk), ts.position, []));
    }
    if IsCssWhitespace(c) {
      ts.SkipWhitespace();
      if ts.position < ts.length && ts.text[ts.position] == ')' {
        ts.position := ts.position + 1;
        return Done(Lexed(Url(chunk), ts.position, []));
      }
      ConsumeRemnantsOfBadUrl(ts);
      return Done(Lexed(BadUrl, ts.position, []));
    }
    if c == '\\' {
      if ts.position < ts.length && ts.text[ts.position] == '\n' {
        var e := ts.RecordParseException("Unexpected newline in URL.");
        ConsumeRemnantsOfBadUrl(ts);
        return Done(Lexed(BadUrl, ts.position, [e]));
      }
      var logged := |ts.errors.items|;
      var d := ConsumeEscapedCodePoint(ts);
      return More(chunk + [d], ts.errors.items[logged..], ts.position);
    }
    ts.position := j;
    var shown := if c == '"' || c == '\'' || c == '(' then "\"" + [c] + "\"" else "U+" + ToHex(c as int);
    var e := ts.RecordParseException("Invalid character " + shown + " in URL.");
    ConsumeRemnantsOfBadUrl(ts);
    return Done(Lexed(BadUrl, ts.position, [e]));
  }

  /** `consumeUrlToken`, called after "url(": the token starts at `offset`. */
  method ConsumeUrlToken(ts: TextStream, offset: nat) returns (t: Token)
    requires ts.Valid() && offset <= ts.position
    modifies ts`position, ts.errors
    ensures ts.Valid()
    ensures var r := UrlToken(ts.text, old(ts.position), offset);
      t == r.value && ts.position == r.pos && ts.errors.items == old(ts.errors.items) + r.errs
  {
    ts.SkipWhitespace();
    ghost var text, log := ts.text, ts.errors;
    ghost var whole := UrlBody(text, ts.position);
    ghost var logged: seq<ParseError> := [];
    var url := "";
    assert whole.value.Url? ==> "" + whole.value.value == whole.value.value;
    assert [] + whole.errs == whole.errs;
    while true
      invariant ts.Valid() && offset <= ts.position
      invariant log.items == old(log.items) + logged
      invariant whole == PrependBody(url, logged, UrlBody(text, ts.position))
      decreases ts.length - ts.position
    {
      ghost var p := ts.position;
      var step := ConsumeUrlStep(ts);
      UrlAdvance(text, whole, url, logged, p, step);
      if step.Done? {
        AppendAssoc(old(log.items), logged, step.body.errs);
        return Token(if step.body.value.Url? then Url(url + step.body.value.value) else BadUrl,
                     offset, ts.position - offset);
      }
      AppendAssoc(old(log.items), logged, step.errs);
      url := url + step.chunk;
      logged := logged + step.errs;
    }
  }

  /** How one round of the URL loop moves the state its invariant is about. */
  lemma UrlAdvance(text: string, whole: Lexed<TokenKind>, url: string, logged: seq<ParseError>, pos: nat, step: Step)
    requires pos <= |text|
    requires whole == PrependBody(url, logged, UrlBody(text, pos))
    requires step == UrlStep(text, pos)
    ensures step.Done? ==> whole == Lexed(if step.body.value.Url? then Url(url + step.body.value.value) else BadUrl,
                                         step.body.pos, logged + step.body.errs)
    ensures step.More? ==> pos < step.next <= |text|
    ensures step.More? ==> whole == PrependBody(url + step.chunk, logged + step.errs, UrlBody(text, step.next))
  {
    if step.More? {
      PrependCompose(url, logged, step.chunk, step.errs, UrlBody(text, step.next));
    }
  }

  /**
   * The rest of `consumeIdentLikeToken` once the ident sequence s has been
   * consumed: "url(" before a quote, "url(" otherwise, another "(", or nothing.
   */
  method ConsumeIdentLikeRest(ts: TextStream, offset: nat, name: string, ghost s: Lexed<string>) returns (t: Token)
    requires ts.Valid() && offset <= s.pos && ts.position == s.pos && s.value == name
    modifies ts`position, ts.errors
    ensures ts.Valid()
    ensures var r := IdentLikeAfter(ts.text, offset, s);
      t == r.value && ts.position == r.pos && ts.errors.items == old(ts.errors.items) + r.errs
  {
    AppendNil(ts.errors.items);
    ghost var text := ts.text;
    if Lower(name) == "url" && ts.position < ts.length && ts.text[ts.position] == '(' {
      ts.position := ts.position + 1;
      ts.SkipWhitespace();
      ghost var q := ts.position;
      if ts.position < ts.length && (ts.text[ts.position] == '\'' || ts.text[ts.position] == '"') {
        assert IdentLikeAfter(text, offset, s) == Lexed(Token(Function("url"), offset, 4), q, []);
        return Token(Function("url"), offset, 4);
      }
      assert IdentLikeAfter(text, offset, s) == UrlToken(text, q, offset);
      t := ConsumeUrlToken(ts, offset);
      return;
    }
    if ts.position < ts.length && ts.text[ts.position] == '(' {
      ts.position := ts.position + 1;
      assert IdentLikeAfter(text, offset, s) == Lexed(Token(Function(name), offset, ts.position - offset), ts.position, []);
      return Token(Function(name), offset, ts.position - offset);
    }
    assert IdentLikeAfter(text, offset, s) == Lexed(Token(TokenKind.Ident(name), offset, ts.position - offset), ts.position, []);
    return Token(TokenKind.Ident(name), offset, ts.position - offset);
  }

  /**
   * `consumeIdentLikeToken`: an ident sequence, then "url(" (a Function
   * when a quote follows the whitespace, else an unquoted URL), another
   * function name, or a plain ident.
   */
  method ConsumeIdentLikeToken(ts: TextStream) returns (t: Token)
    requires ts.Valid()
    modifies ts`position, ts.errors
    ensures ts.Valid()
    ensures var r := IdentLike(ts.text, old(ts.position));
      t == r.value && ts.position == r.pos && ts.errors.items == old(ts.errors.items) + r.errs
  {
    ghost var items0 := ts.errors.items;
    var offset := ts.position;
    var name := ConsumeIdentSequence(ts);
    ghost var s := IdentSequence(ts.text, offset);
    t := ConsumeIdentLikeRest(ts, offset, name, s);
    AppendAssoc(items0, s.errs, IdentLikeAfter(ts.text, offset, s).errs);
  }

  /** `tryConsumeNumberToken`: the number literal at the position, if any. */
  method TryConsumeNumberToken(ts: TextStream) returns (t: Option<Token>)
    requires ts.Valid()
    modifies ts`position
    ensures ts.Valid()
    ensures var r := NumberToken(ts.text, old(ts.position));
      if r.None? then t.None? && ts.position == old(ts.position)
      else t == Some(r.value.value) && ts.position == r.value.pos
  {
    var parts := NumberSpan(ts.text, ts.position);
    if parts.None? {
      return None;
    }
    var offset := ts.position;
    var num := NumberLiteral(ts.text, offset, parts.value);
    ts.position := NumberEnd(parts.value);
    return Some(Token(Number(num), offset, ts.position - offset));
  }

  /** The suffix of `tryConsumeNumericToken` after the number n read from pos: a unit, a '%' or nothing. */
  method ConsumeNumericSuffix(ts: TextStream, num: Token, ghost pos: nat, ghost n: Lexed<Token>) returns (t: Token)
    requires ts.Valid() && pos < n.pos <= |ts.text| && n.value.kind.Number? && ts.position == n.pos
    requires n.value == num && num.offset == pos && n.errs == []
    modifies ts`position, ts.errors
    ensures ts.Valid()
    ensures var r := NumericSuffix(ts.text, pos, n);
      t == r.value && ts.position == r.pos && ts.errors.items == old(ts.errors.items) + r.errs
  {
    ghost var items0 := ts.errors.items;
    if CanStartIdentSeq(ts.text, ts.position) {
      var unit := ConsumeIdentSequence(ts);
      return Token(Dimension(num.kind.num, unit), num.offset, ts.position - num.offset);
    }
    AppendNil(items0);
    if ts.position < ts.length && ts.text[ts.position] == '%' {
      ts.position := ts.position + 1;
      return Token(Percentage(num.kind.num), num.offset, ts.position - num.offset);
    }
    return num;
  }

  /** `tryConsumeNumericToken`: a number, then a unit, a '%' or nothing. */
  method TryConsumeNumericToken(ts: TextStream) returns (t: Option<Token>)
    requires ts.Valid()
    modifies ts`position, ts.errors
    ensures ts.Valid()
    ensures var r := NumericToken(ts.text, old(ts.position));
      if r.None? then t.None? && ts.position == old(ts.position) && ts.errors.items == old(ts.errors.items)
      else t == Some(r.value.value) && ts.position == r.value.pos && ts.errors.items == old(ts.errors.items) + r.value.errs
  {
    ghost var text, pos := ts.text, ts.position;
    var number := TryConsumeNumberToken(ts);
    if number.None? {
      return None;
    }
    ghost var n := NumberToken(text, pos).value;
    assert NumericToken(text, pos) == Some(NumericSuffix(text, pos, n));
    var suffixed := ConsumeNumericSuffix(ts, number.value, pos, n);
    return Some(suffixed);
  }

  /** `tryConsumeHashToken`, called just after the '#'. */
  method TryConsumeHashToken(ts: TextStream) returns (t: Option<Token>)
    requires ts.Valid() && 1 <= ts.position
    modifies ts`position, ts.errors
    ensures ts.Valid()
    ensures var r := HashToken(ts.text, old(ts.position));
      if r.None? then t.None? && ts.position == old(ts.position) && ts.errors.items == old(ts.errors.items)
      else t == Some(r.value.value) && ts.position == r.value.pos && ts.errors.items == old(ts.errors.items) + r.value.errs
  {
    if !CanStartHash(ts.text, ts.position) {
      return None;
    }
    var offset := ts.position - 1;
    var isIdType := CanStartIdentSeq(ts.text, ts.position);
    var ident := ConsumeIdentSequence(ts);
    return Some(Token(Hash(ident, isIdType), offset, ts.position - offset));
  }

  /** `tryConsumeSymbolToken`: a one-character symbol, "-->" or "<!--"; otherwise the position stays. */
  method TryConsumeSymbolToken(ts: TextStream) returns (t: Option<Token>)
    requires ts.Valid() && ts.position < ts.length
    modifies ts`position
    ensures ts.Valid()
    ensures var r := SymbolToken(ts.text, old(ts.position));
      if r.None? then t.None? && ts.position == old(ts.position)
      else t == Some(r.value.value) && ts.position == r.value.pos
  {
    var offset := ts.position;
    var ch := ts.Consume();
    var c := ch.value;
    var symbol := SymbolOf(c);
    if symbol.Some? {
      return Some(Token(Sym(symbol.value), offset, 1));
    }
    if c == '-' && ts.PeekAhead(2) == "->" {
      ts.position := ts.position + 2;
      return Some(Token(Sym(Cdc), offset, 3));
    }
    if c == '<' && ts.PeekAhead(3) == "!--" {
      ts.position := ts.position + 3;
      return Some(Token(Sym(Cdo), offset, 4));
    }
    ts.position := offset;
    return None;
  }

  /** `tryConsumeUnicodeRangeToken`: 'U+', a segment of hex digits and '?'s, and an optional `-HEX`. */
  method TryConsumeUnicodeRangeToken(ts: TextStream) returns (t: Option<Token>)
    requires ts.Valid()
    modifies ts`position
    ensures ts.Valid()
    ensures var r := UnicodeRangeToken(ts.text, old(ts.position));
      if r.None? then t.None? && ts.position == old(ts.position)
      else t == Some(r.value.value) && ts.position == r.value.pos
  {
    // The two regular expressions and the `hexdec` calls of the source are the pure UnicodeRangeToken.
    var r := UnicodeRangeToken(ts.text, ts.position);
    if r.None? {
      return None;
    }
    ts.position := r.value.pos;
    return Some(r.value.value);
  }

  /** `tryConsumeWhitespaceToken`: one token for a run of space, tab and line feed. */
  method TryConsumeWhitespaceToken(ts: TextStream) returns (t: Option<Token>)
    requires ts.Valid()
    modifies ts`position
    ensures ts.Valid()
    ensures var r := WhitespaceToken(ts.text, old(ts.position));
      if r.None? then t.None? && ts.position == old(ts.position)
      else t == Some(r.value.value) && ts.position == r.value.pos
  {
    var end := RunEnd(ts.text, ts.position, CharClass.Whitespace);
    if end == ts.position {
      return None;
    }
    var offset := ts.position;
    ts.position := end;
    return Some(Token(TokenKind.Whitespace, offset, end - offset));
  }

  /** `convertToToken`: one token at the position, which the caller knows is not the end. */
  method ConvertToToken(ts: TextStream, unicodeRangeAllowed: bool) returns (t: Token)
    requires ts.Valid() && ts.position < ts.length
    modifies ts`position, ts.errors
    ensures ts.Valid()
    ensures var r := Lexing.ConvertToToken(ts.text, old(ts.position), unicodeRangeAllowed);
      t == r.value && ts.position == r.pos && ts.errors.items == old(ts.errors.items) + r.errs
  {
    ghost var text, items0 := ts.text, ts.errors.items;
    AppendNil(items0);
    var whitespace := TryConsumeWhitespaceToken(ts);
    if whitespace.Some? {
      return whitespace.value;
    }
    var symbol := TryConsumeSymbolToken(ts);
    if symbol.Some? {
      return symbol.value;
    }
    var offset := ts.position;
    var ch := ts.text[offset];
    if ch in "01234567890+-." {
      var numeric := TryConsumeNumericToken(ts);
      if numeric.Some? {
        return numeric.value;
      }
    }
    if unicodeRangeAllowed && (ch == 'U' || ch == 'u') {
      var range := TryConsumeUnicodeRangeToken(ts);
      if range.Some? {
        return range.value;
      }
    }
    assert Lexing.ConvertToToken(text, offset, unicodeRangeAllowed) == CharToken(text, offset);
    t := ConsumeCharToken(ts);
  }

  /** The character dispatch at the end of `convertToToken`, once no other token matched. */
  method ConsumeCharToken(ts: TextStream) returns (t: Token)
    requires ts.Valid() && ts.position < ts.length
    modifies ts`position, ts.errors
    ensures ts.Valid()
    ensures var r := CharToken(ts.text, old(ts.position));
      t == r.value && ts.position == r.pos && ts.errors.items == old(ts.errors.items) + r.errs
  {
    ghost var items0 := ts.errors.items;
    AppendNil(items0);
    var offset := ts.position;
    var ch := ts.text[offset];
    ts.position := ts.position + 1;
    if ch == '+' || ch == '.' || ch == '<' {
      return Token(Delim(ch), offset, 1);
    }
    if ch == '"' || ch == '\'' {
      t := ConsumeStringToken(ts, ch);
      return;
    }
    if ch == '#' {
      var hash := TryConsumeHashToken(ts);
      return if hash.Some? then hash.value else Token(Delim(ch), offset, 1);
    }
    t := ConsumeNameOrDelimToken(ts, offset);
  }

  /** The rest of the dispatch, with the character at offset consumed. */
  method ConsumeNameOrDelimToken(ts: TextStream, offset: nat) returns (t: Token)
    requires ts.Valid() && offset < ts.length && ts.position == offset + 1
    modifies ts`position, ts.errors
    ensures ts.Valid()
    ensures var r := NameOrDelimToken(ts.text, offset);
      t == r.value && ts.position == r.pos && ts.errors.items == old(ts.errors.items) + r.errs
  {
    ghost var items0 := ts.errors.items;
    AppendNil(items0);
    var ch := ts.text[offset];
    if ch == '-' {
      ts.position := offset;
      if CanStartIdentSeq(ts.text, ts.position) {
        t := ConsumeIdentLikeToken(ts);
        return;
      }
      ts.position := ts.position + 1;
      return Token(Delim(ch), offset, 1);
    }
    if ch == '@' {
      if CanStartIdentSeq(ts.text, ts.position) {
        var ident := ConsumeIdentSequence(ts);
        return Token(AtKeyword(ident), offset, ts.position - offset);
      }
      return Token(Delim(ch), offset, 1);
    }
    if ch == '\\' {
      if ts.PeekAhead(1) == "\n" {
        var _ := ts.RecordParseException("Unexpected newline.");
        return Token(Delim(ch), offset, 1);
      }
      ts.position := offset;
      t := ConsumeIdentLikeToken(ts);
      return;
    }
    if IsIdentStart(ch) {
      ts.position := offset;
      t := ConsumeIdentLikeToken(ts);
      return;
    }
    return Token(Delim(ch), offset, 1);
  }

  /** The tokens and errors gathered so far, in front of the rest of the stream. */
  ghost function PrependTokens(tokens: seq<Token>, errs: seq<ParseError>, rest: Lexed<seq<Token>>): Lexed<seq<Token>>
  {
    Lexed(tokens + rest.value, rest.pos, errs + rest.errs)
  }

  lemma PrependNothing(r: Lexed<seq<Token>>)
    ensures PrependTokens([], [], r) == r
  {
    assert [] + r.value == r.value;
    assert [] + r.errs == r.errs;
  }

  /** The last round of `convertToTokenStream`'s loop: the comments from p reach the end. */
  lemma TokensEnd(text: string, ura: bool, tokens: seq<Token>, logged: seq<ParseError>, p: nat)
    requires p <= |text| && Tokenizes(text, p, ura) && CommentsAsWritten(text, p).pos == |text|
    ensures PrependTokens(tokens, logged, TokensFrom(text, p, ura)) == Lexed(tokens, |text|, logged + CommentsAsWritten(text, p).errs)
  {
    assert tokens + [] == tokens;
  }

  /** One round of `convertToTokenStream`'s loop: the comments from p, then one token. */
  lemma TokensAdvance(text: string, ura: bool, tokens: seq<Token>, logged: seq<ParseError>, p: nat)
    requires p <= |text| && Tokenizes(text, p, ura) && CommentsAsWritten(text, p).pos < |text|
    ensures var c := CommentsAsWritten(text, p);
      var t := Lexing.ConvertToToken(text, c.pos, ura);
      PrependTokens(tokens, logged, TokensFrom(text, p, ura))
      == PrependTokens(tokens + [t.value], logged + c.errs + t.errs, TokensFrom(text, t.pos, ura))
  {
    var c := CommentsAsWritten(text, p);
    var t := Lexing.ConvertToToken(text, c.pos, ura);
    var rest := TokensFrom(text, t.pos, ura);
    assert TokensFrom(text, p, ura) == Lexed([t.value] + rest.value, |text|, c.errs + t.errs + rest.errs);
    AppendAssoc(tokens, [t.value], rest.value);
    AppendAssoc(logged, c.errs + t.errs, rest.errs);
    AppendAssoc(logged, c.errs, t.errs);
  }

  /** One round of `convertToTokenStream`'s loop: comments, then one token unless they reach the end. */
  method ConsumeCommentsAndToken(ts: TextStream, unicodeRangeAllowed: bool) returns (t: Option<Token>)
    requires ts.Valid() && Tokenizes(ts.text, ts.position, unicodeRangeAllowed)
    modifies ts`position, ts.errors
    ensures ts.Valid()
    ensures var c := CommentsAsWritten(ts.text, old(ts.position));
      if c.pos == ts.length then t.None? && ts.position == c.pos && ts.errors.items == old(ts.errors.items) + c.errs
      else var r := Lexing.ConvertToToken(ts.text, c.pos, unicodeRangeAllowed);
        t == Some(r.value) && ts.position == r.pos && old(ts.position) < r.pos
        && ts.errors.items == old(ts.errors.items) + (c.errs + r.errs)
  {
    ghost var items0 := ts.errors.items;
    ghost var c := CommentsAsWritten(ts.text, ts.position);
    ConsumeComments(ts);
    if !ts.HasMore() {
      return None;
    }
    assert !LoneBackslashAt(ts.text, ts.position);
    var token := ConvertToToken(ts, unicodeRangeAllowed);
    AppendAssoc(items0, c.errs, Lexing.ConvertToToken(ts.text, c.pos, unicodeRangeAllowed).errs);
    return Some(token);
  }

  /** `convertToTokenStream`: comments and tokens up to the end; the stream shares the error log. */
  method ConvertToTokenStream(ts: TextStream, unicodeRangeAllowed: bool) returns (stream: TokenStream)
    requires ts.Valid() && Tokenizes(ts.text, ts.position, unicodeRangeAllowed)
    modifies ts`position, ts.errors
    ensures ts.Valid() && ts.position == ts.length
    ensures fresh(stream) && stream.Valid() && stream.position == 0 && stream.errors == ts.errors
    ensures var r := TokensFrom(ts.text, old(ts.position), unicodeRangeAllowed);
      stream.tokens == r.value && ts.errors.items == old(ts.errors.items) + r.errs
  {
    ghost var text, log := ts.text, ts.errors;
    ghost var whole := TokensFrom(text, ts.position, unicodeRangeAllowed);
    ghost var logged: seq<ParseError> := [];
    var tokens: seq<Token> := [];
    PrependNothing(whole);
    AppendNil(old(log.items));
    while ts.HasMore()
      invariant ts.Valid()
      invariant log.items == old(log.items) + logged
      invariant Tokenizes(text, ts.position, unicodeRangeAllowed)
      invariant whole == PrependTokens(tokens, logged, TokensFrom(text, ts.position, unicodeRangeAllowed))
      decreases ts.length - ts.position
    {
      ghost var p := ts.position;
      ghost var c := CommentsAsWritten(text, p);
      var t := ConsumeCommentsAndToken(ts, unicodeRangeAllowed);
      if t.None? {
        TokensEnd(text, unicodeRangeAllowed, tokens, logged, p);
        AppendAssoc(old(log.items), logged, c.errs);
        logged := logged + c.errs;
        break;
      }
      ghost var r := Lexing.ConvertToToken(text, c.pos, unicodeRangeAllowed);
      TokensAdvance(text, unicodeRangeAllowed, tokens, logged, p);
      AppendAssoc(old(log.items), logged, c.errs + r.errs);
      AppendAssoc(logged, c.errs, r.errs);
      tokens := tokens + [t.value];
      logged := logged + c.errs + r.errs;
    }
    assert CommentsAsWritten(text, ts.position) == Lexed((), ts.position, []);
    TokensEnd(text, unicodeRangeAllowed, tokens, logged, ts.position);
    assert logged + [] == logged;
    stream := new TokenStream(tokens, ts.errors);
  }
}
