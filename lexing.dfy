/**
 * The tokenizer's routines as functions of the normalised text and a
 * position (section 4.3 of CSS Syntax Module Level 3). Each returns the
 * value it produces, the position it leaves, and the parse errors it
 * appends, in order. The methods of module Tokenizer are proved to
 * compute exactly these.
 */
module Lexing {
  import opened Wrappers
  import opened Chars
  import opened Errors
  import opened Scan
  import opened Tokens

  /** What one routine produced, where it left the stream, which errors it logged. */
  datatype Lexed<T> = Lexed(value: T, pos: nat, errs: seq<ParseError>)

  const UNEXPECTED_END: string := "Unexpected end of input."

  /** `\\[^\n]` at pos: a backslash that starts a valid escape. */
  predicate ValidEscapeAt(text: string, pos: nat)
  {
    pos + 1 < |text| && text[pos] == '\\' && text[pos + 1] != '\n'
  }

  /** `--`, or an optional '-' followed by an ident-start code point or a valid escape. */
  predicate CanStartIdentSeq(text: string, pos: nat)
    ensures CanStartIdentSeq(text, pos) ==> pos < |text| && (text[pos] == '-' || text[pos] == '\\' || IsIdentStart(text[pos]))
  {
    (pos + 1 < |text| && text[pos] == '-' && text[pos + 1] == '-')
    || (pos < |text| && IsIdentStart(text[pos]))
    || ValidEscapeAt(text, pos)
    || (pos + 1 < |text| && text[pos] == '-' && (IsIdentStart(text[pos + 1]) || ValidEscapeAt(text, pos + 1)))
  }

  /** An ident code point or a valid escape. */
  predicate CanStartHash(text: string, pos: nat)
    ensures CanStartHash(text, pos) ==> pos < |text|
    ensures CanStartIdentSeq(text, pos) ==> CanStartHash(text, pos)
  {
    (pos < |text| && IsIdentCodePoint(text[pos])) || ValidEscapeAt(text, pos)
  }

  /** A backslash that is the very last character: the one input the tokenizer cannot advance over. */
  predicate LoneBackslashAt(text: string, pos: nat)
  {
    pos + 1 == |text| && text[pos] == '\\'
  }

  /**
   * `consumeComments` as written: while a comment opener (slash, star) is
   * next, the search for the closer (star, slash) starts at the opening
   * slash, so slash-star-slash is taken as a complete comment. An unterminated comment logs one error at its start
   * and moves to the end.
   */
  function CommentsAsWritten(text: string, pos: nat): (r: Lexed<()>)
    requires pos <= |text|
    ensures pos <= r.pos <= |text|
    ensures |r.errs| <= 1
    ensures r.errs != [] ==> r.pos == |text| && r.errs[0].message == "Unterminated comment."
    ensures r.errs == [] ==> Peek(text, r.pos, 2) != "/*"
    decreases |text| - pos
  {
    if Peek(text, pos, 2) != "/*" then Lexed((), pos, [])
    else match Find(text, pos, CommentClose)
      case None => Lexed((), |text|, [ParseError("Unterminated comment.", pos)])
      case Some(j) => CommentsAsWritten(text, j + 2)
  }

  /**
   * `consumeComments` with the search for the closer (star, slash) starting
   * after the opener (slash, star), as section 4.3.2 of CSS Syntax Module Level 3 states.
   */
  function Comments(text: string, pos: nat): (r: Lexed<()>)
    requires pos <= |text|
    ensures pos <= r.pos <= |text|
    ensures |r.errs| <= 1
    ensures r.errs != [] ==> r.pos == |text| && r.errs[0].message == "Unterminated comment."
    ensures r.errs == [] ==> Peek(text, r.pos, 2) != "/*"
    decreases |text| - pos
  {
    if Peek(text, pos, 2) != "/*" then Lexed((), pos, [])
    else match Find(text, pos + 2, CommentClose)
      case None => Lexed((), |text|, [ParseError("Unterminated comment.", pos)])
      case Some(j) => Comments(text, j + 2)
  }

  // As written, slash-star-slash closes itself: on the text below the
  // comments stop after three characters and leave the rest, from the 'a',
  // to be tokenized; the corrected search skips the whole comment.
  lemma SelfClosingCommentAsWritten()
    ensures CommentsAsWritten("/*/a*/b", 0) == Lexed((), 3, [])
    ensures Comments("/*/a*/b", 0) == Lexed((), 6, [])
  {
    var t := "/*/a*/b";
    assert Peek(t, 0, 2) == "/*";
    assert IsTargetAt(t, 1, CommentClose);
    assert !IsTargetAt(t, 0, CommentClose);
    assert Find(t, 0, CommentClose) == Some(1);
    assert Peek(t, 3, 2) == "a*";
    assert !IsTargetAt(t, 2, CommentClose) && !IsTargetAt(t, 3, CommentClose);
    assert IsTargetAt(t, 4, CommentClose);
    assert Find(t, 2, CommentClose) == Some(4);
    assert Peek(t, 6, 2) == "b";
  }

  /** A closed comment spans its opener and a closer after it: at least four characters. */
  lemma CommentHasOpenerAndCloser(text: string, pos: nat)
    requires pos <= |text| && Peek(text, pos, 2) == "/*"
    ensures Comments(text, pos).errs == [] ==> Comments(text, pos).pos >= pos + 4
  {
  }

  /**
   * With the corrected search a comment ends at the first closer that
   * starts after its opener, and the comments go on from just past it.
   */
  lemma CommentEndsAtFirstCloser(text: string, pos: nat, j: nat)
    requires pos <= |text| && Peek(text, pos, 2) == "/*"
    requires pos + 2 <= j && j + 2 <= |text| && text[j] == '*' && text[j + 1] == '/'
    requires forall i :: pos + 2 <= i < j ==> !(text[i] == '*' && text[i + 1] == '/')
    ensures Comments(text, pos) == Comments(text, j + 2)
  {
    FindFirst(text, pos + 2, j);
  }

  /** A forward search for the closer finds the first one. */
  lemma {:induction false} FindFirst(text: string, from: nat, j: nat)
    requires from <= j && j + 2 <= |text| && text[j] == '*' && text[j + 1] == '/'
    requires forall i :: from <= i < j ==> !(text[i] == '*' && text[i + 1] == '/')
    ensures Find(text, from, CommentClose) == Some(j)
    decreases j - from
  {
    if from < j {
      assert !IsTargetAt(text, from, CommentClose);
      FindFirst(text, from + 1, j);
    }
  }

  /** A comment opener at i directly followed by a slash. */
  predicate SelfClosingOpenerAt(text: string, i: nat)
  {
    i + 3 <= |text| && text[i] == '/' && text[i + 1] == '*' && text[i + 2] == '/'
  }

  /** No comment opener is directly followed by a slash. */
  predicate NoSelfClosingOpener(text: string)
  {
    forall i: nat :: i < |text| ==> !SelfClosingOpenerAt(text, i)
  }

  /** At an opener not followed by a slash, searching from the opener finds what searching after it finds. */
  lemma FindFromOpener(text: string, pos: nat)
    requires pos + 2 <= |text| && Peek(text, pos, 2) == "/*"
    requires pos + 2 == |text| || text[pos + 2] != '/'
    ensures Find(text, pos, CommentClose) == Find(text, pos + 2, CommentClose)
  {
    assert text[pos] == '/' && text[pos + 1] == '*';
    assert !IsTargetAt(text, pos, CommentClose);
    assert !IsTargetAt(text, pos + 1, CommentClose);
  }

  /**
   * The search as written and the corrected one differ only at an opener
   * directly followed by a slash: on every other text they skip the same
   * comments and log the same error.
   */
  lemma {:induction false} CommentsAgree(text: string, pos: nat)
    requires pos <= |text| && NoSelfClosingOpener(text)
    ensures CommentsAsWritten(text, pos) == Comments(text, pos)
    decreases |text| - pos
  {
    if Peek(text, pos, 2) != "/*" {
      CommentsBothDone(text, pos);
    } else {
      OpenerNotSelfClosing(text, pos);
      var close := Find(text, pos + 2, CommentClose);
      CommentsBothStep(text, pos, close);
      if close.Some? {
        CommentsAgree(text, close.value + 2);
      }
    }
  }

  /** Without an opener neither search skips anything. */
  lemma CommentsBothDone(text: string, pos: nat)
    requires pos <= |text| && Peek(text, pos, 2) != "/*"
    ensures CommentsAsWritten(text, pos) == Comments(text, pos) == Lexed((), pos, [])
  {
  }

  /** At an opener not followed by a slash, both searches find the same closer, or none. */
  lemma CommentsBothStep(text: string, pos: nat, close: Option<nat>)
    requires pos <= |text| && Peek(text, pos, 2) == "/*"
    requires pos + 2 == |text| || text[pos + 2] != '/'
    requires close == Find(text, pos + 2, CommentClose)
    ensures close.None? ==> CommentsAsWritten(text, pos) == Comments(text, pos)
    ensures close.Some? ==>
      && close.value + 2 <= |text|
      && CommentsAsWritten(text, pos) == CommentsAsWritten(text, close.value + 2)
      && Comments(text, pos) == Comments(text, close.value + 2)
  {
    FindFromOpener(text, pos);
  }

  /** Under `NoSelfClosingOpener`, the character after an opener, if any, is not a slash. */
  lemma OpenerNotSelfClosing(text: string, pos: nat)
    requires pos + 2 <= |text| && Peek(text, pos, 2) == "/*" && NoSelfClosingOpener(text)
    ensures pos + 2 == |text| || text[pos + 2] != '/'
  {
    assert text[pos] == '/' && text[pos + 1] == '*';
    assert !SelfClosingOpenerAt(text, pos);
  }

  /** Whether a decoded escape value is not a usable code point. */
  predicate IsInvalidCodePoint(v: nat)
  {
    v == 0 || 0xD800 <= v <= 0xDFFF || v > 0x10FFFF
  }

  /**
   * `consumeEscapedCodePoint`, called after the backslash: one to six hex
   * digits and one optional whitespace give the code point (U+FFFD and an
   * error for 0, a surrogate or a value above U+10FFFF); at the end of the
   * input U+FFFD and an error; otherwise the next character itself.
   */
  function EscapedCodePoint(text: string, pos: nat): (r: Lexed<char>)
    requires pos <= |text|
    ensures pos <= r.pos <= |text| && r.pos <= pos + 7
    ensures pos < |text| ==> r.pos > pos
    ensures |r.errs| <= 1
    ensures r.errs != [] ==> r.value == REPLACEMENT
  {
    var h := SpanEnd(text, pos, Hex, 6);
    if h > pos then
      var end := if h < |text| && IsCssWhitespace(text[h]) then h + 1 else h;
      var v := HexValue(text[pos..h]);
      if IsInvalidCodePoint(v) then
        Lexed(REPLACEMENT, end, [ParseError("Invalid unicode code point U+" + ToHex(v) + ".", pos)])
      else
        Lexed(v as char, end, [])
    else if pos == |text| then
      Lexed(REPLACEMENT, pos, [ParseError(UNEXPECTED_END, pos)])
    else
      Lexed(text[pos], pos + 1, [])
  }

  /** `consumeIdentSequence`: runs of ident code points and valid escapes, as long as there are any. */
  function IdentSequence(text: string, pos: nat): (r: Lexed<string>)
    requires pos <= |text|
    ensures pos <= r.pos <= |text|
    ensures r.value == [] <==> r.pos == pos
    ensures r.pos == |text| || !(IsIdentCodePoint(text[r.pos]) || ValidEscapeAt(text, r.pos))
    decreases |text| - pos
  {
    var n := RunEnd(text, pos, CharClass.Ident);
    if n > pos then
      var rest := IdentSequence(text, n);
      Lexed(text[pos..n] + rest.value, rest.pos, rest.errs)
    else if ValidEscapeAt(text, pos) then
      var e := EscapedCodePoint(text, pos + 1);
      var rest := IdentSequence(text, e.pos);
      Lexed([e.value] + rest.value, rest.pos, e.errs + rest.errs)
    else
      Lexed([], pos, [])
  }

  /** A string body continued after `chunk` and the errors `errs`: a bad string stays bad. */
  function PrependBody(chunk: string, errs: seq<ParseError>, rest: Lexed<TokenKind>): Lexed<TokenKind>
  {
    Lexed(if rest.value.Str? then Str(chunk + rest.value.value)
          else if rest.value.Url? then Url(chunk + rest.value.value)
          else rest.value,
          rest.pos, errs + rest.errs)
  }

  /** One round of a string or URL body loop: a chunk and the place to go on from, or the finished body. */
  datatype Step = More(chunk: string, errs: seq<ParseError>, next: nat) | Done(body: Lexed<TokenKind>)

  /** One round of the string loop at pos: up to the next quote, newline or backslash. */
  function StringStep(text: string, pos: nat, ending: char): (s: Step)
    requires pos <= |text|
    ensures s.More? ==> pos < s.next <= |text|
    ensures s.Done? ==> pos <= s.body.pos <= |text| && (s.body.value.Str? || s.body.value.BadString?)
  {
    match Find(text, pos, StringStop(ending))
    case None => Done(Lexed(Str(text[pos..]), |text|, [ParseError("Unterminated string.", |text|)]))
    case Some(j) =>
      var chunk := text[pos..j];
      if text[j] == ending then Done(Lexed(Str(chunk), j + 1, []))
      else if text[j] == '\n' then Done(Lexed(BadString, j, [ParseError("Newline found in the string.", j)]))
      else if j + 1 == |text| then Done(Lexed(Str(chunk), j + 1, [ParseError("Unterminated string.", j + 1)]))
      else if text[j + 1] == '\n' then More(chunk, [], j + 2)
      else
        var e := EscapedCodePoint(text, j + 1);
        More(chunk + [e.value], e.errs, e.pos)
  }

  /** The body of a string after its opening quote, up to and including the closing one. */
  function StringBody(text: string, pos: nat, ending: char): (r: Lexed<TokenKind>)
    requires pos <= |text|
    ensures pos <= r.pos <= |text|
    ensures r.value.Str? || r.value.BadString?
    decreases |text| - pos
  {
    match StringStep(text, pos, ending)
    case Done(b) => b
    case More(chunk, errs, next) => PrependBody(chunk, errs, StringBody(text, next, ending))
  }

  /** `consumeStringToken`, called just after the opening quote. */
  function StringToken(text: string, pos: nat, ending: char): (r: Lexed<Token>)
    requires 1 <= pos <= |text|
    requires ending == '"' || ending == '\''
    ensures pos <= r.pos <= |text|
    ensures r.value.kind.Str? || r.value.kind.BadString?
    ensures r.value.offset == pos - 1 && r.value.offset + r.value.length == r.pos
  {
    var body := StringBody(text, pos, ending);
    Lexed(Token(body.value, pos - 1, body.pos - (pos - 1)), body.pos, body.errs)
  }

  /** `consumeRemnantsOfBadUrl`: just past the next ')' that is not preceded by a backslash, or the end. */
  function BadUrlRemnants(text: string, pos: nat): (r: nat)
    requires pos <= |text|
    ensures pos <= r <= |text|
  {
    match Find(text, pos, BadUrlClose)
    case None => |text|
    case Some(k) => k + 1
  }

  /** One round of the URL loop at pos: up to the next character that stops an unquoted URL. */
  function UrlStep(text: string, pos: nat): (s: Step)
    requires pos <= |text|
    ensures s.More? ==> pos < s.next <= |text|
    ensures s.Done? ==> pos <= s.body.pos <= |text| && (s.body.value.Url? || s.body.value.BadUrl?)
  {
    match Find(text, pos, UrlStop)
    case None => Done(Lexed(Url(text[pos..]), |text|, [ParseError(UNEXPECTED_END, |text|)]))
    case Some(j) =>
      var chunk := text[pos..j];
      var c := text[j];
      if c == ')' then Done(Lexed(Url(chunk), j + 1, []))
      else if IsCssWhitespace(c) then
        var q := RunEnd(text, j + 1, CharClass.Whitespace);
        if q < |text| && text[q] == ')' then Done(Lexed(Url(chunk), q + 1, []))
        else Done(Lexed(BadUrl, BadUrlRemnants(text, q), []))
      else if c == '\\' then
        if j + 1 < |text| && text[j + 1] == '\n' then
          Done(Lexed(BadUrl, BadUrlRemnants(text, j + 1), [ParseError("Unexpected newline in URL.", j + 1)]))
        else
          var e := EscapedCodePoint(text, j + 1);
          More(chunk + [e.value], e.errs, e.pos)
      else
        var shown := if c == '"' || c == '\'' || c == '(' then "\"" + [c] + "\"" else "U+" + ToHex(c as int);
        Done(Lexed(BadUrl, BadUrlRemnants(text, j), [ParseError("Invalid character " + shown + " in URL.", j)]))
  }

  /** The body of an unquoted URL, up to and including its ')'. */
  function UrlBody(text: string, pos: nat): (r: Lexed<TokenKind>)
    requires pos <= |text|
    ensures pos <= r.pos <= |text|
    ensures r.value.Url? || r.value.BadUrl?
    decreases |text| - pos
  {
    match UrlStep(text, pos)
    case Done(b) => b
    case More(chunk, errs, next) => PrependBody(chunk, errs, UrlBody(text, next))
  }

  /** `consumeUrlToken`: leading whitespace, then the body; the token starts at `offset`. */
  function UrlToken(text: string, pos: nat, offset: nat): (r: Lexed<Token>)
    requires offset <= pos <= |text|
    ensures pos <= r.pos <= |text|
    ensures r.value.kind.Url? || r.value.kind.BadUrl?
    ensures r.value.offset == offset && r.value.offset + r.value.length == r.pos
  {
    var body := UrlBody(text, RunEnd(text, pos, CharClass.Whitespace));
    Lexed(Token(body.value, offset, body.pos - offset), body.pos, body.errs)
  }

  /**
   * `consumeIdentLikeToken`: an ident sequence, then `url(` (a Function when
   * a quote follows the whitespace, else an unquoted URL), another function
   * name, or a plain ident.
   */
  function IdentLike(text: string, pos: nat): (r: Lexed<Token>)
    requires pos <= |text|
    ensures pos <= r.pos <= |text|
    ensures r.value.offset == pos
    ensures !r.value.kind.Function? || r.value.kind.value != "url" ==> r.value.offset + r.value.length == r.pos
    ensures pos < |text| && (IsIdentCodePoint(text[pos]) || ValidEscapeAt(text, pos)) ==> r.pos > pos
    ensures r.value.kind.Ident? || r.value.kind.Function? || r.value.kind.Url? || r.value.kind.BadUrl?
  {
    var s := IdentSequence(text, pos);
    var rest := IdentLikeAfter(text, pos, s);
    Lexed(rest.value, rest.pos, s.errs + rest.errs)
  }

  /**
   * What follows the ident sequence s read from pos: "url(" before a quote
   * is a Function token, "url(" otherwise a URL, another "(" a Function,
   * nothing an Ident; with the errors logged after the sequence.
   */
  function IdentLikeAfter(text: string, pos: nat, s: Lexed<string>): (r: Lexed<Token>)
    requires pos <= s.pos <= |text|
    ensures s.pos <= r.pos <= |text|
    ensures r.value.offset == pos
    ensures !r.value.kind.Function? || r.value.kind.value != "url" ==> r.value.offset + r.value.length == r.pos
    ensures r.value.kind.Ident? || r.value.kind.Function? || r.value.kind.Url? || r.value.kind.BadUrl?
  {
    var p := s.pos;
    if Lower(s.value) == "url" && p < |text| && text[p] == '(' then
      var q := RunEnd(text, p + 1, CharClass.Whitespace);
      if q < |text| && (text[q] == '\'' || text[q] == '"') then
        Lexed(Token(Function("url"), pos, 4), q, [])
      else
        UrlToken(text, q, pos)
    else if p < |text| && text[p] == '(' then
      Lexed(Token(Function(s.value), pos, p + 1 - pos), p + 1, [])
    else
      Lexed(Token(TokenKind.Ident(s.value), pos, p - pos), p, [])
  }

  predicate HasNoNumberMarks(s: string)
  {
    forall i :: 0 <= i < |s| ==> s[i] != '.' && s[i] != 'e' && s[i] != 'E'
  }

  predicate IsSign(c: char) { c == '+' || c == '-' }

  /** Every character of text[a..b] is a digit. */
  predicate DigitsIn(text: string, a: nat, b: nat)
    requires a <= b <= |text|
  {
    forall k :: a <= k < b ==> IsDigit(text[k])
  }

  /** The mantissa `(\d*\.)?\d+`: where its integer digits end, whether a fraction follows, where it ends. */
  datatype Mantissa = Mantissa(intEnd: nat, hasFrac: bool, end: nat)

  function MantissaAt(text: string, i: nat): (r: Option<Mantissa>)
    requires i <= |text|
    ensures r.None? <==> !(i < |text| && (IsDigit(text[i]) || (text[i] == '.' && i + 1 < |text| && IsDigit(text[i + 1]))))
    ensures r.Some? ==> i <= r.value.intEnd <= r.value.end <= |text| && DigitsIn(text, i, r.value.intEnd)
    ensures r.Some? && r.value.hasFrac ==>
      r.value.intEnd + 1 < r.value.end && text[r.value.intEnd] == '.' && DigitsIn(text, r.value.intEnd + 1, r.value.end)
    ensures r.Some? && !r.value.hasFrac ==> r.value.end == r.value.intEnd > i
  {
    var d1 := RunEnd(text, i, Digit);
    var hasFrac := d1 + 1 < |text| && text[d1] == '.' && IsDigit(text[d1 + 1]);
    if !hasFrac && d1 == i then None
    else Some(Mantissa(d1, hasFrac, if hasFrac then RunEnd(text, d1 + 1, Digit) else d1))
  }

  /** The exponent `([Ee][+-]?\d+)?` after the mantissa. */
  datatype Exponent = NoExponent | Exponent(negative: bool, digitsStart: nat, end: nat)

  function ExponentAt(text: string, m: nat): (r: Exponent)
    requires m <= |text|
    ensures r.Exponent? ==> m + 1 <= r.digitsStart <= m + 2 && r.digitsStart < r.end <= |text|
    ensures r.Exponent? ==> (text[m] == 'e' || text[m] == 'E') && DigitsIn(text, r.digitsStart, r.end)
    ensures r.Exponent? && r.digitsStart == m + 2 ==> IsSign(text[m + 1])
    ensures r.Exponent? ==> (r.negative <==> r.digitsStart == m + 2 && text[m + 1] == '-')
  {
    var eAt := m < |text| && (text[m] == 'E' || text[m] == 'e');
    var signed := eAt && m + 1 < |text| && IsSign(text[m + 1]);
    var start := if signed then m + 2 else m + 1;
    if eAt && start < |text| && IsDigit(text[start]) then
      Exponent(signed && text[m + 1] == '-', start, RunEnd(text, start, Digit))
    else NoExponent
  }

  /** Where the number literal `[+-]?(\d*\.)?\d+([Ee][+-]?\d+)?` at pos ends, and its parts. */
  datatype NumberParts = NumberParts(signEnd: nat, mantissa: Mantissa, exponent: Exponent)

  function NumberSpan(text: string, pos: nat): (r: Option<NumberParts>)
    requires pos <= |text|
    ensures r.Some? ==> r.value.signEnd == (if pos < |text| && IsSign(text[pos]) then pos + 1 else pos)
    ensures r.Some? ==> MantissaAt(text, r.value.signEnd) == Some(r.value.mantissa)
    ensures r.Some? ==> r.value.exponent == ExponentAt(text, r.value.mantissa.end)
    ensures r.None? <==> MantissaAt(text, if pos < |text| && IsSign(text[pos]) then pos + 1 else pos).None?
  {
    var i := if pos < |text| && IsSign(text[pos]) then pos + 1 else pos;
    match MantissaAt(text, i)
    case None => None
    case Some(m) => Some(NumberParts(i, m, ExponentAt(text, m.end)))
  }

  /** The position just after the literal. */
  function NumberEnd(n: NumberParts): nat
  {
    if n.exponent.Exponent? then n.exponent.end else n.mantissa.end
  }

  /**
   * `tryConsumeNumberToken`: the number literal at pos, if any. Its digits
   * and exponent give its exact decimal value (`digits` times ten to the
   * `exponent`).
   */
  function NumberToken(text: string, pos: nat): (r: Option<Lexed<Token>>)
    requires pos <= |text|
    ensures r.None? <==> NumberSpan(text, pos).None?
    ensures r.Some? ==> pos < r.value.pos <= |text| && r.value.errs == []
    ensures r.Some? ==> r.value.value.offset == pos && r.value.value.offset + r.value.value.length == r.value.pos
    ensures r.Some? ==> r.value.value.kind.Number? && r.value.value.kind.num.text == text[pos..r.value.pos]
    ensures r.Some? ==> r.value.pos == NumberEnd(NumberSpan(text, pos).value)
  {
    match NumberSpan(text, pos)
    case None => None
    case Some(n) =>
      var end := NumberEnd(n);
      Some(Lexed(Token(Number(NumberLiteral(text, pos, n)), pos, end - pos), end, []))
  }

  /** The number whose literal NumberSpan found at pos. */
  function NumberLiteral(text: string, pos: nat, n: NumberParts): (num: Num)
    requires pos <= |text| && NumberSpan(text, pos) == Some(n)
    ensures pos < NumberEnd(n) <= |text| && num.text == text[pos..NumberEnd(n)]
  {
    var m := n.mantissa;
    var end := NumberEnd(n);
    assert AllDigits(text[n.signEnd..m.intEnd]);
    var fracDigits := if m.hasFrac then text[m.intEnd + 1..m.end] else "";
    assert AllDigits(fracDigits);
    var expDigits := if n.exponent.Exponent? then DecimalValue(text[n.exponent.digitsStart..n.exponent.end]) as int else 0;
    Num(text[pos..end], !m.hasFrac && n.exponent.NoExponent?, n.signEnd > pos,
        n.signEnd > pos && text[pos] == '-',
        DecimalValue(text[n.signEnd..m.intEnd] + fracDigits),
        (if n.exponent.Exponent? && n.exponent.negative then -expDigits else expDigits) - |fracDigits|)
  }

  /** A number is an integer iff its literal has no '.', 'e' or 'E'; it is signed iff it starts with a sign. */
  lemma NumberFlags(text: string, pos: nat)
    requires pos <= |text| && NumberToken(text, pos).Some?
    ensures var n := NumberToken(text, pos).value.value.kind.num;
      (n.isInt <==> HasNoNumberMarks(n.text)) && (n.hasSign <==> IsSign(n.text[0]))
  {
    var p := NumberSpan(text, pos).value;
    var num := NumberLiteral(text, pos, p);
    assert NumberToken(text, pos).value.value.kind.num == num;
    var lit := text[pos..NumberEnd(p)];
    if p.mantissa.hasFrac {
      assert lit[p.mantissa.intEnd - pos] == '.';
    } else if p.exponent.Exponent? {
      assert lit[p.mantissa.end - pos] == 'E' || lit[p.mantissa.end - pos] == 'e';
    } else {
      PlainLiteral(text, pos, p);
    }
  }

  /** Without a fraction or an exponent, the literal is a sign and digits only. */
  lemma PlainLiteral(text: string, pos: nat, p: NumberParts)
    requires pos <= |text| && NumberSpan(text, pos) == Some(p)
    requires !p.mantissa.hasFrac && p.exponent.NoExponent?
    ensures HasNoNumberMarks(text[pos..NumberEnd(p)])
  {
    var lit := text[pos..NumberEnd(p)];
    forall k | 0 <= k < |lit| ensures lit[k] != '.' && lit[k] != 'e' && lit[k] != 'E' {
      assert lit[k] == text[pos + k];
      if pos + k >= p.signEnd {
        assert IsDigit(text[pos + k]);
      }
    }
  }

  /** `tryConsumeNumericToken`: a number, then a unit (Dimension), a '%' (Percentage) or nothing. */
  function NumericToken(text: string, pos: nat): (r: Option<Lexed<Token>>)
    requires pos <= |text|
    ensures r.Some? ==> pos < r.value.pos <= |text|
    ensures r.Some? ==> r.value.value.offset == pos && r.value.value.offset + r.value.value.length == r.value.pos
    ensures r.None? <==> NumberSpan(text, pos).None?
    ensures r.Some? ==> var n := NumberToken(text, pos).value;
      if CanStartIdentSeq(text, n.pos) then r.value.value.kind == Dimension(n.value.kind.num, IdentSequence(text, n.pos).value)
      else if n.pos < |text| && text[n.pos] == '%' then r.value.value.kind == Percentage(n.value.kind.num)
      else r.value == n
  {
    match NumberToken(text, pos)
    case None => None
    case Some(n) => Some(NumericSuffix(text, pos, n))
  }

  /** What follows the number `n` read at pos: a unit, a '%' or nothing. */
  function NumericSuffix(text: string, pos: nat, n: Lexed<Token>): (r: Lexed<Token>)
    requires pos < n.pos <= |text| && n.value.kind.Number?
    ensures n.pos <= r.pos <= |text|
  {
    if CanStartIdentSeq(text, n.pos) then
      var u := IdentSequence(text, n.pos);
      Lexed(Token(Dimension(n.value.kind.num, u.value), pos, u.pos - pos), u.pos, u.errs)
    else if n.pos < |text| && text[n.pos] == '%' then
      Lexed(Token(Percentage(n.value.kind.num), pos, n.pos + 1 - pos), n.pos + 1, [])
    else
      n
  }

  /** `tryConsumeHashToken`, called just after the '#'. */
  function HashToken(text: string, pos: nat): (r: Option<Lexed<Token>>)
    requires 1 <= pos <= |text|
    ensures r.None? <==> !CanStartHash(text, pos)
    ensures r.Some? ==> pos < r.value.pos <= |text|
    ensures r.Some? ==> r.value.value.offset == pos - 1 && r.value.value.offset + r.value.value.length == r.value.pos
    ensures r.Some? ==> r.value.value.kind.Hash? && (r.value.value.kind.isIdType <==> CanStartIdentSeq(text, pos))
  {
    if !CanStartHash(text, pos) then None
    else
      var s := IdentSequence(text, pos);
      Some(Lexed(Token(Hash(s.value, CanStartIdentSeq(text, pos)), pos - 1, s.pos - (pos - 1)), s.pos, s.errs))
  }

  /** The single-character symbols. */
  function SymbolOf(c: char): Option<Symbol>
  {
    if c == ',' then Some(Comma)
    else if c == ':' then Some(Colon)
    else if c == ';' then Some(Semicolon)
    else if c == '(' then Some(LeftParenthesis)
    else if c == ')' then Some(RightParenthesis)
    else if c == '[' then Some(LeftSquareBracket)
    else if c == ']' then Some(RightSquareBracket)
    else if c == '{' then Some(LeftCurlyBracket)
    else if c == '}' then Some(RightCurlyBracket)
    else None
  }

  /** `tryConsumeSymbolToken`: a one-character symbol, "-->" or "<!--"; otherwise nothing moves. */
  function SymbolToken(text: string, pos: nat): (r: Option<Lexed<Token>>)
    requires pos < |text|
    ensures r.Some? ==> r.value.value.kind.Sym? && r.value.errs == []
    ensures r.Some? ==> r.value.value.offset == pos && r.value.pos == pos + |SymbolText(r.value.value.kind.symbol)| <= |text|
    ensures r.Some? ==> r.value.value.length == |SymbolText(r.value.value.kind.symbol)|
    ensures r.Some? ==> text[pos..r.value.pos] == SymbolText(r.value.value.kind.symbol)
  {
    var c := text[pos];
    match SymbolOf(c)
    case Some(s) => Some(Lexed(Token(Sym(s), pos, 1), pos + 1, []))
    case None =>
      if c == '-' && Peek(text, pos + 1, 2) == "->" then Some(Lexed(Token(Sym(Cdc), pos, 3), pos + 3, []))
      else if c == '<' && Peek(text, pos + 1, 3) == "!--" then Some(Lexed(Token(Sym(Cdo), pos, 4), pos + 4, []))
      else None
  }

  function Repeat(c: char, n: nat): (s: string)
    ensures |s| == n && forall i :: 0 <= i < n ==> s[i] == c
  {
    if n == 0 then [] else [c] + Repeat(c, n - 1)
  }

  /** Hex digits padded with a hex digit are still hex digits. */
  lemma PaddedHex(digits: string, c: char, n: nat)
    requires AllHex(digits) && IsHexDigit(c)
    ensures AllHex(digits + Repeat(c, n))
  {
    var s := digits + Repeat(c, n);
    forall i | 0 <= i < |s| ensures IsHexDigit(s[i]) {
      if i >= |digits| {
        assert s[i] == Repeat(c, n)[i - |digits|];
      }
    }
  }

  /**
   * `tryConsumeUnicodeRangeToken`: 'U+' and a first segment of up to six hex
   * digits and '?'s. With a '?' the range runs from the segment with '?' as 0
   * to the segment with '?' as F; otherwise an optional `-HEX` gives the end,
   * which defaults to the start.
   */
  function UnicodeRangeToken(text: string, pos: nat): (r: Option<Lexed<Token>>)
    requires pos <= |text|
    ensures r.None? <==> !(pos + 1 < |text| && (text[pos] == 'U' || text[pos] == 'u') && text[pos + 1] == '+')
    ensures r.Some? ==> pos + 2 <= r.value.pos <= |text| && r.value.errs == []
    ensures r.Some? ==> r.value.value.kind.UnicodeRange? && r.value.value.offset == pos
    ensures r.Some? ==> r.value.value.offset + r.value.value.length == r.value.pos
  {
    if !(pos + 1 < |text| && (text[pos] == 'U' || text[pos] == 'u') && text[pos + 1] == '+') then None
    else
      var h := SpanEnd(text, pos + 2, Hex, 6);
      HexSpan(text, pos + 2, 6);
      var q := SpanEnd(text, h, Question, 6);
      var segEnd := if q <= pos + 8 then q else pos + 8;
      if segEnd > h then Some(WildcardRange(text, pos, h, segEnd))
      else Some(ExplicitRange(text, pos, h))
  }

  /** The range of a first segment with '?'s: the segment with '?' as 0 to the segment with '?' as F. */
  function WildcardRange(text: string, pos: nat, h: nat, segEnd: nat): (r: Lexed<Token>)
    requires pos + 2 <= h < segEnd <= |text| && AllHex(text[pos + 2..h])
    ensures r.pos == segEnd && r.errs == []
    ensures r.value.kind.UnicodeRange? && r.value.offset == pos && r.value.offset + r.value.length == r.pos
  {
    var digits := text[pos + 2..h];
    var wild := segEnd - h;
    PaddedHex(digits, '0', wild);
    PaddedHex(digits, 'F', wild);
    var start := HexValue(digits + Repeat('0', wild));
    var end := HexValue(digits + Repeat('F', wild));
    Lexed(Token(UnicodeRange(start, end), pos, segEnd - pos), segEnd, [])
  }

  /** The range of a first segment of hex digits only, up to the optional `-HEX` end. */
  function ExplicitRange(text: string, pos: nat, h: nat): (r: Lexed<Token>)
    requires pos + 2 <= h <= |text| && AllHex(text[pos + 2..h])
    ensures h <= r.pos <= |text| && r.errs == []
    ensures r.value.kind.UnicodeRange? && r.value.offset == pos && r.value.offset + r.value.length == r.pos
  {
    var start := HexValue(text[pos + 2..h]);
    var e := if h < |text| && text[h] == '-' then SpanEnd(text, h + 1, Hex, 6) else h;
    if e > h + 1 then
      HexSpan(text, h + 1, 6);
      Lexed(Token(UnicodeRange(start, HexValue(text[h + 1..e])), pos, e - pos), e, [])
    else
      Lexed(Token(UnicodeRange(start, start), pos, h - pos), h, [])
  }

  /** `tryConsumeWhitespaceToken`: one token for a maximal run of space, tab and LF. */
  function WhitespaceToken(text: string, pos: nat): (r: Option<Lexed<Token>>)
    requires pos <= |text|
    ensures r.None? <==> !(pos < |text| && IsCssWhitespace(text[pos]))
    ensures r.Some? ==> (r.value.pos == RunEnd(text, pos, CharClass.Whitespace) && r.value.errs == []
      && r.value.value == Token(TokenKind.Whitespace, pos, r.value.pos - pos))
  {
    var n := RunEnd(text, pos, CharClass.Whitespace);
    if n > pos then Some(Lexed(Token(TokenKind.Whitespace, pos, n - pos), n, [])) else None
  }

  /** `convertToToken`: one token at pos; the caller knows input remains. */
  function ConvertToToken(text: string, pos: nat, unicodeRangeAllowed: bool): (r: Lexed<Token>)
    requires pos < |text|
    ensures r.pos <= |text| && r.value.offset == pos
    ensures !LoneBackslashAt(text, pos) ==> r.pos > pos
  {
    match WhitespaceToken(text, pos)
    case Some(w) => w
    case None =>
      match SymbolToken(text, pos)
      case Some(s) => s
      case None =>
        var c := text[pos];
        var numeric := if c in "01234567890+-." then NumericToken(text, pos) else None;
        if numeric.Some? then numeric.value
        else
          var range := if unicodeRangeAllowed && (c == 'U' || c == 'u') then UnicodeRangeToken(text, pos) else None;
          if range.Some? then range.value
          else CharToken(text, pos)
  }

  /** The rest of `convertToToken`: the token chosen by the character at pos alone. */
  function CharToken(text: string, pos: nat): (r: Lexed<Token>)
    requires pos < |text|
    ensures r.pos <= |text| && r.value.offset == pos
    ensures !LoneBackslashAt(text, pos) ==> r.pos > pos
  {
    var c := text[pos];
    if c == '+' || c == '.' || c == '<' then Lexed(Token(Delim(c), pos, 1), pos + 1, [])
    else if c == '"' || c == '\'' then StringToken(text, pos + 1, c)
    else if c == '#' then
      match HashToken(text, pos + 1)
      case Some(h) => h
      case None => Lexed(Token(Delim('#'), pos, 1), pos + 1, [])
    else NameOrDelimToken(text, pos)
  }

  /** The rest of the character dispatch: ident-like tokens, at-keywords and the remaining delimiters. */
  function NameOrDelimToken(text: string, pos: nat): (r: Lexed<Token>)
    requires pos < |text|
    ensures r.pos <= |text| && r.value.offset == pos
    ensures !LoneBackslashAt(text, pos) ==> r.pos > pos
  {
    var c := text[pos];
    if c == '-' then
      if CanStartIdentSeq(text, pos) then IdentLike(text, pos)
      else Lexed(Token(Delim('-'), pos, 1), pos + 1, [])
    else if c == '@' then
      if CanStartIdentSeq(text, pos + 1) then
        var s := IdentSequence(text, pos + 1);
        Lexed(Token(AtKeyword(s.value), pos, s.pos - pos), s.pos, s.errs)
      else Lexed(Token(Delim('@'), pos, 1), pos + 1, [])
    else if c == '\\' then
      if pos + 1 < |text| && text[pos + 1] == '\n' then
        Lexed(Token(Delim('\\'), pos, 1), pos + 1, [ParseError("Unexpected newline.", pos + 1)])
      else IdentLike(text, pos)
    else if IsIdentStart(c) then IdentLike(text, pos)
    else Lexed(Token(Delim(c), pos, 1), pos + 1, [])
  }

  /**
   * Whether `convertToTokenStream` from pos comes to an end: it does unless
   * some token would start at a backslash that is the last character. There
   * the source reads an empty ident sequence and never moves on.
   */
  predicate Tokenizes(text: string, pos: nat, unicodeRangeAllowed: bool)
    requires pos <= |text|
    decreases |text| - pos
  {
    var c := CommentsAsWritten(text, pos);
    c.pos == |text|
      || (!LoneBackslashAt(text, c.pos) && Tokenizes(text, ConvertToToken(text, c.pos, unicodeRangeAllowed).pos, unicodeRangeAllowed))
  }

  /** The input, once normalised, does not end in a backslash. */
  predicate NoTrailingBackslash(text: string)
  {
    |text| == 0 || text[|text| - 1] != '\\'
  }

  /** Only a text that ends in a backslash can keep the tokenizer from ending. */
  lemma {:induction false} NoTrailingBackslashTokenizes(text: string, pos: nat, unicodeRangeAllowed: bool)
    requires pos <= |text| && NoTrailingBackslash(text)
    ensures Tokenizes(text, pos, unicodeRangeAllowed)
    decreases |text| - pos
  {
    var c := CommentsAsWritten(text, pos);
    if c.pos < |text| {
      assert !LoneBackslashAt(text, c.pos);
      NoTrailingBackslashTokenizes(text, ConvertToToken(text, c.pos, unicodeRangeAllowed).pos, unicodeRangeAllowed);
    }
  }

  /** A backslash escaped by a backslash is a whole ident token, so `\\` tokenizes to the end. */
  lemma EscapedBackslashTokenizes(unicodeRangeAllowed: bool)
    ensures Tokenizes("\\\\", 0, unicodeRangeAllowed)
  {
    var text := "\\\\";
    assert ConvertToToken(text, 0, unicodeRangeAllowed).pos == 2;
  }

  /** A string left open by a final backslash is one string token up to the end, with an error, so `"a\` tokenizes to the end. */
  lemma UnterminatedStringTokenizes(unicodeRangeAllowed: bool)
    ensures Tokenizes("\"a\\", 0, unicodeRangeAllowed)
  {
    var text := "\"a\\";
    assert ConvertToToken(text, 0, unicodeRangeAllowed).pos == 3;
  }

  /** After the ident `a` the next token would start at the final backslash: `a\` does not tokenize. */
  lemma LoneBackslashStops(unicodeRangeAllowed: bool)
    ensures !Tokenizes("a\\", 0, unicodeRangeAllowed)
  {
    var text := "a\\";
    IdentBeforeLoneBackslash(text, unicodeRangeAllowed);
    assert CommentsAsWritten(text, 1).pos == 1 && LoneBackslashAt(text, 1);
    assert !Tokenizes(text, 1, unicodeRangeAllowed);
    assert CommentsAsWritten(text, 0).pos == 0;
  }

  /** The first token of `a\` is the ident `a`, which ends just before the backslash. */
  lemma IdentBeforeLoneBackslash(text: string, unicodeRangeAllowed: bool)
    requires text == "a\\"
    ensures ConvertToToken(text, 0, unicodeRangeAllowed).pos == 1
  {
    assert text[1] == '\\' && !InClass(CharClass.Ident, text[1]);
    assert RunEnd(text, 1, CharClass.Ident) == 1 && !ValidEscapeAt(text, 1);
    assert RunEnd(text, 0, CharClass.Ident) == 1;
    assert IdentSequence(text, 1) == Lexed([], 1, []);
    assert IdentSequence(text, 0).pos == 1;
    assert IdentLike(text, 0).pos == 1;
  }

  /**
   * `convertToTokenStream` from pos: comments (searched for as the source
   * does), then one token, until the end.
   */
  function TokensFrom(text: string, pos: nat, unicodeRangeAllowed: bool): (r: Lexed<seq<Token>>)
    requires pos <= |text| && Tokenizes(text, pos, unicodeRangeAllowed)
    ensures r.pos == |text|
    decreases |text| - pos
  {
    var c := CommentsAsWritten(text, pos);
    if c.pos == |text| then Lexed([], |text|, c.errs)
    else
      var t := ConvertToToken(text, c.pos, unicodeRangeAllowed);
      var rest := TokensFrom(text, t.pos, unicodeRangeAllowed);
      Lexed([t.value] + rest.value, |text|, c.errs + t.errs + rest.errs)
  }

  /** Every token read from pos on starts inside the text, at pos or later. */
  lemma {:induction false} TokensFromOffsets(text: string, pos: nat, unicodeRangeAllowed: bool)
    requires pos <= |text| && Tokenizes(text, pos, unicodeRangeAllowed)
    ensures forall i :: 0 <= i < |TokensFrom(text, pos, unicodeRangeAllowed).value| ==>
      pos <= TokensFrom(text, pos, unicodeRangeAllowed).value[i].offset < |text|
    decreases |text| - pos
  {
    var c := CommentsAsWritten(text, pos);
    if c.pos < |text| {
      var t := ConvertToToken(text, c.pos, unicodeRangeAllowed);
      var rest := TokensFrom(text, t.pos, unicodeRangeAllowed);
      TokensFromOffsets(text, t.pos, unicodeRangeAllowed);
      assert !LoneBackslashAt(text, c.pos);
      assert pos <= c.pos < t.pos;
      var r := TokensFrom(text, pos, unicodeRangeAllowed);
      assert r.value == [t.value] + rest.value;
      forall i | 0 <= i < |r.value| ensures pos <= r.value[i].offset < |text| {
        if i > 0 {
          assert r.value[i] == rest.value[i - 1];
          assert t.pos <= rest.value[i - 1].offset;
        }
      }
    }
  }
}
