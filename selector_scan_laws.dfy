/**
 * Properties of the token scans of `SelectorParser`: where `consumeAnyValue`
 * stops, how the forgiving list cuts its argument tokens into segments, the
 * combinator and qualified-name tables, and how an attribute selector ends.
 */
module SelectorScanLaws {
  import opened Wrappers
  import opened Tokens
  import opened Errors
  import opened TokenStreams
  import opened AnbParsing
  import opened QualifiedNames
  import opened Selectors
  import opened SelectorScans

  // ---------------------------------------------------------------- any-value

  /** The counts after scanning run from d, or none once one of its tokens stops the scan. */
  function Scanned(run: seq<Token>, exclComma: bool, d: Depth): Option<Depth>
    decreases |run|
  {
    if run == [] then Some(d)
    else
      match AnyValueStep(run[0].kind, exclComma, d)
      case None => None
      case Some(next) => Scanned(run[1..], exclComma, next)
  }

  /**
   * `consumeAnyValue` takes a run that scans from end to end, and stops
   * only at the end of the stream or at a token that stops the scan with the
   * counts that run leaves.
   */
  lemma {:induction false} AnyValueEndIsStop(tokens: seq<Token>, pos: nat, exclComma: bool, d: Depth)
    requires pos <= |tokens|
    ensures var e := AnyValueEnd(tokens, pos, exclComma, d);
      Scanned(tokens[pos..e], exclComma, d).Some? &&
      (e < |tokens| ==> AnyValueStep(tokens[e].kind, exclComma, Scanned(tokens[pos..e], exclComma, d).value).None?)
    decreases |tokens| - pos
  {
    if pos < |tokens| {
      match AnyValueStep(tokens[pos].kind, exclComma, d)
      case None =>
      case Some(next) =>
        AnyValueEndIsStop(tokens, pos + 1, exclComma, next);
        var e := AnyValueEnd(tokens, pos, exclComma, d);
        assert tokens[pos..e][1..] == tokens[pos + 1..e];
    }
  }

  /** The tokens that stop a scan: bad strings and URLs, commas when they are excluded, closing brackets. */
  predicate StopKind(k: TokenKind, exclComma: bool)
  {
    k == BadString || k == BadUrl || (exclComma && k == Sym(Comma)) ||
    k == Sym(RightParenthesis) || k == Sym(RightSquareBracket) || k == Sym(RightCurlyBracket)
  }

  /** Only those tokens stop it, and only with no open bracket of their kind (commas: none at all). */
  lemma StopsOnlyAtStopKinds(k: TokenKind, exclComma: bool, d: Depth)
    ensures AnyValueStep(k, exclComma, d).None? ==> StopKind(k, exclComma)
    ensures k == BadString || k == BadUrl ==> AnyValueStep(k, exclComma, d).None?
    ensures k == Sym(Comma) ==> (AnyValueStep(k, exclComma, d).None? <==> exclComma && d == Depth(0, 0, 0))
    ensures k == Sym(RightParenthesis) ==> (AnyValueStep(k, exclComma, d).None? <==> d.paren == 0)
    ensures k == Sym(RightSquareBracket) ==> (AnyValueStep(k, exclComma, d).None? <==> d.square == 0)
    ensures k == Sym(RightCurlyBracket) ==> (AnyValueStep(k, exclComma, d).None? <==> d.curly == 0)
  {
  }

  /** Excluding commas can only stop the scan sooner. */
  lemma {:induction false} ExcludingCommasStopsSooner(tokens: seq<Token>, pos: nat, d: Depth)
    requires pos <= |tokens|
    ensures AnyValueEnd(tokens, pos, true, d) <= AnyValueEnd(tokens, pos, false, d)
    decreases |tokens| - pos
  {
    if pos < |tokens| {
      var k := tokens[pos].kind;
      if AnyValueStep(k, true, d).Some? {
        assert AnyValueStep(k, false, d) == AnyValueStep(k, true, d);
        ExcludingCommasStopsSooner(tokens, pos + 1, AnyValueStep(k, true, d).value);
      }
    }
  }

  /** A function token opens a parenthesis that its ')' closes; a lone ')' stops the scan at once. */
  lemma FunctionOpensParenthesis(f: Token, close: Token)
    requires f.kind.Function? && close.kind == Sym(RightParenthesis)
    ensures AnyValueEnd([f, close], 0, false, Depth(0, 0, 0)) == 2
    ensures AnyValueEnd([close], 0, false, Depth(0, 0, 0)) == 0
  {
    assert AnyValueEnd([f, close], 2, false, Depth(0, 0, 0)) == 2;
  }

  // ---------------------------------------------------------------- segments

  /** The stop tokens the forgiving list drops between its segments. */
  function Stops(tokens: seq<Token>, pos: nat): (r: seq<Token>)
    requires pos <= |tokens|
    decreases |tokens| - pos
  {
    var e := AnyValueEnd(tokens, pos, true, Depth(0, 0, 0));
    if e == |tokens| then [] else [tokens[e]] + Stops(tokens, e + 1)
  }

  /** The segments with the dropped tokens put back between them. */
  function Interleave(segs: seq<seq<Token>>, seps: seq<Token>): seq<Token>
    requires |segs| == |seps| + 1
    decreases |seps|
  {
    if seps == [] then segs[0] else segs[0] + [seps[0]] + Interleave(segs[1..], seps[1..])
  }

  /**
   * The segments cover the stream: put back between them, the dropped tokens
   * give the stream again, and each dropped token is a stop token.
   */
  lemma SegmentsCover(tokens: seq<Token>, pos: nat)
    requires pos <= |tokens|
    ensures |Segments(tokens, pos)| == |Stops(tokens, pos)| + 1
    ensures Interleave(Segments(tokens, pos), Stops(tokens, pos)) == tokens[pos..]
    ensures forall i :: 0 <= i < |Stops(tokens, pos)| ==> StopKind(Stops(tokens, pos)[i].kind, true)
  {
    SegmentCount(tokens, pos);
    SegmentsInterleave(tokens, pos);
    StopsAreStopKinds(tokens, pos);
  }

  /** There is one segment more than there are dropped tokens. */
  lemma {:induction false} SegmentCount(tokens: seq<Token>, pos: nat)
    requires pos <= |tokens|
    ensures |Segments(tokens, pos)| == |Stops(tokens, pos)| + 1
    decreases |tokens| - pos
  {
    var e := AnyValueEnd(tokens, pos, true, Depth(0, 0, 0));
    if e < |tokens| {
      SegmentCount(tokens, e + 1);
    }
  }

  /** The segments and the dropped tokens, interleaved, give the stream from pos. */
  lemma {:induction false} SegmentsInterleave(tokens: seq<Token>, pos: nat)
    requires pos <= |tokens|
    requires |Segments(tokens, pos)| == |Stops(tokens, pos)| + 1
    ensures Interleave(Segments(tokens, pos), Stops(tokens, pos)) == tokens[pos..]
    decreases |tokens| - pos
  {
    var e := SegmentStep(tokens, pos);
    if e < |tokens| {
      SegmentCount(tokens, e + 1);
      SegmentsInterleave(tokens, e + 1);
      InterleaveCons(tokens, pos, e, Segments(tokens, e + 1), Stops(tokens, e + 1));
    } else {
      assert tokens[pos..e] == tokens[pos..];
    }
  }

  /** One step of the segment loop: the end of the first segment, and what comes after it. */
  lemma SegmentStep(tokens: seq<Token>, pos: nat) returns (e: nat)
    requires pos <= |tokens|
    ensures pos <= e <= |tokens| && e == AnyValueEnd(tokens, pos, true, Depth(0, 0, 0))
    ensures e == |tokens| ==> Segments(tokens, pos) == [tokens[pos..e]] && Stops(tokens, pos) == []
    ensures e < |tokens| ==>
      Segments(tokens, pos) == [tokens[pos..e]] + Segments(tokens, e + 1) && Stops(tokens, pos) == [tokens[e]] + Stops(tokens, e + 1)
  {
    e := AnyValueEnd(tokens, pos, true, Depth(0, 0, 0));
  }

  /** The tokens from pos to e, the stop token at e and an interleaving of the rest give the stream from pos. */
  lemma InterleaveCons(tokens: seq<Token>, pos: nat, e: nat, segs: seq<seq<Token>>, seps: seq<Token>)
    requires pos <= e < |tokens| && |segs| == |seps| + 1
    requires Interleave(segs, seps) == tokens[e + 1..]
    ensures Interleave([tokens[pos..e]] + segs, [tokens[e]] + seps) == tokens[pos..]
  {
    assert ([tokens[pos..e]] + segs)[1..] == segs;
    assert ([tokens[e]] + seps)[1..] == seps;
    assert tokens[pos..] == tokens[pos..e] + [tokens[e]] + tokens[e + 1..];
  }

  /** Every dropped token is a stop token. */
  lemma {:induction false} StopsAreStopKinds(tokens: seq<Token>, pos: nat)
    requires pos <= |tokens|
    ensures forall i :: 0 <= i < |Stops(tokens, pos)| ==> StopKind(Stops(tokens, pos)[i].kind, true)
    decreases |tokens| - pos
  {
    var e := AnyValueEnd(tokens, pos, true, Depth(0, 0, 0));
    AnyValueEndIsStop(tokens, pos, true, Depth(0, 0, 0));
    if e < |tokens| {
      StopsAreStopKinds(tokens, e + 1);
      var seps := Stops(tokens, pos);
      assert seps[1..] == Stops(tokens, e + 1);
      StopsOnlyAtStopKinds(tokens[e].kind, true, Scanned(tokens[pos..e], true, Depth(0, 0, 0)).value);
    }
  }

  // ---------------------------------------------------------------- combinators

  /** A delimiter that starts a combinator. */
  predicate CombinatorDelim(tokens: seq<Token>, q: nat)
  {
    q < |tokens| && tokens[q].kind.Delim? && tokens[q].kind.delim in {'>', '+', '~', '|'}
  }

  /**
   * `tryParseCombinator`: after optional whitespace, '>', '+', '~' and '||'
   * are the child, next-sibling, subsequent-sibling and column combinators;
   * whitespace before anything else is the descendant combinator; and with
   * neither the result is none at the start.
   */
  lemma CombinatorTable(tokens: seq<Token>, start: nat)
    requires start <= |tokens|
    ensures var q := WhitespaceEnd(tokens, start);
      (q < |tokens| && tokens[q].kind == Delim('>') ==> CombinatorAt(tokens, start) == Parsed(Some(Child), q + 1)) &&
      (q < |tokens| && tokens[q].kind == Delim('+') ==> CombinatorAt(tokens, start) == Parsed(Some(NextSibling), q + 1)) &&
      (q < |tokens| && tokens[q].kind == Delim('~') ==> CombinatorAt(tokens, start) == Parsed(Some(SubsequentSibling), q + 1)) &&
      (q + 1 < |tokens| && tokens[q].kind == Delim('|') && tokens[q + 1].kind == Delim('|') ==>
        CombinatorAt(tokens, start) == Parsed(Some(Column), q + 2)) &&
      (q > start && !CombinatorDelim(tokens, q) ==> CombinatorAt(tokens, start) == Parsed(Some(Descendant), q)) &&
      (q == start && !CombinatorDelim(tokens, q) ==> CombinatorAt(tokens, start) == Parsed(None, start))
  {
  }

  /** No whitespace, no combinator symbol: none, with the position given back. */
  lemma NoCombinatorKeepsPosition(tokens: seq<Token>, start: nat)
    requires start <= |tokens|
    ensures CombinatorAt(tokens, start).value.None? <==>
      WhitespaceEnd(tokens, start) == start &&
      !(start < |tokens| && tokens[start].kind.Delim? && tokens[start].kind.delim in {'>', '+', '~'}) &&
      !(start + 1 < |tokens| && tokens[start].kind == Delim('|') && tokens[start + 1].kind == Delim('|'))
  {
  }

  // ---------------------------------------------------------------- names

  /** Idents the tokenizer produces are never empty. */
  predicate IdentsNonEmpty(tokens: seq<Token>)
  {
    forall i :: 0 <= i < |tokens| ==> tokens[i].kind.Ident? ==> tokens[i].kind.value != ""
  }

  /** `tryParseWqName` builds only names that meet the constructor's assertions. */
  lemma WqNameIsWellFormed(tokens: seq<Token>, start: nat, allowWildcard: bool)
    requires start <= |tokens| && IdentsNonEmpty(tokens)
    ensures var r := WqNameAt(tokens, start, allowWildcard);
      r.value.Some? ==> QualifiedNames.WellFormed(r.value.value) && (allowWildcard || r.value.value.localName != "*")
  {
    if start < |tokens| {
      assert NameOf(Some(tokens[start])).Some? ==> NameOf(Some(tokens[start])).value != "";
      if start + 1 < |tokens| {
        assert NameOf(Some(tokens[start + 1])).Some? ==> NameOf(Some(tokens[start + 1])).value != "";
      }
      if start + 2 < |tokens| {
        assert NameOf(Some(tokens[start + 2])).Some? ==> NameOf(Some(tokens[start + 2])).value != "";
      }
    }
  }

  /** Tokens for the examples: a delimiter and an identifier at a given offset. */
  function D(c: char, at: nat): Token { Token(Delim(c), at, 1) }
  function I(v: string, at: nat): Token { Token(Ident(v), at, |v|) }

  /** The qualified-name table: the input, whether a wildcard local name is allowed, the result. */
  lemma WqNameTable()
    ensures WqNameAt([D('*', 0), D('|', 1), D('*', 2)], 0, true) == Parsed(Some(WqName(true, Some("*"), "*")), 3)
    ensures WqNameAt([D('*', 0), D('|', 1), D('*', 2)], 0, false) == Parsed(None, 0)
    ensures WqNameAt([I("svg", 0), D('|', 3), D('*', 4)], 0, true) == Parsed(Some(WqName(true, Some("svg"), "*")), 3)
    ensures WqNameAt([I("svg", 0), D('|', 3), D('*', 4)], 0, false) == Parsed(Some(WqName(true, None, "svg")), 1)
    ensures WqNameAt([D('|', 0), I("div", 1)], 0, true) == Parsed(Some(WqName(true, None, "div")), 2)
    ensures WqNameAt([D('|', 0), D('*', 1)], 0, true) == Parsed(Some(WqName(true, None, "*")), 2)
    ensures WqNameAt([D('|', 0), D('*', 1)], 0, false) == Parsed(None, 0)
    ensures WqNameAt([I("div", 0)], 0, true) == Parsed(Some(WqName(false, None, "div")), 1)
    ensures WqNameAt([D('*', 0)], 0, true) == Parsed(Some(WqName(false, None, "*")), 1)
    ensures WqNameAt([D('*', 0)], 0, false) == Parsed(None, 0)
    ensures WqNameAt([], 0, true) == Parsed(None, 0)
  {
  }

  // ---------------------------------------------------------------- attributes

  /** The messages `parseAttributeSelector` raises. */
  predicate AttributeMessage(m: string)
  {
    m in {"Missing attribute name.", "Attribute selector is not closed.", "Invalid attribute matcher.",
          "Missing attribute value.", "Invalid attribute modifier.", "Invalid attribute selector."}
  }

  /** An attribute selector that does not parse raises one of the six messages. */
  lemma AttributeMessages(tokens: seq<Token>, pos: nat)
    requires pos <= |tokens|
    ensures AttributeAt(tokens, pos).Failure? ==> AttributeMessage(AttributeAt(tokens, pos).error.message)
  {
  }

  /** A one-character symbol token. */
  function S(s: Symbol, at: nat): Token { Token(Sym(s), at, 1) }

  /** `[required]`: a name alone tests that the attribute exists. */
  lemma AttributeExists()
    ensures AttributeAt([S(LeftSquareBracket, 0), I("required", 1), S(RightSquareBracket, 9)], 1) ==
      Success(Parsed(Some(Attribute(WqName(false, None, "required"), Exists, "", None)), 3))
  {
  }

  /** `[name=a i]`: a matcher, a value and the case-insensitive modifier. */
  lemma AttributeWithModifier()
    ensures AttributeAt([S(LeftSquareBracket, 0), I("name", 1), D('=', 5), I("a", 6), Token(Whitespace, 7, 1), I("i", 8), S(RightSquareBracket, 9)], 1) ==
      Success(Parsed(Some(Attribute(WqName(false, None, "name"), Exact, "a", Some(false))), 7))
  {
    var t := [S(LeftSquareBracket, 0), I("name", 1), D('=', 5), I("a", 6), Token(Whitespace, 7, 1), I("i", 8), S(RightSquareBracket, 9)];
    var n := WqName(false, None, "name");
    assert WqNameAt(t, 1, false) == Parsed(Some(n), 2);
    assert AttributeAt(t, 1) == MatcherAt(t, n, 2) == AttributeValueAt(t, n, Exact, 3);
    assert WhitespaceEnd(t, 4) == 5 && WhitespaceEnd(t, 6) == 6;
    assert CaseModifier("i") == Some(false);
    assert AttributeValueAt(t, n, Exact, 3) == AttributeCloseAt(t, n, Exact, "a", 5);
  }

  /** `[` and `[name`: no name, and no ']' after it; at the end the last token's offset is reported. */
  lemma AttributeUnfinished()
    ensures AttributeAt([S(LeftSquareBracket, 0)], 1) == Failure(ParseError("Missing attribute name.", 0))
    ensures AttributeAt([S(LeftSquareBracket, 0), I("name", 1)], 1) == Failure(ParseError("Attribute selector is not closed.", 1))
  {
  }

  /**
   * `[` as the code is written: the missing name is reported without a
   * position, at the last token, whose position the code reads through an
   * undeclared property; a TypeError is thrown instead of the error at offset 0.
   */
  lemma MissingAttributeNameAsWritten()
    ensures var t := [S(LeftSquareBracket, 0)];
      ErrorPositionAsWritten(t, 1, -1).Failure?
      && AttributeAt(t, 1) == Failure(ParseError("Missing attribute name.", ErrorPosition(t, 1, -1)))
      && ErrorPosition(t, 1, -1) == 0
  {
    AttributeUnfinished();
  }

  /** `[name[]]`: a symbol where the matcher should be. */
  lemma AttributeSymbolForMatcher()
    ensures AttributeAt([S(LeftSquareBracket, 0), I("name", 1), S(LeftSquareBracket, 5), S(RightSquareBracket, 6), S(RightSquareBracket, 7)], 1) ==
      Failure(ParseError("Invalid attribute matcher.", 5))
  {
  }

  /** `[name?"value"]`: a delimiter that starts no matcher. */
  lemma AttributeNoMatcher()
    ensures AttributeAt([S(LeftSquareBracket, 0), I("name", 1), D('?', 5), Token(Str("value"), 6, 7), S(RightSquareBracket, 13)], 1) ==
      Failure(ParseError("Invalid attribute matcher.", 5))
  {
  }

  /** `[name^"value"]`: '^' without the '=' it needs; the error is at the token after it. */
  lemma AttributeMatcherWithoutEquals()
    ensures AttributeAt([S(LeftSquareBracket, 0), I("name", 1), D('^', 5), Token(Str("value"), 6, 7), S(RightSquareBracket, 13)], 1) ==
      Failure(ParseError("Invalid attribute matcher.", 6))
  {
  }

  /** `[name=]`: ']' where the value should be. */
  lemma AttributeMissingValue()
    ensures AttributeAt([S(LeftSquareBracket, 0), I("name", 1), D('=', 5), S(RightSquareBracket, 6)], 1) ==
      Failure(ParseError("Missing attribute value.", 6))
  {
  }

  /** `[name=a t]`: an ident after the value that is not 'i' or 's'. */
  lemma AttributeBadModifier()
    ensures AttributeAt([S(LeftSquareBracket, 0), I("name", 1), D('=', 5), I("a", 6), Token(Whitespace, 7, 1), I("t", 8), S(RightSquareBracket, 9)], 1) ==
      Failure(ParseError("Invalid attribute modifier.", 8))
  {
    var t := [S(LeftSquareBracket, 0), I("name", 1), D('=', 5), I("a", 6), Token(Whitespace, 7, 1), I("t", 8), S(RightSquareBracket, 9)];
    var n := WqName(false, None, "name");
    assert WqNameAt(t, 1, false) == Parsed(Some(n), 2);
    assert AttributeAt(t, 1) == MatcherAt(t, n, 2) == AttributeValueAt(t, n, Exact, 3);
    assert WhitespaceEnd(t, 4) == 5;
    assert CaseModifier("t") == None;
  }

  /** `[name=a i j]`: a token after the modifier. */
  lemma AttributeAfterModifier()
    ensures AttributeAt([S(LeftSquareBracket, 0), I("name", 1), D('=', 5), I("a", 6), Token(Whitespace, 7, 1), I("i", 8),
                         Token(Whitespace, 9, 1), I("j", 10), S(RightSquareBracket, 11)], 1) ==
      Failure(ParseError("Invalid attribute selector.", 10))
  {
    var t := [S(LeftSquareBracket, 0), I("name", 1), D('=', 5), I("a", 6), Token(Whitespace, 7, 1), I("i", 8),
              Token(Whitespace, 9, 1), I("j", 10), S(RightSquareBracket, 11)];
    var n := WqName(false, None, "name");
    assert WhitespaceEnd(t, 1) == 1;
    assert WqNameAt(t, 1, false) == Parsed(Some(n), 2);
    assert WhitespaceEnd(t, 2) == 2;
    assert AttributeAt(t, 1) == MatcherAt(t, n, 2) == AttributeValueAt(t, n, Exact, 3);
    assert WhitespaceEnd(t, 3) == 3;
    assert WhitespaceEnd(t, 4) == 5 && WhitespaceEnd(t, 6) == 7;
    assert CaseModifier("i") == Some(false);
    assert AttributeValueAt(t, n, Exact, 3) == AttributeCloseAt(t, n, Exact, "a", 5);
    assert AttributeCloseAt(t, n, Exact, "a", 5) == ModifierCloseAt(t, n, Exact, "a", Some(false), 7);
  }
}
