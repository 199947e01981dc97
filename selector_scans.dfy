/**
 * The routines of the selector parser that do not recurse into the
 * grammar: the `<any-value>` scan, combinators, wildcard qualified names,
 * type selectors and attribute selectors (sections 5.3, 6.1 and 16 of
 * Selectors Level 4). Each routine is a function of the token sequence and
 * the start position, stating what it yields and where it leaves the
 * stream, and a method that moves a TokenStream exactly so.
 */
module SelectorScans {
  import opened Wrappers
  import opened Chars
  import opened Tokens
  import opened Errors
  import opened TokenStreams
  import opened AnbParsing
  import opened QualifiedNames
  import opened Selectors

  /** What a parse routine gives: a value or none, and the position it leaves; or the exception it raises. */
  type Outcome<T> = Result<Parsed<T>, ParseError>

  /** The exception `recordParseException(message)` builds with the stream at p. */
  function Fail<T>(tokens: seq<Token>, p: nat, message: string): Outcome<T>
  {
    Failure(ParseError(message, ErrorPosition(tokens, p, -1)))
  }

  /** A method's result and the position it leaves, in the form the functions state them. */
  function Observed<T>(r: Result<Option<T>, ParseError>, pos: nat): Outcome<T>
  {
    match r
    case Success(v) => Success(Parsed(v, pos))
    case Failure(e) => Failure(e)
  }

  /** The same for a routine that either yields a value or raises. */
  function Gave<T>(r: Result<T, ParseError>, pos: nat): Outcome<T>
  {
    match r
    case Success(v) => Success(Parsed(Some(v), pos))
    case Failure(e) => Failure(e)
  }

  /** The errors a routine leaves in the log: the one it raised, if any. */
  function Raised<T>(r: Result<T, ParseError>): seq<ParseError>
  {
    if r.Failure? then [r.error] else []
  }

  /** The token at i, or none at the end (`tryConsume`). */
  function TokenAt(tokens: seq<Token>, i: nat): Option<Token>
  {
    if i < |tokens| then Some(tokens[i]) else None
  }

  /** The position after `tryConsume` at i. */
  function After(tokens: seq<Token>, i: nat): nat
  {
    if i < |tokens| then i + 1 else i
  }

  // ---------------------------------------------------------------- any-value

  /** The open-bracket counts of `consumeAnyValue`. */
  datatype Depth = Depth(paren: nat, square: nat, curly: nat)

  /**
   * One token of `consumeAnyValue`: the counts after it, or none when the
   * scan stops before it (a bad string or URL, a closing bracket with no
   * open one of its kind, or a comma outside every bracket when commas are
   * excluded). A function token opens a parenthesis.
   */
  function AnyValueStep(k: TokenKind, exclComma: bool, d: Depth): Option<Depth>
  {
    match k
    case BadString => None
    case BadUrl => None
    case Function(_) => Some(d.(paren := d.paren + 1))
    case Sym(s) =>
      (match s
       case LeftParenthesis => Some(d.(paren := d.paren + 1))
       case LeftSquareBracket => Some(d.(square := d.square + 1))
       case LeftCurlyBracket => Some(d.(curly := d.curly + 1))
       case Comma => if exclComma && d == Depth(0, 0, 0) then None else Some(d)
       case RightParenthesis => if d.paren == 0 then None else Some(d.(paren := d.paren - 1))
       case RightSquareBracket => if d.square == 0 then None else Some(d.(square := d.square - 1))
       case RightCurlyBracket => if d.curly == 0 then None else Some(d.(curly := d.curly - 1))
       case _ => Some(d))
    case _ => Some(d)
  }

  /** Where `consumeAnyValue` stops, starting at pos with the counts d. */
  function AnyValueEnd(tokens: seq<Token>, pos: nat, exclComma: bool, d: Depth): (r: nat)
    requires pos <= |tokens|
    ensures pos <= r <= |tokens|
    decreases |tokens| - pos
  {
    if pos == |tokens| then pos
    else
      match AnyValueStep(tokens[pos].kind, exclComma, d)
      case None => pos
      case Some(next) => AnyValueEnd(tokens, pos + 1, exclComma, next)
  }

  /**
   * The segments `parseForgivingSelectorList` cuts a stream into: the runs
   * `consumeAnyValue` takes with commas excluded, each stop token dropped.
   */
  function Segments(tokens: seq<Token>, pos: nat): (r: seq<seq<Token>>)
    requires pos <= |tokens|
    ensures |r| >= 1
    ensures forall i :: 0 <= i < |r| ==> |r[i]| <= |tokens| - pos
    decreases |tokens| - pos
  {
    var e := AnyValueEnd(tokens, pos, true, Depth(0, 0, 0));
    if e == |tokens| then [tokens[pos..e]] else [tokens[pos..e]] + Segments(tokens, e + 1)
  }

  // ---------------------------------------------------------------- combinators

  /** The combinator a single delimiter spells: '>', '+' and '~'. */
  function DelimCombinator(c: char): Option<Combinator>
  {
    if c == '>' then Some(Child)
    else if c == '+' then Some(NextSibling)
    else if c == '~' then Some(SubsequentSibling)
    else None
  }

  /**
   * `tryParseCombinator`: optional whitespace, then '>', '+', '~' or '||';
   * whitespace alone is the descendant combinator. A single '|' after
   * whitespace stays consumed.
   */
  function CombinatorAt(tokens: seq<Token>, start: nat): (r: Parsed<Combinator>)
    requires start <= |tokens|
    ensures r.value.None? ==> r.pos == start
    ensures r.value.Some? ==> start < r.pos <= |tokens|
  {
    var q := WhitespaceEnd(tokens, start);
    if q < |tokens| && tokens[q].kind.Delim? && DelimCombinator(tokens[q].kind.delim).Some? then
      Parsed(DelimCombinator(tokens[q].kind.delim), q + 1)
    else if q < |tokens| && tokens[q].kind == Delim('|') then
      if q + 1 < |tokens| && tokens[q + 1].kind == Delim('|') then Parsed(Some(Column), q + 2)
      else if q > start then Parsed(Some(Descendant), q + 1)
      else Parsed(None, start)
    else if q > start then Parsed(Some(Descendant), q)
    else Parsed(None, start)
  }

  // ---------------------------------------------------------------- names

  /** `extractName`: an ident's value, or "*" for that delimiter. */
  function NameOf(t: Option<Token>): Option<string>
  {
    if t.Some? && t.value.kind.Ident? then Some(t.value.kind.value)
    else if t.Some? && t.value.kind == Delim('*') then Some("*")
    else None
  }

  predicate IsPipe(t: Option<Token>)
  {
    t.Some? && t.value.kind == Delim('|')
  }

  /** A name the caller accepts: present, and not the wildcard unless that is allowed. */
  predicate Usable(name: Option<string>, allowWildcard: bool)
  {
    name.Some? && (allowWildcard || name.value != "*")
  }

  /**
   * `tryParseWqName`: `prefix|local`, `|local` or a lone name, falling back
   * to the first token alone (just after it) when the local name is missing
   * or a refused wildcard, and to none at start when that fails too.
   */
  function WqNameAt(tokens: seq<Token>, start: nat, allowWildcard: bool): (r: Parsed<WqName>)
    requires start <= |tokens|
    ensures r.value.None? ==> r.pos == start
    ensures r.value.Some? ==> start < r.pos <= |tokens|
  {
    if start == |tokens| then Parsed(None, start)
    else
      var prefix := NameOf(Some(tokens[start]));
      var p := start + 1;
      var hasPipe := (prefix.None? && IsPipe(Some(tokens[start]))) || IsPipe(TokenAt(tokens, p));
      var localName :=
        if prefix.None? && IsPipe(Some(tokens[start])) then NameOf(TokenAt(tokens, p))
        else if IsPipe(TokenAt(tokens, p)) then NameOf(TokenAt(tokens, p + 1))
        else None;
      var pos :=
        if prefix.None? && IsPipe(Some(tokens[start])) then After(tokens, p)
        else if IsPipe(TokenAt(tokens, p)) then After(tokens, p + 1)
        else After(tokens, p);
      if Usable(localName, allowWildcard) then Parsed(Some(WqName(hasPipe, prefix, localName.value)), pos)
      else if Usable(prefix, allowWildcard) then Parsed(Some(WqName(hasPipe, None, prefix.value)), start + 1)
      else Parsed(None, start)
  }

  /** `tryParseTypeSelector`: a qualified name with the wildcard allowed. */
  function TypeAt(tokens: seq<Token>, start: nat): (r: Parsed<Selector>)
    requires start <= |tokens|
    ensures r.value.None? ==> r.pos == start
    ensures r.value.Some? ==> start < r.pos <= |tokens| && r.value.value.Type?
  {
    var w := WqNameAt(tokens, start, true);
    if w.value.None? then Parsed(None, w.pos) else Parsed(Some(Type(w.value.value)), w.pos)
  }

  // ---------------------------------------------------------------- attributes

  /** The matcher a delimiter starts: '=' alone, or '~', '|', '^', '$', '*' before '='. */
  function MatcherOf(c: char): Option<AttrMatcher>
  {
    if c == '=' then Some(Exact)
    else if c == '~' then Some(Includes)
    else if c == '|' then Some(Hyphen)
    else if c == '^' then Some(Prefix)
    else if c == '$' then Some(Suffix)
    else if c == '*' then Some(Substring)
    else None
  }

  /** The modifier ident: 'i' compares case-insensitively, 's' case-sensitively, any case. */
  function CaseModifier(v: string): Option<bool>
  {
    var l := Lower(v);
    if l == "i" then Some(false) else if l == "s" then Some(true) else None
  }

  /**
   * `parseAttributeSelector` after the '[': a name, then ']' or a matcher,
   * a value and an optional modifier before ']'.
   */
  function AttributeAt(tokens: seq<Token>, pos: nat): (r: Outcome<Selector>)
    requires pos <= |tokens|
    ensures r.Success? ==> r.value.value.Some? && pos < r.value.pos <= |tokens| && r.value.value.value.Attribute?
    ensures r.Success? ==> tokens[r.value.pos - 1].kind == Sym(RightSquareBracket)
  {
    var w := WqNameAt(tokens, WhitespaceEnd(tokens, pos), false);
    if w.value.None? then Fail(tokens, w.pos, "Missing attribute name.")
    else AfterNameAt(tokens, w.value.value, w.pos)
  }

  /** After the name and before the whitespace that may follow it: the stream must not end before the matcher. */
  function AfterNameAt(tokens: seq<Token>, name: WqName, q: nat): (r: Outcome<Selector>)
    requires q <= |tokens|
    ensures r.Success? ==> r.value.value.Some? && q < r.value.pos <= |tokens| && r.value.value.value.Attribute?
    ensures r.Success? ==> tokens[r.value.pos - 1].kind == Sym(RightSquareBracket)
  {
    var p := WhitespaceEnd(tokens, q);
    if p == |tokens| then Fail(tokens, p, "Attribute selector is not closed.")
    else MatcherAt(tokens, name, p)
  }

  /** After the name: ']', or a matcher and the rest. */
  function MatcherAt(tokens: seq<Token>, name: WqName, p: nat): (r: Outcome<Selector>)
    requires p < |tokens|
    ensures r.Success? ==> r.value.value.Some? && p < r.value.pos <= |tokens| && r.value.value.value.Attribute?
    ensures r.Success? ==> tokens[r.value.pos - 1].kind == Sym(RightSquareBracket)
  {
    if tokens[p].kind == Sym(RightSquareBracket) then
      Success(Parsed(Some(Attribute(name, Exists, "", None)), p + 1))
    else if !tokens[p].kind.Delim? || MatcherOf(tokens[p].kind.delim).None? then
      Fail(tokens, p, "Invalid attribute matcher.")
    else
      var m := MatcherOf(tokens[p].kind.delim).value;
      if m != Exact && !(p + 1 < |tokens| && tokens[p + 1].kind == Delim('=')) then
        Fail(tokens, p + 1, "Invalid attribute matcher.")
      else AttributeValueAt(tokens, name, m, if m == Exact then p + 1 else p + 2)
  }

  /** The rest of an attribute selector after its matcher: the value, an optional modifier, ']'. */
  function AttributeValueAt(tokens: seq<Token>, name: WqName, m: AttrMatcher, p: nat): (r: Outcome<Selector>)
    requires p <= |tokens|
    ensures r.Success? ==> r.value.value.Some? && p < r.value.pos <= |tokens|
    ensures r.Success? ==> r.value.value.value.Attribute? && r.value.value.value.attrName == name && r.value.value.value.matcher == m
    ensures r.Success? ==> tokens[r.value.pos - 1].kind == Sym(RightSquareBracket)
  {
    var q := WhitespaceEnd(tokens, p);
    if q == |tokens| || !(tokens[q].kind.Ident? || tokens[q].kind.Str?) then Fail(tokens, q, "Missing attribute value.")
    else AttributeCloseAt(tokens, name, m, tokens[q].kind.value, WhitespaceEnd(tokens, q + 1))
  }

  /** After the value: ']' or a modifier. */
  function AttributeCloseAt(tokens: seq<Token>, name: WqName, m: AttrMatcher, value: string, q: nat): (r: Outcome<Selector>)
    requires q <= |tokens|
    ensures r.Success? ==> q < r.value.pos <= |tokens|
    ensures r.Success? ==> tokens[r.value.pos - 1].kind == Sym(RightSquareBracket)
  {
    if q < |tokens| && tokens[q].kind == Sym(RightSquareBracket) then
      Success(Parsed(Some(Attribute(name, m, value, None)), q + 1))
    else if q < |tokens| && tokens[q].kind.Ident? then
      var cs := CaseModifier(tokens[q].kind.value);
      if cs.None? then Fail(tokens, q, "Invalid attribute modifier.")
      else ModifierCloseAt(tokens, name, m, value, cs, WhitespaceEnd(tokens, q + 1))
    else Fail(tokens, q, "Invalid attribute selector.")
  }

  /** After the modifier: only ']' may follow. */
  function ModifierCloseAt(tokens: seq<Token>, name: WqName, m: AttrMatcher, value: string, cs: Option<bool>, q: nat): (r: Outcome<Selector>)
    requires q <= |tokens|
    ensures r.Success? ==> q < r.value.pos <= |tokens| && tokens[r.value.pos - 1].kind == Sym(RightSquareBracket)
  {
    if q < |tokens| && tokens[q].kind == Sym(RightSquareBracket) then
      Success(Parsed(Some(Attribute(name, m, value, cs)), q + 1))
    else Fail(tokens, q, "Invalid attribute selector.")
  }

  // ---------------------------------------------------------------- methods

  /** `consumeAnyValue`: the tokens up to the stop, which stays unconsumed. */
  method ConsumeAnyValue(ts: TokenStream, exclComma: bool) returns (values: seq<Token>)
    requires ts.Valid()
    modifies ts`position
    ensures ts.Valid()
    ensures ts.position == AnyValueEnd(ts.tokens, old(ts.position), exclComma, Depth(0, 0, 0))
    ensures values == ts.tokens[old(ts.position)..ts.position]
  {
    values := [];
    var paren, square, curly := 0, 0, 0;
    while ts.HasMore()
      invariant ts.Valid() && old(ts.position) <= ts.position
      invariant paren >= 0 && square >= 0 && curly >= 0
      invariant values == ts.tokens[old(ts.position)..ts.position]
      invariant AnyValueEnd(ts.tokens, ts.position, exclComma, Depth(paren, square, curly))
        == AnyValueEnd(ts.tokens, old(ts.position), exclComma, Depth(0, 0, 0))
      decreases ts.length - ts.position
    {
      ghost var before := Depth(paren, square, curly);
      var token := ts.TryConsume();
      var t := token.value;
      var stop := false;
      if t.kind.BadString? || t.kind.BadUrl? {
        stop := true;
      } else if t.kind.Sym? {
        var s := t.kind.symbol;
        if s == LeftParenthesis {
          paren := paren + 1;
        } else if s == LeftSquareBracket {
          square := square + 1;
        } else if s == LeftCurlyBracket {
          curly := curly + 1;
        } else if s == Comma {
          if exclComma && paren == 0 && square == 0 && curly == 0 {
            stop := true;
          }
        } else if s == RightParenthesis {
          paren := paren - 1;
          stop := paren < 0;
        } else if s == RightSquareBracket {
          square := square - 1;
          stop := square < 0;
        } else if s == RightCurlyBracket {
          curly := curly - 1;
          stop := curly < 0;
        }
      } else if t.kind.Function? {
        paren := paren + 1;
      }
      if stop {
        assert AnyValueStep(t.kind, exclComma, before).None?;
        ts.position := ts.position - 1;
        return;
      }
      assert AnyValueStep(t.kind, exclComma, before) == Some(Depth(paren, square, curly));
      values := values + [t];
    }
  }

  /** `tryParseCombinator`. */
  method TryParseCombinator(ts: TokenStream) returns (c: Option<Combinator>)
    requires ts.Valid()
    modifies ts`position
    ensures ts.Valid()
    ensures Parsed(c, ts.position) == CombinatorAt(ts.tokens, old(ts.position))
  {
    var startIndex := ts.position;
    var hasWs := ts.SkipWhitespace();
    var token := ts.TryConsume();
    if token.Some? && token.value.kind.Delim? {
      var d := token.value.kind.delim;
      if d == '|' {
        token := ts.TryConsume();
        if token.Some? && token.value.kind == Delim('|') {
          return Some(Column);
        }
      } else if DelimCombinator(d).Some? {
        return DelimCombinator(d);
      }
    }
    if token.Some? {
      ts.position := ts.position - 1;
    }
    if hasWs {
      return Some(Descendant);
    }
    ts.position := startIndex;
    return None;
  }

  /** `tryParseWqName`. */
  method TryParseWqName(ts: TokenStream, allowWildcard: bool) returns (w: Option<WqName>)
    requires ts.Valid()
    modifies ts`position
    ensures ts.Valid()
    ensures Parsed(w, ts.position) == WqNameAt(ts.tokens, old(ts.position), allowWildcard)
  {
    var startIndex := ts.position;
    var token := ts.TryConsume();
    if token.None? {
      return None;
    }
    var prefix := NameOf(token);
    var hasPipe := false;
    var localName: Option<string> := None;
    if prefix.None? && IsPipe(token) {
      hasPipe := true;
      token := ts.TryConsume();
      localName := NameOf(token);
    }
    if !hasPipe {
      token := ts.TryConsume();
      if IsPipe(token) {
        hasPipe := true;
        token := ts.TryConsume();
        localName := NameOf(token);
      }
    }
    if !Usable(localName, allowWildcard) {
      localName := prefix;
      prefix := None;
      ts.position := startIndex + 1;
    }
    if !Usable(localName, allowWildcard) {
      ts.position := startIndex;
      return None;
    }
    return Some(WqName(hasPipe, prefix, localName.value));
  }

  /** `tryParseTypeSelector`. */
  method TryParseTypeSelector(ts: TokenStream) returns (s: Option<Selector>)
    requires ts.Valid()
    modifies ts`position
    ensures ts.Valid()
    ensures Parsed(s, ts.position) == TypeAt(ts.tokens, old(ts.position))
  {
    var w := TryParseWqName(ts, true);
    if w.None? {
      return None;
    }
    return Some(Type(w.value));
  }

  /** `parseAttributeSelector`, called after the '['. */
  method ParseAttributeSelector(ts: TokenStream) returns (r: Result<Selector, ParseError>)
    requires ts.Valid()
    modifies ts`position, ts.errors
    ensures ts.Valid()
    ensures Gave(r, ts.position) == AttributeAt(ts.tokens, old(ts.position))
    ensures ts.errors.items == old(ts.errors.items) + Raised(r)
  {
    var _ := ts.SkipWhitespace();
    ghost var spec := AttributeAt(ts.tokens, old(ts.position));
    var w := TryParseWqName(ts, false);
    if w.None? {
      var e := ts.RecordParseException("Missing attribute name.", -1);
      return Failure(e);
    }
    var _ := ts.SkipWhitespace();
    ghost var p := ts.position;
    if !ts.HasMore() {
      var e := ts.RecordParseException("Attribute selector is not closed.", -1);
      return Failure(e);
    }
    assert spec == MatcherAt(ts.tokens, w.value, p);
    r := ParseAttributeMatcher(ts, w.value);
  }

  /** The part of `parseAttributeSelector` after the name, with a token left. */
  method ParseAttributeMatcher(ts: TokenStream, name: WqName) returns (r: Result<Selector, ParseError>)
    requires ts.Valid() && ts.position < ts.length
    modifies ts`position, ts.errors
    ensures ts.Valid()
    ensures Gave(r, ts.position) == MatcherAt(ts.tokens, name, old(ts.position))
    ensures ts.errors.items == old(ts.errors.items) + Raised(r)
  {
    ghost var p := ts.position;
    ghost var spec := MatcherAt(ts.tokens, name, p);
    var token := ts.TryConsume();
    var t := token.value;
    if t.kind == Sym(RightSquareBracket) {
      return Success(Attribute(name, Exists, "", None));
    }
    if !t.kind.Delim? || MatcherOf(t.kind.delim).None? {
      ts.position := ts.position - 1;
      var e := ts.RecordParseException("Invalid attribute matcher.", -1);
      return Failure(e);
    }
    var m := MatcherOf(t.kind.delim).value;
    if m != Exact {
      token := ts.TryConsume();
      if !(token.Some? && token.value.kind == Delim('=')) {
        if token.Some? {
          ts.position := ts.position - 1;
        }
        assert spec == Fail(ts.tokens, p + 1, "Invalid attribute matcher.");
        var e := ts.RecordParseException("Invalid attribute matcher.", -1);
        return Failure(e);
      }
    }
    assert spec == AttributeValueAt(ts.tokens, name, m, ts.position);
    r := ParseAttributeValue(ts, name, m);
  }

  /** The part of `parseAttributeSelector` after the matcher. */
  method ParseAttributeValue(ts: TokenStream, name: WqName, m: AttrMatcher) returns (r: Result<Selector, ParseError>)
    requires ts.Valid()
    modifies ts`position, ts.errors
    ensures ts.Valid()
    ensures Gave(r, ts.position) == AttributeValueAt(ts.tokens, name, m, old(ts.position))
    ensures ts.errors.items == old(ts.errors.items) + Raised(r)
  {
    var _ := ts.SkipWhitespace();
    ghost var q := ts.position;
    ghost var spec := AttributeValueAt(ts.tokens, name, m, old(ts.position));
    var token := ts.TryConsume();
    if !(token.Some? && (token.value.kind.Ident? || token.value.kind.Str?)) {
      if token.Some? {
        ts.position := ts.position - 1;
      }
      assert spec == Fail(ts.tokens, q, "Missing attribute value.");
      var e := ts.RecordParseException("Missing attribute value.", -1);
      return Failure(e);
    }
    var value := token.value.kind.value;
    var _ := ts.SkipWhitespace();
    assert spec == AttributeCloseAt(ts.tokens, name, m, value, ts.position);
    r := ParseAttributeClose(ts, name, m, value);
  }

  /** The part of `parseAttributeSelector` after the value. */
  method ParseAttributeClose(ts: TokenStream, name: WqName, m: AttrMatcher, value: string) returns (r: Result<Selector, ParseError>)
    requires ts.Valid()
    modifies ts`position, ts.errors
    ensures ts.Valid()
    ensures Gave(r, ts.position) == AttributeCloseAt(ts.tokens, name, m, value, old(ts.position))
    ensures ts.errors.items == old(ts.errors.items) + Raised(r)
  {
    ghost var close := AttributeCloseAt(ts.tokens, name, m, value, ts.position);
    var token := ts.TryConsume();
    if token.Some? && token.value.kind == Sym(RightSquareBracket) {
      return Success(Attribute(name, m, value, None));
    }
    if token.Some? && token.value.kind.Ident? {
      var cs := CaseModifier(token.value.kind.value);
      if cs.None? {
        ts.position := ts.position - 1;
        var e := ts.RecordParseException("Invalid attribute modifier.", -1);
        return Failure(e);
      }
      var _ := ts.SkipWhitespace();
      assert close == ModifierCloseAt(ts.tokens, name, m, value, cs, ts.position);
      r := ParseModifierClose(ts, name, m, value, cs);
      return;
    }
    if token.Some? {
      ts.position := ts.position - 1;
    }
    var e := ts.RecordParseException("Invalid attribute selector.", -1);
    return Failure(e);
  }

  /** The part of `parseAttributeSelector` after the modifier. */
  method ParseModifierClose(ts: TokenStream, name: WqName, m: AttrMatcher, value: string, cs: Option<bool>)
    returns (r: Result<Selector, ParseError>)
    requires ts.Valid()
    modifies ts`position, ts.errors
    ensures ts.Valid()
    ensures Gave(r, ts.position) == ModifierCloseAt(ts.tokens, name, m, value, cs, old(ts.position))
    ensures ts.errors.items == old(ts.errors.items) + Raised(r)
  {
    var token := ts.TryConsume();
    if token.Some? && token.value.kind == Sym(RightSquareBracket) {
      return Success(Attribute(name, m, value, cs));
    }
    if token.Some? {
      ts.position := ts.position - 1;
    }
    var e := ts.RecordParseException("Invalid attribute selector.", -1);
    return Failure(e);
  }
}
