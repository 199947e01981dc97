/**
 * The recursive routines of `SelectorParser` and `PseudoSelectorParser` as
 * methods over a TokenStream, each proved to leave the stream and give the
 * result its function in SelectorGrammar states, and to log exactly the
 * exception it raises. The private collection of the forgiving list is a
 * fresh log, so the stream's own log stays as it was.
 */
module SelectorParsing {
  import opened Wrappers
  import opened Chars
  import opened Tokens
  import opened Errors
  import opened TokenStreams
  import opened AnbNotations
  import opened AnbParsing
  import opened Selectors
  import opened SelectorScans
  import opened SelectorGrammar

  /** us before the units and cs before the combinators of r; an exception passes through. */
  ghost function Linked(us: seq<Selector>, cs: seq<Combinator>, r: Result<Links, ParseError>): Result<Links, ParseError>
  {
    match r
    case Failure(e) => Failure(e)
    case Success(Links(us', cs', q)) => Success(Links(us + us', cs + cs', q))
  }

  lemma PrefixedEmpty<T>(r: Result<Many<T>, ParseError>)
    ensures Prefixed([], r) == r
  {
    if r.Success? {
      assert [] + r.value.items == r.value.items;
    }
  }

  lemma LinkedEmpty(r: Result<Links, ParseError>)
    ensures Linked([], [], r) == r
  {
    if r.Success? {
      assert [] + r.value.units == r.value.units;
      assert [] + r.value.combinators == r.value.combinators;
    }
  }

  lemma PrefixedEnd<T>(xs: seq<T>, q: nat)
    ensures Prefixed(xs, Success(Many([], q))) == Success(Many(xs, q))
  {
    assert xs + [] == xs;
  }

  lemma LinkedEnd(us: seq<Selector>, cs: seq<Combinator>, q: nat)
    ensures Linked(us, cs, Success(Links([], [], q))) == Success(Links(us, cs, q))
  {
    assert us + [] == us;
    assert cs + [] == cs;
  }

  lemma PrefixedTwice<T>(a: seq<T>, b: seq<T>, r: Result<Many<T>, ParseError>)
    ensures Prefixed(a, Prefixed(b, r)) == Prefixed(a + b, r)
  {
    if r.Success? {
      AppendAssoc(a, b, r.value.items);
    }
  }

  lemma LinkedTwice(us: seq<Selector>, cs: seq<Combinator>, u: Selector, c: Combinator, r: Result<Links, ParseError>)
    ensures Linked(us, cs, Linked([u], [c], r)) == Linked(us + [u], cs + [c], r)
  {
    if r.Success? {
      AppendAssoc(us, [u], r.value.units);
      AppendAssoc(cs, [c], r.value.combinators);
    }
  }

  /** Where one segment ends and the next begins. */
  lemma SegmentsStep(tokens: seq<Token>, p: nat, e: nat)
    requires p <= |tokens| && e == AnyValueEnd(tokens, p, true, Depth(0, 0, 0))
    ensures Segments(tokens, p) == [tokens[p..e]] + (if e == |tokens| then [] else Segments(tokens, e + 1))
  {
  }

  /** The steps of CommaLoop: an item that raises, none, a last item, an item and a comma. */
  lemma CommaLoopFails(tokens: seq<Token>, p: nat, restore: nat, kind: InnerKind)
    requires restore <= p <= |tokens|
    requires InnerAt(tokens, WhitespaceEnd(tokens, p), kind).Failure?
    ensures CommaLoop(tokens, p, restore, kind) == Failure(InnerAt(tokens, WhitespaceEnd(tokens, p), kind).error)
  {
  }

  lemma CommaLoopStops(tokens: seq<Token>, p: nat, restore: nat, kind: InnerKind)
    requires restore <= p <= |tokens|
    requires var i := InnerAt(tokens, WhitespaceEnd(tokens, p), kind); i.Success? && i.value.value.None?
    ensures CommaLoop(tokens, p, restore, kind) == Success(Many([], restore))
  {
  }

  lemma CommaLoopLast(tokens: seq<Token>, p: nat, restore: nat, kind: InnerKind, x: Selector, q: nat)
    requires restore <= p <= |tokens|
    requires InnerAt(tokens, WhitespaceEnd(tokens, p), kind) == Success(Parsed(Some(x), q))
    requires var w := WhitespaceEnd(tokens, q); !(w < |tokens| && tokens[w].kind == Sym(Comma))
    ensures CommaLoop(tokens, p, restore, kind) == Success(Many([x], q))
  {
  }

  lemma CommaLoopNext(tokens: seq<Token>, p: nat, restore: nat, kind: InnerKind, x: Selector, q: nat, next: nat)
    requires restore <= p <= |tokens|
    requires InnerAt(tokens, WhitespaceEnd(tokens, p), kind) == Success(Parsed(Some(x), q))
    requires next == WhitespaceEnd(tokens, q) + 1 && next <= |tokens| && tokens[next - 1].kind == Sym(Comma)
    ensures p < next && q <= next
    ensures CommaLoop(tokens, p, restore, kind) == Prefixed([x], CommaLoop(tokens, next, q, kind))
  {
    var rest := CommaLoop(tokens, next, q, kind);
    assert CommaLoop(tokens, p, restore, kind) == Prefixed([x], rest);
  }

  /** Where the runs of subclasses, pseudo-classes and pseudo-compounds stop. */
  lemma SubclassRunStops(tokens: seq<Token>, p: nat)
    requires p <= |tokens|
    requires var s := SubclassAt(tokens, p); s.Success? && s.value.value.None?
    ensures SubclassRun(tokens, p) == Success(Many([], p))
  {
  }

  lemma PseudoClassRunStops(tokens: seq<Token>, p: nat)
    requires p <= |tokens|
    requires !ColonAt(tokens, p) || var c := PseudoClassAt(tokens, p + 1); c.Success? && c.value.value.None?
    ensures PseudoClassRun(tokens, p) == Success(Many([], p))
  {
  }

  lemma PseudoCompoundRunStops(tokens: seq<Token>, p: nat)
    requires p <= |tokens|
    requires var c := PseudoCompoundAt(tokens, p); c.Success? && c.value.value.None?
    ensures PseudoCompoundRun(tokens, p) == Success(Many([], p))
  {
  }

  /** The steps of ComplexRest: no combinator, a unit that raises, no unit, a unit. */
  lemma RestEnds(tokens: seq<Token>, p: nat, isReal: bool, ign: bool)
    requires p <= |tokens| && CombinatorAt(tokens, p).value.None?
    ensures ComplexRest(tokens, p, isReal, ign) == Success(Links([], [], p))
  {
  }

  lemma RestFails(tokens: seq<Token>, p: nat, isReal: bool, ign: bool)
    requires p <= |tokens|
    requires var c := CombinatorAt(tokens, p); c.value.Some? && PartAt(tokens, WhitespaceEnd(tokens, c.pos), isReal, ign).Failure?
    ensures var c := CombinatorAt(tokens, p);
      ComplexRest(tokens, p, isReal, ign) == Failure(PartAt(tokens, WhitespaceEnd(tokens, c.pos), isReal, ign).error)
  {
  }

  lemma RestStops(tokens: seq<Token>, p: nat, isReal: bool, ign: bool)
    requires p <= |tokens|
    requires CombinatorAt(tokens, p).value.Some?
    requires var c := CombinatorAt(tokens, p);
      var u := PartAt(tokens, WhitespaceEnd(tokens, c.pos), isReal, ign); u.Success? && u.value.value.None?
    ensures ComplexRest(tokens, p, isReal, ign) == Success(Links([], [], p))
  {
  }

  lemma RestContinues(tokens: seq<Token>, p: nat, isReal: bool, ign: bool)
    requires p <= |tokens|
    requires CombinatorAt(tokens, p).value.Some?
    requires var c := CombinatorAt(tokens, p);
      var u := PartAt(tokens, WhitespaceEnd(tokens, c.pos), isReal, ign); u.Success? && u.value.value.Some?
    ensures var c := CombinatorAt(tokens, p);
      var u := PartAt(tokens, WhitespaceEnd(tokens, c.pos), isReal, ign);
      ComplexRest(tokens, p, isReal, ign) == Linked([u.value.value.value], [c.value.value], ComplexRest(tokens, u.value.pos, isReal, ign))
  {
  }

  // ---------------------------------------------------------------- pseudo-classes

  /** `tryParsePseudoClassSelector`, after the colon. */
  method TryParsePseudoClassSelector(ts: TokenStream) returns (r: Result<Option<Selector>, ParseError>)
    requires ts.Valid()
    modifies ts`position, ts.errors
    ensures ts.Valid()
    ensures Observed(r, ts.position) == PseudoClassAt(ts.tokens, old(ts.position))
    ensures ts.errors.items == old(ts.errors.items) + Raised(r)
    decreases |ts.tokens|, 1
  {
    var startIndex := ts.position;
    var token := ts.TryConsume();
    if token.Some? && token.value.kind.Ident? {
      return Success(Some(KnownPseudo(Lower(token.value.kind.value))));
    }
    if token.Some? && token.value.kind.Function? {
      r := ParseFunctionalPseudoClass(ts, Lower(token.value.kind.value));
      return;
    }
    ts.position := startIndex;
    return Success(None);
  }

  /** The function-token branch of `tryParsePseudoClassSelector`, after that token. */
  method ParseFunctionalPseudoClass(ts: TokenStream, name: string) returns (r: Result<Option<Selector>, ParseError>)
    requires ts.Valid() && 0 < ts.position
    modifies ts`position, ts.errors
    ensures ts.Valid()
    ensures Observed(r, ts.position) == FunctionAt(ts.tokens, old(ts.position) - 1, name)
    ensures ts.errors.items == old(ts.errors.items) + Raised(r)
    decreases |ts.tokens|, 0
  {
    ghost var spec := FunctionAt(ts.tokens, ts.position - 1, name);
    var anyValue := ConsumeAnyValue(ts, false);
    var closeToken := ts.TryConsume();
    if closeToken.Some? && closeToken.value.kind == Sym(RightParenthesis) {
      if |anyValue| == 0 {
        var e := ts.RecordParseException("Missing argument for the :" + name + "() pseudo-class.", -1);
        return Failure(e);
      }
      r := ParseWholeArguments(anyValue, ts.errors, name);
      return;
    }
    if closeToken.Some? {
      ts.position := ts.position - 1;
    }
    var e := ts.RecordParseException("The function is not closed.", -1);
    return Failure(e);
  }

  /** The argument tokens on a fresh stream that shares the log; nothing but whitespace may remain. */
  method ParseWholeArguments(anyValue: seq<Token>, errors: ErrorLog, name: string) returns (r: Result<Option<Selector>, ParseError>)
    modifies errors
    ensures r == WholeArguments(anyValue, name)
    ensures errors.items == old(errors.items) + Raised(r)
    decreases |anyValue|, 19
  {
    var args := new TokenStream(anyValue, errors);
    var pc := ParseArguments(args, name);
    if pc.Failure? {
      return Failure(pc.error);
    }
    var _ := args.SkipWhitespace();
    if args.HasMore() {
      var e := args.RecordParseException("Unexpected token inside :" + name + "() pseudo-class.", -1);
      return Failure(e);
    }
    return Success(Some(pc.value));
  }

  /** The `match ($name)` of `tryParsePseudoClassSelector` on a fresh argument stream. */
  method ParseArguments(args: TokenStream, name: string) returns (r: Result<Selector, ParseError>)
    requires args.Valid() && args.position == 0
    modifies args`position, args.errors
    ensures args.Valid()
    ensures Gave(r, args.position) == ArgumentsAt(args.tokens, name)
    ensures args.errors.items == old(args.errors.items) + Raised(r)
    decreases |args.tokens|, 18
  {
    var _ := args.SkipWhitespace();
    if name == "has" {
      r := ParseHasPseudoClass(args);
    } else if name == "is" || name == "where" {
      var list := ParseForgivingSelectorList(args);
      r := Success(IsWhere(name, list));
    } else if name == "not" {
      r := ParseNotPseudoClass(args);
    } else if name == "nth-child" || name == "nth-last-child" {
      r := ParseChildIndexedPseudoClass(name, args);
    } else if name == "nth-of-type" || name == "nth-last-of-type" {
      r := ParseTypedChildIndexedPseudoClass(name, args);
    } else {
      var u := ParseUnknownPseudoClass(args, name, args.tokens);
      r := Success(u);
    }
  }

  /** `parseChildIndexedPseudoClass`. */
  method ParseChildIndexedPseudoClass(name: string, ts: TokenStream) returns (r: Result<Selector, ParseError>)
    requires ts.Valid()
    modifies ts`position, ts.errors
    ensures ts.Valid()
    ensures Gave(r, ts.position) == ChildIndexedArgs(ts.tokens, name, old(ts.position))
    ensures ts.errors.items == old(ts.errors.items) + Raised(r)
    decreases |ts.tokens|, 17
  {
    ghost var spec := ChildIndexedArgs(ts.tokens, name, ts.position);
    var invalidErrMsg := InvalidArgument(name);
    var anb := TryParse(ts);
    if anb.None? {
      assert spec == Fail(ts.tokens, ts.position, invalidErrMsg);
      var e := ts.RecordParseException(invalidErrMsg, -1);
      return Failure(e);
    }
    var plain := ChildIndexed(name, anb, None);
    ghost var w := WhitespaceEnd(ts.tokens, ts.position);
    var hasWs := ts.SkipWhitespace();
    if !hasWs {
      assert spec == Success(Parsed(Some(plain), w));
      return Success(plain);
    }
    var keywordOf := ts.TryConsume();
    if keywordOf.None? {
      assert spec == Success(Parsed(Some(plain), w));
      return Success(plain);
    }
    if !IsOfKeyword(keywordOf.value) {
      assert spec == Success(Parsed(Some(plain), w + 1));
      return Success(plain);
    }
    assert spec == OfAt(ts.tokens, name, anb.value, w + 1);
    r := ParseOfList(name, anb.value, ts);
  }

  /** The `of` branch of `parseChildIndexedPseudoClass`, after the keyword. */
  method ParseOfList(name: string, anb: AnbNotation, ts: TokenStream) returns (r: Result<Selector, ParseError>)
    requires ts.Valid()
    modifies ts`position, ts.errors
    ensures ts.Valid()
    ensures Gave(r, ts.position) == OfAt(ts.tokens, name, anb, old(ts.position))
    ensures ts.errors.items == old(ts.errors.items) + Raised(r)
    decreases |ts.tokens|, 16
  {
    var hasWs := ts.SkipWhitespace();
    if !hasWs {
      var e := ts.RecordParseException(InvalidArgument(name), -1);
      return Failure(e);
    }
    var of := TryParseCommaSeparatedList(ts, ComplexInner(true, false));
    if of.Failure? {
      return Failure(of.error);
    }
    if of.value.None? {
      var e := ts.RecordParseException(InvalidArgument(name), -1);
      return Failure(e);
    }
    return Success(ChildIndexed(name, Some(anb), of.value));
  }

  /** `parseHasPseudoClass`. */
  method ParseHasPseudoClass(ts: TokenStream) returns (r: Result<Selector, ParseError>)
    requires ts.Valid()
    modifies ts`position, ts.errors
    ensures ts.Valid()
    ensures Gave(r, ts.position) == HasArgs(ts.tokens, old(ts.position))
    ensures ts.errors.items == old(ts.errors.items) + Raised(r)
    decreases |ts.tokens|, 16
  {
    var nestedHas := ts.First(IsHasFunction);
    if nestedHas.Some? {
      var e := ts.RecordParseException("The :has() pseudo-class cannot be nested.", nestedHas.value.offset);
      return Failure(e);
    }
    var selector := TryParseCommaSeparatedList(ts, RelativeInner(false));
    if selector.Failure? {
      return Failure(selector.error);
    }
    if selector.value.None? {
      var e := ts.RecordParseException("Invalid argument for the :has() pseudo-class.", -1);
      return Failure(e);
    }
    return Success(Has(selector.value.value));
  }

  /** `parseNotPseudoClass`. */
  method ParseNotPseudoClass(ts: TokenStream) returns (r: Result<Selector, ParseError>)
    requires ts.Valid()
    modifies ts`position, ts.errors
    ensures ts.Valid()
    ensures Gave(r, ts.position) == NotArgs(ts.tokens, old(ts.position))
    ensures ts.errors.items == old(ts.errors.items) + Raised(r)
    decreases |ts.tokens|, 16
  {
    var selector := TryParseCommaSeparatedList(ts, ComplexInner(true, true));
    if selector.Failure? {
      return Failure(selector.error);
    }
    if selector.value.None? {
      var e := ts.RecordParseException("Invalid argument for the :not() pseudo-class.", -1);
      return Failure(e);
    }
    return Success(Not(selector.value.value));
  }

  /** `parseTypedChildIndexedPseudoClass`. */
  method ParseTypedChildIndexedPseudoClass(name: string, ts: TokenStream) returns (r: Result<Selector, ParseError>)
    requires ts.Valid()
    modifies ts`position, ts.errors
    ensures ts.Valid()
    ensures Gave(r, ts.position) == TypedArgs(ts.tokens, name, old(ts.position))
    ensures ts.errors.items == old(ts.errors.items) + Raised(r)
  {
    var anb := TryParse(ts);
    if anb.None? {
      var e := ts.RecordParseException(InvalidArgument(name), -1);
      return Failure(e);
    }
    return Success(TypedChildIndexed(name, anb));
  }

  /** `parseUnknownPseudoClass`: the stream is used up and the raw arguments are kept. */
  method ParseUnknownPseudoClass(ts: TokenStream, name: string, args: seq<Token>) returns (s: Selector)
    requires ts.Valid()
    modifies ts`position
    ensures ts.Valid() && ts.position == ts.length
    ensures s == UnknownPseudoClass(name, true, args)
  {
    while ts.HasMore()
      invariant ts.Valid()
      decreases ts.length - ts.position
    {
      var _ := ts.TryConsume();
    }
    return UnknownPseudoClass(name, true, args);
  }

  // ---------------------------------------------------------------- forgiving lists

  /**
   * `parseForgivingSelectorList`: cuts the rest of the stream into
   * segments, then keeps the selector of each segment that parses to its
   * end. The exceptions go to a private log.
   */
  method ParseForgivingSelectorList(ts: TokenStream) returns (list: Selector)
    requires ts.Valid()
    modifies ts`position
    ensures ts.Valid() && ts.position == ts.length
    ensures list == Forgiving(ForgivingAt(ts.tokens, old(ts.position)))
    decreases |ts.tokens|, 15
  {
    var errorsToIgnore := new ErrorLog();
    var segments := CutSegments(ts);
    var selectors := KeepParsed(segments, |ts.tokens|, errorsToIgnore);
    return Forgiving(selectors);
  }

  /** The first loop of `parseForgivingSelectorList`: the segments, each stop token dropped. */
  method CutSegments(ts: TokenStream) returns (segments: seq<seq<Token>>)
    requires ts.Valid()
    modifies ts`position
    ensures ts.Valid() && ts.position == ts.length
    ensures segments == Segments(ts.tokens, old(ts.position))
  {
    ghost var start := ts.position;
    segments := [];
    while true
      invariant ts.Valid() && start <= ts.position
      invariant segments + Segments(ts.tokens, ts.position) == Segments(ts.tokens, start)
      decreases ts.length - ts.position
    {
      ghost var here := ts.position;
      var anyValue := ConsumeAnyValue(ts, true);
      SegmentsStep(ts.tokens, here, ts.position);
      var rest := if ts.position == ts.length then [] else Segments(ts.tokens, ts.position + 1);
      AppendAssoc(segments, [anyValue], rest);
      segments := segments + [anyValue];
      var token := ts.TryConsume();
      if token.None? {
        break;
      }
    }
  }

  /**
   * The second loop of `parseForgivingSelectorList`: each segment gets a
   * stream of its own over the private log, and is kept when a real
   * complex selector takes it all but whitespace.
   */
  method KeepParsed(segments: seq<seq<Token>>, bound: nat, errorsToIgnore: ErrorLog) returns (selectors: seq<Selector>)
    requires forall k :: 0 <= k < |segments| ==> |segments[k]| <= bound
    modifies errorsToIgnore
    ensures selectors == Kept(segments, bound)
    decreases bound, 14
  {
    selectors := [];
    var i := 0;
    while i < |segments|
      invariant 0 <= i <= |segments|
      invariant selectors + Kept(segments[i..], bound) == Kept(segments, bound)
    {
      assert segments[i..][1..] == segments[i + 1..];
      var segment := new TokenStream(segments[i], errorsToIgnore);
      var _ := segment.SkipWhitespace();
      var complex := TryParseComplexSelector(segment, true, true);
      var keep := false;
      if complex.Success? && complex.value.Some? {
        var _ := segment.SkipWhitespace();
        keep := !segment.HasMore();
      }
      assert SegmentSelector(segments[i]) == if keep then Some(complex.value.value) else None;
      AppendAssoc(selectors, if keep then [complex.value.value] else [], Kept(segments[i + 1..], bound));
      if keep {
        selectors := selectors + [complex.value.value];
      }
      i := i + 1;
    }
    assert segments[0..] == segments;
  }

  // ---------------------------------------------------------------- lists

  /** `tryParseCommaSeparatedList`, with the item routine chosen by kind. */
  method TryParseCommaSeparatedList(ts: TokenStream, kind: InnerKind) returns (r: Result<Option<Selector>, ParseError>)
    requires ts.Valid()
    modifies ts`position, ts.errors
    ensures ts.Valid()
    ensures Observed(r, ts.position) == CommaListAt(ts.tokens, old(ts.position), kind)
    ensures ts.errors.items == old(ts.errors.items) + Raised(r)
    decreases |ts.tokens|, 13
  {
    var items := ParseCommaItems(ts, kind);
    if items.Failure? {
      return Failure(items.error);
    }
    var selectors := items.value.items;
    if |selectors| == 0 {
      return Success(None);
    }
    if |selectors| == 1 {
      return Success(Some(selectors[0]));
    }
    return Success(Some(Logical(false, selectors)));
  }

  /** The loop of `tryParseCommaSeparatedList`, ending with the restore of the position. */
  method ParseCommaItems(ts: TokenStream, kind: InnerKind) returns (r: Result<Many<Selector>, ParseError>)
    requires ts.Valid()
    modifies ts`position, ts.errors
    ensures ts.Valid()
    ensures r == CommaLoop(ts.tokens, old(ts.position), old(ts.position), kind)
    ensures r.Success? ==> ts.position == r.value.pos
    ensures ts.errors.items == old(ts.errors.items) + Raised(r)
    decreases |ts.tokens|, 12
  {
    ghost var start := ts.position;
    var restoreIndex: nat := ts.position;
    var selectors: seq<Selector> := [];
    PrefixedEmpty(CommaLoop(ts.tokens, start, start, kind));
    while true
      invariant ts.Valid() && restoreIndex <= ts.position
      invariant ts.errors.items == old(ts.errors.items)
      invariant Prefixed(selectors, CommaLoop(ts.tokens, ts.position, restoreIndex, kind)) == CommaLoop(ts.tokens, start, start, kind)
      decreases ts.length - ts.position
    {
      ghost var here := ts.position;
      var item, after, more := ParseCommaItem(ts, kind, restoreIndex);
      if item.Failure? {
        return Failure(item.error);
      }
      if item.value.None? {
        PrefixedEnd(selectors, restoreIndex);
        break;
      }
      restoreIndex := after;
      if !more {
        selectors := selectors + [item.value.value];
        break;
      }
      PrefixedTwice(selectors, [item.value.value], CommaLoop(ts.tokens, ts.position, restoreIndex, kind));
      selectors := selectors + [item.value.value];
    }
    ts.position := restoreIndex;
    return Success(Many(selectors, restoreIndex));
  }

  /** One round of that loop: an item, and whether a comma follows it. */
  method ParseCommaItem(ts: TokenStream, kind: InnerKind, restore: nat) returns (item: Result<Option<Selector>, ParseError>, after: nat, more: bool)
    requires ts.Valid() && restore <= ts.position
    modifies ts`position, ts.errors
    ensures ts.Valid()
    ensures ts.errors.items == old(ts.errors.items) + Raised(item)
    ensures item.Failure? ==> CommaLoop(ts.tokens, old(ts.position), restore, kind) == Failure(item.error)
    ensures item.Success? && item.value.None? ==> CommaLoop(ts.tokens, old(ts.position), restore, kind) == Success(Many([], restore))
    ensures item.Success? && item.value.Some? && !more ==>
      CommaLoop(ts.tokens, old(ts.position), restore, kind) == Success(Many([item.value.value], after))
    ensures item.Success? && item.value.Some? && more ==>
      old(ts.position) < ts.position && after <= ts.position &&
      CommaLoop(ts.tokens, old(ts.position), restore, kind) == Prefixed([item.value.value], CommaLoop(ts.tokens, ts.position, after, kind))
    decreases |ts.tokens|, 11
  {
    ghost var here := ts.position;
    var _ := ts.SkipWhitespace();
    item := ParseInner(ts, kind);
    after := ts.position;
    more := false;
    if item.Failure? {
      CommaLoopFails(ts.tokens, here, restore, kind);
      return;
    }
    if item.value.None? {
      CommaLoopStops(ts.tokens, here, restore, kind);
      return;
    }
    more := SkipComma(ts);
    if more {
      CommaLoopNext(ts.tokens, here, restore, kind, item.value.value, after, ts.position);
    } else {
      CommaLoopLast(ts.tokens, here, restore, kind, item.value.value, after);
    }
  }

  /** Whitespace and a comma after a list item; on a comma the stream is past it. */
  method SkipComma(ts: TokenStream) returns (comma: bool)
    requires ts.Valid()
    modifies ts`position
    ensures ts.Valid()
    ensures var w := WhitespaceEnd(ts.tokens, old(ts.position));
      comma == (w < |ts.tokens| && ts.tokens[w].kind == Sym(Comma)) && (comma ==> ts.position == w + 1)
  {
    var _ := ts.SkipWhitespace();
    var token := ts.TryConsume();
    comma := token.Some? && token.value.kind == Sym(Comma);
  }

  /** The item closure a list was given. */
  method ParseInner(ts: TokenStream, kind: InnerKind) returns (r: Result<Option<Selector>, ParseError>)
    requires ts.Valid()
    modifies ts`position, ts.errors
    ensures ts.Valid()
    ensures Observed(r, ts.position) == InnerAt(ts.tokens, old(ts.position), kind)
    ensures ts.errors.items == old(ts.errors.items) + Raised(r)
    decreases |ts.tokens|, 10
  {
    match kind
    case ComplexInner(isReal, ign) =>
      r := TryParseComplexSelector(ts, isReal, ign);
    case RelativeInner(isReal) =>
      r := TryParseRelativeSelector(ts, isReal);
  }

  // ---------------------------------------------------------------- complex selectors

  /** `tryParseRelativeSelector`. */
  method TryParseRelativeSelector(ts: TokenStream, isReal: bool) returns (r: Result<Option<Selector>, ParseError>)
    requires ts.Valid()
    modifies ts`position, ts.errors
    ensures ts.Valid()
    ensures Observed(r, ts.position) == RelativeAt(ts.tokens, old(ts.position), isReal)
    ensures ts.errors.items == old(ts.errors.items) + Raised(r)
    decreases |ts.tokens|, 9
  {
    var startIndex := ts.position;
    var combinator := TryParseCombinator(ts);
    var c := if combinator.Some? then combinator.value else Descendant;
    var _ := ts.SkipWhitespace();
    var complex := TryParseComplexSelector(ts, isReal, false);
    if complex.Failure? {
      return Failure(complex.error);
    }
    if complex.value.None? {
      ts.position := startIndex;
      return Success(None);
    }
    return Success(Some(Relative(c, complex.value.value)));
  }

  /** `tryParseComplexSelector`. */
  method TryParseComplexSelector(ts: TokenStream, isReal: bool, ign: bool) returns (r: Result<Option<Selector>, ParseError>)
    requires ts.Valid()
    modifies ts`position, ts.errors
    ensures ts.Valid()
    ensures Observed(r, ts.position) == ComplexAt(ts.tokens, old(ts.position), isReal, ign)
    ensures ts.errors.items == old(ts.errors.items) + Raised(r)
    decreases |ts.tokens|, 8
  {
    var unit := ParsePart(ts, isReal, ign);
    if unit.Failure? {
      return Failure(unit.error);
    }
    if unit.value.None? {
      return Success(None);
    }
    var links := ParseLinks(ts, isReal, ign);
    if links.Failure? {
      return Failure(links.error);
    }
    if |links.value.units| == 0 {
      return Success(unit.value);
    }
    return Success(Some(Complex([unit.value.value] + links.value.units, links.value.combinators)));
  }

  /** The loop of `tryParseComplexSelector`: combinators and the units after them. */
  method ParseLinks(ts: TokenStream, isReal: bool, ign: bool) returns (r: Result<Links, ParseError>)
    requires ts.Valid()
    modifies ts`position, ts.errors
    ensures ts.Valid()
    ensures r == ComplexRest(ts.tokens, old(ts.position), isReal, ign)
    ensures r.Success? ==> ts.position == r.value.pos
    ensures ts.errors.items == old(ts.errors.items) + Raised(r)
    decreases |ts.tokens|, 7
  {
    ghost var start := ts.position;
    var units: seq<Selector> := [];
    var combinators: seq<Combinator> := [];
    LinkedEmpty(ComplexRest(ts.tokens, start, isReal, ign));
    while true
      invariant ts.Valid()
      invariant ts.errors.items == old(ts.errors.items)
      invariant Linked(units, combinators, ComplexRest(ts.tokens, ts.position, isReal, ign)) == ComplexRest(ts.tokens, start, isReal, ign)
      decreases ts.length - ts.position
    {
      var index := ts.position;
      var combinator := TryParseCombinator(ts);
      if combinator.None? {
        RestEnds(ts.tokens, index, isReal, ign);
        LinkedEnd(units, combinators, index);
        break;
      }
      var _ := ts.SkipWhitespace();
      var unit := ParsePart(ts, isReal, ign);
      if unit.Failure? {
        RestFails(ts.tokens, index, isReal, ign);
        return Failure(unit.error);
      }
      if unit.value.None? {
        RestStops(ts.tokens, index, isReal, ign);
        LinkedEnd(units, combinators, index);
        ts.position := index;
        break;
      }
      RestContinues(ts.tokens, index, isReal, ign);
      LinkedTwice(units, combinators, unit.value.value, combinator.value, ComplexRest(ts.tokens, ts.position, isReal, ign));
      combinators := combinators + [combinator.value];
      units := units + [unit.value.value];
    }
    return Success(Links(units, combinators, ts.position));
  }

  /** `$real ? tryParseCompoundSelector(…) : tryParseComplexSelectorUnit(…)`. */
  method ParsePart(ts: TokenStream, isReal: bool, ign: bool) returns (r: Result<Option<Selector>, ParseError>)
    requires ts.Valid()
    modifies ts`position, ts.errors
    ensures ts.Valid()
    ensures Observed(r, ts.position) == PartAt(ts.tokens, old(ts.position), isReal, ign)
    ensures ts.errors.items == old(ts.errors.items) + Raised(r)
    decreases |ts.tokens|, 6
  {
    if isReal {
      r := TryParseCompoundSelector(ts, ign);
    } else {
      r := TryParseComplexSelectorUnit(ts, ign);
    }
  }

  /** `tryParseComplexSelectorUnit`. */
  method TryParseComplexSelectorUnit(ts: TokenStream, ign: bool) returns (r: Result<Option<Selector>, ParseError>)
    requires ts.Valid()
    modifies ts`position, ts.errors
    ensures ts.Valid()
    ensures Observed(r, ts.position) == UnitAt(ts.tokens, old(ts.position), ign)
    ensures ts.errors.items == old(ts.errors.items) + Raised(r)
    decreases |ts.tokens|, 5
  {
    var selectors: seq<Selector> := [];
    var compound := TryParseCompoundSelector(ts, ign);
    if compound.Failure? {
      return Failure(compound.error);
    }
    if compound.value.Some? {
      selectors := [compound.value.value];
    }
    var pseudos := ParsePseudoCompounds(ts);
    if pseudos.Failure? {
      return Failure(pseudos.error);
    }
    selectors := selectors + pseudos.value.items;
    if |selectors| == 0 {
      return Success(None);
    }
    if |selectors| == 1 {
      return Success(Some(selectors[0]));
    }
    return Success(Some(Logical(true, selectors)));
  }

  /** The loop of `tryParseComplexSelectorUnit`: pseudo-compound selectors, AND lists flattened. */
  method ParsePseudoCompounds(ts: TokenStream) returns (r: Result<Many<Selector>, ParseError>)
    requires ts.Valid()
    modifies ts`position, ts.errors
    ensures ts.Valid()
    ensures r == PseudoCompoundRun(ts.tokens, old(ts.position))
    ensures r.Success? ==> ts.position == r.value.pos
    ensures ts.errors.items == old(ts.errors.items) + Raised(r)
    decreases |ts.tokens|, 4
  {
    ghost var start := ts.position;
    var selectors: seq<Selector> := [];
    PrefixedEmpty(PseudoCompoundRun(ts.tokens, start));
    while true
      invariant ts.Valid()
      invariant ts.errors.items == old(ts.errors.items)
      invariant Prefixed(selectors, PseudoCompoundRun(ts.tokens, ts.position)) == PseudoCompoundRun(ts.tokens, start)
      decreases ts.length - ts.position
    {
      ghost var here := ts.position;
      var pseudo := TryParsePseudoCompoundSelector(ts);
      if pseudo.Failure? {
        return Failure(pseudo.error);
      }
      if pseudo.value.None? {
        PseudoCompoundRunStops(ts.tokens, here);
        PrefixedEnd(selectors, here);
        break;
      }
      var p := pseudo.value.value;
      var flat := if p.Logical? && p.isAnd then p.sels else [p];
      PrefixedTwice(selectors, flat, PseudoCompoundRun(ts.tokens, ts.position));
      selectors := selectors + flat;
    }
    return Success(Many(selectors, ts.position));
  }

  /** `tryParseCompoundSelector`. */
  method TryParseCompoundSelector(ts: TokenStream, ign: bool) returns (r: Result<Option<Selector>, ParseError>)
    requires ts.Valid()
    modifies ts`position, ts.errors
    ensures ts.Valid()
    ensures Observed(r, ts.position) == CompoundAt(ts.tokens, old(ts.position), ign)
    ensures ts.errors.items == old(ts.errors.items) + Raised(r)
    decreases |ts.tokens|, 4
  {
    var typeSelector := TryParseTypeSelector(ts);
    var subclasses := ParseSubclasses(ts);
    if subclasses.Failure? {
      return Failure(subclasses.error);
    }
    if typeSelector.None? && |subclasses.value.items| == 0 {
      return Success(None);
    }
    return Success(Some(Compound((if typeSelector.Some? then [typeSelector.value] else []) + subclasses.value.items, ign)));
  }

  /** The loop of `tryParseCompoundSelector`: the subclass selectors. */
  method ParseSubclasses(ts: TokenStream) returns (r: Result<Many<Selector>, ParseError>)
    requires ts.Valid()
    modifies ts`position, ts.errors
    ensures ts.Valid()
    ensures r == SubclassRun(ts.tokens, old(ts.position))
    ensures r.Success? ==> ts.position == r.value.pos
    ensures ts.errors.items == old(ts.errors.items) + Raised(r)
    decreases |ts.tokens|, 3
  {
    ghost var start := ts.position;
    var subclasses: seq<Selector> := [];
    PrefixedEmpty(SubclassRun(ts.tokens, start));
    while true
      invariant ts.Valid()
      invariant ts.errors.items == old(ts.errors.items)
      invariant Prefixed(subclasses, SubclassRun(ts.tokens, ts.position)) == SubclassRun(ts.tokens, start)
      decreases ts.length - ts.position
    {
      ghost var here := ts.position;
      var subclass := TryParseSubclassSelector(ts);
      if subclass.Failure? {
        return Failure(subclass.error);
      }
      if subclass.value.None? {
        SubclassRunStops(ts.tokens, here);
        PrefixedEnd(subclasses, here);
        break;
      }
      PrefixedTwice(subclasses, [subclass.value.value], SubclassRun(ts.tokens, ts.position));
      subclasses := subclasses + [subclass.value.value];
    }
    return Success(Many(subclasses, ts.position));
  }

  /** `tryParsePseudoCompoundSelector`. */
  method TryParsePseudoCompoundSelector(ts: TokenStream) returns (r: Result<Option<Selector>, ParseError>)
    requires ts.Valid()
    modifies ts`position, ts.errors
    ensures ts.Valid()
    ensures Observed(r, ts.position) == PseudoCompoundAt(ts.tokens, old(ts.position))
    ensures ts.errors.items == old(ts.errors.items) + Raised(r)
    decreases |ts.tokens|, 3
  {
    var token := ts.TryConsume();
    if !(token.Some? && token.value.kind == Sym(Colon)) {
      if token.Some? {
        ts.position := ts.position - 1;
      }
      return Success(None);
    }
    var pseudoElement := TryParsePseudoElementSelector(ts);
    if pseudoElement.Failure? {
      return Failure(pseudoElement.error);
    }
    if pseudoElement.value.None? {
      ts.position := ts.position - 1;
      return Success(None);
    }
    var classes := ParsePseudoClasses(ts);
    if classes.Failure? {
      return Failure(classes.error);
    }
    if |classes.value.items| == 0 {
      return Success(pseudoElement.value);
    }
    return Success(Some(Logical(true, [pseudoElement.value.value] + classes.value.items)));
  }

  /** The loop of `tryParsePseudoCompoundSelector`: pseudo-classes, each after a colon. */
  method ParsePseudoClasses(ts: TokenStream) returns (r: Result<Many<Selector>, ParseError>)
    requires ts.Valid()
    modifies ts`position, ts.errors
    ensures ts.Valid()
    ensures r == PseudoClassRun(ts.tokens, old(ts.position))
    ensures r.Success? ==> ts.position == r.value.pos
    ensures ts.errors.items == old(ts.errors.items) + Raised(r)
    decreases |ts.tokens|, 2
  {
    ghost var start := ts.position;
    var classes: seq<Selector> := [];
    PrefixedEmpty(PseudoClassRun(ts.tokens, start));
    while true
      invariant ts.Valid()
      invariant ts.errors.items == old(ts.errors.items)
      invariant Prefixed(classes, PseudoClassRun(ts.tokens, ts.position)) == PseudoClassRun(ts.tokens, start)
      decreases ts.length - ts.position
    {
      ghost var here := ts.position;
      var token := ts.TryConsume();
      if !(token.Some? && token.value.kind == Sym(Colon)) {
        if token.Some? {
          ts.position := ts.position - 1;
        }
        PseudoClassRunStops(ts.tokens, here);
        PrefixedEnd(classes, here);
        break;
      }
      var pseudoClass := TryParsePseudoClassSelector(ts);
      if pseudoClass.Failure? {
        return Failure(pseudoClass.error);
      }
      if pseudoClass.value.None? {
        ts.position := ts.position - 1;
        PseudoClassRunStops(ts.tokens, here);
        PrefixedEnd(classes, here);
        break;
      }
      PrefixedTwice(classes, [pseudoClass.value.value], PseudoClassRun(ts.tokens, ts.position));
      classes := classes + [pseudoClass.value.value];
    }
    return Success(Many(classes, ts.position));
  }

  /** `tryParsePseudoElementSelector`, after the first colon. */
  method TryParsePseudoElementSelector(ts: TokenStream) returns (r: Result<Option<Selector>, ParseError>)
    requires ts.Valid()
    modifies ts`position, ts.errors
    ensures ts.Valid()
    ensures Observed(r, ts.position) == PseudoElementAt(ts.tokens, old(ts.position))
    ensures ts.errors.items == old(ts.errors.items) + Raised(r)
    decreases |ts.tokens|, 2
  {
    var startIndex := ts.position;
    var token := ts.TryConsume();
    if token.Some? && token.value.kind.Ident? {
      var name := Lower(token.value.kind.value);
      if name in LegacyNames() {
        return Success(Some(LegacyPseudoElement(name)));
      }
    }
    if token.Some? && token.value.kind == Sym(Colon) {
      var pseudoClass := TryParsePseudoClassSelector(ts);
      if pseudoClass.Failure? {
        return Failure(pseudoClass.error);
      }
      if pseudoClass.value.Some? {
        var c := pseudoClass.value.value;
        return Success(Some(PseudoElement(PseudoName(c), PseudoFunctional(c), PseudoArgs(c))));
      }
    }
    ts.position := startIndex;
    return Success(None);
  }

  /** `tryParseSubclassSelector`. */
  method TryParseSubclassSelector(ts: TokenStream) returns (r: Result<Option<Selector>, ParseError>)
    requires ts.Valid()
    modifies ts`position, ts.errors
    ensures ts.Valid()
    ensures Observed(r, ts.position) == SubclassAt(ts.tokens, old(ts.position))
    ensures ts.errors.items == old(ts.errors.items) + Raised(r)
    decreases |ts.tokens|, 2, 1
  {
    ghost var p := ts.position;
    ghost var spec := SubclassAt(ts.tokens, p);
    var token := ts.TryConsume();
    if token.Some? && token.value.kind.Hash? {
      if token.value.kind.isIdType {
        assert spec == Success(Parsed(Some(Id(token.value.kind.value)), p + 1));
        return Success(Some(Id(token.value.kind.value)));
      }
      ts.position := ts.position - 1;
      assert spec == Fail(ts.tokens, p, "Invalid ID selector.");
      var e := ts.RecordParseException("Invalid ID selector.", -1);
      return Failure(e);
    }
    if token.Some? && token.value.kind == Delim('.') {
      r := ParseClassName(ts);
      return;
    }
    if token.Some? && token.value.kind == Sym(LeftSquareBracket) {
      r := ParseSubclassAttribute(ts);
      return;
    }
    if token.Some? && token.value.kind == Sym(Colon) {
      r := ParseSubclassPseudoClass(ts);
      return;
    }
    if token.Some? {
      ts.position := ts.position - 1;
    }
    assert spec == Success(Parsed(None, p));
    return Success(None);
  }

  /** The attribute branch of `tryParseSubclassSelector`, after the '['. */
  method ParseSubclassAttribute(ts: TokenStream) returns (r: Result<Option<Selector>, ParseError>)
    requires ts.Valid() && 0 < ts.position <= |ts.tokens| && ts.tokens[ts.position - 1].kind == Sym(LeftSquareBracket)
    modifies ts`position, ts.errors
    ensures ts.Valid()
    ensures Observed(r, ts.position) == SubclassAt(ts.tokens, old(ts.position) - 1)
    ensures ts.errors.items == old(ts.errors.items) + Raised(r)
  {
    assert SubclassAt(ts.tokens, ts.position - 1) == AttributeAt(ts.tokens, ts.position);
    var attribute := ParseAttributeSelector(ts);
    if attribute.Failure? {
      return Failure(attribute.error);
    }
    return Success(Some(attribute.value));
  }

  /** The pseudo-class branch of `tryParseSubclassSelector`, after the colon; none gives the colon back. */
  method ParseSubclassPseudoClass(ts: TokenStream) returns (r: Result<Option<Selector>, ParseError>)
    requires ts.Valid() && 0 < ts.position <= |ts.tokens| && ts.tokens[ts.position - 1].kind == Sym(Colon)
    modifies ts`position, ts.errors
    ensures ts.Valid()
    ensures Observed(r, ts.position) == SubclassAt(ts.tokens, old(ts.position) - 1)
    ensures ts.errors.items == old(ts.errors.items) + Raised(r)
    decreases |ts.tokens|, 2, 0
  {
    r := TryParsePseudoClassSelector(ts);
    if r.Success? && r.value.None? {
      ts.position := ts.position - 1;
    }
  }

  /** The class branch of `tryParseSubclassSelector`, after the '.'. */
  method ParseClassName(ts: TokenStream) returns (r: Result<Option<Selector>, ParseError>)
    requires ts.Valid() && 0 < ts.position <= |ts.tokens| && ts.tokens[ts.position - 1].kind == Delim('.')
    modifies ts`position, ts.errors
    ensures ts.Valid()
    ensures Observed(r, ts.position) == SubclassAt(ts.tokens, old(ts.position) - 1)
    ensures ts.errors.items == old(ts.errors.items) + Raised(r)
  {
    var token := ts.TryConsume();
    if token.Some? && token.value.kind.Ident? {
      return Success(Some(Class(token.value.kind.value)));
    }
    if token.Some? {
      ts.position := ts.position - 1;
    }
    var e := ts.RecordParseException("Invalid class selector.", -1);
    return Failure(e);
  }

}
