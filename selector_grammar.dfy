/**
 * The recursive part of `SelectorParser` and `PseudoSelectorParser`
 * (sections 4, 5.3, 6 and 16 of Selectors Level 4) as one group of
 * mutually recursive functions. Each states what a routine yields from a
 * start position and where it leaves the stream, or the exception it
 * raises. The routines inside the parentheses of a functional pseudo-class
 * work on the argument tokens, a shorter sequence; every other call stays
 * on the same tokens and either moves forward or goes to a lower routine,
 * which is what the `decreases` clauses say.
 */
module SelectorGrammar {
  import opened Wrappers
  import opened Chars
  import opened Tokens
  import opened Errors
  import opened TokenStreams
  import opened AnbNotations
  import opened AnbParsing
  import opened Selectors
  import opened SelectorScans

  /** The items a repeating routine collects and the position after the last. */
  datatype Many<T> = Many(items: seq<T>, pos: nat)

  /** The units after the first of a complex selector, with the combinators before them. */
  datatype Links = Links(units: seq<Selector>, combinators: seq<Combinator>, pos: nat)

  /** The items of a comma-separated list: complex selectors, or relative ones. */
  datatype InnerKind = ComplexInner(isReal: bool, ignoreDefaultNamespace: bool) | RelativeInner(isReal: bool)

  /** A routine that yields none leaves the stream at start; one that yields a value has moved on. */
  predicate Steps<T>(r: Outcome<T>, start: nat, n: nat)
  {
    r.Success? ==>
      (r.value.value.None? ==> r.value.pos == start) &&
      (r.value.value.Some? ==> start < r.value.pos <= n)
  }

  /** A routine that always yields a value, when it does not raise. */
  predicate Yields<T>(r: Outcome<T>, n: nat)
  {
    r.Success? ==> r.value.value.Some? && r.value.pos <= n
  }

  /** xs before the items of r; an exception passes through. */
  function Prefixed<T>(xs: seq<T>, r: Result<Many<T>, ParseError>): Result<Many<T>, ParseError>
  {
    match r
    case Failure(e) => Failure(e)
    case Success(Many(ys, q)) => Success(Many(xs + ys, q))
  }

  /** The input pseudo-classes. */
  function InputNames(): set<string>
  {
    {"checked", "disabled", "enabled", "indeterminate", "optional", "read-only", "read-write", "required"}
  }

  /** The pseudo-elements that may be written with a single colon. */
  function LegacyNames(): set<string>
  {
    {"before", "after", "first-line", "first-letter"}
  }

  /** The non-functional pseudo-class a lower-cased identifier names. */
  function KnownPseudo(name: string): Selector
  {
    if name == "any-link" then AnyLink
    else if name in InputNames() then Input(name)
    else if name in {"first-child", "last-child", "only-child"} then ChildIndexed(name, None, None)
    else if name in {"first-of-type", "last-of-type", "only-of-type"} then TypedChildIndexed(name, None)
    else if name == "empty" then Empty
    else if name == "root" then Root
    else if name == "scope" then Scope
    else UnknownPseudoClass(name, false, [])
  }

  /** The `name` field of a pseudo-selector. */
  function PseudoName(s: Selector): string
  {
    match s
    case AnyLink => "any-link"
    case Empty => "empty"
    case Root => "root"
    case Scope => "scope"
    case Input(n) => n
    case ChildIndexed(n, _, _) => n
    case TypedChildIndexed(n, _) => n
    case Not(_) => "not"
    case Has(_) => "has"
    case IsWhere(n, _) => n
    case UnknownPseudoClass(n, _, _) => n
    case PseudoElement(n, _, _) => n
    case LegacyPseudoElement(n) => n
    case _ => ""
  }

  /** The `isFunctional` field: the child-indexed classes are functional when they carry an An+B. */
  function PseudoFunctional(s: Selector): bool
  {
    match s
    case ChildIndexed(_, anb, _) => anb.Some?
    case TypedChildIndexed(_, anb) => anb.Some?
    case Not(_) => true
    case Has(_) => true
    case IsWhere(_, _) => true
    case UnknownPseudoClass(_, f, _) => f
    case PseudoElement(_, f, _) => f
    case _ => false
  }

  /** The `args` field: only the unknown pseudo-classes store their argument tokens. */
  function PseudoArgs(s: Selector): seq<Token>
  {
    match s
    case UnknownPseudoClass(_, _, a) => a
    case PseudoElement(_, _, a) => a
    case _ => []
  }

  /** A `has(` function token, in any case. */
  predicate IsHasFunction(t: Token)
  {
    t.kind.Function? && Lower(t.kind.value) == "has"
  }

  /** The keyword `of`, in any case. */
  predicate IsOfKeyword(t: Token)
  {
    t.kind.Ident? && Lower(t.kind.value) == "of"
  }

  /** A colon token at i. */
  predicate ColonAt(tokens: seq<Token>, i: nat)
  {
    i < |tokens| && tokens[i].kind == Sym(Colon)
  }

  // ---------------------------------------------------------------- pseudo-classes

  /**
   * `tryParsePseudoClassSelector` after the colon: an identifier names a
   * known pseudo-class, a function token is parsed with its arguments, and
   * anything else gives none with the position restored.
   */
  function PseudoClassAt(tokens: seq<Token>, pos: nat): (r: Outcome<Selector>)
    requires pos <= |tokens|
    ensures Steps(r, pos, |tokens|)
    decreases |tokens|, 1, 0
  {
    if pos == |tokens| then Success(Parsed(None, pos))
    else
      match tokens[pos].kind
      case Ident(v) => Success(Parsed(Some(KnownPseudo(Lower(v))), pos + 1))
      case Function(v) => FunctionAt(tokens, pos, Lower(v))
      case _ => Success(Parsed(None, pos))
  }

  /**
   * A functional pseudo-class whose function token is at pos: the
   * arguments run to where `consumeAnyValue` stops, which must be a ')';
   * they must not be empty, and after the pseudo-class nothing but
   * whitespace may remain in them.
   */
  function FunctionAt(tokens: seq<Token>, pos: nat, name: string): (r: Outcome<Selector>)
    requires pos < |tokens|
    ensures Yields(r, |tokens|) && (r.Success? ==> pos < r.value.pos)
    decreases |tokens|, 0, 0
  {
    var end := AnyValueEnd(tokens, pos + 1, false, Depth(0, 0, 0));
    var args := tokens[pos + 1..end];
    if end == |tokens| || tokens[end].kind != Sym(RightParenthesis) then
      Fail(tokens, end, "The function is not closed.")
    else if args == [] then
      Fail(tokens, end + 1, "Missing argument for the :" + name + "() pseudo-class.")
    else
      match WholeArguments(args, name)
      case Failure(e) => Failure(e)
      case Success(v) => Success(Parsed(v, end + 1))
  }

  /** The pseudo-class of a closed, non-empty argument list, which nothing but whitespace may follow. */
  function WholeArguments(args: seq<Token>, name: string): (r: Result<Option<Selector>, ParseError>)
    ensures r.Success? ==> r.value.Some?
    decreases |args|, 19, 0
  {
    match ArgumentsAt(args, name)
    case Failure(e) => Failure(e)
    case Success(Parsed(v, q)) =>
      var rest := WhitespaceEnd(args, q);
      if rest < |args| then
        Failure(ParseError("Unexpected token inside :" + name + "() pseudo-class.", ErrorPosition(args, rest, -1)))
      else Success(v)
  }

  /** The `match ($name)` on the argument tokens, after their leading whitespace. */
  function ArgumentsAt(args: seq<Token>, name: string): (r: Outcome<Selector>)
    ensures Yields(r, |args|)
    decreases |args|, 18, 0
  {
    var p := WhitespaceEnd(args, 0);
    if name == "has" then HasArgs(args, p)
    else if name == "is" || name == "where" then
      Success(Parsed(Some(IsWhere(name, Forgiving(ForgivingAt(args, p)))), |args|))
    else if name == "not" then NotArgs(args, p)
    else if name == "nth-child" || name == "nth-last-child" then ChildIndexedArgs(args, name, p)
    else if name == "nth-of-type" || name == "nth-last-of-type" then TypedArgs(args, name, p)
    else Success(Parsed(Some(UnknownPseudoClass(name, true, args)), |args|))
  }

  /** `parseHasPseudoClass`: no nested `has(`, then a list of relative selectors. */
  function HasArgs(args: seq<Token>, p: nat): (r: Outcome<Selector>)
    requires p <= |args|
    ensures Yields(r, |args|)
    decreases |args|, 16, 0
  {
    match FirstFrom(args, p, IsHasFunction)
    case Some(i) => Failure(ParseError("The :has() pseudo-class cannot be nested.", args[i].offset))
    case None =>
      match CommaListAt(args, p, RelativeInner(false))
      case Failure(e) => Failure(e)
      case Success(Parsed(None, q)) => Fail(args, q, "Invalid argument for the :has() pseudo-class.")
      case Success(Parsed(Some(s), q)) => Success(Parsed(Some(Has(s)), q))
  }

  /** `parseNotPseudoClass`: a list of real complex selectors. */
  function NotArgs(args: seq<Token>, p: nat): (r: Outcome<Selector>)
    requires p <= |args|
    ensures Yields(r, |args|)
    decreases |args|, 16, 0
  {
    match CommaListAt(args, p, ComplexInner(true, true))
    case Failure(e) => Failure(e)
    case Success(Parsed(None, q)) => Fail(args, q, "Invalid argument for the :not() pseudo-class.")
    case Success(Parsed(Some(s), q)) => Success(Parsed(Some(Not(s)), q))
  }

  /** The message of an unreadable child-indexed argument. */
  function InvalidArgument(name: string): string
  {
    "Invalid argument for the :" + name + "() pseudo-class."
  }

  /**
   * `parseChildIndexedPseudoClass`: an An+B, then, after whitespace, an
   * optional `of` with a selector list. A token after that whitespace which
   * is not `of` has been consumed and is not given back.
   */
  function ChildIndexedArgs(args: seq<Token>, name: string, p: nat): (r: Outcome<Selector>)
    requires p <= |args|
    ensures Yields(r, |args|)
    decreases |args|, 17, 0
  {
    var anb := AnbAt(args, p);
    if anb.value.None? then Fail(args, anb.pos, InvalidArgument(name))
    else
      var w := WhitespaceEnd(args, anb.pos);
      var plain := Some(ChildIndexed(name, anb.value, None));
      if w == anb.pos || w == |args| then Success(Parsed(plain, w))
      else if !IsOfKeyword(args[w]) then Success(Parsed(plain, w + 1))
      else OfAt(args, name, anb.value.value, w + 1)
  }

  /** The list after `of`, which whitespace must precede. */
  function OfAt(args: seq<Token>, name: string, anb: AnbNotation, k: nat): (r: Outcome<Selector>)
    requires k <= |args|
    ensures Yields(r, |args|)
    decreases |args|, 16, 0
  {
    var w := WhitespaceEnd(args, k);
    if w == k then Fail(args, k, InvalidArgument(name))
    else
      match CommaListAt(args, w, ComplexInner(true, false))
      case Failure(e) => Failure(e)
      case Success(Parsed(None, q)) => Fail(args, q, InvalidArgument(name))
      case Success(Parsed(Some(of), q)) => Success(Parsed(Some(ChildIndexed(name, Some(anb), Some(of))), q))
  }

  /** `parseTypedChildIndexedPseudoClass`: an An+B and nothing more. */
  function TypedArgs(args: seq<Token>, name: string, p: nat): (r: Outcome<Selector>)
    requires p <= |args|
    ensures Yields(r, |args|)
  {
    var anb := AnbAt(args, p);
    if anb.value.None? then Fail(args, anb.pos, InvalidArgument(name))
    else Success(Parsed(Some(TypedChildIndexed(name, anb.value)), anb.pos))
  }

  // ---------------------------------------------------------------- forgiving lists

  /**
   * `parseForgivingSelectorList` from p: the selectors of the segments that
   * hold exactly one real complex selector; the stream is used up and
   * nothing is raised.
   */
  function ForgivingAt(args: seq<Token>, p: nat): seq<Selector>
    requires p <= |args|
    decreases |args|, 15, 0
  {
    Kept(Segments(args, p), |args|)
  }

  /** The selectors of the segments that parse, in order. */
  function Kept(segs: seq<seq<Token>>, bound: nat): seq<Selector>
    requires forall i :: 0 <= i < |segs| ==> |segs[i]| <= bound
    decreases bound, 14, |segs|
  {
    if segs == [] then []
    else
      match SegmentSelector(segs[0])
      case None => Kept(segs[1..], bound)
      case Some(s) => [s] + Kept(segs[1..], bound)
  }

  /** One segment: a real complex selector, with only whitespace around it; a raised error drops it. */
  function SegmentSelector(seg: seq<Token>): Option<Selector>
    decreases |seg|, 13, 0
  {
    match ComplexAt(seg, WhitespaceEnd(seg, 0), true, true)
    case Success(Parsed(Some(c), q)) => if WhitespaceEnd(seg, q) == |seg| then Some(c) else None
    case _ => None
  }

  // ---------------------------------------------------------------- lists

  /**
   * `tryParseCommaSeparatedList`: the items, each after optional
   * whitespace and separated by commas; none, the single item, or their
   * OR. The stream is left right after the last item.
   */
  function CommaListAt(tokens: seq<Token>, pos: nat, kind: InnerKind): (r: Outcome<Selector>)
    requires pos <= |tokens|
    ensures Steps(r, pos, |tokens|)
    decreases |tokens|, 12, 0
  {
    match CommaLoop(tokens, pos, pos, kind)
    case Failure(e) => Failure(e)
    case Success(Many(items, q)) =>
      if items == [] then Success(Parsed(None, q))
      else if |items| == 1 then Success(Parsed(Some(items[0]), q))
      else Success(Parsed(Some(Logical(false, items)), q))
  }

  /** The items from pos on; restore is the position after the item before them. */
  function CommaLoop(tokens: seq<Token>, pos: nat, restore: nat, kind: InnerKind): (r: Result<Many<Selector>, ParseError>)
    requires restore <= pos <= |tokens|
    ensures r.Success? ==> r.value.pos <= |tokens|
    ensures r.Success? && r.value.items == [] ==> r.value.pos == restore
    ensures r.Success? && r.value.items != [] ==> pos < r.value.pos
    decreases |tokens|, 11, |tokens| - pos
  {
    match InnerAt(tokens, WhitespaceEnd(tokens, pos), kind)
    case Failure(e) => Failure(e)
    case Success(Parsed(None, _)) => Success(Many([], restore))
    case Success(Parsed(Some(x), q)) =>
      var w := WhitespaceEnd(tokens, q);
      if w < |tokens| && tokens[w].kind == Sym(Comma) then Prefixed([x], CommaLoop(tokens, w + 1, q, kind))
      else Success(Many([x], q))
  }

  /** The item routine a list was given. */
  function InnerAt(tokens: seq<Token>, pos: nat, kind: InnerKind): (r: Outcome<Selector>)
    requires pos <= |tokens|
    ensures Steps(r, pos, |tokens|)
    decreases |tokens|, 10, 0
  {
    match kind
    case ComplexInner(isReal, ign) => ComplexAt(tokens, pos, isReal, ign)
    case RelativeInner(isReal) => RelativeAt(tokens, pos, isReal)
  }

  // ---------------------------------------------------------------- complex selectors

  /**
   * `tryParseRelativeSelector`: an optional combinator (descendant when
   * absent), whitespace, then a complex selector that ignores no default
   * namespace.
   */
  function RelativeAt(tokens: seq<Token>, pos: nat, isReal: bool): (r: Outcome<Selector>)
    requires pos <= |tokens|
    ensures Steps(r, pos, |tokens|)
    decreases |tokens|, 9, 0
  {
    var c := CombinatorAt(tokens, pos);
    match ComplexAt(tokens, WhitespaceEnd(tokens, c.pos), isReal, false)
    case Failure(e) => Failure(e)
    case Success(Parsed(None, _)) => Success(Parsed(None, pos))
    case Success(Parsed(Some(x), q)) =>
      Success(Parsed(Some(Relative(if c.value.Some? then c.value.value else Descendant, x)), q))
  }

  /** `tryParseComplexSelector`: units joined by combinators; a single unit stands alone. */
  function ComplexAt(tokens: seq<Token>, pos: nat, isReal: bool, ign: bool): (r: Outcome<Selector>)
    requires pos <= |tokens|
    ensures Steps(r, pos, |tokens|)
    decreases |tokens|, 8, 0
  {
    match PartAt(tokens, pos, isReal, ign)
    case Failure(e) => Failure(e)
    case Success(Parsed(None, _)) => Success(Parsed(None, pos))
    case Success(Parsed(Some(u), q)) =>
      match ComplexRest(tokens, q, isReal, ign)
      case Failure(e) => Failure(e)
      case Success(Links(us, cs, q')) =>
        if us == [] then Success(Parsed(Some(u), q')) else Success(Parsed(Some(Complex([u] + us, cs)), q'))
  }

  /**
   * The loop of `tryParseComplexSelector`: a combinator and a unit, again
   * and again; a combinator with no unit after it is given back.
   */
  function ComplexRest(tokens: seq<Token>, pos: nat, isReal: bool, ign: bool): (r: Result<Links, ParseError>)
    requires pos <= |tokens|
    ensures r.Success? ==> |r.value.units| == |r.value.combinators| && pos <= r.value.pos <= |tokens|
    ensures r.Success? && r.value.units == [] ==> r.value.pos == pos
    decreases |tokens|, 7, |tokens| - pos
  {
    var c := CombinatorAt(tokens, pos);
    if c.value.None? then Success(Links([], [], pos))
    else
      match PartAt(tokens, WhitespaceEnd(tokens, c.pos), isReal, ign)
      case Failure(e) => Failure(e)
      case Success(Parsed(None, _)) => Success(Links([], [], pos))
      case Success(Parsed(Some(u), q)) =>
        match ComplexRest(tokens, q, isReal, ign)
        case Failure(e) => Failure(e)
        case Success(Links(us, cs, q')) => Success(Links([u] + us, [c.value.value] + cs, q'))
  }

  /** A unit of a complex selector: a compound selector when isReal, else a complex selector unit. */
  function PartAt(tokens: seq<Token>, pos: nat, isReal: bool, ign: bool): (r: Outcome<Selector>)
    requires pos <= |tokens|
    ensures Steps(r, pos, |tokens|)
    decreases |tokens|, 6, 0
  {
    if isReal then CompoundAt(tokens, pos, ign) else UnitAt(tokens, pos, ign)
  }

  /**
   * `tryParseComplexSelectorUnit`: an optional compound selector and then
   * pseudo-compound selectors, whose AND lists are flattened in; none,
   * the single selector, or their AND.
   */
  function UnitAt(tokens: seq<Token>, pos: nat, ign: bool): (r: Outcome<Selector>)
    requires pos <= |tokens|
    ensures Steps(r, pos, |tokens|)
    decreases |tokens|, 5, 0
  {
    match CompoundAt(tokens, pos, ign)
    case Failure(e) => Failure(e)
    case Success(Parsed(c, q)) =>
      match PseudoCompoundRun(tokens, q)
      case Failure(e) => Failure(e)
      case Success(Many(ps, q')) =>
        var sels := (if c.Some? then [c.value] else []) + ps;
        if sels == [] then Success(Parsed(None, q'))
        else if |sels| == 1 then Success(Parsed(Some(sels[0]), q'))
        else Success(Parsed(Some(Logical(true, sels)), q'))
  }

  /** The pseudo-compound selectors from pos on, AND lists flattened. */
  function PseudoCompoundRun(tokens: seq<Token>, pos: nat): (r: Result<Many<Selector>, ParseError>)
    requires pos <= |tokens|
    ensures r.Success? ==> pos <= r.value.pos <= |tokens|
    ensures r.Success? && r.value.items == [] ==> r.value.pos == pos
    ensures r.Success? && r.value.items != [] ==> pos < r.value.pos
    decreases |tokens|, 4, |tokens| - pos
  {
    match PseudoCompoundAt(tokens, pos)
    case Failure(e) => Failure(e)
    case Success(Parsed(None, _)) => Success(Many([], pos))
    case Success(Parsed(Some(p), q)) =>
      Prefixed(if p.Logical? && p.isAnd then p.sels else [p], PseudoCompoundRun(tokens, q))
  }

  /** `tryParseCompoundSelector`: an optional type selector and subclass selectors, not both absent. */
  function CompoundAt(tokens: seq<Token>, pos: nat, ign: bool): (r: Outcome<Selector>)
    requires pos <= |tokens|
    ensures Steps(r, pos, |tokens|)
    decreases |tokens|, 4, 0
  {
    var ty := TypeAt(tokens, pos);
    match SubclassRun(tokens, ty.pos)
    case Failure(e) => Failure(e)
    case Success(Many(subs, q)) =>
      if ty.value.None? && subs == [] then Success(Parsed(None, pos))
      else Success(Parsed(Some(Compound((if ty.value.Some? then [ty.value.value] else []) + subs, ign)), q))
  }

  /** The subclass selectors from pos on. */
  function SubclassRun(tokens: seq<Token>, pos: nat): (r: Result<Many<Selector>, ParseError>)
    requires pos <= |tokens|
    ensures r.Success? ==> pos <= r.value.pos <= |tokens|
    ensures r.Success? && r.value.items == [] ==> r.value.pos == pos
    decreases |tokens|, 3, |tokens| - pos
  {
    match SubclassAt(tokens, pos)
    case Failure(e) => Failure(e)
    case Success(Parsed(None, _)) => Success(Many([], pos))
    case Success(Parsed(Some(s), q)) => Prefixed([s], SubclassRun(tokens, q))
  }

  /**
   * `tryParsePseudoCompoundSelector`: a colon and a pseudo-element, then
   * pseudo-classes each after a colon; the pseudo-element alone, or the
   * AND of all.
   */
  function PseudoCompoundAt(tokens: seq<Token>, pos: nat): (r: Outcome<Selector>)
    requires pos <= |tokens|
    ensures Steps(r, pos, |tokens|)
    ensures r.Success? && r.value.value.Some? && r.value.value.value.Logical? ==> r.value.value.value.sels != []
    decreases |tokens|, 3, 0
  {
    if !ColonAt(tokens, pos) then Success(Parsed(None, pos))
    else
      match PseudoElementAt(tokens, pos + 1)
      case Failure(e) => Failure(e)
      case Success(Parsed(None, _)) => Success(Parsed(None, pos))
      case Success(Parsed(Some(pe), q)) =>
        match PseudoClassRun(tokens, q)
        case Failure(e) => Failure(e)
        case Success(Many(cs, q')) =>
          if cs == [] then Success(Parsed(Some(pe), q')) else Success(Parsed(Some(Logical(true, [pe] + cs)), q'))
  }

  /** The pseudo-classes after a pseudo-element, each after a colon. */
  function PseudoClassRun(tokens: seq<Token>, pos: nat): (r: Result<Many<Selector>, ParseError>)
    requires pos <= |tokens|
    ensures r.Success? ==> pos <= r.value.pos <= |tokens|
    ensures r.Success? && r.value.items == [] ==> r.value.pos == pos
    decreases |tokens|, 2, |tokens| - pos
  {
    if !ColonAt(tokens, pos) then Success(Many([], pos))
    else
      match PseudoClassAt(tokens, pos + 1)
      case Failure(e) => Failure(e)
      case Success(Parsed(None, _)) => Success(Many([], pos))
      case Success(Parsed(Some(c), q)) => Prefixed([c], PseudoClassRun(tokens, q))
  }

  /**
   * `tryParsePseudoElementSelector` after the first colon: a legacy name,
   * or a second colon and a pseudo-class whose name, flag and arguments
   * the pseudo-element takes over.
   */
  function PseudoElementAt(tokens: seq<Token>, pos: nat): (r: Outcome<Selector>)
    requires pos <= |tokens|
    ensures Steps(r, pos, |tokens|)
    decreases |tokens|, 2, 0
  {
    if pos == |tokens| then Success(Parsed(None, pos))
    else
      match tokens[pos].kind
      case Ident(v) =>
        if Lower(v) in LegacyNames() then Success(Parsed(Some(LegacyPseudoElement(Lower(v))), pos + 1))
        else Success(Parsed(None, pos))
      case Sym(s) =>
        if s != Colon then Success(Parsed(None, pos))
        else
          (match PseudoClassAt(tokens, pos + 1)
           case Failure(e) => Failure(e)
           case Success(Parsed(None, _)) => Success(Parsed(None, pos))
           case Success(Parsed(Some(c), q)) =>
             Success(Parsed(Some(PseudoElement(PseudoName(c), PseudoFunctional(c), PseudoArgs(c))), q)))
      case _ => Success(Parsed(None, pos))
  }

  /**
   * `tryParseSubclassSelector`: an ID, a class, an attribute selector or a
   * pseudo-class; a hash that is no ID and a '.' with no identifier raise.
   */
  function SubclassAt(tokens: seq<Token>, pos: nat): (r: Outcome<Selector>)
    requires pos <= |tokens|
    ensures Steps(r, pos, |tokens|)
    decreases |tokens|, 2, 0
  {
    if pos == |tokens| then Success(Parsed(None, pos))
    else
      match tokens[pos].kind
      case Hash(v, isId) =>
        if isId then Success(Parsed(Some(Id(v)), pos + 1)) else Fail(tokens, pos, "Invalid ID selector.")
      case Delim(c) =>
        if c != '.' then Success(Parsed(None, pos))
        else if pos + 1 < |tokens| && tokens[pos + 1].kind.Ident? then
          Success(Parsed(Some(Class(tokens[pos + 1].kind.value)), pos + 2))
        else Fail(tokens, pos + 1, "Invalid class selector.")
      case Sym(s) =>
        if s == LeftSquareBracket then AttributeAt(tokens, pos + 1)
        else if s != Colon then Success(Parsed(None, pos))
        else
          (match PseudoClassAt(tokens, pos + 1)
           case Success(Parsed(None, _)) => Success(Parsed(None, pos))
           case other => other)
      case _ => Success(Parsed(None, pos))
  }
}
