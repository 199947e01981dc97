/**
 * Properties of the recursive part of the selector parser: the names the
 * pseudo-class dispatch knows, what a subclass selector raises, the shape
 * of complex selectors and comma-separated lists, and which selectors a
 * forgiving list keeps.
 */
module SelectorGrammarLaws {
  import opened Wrappers
  import opened Chars
  import opened Tokens
  import opened Errors
  import opened TokenStreams
  import opened AnbParsing
  import opened QualifiedNames
  import opened Selectors
  import opened SelectorScans
  import opened SelectorGrammar
  import opened SelectorScanLaws
  import SelectorParsing

  // ---------------------------------------------------------------- pseudo-classes

  /** The names of the non-functional pseudo-classes `tryParsePseudoClassSelector` knows. */
  function KnownNames(): set<string>
  {
    {"any-link", "empty", "root", "scope", "first-child", "last-child", "only-child",
     "first-of-type", "last-of-type", "only-of-type"} + InputNames()
  }

  /**
   * A bare identifier gives a pseudo-class that carries the name it was
   * written with, is not functional and has no arguments; it is an unknown
   * pseudo-class exactly when the name is not a known one.
   */
  lemma KnownPseudoKeepsName(name: string)
    ensures PseudoName(KnownPseudo(name)) == name
    ensures !PseudoFunctional(KnownPseudo(name)) && PseudoArgs(KnownPseudo(name)) == []
    ensures KnownPseudo(name).UnknownPseudoClass? <==> name !in KnownNames()
  {
  }

  /**
   * After the colon: an identifier, in any case, gives the pseudo-class of
   * its lower-cased name just after it; a token that is neither an
   * identifier nor a function gives none with the position kept.
   */
  lemma PseudoClassDispatch(tokens: seq<Token>, pos: nat)
    requires pos <= |tokens|
    ensures pos < |tokens| && tokens[pos].kind.Ident? ==>
      var r := PseudoClassAt(tokens, pos);
      r.Success? && r.value.pos == pos + 1 && r.value.value.Some? &&
      PseudoName(r.value.value.value) == Lower(tokens[pos].kind.value) &&
      (r.value.value.value.UnknownPseudoClass? <==> Lower(tokens[pos].kind.value) !in KnownNames())
    ensures (pos == |tokens| || !(tokens[pos].kind.Ident? || tokens[pos].kind.Function?)) ==>
      PseudoClassAt(tokens, pos) == Success(Parsed(None, pos))
  {
    if pos < |tokens| && tokens[pos].kind.Ident? {
      KnownPseudoKeepsName(Lower(tokens[pos].kind.value));
    }
  }

  /**
   * An unknown function keeps its argument tokens, the whole run up to the
   * closing ')', and the stream continues after that ')'.
   */
  lemma UnknownFunctionKeepsArguments(tokens: seq<Token>, pos: nat, end: nat)
    requires pos < |tokens| && tokens[pos].kind.Function?
    requires Lower(tokens[pos].kind.value) !in {"has", "is", "where", "not", "nth-child", "nth-last-child", "nth-of-type", "nth-last-of-type"}
    requires end == AnyValueEnd(tokens, pos + 1, false, Depth(0, 0, 0))
    requires end < |tokens| && tokens[end].kind == Sym(RightParenthesis) && pos + 1 < end
    ensures PseudoClassAt(tokens, pos) ==
      Success(Parsed(Some(UnknownPseudoClass(Lower(tokens[pos].kind.value), true, tokens[pos + 1..end])), end + 1))
  {
    var args := tokens[pos + 1..end];
    assert ArgumentsAt(args, Lower(tokens[pos].kind.value)) ==
      Success(Parsed(Some(UnknownPseudoClass(Lower(tokens[pos].kind.value), true, args)), |args|));
    assert WhitespaceEnd(args, |args|) == |args|;
    assert WholeArguments(args, Lower(tokens[pos].kind.value)) == Success(Some(UnknownPseudoClass(Lower(tokens[pos].kind.value), true, args)));
  }

  /**
   * The function errors: arguments that do not end at a ')' are not
   * closed, and a ')' right after the function token leaves the argument
   * missing.
   */
  lemma FunctionErrors(tokens: seq<Token>, pos: nat)
    requires pos < |tokens| && tokens[pos].kind.Function?
    ensures var end := AnyValueEnd(tokens, pos + 1, false, Depth(0, 0, 0));
      (end < |tokens| ==> tokens[end].kind != Sym(RightParenthesis) ==>
        PseudoClassAt(tokens, pos) == Fail(tokens, end, "The function is not closed.")) &&
      (end == |tokens| ==> PseudoClassAt(tokens, pos) == Fail(tokens, end, "The function is not closed.")) &&
      (end == pos + 1 < |tokens| && tokens[end].kind == Sym(RightParenthesis) ==>
        PseudoClassAt(tokens, pos) == Fail(tokens, end + 1, "Missing argument for the :" + Lower(tokens[pos].kind.value) + "() pseudo-class."))
  {
  }

  /**
   * `parseHasPseudoClass`: a `has(` token anywhere in the arguments raises
   * the nesting error at the offset of the first of them.
   */
  lemma NestedHasRaises(args: seq<Token>, p: nat, j: nat)
    requires p <= j < |args| && IsHasFunction(args[j])
    requires forall i :: p <= i < j ==> !IsHasFunction(args[i])
    ensures HasArgs(args, p) == Failure(ParseError("The :has() pseudo-class cannot be nested.", args[j].offset))
  {
    assert FirstFrom(args, p, IsHasFunction) == Some(j);
  }

  /** `:not()` and `:has()` hold a list that is not empty; an empty one raises. */
  lemma LogicalArgumentsNotEmpty(args: seq<Token>, p: nat)
    requires p <= |args|
    ensures NotArgs(args, p).Success? ==> NotArgs(args, p).value.value.value.Not?
    ensures (var l := CommaListAt(args, p, ComplexInner(true, true)); l.Success? && l.value.value.None?) ==>
      NotArgs(args, p) == Fail(args, p, "Invalid argument for the :not() pseudo-class.")
    ensures FirstFrom(args, p, IsHasFunction).None? && (var l := CommaListAt(args, p, RelativeInner(false)); l.Success? && l.value.value.None?) ==>
      HasArgs(args, p) == Fail(args, p, "Invalid argument for the :has() pseudo-class.")
  {
  }

  /** The list after `of` needs whitespace before it: without it the `of` form raises. */
  lemma OfNeedsWhitespace(args: seq<Token>, name: string, anb: AnbNotations.AnbNotation, k: nat)
    requires k <= |args|
    requires k == |args| || !args[k].kind.Whitespace?
    ensures OfAt(args, name, anb, k) == Fail(args, k, InvalidArgument(name))
  {
  }

  // ---------------------------------------------------------------- pseudo-elements

  /**
   * `tryParsePseudoElementSelector` after the first colon: a legacy
   * pseudo-element comes only from the four legacy names, and `::name`
   * takes over the name of the pseudo-class it parses.
   */
  lemma PseudoElementForms(tokens: seq<Token>, pos: nat)
    requires pos <= |tokens|
    ensures var r := PseudoElementAt(tokens, pos);
      (r.Success? && r.value.value.Some? && r.value.value.value.LegacyPseudoElement? <==>
        pos < |tokens| && tokens[pos].kind.Ident? && Lower(tokens[pos].kind.value) in LegacyNames())
    ensures pos + 1 < |tokens| && tokens[pos].kind == Sym(Colon) && tokens[pos + 1].kind.Ident? ==>
      PseudoElementAt(tokens, pos) == Success(Parsed(Some(PseudoElement(Lower(tokens[pos + 1].kind.value), false, [])), pos + 2))
  {
    if pos + 1 < |tokens| && tokens[pos].kind == Sym(Colon) && tokens[pos + 1].kind.Ident? {
      KnownPseudoKeepsName(Lower(tokens[pos + 1].kind.value));
    }
  }

  // ---------------------------------------------------------------- subclasses

  /**
   * `tryParseSubclassSelector` gives none, with the position kept, exactly
   * for tokens that start no ID, class, attribute or pseudo-class.
   */
  lemma SubclassNone(tokens: seq<Token>, pos: nat)
    requires pos <= |tokens|
    ensures SubclassAt(tokens, pos) == Success(Parsed(None, pos)) <==>
      pos == |tokens| ||
      (!tokens[pos].kind.Hash? && tokens[pos].kind != Delim('.') && tokens[pos].kind != Sym(LeftSquareBracket) &&
       (tokens[pos].kind == Sym(Colon) ==> PseudoClassAt(tokens, pos + 1).Success? && PseudoClassAt(tokens, pos + 1).value.value.None?))
  {
  }

  /** A hash that is no ID, and a '.' without an identifier after it, raise. */
  lemma SubclassErrors(tokens: seq<Token>, pos: nat)
    requires pos < |tokens|
    ensures tokens[pos].kind.Hash? && !tokens[pos].kind.isIdType ==> SubclassAt(tokens, pos) == Fail(tokens, pos, "Invalid ID selector.")
    ensures tokens[pos].kind == Delim('.') && !(pos + 1 < |tokens| && tokens[pos + 1].kind.Ident?) ==>
      SubclassAt(tokens, pos) == Fail(tokens, pos + 1, "Invalid class selector.")
  {
  }

  // ---------------------------------------------------------------- complex selectors

  /**
   * `tryParseComplexSelector` gives its first unit alone, where that unit
   * ended, or a complex selector led by that unit with one combinator fewer
   * than units and at least two units.
   */
  lemma ComplexShape(tokens: seq<Token>, pos: nat, isReal: bool, ign: bool)
    requires pos <= |tokens|
    ensures var r := ComplexAt(tokens, pos, isReal, ign);
      var u := PartAt(tokens, pos, isReal, ign);
      r.Success? && r.value.value.Some? ==>
        u.Success? && u.value.value.Some? &&
        ((r.value.value.value == u.value.value.value && r.value.pos == u.value.pos) ||
         (r.value.value.value.Complex? && r.value.value.value.units[0] == u.value.value.value &&
          |r.value.value.value.units| == |r.value.value.value.combinators| + 1 >= 2))
  {
  }

  /** A combinator with no unit after it is given back: the selector ends before it. */
  lemma TrailingCombinatorGivenBack(tokens: seq<Token>, q: nat, isReal: bool, ign: bool)
    requires q <= |tokens|
    requires var c := CombinatorAt(tokens, q);
      c.value.Some? ==> (var u := PartAt(tokens, WhitespaceEnd(tokens, c.pos), isReal, ign); u.Success? && u.value.value.None?)
    ensures ComplexRest(tokens, q, isReal, ign) == Success(Links([], [], q))
  {
  }

  /** `a || ?`: the column combinator has no unit after it, so the selector is `a` alone, ending at 1. */
  lemma ColumnWithoutUnit()
    ensures ComplexAt([I("a", 0), Token(Whitespace, 1, 1), D('|', 2), D('|', 3), Token(Whitespace, 4, 1), D('?', 5)], 0, false, false) ==
      Success(Parsed(Some(Compound([Type(WqName(false, None, "a"))], false)), 1))
  {
    var t := [I("a", 0), Token(Whitespace, 1, 1), D('|', 2), D('|', 3), Token(Whitespace, 4, 1), D('?', 5)];
    ColumnLeadingUnit(t);
    ColumnMissingUnit(t);
    TrailingCombinatorGivenBack(t, 1, false, false);
  }

  /** The unit `a` before the column combinator of `a || ?`. */
  lemma ColumnLeadingUnit(t: seq<Token>)
    requires t == [I("a", 0), Token(Whitespace, 1, 1), D('|', 2), D('|', 3), Token(Whitespace, 4, 1), D('?', 5)]
    ensures PartAt(t, 0, false, false) == Success(Parsed(Some(Compound([Type(WqName(false, None, "a"))], false)), 1))
  {
    var a := Compound([Type(WqName(false, None, "a"))], false);
    assert WqNameAt(t, 0, true) == Parsed(Some(WqName(false, None, "a")), 1);
    assert TypeAt(t, 0) == Parsed(Some(Type(WqName(false, None, "a"))), 1);
    assert [Type(WqName(false, None, "a"))] + [] == [Type(WqName(false, None, "a"))];
    assert SubclassRun(t, 1) == Success(Many([], 1));
    assert CompoundAt(t, 0, false) == Success(Parsed(Some(a), 1));
    assert PseudoCompoundRun(t, 1) == Success(Many([], 1));
    assert PartAt(t, 0, false, false) == Success(Parsed(Some(a), 1));
  }

  /** The column combinator of `a || ?` and the `?` after it, where no unit starts. */
  lemma ColumnMissingUnit(t: seq<Token>)
    requires t == [I("a", 0), Token(Whitespace, 1, 1), D('|', 2), D('|', 3), Token(Whitespace, 4, 1), D('?', 5)]
    ensures WhitespaceEnd(t, 1) == 2 && CombinatorAt(t, 1) == Parsed(Some(Column), 4)
    ensures WhitespaceEnd(t, 4) == 5 && PartAt(t, 5, false, false) == Success(Parsed(None, 5))
  {
    assert WhitespaceEnd(t, 1) == 2;
    assert CombinatorAt(t, 1) == Parsed(Some(Column), 4);
    assert WhitespaceEnd(t, 4) == 5;
    assert WqNameAt(t, 5, true) == Parsed(None, 5);
    assert SubclassAt(t, 5) == Success(Parsed(None, 5));
    assert CompoundAt(t, 5, false) == Success(Parsed(None, 5));
    assert PseudoCompoundAt(t, 5) == Success(Parsed(None, 5));
    assert PseudoCompoundRun(t, 5) == Success(Many([], 5));
    assert UnitAt(t, 5, false) == Success(Parsed(None, 5));
  }

  // ---------------------------------------------------------------- lists

  /** A comma after a list item, after optional whitespace. */
  predicate CommaAfter(tokens: seq<Token>, q: nat)
    requires q <= |tokens|
  {
    var w := WhitespaceEnd(tokens, q);
    w < |tokens| && tokens[w].kind == Sym(Comma)
  }

  /** No first item: no list, and the position is kept. */
  lemma ListWithoutItem(tokens: seq<Token>, pos: nat, kind: InnerKind)
    requires pos <= |tokens|
    requires var i := InnerAt(tokens, WhitespaceEnd(tokens, pos), kind); i.Success? && i.value.value.None?
    ensures CommaListAt(tokens, pos, kind) == Success(Parsed(None, pos))
  {
  }

  /** One item and no comma after it: that item alone, with the stream right after it. */
  lemma ListOfOne(tokens: seq<Token>, pos: nat, kind: InnerKind, x: Selector, q: nat)
    requires pos <= |tokens|
    requires InnerAt(tokens, WhitespaceEnd(tokens, pos), kind) == Success(Parsed(Some(x), q))
    requires !CommaAfter(tokens, q)
    ensures CommaListAt(tokens, pos, kind) == Success(Parsed(Some(x), q))
  {
  }

  /** A comma with no item after it is given back: the list is the item before it, ending before the comma. */
  lemma TrailingCommaGivenBack(tokens: seq<Token>, pos: nat, kind: InnerKind, x: Selector, q: nat)
    requires pos <= |tokens|
    requires InnerAt(tokens, WhitespaceEnd(tokens, pos), kind) == Success(Parsed(Some(x), q))
    requires CommaAfter(tokens, q)
    requires var i := InnerAt(tokens, WhitespaceEnd(tokens, WhitespaceEnd(tokens, q) + 1), kind); i.Success? && i.value.value.None?
    ensures CommaListAt(tokens, pos, kind) == Success(Parsed(Some(x), q))
  {
    var next := WhitespaceEnd(tokens, q) + 1;
    SelectorParsing.CommaLoopNext(tokens, pos, pos, kind, x, q, next);
    SelectorParsing.CommaLoopStops(tokens, next, q, kind);
  }

  /** Two items separated by a comma: their OR, with the stream right after the second. */
  lemma ListOfTwo(tokens: seq<Token>, pos: nat, kind: InnerKind, x: Selector, q: nat, y: Selector, q2: nat)
    requires pos <= |tokens|
    requires InnerAt(tokens, WhitespaceEnd(tokens, pos), kind) == Success(Parsed(Some(x), q))
    requires CommaAfter(tokens, q)
    requires InnerAt(tokens, WhitespaceEnd(tokens, WhitespaceEnd(tokens, q) + 1), kind) == Success(Parsed(Some(y), q2))
    requires !CommaAfter(tokens, q2)
    ensures CommaListAt(tokens, pos, kind) == Success(Parsed(Some(Logical(false, [x, y])), q2))
  {
    assert CommaLoop(tokens, pos, pos, kind) == Success(Many([x, y], q2)) by {
      var next := WhitespaceEnd(tokens, q) + 1;
      SelectorParsing.CommaLoopNext(tokens, pos, pos, kind, x, q, next);
      SelectorParsing.CommaLoopLast(tokens, next, q, kind, y, q2);
      assert [x] + [y] == [x, y];
    }
  }

  // ---------------------------------------------------------------- forgiving lists

  /** The selectors a forgiving list keeps are exactly those of its segments that parse. */
  lemma {:induction false} KeptMembers(segs: seq<seq<Token>>, bound: nat, s: Selector)
    requires forall i :: 0 <= i < |segs| ==> |segs[i]| <= bound
    ensures s in Kept(segs, bound) <==> exists i :: 0 <= i < |segs| && SegmentSelector(segs[i]) == Some(s)
    decreases |segs|
  {
    if segs != [] {
      KeptMembers(segs[1..], bound, s);
      if s in Kept(segs[1..], bound) {
        var i :| 0 <= i < |segs[1..]| && SegmentSelector(segs[1..][i]) == Some(s);
        assert SegmentSelector(segs[i + 1]) == Some(s);
      }
      if exists i :: 0 <= i < |segs| && SegmentSelector(segs[i]) == Some(s) {
        var i :| 0 <= i < |segs| && SegmentSelector(segs[i]) == Some(s);
        if i > 0 {
          assert SegmentSelector(segs[1..][i - 1]) == Some(s);
        }
      }
    }
  }

  /** Keeping is done segment by segment: the kept selectors of two runs of segments, in order. */
  lemma {:induction false} KeptAppend(a: seq<seq<Token>>, b: seq<seq<Token>>, bound: nat)
    requires forall i :: 0 <= i < |a| ==> |a[i]| <= bound
    requires forall i :: 0 <= i < |b| ==> |b[i]| <= bound
    ensures Kept(a + b, bound) == Kept(a, bound) + Kept(b, bound)
    decreases |a|
  {
    if a == [] {
      assert a + b == b;
    } else {
      assert (a + b)[1..] == a[1..] + b;
      assert (a + b)[0] == a[0];
      KeptAppend(a[1..], b, bound);
      KeptHead(a + b, bound);
      KeptHead(a, bound);
    }
  }

  /** Keeping the first segment: its selector, if it has one, before those kept from the rest. */
  lemma KeptHead(segs: seq<seq<Token>>, bound: nat)
    requires segs != [] && forall i :: 0 <= i < |segs| ==> |segs[i]| <= bound
    ensures Kept(segs, bound) == OptionItems(SegmentSelector(segs[0])) + Kept(segs[1..], bound)
  {
  }

  /** The selector of an option, as a sequence of none or one. */
  function OptionItems(o: Option<Selector>): (r: seq<Selector>)
    ensures |r| <= 1 && (if o.Some? then r == [o.value] else r == [])
  {
    if o.Some? then [o.value] else []
  }

  /** No more selectors are kept than there are segments. */
  lemma {:induction false} KeptAtMostSegments(segs: seq<seq<Token>>, bound: nat)
    requires forall i :: 0 <= i < |segs| ==> |segs[i]| <= bound
    ensures |Kept(segs, bound)| <= |segs|
    decreases |segs|
  {
    if segs != [] {
      KeptAtMostSegments(segs[1..], bound);
    }
  }

  /**
   * `parseForgivingSelectorList` keeps a selector exactly when one of the
   * comma-separated segments of its arguments parses to it.
   */
  lemma ForgivingKeeps(args: seq<Token>, p: nat, s: Selector)
    requires p <= |args|
    ensures s in ForgivingAt(args, p) <==>
      exists i :: 0 <= i < |Segments(args, p)| && SegmentSelector(Segments(args, p)[i]) == Some(s)
  {
    assert ForgivingAt(args, p) == Kept(Segments(args, p), |args|);
    KeptMembers(Segments(args, p), |args|, s);
  }
}
