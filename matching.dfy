/**
 * The `matches` method of every selector class, over the DOM match context.
 * A selector either answers or fails with the exception the source throws; a failure propagates out of every enclosing selector except
 * the forgiving selector list, which treats it as no match.
 */
module Matching {
  import opened Wrappers
  import opened Trees
  import opened Selectors
  import opened MatchContexts
  import opened FormControls
  import opened AttrValues
  import AnbNotations

  /** `ClassSelector::matches`: a name with whitespace never matches; otherwise it must be one of the words of `class`. */
  predicate ClassMatches(t: Node, p: Path, name: string)
    requires IsNode(t, p)
    ensures ClassMatches(t, p, name) ==> name != [] && HasAttribute(t, p, "class")
  {
    NoSpace(name) && match AttributeValue(t, p, "class") case None => false case Some(v) => name in Words(v)
  }

  /** `EmptyPseudoClass::matches`: every node below p is a comment or a node of an unsupported kind. */
  predicate IsEmptyNode(t: Node, p: Path)
    requires IsNode(t, p)
    ensures At(t, p).children == [] ==> IsEmptyNode(t, p)
  {
    forall q :: q in Descendants(t, p) && IsNode(t, q) ==> At(t, q).nodeType == Comment || At(t, q).nodeType == Unsupported
  }

  /** The HTML elements `:enabled` applies to. */
  const EnableableElements: seq<string> := ["button", "input", "select", "textarea", "optgroup", "option", "fieldset"]

  /** The HTML elements `:required` and `:optional` apply to. */
  const RequirableElements: seq<string> := ["input", "select", "textarea"]

  /** `:checked`: a checkbox or radio input with `checked`, or an option with `selected`. */
  predicate IsChecked(t: Node, p: Path)
    requires IsNode(t, p)
    ensures IsChecked(t, p) ==> IsHtmlElement(t, p, ["input", "option"])
  {
    if IsHtmlElement(t, p, ["input"]) then
      (AttributeValue(t, p, "type") == Some("checkbox") || AttributeValue(t, p, "type") == Some("radio"))
        && HasAttribute(t, p, "checked")
    else IsHtmlElement(t, p, ["option"]) && HasAttribute(t, p, "selected")
  }

  /** No member of a radio group carries `checked`. */
  predicate NoneChecked(t: Node, group: seq<Path>)
    requires forall q :: q in group ==> IsNode(t, q)
  {
    forall q :: q in group ==> !HasAttribute(t, q, "checked")
  }

  /** `:indeterminate`: a radio input whose group has no checked member, or a progress element without `value`. */
  predicate IsIndeterminate(t: Node, p: Path)
    requires IsNode(t, p)
    ensures IsIndeterminate(t, p) ==> IsHtmlElement(t, p, ["input", "progress"])
  {
    if IsHtmlElement(t, p, ["input"]) then
      AttributeValue(t, p, "type") == Some("radio") && NoneChecked(t, RadioButtonGroup(t, p))
    else IsHtmlElement(t, p, ["progress"]) && !HasAttribute(t, p, "value")
  }

  /** `InputPseudoClass::matches`, by the pseudo-class name; an unknown name never matches. */
  predicate MatchInput(t: Node, p: Path, name: string)
    requires IsNode(t, p)
    ensures MatchInput(t, p, name) && name != "read-only" ==> IsHtmlElement(t, p, [])
  {
    if name == "disabled" then IsActuallyDisabled(t, p)
    else if name == "enabled" then IsHtmlElement(t, p, EnableableElements) && !IsActuallyDisabled(t, p)
    else if name == "required" then IsHtmlElement(t, p, RequirableElements) && HasAttribute(t, p, "required")
    else if name == "optional" then IsHtmlElement(t, p, RequirableElements) && !HasAttribute(t, p, "required")
    else if name == "read-write" then IsReadWritable(t, p)
    else if name == "read-only" then !IsReadWritable(t, p)
    else if name == "checked" then IsChecked(t, p)
    else if name == "indeterminate" then IsIndeterminate(t, p)
    else false
  }

  /**
   * The last step of the nth-child pseudo-classes: the one-based position
   * (from the end for nth-last-child, 0 for any other name) tested against
   * An+B; a target missing from the siblings never matches.
   */
  function NthChildResult(name: string, anb: Option<AnbNotations.AnbNotation>, idx: Option<nat>, count: nat): (r: Result<bool, MatchError>)
    ensures idx.None? ==> r == Success(false)
    ensures idx.Some? && anb.None? ==> r == Failure(NullAnb)
    ensures idx.Some? && anb.Some? && name == "nth-child" ==> r == Success(AnbNotations.Matches(anb.value, idx.value + 1))
    ensures idx.Some? && anb.Some? && name == "nth-last-child" ==> r == Success(AnbNotations.Matches(anb.value, count - idx.value))
  {
    match idx
    case None => Success(false)
    case Some(i) =>
      var index := if name == "nth-child" then i + 1 else if name == "nth-last-child" then count - i else 0;
      if anb.None? then Failure(NullAnb) else Success(AnbNotations.Matches(anb.value, index))
  }

  /** The parent of a node that has one is a node. */
  function ParentPath(t: Node, p: Path): (r: Path)
    requires IsNode(t, p) && p != []
    ensures IsNode(t, r) && Parent(p) == Some(r)
  {
    ParentStep(t, p);
    p[..|p| - 1]
  }

  /** The element siblings of p of its own element type, p included when it is an element, in document order. */
  function TypedSiblings(t: Node, p: Path): (r: seq<Path>)
    requires IsNode(t, p) && p != []
    ensures forall q :: q in r <==> IsNode(t, q) && Parent(q) == Parent(p) && IsElement(t, q) && AreOfSameElementType(t, q, p)
  {
    Filter(ElementChildren(t, ParentPath(t, p)), SameTypeAs(t, p))
  }

  /** The test that keeps the siblings of p's own element type. */
  function SameTypeAs(t: Node, p: Path): Path -> bool
    requires IsNode(t, p)
  {
    q => IsNode(t, q) && AreOfSameElementType(t, q, p)
  }

  /**
   * The position tests of the typed child-indexed pseudo-classes among a
   * list of siblings. A target missing from the list has no index: the
   * first-, last- and only-of-type tests fail and the nth tests use 0 in its
   * place.
   */
  function TypedChildIndexedAmong(name: string, anb: Option<AnbNotations.AnbNotation>, siblings: seq<Path>, p: Path): Result<bool, MatchError>
  {
    var idx := IndexOf(siblings, p);
    var count := |siblings|;
    if name == "first-of-type" then Success(idx == Some(0))
    else if name == "last-of-type" then Success(idx.Some? && idx.value == count - 1)
    else if name == "only-of-type" then Success(idx == Some(0) && count == 1)
    else
      var k := if idx.Some? then idx.value else 0;
      var index := if name == "nth-of-type" then k + 1 else if name == "nth-last-of-type" then count - k else 0;
      if anb.None? then Failure(NullAnb) else Success(AnbNotations.Matches(anb.value, index))
  }

  /** `TypedChildIndexedPseudoClass::matches`: the position among the element siblings of p's own type. */
  function MatchTypedChildIndexed(t: Node, p: Path, name: string, anb: Option<AnbNotations.AnbNotation>): (r: Result<bool, MatchError>)
    requires IsNode(t, p)
    ensures anb.Some? || name == "first-of-type" || name == "last-of-type" || name == "only-of-type" ==> r.Success?
  {
    if p == [] then Success(false) else TypedChildIndexedAmong(name, anb, TypedSiblings(t, p), p)
  }

  /** `matches` of a selector at the node p. */
  function Matches(ctx: Context, p: Path, s: Selector): (r: Result<bool, MatchError>)
    requires IsNode(ctx.tree, p) && WellFormed(s)
    ensures s.Forgiving? || s.Id? || s.Class? || s.AnyLink? || s.Empty? || s.Root? || s.Scope? || s.Input? ==> r.Success?
    ensures s.UnknownPseudoClass? || s.PseudoElement? || s.LegacyPseudoElement? ==> r.Failure?
    decreases s, 2
  {
    var t := ctx.tree;
    match s
    case Type(w) => MatchElementType(ctx, p, w)
    case Id(id) => Success(AttributeValue(t, p, "id") == Some(id))
    case Class(name) => Success(ClassMatches(t, p, name))
    case Attribute(w, m, v, cs) =>
      var actual :- GetAttributeValue(ctx, p, w);
      Success(actual.Some? && AttrValueMatches(m, actual.value, v, cs))
    case Logical(isAnd, sels) => if isAnd then MatchAll(ctx, p, sels) else MatchAny(ctx, p, sels)
    case Compound(sels, ignoreDefault) =>
      if !ignoreDefault && (sels == [] || !sels[0].Type?) && !MatchDefaultNamespace(ctx, p) then Success(false)
      else MatchAll(ctx, p, sels)
    case Complex(units, combinators) => MatchComplex(ctx, p, units, combinators)
    case Relative(c, inner) =>
      var cands :- RightCandidates(ctx, p, c);
      AnyMatch(ctx, cands, inner, 0)
    case Forgiving(sels) => Success(MatchForgiving(ctx, p, sels))
    case AnyLink => Success(IsHtmlElement(t, p, ["a", "area"]) && HasAttribute(t, p, "href"))
    case Empty => Success(IsEmptyNode(t, p))
    case Root => Success(ctx.root == p)
    case Scope => Success(ctx.scope == p)
    case Input(name) => Success(MatchInput(t, p, name))
    case ChildIndexed(name, anb, of) => MatchChildIndexed(ctx, p, name, anb, of)
    case TypedChildIndexed(name, anb) => MatchTypedChildIndexed(t, p, name, anb)
    case Not(inner) =>
      var b :- Matches(ctx, p, inner);
      Success(!b)
    case Has(inner) => Matches(ctx, p, inner)
    case IsWhere(_, inner) => Matches(ctx, p, inner)
    case UnknownPseudoClass(name, _, _) => Failure(UnsupportedPseudoClass(name))
    case PseudoElement(_, _, _) => Failure(UnsupportedPseudoElement)
    case LegacyPseudoElement(_) => Failure(UnsupportedPseudoElement)
  }

  /**
   * The position tests of the child-indexed pseudo-classes among a list of
   * siblings: first-, last- and only-child look at the ends of the list, the
   * nth forms at the position of p in it.
   */
  function ChildIndexedAmong(name: string, anb: Option<AnbNotations.AnbNotation>, siblings: seq<Path>, p: Path): Result<bool, MatchError>
  {
    if name == "first-child" then Success(siblings != [] && siblings[0] == p)
    else if name == "last-child" then Success(siblings != [] && siblings[|siblings| - 1] == p)
    else if name == "only-child" then Success(|siblings| == 1 && siblings[0] == p)
    else NthChildResult(name, anb, IndexOf(siblings, p), |siblings|)
  }

  /** The names whose test ignores `of`. */
  predicate IsChildShorthand(name: string)
  {
    name == "first-child" || name == "last-child" || name == "only-child"
  }

  /**
   * `ChildIndexedPseudoClass::matches`: the position among the element
   * children of the parent; the nth forms with `of` first keep the children
   * the `of` selector matches.
   */
  function MatchChildIndexed(ctx: Context, p: Path, name: string, anb: Option<AnbNotations.AnbNotation>, of: Option<Selector>): (r: Result<bool, MatchError>)
    requires IsNode(ctx.tree, p) && (of.None? || WellFormed(of.value))
    ensures IsChildShorthand(name) ==> r.Success?
    decreases of, 1
  {
    if p == [] then Success(false)
    else
      var siblings := ElementChildren(ctx.tree, ParentPath(ctx.tree, p));
      if IsChildShorthand(name) || of.None? then ChildIndexedAmong(name, anb, siblings, p)
      else
        var filtered :- FilterMatching(ctx, siblings, of.value, 0);
        ChildIndexedAmong(name, anb, filtered, p)
  }

  /** The AND loop: the first selector that does not match decides; the first failure propagates. */
  function MatchAll(ctx: Context, p: Path, sels: seq<Selector>): (r: Result<bool, MatchError>)
    requires IsNode(ctx.tree, p) && AllWellFormed(sels)
    ensures r == Success(true) ==> forall i :: 0 <= i < |sels| ==> Matches(ctx, p, sels[i]) == Success(true)
    decreases sels
  {
    if sels == [] then Success(true)
    else
      var b :- Matches(ctx, p, sels[0]);
      if !b then Success(false) else MatchAll(ctx, p, sels[1..])
  }

  /** The OR loop: the first selector that matches decides; the first failure propagates. */
  function MatchAny(ctx: Context, p: Path, sels: seq<Selector>): (r: Result<bool, MatchError>)
    requires IsNode(ctx.tree, p) && AllWellFormed(sels)
    ensures r == Success(false) ==> forall i :: 0 <= i < |sels| ==> Matches(ctx, p, sels[i]) == Success(false)
    decreases sels
  {
    if sels == [] then Success(false)
    else
      var b :- Matches(ctx, p, sels[0]);
      if b then Success(true) else MatchAny(ctx, p, sels[1..])
  }

  /** The forgiving loop: a selector that fails counts as not matching. */
  predicate MatchForgiving(ctx: Context, p: Path, sels: seq<Selector>)
    requires IsNode(ctx.tree, p) && AllWellFormed(sels)
    ensures (forall i :: 0 <= i < |sels| ==> Matches(ctx, p, sels[i]) != Success(true)) ==> !MatchForgiving(ctx, p, sels)
    decreases sels
  {
    sels != [] && (Matches(ctx, p, sels[0]) == Success(true) || MatchForgiving(ctx, p, sels[1..]))
  }

  /**
   * `ComplexSelector::matches`: the last unit must match p; then the selector
   * without its last unit must match one of the left candidates of the last
   * combinator.
   */
  function MatchComplex(ctx: Context, p: Path, units: seq<Selector>, combinators: seq<Combinator>): (r: Result<bool, MatchError>)
    requires IsNode(ctx.tree, p) && |units| >= 2 && |units| == |combinators| + 1 && AllWellFormed(units)
    ensures r == Success(true) ==> Matches(ctx, p, units[|units| - 1]) == Success(true)
    decreases units, 0
  {
    var n := |units|;
    var last :- Matches(ctx, p, units[n - 1]);
    if !last then Success(false)
    else
      var cands :- LeftCandidates(ctx, p, combinators[n - 2]);
      AnyLeft(ctx, cands, units[..n - 1], combinators[..n - 2], 0)
  }

  /**
   * The candidate loop of a complex selector: the first candidate from index
   * i on that the reduced selector (the single first unit, or the shorter
   * complex selector) matches decides; the first failure propagates.
   */
  function AnyLeft(ctx: Context, cands: seq<Path>, prefix: seq<Selector>, combinators: seq<Combinator>, i: nat): (r: Result<bool, MatchError>)
    requires forall q :: q in cands ==> IsNode(ctx.tree, q)
    requires |prefix| >= 1 && |prefix| == |combinators| + 1 && AllWellFormed(prefix)
    decreases prefix, 1, |cands| - i
  {
    if i >= |cands| then Success(false)
    else
      var b :- if |prefix| == 1 then Matches(ctx, cands[i], prefix[0]) else MatchComplex(ctx, cands[i], prefix, combinators);
      if b then Success(true) else AnyLeft(ctx, cands, prefix, combinators, i + 1)
  }

  /** The candidate loop of a relative selector: the first candidate from index i on that inner matches decides. */
  function AnyMatch(ctx: Context, cands: seq<Path>, inner: Selector, i: nat): (r: Result<bool, MatchError>)
    requires forall q :: q in cands ==> IsNode(ctx.tree, q)
    requires WellFormed(inner)
    decreases inner, 3, |cands| - i
  {
    if i >= |cands| then Success(false)
    else
      var b :- Matches(ctx, cands[i], inner);
      if b then Success(true) else AnyMatch(ctx, cands, inner, i + 1)
  }

  /** The `of S` filter of the nth-child pseudo-classes: the candidates from index i on that inner matches, in order. */
  function FilterMatching(ctx: Context, cands: seq<Path>, inner: Selector, i: nat): (r: Result<seq<Path>, MatchError>)
    requires forall q :: q in cands ==> IsNode(ctx.tree, q)
    requires WellFormed(inner)
    ensures r.Success? ==> forall q :: q in r.value <==> exists j :: i <= j < |cands| && cands[j] == q && Matches(ctx, q, inner) == Success(true)
    decreases inner, 3, |cands| - i
  {
    if i >= |cands| then Success([])
    else
      var b :- Matches(ctx, cands[i], inner);
      var rest :- FilterMatching(ctx, cands, inner, i + 1);
      Success(if b then [cands[i]] + rest else rest)
  }
}
