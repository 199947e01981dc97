/**
 * What `matches` answers for the selectors without children: the id, type,
 * tree-structural and link pseudo-classes, the namespace gate of a compound
 * selector, and the selectors that are never matched.
 */
module SelectorLaws {
  import opened Wrappers
  import opened Trees
  import opened Selectors
  import opened MatchContexts
  import opened Matching
  import QualifiedNames

  /** An id selector compares the plain `id` attribute exactly; a node without one never matches; it never fails. */
  lemma IdMatchesExactly(ctx: Context, p: Path, id: string)
    requires IsNode(ctx.tree, p)
    ensures Matches(ctx, p, Id(id)).Success?
    ensures Matches(ctx, p, Id(id)).value <==> AttributeValue(ctx.tree, p, "id") == Some(id)
    ensures AttributeValue(ctx.tree, p, "id").None? ==> !Matches(ctx, p, Id(id)).value
  {
  }

  /**
   * A type selector is the context's element-type test: a node that is not
   * an element never matches, and only an unknown prefix fails.
   */
  lemma TypeIsElementType(ctx: Context, p: Path, w: QualifiedNames.WqName)
    requires IsNode(ctx.tree, p)
    ensures Matches(ctx, p, Type(w)) == MatchElementType(ctx, p, w)
    ensures !IsElement(ctx.tree, p) ==> Matches(ctx, p, Type(w)) == Success(false)
    ensures Matches(ctx, p, Type(w)).Failure? ==> w.prefix.Some? && w.prefix.value !in ctx.nsLookup
  {
  }

  /** `:root` picks out the root of the context whatever the scope, `:scope` the scope whatever the root. */
  lemma RootAndScopeAreIndependent(ctx: Context, p: Path, other: Path)
    requires IsNode(ctx.tree, p)
    ensures Matches(ctx, p, Root) == Success(p == ctx.root)
    ensures Matches(ctx, p, Scope) == Success(p == ctx.scope)
    ensures Matches(ctx.(scope := other), p, Root) == Matches(ctx, p, Root)
    ensures Matches(ctx.(root := other), p, Scope) == Matches(ctx, p, Scope)
  {
  }

  /** `:any-link` holds exactly for an HTML `a` or `area` element that has an `href`, whatever its value. */
  lemma AnyLinkNeedsHref(ctx: Context, p: Path)
    requires IsNode(ctx.tree, p)
    ensures Matches(ctx, p, AnyLink) == Success(true) <==>
      IsHtmlElement(ctx.tree, p, ["a", "area"]) && HasAttribute(ctx.tree, p, "href")
    ensures Matches(ctx, p, AnyLink).Success?
  {
  }

  /** Pseudo-elements and unknown pseudo-classes are never matched: they fail at every node. */
  lemma UnsupportedSelectorsFail(ctx: Context, p: Path, name: string, isFunctional: bool, args: seq<Tokens.Token>)
    requires IsNode(ctx.tree, p)
    ensures Matches(ctx, p, UnknownPseudoClass(name, isFunctional, args)) == Failure(UnsupportedPseudoClass(name))
    ensures Matches(ctx, p, PseudoElement(name, isFunctional, args)) == Failure(UnsupportedPseudoElement)
    ensures Matches(ctx, p, LegacyPseudoElement(name)) == Failure(UnsupportedPseudoElement)
  {
  }

  /** Without a default namespace every node passes the namespace gate; with one, only nodes in it do. */
  lemma DefaultNamespaceGate(ctx: Context, p: Path)
    requires IsNode(ctx.tree, p)
    ensures "" !in ctx.nsLookup ==> MatchDefaultNamespace(ctx, p)
    ensures "" in ctx.nsLookup ==> (MatchDefaultNamespace(ctx, p) <==> NamespaceOf(ctx.tree, p) == Some(ctx.nsLookup[""]))
  {
  }

  /**
   * A compound selector that does not start with a type selector and does
   * not ignore the default namespace rejects a node outside that namespace
   * before looking at its children; otherwise it is the AND of its children.
   */
  lemma CompoundGate(ctx: Context, p: Path, sels: seq<Selector>, ignoreDefault: bool)
    requires IsNode(ctx.tree, p) && AllWellFormed(sels)
    ensures !ignoreDefault && (sels == [] || !sels[0].Type?) && !MatchDefaultNamespace(ctx, p) ==>
      Matches(ctx, p, Compound(sels, ignoreDefault)) == Success(false)
    ensures ignoreDefault || (sels != [] && sels[0].Type?) || MatchDefaultNamespace(ctx, p) ==>
      Matches(ctx, p, Compound(sels, ignoreDefault)) == MatchAll(ctx, p, sels)
  {
  }

  /**
   * A forgiving list never fails, and an empty one (also inside `:is()` or
   * `:where()`) matches nothing.
   */
  lemma ForgivingNeverFails(ctx: Context, p: Path, sels: seq<Selector>, name: string)
    requires IsNode(ctx.tree, p) && AllWellFormed(sels)
    ensures Matches(ctx, p, Forgiving(sels)).Success?
    ensures Matches(ctx, p, Forgiving([])) == Success(false)
    ensures Matches(ctx, p, IsWhere(name, Forgiving([]))) == Success(false)
  {
  }

  /** A relative selector whose combinator gives no candidates matches nothing. */
  lemma RelativeWithoutCandidates(ctx: Context, p: Path, c: Combinator, inner: Selector)
    requires IsNode(ctx.tree, p) && WellFormed(inner)
    requires RightCandidates(ctx, p, c) == Success([])
    ensures Matches(ctx, p, Relative(c, inner)) == Success(false)
  {
  }
}
