/**
 * The match context of a selector over a document tree: the root and scope
 * nodes, the namespace prefix table, and the traversal, attribute and
 * namespace rules of the DOM match context, stated over the finite tree.
 */
module MatchContexts {
  import opened Wrappers
  import opened Trees
  import opened Selectors
  import QualifiedNames

  const HtmlNamespace: string := "http://www.w3.org/1999/xhtml"

  /** The tree, its root and scope nodes, and the prefix-to-namespace table. */
  datatype Context = Context(tree: Node, root: Path, scope: Path, nsLookup: map<string, string>)

  /** The three ways an attribute is looked up. */
  datatype AttrKey =
    | ByName(name: string)                        // `hasAttribute`/`getAttributeNode` by qualified name
    | ByLocalName(localName: string)              // any namespace
    | ByNamespace(uri: string, localName: string) // namespace and local name

  predicate KeyMatches(k: AttrKey, a: Attr)
  {
    match k
    case ByName(n) => a.qualifiedName == n
    case ByLocalName(l) => a.localName == l
    case ByNamespace(u, l) => a.namespace == Some(u) && a.localName == l
  }

  /** The index of the first attribute the key selects. */
  function FirstAttr(attrs: seq<Attr>, k: AttrKey): (r: Option<nat>)
    ensures r.None? <==> forall j :: 0 <= j < |attrs| ==> !KeyMatches(k, attrs[j])
    ensures r.Some? ==> (r.value < |attrs| && KeyMatches(k, attrs[r.value])
      && forall j :: 0 <= j < r.value ==> !KeyMatches(k, attrs[j]))
  {
    FirstIndex(attrs, a => KeyMatches(k, a))
  }

  /** The value of the first attribute of an element the key selects; non-elements have none. */
  function Lookup(t: Node, p: Path, k: AttrKey): (r: Option<string>)
    requires IsNode(t, p)
    ensures r.Some? <==> IsElement(t, p) && exists j :: 0 <= j < |At(t, p).attrs| && KeyMatches(k, At(t, p).attrs[j])
  {
    if !IsElement(t, p) then None
    else match FirstAttr(At(t, p).attrs, k)
      case None => None
      case Some(j) => Some(At(t, p).attrs[j].value)
  }

  /** `getAttributeValue` with a plain name: a lookup by qualified name. */
  function AttributeValue(t: Node, p: Path, name: string): Option<string>
    requires IsNode(t, p)
  {
    Lookup(t, p, ByName(name))
  }

  /** `getAttribute`: the value, or '' when the attribute is missing. */
  function AttributeOrEmpty(t: Node, p: Path, name: string): string
    requires IsNode(t, p)
  {
    match AttributeValue(t, p, name) case None => "" case Some(v) => v
  }

  predicate HasAttribute(t: Node, p: Path, name: string)
    requires IsNode(t, p)
  {
    AttributeValue(t, p, name).Some?
  }

  /** The exceptions matching can raise, one constructor per message. */
  datatype MatchError =
    | PrefixNotFound(prefix: string)
    | ColumnUnsupported
    | UnsupportedPseudoClass(name: string)
    | UnsupportedPseudoElement
    | NullAnb

  /** The message each exception carries. */
  function Message(e: MatchError): string
  {
    match e
    case PrefixNotFound(prefix) => "Namespace prefix not found: \"" + prefix + "\"."
    case ColumnUnsupported => "Unsupported combinator \"||\"."
    case UnsupportedPseudoClass(name) => "Matching pseudo-class " + name + " is not supported."
    case UnsupportedPseudoElement => "Matching pseudo-elements is not supported."
    case NullAnb => "Call to a member function matches() on null"
  }

  /** The lookup a qualified attribute name stands for, once its prefix is known. */
  function KeyFor(ctx: Context, w: QualifiedNames.WqName): AttrKey
    requires w.prefix.Some? && w.prefix.value != "*" ==> w.prefix.value in ctx.nsLookup
  {
    match w.prefix
    case None => ByName(w.localName)
    case Some(x) => if x == "*" then ByLocalName(w.localName) else ByNamespace(ctx.nsLookup[x], w.localName)
  }

  /**
   * `getAttributeValue` with a qualified name: none for a non-element; no
   * prefix looks the name up as written, '*' takes the first attribute with
   * the local name, a known prefix the first with its namespace and the local
   * name, and an unknown prefix fails.
   */
  function GetAttributeValue(ctx: Context, p: Path, w: QualifiedNames.WqName): (r: Result<Option<string>, MatchError>)
    requires IsNode(ctx.tree, p)
    ensures !IsElement(ctx.tree, p) ==> r == Success(None)
    ensures r.Failure? <==> IsElement(ctx.tree, p) && w.prefix.Some? && w.prefix.value != "*" && w.prefix.value !in ctx.nsLookup
    ensures r.Failure? ==> r.error == PrefixNotFound(w.prefix.value)
    ensures r.Success? && IsElement(ctx.tree, p) ==> var k := KeyFor(ctx, w); var attrs := At(ctx.tree, p).attrs;
      (r.value.None? <==> forall j :: 0 <= j < |attrs| ==> !KeyMatches(k, attrs[j]))
      && (r.value.Some? ==> exists j :: (0 <= j < |attrs| && KeyMatches(k, attrs[j]) && attrs[j].value == r.value.value
            && forall i :: 0 <= i < j ==> !KeyMatches(k, attrs[i])))
  {
    if !IsElement(ctx.tree, p) then Success(None)
    else if w.prefix.Some? && w.prefix.value != "*" && w.prefix.value !in ctx.nsLookup then
      Failure(PrefixNotFound(w.prefix.value))
    else Success(Lookup(ctx.tree, p, KeyFor(ctx, w)))
  }

  /** `isHtmlElement`: an element without namespace or in the XHTML namespace, with one of the names if any are given. */
  predicate IsHtmlElement(t: Node, p: Path, names: seq<string>)
    requires IsNode(t, p)
  {
    IsElement(t, p) && (At(t, p).namespace.None? || At(t, p).namespace == Some(HtmlNamespace))
      && (names == [] || At(t, p).localName in names)
  }

  /** `areOfSameElementType`: two elements with equal namespace and local name. */
  predicate AreOfSameElementType(t: Node, p: Path, q: Path)
    requires IsNode(t, p) && IsNode(t, q)
  {
    IsElement(t, p) && IsElement(t, q) && At(t, p).namespace == At(t, q).namespace && At(t, p).localName == At(t, q).localName
  }

  /**
   * `matchElementType`: a non-element never matches and the local name must
   * agree unless it is '*'; a '*' prefix accepts any namespace, an empty
   * prefix demands none, a declared prefix its namespace, an undeclared one
   * fails; without a prefix the default namespace applies when there is one.
   */
  function MatchElementType(ctx: Context, p: Path, w: QualifiedNames.WqName): (r: Result<bool, MatchError>)
    requires IsNode(ctx.tree, p)
    ensures !IsElement(ctx.tree, p) ==> r == Success(false)
    ensures r.Failure? <==> (IsElement(ctx.tree, p) && w.prefixSpecified && w.prefix.Some?
      && w.prefix.value != "*" && w.prefix.value !in ctx.nsLookup)
    ensures r.Failure? ==> r.error == PrefixNotFound(w.prefix.value)
    ensures r == Success(true) ==> IsElement(ctx.tree, p) && (w.localName == "*" || At(ctx.tree, p).localName == w.localName)
    ensures IsElement(ctx.tree, p) && w.prefixSpecified && w.prefix == Some("*") ==>
      r == Success(w.localName == "*" || At(ctx.tree, p).localName == w.localName)
    ensures w.prefixSpecified && w.prefix.None? && r == Success(true) ==> At(ctx.tree, p).namespace.None?
    ensures w.prefixSpecified && w.prefix.Some? && w.prefix.value in ctx.nsLookup && w.prefix.value != "*" && r == Success(true) ==>
      At(ctx.tree, p).namespace == Some(ctx.nsLookup[w.prefix.value])
    ensures !w.prefixSpecified && r == Success(true) ==> MatchDefaultNamespace(ctx, p)
    ensures IsElement(ctx.tree, p) && !w.prefixSpecified && "" !in ctx.nsLookup ==>
      r == Success(w.localName == "*" || At(ctx.tree, p).localName == w.localName)
  {
    if !IsElement(ctx.tree, p) then Success(false)
    else
      var n := At(ctx.tree, p);
      var localMatched := w.localName == "*" || n.localName == w.localName;
      if w.prefixSpecified then
        match w.prefix
        case None => Success(n.namespace.None? && localMatched)
        case Some(x) =>
          if x == "*" then Success(localMatched)
          else if x !in ctx.nsLookup then Failure(PrefixNotFound(x))
          else Success(n.namespace == Some(ctx.nsLookup[x]) && localMatched)
      else if "" !in ctx.nsLookup then Success(localMatched)
      else Success(n.namespace == Some(ctx.nsLookup[""]) && localMatched)
  }

  /** `matchDefaultNamespace`: with a default namespace declared, the node must be in it. */
  predicate MatchDefaultNamespace(ctx: Context, p: Path)
    requires IsNode(ctx.tree, p)
    ensures "" !in ctx.nsLookup ==> MatchDefaultNamespace(ctx, p)
    ensures "" in ctx.nsLookup && MatchDefaultNamespace(ctx, p) ==> IsElement(ctx.tree, p)
  {
    "" in ctx.nsLookup ==> NamespaceOf(ctx.tree, p) == Some(ctx.nsLookup[""])
  }

  /** An element or a document fragment: the nodes the left candidates of a combinator can be. */
  predicate IsElementOrFragment(t: Node, q: Path)
  {
    IsNode(t, q) && (At(t, q).nodeType == Element || At(t, q).nodeType == DocumentFragment)
  }

  /** The candidates a combinator's left side may match, given the node its right side matched. */
  function LeftCandidates(ctx: Context, p: Path, c: Combinator): (r: Result<seq<Path>, MatchError>)
    requires IsNode(ctx.tree, p)
    ensures r.Failure? <==> c == Column
    ensures r.Failure? ==> r.error == ColumnUnsupported
    ensures r.Success? ==> forall q :: q in r.value ==> IsNode(ctx.tree, q)
    ensures c == Descendant ==> forall q :: q in r.value <==> IsBelow(q, p) && IsElementOrFragment(ctx.tree, q)
    ensures c == Child ==> |r.value| <= 1 && forall q :: q in r.value <==> Parent(p) == Some(q) && IsElementOrFragment(ctx.tree, q)
    ensures c == SubsequentSibling ==> forall q :: q in r.value <==> (IsNode(ctx.tree, q) && IsSibling(p, q)
      && q[|q| - 1] < p[|p| - 1] && IsElement(ctx.tree, q))
    ensures c == NextSibling ==> |r.value| <= 1 && (r.value == [] <==> PrevElementSiblings(ctx.tree, p) == [])
    ensures c == NextSibling && r.value != [] ==> var q := r.value[0];
      IsNode(ctx.tree, q) && IsSibling(p, q) && q[|q| - 1] < p[|p| - 1] && IsElement(ctx.tree, q)
      && forall q' :: IsNode(ctx.tree, q') && IsSibling(p, q') && q'[|q'| - 1] < p[|p| - 1] && IsElement(ctx.tree, q') ==>
        q'[|q'| - 1] <= q[|q| - 1]
  {
    var t := ctx.tree;
    match c
    case Descendant =>
      forall q | IsBelow(q, p) ensures IsNode(t, q) {
        AncestorsAreNodes(t, p, q);
      }
      Success(Filter(StrictAncestors(p), q => IsElementOrFragment(t, q)))
    case Child =>
      Success(if p != [] && IsElementOrFragment(t, p[..|p| - 1]) then [p[..|p| - 1]] else [])
    case NextSibling =>
      var prev := PrevElementSiblings(t, p);
      if prev == [] then Success([])
      else
        NearestFirst(t, p, prev);
        Success([prev[0]])
    case SubsequentSibling => Success(PrevElementSiblings(t, p))
    case Column => Failure(ColumnUnsupported)
  }

  /** The head of a nearest-first sibling list is the nearest one. */
  lemma NearestFirst(t: Node, p: Path, prev: seq<Path>)
    requires IsNode(t, p) && prev == PrevElementSiblings(t, p) && prev != []
    ensures forall q' :: q' in prev ==> q'[|q'| - 1] <= prev[0][|prev[0]| - 1]
  {
    forall q' | q' in prev ensures q'[|q'| - 1] <= prev[0][|prev[0]| - 1] {
      var k :| 0 <= k < |prev| && prev[k] == q';
    }
  }

  /** The head of an in-order list of following siblings is the nearest one. */
  lemma NearestNext(t: Node, p: Path, next: seq<Path>)
    requires IsNode(t, p) && next == NextElementSiblings(t, p) && next != []
    ensures forall q' :: q' in next ==> next[0][|next[0]| - 1] <= q'[|q'| - 1]
  {
    forall q' | q' in next ensures next[0][|next[0]| - 1] <= q'[|q'| - 1] {
      var k :| 0 <= k < |next| && next[k] == q';
    }
  }

  /** The element descendants of a node, in document order. */
  function ElementDescendants(t: Node, p: Path): (r: seq<Path>)
    requires IsNode(t, p)
    ensures forall q :: q in r <==> IsNode(t, q) && IsBelow(p, q) && IsElement(t, q)
  {
    forall q ensures q in Descendants(t, p) <==> IsNode(t, q) && IsBelow(p, q) {
      DescendantsMeaning(t, p, q);
    }
    Filter(Descendants(t, p), q => IsNode(t, q) && IsElement(t, q))
  }

  /** The candidates a relative selector's inner selector may match, given the node it is anchored at. */
  function RightCandidates(ctx: Context, p: Path, c: Combinator): (r: Result<seq<Path>, MatchError>)
    requires IsNode(ctx.tree, p)
    ensures r.Failure? <==> c == Column
    ensures r.Failure? ==> r.error == ColumnUnsupported
    ensures r.Success? ==> forall q :: q in r.value ==> IsNode(ctx.tree, q)
    ensures c == Descendant ==> forall q :: q in r.value <==> IsNode(ctx.tree, q) && IsBelow(p, q) && IsElement(ctx.tree, q)
    ensures c == Child ==> forall q :: q in r.value <==> IsNode(ctx.tree, q) && Parent(q) == Some(p) && IsElement(ctx.tree, q)
    ensures c == SubsequentSibling ==> forall q :: q in r.value <==> (IsElement(ctx.tree, p) && IsNode(ctx.tree, q)
      && IsSibling(p, q) && q[|q| - 1] > p[|p| - 1] && IsElement(ctx.tree, q))
    ensures c == NextSibling ==> (|r.value| <= 1
      && (r.value == [] <==> !IsElement(ctx.tree, p) || NextElementSiblings(ctx.tree, p) == []))
    ensures c == NextSibling && r.value != [] ==> var q := r.value[0];
      IsNode(ctx.tree, q) && IsSibling(p, q) && q[|q| - 1] > p[|p| - 1] && IsElement(ctx.tree, q)
      && forall q' :: IsNode(ctx.tree, q') && IsSibling(p, q') && q'[|q'| - 1] > p[|p| - 1] && IsElement(ctx.tree, q') ==>
        q[|q| - 1] <= q'[|q'| - 1]
  {
    var t := ctx.tree;
    match c
    case Descendant => Success(ElementDescendants(t, p))
    case Child => Success(ElementChildren(t, p))
    case NextSibling =>
      var next := NextElementSiblings(t, p);
      if !IsElement(t, p) || next == [] then Success([])
      else
        NearestNext(t, p, next);
        Success([next[0]])
    case SubsequentSibling => Success(if IsElement(t, p) then NextElementSiblings(t, p) else [])
    case Column => Failure(ColumnUnsupported)
  }
}
