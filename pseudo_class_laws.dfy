/**
 * Properties of the child-indexed, typed child-indexed, `:empty` and input
 * pseudo-classes: how the named shorthands relate to the An+B forms, what
 * the positions count, and which input pseudo-classes partition the
 * elements they apply to.
 */
module PseudoClassLaws {
  import opened Wrappers
  import opened Trees
  import opened MatchContexts
  import opened FormControls
  import opened AttrValues
  import opened Matching
  import AnbNotations

  /** The notation `1`: the selector of the first position only. */
  const One := AnbNotations.AnbNotation(0, 1, "")

  /** No path occurs twice in s. */
  predicate Distinct(s: seq<Path>)
  {
    forall j, k :: 0 <= j < k < |s| ==> s[j] != s[k]
  }

  /** `:first-child` is `:nth-child(1)`: both hold exactly when p heads the list. */
  lemma FirstChildIsNthChildOne(s: seq<Path>, p: Path, anb: Option<AnbNotations.AnbNotation>)
    ensures ChildIndexedAmong("first-child", anb, s, p) == ChildIndexedAmong("nth-child", Some(One), s, p)
    ensures ChildIndexedAmong("first-child", anb, s, p) == Success(s != [] && s[0] == p)
  {
    if s != [] && s[0] == p {
      assert IndexOf(s, p) == Some(0);
    }
  }

  /** `:last-child` is `:nth-last-child(1)` among distinct siblings. */
  lemma LastChildIsNthLastChildOne(s: seq<Path>, p: Path, anb: Option<AnbNotations.AnbNotation>)
    requires Distinct(s)
    ensures ChildIndexedAmong("last-child", anb, s, p) == ChildIndexedAmong("nth-last-child", Some(One), s, p)
    ensures ChildIndexedAmong("last-child", anb, s, p) == Success(s != [] && s[|s| - 1] == p)
  {
    if s != [] && s[|s| - 1] == p {
      assert IndexOf(s, p).value == |s| - 1;
    }
  }

  /** `:only-child` is `:first-child:last-child` among distinct siblings. */
  lemma OnlyChildIsFirstAndLast(s: seq<Path>, p: Path, anb: Option<AnbNotations.AnbNotation>)
    requires Distinct(s)
    ensures ChildIndexedAmong("only-child", anb, s, p)
      == Success(ChildIndexedAmong("first-child", anb, s, p).value && ChildIndexedAmong("last-child", anb, s, p).value)
  {
  }

  /** A node missing from the list matches none of the position tests. */
  lemma ChildIndexedAmongAbsent(name: string, anb: Option<AnbNotations.AnbNotation>, s: seq<Path>, p: Path)
    requires p !in s
    ensures ChildIndexedAmong(name, anb, s, p) == Success(false)
  {
    if s != [] {
      assert s[0] in s && s[|s| - 1] in s;
    }
  }

  /** The element children of a node are distinct. */
  lemma ElementChildrenDistinct(t: Node, q: Path)
    requires IsNode(t, q)
    ensures Distinct(ElementChildren(t, q))
  {
    var s := ElementChildren(t, q);
    forall j, k | 0 <= j < k < |s| ensures s[j] != s[k] {
      assert s[j][|q|] < s[k][|q|];
    }
  }

  /** Without `of`, the position tests run on the element children of the parent; a node without parent never matches. */
  lemma ChildIndexedWithoutOf(ctx: Context, p: Path, name: string, anb: Option<AnbNotations.AnbNotation>)
    requires IsNode(ctx.tree, p)
    ensures p == [] ==> MatchChildIndexed(ctx, p, name, anb, None) == Success(false)
    ensures p != [] ==> (Distinct(ElementChildren(ctx.tree, ParentPath(ctx.tree, p)))
      && MatchChildIndexed(ctx, p, name, anb, None) == ChildIndexedAmong(name, anb, ElementChildren(ctx.tree, ParentPath(ctx.tree, p)), p))
  {
    if p != [] {
      ElementChildrenDistinct(ctx.tree, ParentPath(ctx.tree, p));
    }
  }

  /** `:first-child`, `:last-child` and `:only-child` ignore an `of` selector. */
  lemma ShorthandsIgnoreOf(ctx: Context, p: Path, name: string, anb: Option<AnbNotations.AnbNotation>, s: Selectors.Selector)
    requires IsNode(ctx.tree, p) && Selectors.WellFormed(s) && IsChildShorthand(name)
    ensures MatchChildIndexed(ctx, p, name, anb, Some(s)) == MatchChildIndexed(ctx, p, name, anb, None)
  {
  }

  /**
   * Without `of`, `:nth-child(An+B)` tests one more than the number of
   * element siblings before p, and `:nth-last-child(An+B)` one more than
   * the number after it.
   */
  lemma NthChildCountsSiblings(ctx: Context, p: Path, n: AnbNotations.AnbNotation)
    requires IsNode(ctx.tree, p) && p != [] && IsElement(ctx.tree, p)
    ensures MatchChildIndexed(ctx, p, "nth-child", Some(n), None)
      == Success(AnbNotations.Matches(n, |PrevElementSiblings(ctx.tree, p)| + 1))
    ensures MatchChildIndexed(ctx, p, "nth-last-child", Some(n), None)
      == Success(AnbNotations.Matches(n, |NextElementSiblings(ctx.tree, p)| + 1))
  {
    ChildIndexedWithoutOf(ctx, p, "nth-child", Some(n));
    ChildIndexedWithoutOf(ctx, p, "nth-last-child", Some(n));
    NthAmongSiblings(ctx.tree, p, n);
  }

  /** The nth positions of an element child among its parent's element children count its element siblings. */
  lemma NthAmongSiblings(t: Node, p: Path, n: AnbNotations.AnbNotation)
    requires IsNode(t, p) && p != [] && IsElement(t, p)
    ensures ChildIndexedAmong("nth-child", Some(n), ElementChildren(t, ParentPath(t, p)), p)
      == Success(AnbNotations.Matches(n, |PrevElementSiblings(t, p)| + 1))
    ensures ChildIndexedAmong("nth-last-child", Some(n), ElementChildren(t, ParentPath(t, p)), p)
      == Success(AnbNotations.Matches(n, |NextElementSiblings(t, p)| + 1))
  {
    ElementChildPosition(t, p);
    var siblings := ElementChildren(t, ParentPath(t, p));
    assert ParentPath(t, p) == p[..|p| - 1];
    var prev, next := |PrevElementSiblings(t, p)|, |NextElementSiblings(t, p)|;
    assert IndexOf(siblings, p) == Some(prev) && |siblings| == prev + 1 + next;
    assert ChildIndexedAmong("nth-child", Some(n), siblings, p) == NthChildResult("nth-child", Some(n), Some(prev), |siblings|);
    assert ChildIndexedAmong("nth-last-child", Some(n), siblings, p) == NthChildResult("nth-last-child", Some(n), Some(prev), |siblings|);
    NthResultCounts(n, prev, next, |siblings|);
  }

  /** The nth results at index prev of prev + 1 + next siblings: position prev + 1 from the front, next + 1 from the back. */
  lemma NthResultCounts(n: AnbNotations.AnbNotation, prev: nat, next: nat, count: nat)
    requires count == prev + 1 + next
    ensures NthChildResult("nth-child", Some(n), Some(prev), count) == Success(AnbNotations.Matches(n, prev + 1))
    ensures NthChildResult("nth-last-child", Some(n), Some(prev), count) == Success(AnbNotations.Matches(n, next + 1))
  {
  }

  /** A node that is not an element child never matches a child-indexed pseudo-class without `of`. */
  lemma ChildIndexedNeedsElement(ctx: Context, p: Path, name: string, anb: Option<AnbNotations.AnbNotation>)
    requires IsNode(ctx.tree, p) && (p == [] || !IsElement(ctx.tree, p))
    ensures MatchChildIndexed(ctx, p, name, anb, None) == Success(false)
  {
    ChildIndexedWithoutOf(ctx, p, name, anb);
    if p != [] {
      ChildIndexedAmongAbsent(name, anb, ElementChildren(ctx.tree, ParentPath(ctx.tree, p)), p);
    }
  }

  /**
   * The nth forms with `of S` only match elements S matches: the position is
   * taken among the element siblings S keeps.
   */
  lemma NthOfNeedsOfMatch(ctx: Context, p: Path, name: string, anb: Option<AnbNotations.AnbNotation>, s: Selectors.Selector)
    requires IsNode(ctx.tree, p) && Selectors.WellFormed(s) && !IsChildShorthand(name)
    requires MatchChildIndexed(ctx, p, name, anb, Some(s)) == Success(true)
    ensures p != [] && IsElement(ctx.tree, p) && Matches(ctx, p, s) == Success(true)
  {
    var siblings := ElementChildren(ctx.tree, ParentPath(ctx.tree, p));
    var filtered := FilterMatching(ctx, siblings, s, 0).value;
    if p !in filtered {
      ChildIndexedAmongAbsent(name, anb, filtered, p);
    }
    var j :| 0 <= j < |siblings| && siblings[j] == p && Matches(ctx, p, s) == Success(true);
    assert siblings[j] in siblings;
  }

  /** `:only-of-type` is `:first-of-type:last-of-type`. */
  lemma OnlyOfTypeIsFirstAndLast(s: seq<Path>, p: Path, anb: Option<AnbNotations.AnbNotation>)
    ensures TypedChildIndexedAmong("only-of-type", anb, s, p)
      == Success(TypedChildIndexedAmong("first-of-type", anb, s, p).value && TypedChildIndexedAmong("last-of-type", anb, s, p).value)
  {
  }

  /**
   * For a node in the list, `:nth-of-type(1)` is `:first-of-type` and
   * `:nth-last-of-type(1)` is `:last-of-type`; a node missing from it
   * matches neither shorthand.
   */
  lemma NthOfTypeOne(s: seq<Path>, p: Path, anb: Option<AnbNotations.AnbNotation>)
    ensures p in s ==> TypedChildIndexedAmong("nth-of-type", Some(One), s, p) == TypedChildIndexedAmong("first-of-type", anb, s, p)
    ensures p in s ==> TypedChildIndexedAmong("nth-last-of-type", Some(One), s, p) == TypedChildIndexedAmong("last-of-type", anb, s, p)
    ensures p !in s ==> (TypedChildIndexedAmong("first-of-type", anb, s, p) == Success(false)
      && TypedChildIndexedAmong("last-of-type", anb, s, p) == Success(false))
  {
  }

  /**
   * The typed position of an element counts only the siblings of its own
   * element type: the siblings found are exactly the element children of
   * the parent with its namespace and local name, and p is among them.
   */
  lemma TypedSiblingsMeaning(t: Node, p: Path, q: Path)
    requires IsNode(t, p) && p != [] && IsElement(t, p)
    ensures p in TypedSiblings(t, p)
    ensures q in TypedSiblings(t, p) <==> (IsNode(t, q) && Parent(q) == Parent(p) && IsElement(t, q)
      && At(t, q).namespace == At(t, p).namespace && At(t, q).localName == At(t, p).localName)
  {
    ParentStep(t, p);
  }

  /** `:empty` holds when every node strictly below p is a comment or a node of an unsupported kind. */
  lemma EmptyMeaning(t: Node, p: Path)
    requires IsNode(t, p)
    ensures IsEmptyNode(t, p) <==>
      forall q :: IsNode(t, q) && IsBelow(p, q) ==> At(t, q).nodeType == Comment || At(t, q).nodeType == Unsupported
  {
    forall q ensures q in Descendants(t, p) <==> IsNode(t, q) && IsBelow(p, q) {
      DescendantsMeaning(t, p, q);
    }
  }

  /** A node without children is empty; one with a text or element child is not. */
  lemma EmptyByChildren(t: Node, p: Path, i: nat)
    requires IsNode(t, p)
    ensures At(t, p).children == [] ==> IsEmptyNode(t, p)
    ensures i < |At(t, p).children| && At(t, p).children[i].nodeType in {Text, Element} ==> !IsEmptyNode(t, p)
  {
    EmptyMeaning(t, p);
    if i < |At(t, p).children| {
      ChildStep(t, p, i);
      assert IsBelow(p, p + [i]);
    }
  }

  /** Of the requirable elements, each is either `:required` or `:optional`; other nodes are neither. */
  lemma RequiredOptionalPartition(t: Node, p: Path)
    requires IsNode(t, p)
    ensures IsHtmlElement(t, p, RequirableElements) ==> MatchInput(t, p, "required") != MatchInput(t, p, "optional")
    ensures !IsHtmlElement(t, p, RequirableElements) ==> !MatchInput(t, p, "required") && !MatchInput(t, p, "optional")
  {
  }

  /** `:read-only` is exactly the nodes that are not `:read-write`. */
  lemma ReadOnlyIsComplement(t: Node, p: Path)
    requires IsNode(t, p)
    ensures MatchInput(t, p, "read-only") == !MatchInput(t, p, "read-write")
  {
  }

  /**
   * `:disabled` only holds on elements `:enabled` applies to, and there the
   * two are complements; at most one of them holds anywhere.
   */
  lemma EnabledDisabledPartition(t: Node, p: Path)
    requires IsNode(t, p)
    ensures MatchInput(t, p, "disabled") ==> IsHtmlElement(t, p, EnableableElements)
    ensures IsHtmlElement(t, p, EnableableElements) ==> MatchInput(t, p, "enabled") == !MatchInput(t, p, "disabled")
    ensures !(MatchInput(t, p, "enabled") && MatchInput(t, p, "disabled"))
  {
    if IsActuallyDisabled(t, p) {
      var name := At(t, p).localName;
      assert name in DisableableControls || name == "optgroup" || name == "option";
      assert name in EnableableElements;
    }
  }

  /** A radio button belongs to its own group. */
  lemma RadioInOwnGroup(t: Node, p: Path)
    requires IsNode(t, p) && IsHtmlElement(t, p, ["input"]) && AttributeValue(t, p, "type") == Some("radio")
    ensures p in RadioButtonGroup(t, p)
  {
    var name := AttributeOrEmpty(t, p, "name");
    if name != "" && p != [] {
      var owner := RadioOwner(t, p).value;
      assert IsBelow(owner, p);
      assert IsRadioOf(t, p, name);
    }
  }

  /** A checked control is never indeterminate: a checked radio button is itself a checked member of its group. */
  lemma CheckedIsNotIndeterminate(t: Node, p: Path)
    requires IsNode(t, p)
    ensures MatchInput(t, p, "checked") ==> !MatchInput(t, p, "indeterminate")
  {
    if IsChecked(t, p) && IsHtmlElement(t, p, ["input"]) && AttributeValue(t, p, "type") == Some("radio") {
      RadioInOwnGroup(t, p);
    }
  }

  /** A control below a disabled fieldset that has no legend child is `:disabled`. */
  lemma DisabledFieldsetDisables(t: Node, p: Path, f: Path)
    requires IsNode(t, p) && IsHtmlElement(t, p, DisableableControls)
    requires IsBelow(f, p) && IsNode(t, f) && IsHtmlElement(t, f, ["fieldset"]) && HasAttribute(t, f, "disabled")
    requires FirstLegend(t, f).None?
    ensures MatchInput(t, p, "disabled") && !MatchInput(t, p, "enabled")
  {
    assert f in StrictAncestors(p) && DisablesFrom(t, f, p);
    assert InDisabledFieldset(t, p);
    assert At(t, p).localName in DisableableControls;
    assert IsActuallyDisabled(t, p);
  }

  /** The first legend of a disabled fieldset shields what it contains: the fieldset does not disable it. */
  lemma LegendShields(t: Node, p: Path, f: Path, l: Path)
    requires IsNode(t, p) && IsNode(t, f) && FirstLegend(t, f) == Some(l) && p in Descendants(t, l)
    ensures !DisablesFrom(t, f, p)
  {
  }

  /** An HTML option is `:disabled` when it carries `disabled` or its parent is a disabled HTML optgroup. */
  lemma OptionDisabledByOptgroup(t: Node, p: Path)
    requires IsNode(t, p) && IsHtmlElement(t, p, ["option"])
    ensures HasAttribute(t, p, "disabled") || OptgroupParentDisabled(t, p) ==> MatchInput(t, p, "disabled")
    ensures !HasAttribute(t, p, "disabled") && !OptgroupParentDisabled(t, p) ==> !MatchInput(t, p, "disabled")
  {
    assert At(t, p).localName == "option";
    assert "option" !in DisableableControls;
  }

  /** Only HTML elements are ever disabled or enabled. */
  lemma OnlyHtmlIsDisabled(t: Node, p: Path)
    requires IsNode(t, p) && !IsHtmlElement(t, p, [])
    ensures !MatchInput(t, p, "disabled") && !MatchInput(t, p, "enabled")
  {
  }

  /** A class attribute lists its names separated by white space: its first word matches. */
  lemma ClassFindsFirstWord(t: Node, p: Path, w: string, rest: string)
    requires IsNode(t, p) && w != [] && NoSpace(w)
    requires AttributeValue(t, p, "class") == Some(w + " " + rest) || AttributeValue(t, p, "class") == Some(w)
    ensures ClassMatches(t, p, w)
  {
    IncludesFindsWords(w, rest);
  }

  /** A class name that is empty or holds white space never matches; nor does any name without a class attribute. */
  lemma ClassNeedsAWord(t: Node, p: Path, name: string)
    requires IsNode(t, p)
    ensures name == [] || !NoSpace(name) || AttributeValue(t, p, "class").None? ==> !ClassMatches(t, p, name)
  {
    if AttributeValue(t, p, "class").Some? && name == [] {
      assert name !in Words(AttributeValue(t, p, "class").value);
    }
  }
}
