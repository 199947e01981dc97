/**
 * The loops of the DOM match context and of the pseudo-classes that walk
 * the tree: the descendant worklist, the ancestor and sibling walks, the
 * child loop, the attribute search, the radio-group collection and the
 * `:empty`, `:indeterminate` and typed-sibling loops. Each method is proved
 * to produce what the function of the same concept defines.
 */
module DomWalks {
  import opened Wrappers
  import opened Trees
  import opened MatchContexts
  import opened FormControls
  import opened Matching

  /** The paths of the children of n from index i on. */
  function ChildPaths(t: Node, n: Path, i: nat): (r: seq<Path>)
    requires IsNode(t, n)
    ensures forall q :: q in r ==> IsNode(t, q)
    decreases |At(t, n).children| - i
  {
    if i >= |At(t, n).children| then []
    else
      ChildStep(t, n, i);
      [n + [i]] + ChildPaths(t, n, i + 1)
  }

  /** What the worklist still owes: each pending node followed by its subtree. */
  function Pending(t: Node, nodes: seq<Path>): seq<Path>
    requires forall q :: q in nodes ==> IsNode(t, q)
  {
    if nodes == [] then [] else [nodes[0]] + Descendants(t, nodes[0]) + Pending(t, nodes[1..])
  }

  /** The worklist of two lists owes what each of them owes. */
  lemma {:induction false} PendingAppend(t: Node, a: seq<Path>, b: seq<Path>)
    requires forall q :: q in a ==> IsNode(t, q)
    requires forall q :: q in b ==> IsNode(t, q)
    ensures Pending(t, a + b) == Pending(t, a) + Pending(t, b)
  {
    if a != [] {
      assert (a + b)[1..] == a[1..] + b;
      PendingAppend(t, a[1..], b);
      var head := [a[0]] + Descendants(t, a[0]);
      AppendAssoc(head, Pending(t, a[1..]), Pending(t, b));
    } else {
      assert a + b == b;
    }
  }

  /** The children of n from index i on owe the subtree below n from that child on. */
  lemma {:induction false} PendingChildren(t: Node, n: Path, i: nat)
    requires IsNode(t, n)
    ensures Pending(t, ChildPaths(t, n, i)) == Forest(At(t, n).children, n, i)
    decreases |At(t, n).children| - i
  {
    var cs := At(t, n).children;
    if i < |cs| {
      PendingChildren(t, n, i + 1);
      ChildStep(t, n, i);
      var c := n + [i];
      assert ChildPaths(t, n, i)[1..] == ChildPaths(t, n, i + 1);
      assert Descendants(t, c) == Forest(cs[i].children, c, 0);
    }
  }

  /**
   * `loopDescendants`: the children of the target go on a worklist; each
   * step takes the first node off, yields it and puts its children in
   * front. The nodes yielded are the subtree in document order, the target
   * itself first when asked for.
   */
  method LoopDescendants(t: Node, p: Path, includeSelf: bool) returns (r: seq<Path>)
    requires IsNode(t, p)
    ensures r == (if includeSelf then [p] else []) + Descendants(t, p)
  {
    var nodes := ChildPaths(t, p, 0);
    PendingChildren(t, p, 0);
    var start := if includeSelf then [p] else [];
    r := start;
    while nodes != []
      invariant forall q :: q in nodes ==> IsNode(t, q)
      invariant r + Pending(t, nodes) == start + Descendants(t, p)
      decreases |Pending(t, nodes)|
    {
      var node := nodes[0];
      var rest := nodes[1..];
      var sub := ChildPaths(t, node, 0);
      PendingChildren(t, node, 0);
      PendingAppend(t, sub, rest);
      AppendAssoc(r, [node], Descendants(t, node) + Pending(t, rest));
      AppendAssoc([node], Descendants(t, node), Pending(t, rest));
      r := r + [node];
      nodes := sub + rest;
    }
  }

  /**
   * `loopAncestors`: the `parentNode` walk from the target to the top, the
   * target itself first when asked for and it is an element, a document or
   * a fragment.
   */
  method LoopAncestors(t: Node, p: Path, includeSelf: bool) returns (r: seq<Path>)
    requires IsNode(t, p)
    ensures r == (if includeSelf && At(t, p).nodeType in {Element, Document, DocumentFragment} then [p] else []) + StrictAncestors(p)
  {
    var start := if includeSelf && At(t, p).nodeType in {Element, Document, DocumentFragment} then [p] else [];
    r := start;
    var current := p;
    while current != []
      invariant r + StrictAncestors(current) == start + StrictAncestors(p)
      decreases |current|
    {
      var parent := current[..|current| - 1];
      AppendAssoc(r, [parent], StrictAncestors(parent));
      r := r + [parent];
      current := parent;
    }
  }

  /** `loopChildren`: the element children, in order. */
  method LoopChildren(t: Node, p: Path) returns (r: seq<Path>)
    requires IsNode(t, p)
    ensures r == ElementChildren(t, p)
  {
    var cs := At(t, p).children;
    r := [];
    var i := 0;
    while i < |cs|
      invariant i <= |cs|
      invariant r + ElementChildrenFrom(cs, p, i) == ElementChildrenFrom(cs, p, 0)
    {
      ElementChildrenFromStep(cs, p, i);
      if cs[i].nodeType == Element {
        AppendAssoc(r, [p + [i]], ElementChildrenFrom(cs, p, i + 1));
        r := r + [p + [i]];
      }
      i := i + 1;
    }
  }

  /** The `previousElementSibling` walk: the element siblings before p, nearest first. */
  method LoopPrevElementSiblings(t: Node, p: Path) returns (r: seq<Path>)
    requires IsNode(t, p)
    ensures r == PrevElementSiblings(t, p)
  {
    r := [];
    if p != [] {
      var pp := p[..|p| - 1];
      ParentStep(t, p);
      var cs := At(t, pp).children;
      var i := p[|p| - 1];
      while i > 0
        invariant i <= p[|p| - 1]
        invariant r + PrevElementSiblingsFrom(cs, pp, i) == PrevElementSiblingsFrom(cs, pp, p[|p| - 1])
      {
        PrevElementSiblingsFromStep(cs, pp, i - 1);
        if cs[i - 1].nodeType == Element {
          AppendAssoc(r, [pp + [i - 1]], PrevElementSiblingsFrom(cs, pp, i - 1));
          r := r + [pp + [i - 1]];
        }
        i := i - 1;
      }
    }
  }

  /** The `nextElementSibling` walk: the element siblings after p, nearest first. */
  method LoopNextElementSiblings(t: Node, p: Path) returns (r: seq<Path>)
    requires IsNode(t, p)
    ensures r == NextElementSiblings(t, p)
  {
    r := [];
    if p != [] {
      var pp := p[..|p| - 1];
      ParentStep(t, p);
      var cs := At(t, pp).children;
      var i := p[|p| - 1];
      while i + 1 < |cs|
        invariant p[|p| - 1] <= i
        invariant r + NextElementSiblingsFrom(cs, pp, i) == NextElementSiblingsFrom(cs, pp, p[|p| - 1])
        decreases |cs| - i
      {
        NextElementSiblingsFromStep(cs, pp, i);
        if cs[i + 1].nodeType == Element {
          AppendAssoc(r, [pp + [i + 1]], NextElementSiblingsFrom(cs, pp, i + 1));
          r := r + [pp + [i + 1]];
        }
        i := i + 1;
      }
    }
  }

  /** One step of the backward sibling walk. */
  lemma {:induction false} PrevElementSiblingsFromStep(cs: seq<Node>, base: Path, j: nat)
    requires j < |cs|
    ensures PrevElementSiblingsFrom(cs, base, j + 1)
      == (if cs[j].nodeType == Element then [base + [j]] else []) + PrevElementSiblingsFrom(cs, base, j)
  {
  }

  /** One step of the forward sibling walk. */
  lemma {:induction false} NextElementSiblingsFromStep(cs: seq<Node>, base: Path, i: nat)
    requires i + 1 < |cs|
    ensures NextElementSiblingsFrom(cs, base, i)
      == (if cs[i + 1].nodeType == Element then [base + [i + 1]] else []) + NextElementSiblingsFrom(cs, base, i + 1)
  {
  }

  /** The attribute loop of `getAttributeValue`: the value of the first attribute the key selects. */
  method LookupAttribute(t: Node, p: Path, k: AttrKey) returns (r: Option<string>)
    requires IsNode(t, p)
    ensures r == Lookup(t, p, k)
  {
    if !IsElement(t, p) {
      return None;
    }
    var attrs := At(t, p).attrs;
    var i := 0;
    while i < |attrs|
      invariant i <= |attrs|
      invariant forall j :: 0 <= j < i ==> !KeyMatches(k, attrs[j])
    {
      if KeyMatches(k, attrs[i]) {
        assert FirstAttr(attrs, k) == Some(i);
        return Some(attrs[i].value);
      }
      i := i + 1;
    }
    r := None;
  }

  /** `getAttributeValue` with a qualified name: the prefix check, then the attribute loop. */
  method GetAttributeValueWalk(ctx: Context, p: Path, w: QualifiedNames.WqName) returns (r: Result<Option<string>, MatchError>)
    requires IsNode(ctx.tree, p)
    ensures r == GetAttributeValue(ctx, p, w)
  {
    if !IsElement(ctx.tree, p) {
      return Success(None);
    }
    if w.prefix.Some? && w.prefix.value != "*" && w.prefix.value !in ctx.nsLookup {
      return Failure(PrefixNotFound(w.prefix.value));
    }
    var v := LookupAttribute(ctx.tree, p, KeyFor(ctx, w));
    r := Success(v);
  }

  /** The `$isEmpty` loop of `:empty`: it stops at the first node below p that is neither a comment nor unsupported. */
  method IsEmptyWalk(t: Node, p: Path) returns (isEmpty: bool)
    requires IsNode(t, p)
    ensures isEmpty == IsEmptyNode(t, p)
  {
    var nodes := LoopDescendants(t, p, false);
    assert nodes == Descendants(t, p);
    DescendantsAreNodes(t, p);
    isEmpty := true;
    var i := 0;
    while i < |nodes|
      invariant i <= |nodes|
      invariant forall j :: 0 <= j < i ==> At(t, nodes[j]).nodeType in {Comment, Unsupported}
    {
      var kind := At(t, nodes[i]).nodeType;
      if kind != Comment && kind != Unsupported {
        NotEmptyAt(t, p, nodes[i]);
        isEmpty := false;
        return;
      }
      i := i + 1;
    }
    EmptyWhenAll(t, p, nodes);
  }

  /** Every descendant is a node of the tree. */
  lemma DescendantsAreNodes(t: Node, p: Path)
    requires IsNode(t, p)
    ensures forall q :: q in Descendants(t, p) ==> IsNode(t, q)
  {
    forall q | q in Descendants(t, p) ensures IsNode(t, q) {
      DescendantsMeaning(t, p, q);
    }
  }

  /** A descendant that is neither a comment nor unsupported makes the node non-empty. */
  lemma NotEmptyAt(t: Node, p: Path, q: Path)
    requires IsNode(t, p) && q in Descendants(t, p) && IsNode(t, q)
    requires At(t, q).nodeType != Comment && At(t, q).nodeType != Unsupported
    ensures !IsEmptyNode(t, p)
  {
    DescendantsMeaning(t, p, q);
  }

  /** When every descendant is a comment or unsupported, the node is empty. */
  lemma EmptyWhenAll(t: Node, p: Path, nodes: seq<Path>)
    requires IsNode(t, p) && nodes == Descendants(t, p) && forall q :: q in nodes ==> IsNode(t, q)
    requires forall j :: 0 <= j < |nodes| ==> At(t, nodes[j]).nodeType in {Comment, Unsupported}
    ensures IsEmptyNode(t, p)
  {
    forall q | q in nodes && IsNode(t, q) ensures At(t, q).nodeType in {Comment, Unsupported} {
      var j :| 0 <= j < |nodes| && nodes[j] == q;
    }
  }

  /** The `$hasChecked` loop of `:indeterminate`: some member of the group carries `checked`. */
  method HasCheckedMember(t: Node, group: seq<Path>) returns (hasChecked: bool)
    requires forall q :: q in group ==> IsNode(t, q)
    ensures hasChecked == !NoneChecked(t, group)
  {
    var i := 0;
    while i < |group|
      invariant i <= |group|
      invariant forall j :: 0 <= j < i ==> !HasAttribute(t, group[j], "checked")
    {
      if HasAttribute(t, group[i], "checked") {
        return true;
      }
      i := i + 1;
    }
    hasChecked := false;
    forall q | q in group ensures !HasAttribute(t, q, "checked") {
      var j :| 0 <= j < |group| && group[j] == q;
    }
  }

  /** The children loop of `TypedChildIndexedPseudoClass::matches`: the siblings of p's own element type, in order. */
  method TypedSiblingsWalk(t: Node, p: Path) returns (siblings: seq<Path>)
    requires IsNode(t, p) && p != []
    ensures siblings == TypedSiblings(t, p)
  {
    var children := LoopChildren(t, ParentPath(t, p));
    var keep := SameTypeAs(t, p);
    siblings := [];
    var i := 0;
    while i < |children|
      invariant i <= |children|
      invariant siblings + Filter(children[i..], keep) == Filter(children, keep)
    {
      FilterStep(children, i, keep, siblings);
      if keep(children[i]) {
        siblings := siblings + [children[i]];
      }
      i := i + 1;
    }
    FilterEnd(children, keep);
  }

  /** The last of the strict ancestors of a node that has a parent is the top node. */
  lemma TopmostAncestor(p: Path)
    requires p != []
    ensures |StrictAncestors(p)| == |p| && StrictAncestors(p)[|p| - 1] == []
    decreases |p|
  {
    if |p| > 1 {
      TopmostAncestor(p[..|p| - 1]);
    }
  }

  /** The test of the ancestor loop: an HTML `form` element. */
  predicate IsForm(t: Node, q: Path)
  {
    IsNode(t, q) && IsHtmlElement(t, q, ["form"])
  }

  /**
   * The ancestor loop of `getRadioButtonGroup`: the first HTML form met
   * walking up is the owner, the last node met is the topmost; a node with
   * no ancestors has no owner.
   */
  method RadioOwnerWalk(t: Node, p: Path) returns (owner: Option<Path>)
    requires IsNode(t, p)
    ensures owner == RadioOwner(t, p)
  {
    var ancestors := LoopAncestors(t, p, false);
    var topmost: Option<Path> := None;
    owner := None;
    ghost var ownerIndex := 0;
    var i := 0;
    while i < |ancestors|
      invariant i <= |ancestors|
      invariant owner.None? ==> forall j :: 0 <= j < i ==> !IsForm(t, ancestors[j])
      invariant owner.Some? ==> ownerIndex < i && owner.value == ancestors[ownerIndex] && IsForm(t, owner.value)
      invariant owner.Some? ==> forall j :: 0 <= j < ownerIndex ==> !IsForm(t, ancestors[j])
      invariant topmost == if i == 0 then None else Some(ancestors[i - 1])
    {
      if owner.None? && IsForm(t, ancestors[i]) {
        owner := Some(ancestors[i]);
        ownerIndex := i;
      }
      topmost := Some(ancestors[i]);
      i := i + 1;
    }
    if owner.Some? {
      SameForm(t, p, ancestors, ownerIndex);
    } else {
      NoForm(t, p, ancestors);
      if topmost.Some? {
        TopmostAncestor(p);
        owner := topmost;
      }
    }
  }

  /** When the ancestor loop meets no form, FormAncestor finds none either. */
  lemma NoForm(t: Node, p: Path, ancestors: seq<Path>)
    requires IsNode(t, p) && ancestors == StrictAncestors(p)
    requires forall j :: 0 <= j < |ancestors| ==> !IsForm(t, ancestors[j])
    ensures FormAncestor(t, p).None?
  {
    forall q | q in ancestors ensures !IsForm(t, q) {
      var k :| 0 <= k < |ancestors| && ancestors[k] == q;
    }
  }

  /** The nearest form found by the ancestor loop is the one FormAncestor defines. */
  lemma SameForm(t: Node, p: Path, ancestors: seq<Path>, j: nat)
    requires IsNode(t, p) && ancestors == StrictAncestors(p)
    requires j < |ancestors| && IsForm(t, ancestors[j])
    requires forall j' :: 0 <= j' < j ==> !IsForm(t, ancestors[j'])
    ensures p != [] && RadioOwner(t, p) == Some(ancestors[j])
  {
    var a := ancestors[j];
    assert a in ancestors && IsBelow(a, p);
    var form := FormAncestor(t, p);
    assert form.Some?;
    var f := form.value;
    assert f in ancestors;
    var k :| 0 <= k < |ancestors| && ancestors[k] == f;
    assert |f| == |p| - 1 - k && |a| == |p| - 1 - j;
    assert !(k < j);
    assert !(|a| > |f|);
    assert k == j;
  }

  /**
   * `getRadioButtonGroup`: the target alone when it has no name or no
   * ancestor; otherwise the descendant loop over its form owner keeps the
   * HTML radio inputs of that name.
   */
  method RadioButtonGroupWalk(t: Node, p: Path) returns (group: seq<Path>)
    requires IsNode(t, p)
    ensures group == RadioButtonGroup(t, p)
  {
    var name := AttributeOrEmpty(t, p, "name");
    if name == "" {
      return [p];
    }
    var owner := RadioOwnerWalk(t, p);
    if owner.None? {
      return [p];
    }
    var nodes := LoopDescendants(t, owner.value, false);
    assert nodes == Descendants(t, owner.value);
    var keep := RadioOf(t, name);
    group := [];
    var i := 0;
    while i < |nodes|
      invariant i <= |nodes|
      invariant group + Filter(nodes[i..], keep) == Filter(nodes, keep)
    {
      FilterStep(nodes, i, keep, group);
      if IsRadioOf(t, nodes[i], name) {
        group := group + [nodes[i]];
      }
      i := i + 1;
    }
    FilterEnd(nodes, keep);
  }
}
