/**
 * The form-control rules of the DOM match context: when a control is
 * actually disabled, when an element is read-write, and which radio buttons
 * form a group.
 */
module FormControls {
  import opened Wrappers
  import opened Trees
  import opened MatchContexts

  /** The form controls a `disabled` attribute or a disabled fieldset turns off. */
  const DisableableControls: seq<string> := ["button", "input", "select", "textarea", "fieldset"]

  /** The first HTML legend among the element children of a node. */
  function FirstLegend(t: Node, f: Path): (r: Option<Path>)
    requires IsNode(t, f)
    ensures r.Some? ==> IsNode(t, r.value) && Parent(r.value) == Some(f) && IsHtmlElement(t, r.value, ["legend"])
    ensures r.None? ==> forall q :: IsNode(t, q) && Parent(q) == Some(f) && IsElement(t, q) ==> !IsHtmlElement(t, q, ["legend"])
  {
    var children := ElementChildren(t, f);
    match FirstIndex(children, q => IsNode(t, q) && IsHtmlElement(t, q, ["legend"]))
    case None => None
    case Some(i) => Some(children[i])
  }

  /**
   * The predicate the fieldset walk of `isActuallyDisabled` applies to an
   * ancestor: a disabled fieldset whose first legend child, if any, does not
   * contain the target.
   */
  predicate DisablesFrom(t: Node, f: Path, p: Path)
    requires IsNode(t, f)
  {
    IsHtmlElement(t, f, ["fieldset"]) && HasAttribute(t, f, "disabled")
      && match FirstLegend(t, f) case None => true case Some(l) => p !in Descendants(t, l)
  }

  /** Some ancestor of p is a fieldset that disables it. */
  predicate InDisabledFieldset(t: Node, p: Path)
    requires IsNode(t, p)
  {
    exists f :: f in StrictAncestors(p) && IsNode(t, f) && DisablesFrom(t, f, p)
  }

  /**
   * `isActuallyDisabled`: only HTML elements; a control or fieldset with
   * `disabled` or inside a disabling fieldset, a disabled optgroup, an option
   * that is disabled or sits in a disabled HTML optgroup.
   */
  predicate IsActuallyDisabled(t: Node, p: Path)
    requires IsNode(t, p)
    ensures IsActuallyDisabled(t, p) ==> IsHtmlElement(t, p, DisableableControls + ["optgroup", "option"])
  {
    if !IsHtmlElement(t, p, []) then false
    else
      var name := At(t, p).localName;
      (name in DisableableControls && (HasAttribute(t, p, "disabled") || InDisabledFieldset(t, p)))
      || (name == "optgroup" && HasAttribute(t, p, "disabled"))
      || (name == "option" && (HasAttribute(t, p, "disabled") || OptgroupParentDisabled(t, p)))
  }

  /** The parent of p is a disabled HTML optgroup. */
  predicate OptgroupParentDisabled(t: Node, p: Path)
    requires IsNode(t, p)
  {
    p != [] && IsNode(t, p[..|p| - 1]) && IsHtmlElement(t, p[..|p| - 1], ["optgroup"]) && HasAttribute(t, p[..|p| - 1], "disabled")
  }

  /** The input types that are never read-write. */
  const NotTextInputTypes: seq<string> := ["checkbox", "color", "file", "hidden", "radio", "range"]

  /** `contenteditable` is present and not "false". */
  predicate IsContentEditable(t: Node, q: Path)
    requires IsNode(t, q)
  {
    AttributeValue(t, q, "contenteditable").Some? && AttributeValue(t, q, "contenteditable").value != "false"
  }

  /**
   * `isReadWritable`: a text-like input or a textarea without `readonly` that
   * is not disabled; any other HTML element when it or an ancestor is an
   * editable HTML element.
   */
  predicate IsReadWritable(t: Node, p: Path)
    requires IsNode(t, p)
    ensures IsReadWritable(t, p) ==> IsHtmlElement(t, p, [])
    ensures (IsHtmlElement(t, p, ["input"]) || IsHtmlElement(t, p, ["textarea"])) && (IsActuallyDisabled(t, p) || HasAttribute(t, p, "readonly"))
      ==> !IsReadWritable(t, p)
  {
    if IsHtmlElement(t, p, ["input"]) then
      AttributeOrEmpty(t, p, "type") !in NotTextInputTypes && !HasAttribute(t, p, "readonly") && !IsActuallyDisabled(t, p)
    else if IsHtmlElement(t, p, ["textarea"]) then
      !HasAttribute(t, p, "readonly") && !IsActuallyDisabled(t, p)
    else if IsHtmlElement(t, p, []) then
      exists q :: q in [p] + StrictAncestors(p) && IsNode(t, q) && IsHtmlElement(t, q, []) && IsContentEditable(t, q)
    else false
  }

  /** The nearest HTML form among the strict ancestors of p. */
  function FormAncestor(t: Node, p: Path): (r: Option<Path>)
    requires IsNode(t, p)
    ensures r.Some? ==> IsBelow(r.value, p) && IsNode(t, r.value) && IsHtmlElement(t, r.value, ["form"])
    ensures r.Some? ==> forall q :: IsBelow(q, p) && |q| > |r.value| && IsNode(t, q) ==> !IsHtmlElement(t, q, ["form"])
    ensures r.None? ==> forall q :: IsBelow(q, p) && IsNode(t, q) ==> !IsHtmlElement(t, q, ["form"])
  {
    var ancestors := StrictAncestors(p);
    var keep := q => IsNode(t, q) && IsHtmlElement(t, q, ["form"]);
    match FirstIndex(ancestors, keep)
    case Some(i) =>
      forall q | IsBelow(q, p) && |q| > |ancestors[i]| && IsNode(t, q) ensures !IsHtmlElement(t, q, ["form"]) {
        var k :| 0 <= k < |ancestors| && ancestors[k] == q;
        assert k < i && !keep(ancestors[k]);
      }
      Some(ancestors[i])
    case None =>
      forall q | IsBelow(q, p) && IsNode(t, q) ensures !IsHtmlElement(t, q, ["form"]) {
        var k :| 0 <= k < |ancestors| && ancestors[k] == q;
        assert !keep(ancestors[k]);
      }
      None
  }

  /**
   * The form owner of a radio button: its nearest HTML form ancestor, else
   * the topmost ancestor, the top of the tree; the top node has no owner.
   */
  function RadioOwner(t: Node, p: Path): (r: Option<Path>)
    requires IsNode(t, p)
    ensures r.None? <==> p == []
    ensures r.Some? ==> IsBelow(r.value, p) && IsNode(t, r.value)
  {
    if p == [] then None
    else match FormAncestor(t, p) case Some(f) => Some(f) case None => Some([])
  }

  /** A member of the radio group of `name`: an HTML input of type radio with that name. */
  predicate IsRadioOf(t: Node, q: Path, name: string)
  {
    IsNode(t, q) && IsHtmlElement(t, q, ["input"]) && AttributeOrEmpty(t, q, "name") == name
      && AttributeOrEmpty(t, q, "type") == "radio"
  }

  /**
   * `getRadioButtonGroup`: the target alone when it has no name or no
   * ancestor; otherwise every radio input of that name in the subtree of its
   * form owner, in document order.
   */
  function RadioButtonGroup(t: Node, p: Path): (r: seq<Path>)
    requires IsNode(t, p)
    ensures forall q :: q in r ==> IsNode(t, q)
    ensures AttributeOrEmpty(t, p, "name") == "" || p == [] ==> r == [p]
    ensures AttributeOrEmpty(t, p, "name") != "" && p != [] ==> var owner := RadioOwner(t, p).value;
      forall q :: q in r <==> IsBelow(owner, q) && IsRadioOf(t, q, AttributeOrEmpty(t, p, "name"))
  {
    var name := AttributeOrEmpty(t, p, "name");
    if name == "" then [p]
    else match RadioOwner(t, p)
      case None => [p]
      case Some(owner) =>
        forall q ensures q in Descendants(t, owner) <==> IsNode(t, q) && IsBelow(owner, q) {
          DescendantsMeaning(t, owner, q);
        }
        Filter(Descendants(t, owner), RadioOf(t, name))
  }

  /** The test that keeps the radio buttons of the group of `name`. */
  function RadioOf(t: Node, name: string): Path -> bool
  {
    q => IsRadioOf(t, q, name)
  }
}
