/**
 * The document a selector is matched against, as a finite tree. A node is
 * named by its path, the child indices that lead to it from the top node;
 * two paths name the same node exactly when they are equal, which stands in
 * for the object identity (`===`) the matcher compares nodes with.
 */
module Trees {
  import opened Wrappers

  /** The node kinds the matcher tells apart. */
  datatype NodeType = Unsupported | Element | Text | Comment | Document | DocumentType | DocumentFragment

  /** An attribute: its qualified name as written, its namespace, its local name and its value. */
  datatype Attr = Attr(qualifiedName: string, namespace: Option<string>, localName: string, value: string)

  /** A node with its kind, namespace and local name (elements only), attributes and ordered children. */
  datatype Node = Node(nodeType: NodeType, namespace: Option<string>, localName: string, attrs: seq<Attr>, children: seq<Node>)

  type Path = seq<nat>

  /** `p` leads from the top of `t` to a node. */
  predicate IsNode(t: Node, p: Path)
    decreases |p|
  {
    p == [] || (p[0] < |t.children| && IsNode(t.children[p[0]], p[1..]))
  }

  /** The node `p` leads to. */
  function At(t: Node, p: Path): Node
    requires IsNode(t, p)
    decreases |p|
  {
    if p == [] then t else At(t.children[p[0]], p[1..])
  }

  /** A path can be followed in two legs. */
  lemma {:induction false} Extend(t: Node, p: Path, q: Path)
    ensures IsNode(t, p + q) <==> IsNode(t, p) && IsNode(At(t, p), q)
    ensures IsNode(t, p + q) ==> At(t, p + q) == At(At(t, p), q)
    decreases |p|
  {
    if p == [] {
      assert p + q == q;
    } else {
      assert (p + q)[0] == p[0] && (p + q)[1..] == p[1..] + q;
      if p[0] < |t.children| {
        Extend(t.children[p[0]], p[1..], q);
      }
    }
  }

  /** The i-th child of a node is the node at the path extended by i. */
  lemma ChildStep(t: Node, p: Path, i: nat)
    requires IsNode(t, p) && i < |At(t, p).children|
    ensures IsNode(t, p + [i]) && At(t, p + [i]) == At(t, p).children[i]
  {
    Extend(t, p, [i]);
    assert [i][1..] == [];
  }

  /** Every node but the top one is a child of the node at its path minus the last index. */
  lemma ParentStep(t: Node, p: Path)
    requires IsNode(t, p) && p != []
    ensures IsNode(t, p[..|p| - 1]) && p[|p| - 1] < |At(t, p[..|p| - 1]).children|
    ensures At(t, p) == At(t, p[..|p| - 1]).children[p[|p| - 1]]
  {
    var pp, i := p[..|p| - 1], p[|p| - 1];
    assert p == pp + [i];
    Extend(t, pp, [i]);
    assert [i][1..] == [];
  }

  /** `q` lies strictly inside the subtree of `p`. */
  predicate IsBelow(p: Path, q: Path)
  {
    |q| > |p| && q[..|p|] == p
  }

  /** `getParentNode`: the top node has none. */
  function Parent(p: Path): (r: Option<Path>)
    ensures r.None? <==> p == []
    ensures r.Some? ==> IsBelow(r.value, p) && |r.value| == |p| - 1
  {
    if p == [] then None else Some(p[..|p| - 1])
  }

  predicate IsElement(t: Node, p: Path)
    requires IsNode(t, p)
  {
    At(t, p).nodeType == Element
  }

  /** The namespace a node reports: only elements have one. */
  function NamespaceOf(t: Node, p: Path): Option<string>
    requires IsNode(t, p)
  {
    if IsElement(t, p) then At(t, p).namespace else None
  }

  /**
   * The ancestors from the parent up to the top node, nearest first, as the
   * `$parent` walk of `loopAncestors` visits them.
   */
  function StrictAncestors(p: Path): (r: seq<Path>)
    ensures forall q :: q in r <==> IsBelow(q, p)
    ensures forall i :: 0 <= i < |r| ==> |r[i]| == |p| - 1 - i
    decreases |p|
  {
    if p == [] then []
    else
      var pp := p[..|p| - 1];
      assert forall q :: IsBelow(q, p) && q != pp ==> IsBelow(q, pp) by {
        forall q | IsBelow(q, p) && q != pp ensures IsBelow(q, pp) {
          assert q == p[..|q|];
          assert pp[..|q|] == p[..|q|];
        }
      }
      [pp] + StrictAncestors(pp)
  }

  /** Ancestors of a node are nodes. */
  lemma {:induction false} AncestorsAreNodes(t: Node, p: Path, q: Path)
    requires IsNode(t, p) && IsBelow(q, p)
    ensures IsNode(t, q)
  {
    assert p == q + p[|q|..];
    Extend(t, q, p[|q|..]);
  }

  /** The element children among cs from index i on, as paths below base, in order. */
  function ElementChildrenFrom(cs: seq<Node>, base: Path, i: nat): seq<Path>
    decreases |cs| - i
  {
    if i >= |cs| then []
    else (if cs[i].nodeType == Element then [base + [i]] else []) + ElementChildrenFrom(cs, base, i + 1)
  }

  /** The forward walk from i holds exactly the element children at index i or later, in increasing order. */
  lemma ElementChildrenFromFacts(cs: seq<Node>, base: Path, i: nat)
    ensures forall q :: q in ElementChildrenFrom(cs, base, i) <==>
      (|q| == |base| + 1 && q[..|base|] == base && i <= q[|base|] < |cs| && cs[q[|base|]].nodeType == Element)
    ensures forall j :: 0 <= j < |ElementChildrenFrom(cs, base, i)| ==>
      |ElementChildrenFrom(cs, base, i)[j]| == |base| + 1 && ElementChildrenFrom(cs, base, i)[j][|base|] >= i
    ensures forall j, k :: 0 <= j < k < |ElementChildrenFrom(cs, base, i)| ==>
      ElementChildrenFrom(cs, base, i)[j][|base|] < ElementChildrenFrom(cs, base, i)[k][|base|]
  {
    ElementChildrenFromMembers(cs, base, i);
    ElementChildrenFromOrder(cs, base, i);
  }

  /** The forward walk from i holds exactly the element children at index i or later. */
  lemma {:induction false} ElementChildrenFromMembers(cs: seq<Node>, base: Path, i: nat)
    ensures forall q :: q in ElementChildrenFrom(cs, base, i) <==>
      (|q| == |base| + 1 && q[..|base|] == base && i <= q[|base|] < |cs| && cs[q[|base|]].nodeType == Element)
    decreases |cs| - i
  {
    if i < |cs| {
      ElementChildrenFromMembers(cs, base, i + 1);
      var b := base + [i];
      assert b[..|base|] == base && b[|base|] == i;
      assert forall q :: |q| == |base| + 1 && q[..|base|] == base && q[|base|] == i ==> q == b;
    }
  }

  /** The forward walk from i lists children at index i or later, each one further on than the last. */
  lemma {:induction false} ElementChildrenFromOrder(cs: seq<Node>, base: Path, i: nat)
    ensures forall j :: 0 <= j < |ElementChildrenFrom(cs, base, i)| ==>
      |ElementChildrenFrom(cs, base, i)[j]| == |base| + 1 && ElementChildrenFrom(cs, base, i)[j][|base|] >= i
    ensures forall j, k :: 0 <= j < k < |ElementChildrenFrom(cs, base, i)| ==>
      ElementChildrenFrom(cs, base, i)[j][|base|] < ElementChildrenFrom(cs, base, i)[k][|base|]
    decreases |cs| - i
  {
    if i < |cs| {
      ElementChildrenFromOrder(cs, base, i + 1);
    }
  }

  /** `loopChildren`: the element children in document order. */
  function ElementChildren(t: Node, p: Path): (r: seq<Path>)
    requires IsNode(t, p)
    ensures forall q :: q in r <==> IsNode(t, q) && Parent(q) == Some(p) && IsElement(t, q)
    ensures forall j :: 0 <= j < |r| ==> |r[j]| == |p| + 1
    ensures forall j, k :: 0 <= j < k < |r| ==> r[j][|p|] < r[k][|p|]
  {
    var r := ElementChildrenFrom(At(t, p).children, p, 0);
    ElementChildrenFromFacts(At(t, p).children, p, 0);
    forall q | q in r || (IsNode(t, q) && Parent(q) == Some(p) && IsElement(t, q))
      ensures IsNode(t, q) && |q| == |p| + 1 && q == p + [q[|p|]] && q[|p|] < |At(t, p).children|
      ensures At(t, q) == At(t, p).children[q[|p|]]
    {
      if q in r {
        assert q == q[..|p|] + [q[|p|]];
        ChildStep(t, p, q[|p|]);
      } else {
        assert q == q[..|q| - 1] + [q[|q| - 1]];
        ParentStep(t, q);
      }
    }
    r
  }

  /**
   * The subtree below `base` in document (pre-)order: each child from index
   * i on, followed by its own subtree.
   */
  function Forest(cs: seq<Node>, base: Path, i: nat): seq<Path>
    decreases cs, |cs| - i
  {
    if i >= |cs| then [] else [base + [i]] + Forest(cs[i].children, base + [i], 0) + Forest(cs, base, i + 1)
  }

  /** What the forest holds: paths from base through a child at index i or later. */
  lemma {:induction false} ForestSound(cs: seq<Node>, base: Path, i: nat, x: Path)
    requires x in Forest(cs, base, i)
    ensures |x| > |base| && x[..|base|] == base && i <= x[|base|] < |cs| && IsNode(cs[x[|base|]], x[|base| + 1..])
    decreases cs, |cs| - i
  {
    var b := base + [i];
    if x == b {
      assert x[|base| + 1..] == [];
    } else if x in Forest(cs[i].children, b, 0) {
      ForestSound(cs[i].children, b, 0, x);
      assert x[..|base|] == x[..|b|][..|base|];
      assert x[|base| + 1..] == [x[|b|]] + x[|b| + 1..];
    } else {
      ForestSound(cs, base, i + 1, x);
    }
  }

  /** Every path through a child at index i or later is in the forest. */
  lemma {:induction false} ForestComplete(cs: seq<Node>, base: Path, i: nat, j: nat, s: Path)
    requires i <= j < |cs| && IsNode(cs[j], s)
    ensures base + [j] + s in Forest(cs, base, i)
    decreases |s|, j - i
  {
    if j > i {
      ForestComplete(cs, base, i + 1, j, s);
    } else if s != [] {
      ForestComplete(cs[i].children, base + [i], 0, s[0], s[1..]);
      assert base + [j] + s == base + [i] + [s[0]] + s[1..];
    } else {
      assert base + [j] + s == base + [i];
    }
  }

  /** `loopDescendants` without the node itself: every node below p, in document order. */
  function Descendants(t: Node, p: Path): (r: seq<Path>)
    requires IsNode(t, p)
    ensures forall q :: q in r ==> IsBelow(p, q)
  {
    ForestBelow(At(t, p).children, p, 0);
    Forest(At(t, p).children, p, 0)
  }

  /** Every path of a forest lies below its base. */
  lemma ForestBelow(cs: seq<Node>, base: Path, i: nat)
    ensures forall x :: x in Forest(cs, base, i) ==> IsBelow(base, x)
  {
    forall x | x in Forest(cs, base, i)
      ensures IsBelow(base, x)
    {
      ForestSound(cs, base, i, x);
    }
  }

  /** The descendants are exactly the nodes strictly below p. */
  lemma DescendantsMeaning(t: Node, p: Path, q: Path)
    requires IsNode(t, p)
    ensures q in Descendants(t, p) <==> IsNode(t, q) && IsBelow(p, q)
  {
    var cs := At(t, p).children;
    if q in Descendants(t, p) {
      ForestSound(cs, p, 0, q);
      var s := q[|p|..];
      assert q == p + s;
      Extend(t, p, s);
    }
    if IsNode(t, q) && IsBelow(p, q) {
      var s := q[|p|..];
      assert q == p + s;
      Extend(t, p, s);
      assert s == [s[0]] + s[1..];
      assert q == p + [s[0]] + s[1..];
      ForestComplete(cs, p, 0, s[0], s[1..]);
    }
  }

  /** The element children among cs before index i, as paths below base, nearest first. */
  function PrevElementSiblingsFrom(cs: seq<Node>, base: Path, i: nat): seq<Path>
    requires i <= |cs|
  {
    if i == 0 then []
    else (if cs[i - 1].nodeType == Element then [base + [i - 1]] else []) + PrevElementSiblingsFrom(cs, base, i - 1)
  }

  /** The backward walk from i holds exactly the element children before index i, in decreasing order. */
  lemma PrevElementSiblingsFromFacts(cs: seq<Node>, base: Path, i: nat)
    requires i <= |cs|
    ensures forall q :: q in PrevElementSiblingsFrom(cs, base, i) <==>
      (|q| == |base| + 1 && q[..|base|] == base && q[|base|] < i && cs[q[|base|]].nodeType == Element)
    ensures forall j :: 0 <= j < |PrevElementSiblingsFrom(cs, base, i)| ==>
      |PrevElementSiblingsFrom(cs, base, i)[j]| == |base| + 1 && PrevElementSiblingsFrom(cs, base, i)[j][|base|] < i
    ensures forall j, k :: 0 <= j < k < |PrevElementSiblingsFrom(cs, base, i)| ==>
      PrevElementSiblingsFrom(cs, base, i)[j][|base|] > PrevElementSiblingsFrom(cs, base, i)[k][|base|]
  {
    PrevElementSiblingsFromMembers(cs, base, i);
    PrevElementSiblingsFromOrder(cs, base, i);
  }

  /** The backward walk from i holds exactly the element children before index i. */
  lemma {:induction false} PrevElementSiblingsFromMembers(cs: seq<Node>, base: Path, i: nat)
    requires i <= |cs|
    ensures forall q :: q in PrevElementSiblingsFrom(cs, base, i) <==>
      (|q| == |base| + 1 && q[..|base|] == base && q[|base|] < i && cs[q[|base|]].nodeType == Element)
  {
    if i > 0 {
      PrevElementSiblingsFromMembers(cs, base, i - 1);
      var b := base + [i - 1];
      assert b[..|base|] == base && b[|base|] == i - 1;
      assert forall q :: |q| == |base| + 1 && q[..|base|] == base && q[|base|] == i - 1 ==> q == b;
    }
  }

  /** The backward walk from i lists children before index i, each one further back than the last. */
  lemma {:induction false} PrevElementSiblingsFromOrder(cs: seq<Node>, base: Path, i: nat)
    requires i <= |cs|
    ensures forall j :: 0 <= j < |PrevElementSiblingsFrom(cs, base, i)| ==>
      |PrevElementSiblingsFrom(cs, base, i)[j]| == |base| + 1 && PrevElementSiblingsFrom(cs, base, i)[j][|base|] < i
    ensures forall j, k :: 0 <= j < k < |PrevElementSiblingsFrom(cs, base, i)| ==>
      PrevElementSiblingsFrom(cs, base, i)[j][|base|] > PrevElementSiblingsFrom(cs, base, i)[k][|base|]
  {
    if i > 0 {
      PrevElementSiblingsFromOrder(cs, base, i - 1);
    }
  }

  /** The element children among cs after index i, as paths below base, in order. */
  function NextElementSiblingsFrom(cs: seq<Node>, base: Path, i: nat): seq<Path>
    decreases |cs| - i
  {
    if i + 1 >= |cs| then []
    else (if cs[i + 1].nodeType == Element then [base + [i + 1]] else []) + NextElementSiblingsFrom(cs, base, i + 1)
  }

  /** The forward walk after i holds exactly the element children after index i, in increasing order. */
  lemma NextElementSiblingsFromFacts(cs: seq<Node>, base: Path, i: nat)
    ensures forall q :: q in NextElementSiblingsFrom(cs, base, i) <==>
      (|q| == |base| + 1 && q[..|base|] == base && i < q[|base|] < |cs| && cs[q[|base|]].nodeType == Element)
    ensures forall j :: 0 <= j < |NextElementSiblingsFrom(cs, base, i)| ==>
      |NextElementSiblingsFrom(cs, base, i)[j]| == |base| + 1 && NextElementSiblingsFrom(cs, base, i)[j][|base|] > i
    ensures forall j, k :: 0 <= j < k < |NextElementSiblingsFrom(cs, base, i)| ==>
      NextElementSiblingsFrom(cs, base, i)[j][|base|] < NextElementSiblingsFrom(cs, base, i)[k][|base|]
  {
    NextElementSiblingsFromMembers(cs, base, i);
    NextElementSiblingsFromOrder(cs, base, i);
  }

  /** The forward walk after i holds exactly the element children after index i. */
  lemma {:induction false} NextElementSiblingsFromMembers(cs: seq<Node>, base: Path, i: nat)
    ensures forall q :: q in NextElementSiblingsFrom(cs, base, i) <==>
      (|q| == |base| + 1 && q[..|base|] == base && i < q[|base|] < |cs| && cs[q[|base|]].nodeType == Element)
    decreases |cs| - i
  {
    if i + 1 < |cs| {
      NextElementSiblingsFromMembers(cs, base, i + 1);
      var b := base + [i + 1];
      assert b[..|base|] == base && b[|base|] == i + 1;
      assert forall q :: |q| == |base| + 1 && q[..|base|] == base && q[|base|] == i + 1 ==> q == b;
    }
  }

  /** The forward walk after i lists children after index i, each one further on than the last. */
  lemma {:induction false} NextElementSiblingsFromOrder(cs: seq<Node>, base: Path, i: nat)
    ensures forall j :: 0 <= j < |NextElementSiblingsFrom(cs, base, i)| ==>
      |NextElementSiblingsFrom(cs, base, i)[j]| == |base| + 1 && NextElementSiblingsFrom(cs, base, i)[j][|base|] > i
    ensures forall j, k :: 0 <= j < k < |NextElementSiblingsFrom(cs, base, i)| ==>
      NextElementSiblingsFrom(cs, base, i)[j][|base|] < NextElementSiblingsFrom(cs, base, i)[k][|base|]
    decreases |cs| - i
  {
    if i + 1 < |cs| {
      NextElementSiblingsFromOrder(cs, base, i + 1);
    }
  }

  /** Nodes sharing a parent, with the position of each among its parent's children. */
  predicate IsSibling(p: Path, q: Path)
  {
    p != [] && |q| == |p| && q[..|p| - 1] == p[..|p| - 1]
  }

  /** The element siblings before p, nearest first (the `previousElementSibling` walk). */
  function PrevElementSiblings(t: Node, p: Path): (r: seq<Path>)
    requires IsNode(t, p)
    ensures forall q :: q in r <==> IsNode(t, q) && IsSibling(p, q) && q[|q| - 1] < p[|p| - 1] && IsElement(t, q)
    ensures r != [] ==> p != []
    ensures forall j :: 0 <= j < |r| ==> |r[j]| == |p|
    ensures forall j, k :: 0 <= j < k < |r| ==> r[j][|p| - 1] > r[k][|p| - 1]
  {
    if p == [] then []
    else
      var pp := p[..|p| - 1];
      ParentStep(t, p);
      var r := PrevElementSiblingsFrom(At(t, pp).children, pp, p[|p| - 1]);
      PrevElementSiblingsFromFacts(At(t, pp).children, pp, p[|p| - 1]);
      SiblingSteps(t, p);
      r
  }

  /** The element siblings after p, nearest first (the `nextElementSibling` walk). */
  function NextElementSiblings(t: Node, p: Path): (r: seq<Path>)
    requires IsNode(t, p)
    ensures forall q :: q in r <==> IsNode(t, q) && IsSibling(p, q) && q[|q| - 1] > p[|p| - 1] && IsElement(t, q)
    ensures r != [] ==> p != []
    ensures forall j :: 0 <= j < |r| ==> |r[j]| == |p|
    ensures forall j, k :: 0 <= j < k < |r| ==> r[j][|p| - 1] < r[k][|p| - 1]
  {
    if p == [] then []
    else
      var pp := p[..|p| - 1];
      ParentStep(t, p);
      var r := NextElementSiblingsFrom(At(t, pp).children, pp, p[|p| - 1]);
      NextElementSiblingsFromFacts(At(t, pp).children, pp, p[|p| - 1]);
      SiblingSteps(t, p);
      r
  }

  /** A sibling path is the parent path extended by the sibling's index. */
  lemma SiblingSteps(t: Node, p: Path)
    requires IsNode(t, p) && p != []
    ensures IsNode(t, p[..|p| - 1])
    ensures forall q :: IsSibling(p, q) ==> q == p[..|p| - 1] + [q[|q| - 1]]
    ensures forall q :: IsSibling(p, q) && q[|q| - 1] < |At(t, p[..|p| - 1]).children| ==>
      IsNode(t, q) && At(t, q) == At(t, p[..|p| - 1]).children[q[|q| - 1]]
    ensures forall q :: IsSibling(p, q) && IsNode(t, q) ==> q[|q| - 1] < |At(t, p[..|p| - 1]).children|
  {
    var pp := p[..|p| - 1];
    ParentStep(t, p);
    forall q | IsSibling(p, q)
      ensures q == pp + [q[|q| - 1]]
      ensures q[|q| - 1] < |At(t, pp).children| ==> IsNode(t, q) && At(t, q) == At(t, pp).children[q[|q| - 1]]
      ensures IsNode(t, q) ==> q[|q| - 1] < |At(t, pp).children|
    {
      assert q == q[..|q| - 1] + [q[|q| - 1]];
      if q[|q| - 1] < |At(t, pp).children| {
        ChildStep(t, pp, q[|q| - 1]);
      }
      if IsNode(t, q) {
        ParentStep(t, q);
      }
    }
  }

  /** The elements of s that pass keep, in their order (`array_filter` and the `continue` guards). */
  function Filter<T(!new)>(s: seq<T>, keep: T -> bool): (r: seq<T>)
    ensures forall x :: x in r <==> x in s && keep(x)
    ensures |r| <= |s|
  {
    if s == [] then [] else (if keep(s[0]) then [s[0]] else []) + Filter(s[1..], keep)
  }

  /** One step of a filtering loop: with the element at i kept or dropped, the rest still owes the same. */
  lemma {:induction false} FilterStep<T(!new)>(s: seq<T>, i: nat, keep: T -> bool, acc: seq<T>)
    requires i < |s| && acc + Filter(s[i..], keep) == Filter(s, keep)
    ensures keep(s[i]) ==> (acc + [s[i]]) + Filter(s[i + 1..], keep) == Filter(s, keep)
    ensures !keep(s[i]) ==> acc + Filter(s[i + 1..], keep) == Filter(s, keep)
  {
    var u := s[i..];
    assert u[0] == s[i] && u[1..] == s[i + 1..];
    var rest := Filter(s[i + 1..], keep);
    assert Filter(u, keep) == (if keep(s[i]) then [s[i]] else []) + rest;
    if keep(s[i]) {
      assert (acc + [s[i]]) + rest == acc + ([s[i]] + rest);
    }
  }

  /** Filtering nothing keeps nothing. */
  lemma FilterEnd<T(!new)>(s: seq<T>, keep: T -> bool)
    ensures Filter(s[|s|..], keep) == []
  {
    assert s[|s|..] == [];
  }

  /** `array_search` with strict comparison: the first index holding x. */
  function IndexOf<T(==)>(s: seq<T>, x: T): (r: Option<nat>)
    ensures r.None? <==> x !in s
    ensures r.Some? ==> r.value < |s| && s[r.value] == x && forall j :: 0 <= j < r.value ==> s[j] != x
  {
    if s == [] then None
    else if s[0] == x then Some(0)
    else match IndexOf(s[1..], x) case None => None case Some(i) => Some(i + 1)
  }

  /** Searching past a different first element shifts the index by one. */
  lemma IndexOfCons<T>(x: T, s: seq<T>, y: T)
    requires x != y && y in s
    ensures IndexOf([x] + s, y) == Some(IndexOf(s, y).value + 1)
  {
    assert ([x] + s)[1..] == s;
  }

  /** The index of the first element of s that passes keep (the early `return` of a search loop). */
  function FirstIndex<T>(s: seq<T>, keep: T -> bool): (r: Option<nat>)
    ensures r.None? <==> forall j :: 0 <= j < |s| ==> !keep(s[j])
    ensures r.Some? ==> r.value < |s| && keep(s[r.value]) && forall j :: 0 <= j < r.value ==> !keep(s[j])
  {
    if s == [] then None
    else if keep(s[0]) then Some(0)
    else match FirstIndex(s[1..], keep) case None => None case Some(i) => Some(i + 1)
  }

  /** One step of the forward walk over the children. */
  lemma {:induction false} ElementChildrenFromStep(cs: seq<Node>, base: Path, j: nat)
    requires j < |cs|
    ensures ElementChildrenFrom(cs, base, j)
      == (if cs[j].nodeType == Element then [base + [j]] else []) + ElementChildrenFrom(cs, base, j + 1)
  {
  }

  /** The number of elements among cs[j..i]. */
  function ElementCount(cs: seq<Node>, j: nat, i: nat): nat
    requires i <= |cs|
    decreases i
  {
    if i <= j then 0 else ElementCount(cs, j, i - 1) + (if cs[i - 1].nodeType == Element then 1 else 0)
  }

  /** The count over cs[j..i] splits at any k in between. */
  lemma {:induction false} ElementCountSplit(cs: seq<Node>, j: nat, k: nat, i: nat)
    requires j <= k <= i <= |cs|
    ensures ElementCount(cs, j, i) == ElementCount(cs, j, k) + ElementCount(cs, k, i)
    decreases i
  {
    if k < i {
      ElementCountSplit(cs, j, k, i - 1);
    }
  }

  /** The backward walk from i finds the elements of cs[..i]. */
  lemma {:induction false} PrevElementSiblingsFromCount(cs: seq<Node>, base: Path, i: nat)
    requires i <= |cs|
    ensures |PrevElementSiblingsFrom(cs, base, i)| == ElementCount(cs, 0, i)
  {
    if i > 0 {
      PrevElementSiblingsFromCount(cs, base, i - 1);
    }
  }

  /** The forward walk from j finds the elements of cs[j..]. */
  lemma {:induction false} ElementChildrenFromCount(cs: seq<Node>, base: Path, j: nat)
    requires j <= |cs|
    ensures |ElementChildrenFrom(cs, base, j)| == ElementCount(cs, j, |cs|)
    decreases |cs| - j
  {
    if j < |cs| {
      ElementChildrenFromCount(cs, base, j + 1);
      ElementCountSplit(cs, j, j + 1, |cs|);
    }
  }

  /** Walking forward from j, the element at index i comes after the elements of cs[j..i]. */
  lemma {:induction false} ElementChildrenFromIndex(cs: seq<Node>, base: Path, j: nat, i: nat)
    requires j <= i < |cs| && cs[i].nodeType == Element
    ensures IndexOf(ElementChildrenFrom(cs, base, j), base + [i]) == Some(ElementCount(cs, j, i))
    decreases i - j
  {
    if j < i {
      ElementChildrenFromIndex(cs, base, j + 1, i);
      ElementChildrenFromIndexStep(cs, base, j, i);
    } else {
      ElementChildrenFromStep(cs, base, i);
    }
  }

  /** The inductive step of ElementChildrenFromIndex: one more child in front. */
  lemma {:induction false} ElementChildrenFromIndexStep(cs: seq<Node>, base: Path, j: nat, i: nat)
    requires j < i < |cs|
    requires IndexOf(ElementChildrenFrom(cs, base, j + 1), base + [i]) == Some(ElementCount(cs, j + 1, i))
    ensures IndexOf(ElementChildrenFrom(cs, base, j), base + [i]) == Some(ElementCount(cs, j, i))
  {
    var b := base + [i];
    ElementCountSplit(cs, j, j + 1, i);
    assert ElementCount(cs, j, j + 1) == if cs[j].nodeType == Element then 1 else 0;
    if cs[j].nodeType == Element {
      var x := base + [j];
      assert x[|base|] != b[|base|];
      IndexOfCons(x, ElementChildrenFrom(cs, base, j + 1), b);
      assert ElementChildrenFrom(cs, base, j) == [x] + ElementChildrenFrom(cs, base, j + 1);
    } else {
      assert ElementChildrenFrom(cs, base, j) == ElementChildrenFrom(cs, base, j + 1);
    }
  }

  /** The element children after index i are the element children from index i + 1 on. */
  lemma {:induction false} NextElementSiblingsCount(cs: seq<Node>, base: Path, i: nat)
    ensures |NextElementSiblingsFrom(cs, base, i)| == |ElementChildrenFrom(cs, base, i + 1)|
    decreases |cs| - i
  {
    if i + 1 < |cs| {
      NextElementSiblingsCount(cs, base, i + 1);
    }
  }

  /** The element at index i of cs, counted against the walks before and after it. */
  lemma ElementChildrenFromPosition(cs: seq<Node>, base: Path, i: nat)
    requires i < |cs| && cs[i].nodeType == Element
    ensures IndexOf(ElementChildrenFrom(cs, base, 0), base + [i]) == Some(|PrevElementSiblingsFrom(cs, base, i)|)
    ensures |ElementChildrenFrom(cs, base, 0)| == |PrevElementSiblingsFrom(cs, base, i)| + 1 + |NextElementSiblingsFrom(cs, base, i)|
  {
    ElementChildrenFromIndex(cs, base, 0, i);
    PrevElementSiblingsFromCount(cs, base, i);
    ElementChildrenFromCount(cs, base, 0);
    ElementChildrenFromCount(cs, base, i + 1);
    NextElementSiblingsCount(cs, base, i);
    ElementCountSplit(cs, 0, i, |cs|);
    ElementCountSplit(cs, i, i + 1, |cs|);
  }

  /**
   * The position of an element among its parent's element children is the
   * number of element siblings before it, and the children number those
   * before, itself and those after.
   */
  lemma ElementChildPosition(t: Node, p: Path)
    requires IsNode(t, p) && p != [] && IsElement(t, p)
    ensures IsNode(t, p[..|p| - 1])
    ensures IndexOf(ElementChildren(t, p[..|p| - 1]), p) == Some(|PrevElementSiblings(t, p)|)
    ensures |ElementChildren(t, p[..|p| - 1])| == |PrevElementSiblings(t, p)| + 1 + |NextElementSiblings(t, p)|
  {
    var pp := p[..|p| - 1];
    var i := p[|p| - 1];
    SiblingSteps(t, p);
    var cs := At(t, pp).children;
    assert p == pp + [i];
    assert IsSibling(p, p);
    assert cs[i] == At(t, p);
    assert ElementChildren(t, pp) == ElementChildrenFrom(cs, pp, 0);
    assert PrevElementSiblings(t, p) == PrevElementSiblingsFrom(cs, pp, i);
    assert NextElementSiblings(t, p) == NextElementSiblingsFrom(cs, pp, i);
    ElementChildrenFromPosition(cs, pp, i);
  }
}
