/**
 * The two directions of a combinator agree: a complex selector looks from
 * the node its right unit matched back to the left candidates, a relative
 * selector looks from its anchor forward to the right candidates, and
 * between elements each finds exactly the nodes the other is found from.
 */
module CombinatorLaws {
  import opened Wrappers
  import opened Trees
  import opened Selectors
  import opened MatchContexts

  /** Being siblings is symmetric and transitive. */
  lemma SiblingLaws(p: Path, q: Path, r: Path)
    ensures IsSibling(p, q) ==> IsSibling(q, p)
    ensures IsSibling(p, q) && IsSibling(q, r) ==> IsSibling(p, r)
  {
  }

  /** A sibling at the same index is the node itself. */
  lemma SiblingAtSameIndex(p: Path, q: Path)
    requires IsSibling(p, q) && q[|q| - 1] == p[|p| - 1]
    ensures q == p
  {
    assert p == p[..|p| - 1] + [p[|p| - 1]];
    assert q == q[..|q| - 1] + [q[|q| - 1]];
  }

  /**
   * The next-sibling combinator in both directions: q is the nearest
   * element sibling before p exactly when p is the nearest element sibling
   * after q.
   */
  lemma NextSiblingDuality(ctx: Context, p: Path, q: Path)
    requires IsNode(ctx.tree, p) && IsNode(ctx.tree, q) && IsElement(ctx.tree, p) && IsElement(ctx.tree, q)
    ensures q in LeftCandidates(ctx, p, NextSibling).value <==> p in RightCandidates(ctx, q, NextSibling).value
  {
    if q in LeftCandidates(ctx, p, NextSibling).value {
      NextSiblingForward(ctx, p, q);
    }
    if p in RightCandidates(ctx, q, NextSibling).value {
      NextSiblingBackward(ctx, p, q);
    }
  }

  /** The nearest element sibling q before p has p as its nearest element sibling after it. */
  lemma NextSiblingForward(ctx: Context, p: Path, q: Path)
    requires IsNode(ctx.tree, p) && IsNode(ctx.tree, q) && IsElement(ctx.tree, p) && IsElement(ctx.tree, q)
    requires q in LeftCandidates(ctx, p, NextSibling).value
    ensures p in RightCandidates(ctx, q, NextSibling).value
  {
    var t := ctx.tree;
    var left := LeftCandidates(ctx, p, NextSibling).value;
    var right := RightCandidates(ctx, q, NextSibling).value;
    assert left == [q];
    SiblingLaws(p, q, p);
    assert p in NextElementSiblings(t, q);
    var r := right[0];
    assert r[|r| - 1] <= p[|p| - 1];
    SiblingLaws(p, q, r);
    SiblingLaws(q, p, r);
    SiblingAtSameIndex(p, r);
  }

  /** The nearest element sibling p after q has q as its nearest element sibling before it. */
  lemma NextSiblingBackward(ctx: Context, p: Path, q: Path)
    requires IsNode(ctx.tree, p) && IsNode(ctx.tree, q) && IsElement(ctx.tree, p) && IsElement(ctx.tree, q)
    requires p in RightCandidates(ctx, q, NextSibling).value
    ensures q in LeftCandidates(ctx, p, NextSibling).value
  {
    var t := ctx.tree;
    var left := LeftCandidates(ctx, p, NextSibling).value;
    var right := RightCandidates(ctx, q, NextSibling).value;
    assert right == [p];
    SiblingLaws(q, p, q);
    assert q in PrevElementSiblings(t, p);
    var r := left[0];
    assert q[|q| - 1] <= r[|r| - 1];
    SiblingLaws(q, p, r);
    SiblingLaws(p, q, r);
    SiblingAtSameIndex(q, r);
  }

  /**
   * For every combinator but the column, an element q is a left candidate
   * of the element p exactly when p is a right candidate of q.
   */
  lemma CandidatesAreDual(ctx: Context, p: Path, q: Path, c: Combinator)
    requires IsNode(ctx.tree, p) && IsNode(ctx.tree, q) && IsElement(ctx.tree, p) && IsElement(ctx.tree, q)
    requires c != Column
    ensures q in LeftCandidates(ctx, p, c).value <==> p in RightCandidates(ctx, q, c).value
  {
    match c
    case NextSibling => NextSiblingDuality(ctx, p, q);
    case SubsequentSibling => SiblingLaws(p, q, p);
    case Child =>
    case Descendant =>
  }

  /** The column combinator fails in both directions. */
  lemma ColumnFailsBothWays(ctx: Context, p: Path)
    requires IsNode(ctx.tree, p)
    ensures LeftCandidates(ctx, p, Column) == Failure(ColumnUnsupported)
    ensures RightCandidates(ctx, p, Column) == Failure(ColumnUnsupported)
  {
  }
}
