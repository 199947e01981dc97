/**
 * What the matching loops and combinators mean: the short-circuit loops of
 * the logical selectors, the forgiving list, the candidate loops of complex
 * and relative selectors, and the tree relations the combinators stand for.
 */
module MatchingLaws {
  import opened Wrappers
  import opened Trees
  import opened Selectors
  import opened MatchContexts
  import opened Matching

  /** AND answers true exactly when every member matches. */
  lemma {:induction false} AllTrue(ctx: Context, p: Path, sels: seq<Selector>)
    requires IsNode(ctx.tree, p) && AllWellFormed(sels)
    ensures MatchAll(ctx, p, sels) == Success(true) <==> forall i :: 0 <= i < |sels| ==> Matches(ctx, p, sels[i]) == Success(true)
    decreases sels
  {
    if sels != [] {
      AllTrue(ctx, p, sels[1..]);
      assert forall i :: 1 <= i < |sels| ==> sels[1..][i - 1] == sels[i];
    }
  }

  /** The member at index i is the first that gives `stop`; every member before it gives the opposite. */
  predicate FirstWith(ctx: Context, p: Path, sels: seq<Selector>, i: int, stop: bool)
    requires IsNode(ctx.tree, p) && AllWellFormed(sels)
  {
    0 <= i < |sels| && Matches(ctx, p, sels[i]) == Success(stop)
      && forall j :: 0 <= j < i ==> Matches(ctx, p, sels[j]) == Success(!stop)
  }

  /** Being first past the head is being first in the tail. */
  lemma FirstWithStep(ctx: Context, p: Path, sels: seq<Selector>, i: int, stop: bool)
    requires IsNode(ctx.tree, p) && AllWellFormed(sels) && sels != [] && i >= 1
    ensures FirstWith(ctx, p, sels, i, stop) <==> Matches(ctx, p, sels[0]) == Success(!stop) && FirstWith(ctx, p, sels[1..], i - 1, stop)
  {
    assert forall j :: 1 <= j < |sels| ==> sels[1..][j - 1] == sels[j];
    if Matches(ctx, p, sels[0]) == Success(!stop) && FirstWith(ctx, p, sels[1..], i - 1, stop) {
      forall j | 0 <= j < i ensures Matches(ctx, p, sels[j]) == Success(!stop) {
        if j > 0 {
          assert Matches(ctx, p, sels[1..][j - 1]) == Success(!stop);
        }
      }
    }
  }

  /** AND answers false exactly when a member does not match and every member before it does. */
  lemma {:induction false} AllFalse(ctx: Context, p: Path, sels: seq<Selector>)
    requires IsNode(ctx.tree, p) && AllWellFormed(sels)
    ensures MatchAll(ctx, p, sels) == Success(false) <==> exists i :: FirstWith(ctx, p, sels, i, false)
    decreases sels
  {
    if sels != [] {
      AllFalse(ctx, p, sels[1..]);
      if MatchAll(ctx, p, sels) == Success(false) {
        if Matches(ctx, p, sels[0]) == Success(false) {
          assert FirstWith(ctx, p, sels, 0, false);
        } else {
          var i :| FirstWith(ctx, p, sels[1..], i, false);
          FirstWithStep(ctx, p, sels, i + 1, false);
        }
      }
      if exists i :: FirstWith(ctx, p, sels, i, false) {
        var i :| FirstWith(ctx, p, sels, i, false);
        if i > 0 {
          FirstWithStep(ctx, p, sels, i, false);
        }
      }
    }
  }

  /** OR answers false exactly when no member matches. */
  lemma {:induction false} AnyFalse(ctx: Context, p: Path, sels: seq<Selector>)
    requires IsNode(ctx.tree, p) && AllWellFormed(sels)
    ensures MatchAny(ctx, p, sels) == Success(false) <==> forall i :: 0 <= i < |sels| ==> Matches(ctx, p, sels[i]) == Success(false)
    decreases sels
  {
    if sels != [] {
      AnyFalse(ctx, p, sels[1..]);
      assert forall i :: 1 <= i < |sels| ==> sels[1..][i - 1] == sels[i];
    }
  }

  /** OR answers true exactly when a member matches and every member before it does not. */
  lemma {:induction false} AnyTrue(ctx: Context, p: Path, sels: seq<Selector>)
    requires IsNode(ctx.tree, p) && AllWellFormed(sels)
    ensures MatchAny(ctx, p, sels) == Success(true) <==> exists i :: FirstWith(ctx, p, sels, i, true)
    decreases sels
  {
    if sels != [] {
      AnyTrue(ctx, p, sels[1..]);
      if MatchAny(ctx, p, sels) == Success(true) {
        if Matches(ctx, p, sels[0]) == Success(true) {
          assert FirstWith(ctx, p, sels, 0, true);
        } else {
          var i :| FirstWith(ctx, p, sels[1..], i, true);
          FirstWithStep(ctx, p, sels, i + 1, true);
        }
      }
      if exists i :: FirstWith(ctx, p, sels, i, true) {
        var i :| FirstWith(ctx, p, sels, i, true);
        if i > 0 {
          FirstWithStep(ctx, p, sels, i, true);
        }
      }
    }
  }

  /** The forgiving list matches exactly when some member matches; members that fail are skipped. */
  lemma {:induction false} ForgivingMeaning(ctx: Context, p: Path, sels: seq<Selector>)
    requires IsNode(ctx.tree, p) && AllWellFormed(sels)
    ensures MatchForgiving(ctx, p, sels) <==> exists i :: 0 <= i < |sels| && Matches(ctx, p, sels[i]) == Success(true)
    decreases sels
  {
    if sels != [] {
      ForgivingMeaning(ctx, p, sels[1..]);
      assert forall i :: 1 <= i < |sels| ==> sels[1..][i - 1] == sels[i];
      if exists i :: 0 <= i < |sels| && Matches(ctx, p, sels[i]) == Success(true) {
        var i :| 0 <= i < |sels| && Matches(ctx, p, sels[i]) == Success(true);
        if i > 0 {
          assert Matches(ctx, p, sels[1..][i - 1]) == Success(true);
        }
      }
    }
  }

  /** The selector a complex selector's candidate loop tries: the first unit alone, or the complex selector without its last unit. */
  function Reduced(ctx: Context, q: Path, prefix: seq<Selector>, combinators: seq<Combinator>): Result<bool, MatchError>
    requires IsNode(ctx.tree, q) && |prefix| >= 1 && |prefix| == |combinators| + 1 && AllWellFormed(prefix)
  {
    if |prefix| == 1 then Matches(ctx, q, prefix[0]) else MatchComplex(ctx, q, prefix, combinators)
  }

  /**
   * A candidate loop over the outcomes f(i), ..., f(n - 1): the first
   * failure or the first true decides; false when there is neither.
   */
  function DecideFrom<E>(f: nat -> Result<bool, E>, i: nat, n: nat): Result<bool, E>
    decreases n - i
  {
    if i >= n then Success(false)
    else if f(i).Failure? then Failure(f(i).error)
    else if f(i).value then Success(true)
    else DecideFrom(f, i + 1, n)
  }

  /** The loop answers false exactly when every outcome is false. */
  lemma {:induction false} DecideFalse<E>(f: nat -> Result<bool, E>, i: nat, n: nat)
    ensures DecideFrom(f, i, n) == Success(false) <==> forall j :: i <= j < n ==> f(j) == Success(false)
    decreases n - i
  {
    if i < n {
      DecideFalse(f, i + 1, n);
    }
  }

  /** Without failures, the loop answers true exactly when some outcome is true. */
  lemma {:induction false} DecideTrue<E>(f: nat -> Result<bool, E>, i: nat, n: nat)
    requires forall j :: i <= j < n ==> f(j).Success?
    ensures DecideFrom(f, i, n) == Success(true) <==> exists j :: i <= j < n && f(j) == Success(true)
    decreases n - i
  {
    if i < n {
      DecideTrue(f, i + 1, n);
    }
  }

  /** The outcomes g(cands[0]), g(cands[1]), ... indexed by position; false past the end. */
  function AtIndex<E>(cands: seq<Path>, g: Path -> Result<bool, E>): nat -> Result<bool, E>
  {
    (j: nat) => if j < |cands| then g(cands[j]) else Success(false)
  }

  /** The loop over a candidate list answers false exactly when every candidate's outcome is false. */
  lemma DecideNone<E>(cands: seq<Path>, g: Path -> Result<bool, E>)
    ensures DecideFrom(AtIndex(cands, g), 0, |cands|) == Success(false) <==> forall q :: q in cands ==> g(q) == Success(false)
  {
    var f := AtIndex(cands, g);
    DecideFalse(f, 0, |cands|);
    if forall q :: q in cands ==> g(q) == Success(false) {
      forall j | 0 <= j < |cands| ensures f(j) == Success(false) {
        assert cands[j] in cands;
      }
    }
    if forall j :: 0 <= j < |cands| ==> f(j) == Success(false) {
      forall q | q in cands ensures g(q) == Success(false) {
        var j :| 0 <= j < |cands| && cands[j] == q;
        assert f(j) == g(q);
      }
    }
  }

  /** Without failures, the loop over a candidate list answers true exactly when some candidate's outcome is true. */
  lemma DecideSome<E>(cands: seq<Path>, g: Path -> Result<bool, E>)
    requires forall q :: q in cands ==> g(q).Success?
    ensures DecideFrom(AtIndex(cands, g), 0, |cands|) == Success(true) <==> exists q :: q in cands && g(q) == Success(true)
  {
    var f := AtIndex(cands, g);
    forall j | 0 <= j < |cands| ensures f(j).Success? {
      assert cands[j] in cands;
    }
    DecideTrue(f, 0, |cands|);
    if exists q :: q in cands && g(q) == Success(true) {
      var q :| q in cands && g(q) == Success(true);
      var j :| 0 <= j < |cands| && cands[j] == q;
      assert f(j) == Success(true);
    }
    if exists j :: 0 <= j < |cands| && f(j) == Success(true) {
      var j :| 0 <= j < |cands| && f(j) == Success(true);
      assert cands[j] in cands && g(cands[j]) == Success(true);
    }
  }

  /** The reduced selector's outcome at a candidate; false where it is not defined. */
  function ReducedOf(ctx: Context, prefix: seq<Selector>, combinators: seq<Combinator>): Path -> Result<bool, MatchError>
  {
    q => if IsNode(ctx.tree, q) && |prefix| >= 1 && |prefix| == |combinators| + 1 && AllWellFormed(prefix)
         then Reduced(ctx, q, prefix, combinators) else Success(false)
  }

  /** The complex candidate loop is the generic loop over the reduced selector's outcomes. */
  lemma {:induction false} AnyLeftDecides(ctx: Context, cands: seq<Path>, prefix: seq<Selector>, combinators: seq<Combinator>, i: nat)
    requires forall q :: q in cands ==> IsNode(ctx.tree, q)
    requires |prefix| >= 1 && |prefix| == |combinators| + 1 && AllWellFormed(prefix)
    ensures AnyLeft(ctx, cands, prefix, combinators, i) == DecideFrom(AtIndex(cands, ReducedOf(ctx, prefix, combinators)), i, |cands|)
    decreases |cands| - i
  {
    if i < |cands| {
      AnyLeftDecides(ctx, cands, prefix, combinators, i + 1);
      assert AtIndex(cands, ReducedOf(ctx, prefix, combinators))(i) == Reduced(ctx, cands[i], prefix, combinators);
    }
  }

  /** The complex candidate loop answers false exactly when the reduced selector matches no candidate. */
  lemma AnyLeftFalse(ctx: Context, cands: seq<Path>, prefix: seq<Selector>, combinators: seq<Combinator>)
    requires forall q :: q in cands ==> IsNode(ctx.tree, q)
    requires |prefix| >= 1 && |prefix| == |combinators| + 1 && AllWellFormed(prefix)
    ensures AnyLeft(ctx, cands, prefix, combinators, 0) == Success(false) <==>
      forall q :: q in cands ==> Reduced(ctx, q, prefix, combinators) == Success(false)
  {
    var g := ReducedOf(ctx, prefix, combinators);
    AnyLeftDecides(ctx, cands, prefix, combinators, 0);
    DecideNone(cands, g);
    assert forall q :: q in cands ==> g(q) == Reduced(ctx, q, prefix, combinators);
  }

  /** When no candidate makes it fail, the complex candidate loop answers true exactly when some candidate matches the reduced selector. */
  lemma AnyLeftTrue(ctx: Context, cands: seq<Path>, prefix: seq<Selector>, combinators: seq<Combinator>)
    requires forall q :: q in cands ==> IsNode(ctx.tree, q)
    requires |prefix| >= 1 && |prefix| == |combinators| + 1 && AllWellFormed(prefix)
    requires forall q :: q in cands ==> Reduced(ctx, q, prefix, combinators).Success?
    ensures AnyLeft(ctx, cands, prefix, combinators, 0) == Success(true) <==>
      exists q :: q in cands && Reduced(ctx, q, prefix, combinators) == Success(true)
  {
    var g := ReducedOf(ctx, prefix, combinators);
    AnyLeftDecides(ctx, cands, prefix, combinators, 0);
    assert forall q :: q in cands ==> g(q) == Reduced(ctx, q, prefix, combinators);
    DecideSome(cands, g);
  }

  /** The outcome of inner at a candidate; false where it is not defined. */
  function MatchOf(ctx: Context, inner: Selector): Path -> Result<bool, MatchError>
  {
    q => if IsNode(ctx.tree, q) && WellFormed(inner) then Matches(ctx, q, inner) else Success(false)
  }

  /** The relative candidate loop is the generic loop over inner's outcomes. */
  lemma {:induction false} AnyMatchDecides(ctx: Context, cands: seq<Path>, inner: Selector, i: nat)
    requires forall q :: q in cands ==> IsNode(ctx.tree, q)
    requires WellFormed(inner)
    ensures AnyMatch(ctx, cands, inner, i) == DecideFrom(AtIndex(cands, MatchOf(ctx, inner)), i, |cands|)
    decreases |cands| - i
  {
    if i < |cands| {
      AnyMatchDecides(ctx, cands, inner, i + 1);
      assert AtIndex(cands, MatchOf(ctx, inner))(i) == Matches(ctx, cands[i], inner);
    }
  }

  /** The relative candidate loop answers false exactly when inner matches no candidate. */
  lemma AnyMatchNone(ctx: Context, cands: seq<Path>, inner: Selector)
    requires forall q :: q in cands ==> IsNode(ctx.tree, q)
    requires WellFormed(inner)
    ensures AnyMatch(ctx, cands, inner, 0) == Success(false) <==> forall q :: q in cands ==> Matches(ctx, q, inner) == Success(false)
  {
    var g := MatchOf(ctx, inner);
    AnyMatchDecides(ctx, cands, inner, 0);
    DecideNone(cands, g);
    assert forall q :: q in cands ==> g(q) == Matches(ctx, q, inner);
  }

  /** When inner fails at no candidate, the relative candidate loop answers true exactly when inner matches one. */
  lemma AnyMatchSome(ctx: Context, cands: seq<Path>, inner: Selector)
    requires forall q :: q in cands ==> IsNode(ctx.tree, q)
    requires WellFormed(inner)
    requires forall q :: q in cands ==> Matches(ctx, q, inner).Success?
    ensures AnyMatch(ctx, cands, inner, 0) == Success(true) <==> exists q :: q in cands && Matches(ctx, q, inner) == Success(true)
  {
    var g := MatchOf(ctx, inner);
    AnyMatchDecides(ctx, cands, inner, 0);
    assert forall q :: q in cands ==> g(q) == Matches(ctx, q, inner);
    DecideSome(cands, g);
  }

  /** The candidate loop of a two-unit complex selector answers false exactly when the first unit matches no candidate. */
  lemma AnyLeftNone(ctx: Context, cands: seq<Path>, a: Selector)
    requires forall q :: q in cands ==> IsNode(ctx.tree, q)
    requires WellFormed(a)
    ensures AnyLeft(ctx, cands, [a], [], 0) == Success(false) <==> forall q :: q in cands ==> Matches(ctx, q, a) == Success(false)
  {
    AnyLeftFalse(ctx, cands, [a], []);
    assert forall q :: q in cands ==> Reduced(ctx, q, [a], []) == Matches(ctx, q, a);
  }

  /** When the first unit fails at no candidate, the loop of a two-unit complex selector answers true exactly when it matches one. */
  lemma AnyLeftSome(ctx: Context, cands: seq<Path>, a: Selector)
    requires forall q :: q in cands ==> IsNode(ctx.tree, q)
    requires WellFormed(a)
    requires forall q :: q in cands ==> Matches(ctx, q, a).Success?
    ensures AnyLeft(ctx, cands, [a], [], 0) == Success(true) <==> exists q :: q in cands && Matches(ctx, q, a) == Success(true)
  {
    assert forall q :: q in cands ==> Reduced(ctx, q, [a], []) == Matches(ctx, q, a);
    AnyLeftTrue(ctx, cands, [a], []);
  }

  /** A complex selector of two units: b must match p, then a must match a left candidate of the combinator. */
  lemma TwoUnits(ctx: Context, p: Path, a: Selector, b: Selector, c: Combinator)
    requires IsNode(ctx.tree, p) && WellFormed(a) && WellFormed(b)
    ensures WellFormed(Complex([a, b], [c]))
    ensures Matches(ctx, p, Complex([a, b], [c])) ==
      match Matches(ctx, p, b)
      case Failure(e) => Failure(e)
      case Success(last) =>
        if !last then Success(false)
        else match LeftCandidates(ctx, p, c)
          case Failure(e) => Failure(e)
          case Success(cands) => AnyLeft(ctx, cands, [a], [], 0)
  {
    assert [a, b][..1] == [a] && [c][..0] == [];
  }

  /** The candidate loop over a single candidate answers what the first unit answers there. */
  lemma AnyLeftSingle(ctx: Context, q: Path, a: Selector)
    requires IsNode(ctx.tree, q) && WellFormed(a)
    ensures AnyLeft(ctx, [q], [a], [], 0) == Matches(ctx, q, a)
  {
    var r := Matches(ctx, q, a);
    assert AnyLeft(ctx, [q], [a], [], 0) ==
      if r.Failure? then Failure(r.error) else if r.value then Success(true) else AnyLeft(ctx, [q], [a], [], 1);
  }

  /** `a > b` matches p exactly when b matches p and a matches its parent, an element or a document fragment. */
  lemma ChildCombinator(ctx: Context, p: Path, a: Selector, b: Selector)
    requires IsNode(ctx.tree, p) && WellFormed(a) && WellFormed(b)
    ensures WellFormed(Complex([a, b], [Child]))
    ensures Matches(ctx, p, Complex([a, b], [Child])) == Success(true) <==>
      (Matches(ctx, p, b) == Success(true) && p != [] && IsElementOrFragment(ctx.tree, p[..|p| - 1])
        && Matches(ctx, p[..|p| - 1], a) == Success(true))
  {
    TwoUnits(ctx, p, a, b, Child);
    var cands := LeftCandidates(ctx, p, Child).value;
    if p != [] && IsElementOrFragment(ctx.tree, p[..|p| - 1]) {
      assert cands == [p[..|p| - 1]];
      AnyLeftSingle(ctx, p[..|p| - 1], a);
    } else {
      assert cands == [];
    }
  }

  /**
   * `a b` does not match p exactly when b does not match p, or b matches and
   * a matches none of the element and fragment ancestors of p.
   */
  lemma DescendantCombinatorFalse(ctx: Context, p: Path, a: Selector, b: Selector)
    requires IsNode(ctx.tree, p) && WellFormed(a) && WellFormed(b)
    ensures WellFormed(Complex([a, b], [Descendant]))
    ensures Matches(ctx, p, Complex([a, b], [Descendant])) == Success(false) <==>
      (Matches(ctx, p, b) == Success(false)
        || (Matches(ctx, p, b) == Success(true)
          && forall q :: IsBelow(q, p) && IsElementOrFragment(ctx.tree, q) ==> Matches(ctx, q, a) == Success(false)))
  {    TwoUnits(ctx, p, a, b, Descendant);
    AnyLeftNone(ctx, LeftCandidates(ctx, p, Descendant).value, a);
  }

  /** When a fails at no ancestor, `a b` matches p exactly when b matches p and a matches an element or fragment ancestor. */
  lemma DescendantCombinatorTrue(ctx: Context, p: Path, a: Selector, b: Selector)
    requires IsNode(ctx.tree, p) && WellFormed(a) && WellFormed(b)
    requires forall q :: IsBelow(q, p) && IsElementOrFragment(ctx.tree, q) ==> Matches(ctx, q, a).Success?
    ensures WellFormed(Complex([a, b], [Descendant]))
    ensures Matches(ctx, p, Complex([a, b], [Descendant])) == Success(true) <==>
      (Matches(ctx, p, b) == Success(true)
        && exists q :: IsBelow(q, p) && IsElementOrFragment(ctx.tree, q) && Matches(ctx, q, a) == Success(true))
  {    TwoUnits(ctx, p, a, b, Descendant);
    AnyLeftSome(ctx, LeftCandidates(ctx, p, Descendant).value, a);
  }

  /** `:has()`, `:is()` and `:where()` answer what their argument answers; `:not()` negates it and passes failures on. */
  lemma Delegates(ctx: Context, p: Path, s: Selector, name: string)
    requires IsNode(ctx.tree, p) && WellFormed(s)
    ensures Matches(ctx, p, Has(s)) == Matches(ctx, p, s) && Matches(ctx, p, IsWhere(name, s)) == Matches(ctx, p, s)
    ensures Matches(ctx, p, Not(s)) == if Matches(ctx, p, s).Failure? then Matches(ctx, p, s) else Success(!Matches(ctx, p, s).value)
  {
  }

  /** A relative selector runs the candidate loop over the right candidates of its combinator. */
  lemma RelativeLoop(ctx: Context, p: Path, c: Combinator, s: Selector)
    requires IsNode(ctx.tree, p) && WellFormed(s)
    ensures RightCandidates(ctx, p, c).Failure? ==> Matches(ctx, p, Relative(c, s)) == Failure(ColumnUnsupported)
    ensures RightCandidates(ctx, p, c).Success? ==>
      Matches(ctx, p, Relative(c, s)) == AnyMatch(ctx, RightCandidates(ctx, p, c).value, s, 0)
  {
  }

  /** `:has(> s)` does not match p exactly when s matches none of the element children of p. */
  lemma HasChildFalse(ctx: Context, p: Path, s: Selector)
    requires IsNode(ctx.tree, p) && WellFormed(s)
    ensures Matches(ctx, p, Has(Relative(Child, s))) == Success(false) <==>
      forall q :: IsNode(ctx.tree, q) && Parent(q) == Some(p) && IsElement(ctx.tree, q) ==> Matches(ctx, q, s) == Success(false)
  {    Delegates(ctx, p, Relative(Child, s), "");
    RelativeLoop(ctx, p, Child, s);
    AnyMatchNone(ctx, RightCandidates(ctx, p, Child).value, s);
  }

  /** When s fails at no descendant, `:has(s)` matches p exactly when s matches an element below p. */
  lemma HasDescendantTrue(ctx: Context, p: Path, s: Selector)
    requires IsNode(ctx.tree, p) && WellFormed(s)
    requires forall q :: IsNode(ctx.tree, q) && IsBelow(p, q) ==> Matches(ctx, q, s).Success?
    ensures Matches(ctx, p, Has(Relative(Descendant, s))) == Success(true) <==>
      exists q :: IsNode(ctx.tree, q) && IsBelow(p, q) && IsElement(ctx.tree, q) && Matches(ctx, q, s) == Success(true)
  {    Delegates(ctx, p, Relative(Descendant, s), "");
    RelativeLoop(ctx, p, Descendant, s);
    AnyMatchSome(ctx, RightCandidates(ctx, p, Descendant).value, s);
  }
}
