/**
 * The string tests of the attribute and class selectors: the whitespace
 * split, prefix, suffix and substring tests, the hyphen test, and the seven
 * attribute matchers with their case modifier.
 */
module AttrValues {
  import opened Wrappers
  import opened Chars
  import opened Selectors

  predicate NoSpace(s: string)
  {
    forall i :: 0 <= i < |s| ==> !IsSpace(s[i])
  }

  /** The end of the run of non-space characters from i on. */
  function WordEnd(s: string, i: nat): (r: nat)
    requires i <= |s|
    ensures i <= r <= |s| && NoSpace(s[i..r]) && (r == |s| || IsSpace(s[r]))
    decreases |s| - i
  {
    if i == |s| || IsSpace(s[i]) then i
    else
      var r := WordEnd(s, i + 1);
      assert s[i..r] == [s[i]] + s[i + 1..r];
      r
  }

  /** `preg_split('/\s/', s, -1, PREG_SPLIT_NO_EMPTY)`: the maximal runs of non-space characters, in order. */
  function Words(s: string): (r: seq<string>)
    ensures forall w :: w in r ==> w != [] && NoSpace(w)
    decreases |s|
  {
    if s == [] then []
    else if IsSpace(s[0]) then Words(s[1..])
    else
      var n := WordEnd(s, 0);
      assert s[..n] == s[0..n];
      [s[..n]] + Words(s[n..])
  }

  /** A string without spaces is a single word, or none when empty. */
  lemma WordsOfWord(s: string)
    requires NoSpace(s)
    ensures Words(s) == if s == [] then [] else [s]
  {
    if s != [] {
      assert !IsSpace(s[0]);
      var n := WordEnd(s, 0);
      assert n == |s|;
      assert s[..n] == s && s[n..] == [];
    }
  }

  /** Spaces in front do not change the words. */
  lemma {:induction false} WordsSkipSpaces(sp: string, s: string)
    requires forall i :: 0 <= i < |sp| ==> IsSpace(sp[i])
    ensures Words(sp + s) == Words(s)
    decreases |sp|
  {
    if sp != [] {
      assert (sp + s)[0] == sp[0] && IsSpace(sp[0]);
      assert (sp + s)[1..] == sp[1..] + s;
      WordsSkipSpaces(sp[1..], s);
    } else {
      assert sp + s == s;
    }
  }

  /** A word followed by a space and more text: the word, then the words of the rest. */
  lemma WordsCons(w: string, s: string)
    requires w != [] && NoSpace(w)
    ensures Words(w + " " + s) == [w] + Words(s)
  {
    var t := w + " " + s;
    var n := WordEnd(t, 0);
    assert t[|w|] == ' ';
    assert forall i :: 0 <= i < |w| ==> t[i] == w[i];
    assert !IsSpace(t[0]);
    assert n == |w|;
    assert t[..n] == w;
    assert t[n..] == " " + s;
    WordsSkipSpaces(" ", s);
  }

  predicate StartsWith(s: string, p: string)
  {
    |p| <= |s| && s[..|p|] == p
  }

  predicate EndsWith(s: string, p: string)
  {
    |p| <= |s| && s[|s| - |p|..] == p
  }

  /** p occurs in s at position i. */
  predicate OccursAt(s: string, p: string, i: nat)
  {
    i + |p| <= |s| && s[i..i + |p|] == p
  }

  predicate Contains(s: string, p: string)
  {
    exists i: nat :: i <= |s| && OccursAt(s, p, i)
  }

  /**
   * The hyphen test `/^expected(-|$)/`: the value starts with expected and
   * then ends, goes on with '-', or ends with a single line feed (where the
   * `$` of a regular expression also matches).
   */
  predicate HyphenMatches(actual: string, expected: string)
    ensures HyphenMatches(actual, expected) <==>
      actual == expected || actual == expected + "\n" || StartsWith(actual, expected + "-")
  {
    StartsWith(actual, expected)
      && (|actual| == |expected| || actual[|expected|] == '-' || (actual[|expected|] == '\n' && |actual| == |expected| + 1))
  }

  /**
   * The matchers that compare values, on the values after case folding:
   * Includes needs a non-empty, space-free expected word among the value's
   * words; Prefix, Suffix and Substring need a non-empty expected value.
   */
  predicate ValueMatches(m: AttrMatcher, actual: string, expected: string)
    ensures ValueMatches(m, actual, expected) && m != Exists && m != Includes ==> |expected| <= |actual|
    ensures ValueMatches(m, actual, expected) && expected == [] ==> m == Exists || m == Exact || m == Hyphen
  {
    match m
    case Exists => true
    case Exact => expected == actual
    case Includes => expected != [] && NoSpace(expected) && expected in Words(actual)
    case Hyphen => HyphenMatches(actual, expected)
    case Prefix => expected != [] && StartsWith(actual, expected)
    case Suffix => expected != [] && EndsWith(actual, expected)
    case Substring => expected != [] && Contains(actual, expected)
  }

  /** The attribute selector on a present value: the modifier 'i' lowercases both sides, the default is case-sensitive. */
  predicate AttrValueMatches(m: AttrMatcher, actual: string, expected: string, caseSensitive: Option<bool>)
    ensures caseSensitive == Some(true) ==> (AttrValueMatches(m, actual, expected, caseSensitive) <==> ValueMatches(m, actual, expected))
    ensures Lower(actual) == actual && Lower(expected) == expected ==>
      (AttrValueMatches(m, actual, expected, caseSensitive) <==> ValueMatches(m, actual, expected))
  {
    if caseSensitive == Some(false) then ValueMatches(m, Lower(actual), Lower(expected))
    else ValueMatches(m, actual, expected)
  }

  /** With the 'i' modifier, values that agree up to ASCII case are treated alike. */
  lemma CaseInsensitiveIgnoresCase(m: AttrMatcher, a1: string, a2: string, e1: string, e2: string)
    requires Lower(a1) == Lower(a2) && Lower(e1) == Lower(e2)
    ensures AttrValueMatches(m, a1, e1, Some(false)) == AttrValueMatches(m, a2, e2, Some(false))
  {
  }

  /** The hyphen test holds for the value itself and for the value followed by '-' and anything. */
  lemma HyphenMeaning(actual: string, expected: string)
    ensures HyphenMatches(actual, expected) <==>
      actual == expected || actual == expected + "\n" || StartsWith(actual, expected + "-")
  {
    if StartsWith(actual, expected) {
      if |actual| > |expected| {
        assert actual == actual[..|expected|] + actual[|expected|..];
        assert actual[|expected|..][0] == actual[|expected|];
        if |actual| == |expected| + 1 {
          assert actual[|expected|..] == [actual[|expected|]];
        }
        assert actual[..|expected| + 1] == actual[..|expected|] + [actual[|expected|]];
      } else {
        assert actual == actual[..|expected|];
      }
    }
    if StartsWith(actual, expected + "-") {
      assert actual[..|expected|] == (expected + "-")[..|expected|];
      assert actual[|expected|] == (expected + "-")[|expected|];
    }
    if actual == expected + "\n" {
      assert actual[..|expected|] == expected;
    }
  }

  /** Includes: an expected value that is empty or holds a space never matches. */
  lemma IncludesNeedsAWord(actual: string, expected: string)
    requires expected == [] || !NoSpace(expected)
    ensures !ValueMatches(Includes, actual, expected)
  {
  }

  /** Includes accepts each whitespace-separated word of the value. */
  lemma IncludesFindsWords(w: string, rest: string)
    requires w != [] && NoSpace(w)
    ensures ValueMatches(Includes, w + " " + rest, w)
    ensures ValueMatches(Includes, w, w)
  {
    WordsCons(w, rest);
    WordsOfWord(w);
  }

  /** An exact match passes the prefix, suffix and substring tests, unless the value is empty. */
  lemma ExactImpliesOthers(v: string)
    requires v != []
    ensures ValueMatches(Prefix, v, v) && ValueMatches(Suffix, v, v) && ValueMatches(Substring, v, v)
    ensures ValueMatches(Hyphen, v, v) && ValueMatches(Exact, v, v)
  {
    assert v[0..|v|] == v;
    assert 0 <= |v| && OccursAt(v, v, 0);
  }

  /** Prefix, suffix and substring never match an empty expected value. */
  lemma EmptyExpectedFails(actual: string)
    ensures !ValueMatches(Prefix, actual, "") && !ValueMatches(Suffix, actual, "") && !ValueMatches(Substring, actual, "")
  {
  }

  /** A prefix or a suffix also occurs as a substring. */
  lemma AffixesAreSubstrings(actual: string, expected: string)
    ensures ValueMatches(Prefix, actual, expected) ==> ValueMatches(Substring, actual, expected)
    ensures ValueMatches(Suffix, actual, expected) ==> ValueMatches(Substring, actual, expected)
  {
    if ValueMatches(Prefix, actual, expected) {
      assert actual[0..|expected|] == expected;
      assert OccursAt(actual, expected, 0);
    }
    if ValueMatches(Suffix, actual, expected) {
      var i := |actual| - |expected|;
      assert actual[i..i + |expected|] == expected;
      assert OccursAt(actual, expected, i);
    }
  }
}
