/**
 * The selector serialisers: how each selector class prints its children,
 * the trimming of relative selectors, and the renderings of plain names.
 */
module SelectorPrinting {
  import opened Wrappers
  import opened Chars
  import Tokens
  import opened Selectors
  import QualifiedNames
  import AnbNotations
  import TokenLaws

  /** A name of lower-case ASCII letters. */
  predicate IsPlain(n: string)
  {
    n != [] && forall i :: 0 <= i < |n| ==> 'a' <= n[i] <= 'z'
  }

  /** A class or id of lower-case letters prints after its sigil unescaped. */
  lemma PlainNames(n: string)
    requires IsPlain(n)
    ensures ToString(Class(n)) == "." + n
    ensures ToString(Id(n)) == "#" + n
  {
    QualifiedNames.PlainIdent(n);
  }

  /**
   * A relative selector prints its combinator before the inner selector, and
   * trims leading white space: with the descendant combinator only the inner
   * selector is left.
   */
  lemma RelativePrinting(c: Combinator, inner: Selector)
    requires ToString(inner) != [] && !IsTrimmed(ToString(inner)[0])
    ensures c == Descendant ==> ToString(Relative(c, inner)) == ToString(inner)
    ensures c != Descendant ==> ToString(Relative(c, inner)) == CombinatorText(c) + ToString(inner)
  {
    RelativeText(c, inner, ToString(inner));
  }

  /** The rendering of a relative selector, for the rendering `text` of its inner selector. */
  lemma RelativeText(c: Combinator, inner: Selector, text: string)
    requires text == ToString(inner) && text != [] && !IsTrimmed(text[0])
    ensures c == Descendant ==> ToString(Relative(c, inner)) == text
    ensures c != Descendant ==> ToString(Relative(c, inner)) == CombinatorText(c) + text
  {
    assert ToString(Relative(c, inner)) == LeftTrim(CombinatorText(c) + text);
    TrimCombinator(c, text);
  }

  /** Trimming a combinator's text before a text that starts with no white space removes only the descendant's space. */
  lemma TrimCombinator(c: Combinator, t: string)
    requires t != [] && !IsTrimmed(t[0])
    ensures c == Descendant ==> LeftTrim(CombinatorText(c) + t) == t
    ensures c != Descendant ==> LeftTrim(CombinatorText(c) + t) == CombinatorText(c) + t
  {
    if c == Descendant {
      TrimOneSpace(t);
    } else {
      var s := CombinatorText(c) + t;
      assert s[0] == CombinatorText(c)[0] && !IsTrimmed(s[0]);
      TrimUntrimmed(s);
    }
  }

  /** A text that starts with no white space is its own trim. */
  lemma TrimUntrimmed(s: string)
    requires s != [] && !IsTrimmed(s[0])
    ensures LeftTrim(s) == s
  {
  }

  /** Trimming one space before a text that starts with no white space leaves the text. */
  lemma TrimOneSpace(t: string)
    requires t != [] && !IsTrimmed(t[0])
    ensures LeftTrim(" " + t) == t
  {
    var s := " " + t;
    assert s[0] == ' ' && s[1..] == t;
    TrimUntrimmed(t);
  }

  /** The rendering `>.a` of a relative class selector with the child combinator. */
  lemma ChildRelativeRendering(a: string)
    requires IsPlain(a)
    ensures ToString(Relative(Child, Class(a))) == ">." + a
  {
    PlainNames(a);
    RelativePrinting(Child, Class(a));
  }

  /** The rendering `.a` of a relative class selector with the descendant combinator. */
  lemma DescendantRelativeRendering(a: string)
    requires IsPlain(a)
    ensures ToString(Relative(Descendant, Class(a))) == "." + a
  {
    PlainNames(a);
    RelativePrinting(Descendant, Class(a));
  }

  /** Two selectors joined by AND print with nothing between them. */
  lemma AndRendering(a: string, b: string)
    requires IsPlain(a) && IsPlain(b)
    ensures ToString(Logical(true, [Class(a), Class(b)])) == "." + a + "." + b
  {
    PlainNames(a);
    PlainNames(b);
    JoinTwo(Class(a), Class(b), "");
  }

  /** Two selectors joined by OR, or in a forgiving list, print with a comma between them. */
  lemma OrRendering(a: string, b: string)
    requires IsPlain(a) && IsPlain(b)
    ensures ToString(Logical(false, [Class(a), Class(b)])) == "." + a + ",." + b
    ensures ToString(Forgiving([Class(a), Class(b)])) == "." + a + ",." + b
  {
    PlainNames(a);
    PlainNames(b);
    JoinTwo(Class(a), Class(b), ",");
  }

  /** `:where()` prints its forgiving list in parentheses. */
  lemma WhereRendering(a: string, b: string)
    requires IsPlain(a) && IsPlain(b)
    ensures ToString(IsWhere("where", Forgiving([Class(a), Class(b)]))) == ":where(." + a + ",." + b + ")"
  {
    OrRendering(a, b);
  }

  /** An AND or OR list prints any two members in order, with nothing (AND) or a comma between them. */
  lemma LogicalListRendering(x: Selector, y: Selector, isAnd: bool)
    ensures ToString(Logical(isAnd, [x, y])) == ToString(x) + (if isAnd then "" else ",") + ToString(y)
  {
    JoinTwo(x, y, if isAnd then "" else ",");
  }

  /** A forgiving list prints any two members with a comma between them. */
  lemma ForgivingListRendering(x: Selector, y: Selector)
    ensures ToString(Forgiving([x, y])) == ToString(x) + "," + ToString(y)
  {
    JoinTwo(x, y, ",");
  }

  /** `:is()` or `:where()` around a forgiving list of any two members wraps their comma-separated text. */
  lemma IsWhereListRendering(x: Selector, y: Selector, name: string)
    ensures ToString(IsWhere(name, Forgiving([x, y]))) == ":" + name + "(" + ToString(x) + "," + ToString(y) + ")"
  {
    ForgivingListRendering(x, y);
    Wrapped(":" + name + "(", ToString(x), ",", ToString(y), ")");
  }

  /** Concatenation regrouped: a prefix, three middle pieces and a suffix. */
  lemma Wrapped(pre: string, a: string, sep: string, b: string, post: string)
    ensures pre + (a + sep + b) + post == pre + a + sep + b + post
  {
  }

  /** Two printed selectors with the separator between them. */
  lemma JoinTwo(x: Selector, y: Selector, sep: string)
    ensures Join([x, y], sep) == ToString(x) + sep + ToString(y)
  {
    assert [x, y][1..] == [y];
  }

  /** `:not()` and `:has()` print their inner selector in parentheses. */
  lemma FunctionalRenderings(a: string)
    requires IsPlain(a)
    ensures ToString(Not(Class(a))) == ":not(." + a + ")"
    ensures ToString(Has(Relative(Descendant, Class(a)))) == ":has(." + a + ")"
  {
    PlainNames(a);
    RelativePrinting(Descendant, Class(a));
  }

  /**
   * A complex selector interleaves the texts of its combinators between its
   * units, as in `.one>.two||.three .four+.five~.six`.
   */
  lemma ComplexRendering(u: seq<Selector>)
    requires |u| == 6
    ensures ToString(Complex(u, [Child, Column, Descendant, NextSibling, SubsequentSibling]))
      == ToString(u[0]) + (">" + ToString(u[1]) + ("||" + ToString(u[2]) + (" " + ToString(u[3])
        + ("+" + ToString(u[4]) + ("~" + ToString(u[5]))))))
  {
    var c1 := [Child, Column, Descendant, NextSibling, SubsequentSibling];
    var u1, u2, u3, u4, u5 := u[1..], u[2..], u[3..], u[4..], u[5..];
    var c2, c3, c4, c5 := c1[1..], c1[2..], c1[3..], c1[4..];
    assert u1[1..] == u2 && u2[1..] == u3 && u3[1..] == u4 && u4[1..] == u5 && u5[1..] == [];
    assert c1[1..] == c2 && c2[1..] == c3 && c3[1..] == c4 && c4[1..] == c5 && c5[1..] == [];
    var t5 := ChainStep(u5, c5);
    var t4 := ChainStep(u4, c4);
    var t3 := ChainStep(u3, c3);
    var t2 := ChainStep(u2, c2);
    var t1 := ChainStep(u1, c1);
  }

  /** One unit of the chain: the text of its combinator, then the unit, then the rest. */
  lemma ChainStep(u: seq<Selector>, cs: seq<Combinator>) returns (t: string)
    requires u != [] && cs != []
    ensures t == ToString(u[0]) && Chain(u, cs) == CombinatorText(cs[0]) + t + Chain(u[1..], cs[1..])
  {
    t := ToString(u[0]);
  }

  /** An attribute selector without a matcher prints only its name, whatever value and modifier it holds. */
  lemma ExistsPrintsName(w: QualifiedNames.WqName, v: string, v': string, cs: Option<bool>, cs': Option<bool>)
    ensures ToString(Attribute(w, Exists, v, cs)) == "[" + QualifiedNames.ToString(w) + "]"
    ensures ToString(Attribute(w, Exists, v, cs)) == ToString(Attribute(w, Exists, v', cs'))
  {
  }

  /**
   * An attribute selector with a matcher prints the matcher, the value in
   * double quotes and ' s' or ' i' for an explicit case modifier.
   */
  lemma MatcherPrinting(w: QualifiedNames.WqName, m: AttrMatcher, v: string, cs: Option<bool>)
    requires m != Exists
    requires forall i :: 0 <= i < |v| ==> !Tokens.NeedsEscape(Tokens.StringChars, v[i])
    ensures ToString(Attribute(w, m, v, cs)) == "[" + QualifiedNames.ToString(w) + MatcherText(m) + "\"" + v + "\""
      + (if cs == Some(true) then " s" else if cs == Some(false) then " i" else "") + "]"
  {
    PlainValueText(v, cs);
  }

  /** A value with no character to escape is printed as it is, in double quotes. */
  lemma PlainValueText(v: string, cs: Option<bool>)
    requires forall i :: 0 <= i < |v| ==> !Tokens.NeedsEscape(Tokens.StringChars, v[i])
    ensures ValueText(v, cs) == "\"" + v + "\"" + (if cs == Some(true) then " s" else if cs == Some(false) then " i" else "")
  {
    TokenLaws.EscapePlain(v, Tokens.StringChars);
  }

  /** Renderings such as `[lang="en"]`: a plain name, the matcher and the quoted value. */
  lemma PlainAttributeRendering(n: string, v: string)
    requires IsPlain(n) && IsPlain(v)
    ensures ToString(Attribute(QualifiedNames.WqName(false, None, n), Exact, v, None)) == "[" + n + "=\"" + v + "\"]"
  {
    QualifiedNames.PlainIdent(n);
    MatcherPrinting(QualifiedNames.WqName(false, None, n), Exact, v, None);
  }

  /** Renderings such as `[test|data|="abc" s]`: the prefix, a '|', the local name, the matcher, the value and the modifier. */
  lemma QualifiedAttributeRendering(p: string, n: string, v: string)
    requires IsPlain(p) && IsPlain(n) && IsPlain(v)
    ensures ToString(Attribute(QualifiedNames.WqName(true, Some(p), n), Hyphen, v, Some(true))) == "[" + p + "|" + n + "|=\"" + v + "\" s]"
  {
    var w := QualifiedNames.WqName(true, Some(p), n);
    assert QualifiedNames.ToString(w) == p + "|" + n by {
      QualifiedNames.PlainIdent(p);
      QualifiedNames.PlainIdent(n);
      assert p[0] != '*' && n[0] != '*';
      QualifiedNames.QualifiedRendering(p, n);
    }
    AttributeShape(w, Hyphen, v, Some(true));
    assert ValueText(v, Some(true)) == "\"" + v + "\" s" by {
      TokenLaws.EscapePlain(v, Tokens.StringChars);
    }
    QualifiedAttributeText(p, n, v);
  }

  /** An attribute selector with a matcher prints its name, the matcher and the value text in brackets. */
  lemma AttributeShape(w: QualifiedNames.WqName, m: AttrMatcher, v: string, cs: Option<bool>)
    requires m != Exists
    ensures ToString(Attribute(w, m, v, cs)) == "[" + QualifiedNames.ToString(w) + (MatcherText(m) + ValueText(v, cs) + "]")
  {
  }

  /** The pieces of `[p|n|="v" s]` put together. */
  lemma QualifiedAttributeText(p: string, n: string, v: string)
    ensures "[" + (p + "|" + n) + (MatcherText(Hyphen) + ("\"" + v + "\" s") + "]") == "[" + p + "|" + n + "|=\"" + v + "\" s]"
  {
  }

  /** A pseudo-element prints as '::' and its name, whatever its arguments. */
  lemma PseudoElementIgnoresArguments(name: string, f: bool, args: seq<Tokens.Token>, f': bool, args': seq<Tokens.Token>)
    ensures ToString(PseudoElement(name, f, args)) == "::" + name
    ensures ToString(PseudoElement(name, f, args)) == ToString(PseudoElement(name, f', args'))
    ensures ToString(LegacyPseudoElement(name)) == ":" + name
  {
  }

  /** The child-indexed pseudo-classes without An+B, such as `:first-child` and `:first-of-type`, print their name alone. */
  lemma ShorthandRenderings(name: string)
    ensures ToString(ChildIndexed(name, None, None)) == ":" + name
    ensures ToString(TypedChildIndexed(name, None)) == ":" + name
  {
  }

  /** With An+B the child-indexed pseudo-classes print it in parentheses. */
  lemma NthRenderings(anb: AnbNotations.AnbNotation)
    requires anb == AnbNotations.AnbNotation(2, 1, "")
    ensures ToString(ChildIndexed("nth-child", Some(anb), None)) == ":nth-child(2n+1)"
    ensures ToString(TypedChildIndexed("nth-of-type", Some(anb))) == ":nth-of-type(2n+1)"
  {
    AnbNotations.TwoNPlusOne(anb);
  }

  /** The `of` selector prints after the An+B, separated by " of ". */
  lemma NthOfRendering(anb: AnbNotations.AnbNotation, a: string)
    requires IsPlain(a)
    ensures ToString(ChildIndexed("nth-child", Some(anb), Some(Class(a)))) == ":nth-child(" + AnbNotations.ToString(anb) + " of ." + a + ")"
  {
    PlainNames(a);
  }

  /** An unknown functional pseudo-class prints its raw arguments in parentheses, as in `:next-gen("foo")`. */
  lemma UnknownFunctionRendering(n: string, v: string, offset: nat, length: nat)
    requires IsPlain(v)
    ensures ToString(UnknownPseudoClass(n, true, [Tokens.Token(Tokens.Str(v), offset, length)])) == ":" + n + "(\"" + v + "\")"
  {
    TokenLaws.EscapePlain(v, Tokens.StringChars);
  }

  /** A non-functional pseudo-class prints as ':' and its name, whatever arguments it holds. */
  lemma NonFunctionalPrintsName(n: string, args: seq<Tokens.Token>)
    ensures ToString(UnknownPseudoClass(n, false, args)) == ":" + n
    ensures ToString(Input(n)) == ":" + n
  {
  }
}
