/**
 * A possibly namespace-qualified name (`ns|name`, `*|name`, `|name` or
 * `name`) as the selector parser builds it for type and attribute
 * selectors.
 */
module QualifiedNames {
  import opened Wrappers
  import opened Chars
  import opened Tokens
  import TokenLaws

  /**
   * `prefixSpecified` says that a '|' was written; `prefix` is the text
   * before it (None for `|name`, "*" for any namespace).
   */
  datatype WqName = WqName(prefixSpecified: bool, prefix: Option<string>, localName: string)

  /** The constructor's assertions. */
  predicate WellFormed(w: WqName)
    ensures WellFormed(w) ==> LocalText(w) != []
  {
    (w.prefixSpecified || w.prefix.None?) && w.prefix != Some("") && w.localName != ""
  }

  /** The local name as printed: '*' stays literal, anything else is escaped as an ident. */
  function LocalText(w: WqName): string
  {
    if w.localName == "*" then "*" else EscapeIdent(w.localName)
  }

  /** The prefix as printed before the '|': '*' literal, nothing for no namespace, else escaped. */
  function PrefixText(prefix: Option<string>): string
  {
    match prefix
    case None => ""
    case Some(p) => if p == "*" then "*" else EscapeIdent(p)
  }

  /** `__toString`. */
  function ToString(w: WqName): (r: string)
    ensures |r| >= |w.localName|
    ensures w.prefixSpecified ==> |r| > |w.localName|
  {
    if w.prefixSpecified then PrefixText(w.prefix) + "|" + LocalText(w) else LocalText(w)
  }

  /** The characters of an escape: a backslash, hex digits and a space. */
  lemma EscapeCodePointChars(c: char)
    ensures forall i :: 0 <= i < |EscapeCodePoint(c)| ==> EscapeCodePoint(c)[i] != '|'
  {
    var hex := ToHex(c as int);
    var e := EscapeCodePoint(c);
    assert forall i :: 1 <= i < 1 + |hex| ==> e[i] == hex[i - 1];
  }

  /** No ident escape writes a '|': it is not an ident code point, so it is itself escaped. */
  lemma {:induction false} EscapeHasNoPipe(s: string, k: EscapeSet)
    requires k == IdentFirst || k == IdentRest
    ensures '|' !in Escape(s, k)
    decreases |s|
  {
    if s != [] {
      EscapeHasNoPipe(s[1..], k);
      if NeedsEscape(k, s[0]) {
        EscapeCodePointChars(s[0]);
      }
    }
  }

  lemma EscapeIdentHasNoPipe(s: string)
    ensures '|' !in EscapeIdent(s)
  {
    if s != [] {
      EscapeHasNoPipe(s[..1], IdentFirst);
      EscapeHasNoPipe(s[1..], IdentRest);
    }
  }

  /** Joining two pipe-free texts with a '|' leaves exactly one, between them. */
  lemma {:induction false} JoinedOnce(p: string, l: string)
    requires '|' !in p && '|' !in l
    ensures var s := p + "|" + l; s[|p|] == '|' && forall k :: 0 <= k < |s| && k != |p| ==> s[k] != '|'
  {
    var s := p + "|" + l;
    assert forall k :: 0 <= k < |p| ==> s[k] == p[k];
    assert forall k :: |p| < k < |s| ==> s[k] == l[k - |p| - 1];
  }

  /** A printed name shows a '|' exactly when a prefix was specified, and then only one. */
  lemma PipeMarksPrefix(w: WqName)
    ensures '|' in ToString(w) <==> w.prefixSpecified
    ensures w.prefixSpecified ==> var s := ToString(w); var i := |PrefixText(w.prefix)|;
      s[i] == '|' && forall k :: 0 <= k < |s| && k != i ==> s[k] != '|'
  {
    EscapeIdentHasNoPipe(w.localName);
    if w.prefix.Some? {
      EscapeIdentHasNoPipe(w.prefix.value);
    }
    var p, l := PrefixText(w.prefix), LocalText(w);
    assert '|' !in p && '|' !in l;
    if w.prefixSpecified {
      JoinedOnce(p, l);
      assert ToString(w) == p + "|" + l;
    } else {
      assert ToString(w) == l;
    }
  }

  /**
   * Two printed names are equal only if they agree on whether a prefix was
   * given, and then the prefix prints and the local name prints agree.
   */
  lemma PrintSeparatesParts(w: WqName, v: WqName)
    requires ToString(w) == ToString(v)
    ensures w.prefixSpecified == v.prefixSpecified
    ensures w.prefixSpecified ==> PrefixText(w.prefix) == PrefixText(v.prefix) && LocalText(w) == LocalText(v)
    ensures !w.prefixSpecified ==> LocalText(w) == LocalText(v)
  {
    PipeMarksPrefix(w);
    PipeMarksPrefix(v);
    if w.prefixSpecified {
      var s := ToString(w);
      var i, j := |PrefixText(w.prefix)|, |PrefixText(v.prefix)|;
      assert PrefixText(w.prefix) == s[..i] == PrefixText(v.prefix);
      assert LocalText(w) == s[i + 1..] == LocalText(v);
    }
  }

  /** A name of lower-case ASCII letters is printed as it is. */
  lemma PlainIdent(s: string)
    requires s != [] && forall i :: 0 <= i < |s| ==> 'a' <= s[i] <= 'z'
    ensures EscapeIdent(s) == s
  {
    TokenLaws.EscapeIdentIdentity(s);
  }

  /** A qualified name prints its prefix, a '|' and its local name. */
  lemma QualifiedRendering(p: string, l: string)
    requires p != "*" && l != "*" && EscapeIdent(p) == p && EscapeIdent(l) == l
    ensures ToString(WqName(true, Some(p), l)) == p + "|" + l
  {
  }

  /** The rendering `*|lang`: any namespace. */
  lemma AnyNamespaceRendering()
    ensures ToString(WqName(true, Some("*"), "lang")) == "*|lang"
  {
    var l := "lang";
    assert ToString(WqName(true, Some("*"), l)) == "*" + "|" + l by {
      PlainIdent(l);
    }
    assert "*" + "|" + "lang" == "*|lang";
  }

  lemma TestIsPlain()
    ensures EscapeIdent("test") == "test"
  {
    PlainIdent("test");
  }

  lemma DataIsPlain()
    ensures EscapeIdent("data") == "data"
  {
    PlainIdent("data");
  }

  /** `s` is `p`, a '|' and `l`, character by character. */
  lemma Joined(p: string, l: string, s: string)
    requires |s| == |p| + 1 + |l| && s[|p|] == '|'
    requires s[..|p|] == p && s[|p| + 1..] == l
    ensures p + "|" + l == s
  {
    assert s == s[..|p|] + [s[|p|]] + s[|p| + 1..];
  }

  /** The rendering `test|data`: a named namespace. */
  lemma NamedNamespaceRendering()
    ensures ToString(WqName(true, Some("test"), "data")) == "test|data"
  {
    var p, l := "test", "data";
    assert ToString(WqName(true, Some(p), l)) == p + "|" + l by {
      TestIsPlain();
      DataIsPlain();
      QualifiedRendering(p, l);
    }
    Joined(p, l, "test|data");
  }

  /** The rendering `|data`: no namespace. */
  lemma NoNamespaceRendering()
    ensures ToString(WqName(true, None, "data")) == "|data"
  {
    var l := "data";
    assert ToString(WqName(true, None, l)) == "" + "|" + l by {
      PlainIdent(l);
    }
    assert "" + "|" + "data" == "|data";
  }

  /** Without a prefix only the local name is printed; the wildcard stays literal. */
  lemma PlainRenderings()
    ensures ToString(WqName(false, None, "data")) == "data"
    ensures ToString(WqName(false, None, "*")) == "*"
  {
    PlainIdent("data");
  }
}
