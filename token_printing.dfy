/**
 * The token serialisers: a printed unicode range reads back as its bounds,
 * and the renderings of the individual token classes.
 */
module TokenPrinting {
  import opened Chars
  import opened Tokens
  import opened TokenLaws

  /**
   * A printed unicode range is "U+", the start in hexadecimal and, when the
   * range holds more than one code point, a '-' and the end in hexadecimal;
   * the hex parts read back as the bounds.
   */
  lemma UnicodeRangeReadsBack(start: nat, end: nat)
    ensures var s := Tokens.ToString(UnicodeRange(start, end)); var n := |ToHex(start)|;
      s[..2] == "U+" && 2 + n <= |s| && AllHex(s[2..2 + n]) && HexValue(s[2..2 + n]) == start
      && (start == end <==> |s| == 2 + n)
      && (start != end ==> s[2 + n] == '-' && AllHex(s[3 + n..]) && HexValue(s[3 + n..]) == end)
  {
    UnicodeRangeShape(start, end);
    HexRoundTrip(start);
    HexRoundTrip(end);
    RangeParts(ToHex(start), if start == end then "" else "-" + ToHex(end));
  }

  /** A unicode range prints as "U+", its start and, for more than one code point, '-' and its end. */
  lemma UnicodeRangeShape(start: nat, end: nat)
    ensures Tokens.ToString(UnicodeRange(start, end)) == "U+" + ToHex(start) + (if start == end then "" else "-" + ToHex(end))
  {
  }

  /** The parts of "U+" + h + tail, read back by position. */
  lemma RangeParts(h: string, tail: string)
    ensures var s := "U+" + h + tail;
      s[..2] == "U+" && 2 + |h| <= |s| && s[2..2 + |h|] == h && s[2 + |h|..] == tail
  {
    var s := "U+" + h + tail;
    assert s[..2] == "U+";
    assert s[2..2 + |h|] == h;
    assert s[2 + |h|..] == tail;
  }

  /** The renderings U+0-40 and U+7B. */
  lemma UnicodeRangeRenderings()
    ensures Tokens.ToString(UnicodeRange(0, 64)) == "U+0-40"
    ensures Tokens.ToString(UnicodeRange(123, 123)) == "U+7B"
  {
    assert ToHex(64) == "40" by {
      assert ToHex(64 / 16) == "4";
    }
    assert ToHex(123) == "7B" by {
      assert 123 / 16 == 7 && 123 % 16 == 11;
    }
  }

  /** The serialisers of the tokens with a text value. */
  lemma TextShapes(v: string)
    ensures Tokens.ToString(Ident(v)) == EscapeIdent(v)
    ensures Tokens.ToString(Function(v)) == EscapeIdent(v) + "("
    ensures Tokens.ToString(AtKeyword(v)) == "@" + EscapeIdent(v)
    ensures Tokens.ToString(Hash(v, false)) == "#" + Escape(v, IdentRest)
    ensures Tokens.ToString(Str(v)) == "\"" + Escape(v, StringChars) + "\""
    ensures Tokens.ToString(Url(v)) == "url(" + Escape(v, UrlChars) + ")"
  {
  }

  /** A hash keeps its digits: the rest-of-ident set does not escape a leading digit. */
  lemma HashRendering()
    ensures Tokens.ToString(Hash("123", false)) == "#123"
  {
    var v := "123";
    DigitsArePlain(v);
    PlainHash(v);
  }

  lemma DigitsArePlain(v: string)
    requires v == "123"
    ensures Escape(v, IdentRest) == v
  {
    assert forall i :: 0 <= i < |v| ==> IsAsciiName(v[i]);
    AsciiRest(v);
  }

  /** A hash whose name needs no escape prints as '#' and the name. */
  lemma PlainHash(v: string)
    requires Escape(v, IdentRest) == v
    ensures Tokens.ToString(Hash(v, false)) == "#" + v
  {
  }

  /** A name of ASCII letters, digits, '-' and '_' that does not start with a digit prints unescaped. */
  lemma AsciiIdent(s: string)
    requires s != [] && !IsDigit(s[0])
    requires forall i :: 0 <= i < |s| ==> IsAsciiName(s[i])
    ensures EscapeIdent(s) == s
  {
    EscapeIdentIdentity(s);
  }

  /** ASCII letters, digits, '-' and '_'. */
  predicate IsAsciiName(c: char)
  {
    'a' <= c <= 'z' || 'A' <= c <= 'Z' || '0' <= c <= '9' || c == '-' || c == '_'
  }

  /** ASCII letters, digits, '-' and '_' are ident code points: the rest-of-ident set keeps them. */
  lemma AsciiRest(s: string)
    requires forall i :: 0 <= i < |s| ==> IsAsciiName(s[i])
    ensures Escape(s, IdentRest) == s
  {
    EscapePlain(s, IdentRest);
  }

  /** At-keyword names print unescaped when they are plain idents. */
  lemma AtKeywordRendering()
    ensures Tokens.ToString(AtKeyword("foo")) == "@foo"
  {
    AsciiIdent("foo");
    TextShapes("foo");
  }

  /** Function names print unescaped, then the opening parenthesis. */
  lemma FunctionRendering()
    ensures Tokens.ToString(Function("last-child")) == "last-child("
  {
    AsciiIdent("last-child");
    TextShapes("last-child");
  }

  /** `escapeIdent` keeps upper-case letters, digits and hyphens after the first character. */
  lemma EscapeIdentKeepsMixed()
    ensures EscapeIdent("ID-1") == "ID-1"
  {
    AsciiIdent("ID-1");
  }

  /** `escapeIdent` keeps leading hyphens and underscores. */
  lemma EscapeIdentKeepsLeaders()
    ensures EscapeIdent("--ok") == "--ok"
    ensures EscapeIdent("_underscore") == "_underscore"
  {
    AsciiIdent("--ok");
    AsciiIdent("_underscore");
  }

  /** Non-ASCII letters are ident code points: "中文" prints unescaped. */
  lemma EscapeIdentKeepsNonAscii()
    ensures EscapeIdent("中文") == "中文"
  {
    var s := "中文";
    assert 0x3001 <= s[0] as int <= 0xD7FF && 0x3001 <= s[1] as int <= 0xD7FF;
    assert IsNonAsciiIdent(s[0]) && IsNonAsciiIdent(s[1]);
    EscapeIdentIdentity(s);
  }

  /**
   * `escapeIdent` escapes a leading backslash as \5C followed by a space and
   * keeps the name after it, as in "\\backslash".
   */
  lemma EscapeIdentBackslash(a: string)
    requires forall i :: 0 <= i < |a| ==> IsAsciiName(a[i])
    ensures EscapeIdent("\\" + a) == "\\5C " + a
  {
    var s := "\\" + a;
    assert s[..1] == "\\" && s[1..] == a;
    assert ToHex('\\' as int) == "5C" by {
      assert '\\' as int == 5 * 16 + 12;
    }
    assert Escape("\\", IdentFirst) == "\\5C ";
    AsciiRest(a);
  }

  /**
   * A string token escapes its line feed and its double quote but not a
   * single quote: "'line1", a line feed, "line2" and a double quote print as
   * "'line1\A line2\22 " between quotes.
   */
  lemma StringRendering(a: string, c: string)
    requires forall i :: 0 <= i < |a| ==> !NeedsEscape(StringChars, a[i])
    requires forall i :: 0 <= i < |c| ==> !NeedsEscape(StringChars, c[i])
    ensures Tokens.ToString(Str(a + "\n" + c + "\"")) == "\"" + a + "\\A " + c + "\\22 \""
    ensures !NeedsEscape(StringChars, '\'')
  {
    StringEscapes(a, c);
    TextShapes(a + "\n" + c + "\"");
  }

  lemma StringEscapes(a: string, c: string)
    requires forall i :: 0 <= i < |a| ==> !NeedsEscape(StringChars, a[i])
    requires forall i :: 0 <= i < |c| ==> !NeedsEscape(StringChars, c[i])
    ensures Escape(a + "\n" + c + "\"", StringChars) == a + "\\A " + c + "\\22 "
  {
    EscapePlain(a, StringChars);
    EscapePlain(c, StringChars);
    assert ToHex('\n' as int) == "A";
    assert ToHex('"' as int) == "22" by {
      assert '"' as int == 2 * 16 + 2;
    }
    assert Escape("\n", StringChars) == "\\A ";
    assert Escape("\"", StringChars) == "\\22 ";
    EscapeConcat(a + "\n" + c, "\"", StringChars);
    EscapeConcat(a + "\n", c, StringChars);
    EscapeConcat(a, "\n", StringChars);
  }

  /**
   * A URL escapes quotes, parentheses and line feeds: a single quote, "line1",
   * a line feed, "(line2)" and a double quote print as
   * url(\27 line1\A \28 line2\29 \22 ).
   */
  lemma UrlRendering(a: string, b: string)
    requires forall i :: 0 <= i < |a| ==> !NeedsEscape(UrlChars, a[i])
    requires forall i :: 0 <= i < |b| ==> !NeedsEscape(UrlChars, b[i])
    ensures Tokens.ToString(Url("'" + a + "\n(" + b + ")\"")) == "url(\\27 " + a + "\\A \\28 " + b + "\\29 \\22 )"
  {
    UrlEscapes(a, b);
    TextShapes("'" + a + "\n(" + b + ")\"");
  }

  lemma UrlEscapes(a: string, b: string)
    requires forall i :: 0 <= i < |a| ==> !NeedsEscape(UrlChars, a[i])
    requires forall i :: 0 <= i < |b| ==> !NeedsEscape(UrlChars, b[i])
    ensures Escape("'" + a + "\n(" + b + ")\"", UrlChars) == "\\27 " + a + "\\A \\28 " + b + "\\29 \\22 "
  {
    UrlEscapedQuote();
    UrlEscapedOpen();
    UrlEscapedClose();
    EscapePlain(a, UrlChars);
    EscapePlain(b, UrlChars);
    EscapeConcat("'" + a + "\n(" + b, ")\"", UrlChars);
    EscapeConcat("'" + a + "\n(", b, UrlChars);
    EscapeConcat("'" + a, "\n(", UrlChars);
    EscapeConcat("'", a, UrlChars);
  }

  /**
   * A URL escapes the Unicode spaces as well: between two texts that need no
   * escape, a no-break space prints as \A0 .
   */
  lemma UrlUnicodeSpaceRendering(a: string, b: string)
    requires forall i :: 0 <= i < |a| ==> !NeedsEscape(UrlChars, a[i])
    requires forall i :: 0 <= i < |b| ==> !NeedsEscape(UrlChars, b[i])
    ensures Tokens.ToString(Url(a + "\U{00A0}" + b)) == "url(" + a + "\\A0 " + b + ")"
  {
    UrlEscapedNoBreakSpace();
    EscapePlain(a, UrlChars);
    EscapePlain(b, UrlChars);
    EscapeConcat(a + "\U{00A0}", b, UrlChars);
    EscapeConcat(a, "\U{00A0}", UrlChars);
    TextShapes(a + "\U{00A0}" + b);
  }

  /** The escape of a no-break space in a URL. */
  lemma UrlEscapedNoBreakSpace()
    ensures Escape("\U{00A0}", UrlChars) == "\\A0 "
  {
    assert ToHex(0xA0) == "A0";
    EscapedChar('\U{00A0}', UrlChars, "A0");
  }

  /** The escape of a single quote in a URL. */
  lemma UrlEscapedQuote()
    ensures Escape("'", UrlChars) == "\\27 "
  {
    EscapedChar('\'', UrlChars, "27");
  }

  /** The escapes of a line feed and an opening parenthesis in a URL. */
  lemma UrlEscapedOpen()
    ensures Escape("\n(", UrlChars) == "\\A \\28 "
  {
    EscapedChar('\n', UrlChars, "A");
    EscapedChar('(', UrlChars, "28");
    EscapeConcat("\n", "(", UrlChars);
  }

  /** The escapes of a closing parenthesis and a double quote in a URL. */
  lemma UrlEscapedClose()
    ensures Escape(")\"", UrlChars) == "\\29 \\22 "
  {
    EscapedChar(')', UrlChars, "29");
    EscapedChar('"', UrlChars, "22");
    EscapeConcat(")", "\"", UrlChars);
  }

  /** A character of the escape set prints as a backslash, its hex digits and a space. */
  lemma EscapedChar(c: char, k: EscapeSet, hex: string)
    requires NeedsEscape(k, c) && ToHex(c as int) == hex && |hex| < 6
    ensures Escape([c], k) == "\\" + hex + " "
  {
  }

  /** Escaping a concatenation escapes each part. */
  lemma EscapeConcat(a: string, b: string, k: EscapeSet)
    ensures Escape(a + b, k) == Escape(a, k) + Escape(b, k)
  {
    EscapeSplit(a + b, |a|, k);
    assert (a + b)[..|a|] == a && (a + b)[|a|..] == b;
  }

  /** Escaping distributes over a split of the text. */
  lemma {:induction false} EscapeSplit(s: string, i: nat, k: EscapeSet)
    requires i <= |s|
    ensures Escape(s, k) == Escape(s[..i], k) + Escape(s[i..], k)
    decreases i
  {
    if i > 0 {
      EscapeSplit(s[1..], i - 1, k);
      assert s[1..][..i - 1] == s[..i][1..];
      assert s[1..][i - 1..] == s[i..];
    }
  }
}
