/**
 * The serialisers of module Tokens read back through the tokenizer's
 * functions: an escaped code point decodes to itself, and the printed
 * forms of strings, URLs, idents, hashes and unicode ranges tokenize to
 * the value they print, with no error.
 */
module TokenLaws {
  import opened Wrappers
  import opened Chars
  import opened Scan
  import opened Tokens
  import opened Lexing
  import opened Errors

  /** Every character a serialiser escapes lies below U+10000, so its escape ends in a space. */
  lemma EscapedCharsAreShort(k: EscapeSet, c: char)
    requires NeedsEscape(k, c)
    ensures |ToHex(c as int)| < 6
  {
    CodePointHexLength(c);
  }

  /** Fewer than six hex digits and a space read as the code point they spell, with the space consumed. */
  lemma HexEscapeReads(text: string, pos: nat, end: nat)
    requires pos < end < |text| && end - pos < 6
    requires AllHex(text[pos..end]) && text[end] == ' ' && !IsInvalidCodePoint(HexValue(text[pos..end]))
    ensures EscapedCodePoint(text, pos) == Lexed(HexValue(text[pos..end]) as char, end + 1, [])
  {
    HexSpanStops(text, pos, end, 6);
  }

  /** Where the short escape of c is written, its hex digits and the closing space sit after the backslash. */
  lemma EscapeLayout(c: char, text: string, pos: nat)
    requires |ToHex(c as int)| < 6
    requires pos + |EscapeCodePoint(c)| <= |text| && text[pos..pos + |EscapeCodePoint(c)|] == EscapeCodePoint(c)
    ensures var end := pos + 1 + |ToHex(c as int)|;
      end < |text| && text[pos + 1..end] == ToHex(c as int) && text[end] == ' ' && end + 1 == pos + |EscapeCodePoint(c)|
  {
    var hex := ToHex(c as int);
    var esc := EscapeCodePoint(c);
    assert esc == "\\" + hex + " ";
    SliceOfSlice(text, pos, pos + |esc|, 1, 1 + |hex|);
    MiddleOf("\\", hex, " ");
    assert text[pos + 1 + |hex|] == esc[|esc| - 1] == ' ';
  }

  /** The middle part of a three-part concatenation. */
  lemma MiddleOf<T>(a: seq<T>, b: seq<T>, c: seq<T>)
    ensures (a + b + c)[|a|..|a| + |b|] == b
  {
  }

  /** A slice of a slice is a slice of the whole. */
  lemma SliceOfSlice<T>(s: seq<T>, i: nat, j: nat, k: nat, l: nat)
    requires i <= j <= |s| && k <= l <= j - i
    ensures s[i..j][k..l] == s[i + k..i + l]
  {
    var a, b := s[i..j][k..l], s[i + k..i + l];
    assert |a| == |b|;
    forall m | 0 <= m < |a| ensures a[m] == b[m] {
      assert a[m] == s[i..j][k + m] == s[i + k + m];
    }
  }

  /** The escape of a code point other than U+0000 decodes back to it; nothing after it is read. */
  lemma EscapeDecodes(c: char, text: string, pos: nat)
    requires c != '\0' && |ToHex(c as int)| < 6
    requires pos + |EscapeCodePoint(c)| <= |text| && text[pos..pos + |EscapeCodePoint(c)|] == EscapeCodePoint(c)
    ensures EscapedCodePoint(text, pos + 1) == Lexed(c, pos + |EscapeCodePoint(c)|, [])
  {
    EscapeLayout(c, text, pos);
    HexRoundTrip(c as int);
    HexEscapeReads(text, pos + 1, pos + 1 + |ToHex(c as int)|);
  }

  /** A `Find` that meets the target at j and nowhere before stops at j. */
  lemma FindStopsAt(text: string, pos: nat, t: Target, j: nat)
    requires pos <= j < |text| && IsTargetAt(text, j, t)
    requires forall i :: pos <= i < j ==> !IsTargetAt(text, i, t)
    ensures Find(text, pos, t) == Some(j)
  {
  }

  /** Escape splits at its first character. */
  lemma EscapeCons(s: string, k: EscapeSet)
    requires s != []
    ensures Escape(s, k) == (if NeedsEscape(k, s[0]) then EscapeCodePoint(s[0]) else [s[0]]) + Escape(s[1..], k)
  {
  }

  /** Characters outside the escape set pass through unchanged and in order. */
  lemma {:induction false} EscapePlain(s: string, k: EscapeSet)
    requires forall i :: 0 <= i < |s| ==> !NeedsEscape(k, s[i])
    ensures Escape(s, k) == s
  {
    if s != [] {
      EscapePlain(s[1..], k);
    }
  }

  /** `escapeIdent` leaves a name alone that starts with '-' or an ident-start code point and continues with ident code points. */
  lemma EscapeIdentIdentity(s: string)
    requires s != [] && (s[0] == '-' || IsIdentStart(s[0]))
    requires forall i :: 1 <= i < |s| ==> IsIdentCodePoint(s[i])
    ensures EscapeIdent(s) == s
  {
    EscapePlain(s[..1], IdentFirst);
    EscapePlain(s[1..], IdentRest);
  }

  /** `escapeIdent` escapes a leading digit and keeps the digits after it: "123" prints as "\31 23". */
  lemma EscapeIdentLeadingDigit()
    ensures EscapeIdent("123") == "\\31 23"
  {
    assert ToHex('1' as int) == "31" by {
      assert '1' as int == 3 * 16 + 1;
    }
    EscapePlain("23", IdentRest);
  }

  /** Where the text from j reads a + b, a and b sit at their offsets. */
  lemma SplitAt<T>(text: seq<T>, j: nat, a: seq<T>, b: seq<T>)
    requires j <= |text| && text[j..] == a + b
    ensures j + |a| <= |text| && text[j..j + |a|] == a && text[j + |a|..] == b
    ensures forall i :: 0 <= i < |a| ==> text[j + i] == a[i]
  {
    assert text[j..j + |a|] == text[j..][..|a|];
    assert text[j + |a|..] == text[j..][|a|..];
    forall i | 0 <= i < |a| ensures text[j + i] == a[i] {
      assert text[j + i] == text[j..][i];
    }
  }

  /** One more literal character extends the literal run text[pos..j]. */
  lemma SliceGrows<T>(text: seq<T>, pos: nat, j: nat)
    requires pos <= j < |text|
    ensures text[pos..j + 1] == text[pos..j] + [text[j]]
  {
  }

  /** A run that no serialiser escapes in a string contains no string stop. */
  predicate StringLiteral(text: string, pos: nat, j: nat)
    requires pos <= j <= |text|
  {
    forall i :: pos <= i < j ==> !NeedsEscape(StringChars, text[i])
  }

  /** A string round that stops at a backslash with no line feed after it reads one escaped code point. */
  lemma StringStepEscape(text: string, pos: nat, j: nat)
    requires pos <= j && j + 1 < |text| && Find(text, pos, StringStop('"')) == Some(j)
    requires text[j] == '\\' && text[j + 1] != '\n'
    ensures var e := EscapedCodePoint(text, j + 1);
      StringStep(text, pos, '"') == More(text[pos..j] + [e.value], e.errs, e.pos)
  {
  }

  /** The text from j is the escape of c followed by tail: one string round reads the run and c. */
  lemma StringEscapeStep(text: string, pos: nat, j: nat, c: char, tail: string)
    requires pos <= j <= |text| && StringLiteral(text, pos, j)
    requires text[j..] == EscapeCodePoint(c) + tail
    requires c != '\0' && NeedsEscape(StringChars, c)
    ensures StringStep(text, pos, '"') == More(text[pos..j] + [c], [], j + |EscapeCodePoint(c)|)
  {
    var esc := EscapeCodePoint(c);
    SplitAt(text, j, esc, tail);
    assert text[j] == esc[0];
    FindStopsAt(text, pos, StringStop('"'), j);
    EscapedCharsAreShort(StringChars, c);
    EscapeDecodes(c, text, j);
    assert IsHexDigit(ToHex(c as int)[0]);
    assert text[j + 1] == esc[1];
    StringStepEscape(text, pos, j);
  }

  /** The text from j is the closing quote: the string round ends the body. */
  lemma StringCloseStep(text: string, pos: nat, j: nat, rest: string)
    requires pos <= j <= |text| && StringLiteral(text, pos, j)
    requires text[j..] == "\"" + rest
    ensures StringStep(text, pos, '"') == Done(Lexed(Str(text[pos..j]), j + 1, []))
  {
    SplitAt(text, j, "\"", rest);
    FindStopsAt(text, pos, StringStop('"'), j);
  }

  /** A string body is its first round followed by the body from where that round stops. */
  lemma StringBodyUnfolds(text: string, pos: nat, ending: char)
    requires pos <= |text|
    ensures var s := StringStep(text, pos, ending);
      StringBody(text, pos, ending) == if s.Done? then s.body else PrependBody(s.chunk, s.errs, StringBody(text, s.next, ending))
  {
  }

  /** A chunk in front of an error-free string body. */
  lemma PrependStr(chunk: string, rest: Lexed<TokenKind>, v: string, p: nat)
    requires rest == Lexed(Str(v), p, [])
    ensures PrependBody(chunk, [], rest) == Lexed(Str(chunk + v), p, [])
  {
    var none: seq<ParseError> := [];
    assert none + none == none;
  }

  /** StringBodyReads when v is empty: the closing quote follows the run. */
  lemma StringBodyCloseCase(text: string, pos: nat, j: nat, rest: string)
    requires pos <= j <= |text| && StringLiteral(text, pos, j)
    requires text[j..] == Escape([], StringChars) + "\"" + rest
    ensures StringBody(text, pos, '"') == Lexed(Str(text[pos..j] + []), j + |Escape([], StringChars)| + 1, [])
  {
    StringBodyUnfolds(text, pos, '"');
    assert text[j..] == "\"" + rest;
    StringCloseStep(text, pos, j, rest);
    assert text[pos..j] + [] == text[pos..j];
  }

  /** StringBodyReads when v starts with an escaped character: the escape and what follows it. */
  lemma StringEscapeSplit(text: string, j: nat, v: string, rest: string)
    requires j <= |text|
    requires text[j..] == Escape(v, StringChars) + "\"" + rest
    requires v != [] && NeedsEscape(StringChars, v[0])
    ensures text[j..] == EscapeCodePoint(v[0]) + (Escape(v[1..], StringChars) + "\"" + rest)
    ensures |Escape(v, StringChars)| == |EscapeCodePoint(v[0])| + |Escape(v[1..], StringChars)|
  {
    EscapeCons(v, StringChars);
    var c, tail := v[0], Escape(v[1..], StringChars);
    var esc := EscapeCodePoint(c);
    AppendAssoc(esc, tail, "\"");
    AppendAssoc(esc, tail + "\"", rest);
  }

  /** StringBodyReads when v starts with an escaped character: where the escape ends. */
  lemma StringEscapeNext(text: string, pos: nat, j: nat, c: char, tail: string)
    requires pos <= j <= |text| && StringLiteral(text, pos, j)
    requires text[j..] == EscapeCodePoint(c) + tail
    requires NeedsEscape(StringChars, c)
    ensures j + |EscapeCodePoint(c)| <= |text| && text[j + |EscapeCodePoint(c)|..] == tail
    ensures StringStep(text, pos, '"') == More(text[pos..j] + [c], [], j + |EscapeCodePoint(c)|)
  {
    SplitAt(text, j, EscapeCodePoint(c), tail);
    StringEscapeStep(text, pos, j, c, tail);
  }

  /** StringBodyReads when v starts with an escaped character, given the body after the escape. */
  lemma StringEscapeCase(text: string, pos: nat, j: nat, v: string, next: nat, n: nat, w: string)
    requires pos <= j <= |text| && next <= |text| && v != []
    requires StringStep(text, pos, '"') == More(text[pos..j] + [v[0]], [], next)
    requires StringBody(text, next, '"') == Lexed(Str(w), n, [])
    requires w == v[1..]
    ensures StringBody(text, pos, '"') == Lexed(Str(text[pos..j] + v), n, [])
  {
    StringBodyUnfolds(text, pos, '"');
    PrependStr(text[pos..j] + [v[0]], StringBody(text, next, '"'), w, n);
    assert text[pos..j] + [v[0]] + w == text[pos..j] + v;
  }

  /** Where the text from j reads [c] + x, c sits at j and x follows it. */
  lemma ConsAt<T>(text: seq<T>, j: nat, c: T, x: seq<T>)
    requires j <= |text| && text[j..] == [c] + x
    ensures j < |text| && text[j] == c && text[j + 1..] == x
  {
    assert text[j] == text[j..][0];
    assert text[j + 1..] == text[j..][1..];
  }

  /** Moving the first element of v onto the end of a leaves the concatenation unchanged. */
  lemma MoveHead<T>(a: seq<T>, v: seq<T>)
    requires v != []
    ensures (a + [v[0]]) + v[1..] == a + v
  {
    AppendAssoc(a, [v[0]], v[1..]);
    assert [v[0]] + v[1..] == v;
  }

  /** StringBodyReads when v starts with a literal character, which joins the run. */
  lemma StringBodyLiteralCase(text: string, pos: nat, j: nat, v: string, rest: string)
    requires pos <= j <= |text| && StringLiteral(text, pos, j)
    requires text[j..] == Escape(v, StringChars) + "\"" + rest
    requires v != [] && !NeedsEscape(StringChars, v[0])
    ensures j + 1 <= |text| && StringLiteral(text, pos, j + 1)
    ensures text[j + 1..] == Escape(v[1..], StringChars) + "\"" + rest
    ensures text[pos..j + 1] + v[1..] == text[pos..j] + v
    ensures j + 1 + |Escape(v[1..], StringChars)| == j + |Escape(v, StringChars)|
  {
    EscapeCons(v, StringChars);
    var c, tail := v[0], Escape(v[1..], StringChars);
    AppendAssoc([c], tail, "\"");
    AppendAssoc([c], tail + "\"", rest);
    ConsAt(text, j, c, tail + "\"" + rest);
    SliceGrows(text, pos, j);
    MoveHead(text[pos..j], v);
  }

  /**
   * After the literal run text[pos..j], a string body made of the escaped
   * `v` and a closing '"' reads back as the run followed by `v`, with no
   * error.
   */
  lemma {:induction false} StringBodyReads(text: string, pos: nat, j: nat, v: string, rest: string)
    requires pos <= j <= |text| && StringLiteral(text, pos, j)
    requires text[j..] == Escape(v, StringChars) + "\"" + rest
    ensures StringBody(text, pos, '"') == Lexed(Str(text[pos..j] + v), j + |Escape(v, StringChars)| + 1, [])
    decreases |v|
  {
    var goal := Lexed(Str(text[pos..j] + v), j + |Escape(v, StringChars)| + 1, []);
    if v == [] {
      StringBodyCloseCase(text, pos, j, rest);
    } else if NeedsEscape(StringChars, v[0]) {
      var next := j + |EscapeCodePoint(v[0])|;
      StringEscapeSplit(text, j, v, rest);
      StringEscapeNext(text, pos, j, v[0], Escape(v[1..], StringChars) + "\"" + rest);
      StringBodyReads(text, next, next, v[1..], rest);
      assert text[next..next] + v[1..] == v[1..];
      StringEscapeCase(text, pos, j, v, next, next + |Escape(v[1..], StringChars)| + 1, v[1..]);
    } else {
      assert StringBody(text, pos, '"') == goal by {
        StringBodyLiteralCase(text, pos, j, v, rest);
        StringBodyReads(text, pos, j + 1, v[1..], rest);
      }
    }
  }

  /** `toString` of a string token tokenizes back to the same string, with no error. */
  lemma StringRoundTrip(v: string, rest: string)
    ensures var s := ToString(Str(v));
      StringToken(s + rest, 1, '"') == Lexed(Token(Str(v), 0, |s|), |s|, [])
  {
    QuotedReadsBack(v, rest, ToString(Str(v)));
  }

  /** The quoted escape of v, followed by anything, reads back as the string token of v. */
  lemma QuotedReadsBack(v: string, rest: string, s: string)
    requires s == "\"" + Escape(v, StringChars) + "\""
    ensures StringToken(s + rest, 1, '"') == Lexed(Token(Str(v), 0, |s|), |s|, [])
  {
    var e := Escape(v, StringChars);
    var text := s + rest;
    assert text == "\"" + (e + "\"" + rest);
    assert text[1..] == e + "\"" + rest;
    StringBodyReads(text, 1, 1, v, rest);
    assert text[1..1] + v == v;
    assert StringBody(text, 1, '"') == Lexed(Str(v), |s|, []);
  }

}
