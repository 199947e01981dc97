/**
 * `AnbParser.tryParse` (section 6.2 of CSS Syntax Module Level 3): the
 * An+B micro-grammar over a token stream. `AnbAt` states which notation a
 * token sequence gives and where the stream is left; `TryParse` moves a
 * TokenStream exactly so. Every failure leaves the stream where it started.
 */
module AnbParsing {
  import opened Wrappers
  import opened Chars
  import opened Tokens
  import opened TokenStreams
  import opened AnbNotations

  /** What a parse produced (none on failure) and where it left the stream. */
  datatype Parsed<T> = Parsed(value: Option<T>, pos: nat)

  /** The `b` a continuation gives and the position after it. */
  datatype BEnd = BEnd(b: int, pos: nat)

  /** An integer number token, with or without a sign. */
  predicate IsInteger(t: Token, signed: bool)
  {
    t.kind.Number? && t.kind.num.isInt && t.kind.num.hasSign == signed
  }

  /** A '+' or '-' delimiter. */
  predicate IsSignDelim(t: Token)
  {
    t.kind.Delim? && (t.kind.delim == '+' || t.kind.delim == '-')
  }

  /**
   * `preg_match('/^<prefix>\d+$/', s)` and then `intval` of what follows the
   * prefix: ASCII digits after the prefix, to the end or to a final line
   * feed (PCRE's `$` also matches before one).
   */
  function DigitsAfter(s: string, prefix: string): (r: Option<nat>)
    ensures r.Some? ==> |s| > |prefix| && s[..|prefix|] == prefix
  {
    if |s| <= |prefix| || s[..|prefix|] != prefix then None
    else
      var rest := s[|prefix|..];
      if AllDigits(rest) then Some(DecimalValue(rest))
      else if |rest| >= 2 && rest[|rest| - 1] == '\n' && AllDigits(rest[..|rest| - 1]) then Some(DecimalValue(rest[..|rest| - 1]))
      else None
  }

  /**
   * After `n` (or `-n`): optional whitespace, then a signed integer as b, or a
   * sign delimiter, optional whitespace and a signless integer as +-b.
   * Anything else leaves b = 0 and the stream at `fallback`.
   */
  function BAfterN(tokens: seq<Token>, p: nat, fallback: nat): (r: BEnd)
    requires p <= |tokens|
    ensures r.pos == fallback || p < r.pos <= |tokens|
  {
    var q := WhitespaceEnd(tokens, p);
    if q < |tokens| && IsInteger(tokens[q], true) then BEnd(IntVal(tokens[q].kind.num), q + 1)
    else if q < |tokens| && IsSignDelim(tokens[q]) then
      var q2 := WhitespaceEnd(tokens, q + 1);
      if q2 < |tokens| && IsInteger(tokens[q2], false) then
        BEnd(IntVal(tokens[q2].kind.num) * (if tokens[q].kind.delim == '+' then 1 else -1), q2 + 1)
      else BEnd(0, fallback)
    else BEnd(0, fallback)
  }

  /** After `n-` (or `-n-`): optional whitespace and a signless integer, whose negation is b. */
  function SignlessAfter(tokens: seq<Token>, p: nat): (r: Option<BEnd>)
    requires p <= |tokens|
    ensures r.Some? ==> p < r.value.pos <= |tokens|
  {
    var q := WhitespaceEnd(tokens, p);
    if q < |tokens| && IsInteger(tokens[q], false) then Some(BEnd(-IntVal(tokens[q].kind.num), q + 1)) else None
  }

  /** The three spellings that follow `a`: `n` with an optional b, `n-` then digits, `n-<digits>`. */
  function AfterA(tokens: seq<Token>, start: nat, a: int, name: string, p: nat, fallback: nat): (r: Parsed<AnbNotation>)
    requires start < p <= |tokens|
    ensures r.value.None? ==> r.pos == start
    ensures r.value.Some? ==> r.value.value.a == a && r.value.value.keyword == ""
  {
    if name == "n" then
      var c := BAfterN(tokens, p, fallback);
      Parsed(Some(AnbNotation(a, c.b, "")), c.pos)
    else if name == "n-" then
      match SignlessAfter(tokens, p)
      case None => Parsed(None, start)
      case Some(c) => Parsed(Some(AnbNotation(a, c.b, "")), c.pos)
    else
      match DigitsAfter(name, "n-")
      case None => Parsed(None, start)
      case Some(d) => Parsed(Some(AnbNotation(a, -(d as int), "")), p)
  }

  /** `tryParse` from start: the notation and the position it leaves, or none and start. */
  function AnbAt(tokens: seq<Token>, start: nat): (r: Parsed<AnbNotation>)
    requires start <= |tokens|
    ensures r.value.None? ==> r.pos == start
    ensures r.value.Some? ==> start < r.pos <= |tokens| && WellFormed(r.value.value)
  {
    if start == |tokens| then Parsed(None, start)
    else
      var p := start + 1;
      match tokens[start].kind
      case Number(num) =>
        if num.isInt then Parsed(Some(AnbNotation(0, IntVal(num), "")), p) else Parsed(None, start)
      case Ident(v) =>
        var id := Lower(v);
        if id == "odd" || id == "even" then Parsed(Some(AnbNotation(2, if id == "odd" then 1 else 0, id)), p)
        else if id != [] && id[0] == '-' then
          var r := AfterA(tokens, start, -1, id[1..], p, start + 1);
          r
        else Parsed(None, start)
      case Dimension(num, unit) =>
        AfterA(tokens, start, IntVal(num), Lower(unit), p, start + 1)
      case Delim(c) =>
        if c != '+' || p == |tokens| || !tokens[p].kind.Ident? then Parsed(None, start)
        else AfterA(tokens, start, 1, Lower(tokens[p].kind.value), p + 1, start + 2)
      case _ => Parsed(None, start)
  }

  /** The keywords, in any case, give (2, 1, odd) and (2, 0, even) and take one token. */
  lemma OddEven(tokens: seq<Token>, start: nat, v: string)
    requires start < |tokens| && tokens[start].kind == Ident(v)
    requires Lower(v) == "odd" || Lower(v) == "even"
    ensures Lower(v) == "odd" ==> AnbAt(tokens, start) == Parsed(Some(AnbNotation(2, 1, "odd")), start + 1)
    ensures Lower(v) == "even" ==> AnbAt(tokens, start) == Parsed(Some(AnbNotation(2, 0, "even")), start + 1)
  {
  }

  /** A number token is b alone when it is an integer; any other number fails. */
  lemma NumberAlone(tokens: seq<Token>, start: nat, num: Num)
    requires start < |tokens| && tokens[start].kind == Number(num)
    ensures num.isInt ==> AnbAt(tokens, start) == Parsed(Some(AnbNotation(0, IntVal(num), "")), start + 1)
    ensures !num.isInt ==> AnbAt(tokens, start) == Parsed(None, start)
  {
  }

  /** Lower-casing leaves ASCII digits and the letters already in lower case alone. */
  lemma LowerOfLower(s: string)
    requires forall i :: 0 <= i < |s| ==> !('A' <= s[i] <= 'Z')
    ensures Lower(s) == s
  {
  }

  /** `n-<digits>` after a sign or a number reads back the digits: b is their negation. */
  lemma DigitsAfterReads(prefix: string, d: nat)
    ensures DigitsAfter(prefix + DecimalDigits(d), prefix) == Some(d)
  {
    var s := prefix + DecimalDigits(d);
    assert s[..|prefix|] == prefix;
    assert s[|prefix|..] == DecimalDigits(d);
    DecimalRoundTrip(d);
  }

  /** Digits never hold an upper-case letter. */
  lemma DigitsNotUpper(d: nat)
    ensures forall i :: 0 <= i < |DecimalDigits(d)| ==> !('A' <= DecimalDigits(d)[i] <= 'Z')
  {
    var s := DecimalDigits(d);
    assert forall i :: 0 <= i < |s| ==> IsDigit(s[i]);
  }

  /** Lower-casing a prefix without upper-case letters followed by digits changes nothing. */
  lemma LowerPrefixDigits(prefix: string, d: nat)
    requires forall i :: 0 <= i < |prefix| ==> !('A' <= prefix[i] <= 'Z')
    ensures Lower(prefix + DecimalDigits(d)) == prefix + DecimalDigits(d)
  {
    var v := prefix + DecimalDigits(d);
    DigitsNotUpper(d);
    assert forall i :: 0 <= i < |v| ==> !('A' <= v[i] <= 'Z') by {
      forall i | 0 <= i < |v| ensures !('A' <= v[i] <= 'Z') {
        if i >= |prefix| {
          assert v[i] == DecimalDigits(d)[i - |prefix|];
        }
      }
    }
    LowerOfLower(v);
  }

  /** After a, the name `n-<digits>` gives b = -digits and reads nothing more. */
  lemma AfterADigits(tokens: seq<Token>, start: nat, a: int, d: nat, p: nat, fallback: nat)
    requires start < p <= |tokens|
    ensures AfterA(tokens, start, a, "n-" + DecimalDigits(d), p, fallback) == Parsed(Some(AnbNotation(a, -(d as int), "")), p)
  {
    var name := "n-" + DecimalDigits(d);
    assert |name| > 2;
    DigitsAfterReads("n-", d);
  }

  /** The single token `-n-<digits>` gives a = -1 and b = -digits, and nothing more is read. */
  lemma DashNDigits(tokens: seq<Token>, start: nat, d: nat)
    requires start < |tokens| && tokens[start].kind == Ident("-n-" + DecimalDigits(d))
    ensures AnbAt(tokens, start) == Parsed(Some(AnbNotation(-1, -(d as int), "")), start + 1)
  {
    var v := "-n-" + DecimalDigits(d);
    LowerPrefixDigits("-n-", d);
    assert v[1..] == "n-" + DecimalDigits(d);
    AfterADigits(tokens, start, -1, d, start + 1, start + 1);
  }

  /** The single dimension `<a>n-<digits>` gives that a and b = -digits. */
  lemma DimensionNDigits(tokens: seq<Token>, start: nat, num: Num, d: nat)
    requires start < |tokens| && tokens[start].kind == Dimension(num, "n-" + DecimalDigits(d))
    ensures AnbAt(tokens, start) == Parsed(Some(AnbNotation(IntVal(num), -(d as int), "")), start + 1)
  {
    LowerPrefixDigits("n-", d);
    AfterADigits(tokens, start, IntVal(num), d, start + 1, start + 1);
  }

  /**
   * `<a>n` followed by what cannot continue it still parses, as a with b = 0,
   * and the stream is left just after the dimension.
   */
  lemma DimensionNStops(tokens: seq<Token>, start: nat, num: Num, unit: string)
    requires start < |tokens| && tokens[start].kind == Dimension(num, unit) && Lower(unit) == "n"
    requires var q := WhitespaceEnd(tokens, start + 1);
      q == |tokens| || !(IsInteger(tokens[q], true) || IsSignDelim(tokens[q]))
    ensures AnbAt(tokens, start) == Parsed(Some(AnbNotation(IntVal(num), 0, "")), start + 1)
  {
  }

  /** `<a>n` with a signed integer after optional whitespace: that integer is b. */
  lemma DimensionNSigned(tokens: seq<Token>, start: nat, num: Num, unit: string, q: nat)
    requires start < |tokens| && tokens[start].kind == Dimension(num, unit) && Lower(unit) == "n"
    requires q == WhitespaceEnd(tokens, start + 1) && q < |tokens| && IsInteger(tokens[q], true)
    ensures AnbAt(tokens, start) == Parsed(Some(AnbNotation(IntVal(num), IntVal(tokens[q].kind.num), "")), q + 1)
  {
  }

  /** `<a>n-` needs a signless integer after optional whitespace; without one the parse fails. */
  lemma DimensionNDashNeedsInteger(tokens: seq<Token>, start: nat, num: Num, unit: string)
    requires start < |tokens| && tokens[start].kind == Dimension(num, unit) && Lower(unit) == "n-"
    ensures var q := WhitespaceEnd(tokens, start + 1);
      AnbAt(tokens, start) == if q < |tokens| && IsInteger(tokens[q], false)
        then Parsed(Some(AnbNotation(IntVal(num), -IntVal(tokens[q].kind.num), "")), q + 1)
        else Parsed(None, start)
  {
  }

  /** `+n`: a = 1, and a broken continuation leaves the stream after the two tokens. */
  lemma PlusN(tokens: seq<Token>, start: nat, v: string)
    requires start + 1 < |tokens| && tokens[start].kind == Delim('+') && tokens[start + 1].kind == Ident(v)
    requires Lower(v) == "n"
    ensures var c := BAfterN(tokens, start + 2, start + 2);
      AnbAt(tokens, start) == Parsed(Some(AnbNotation(1, c.b, "")), c.pos)
  {
  }

  /** Rollback: a '+' must be followed at once by an ident. */
  lemma PlusNeedsIdent(tokens: seq<Token>, start: nat)
    requires start < |tokens| && tokens[start].kind == Delim('+')
    requires start + 1 == |tokens| || !tokens[start + 1].kind.Ident?
    ensures AnbAt(tokens, start) == Parsed(None, start)
  {
  }

  /** The `n` continuation on the stream: b from what follows, or 0 and a reset to `fallback`. */
  method ConsumeBAfterN(ts: TokenStream, fallback: nat) returns (b: int)
    requires ts.Valid() && fallback <= ts.length
    modifies ts`position
    ensures ts.Valid()
    ensures BEnd(b, ts.position) == BAfterN(ts.tokens, old(ts.position), fallback)
  {
    var _ := ts.SkipWhitespace();
    var t2 := ts.TryConsume();
    if t2.Some? && IsInteger(t2.value, true) {
      return IntVal(t2.value.kind.num);
    } else if t2.Some? && IsSignDelim(t2.value) {
      var _ := ts.SkipWhitespace();
      var t3 := ts.TryConsume();
      if t3.Some? && IsInteger(t3.value, false) {
        return IntVal(t3.value.kind.num) * (if t2.value.kind.delim == '+' then 1 else -1);
      }
    }
    ts.position := fallback;
    return 0;
  }

  /** The `n-` continuation on the stream: a signless integer, or none. */
  method ConsumeSignless(ts: TokenStream) returns (b: Option<int>)
    requires ts.Valid()
    modifies ts`position
    ensures ts.Valid()
    ensures var r := SignlessAfter(ts.tokens, old(ts.position));
      (r.None? ==> b.None?) && (r.Some? ==> b == Some(r.value.b) && ts.position == r.value.pos)
  {
    var _ := ts.SkipWhitespace();
    var t2 := ts.TryConsume();
    if t2.None? || !IsInteger(t2.value, false) {
      return None;
    }
    return Some(-IntVal(t2.value.kind.num));
  }

  /** What follows a: the three spellings, resetting to start when none fits. */
  method ParseAfterA(ts: TokenStream, start: nat, a: int, name: string, fallback: nat) returns (r: Option<AnbNotation>)
    requires ts.Valid() && start < ts.position && fallback <= ts.length
    modifies ts`position
    ensures ts.Valid()
    ensures Parsed(r, ts.position) == AfterA(ts.tokens, start, a, name, old(ts.position), fallback)
  {
    if name == "n" {
      var b := ConsumeBAfterN(ts, fallback);
      return Some(AnbNotation(a, b, ""));
    } else if name == "n-" {
      var b := ConsumeSignless(ts);
      if b.None? {
        ts.position := start;
        return None;
      }
      return Some(AnbNotation(a, b.value, ""));
    }
    var d := DigitsAfter(name, "n-");
    if d.None? {
      ts.position := start;
      return None;
    }
    return Some(AnbNotation(a, -(d.value as int), ""));
  }

  /** `tryParse`: the notation at the stream's position, or none with the position unchanged. */
  method TryParse(ts: TokenStream) returns (r: Option<AnbNotation>)
    requires ts.Valid()
    modifies ts`position
    ensures ts.Valid()
    ensures Parsed(r, ts.position) == AnbAt(ts.tokens, old(ts.position))
  {
    var originalIndex := ts.position;
    var t1 := ts.TryConsume();
    if t1.None? {
      ts.position := originalIndex;
      return None;
    }
    match t1.value.kind
    case Number(num) =>
      if !num.isInt {
        ts.position := originalIndex;
        return None;
      }
      return Some(AnbNotation(0, IntVal(num), ""));
    case Ident(v) =>
      var ident := Lower(v);
      if ident == "odd" || ident == "even" {
        return Some(AnbNotation(2, if ident == "odd" then 1 else 0, ident));
      } else if ident != [] && ident[0] == '-' {
        r := ParseAfterA(ts, originalIndex, -1, ident[1..], originalIndex + 1);
        return r;
      }
      ts.position := originalIndex;
      return None;
    case Dimension(num, unit) =>
      r := ParseAfterA(ts, originalIndex, IntVal(num), Lower(unit), originalIndex + 1);
      return r;
    case Delim(c) =>
      if c != '+' {
        ts.position := originalIndex;
        return None;
      }
      var t2 := ts.TryConsume();
      if t2.None? || !t2.value.kind.Ident? {
        ts.position := originalIndex;
        return None;
      }
      r := ParseAfterA(ts, originalIndex, 1, Lower(t2.value.kind.value), originalIndex + 2);
      return r;
    case _ =>
      ts.position := originalIndex;
      return None;
  }
}
