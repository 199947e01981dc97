/**
 * The An+B notation of section 6 of CSS Syntax Module Level 3: which
 * 1-based indices it selects, and its canonical printed form.
 */
module AnbNotations {
  import opened Chars

  /** `a`, `b` and the keyword the notation was written with ("odd", "even" or ""). */
  datatype AnbNotation = AnbNotation(a: int, b: int, keyword: string)

  /** The constructor's assertion: a keyword only goes with its own coefficients. */
  predicate WellFormed(n: AnbNotation)
    ensures WellFormed(n) && n.keyword != "" ==> n.a == 2 && (n.keyword == "odd" <==> n.b == 1)
  {
    n.keyword == "" || (n.keyword == "odd" && n.a == 2 && n.b == 1) || (n.keyword == "even" && n.a == 2 && n.b == 0)
  }

  /** The index the notation gives for the counter value k. */
  function Term(n: AnbNotation, k: nat): int
  {
    n.a * k + n.b
  }

  /**
   * `matches`: no index below 1; with a = 0 only b; otherwise a must divide
   * index - b with a non-negative quotient. Only divisibility is tested with
   * the remainder, so the sign convention of `%` does not matter here.
   */
  function Matches(n: AnbNotation, index: int): (r: bool)
    ensures r ==> index >= 1
    ensures index >= 1 && index == n.b ==> r
    ensures index >= 1 && n.a != 0 && index == n.a + n.b ==> r
  {
    if index <= 0 then false
    else if n.a == 0 then index == n.b
    else (index - n.b) % n.a == 0 && (index - n.b) / n.a >= 0
  }

  /** The quotient of an exact division is the factor. */
  lemma ExactQuotient(a: int, k: int)
    requires a != 0
    ensures (a * k) % a == 0 && (a * k) / a == k
  {
    var x := a * k;
    var q, r := x / a, x % a;
    assert x == a * q + r;
    assert a * (k - q) == r;
    MulBound(a, k - q);
  }

  /** A nonzero multiple of a is at least |a| in magnitude. */
  lemma MulBound(a: int, m: int)
    requires a != 0
    ensures m != 0 ==> (if a < 0 then -a else a) <= (if a * m < 0 then -(a * m) else a * m)
  {
    if m > 0 && a > 0 {
      assert a * m >= a * 1;
    } else if m > 0 {
      assert a * m <= a * 1;
    } else if m < 0 && a > 0 {
      assert a * m <= a * -1;
    } else if m < 0 {
      assert a * m >= a * -1;
    }
  }

  /** An index matches exactly when it is at least 1 and equals a*k + b for some k >= 0. */
  lemma MatchesMeaning(n: AnbNotation, index: int)
    ensures Matches(n, index) <==> index >= 1 && exists k: nat :: Term(n, k) == index
  {
    if index >= 1 && n.a != 0 {
      var d := index - n.b;
      if d % n.a == 0 && d / n.a >= 0 {
        var k: nat := d / n.a;
        assert d == n.a * k + d % n.a;
        assert Term(n, k) == index;
      }
      if exists k: nat :: Term(n, k) == index {
        var k: nat :| Term(n, k) == index;
        assert d == n.a * k;
        ExactQuotient(n.a, k);
      }
    } else if index >= 1 {
      if exists k: nat :: Term(n, k) == index {
        var k: nat :| Term(n, k) == index;
        assert Term(n, k) == n.b;
      }
      assert Term(n, 0) == n.b;
    }
  }

  /** A positive a selects b and what follows it, a negative a b and what precedes it. */
  lemma MatchesDirection(n: AnbNotation, index: int)
    requires Matches(n, index)
    ensures index >= 1
    ensures n.a > 0 ==> index >= n.b
    ensures n.a < 0 ==> index <= n.b
  {
    MatchesMeaning(n, index);
    var k: nat :| Term(n, k) == index;
    if n.a > 0 {
      assert n.a * k >= 0;
    } else if n.a < 0 {
      assert n.a * k <= 0;
    }
  }

  /** `-n+b` selects exactly the first b indices. */
  lemma MinusNSelectsFirst(n: AnbNotation, index: int)
    requires n.a == -1
    ensures Matches(n, index) <==> 1 <= index <= n.b
  {
    MatchesMeaning(n, index);
    if 1 <= index <= n.b {
      var k: nat := n.b - index;
      assert Term(n, k) == index;
    }
  }

  /** `odd` selects the odd indices and `even` the even ones from 2 on. */
  lemma OddEvenSelect(index: int)
    ensures Matches(AnbNotation(2, 1, "odd"), index) <==> index >= 1 && index % 2 == 1
    ensures Matches(AnbNotation(2, 0, "even"), index) <==> index >= 2 && index % 2 == 0
  {
  }

  /** The `an` part: "n", "-n" or the decimal of a followed by 'n'. */
  function APart(a: int): string
  {
    if a == 1 then "n" else if a == -1 then "-n" else IntToString(a) + "n"
  }

  /** The `+b` part: nothing for 0, '+' before a positive b, the decimal of a negative b. */
  function BPart(b: int): string
  {
    if b == 0 then "" else if b > 0 then "+" + IntToString(b) else IntToString(b)
  }

  /** `__toString`: the keyword if there is one, b alone when a = 0, else an then b. */
  function ToString(n: AnbNotation): (r: string)
    ensures r != []
    ensures n.keyword == "" && n.a != 0 ==> 'n' in r
  {
    if n.keyword != "" then n.keyword
    else if n.a == 0 then IntToString(n.b)
    else APart(n.a) + BPart(n.b)
  }

  /** A printed integer is an optional leading '-' followed by digits. */
  lemma IntToStringChars(i: int)
    ensures var s := IntToString(i);
      forall k :: 0 <= k < |s| ==> IsDigit(s[k]) || (k == 0 && s[k] == '-')
  {
    var d := DecimalDigits(if i < 0 then -i else i);
    if i < 0 {
      var s := IntToString(i);
      assert s == "-" + d;
      assert forall k :: 1 <= k < |s| ==> s[k] == d[k - 1];
    }
  }

  /** Different integers print differently. */
  lemma IntToStringInjective(x: int, y: int)
    requires IntToString(x) == IntToString(y)
    ensures x == y
  {
    var sx, sy := IntToString(x), IntToString(y);
    if x < 0 {
      assert DecimalDigits(-x) == sx[1..] == sy[1..] == DecimalDigits(-y);
      DecimalRoundTrip(-x);
      DecimalRoundTrip(-y);
    } else {
      DecimalRoundTrip(x);
      DecimalRoundTrip(y);
    }
  }

  /** The `an` part ends in its only 'n'; before it stands the printed a, unless a is 1 or -1. */
  lemma APartShape(a: int)
    requires a != 0
    ensures var s := APart(a);
      |s| >= 1 && s[|s| - 1] == 'n' && forall k :: 0 <= k < |s| - 1 ==> s[k] != 'n'
    ensures a != 1 && a != -1 ==> APart(a)[..|APart(a)| - 1] == IntToString(a) && |IntToString(a)| >= 1
  {
    IntToStringChars(a);
    var s := APart(a);
    if a != 1 && a != -1 {
      assert s[..|s| - 1] == IntToString(a);
      assert forall k :: 0 <= k < |s| - 1 ==> s[k] == IntToString(a)[k];
    }
  }

  /** The `+b` part: empty for 0, else a sign or digit first and digits only after its first character. */
  lemma BPartChars(b: int)
    ensures var s := BPart(b);
      (s == [] <==> b == 0) && forall k :: 0 <= k < |s| ==> IsDigit(s[k]) || (k == 0 && (s[k] == '-' || s[k] == '+'))
    ensures b != 0 ==> (BPart(b)[0] == '+' <==> b > 0)
  {
    IntToStringChars(b);
    if b > 0 {
      var s := BPart(b);
      assert s == "+" + IntToString(b);
      assert forall k :: 1 <= k < |s| ==> s[k] == IntToString(b)[k - 1];
    }
  }

  /** Where the first 'n' of a printed `an+b` stands: the end of the `an` part. */
  lemma FirstN(x: string, y: string)
    requires |x| >= 1 && x[|x| - 1] == 'n' && (forall k :: 0 <= k < |x| - 1 ==> x[k] != 'n')
    ensures var s := x + y; s[|x| - 1] == 'n' && forall k :: 0 <= k < |x| - 1 ==> s[k] != 'n'
  {
  }

  /** The first 'n' splits a printed `an+b` into its two parts. */
  lemma SplitAtN(x: string, y: string, u: string, v: string)
    requires |x| >= 1 && x[|x| - 1] == 'n' && (forall k :: 0 <= k < |x| - 1 ==> x[k] != 'n')
    requires |u| >= 1 && u[|u| - 1] == 'n' && (forall k :: 0 <= k < |u| - 1 ==> u[k] != 'n')
    requires x + y == u + v
    ensures x == u && y == v
  {
    FirstN(x, y);
    FirstN(u, v);
    var s := x + y;
    assert |x| == |u|;
    assert x == s[..|x|] == u;
    assert y == s[|x|..] == v;
  }

  lemma APartInjective(a: int, c: int)
    requires a != 0 && c != 0 && APart(a) == APart(c)
    ensures a == c
  {
    APartShape(a);
    APartShape(c);
    IntToStringChars(a);
    IntToStringChars(c);
    if a != 1 && a != -1 && c != 1 && c != -1 {
      IntToStringInjective(a, c);
    }
  }

  lemma BPartInjective(b: int, d: int)
    requires BPart(b) == BPart(d)
    ensures b == d
  {
    BPartChars(b);
    BPartChars(d);
    var s := BPart(b);
    if b > 0 && d > 0 {
      assert IntToString(b) == s[1..] == IntToString(d);
      IntToStringInjective(b, d);
    } else if b < 0 && d < 0 {
      IntToStringInjective(b, d);
    }
  }

  /** The last character of a keyword-free print: 'n' exactly when a != 0 and b = 0, else a digit. */
  lemma PrintEnd(m: AnbNotation)
    requires m.keyword == ""
    ensures var s := ToString(m);
      |s| >= 1 && (s[|s| - 1] == 'n' || IsDigit(s[|s| - 1]))
      && (s[|s| - 1] == 'n' <==> m.a != 0 && m.b == 0)
  {
    IntToStringChars(m.b);
    BPartChars(m.b);
    if m.a != 0 {
      APartShape(m.a);
      var s := ToString(m);
      if m.b != 0 {
        assert s[|s| - 1] == BPart(m.b)[|BPart(m.b)| - 1];
      }
    }
  }

  /** A printed keyword is never the print of a keyword-free notation. */
  lemma KeywordsStandApart(n: AnbNotation, m: AnbNotation)
    requires WellFormed(n) && n.keyword != "" && m.keyword == ""
    ensures ToString(n) != ToString(m)
  {
    PrintEnd(m);
    if m.a != 0 && m.a != 1 && m.a != -1 {
      APartShape(m.a);
      IntToStringChars(m.a);
      assert ToString(m)[0] == IntToString(m.a)[0] || m.b != 0;
    }
  }

  /**
   * The printer is canonical: two well-formed notations that print the same
   * have the same coefficients (and so select the same indices).
   */
  lemma ToStringDeterminesCoefficients(n: AnbNotation, m: AnbNotation)
    requires WellFormed(n) && WellFormed(m)
    requires ToString(n) == ToString(m)
    ensures n.a == m.a && n.b == m.b
  {
    if n.keyword != "" && m.keyword == "" {
      KeywordsStandApart(n, m);
    } else if m.keyword != "" && n.keyword == "" {
      KeywordsStandApart(m, n);
    } else if n.keyword == "" && m.keyword == "" {
      PrintEnd(n);
      PrintEnd(m);
      IntToStringChars(n.b);
      IntToStringChars(m.b);
      if n.a == 0 && m.a == 0 {
        IntToStringInjective(n.b, m.b);
      } else if n.a != 0 && m.a != 0 {
        APartShape(n.a);
        APartShape(m.a);
        BPartChars(n.b);
        BPartChars(m.b);
        SplitAtN(APart(n.a), BPart(n.b), APart(m.a), BPart(m.b));
        APartInjective(n.a, m.a);
        BPartInjective(n.b, m.b);
      } else {
        var z, o := if n.a == 0 then n else m, if n.a == 0 then m else n;
        APartShape(o.a);
        FirstN(APart(o.a), BPart(o.b));
      }
    }
  }

  /** The notation 2n+1 written out. */
  lemma TwoNPlusOne(n: AnbNotation)
    requires n == AnbNotation(2, 1, "")
    ensures ToString(n) == "2n+1"
  {
    assert IntToString(2) == "2" && IntToString(1) == "1";
  }

  /** b alone when a is 0, with its sign when negative. */
  lemma ConstantRenderings()
    ensures ToString(AnbNotation(0, 1, "")) == "1"
    ensures ToString(AnbNotation(0, -2, "")) == "-2"
  {
    assert IntToString(-2) == "-" + DecimalDigits(2);
  }

  /** A coefficient of 1 or -1 prints as n or -n, and b = 0 prints nothing. */
  lemma UnitRenderings()
    ensures ToString(AnbNotation(1, 0, "")) == "n"
    ensures ToString(AnbNotation(-1, 0, "")) == "-n"
    ensures ToString(AnbNotation(1, 1, "")) == "n+1"
    ensures ToString(AnbNotation(-1, -2, "")) == "-n-2"
  {
    assert IntToString(1) == "1";
    assert IntToString(-2) == "-2";
  }

  /** Other coefficients print in decimal before the n. */
  lemma ScaledRenderings()
    ensures ToString(AnbNotation(3, -4, "")) == "3n-4"
    ensures ToString(AnbNotation(-3, 0, "")) == "-3n"
  {
    assert IntToString(3) == "3" && IntToString(-4) == "-4" && IntToString(-3) == "-3";
  }

  /** A keyword prints as itself. */
  lemma KeywordRenderings()
    ensures ToString(AnbNotation(2, 0, "even")) == "even"
    ensures ToString(AnbNotation(2, 1, "odd")) == "odd"
  {
  }
}
