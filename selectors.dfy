/**
 * The selector syntax tree (Selectors Level 4, sections 4 to 16) as one
 * closed datatype, with the `__toString` of every selector class.
 */
module Selectors {
  import opened Wrappers
  import opened Chars
  import opened Tokens
  import QualifiedNames
  import AnbNotations

  /** The combinators between the units of a complex selector. */
  datatype Combinator = Descendant | Child | NextSibling | SubsequentSibling | Column

  /** The text each combinator is written and printed with. */
  function CombinatorText(c: Combinator): (r: string)
    ensures |r| >= 1
  {
    match c
    case Descendant => " "
    case Child => ">"
    case NextSibling => "+"
    case SubsequentSibling => "~"
    case Column => "||"
  }

  /** The attribute matchers. */
  datatype AttrMatcher = Exists | Exact | Includes | Prefix | Suffix | Substring | Hyphen

  function MatcherText(m: AttrMatcher): string
  {
    match m
    case Exists => ""
    case Exact => "="
    case Includes => "~="
    case Prefix => "^="
    case Suffix => "$="
    case Substring => "*="
    case Hyphen => "|="
  }

  /**
   * Every selector class. The pseudo-classes keep their lower-case name;
   * `Input` stands for the input pseudo-classes (disabled, enabled, required,
   * optional, read-write, read-only, checked, indeterminate), `ChildIndexed`
   * for first-, last-, only-, nth- and nth-last-child, `TypedChildIndexed`
   * for their -of-type forms.
   */
  datatype Selector =
    | Type(wqName: QualifiedNames.WqName)
    | Id(id: string)
    | Class(className: string)
    | Attribute(attrName: QualifiedNames.WqName, matcher: AttrMatcher, value: string, caseSensitive: Option<bool>)
    | Logical(isAnd: bool, sels: seq<Selector>)
    | Compound(sels: seq<Selector>, ignoreDefaultNamespace: bool)
    | Complex(units: seq<Selector>, combinators: seq<Combinator>)
    | Relative(combinator: Combinator, inner: Selector)
    | Forgiving(sels: seq<Selector>)
    | AnyLink
    | Empty
    | Root
    | Scope
    | Input(name: string)
    | ChildIndexed(name: string, anb: Option<AnbNotations.AnbNotation>, of: Option<Selector>)
    | TypedChildIndexed(name: string, anb: Option<AnbNotations.AnbNotation>)
    | Not(inner: Selector)
    | Has(inner: Selector)
    | IsWhere(name: string, inner: Selector)
    | UnknownPseudoClass(name: string, isFunctional: bool, args: seq<Token>)
    | PseudoElement(name: string, isFunctional: bool, args: seq<Token>)
    | LegacyPseudoElement(name: string)

  /**
   * The constructor assertions of the complex selector, at every depth: at
   * least two units and one combinator fewer than units.
   */
  predicate WellFormed(s: Selector)
    ensures WellFormed(s) && s.Complex? ==> |s.combinators| >= 1
    decreases s
  {
    match s
    case Logical(_, sels) => AllWellFormed(sels)
    case Compound(sels, _) => AllWellFormed(sels)
    case Complex(units, combinators) => |units| >= 2 && |units| == |combinators| + 1 && AllWellFormed(units)
    case Relative(_, inner) => WellFormed(inner)
    case Forgiving(sels) => AllWellFormed(sels)
    case ChildIndexed(_, _, of) => of.None? || WellFormed(of.value)
    case Not(inner) => WellFormed(inner)
    case Has(inner) => WellFormed(inner)
    case IsWhere(_, inner) => WellFormed(inner)
    case _ => true
  }

  predicate AllWellFormed(sels: seq<Selector>)
    decreases sels
  {
    forall i :: 0 <= i < |sels| ==> WellFormed(sels[i])
  }

  /** `ltrim`: the leading spaces, tabs, line feeds, carriage returns, NULs and vertical tabs go. */
  function LeftTrim(s: string): (r: string)
    ensures |r| <= |s| && r == s[|s| - |r|..]
    ensures r != [] ==> !IsTrimmed(r[0])
    ensures forall i :: 0 <= i < |s| - |r| ==> IsTrimmed(s[i])
  {
    if s != [] && IsTrimmed(s[0]) then LeftTrim(s[1..]) else s
  }

  predicate IsTrimmed(c: char)
  {
    c == ' ' || c == '\t' || c == '\n' || c == '\r' || c == '\0' || c == '\U{000B}'
  }

  /** The quoted, escaped attribute value with its case modifier, as printed inside the brackets. */
  function ValueText(value: string, caseSensitive: Option<bool>): string
  {
    "\"" + Escape(value, StringChars) + "\""
      + (match caseSensitive case None => "" case Some(b) => if b then " s" else " i")
  }

  /** `__toString` of every selector class. */
  function ToString(s: Selector): (r: string)
    ensures s.Id? ==> |r| > |s.id| && r[0] == '#'
    ensures s.Class? ==> |r| > |s.className| && r[0] == '.'
    ensures s.Attribute? ==> |r| >= 2 && r[0] == '[' && r[|r| - 1] == ']'
    decreases s
  {
    match s
    case Type(w) => QualifiedNames.ToString(w)
    case Id(id) => "#" + EscapeIdent(id)
    case Class(name) => "." + EscapeIdent(name)
    case Attribute(w, m, v, cs) =>
      "[" + QualifiedNames.ToString(w) + (if m == Exists then "]" else MatcherText(m) + ValueText(v, cs) + "]")
    case Logical(isAnd, sels) => Join(sels, if isAnd then "" else ",")
    case Compound(sels, _) => Join(sels, "")
    case Complex(units, combinators) => if units == [] then "" else ToString(units[0]) + Chain(units[1..], combinators)
    case Relative(c, inner) => LeftTrim(CombinatorText(c) + ToString(inner))
    case Forgiving(sels) => Join(sels, ",")
    case AnyLink => ":any-link"
    case Empty => ":empty"
    case Root => ":root"
    case Scope => ":scope"
    case Input(name) => ":" + name
    case ChildIndexed(name, anb, of) =>
      if anb.None? then ":" + name
      else ":" + name + "(" + AnbNotations.ToString(anb.value) + (if of.Some? then " of " + ToString(of.value) else "") + ")"
    case TypedChildIndexed(name, anb) =>
      if anb.None? then ":" + name else ":" + name + "(" + AnbNotations.ToString(anb.value) + ")"
    case Not(inner) => ":not(" + ToString(inner) + ")"
    case Has(inner) => ":has(" + ToString(inner) + ")"
    case IsWhere(name, inner) => ":" + name + "(" + ToString(inner) + ")"
    case UnknownPseudoClass(name, isFunctional, args) =>
      if isFunctional then ":" + name + "(" + JoinTokens(args) + ")" else ":" + name
    case PseudoElement(name, _, _) => "::" + name
    case LegacyPseudoElement(name) => ":" + name
  }

  /** `implode` of the printed selectors with a separator. */
  function Join(sels: seq<Selector>, sep: string): string
    decreases sels
  {
    if sels == [] then "" else if |sels| == 1 then ToString(sels[0]) else ToString(sels[0]) + sep + Join(sels[1..], sep)
  }

  /** The units after the first, each preceded by the text of its combinator. */
  function Chain(units: seq<Selector>, combinators: seq<Combinator>): string
    decreases units
  {
    if units == [] || combinators == [] then ""
    else CombinatorText(combinators[0]) + ToString(units[0]) + Chain(units[1..], combinators[1..])
  }

  /** The printed argument tokens separated by ", ". */
  function JoinTokens(args: seq<Token>): string
  {
    if args == [] then "" else if |args| == 1 then Tokens.ToString(args[0].kind)
    else Tokens.ToString(args[0].kind) + ", " + JoinTokens(args[1..])
  }
}
