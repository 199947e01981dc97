# cici selector engine, modelled in Dafny

This project models the core of cici, a PHP engine that parses CSS
selectors and matches them against a DOM tree. It covers four parts.

- **Cursors and tokenizer.** `TextStream` preprocesses the input and
  walks over it character by character. `Tokenizer` turns the text into
  tokens, following section 4 of CSS Syntax Module Level 3. `TokenStream`
  walks over the token list. All three share one collection of parse
  errors, `ParseExceptionCollection`.
- **The An+B micro-grammar** (section 6 of CSS Syntax Module Level 3):
  `AnbParser` parses it and `AnbNotation` evaluates and prints it.
- **The selector parser.** `SelectorParser` and `PseudoSelectorParser`
  implement the grammar of Selectors Level 4: compound, complex,
  relative and forgiving lists, attribute selectors and pseudo-classes.
  `WqName` is the qualified name they build.
- **The selector tree and matching.** Each selector class has a
  `matches` method and a `__toString` printer. `DomNodeMatchContext`
  supplies the tree walks, attribute lookup, namespace tests and form
  control state.

The code that changes state in place is modelled as classes whose
methods change their fields:

- `TextStreams.TextStream` and `TokenStreams.TokenStream` keep a
  position and a shared `Errors.ErrorLog`;
- `Errors.ErrorLog` is the exception collection.

The tokenizer and parser routines are methods over these streams. The
routines with loops keep their loops, and each loop carries its
invariants. Each such method is proved equal to a pure specification
function of the input and the old position:

- `Lexing` for the tokenizer;
- `SelectorScans` and `SelectorGrammar` for the parser;
- `AnbParsing.AnbAt` for An+B.

The lemma modules prove what the source promises about those functions:

- `TokenLaws`, `TokenPrinting` and `Tokenizer` cover escapes, the string
  round trip and token printing.
- `SelectorScanLaws` and `SelectorGrammarLaws` cover the parser's tables,
  its error cases and how positions are kept or given back.
- `SelectorPrinting` and `QualifiedNames` cover printing.
- `AnbNotations` covers the meaning of `matches` and a canonical printer.
- `MatchingLaws`, `SelectorLaws`, `PseudoClassLaws` and `CombinatorLaws`
  cover matching.

The pure parts of the source are datatypes and functions:

- `Tokens` for the tokens and their printers;
- `Selectors` and `Matching` for the selector tree and `matches`;
- `Trees` and `MatchContexts` for the DOM and the match context.

The DOM is an abstract finite tree. A node is addressed by the path of
child indices from the top node. The walks of `DomNodeMatchContext` that
loop are methods in `DomWalks`, proved equal to functions on that tree.

Text is a sequence of code points. I/O, PHP's DOM classes and PCRE do
not appear: each regular expression the source uses is written out as a
predicate or a scan function (`Scan`, `Chars`).

## Model

| member | source | states |
|---|---|---|
| AnbNotations.WellFormed | src/Matching/AnbNotation.php:24-34 | The constructor's assertion: a keyword goes with a = 2, and `odd` exactly with b = 1. |
| AnbNotations.Matches | src/Matching/AnbNotation.php:43-53 | `matches` selects only indices of 1 or more, always selects b when it is one, and with a non-zero a also selects a + b. |
| AnbNotations.ToString | src/Matching/AnbNotation.php:80-99 | The printed form is never empty and, without a keyword and with a non-zero a, holds an `n`. |
| AnbNotations.MatchesMeaning | src/Matching/AnbNotation.php:43-53 | An index matches exactly when it is at least 1 and equals a*k + b for some k >= 0. |
| AnbNotations.MatchesDirection | src/Matching/AnbNotation.php:43-53 | A positive a selects b and what follows it, a negative a b and what precedes it. |
| AnbNotations.MinusNSelectsFirst | src/Matching/AnbNotation.php:43-53 | `-n+b` selects exactly the first b indices. |
| AnbNotations.OddEvenSelect | src/Parsing/AnbParser.php:44-47 | `odd` selects the odd indices and `even` the even ones from 2 on. |
| AnbNotations.IntToStringChars | src/Matching/AnbNotation.php:80-99 | A printed integer is an optional leading '-' followed by digits. |
| AnbNotations.IntToStringInjective | src/Matching/AnbNotation.php:80-99 | Different integers print differently. |
| AnbNotations.APartShape | src/Matching/AnbNotation.php:80-99 | The `an` part ends in its only 'n'; before it stands the printed a, unless a is 1 or -1. |
| AnbNotations.BPartChars | src/Matching/AnbNotation.php:80-99 | The `+b` part: empty for 0, else a sign or digit first and digits only after its first character. |
| AnbNotations.APartInjective | src/Matching/AnbNotation.php:80-99 | Two nonzero coefficients whose `an` parts print alike are equal. |
| AnbNotations.BPartInjective | src/Matching/AnbNotation.php:80-99 | Two constants whose `+b` parts print alike are equal. |
| AnbNotations.PrintEnd | src/Matching/AnbNotation.php:80-99 | The last character of a keyword-free print: 'n' exactly when a != 0 and b = 0, else a digit. |
| AnbNotations.KeywordsStandApart | src/Matching/AnbNotation.php:80-99 | A printed keyword is never the print of a keyword-free notation. |
| AnbNotations.ToStringDeterminesCoefficients | src/Matching/AnbNotation.php:80-99 | The printer is canonical: two well-formed notations that print the same have the same coefficients (and so select the same indices). |
| AnbNotations.TwoNPlusOne | src/Matching/AnbNotation.php:80-99 | The notation 2n+1 written out. |
| AnbNotations.ConstantRenderings | tests/unit-tests/Parsing/AnbNotationTest.php:30-31 | b alone when a is 0, with its sign when negative. |
| AnbNotations.UnitRenderings | tests/unit-tests/Parsing/AnbNotationTest.php:32-35 | A coefficient of 1 or -1 prints as n or -n, and b = 0 prints nothing. |
| AnbNotations.ScaledRenderings | tests/unit-tests/Parsing/AnbNotationTest.php:36-37 | Other coefficients print in decimal before the n. |
| AnbNotations.KeywordRenderings | tests/unit-tests/Parsing/AnbNotationTest.php:38-39 | A keyword prints as itself. |
| AnbParsing.DigitsAfter | src/Parsing/AnbParser.php:76-78 | `preg_match('/^<prefix>\d+$/', s)` and then `intval` of what follows the prefix: ASCII digits after the prefix, to the end or to a final line feed (PCRE's `$` also matches before one). |
| AnbParsing.BAfterN | src/Parsing/AnbParser.php:88-102 | After `n` (or `-n`): optional whitespace, then a signed integer as b, or a sign delimiter, optional whitespace and a signless integer as +-b. Anything else leaves b = 0 and the stream at `fallback`. |
| AnbParsing.SignlessAfter | src/Parsing/AnbParser.php:105-113 | After `n-` (or `-n-`): optional whitespace and a signless integer, whose negation is b. |
| AnbParsing.AfterA | src/Parsing/AnbParser.php:86-121 | The three spellings that follow `a`: `n` with an optional b, `n-` then digits, `n-<digits>`. |
| AnbParsing.AnbAt | src/Parsing/AnbParser.php:26-171 | `tryParse` from start: the notation and the position it leaves, or none and start. |
| AnbParsing.OddEven | src/Parsing/AnbParser.php:42-47 | The keywords, in any case, give (2, 1, odd) and (2, 0, even) and take one token. |
| AnbParsing.NumberAlone | src/Parsing/AnbParser.php:33-41 | A number token is b alone when it is an integer; any other number fails. |
| AnbParsing.DigitsAfterReads | src/Parsing/AnbParser.php:114-116 | `n-<digits>` after a sign or a number reads back the digits: b is their negation. |
| AnbParsing.AfterADigits | src/Parsing/AnbParser.php:114-116 | After a, the name `n-<digits>` gives b = -digits and reads nothing more. |
| AnbParsing.DashNDigits | src/Parsing/AnbParser.php:76-78 | The single token `-n-<digits>` gives a = -1 and b = -digits, and nothing more is read. |
| AnbParsing.DimensionNDigits | src/Parsing/AnbParser.php:114-116 | The single dimension `<a>n-<digits>` gives that a and b = -digits. |
| AnbParsing.DimensionNStops | src/Parsing/AnbParser.php:86-102 | `<a>n` followed by what cannot continue it still parses, as a with b = 0, and the stream is left just after the dimension. |
| AnbParsing.DimensionNSigned | src/Parsing/AnbParser.php:88-91 | `<a>n` with a signed integer after optional whitespace: that integer is b. |
| AnbParsing.DimensionNDashNeedsInteger | src/Parsing/AnbParser.php:103-113 | `<a>n-` needs a signless integer after optional whitespace; without one the parse fails. |
| AnbParsing.PlusN | src/Parsing/AnbParser.php:122-146 | `+n`: a = 1, and a broken continuation leaves the stream after the two tokens. |
| AnbParsing.PlusNeedsIdent | src/Parsing/AnbParser.php:122-129 | Rollback: a '+' must be followed at once by an ident. |
| AnbParsing.ConsumeBAfterN | src/Parsing/AnbParser.php:88-102 | The `n` continuation on the stream: b from what follows, or 0 and a reset to `fallback`. Proved equal to `AnbParsing.BAfterN`: the same b and the same new position. |
| AnbParsing.ConsumeSignless | src/Parsing/AnbParser.php:105-113 | The `n-` continuation on the stream: a signless integer, or none. Proved equal to `AnbParsing.SignlessAfter`: none when it gives none, otherwise its integer and its end position. |
| AnbParsing.ParseAfterA | src/Parsing/AnbParser.php:86-121 | What follows a: the three spellings, resetting to start when none fits. Proved equal to `AnbParsing.AfterA`: the same value or none and the same new position; nothing is logged. |
| AnbParsing.TryParse | src/Parsing/AnbParser.php:26-171 | `tryParse`: the notation at the stream's position, or none with the position unchanged. Proved equal to `AnbParsing.AnbAt`: the same value or none and the same new position; nothing is logged. |
| AttrValues.HyphenMatches | src/Selectors/AttributeSelector.php:97-101 | The hyphen test holds exactly when the value is the expected text, the expected text and one line feed, or starts with the expected text and a '-'. |
| AttrValues.ValueMatches | src/Selectors/AttributeSelector.php:83-115 | A value test other than Exists and Includes never matches a value shorter than the expected text, and an empty expected text matches only with Exists, Exact or Hyphen. |
| AttrValues.AttrValueMatches | src/Selectors/AttributeSelector.php:72-115 | The `s` modifier tests like the default, and on values with no upper-case ASCII letter the `i` modifier changes nothing. |
| AttrValues.Words | src/Selectors/AttributeSelector.php:91 | `preg_split('/\s/', s, -1, PREG_SPLIT_NO_EMPTY)`: the maximal runs of non-space characters, in order. |
| AttrValues.WordsOfWord | src/Selectors/AttributeSelector.php:91 | A string without spaces is a single word, or none when empty. |
| AttrValues.WordsSkipSpaces | src/Selectors/AttributeSelector.php:91 | Spaces in front do not change the words. |
| AttrValues.WordsCons | src/Selectors/AttributeSelector.php:91 | A word followed by a space and more text: the word, then the words of the rest. |
| AttrValues.CaseInsensitiveIgnoresCase | src/Selectors/AttributeSelector.php:76-81 | With the 'i' modifier, values that agree up to ASCII case are treated alike. |
| AttrValues.HyphenMeaning | src/Selectors/AttributeSelector.php:97-101 | The hyphen test holds for the value itself and for the value followed by '-' and anything. |
| AttrValues.IncludesNeedsAWord | src/Selectors/AttributeSelector.php:87-90 | Includes: an expected value that is empty or holds a space never matches. |
| AttrValues.IncludesFindsWords | src/Selectors/AttributeSelector.php:87-95 | Includes accepts each whitespace-separated word of the value. |
| AttrValues.ExactImpliesOthers | src/Selectors/AttributeSelector.php:83-115 | An exact match passes the prefix, suffix and substring tests, unless the value is empty. |
| AttrValues.EmptyExpectedFails | src/Selectors/AttributeSelector.php:104-115 | Prefix, suffix and substring never match an empty expected value. |
| AttrValues.AffixesAreSubstrings | src/Selectors/AttributeSelector.php:104-115 | A prefix or a suffix also occurs as a substring. |
| Chars.Lower | src/Parsing/AnbParser.php:43 | `strtolower`: the same length, each ASCII letter lowered and every other character kept. |
| Chars.ToHex | src/Tokenization/Tokens/AbstractToken.php:45-61 | `strtoupper(dechex(n))`, also `sprintf('%X', n)`: at least one hexadecimal digit, none of them lower case. |
| Chars.HexRoundTrip | src/Tokenization/Tokens/UnicodeRangeToken.php:42-49 | Reading back the printed hexadecimal gives the value. |
| Chars.ToHexCanonical | src/Tokenization/Tokens/UnicodeRangeToken.php:42-49 | The printed hexadecimal has no leading zero. |
| Chars.CodePointHexLength | src/Tokenization/Tokens/AbstractToken.php:45-61 | Every code point prints in at most six hex digits, below U+10000 in at most four. |
| Chars.IntToString | src/Matching/AnbNotation.php:80-99 | `strval` of an integer: at least one character, which is a minus sign exactly when the integer is negative. |
| Chars.IsUnicodeSpace | src/Tokenization/Tokens/UrlToken.php:30 | What `\s` matches under `/u`: the ASCII spaces `\s` matches without it, U+0085, U+00A0, U+1680, U+180E, U+2000 to U+200A, U+2028, U+2029, U+202F, U+205F and U+3000. |
| CombinatorLaws.SiblingLaws | src/Matching/DomNodeMatchContext.php:354-421 | Being siblings is symmetric and transitive. |
| CombinatorLaws.NextSiblingDuality | src/Matching/DomNodeMatchContext.php:354-421 | The next-sibling combinator in both directions: q is the nearest element sibling before p exactly when p is the nearest element sibling after q. |
| CombinatorLaws.CandidatesAreDual | src/Matching/DomNodeMatchContext.php:354-421 | For every combinator but the column, an element q is a left candidate of the element p exactly when p is a right candidate of q. |
| CombinatorLaws.ColumnFailsBothWays | src/Matching/DomNodeMatchContext.php:354-421 | The column combinator fails in both directions. |
| DomWalks.LoopDescendants | src/Matching/DomNodeMatchContext.php:325-346 | `loopDescendants`: the children of the target go on a worklist; each step takes the first node off, yields it and puts its children in front. The nodes yielded are the subtree in document order, the target itself first when asked for. Proved equal to `Trees.Descendants`. |
| DomWalks.LoopAncestors | src/Matching/DomNodeMatchContext.php:281-300 | `loopAncestors`: the `parentNode` walk from the target to the top, the target itself first when asked for and it is an element, a document or a fragment. Proved equal to `Trees.StrictAncestors`. |
| DomWalks.LoopChildren | src/Matching/DomNodeMatchContext.php:308-317 | `loopChildren`: the element children, in order. Proved equal to `Trees.ElementChildren`. |
| DomWalks.LoopPrevElementSiblings | src/Matching/DomNodeMatchContext.php:354-385 | The `previousElementSibling` walk: the element siblings before p, nearest first. Proved equal to `Trees.PrevElementSiblings`. |
| DomWalks.LoopNextElementSiblings | src/Matching/DomNodeMatchContext.php:393-421 | The `nextElementSibling` walk: the element siblings after p, nearest first. Proved equal to `Trees.NextElementSiblings`. |
| DomWalks.LookupAttribute | src/Matching/DomNodeMatchContext.php:50-90 | The attribute loop of `getAttributeValue`: the value of the first attribute the key selects. Proved equal to `MatchContexts.Lookup`. |
| DomWalks.GetAttributeValueWalk | src/Matching/DomNodeMatchContext.php:50-90 | `getAttributeValue` with a qualified name: the prefix check, then the attribute loop. Proved equal to `MatchContexts.GetAttributeValue`. |
| DomWalks.IsEmptyWalk | src/Selectors/PseudoClasses/EmptyPseudoClass.php:30-44 | The `$isEmpty` loop of `:empty`: it stops at the first node below p that is neither a comment nor unsupported. Proved equal to `Matching.IsEmptyNode`. |
| DomWalks.HasCheckedMember | src/Selectors/PseudoClasses/InputPseudoClass.php:86-96 | The `$hasChecked` loop of `:indeterminate`: some member of the group carries `checked`. Proved to be the negation of `Matching.NoneChecked`. |
| DomWalks.TypedSiblingsWalk | src/Selectors/PseudoClasses/TypedChildIndexedPseudoClass.php:44-51 | The children loop of `TypedChildIndexedPseudoClass::matches`: the siblings of p's own element type, in order. Proved equal to `Matching.TypedSiblings`. |
| DomWalks.RadioOwnerWalk | src/Matching/DomNodeMatchContext.php:122-161 | The ancestor loop of `getRadioButtonGroup`: the first HTML form met walking up is the owner, the last node met is the topmost; a node with no ancestors has no owner. Proved equal to `FormControls.RadioOwner`. |
| DomWalks.RadioButtonGroupWalk | src/Matching/DomNodeMatchContext.php:122-161 | `getRadioButtonGroup`: the target alone when it has no name or no ancestor; otherwise the descendant loop over its form owner keeps the HTML radio inputs of that name. Proved equal to `FormControls.RadioButtonGroup`. |
| Errors.ErrorLog.constructor | src/Exceptions/ParseExceptionCollection.php:17 | A new collection holds no errors. |
| Errors.ErrorLog.Add | src/Exceptions/ParseExceptionCollection.php:24-27 | Appends one error; the earlier ones keep their places. |
| Errors.ErrorLog.Get | src/Exceptions/ParseExceptionCollection.php:36-43 | The error at a zero-based index, or the out-of-range failure. |
| FormControls.IsActuallyDisabled | src/Matching/DomNodeMatchContext.php:167-226 | `isActuallyDisabled` holds only of HTML buttons, inputs, selects, textareas, fieldsets, optgroups and options. |
| FormControls.IsReadWritable | src/Matching/DomNodeMatchContext.php:247-273 | `isReadWritable` holds only of HTML elements, and never of an input or textarea that is disabled or read-only. |
| FormControls.FirstLegend | src/Matching/DomNodeMatchContext.php:189-197 | The first HTML legend among the element children of a node: a child that is an HTML legend, or none when no element child is one. |
| FormControls.FormAncestor | src/Matching/DomNodeMatchContext.php:122-161 | The nearest HTML form among the strict ancestors of p: an ancestor that is a form with no form between it and p, or none when no ancestor is a form. |
| FormControls.RadioOwner | src/Matching/DomNodeMatchContext.php:122-161 | The form owner of a radio button: its nearest HTML form ancestor, else the topmost ancestor, the top of the tree; the top node has no owner. |
| FormControls.RadioButtonGroup | src/Matching/DomNodeMatchContext.php:122-161 | `getRadioButtonGroup`: the target alone when it has no name or no ancestor; otherwise every radio input of that name in the subtree of its form owner, in document order. |
| Lexing.CanStartIdentSeq | src/Tokenization/Tokenizer.php:49 | The `canStartIdentSeq` test: when it holds a character is there, and it is '-', a backslash or an ident-start code point. |
| Lexing.CanStartHash | src/Tokenization/Tokenizer.php:50 | The `canStartHash` test: when it holds a character is there, and whatever can start an ident sequence can also start a hash name. |
| Lexing.CommentsAsWritten | src/Tokenization/Tokenizer.php:62-76 | `consumeComments` as the source writes it, and as the tokenizer runs it: while an opener (slash, star) is next, the search for the closer (star, slash) starts at the opening slash, so slash-star-slash counts as a whole comment. The skip ends within the text and never before another opener; an unterminated comment logs exactly one error, "Unterminated comment.", and moves to the end. |
| Lexing.Comments | src/Tokenization/Tokenizer.php:62-76 | The corrected comment skip, with the search for the closer starting after the opener, as section 4.3.2 of CSS Syntax Module Level 3 states. The same guarantees: it ends within the text and never before another opener, and an unterminated comment logs exactly one error and moves to the end. |
| Lexing.SelfClosingCommentAsWritten | src/Tokenization/Tokenizer.php:62-76 | On `/*/a*/b` the comments as written stop after three characters, leaving `a*/b` to be tokenized; with the corrected search they stop after six, before the `b`. |
| Lexing.CommentHasOpenerAndCloser | src/Tokenization/Tokenizer.php:62-76 | A closed comment spans its opener and a closer after it: at least four characters. |
| Lexing.CommentEndsAtFirstCloser | src/Tokenization/Tokenizer.php:62-76 | With the corrected search a comment ends at the first closer that starts two or more characters after its opener: the skip goes on right after that closer. |
| Lexing.CommentsAgree | src/Tokenization/Tokenizer.php:62-76 | The two searches differ only on slash-star-slash: on a text that never contains it, the comments as written and the corrected comments end at the same position with the same errors. |
| Lexing.EscapedCodePoint | src/Tokenization/Tokenizer.php:86-124 | `consumeEscapedCodePoint`, called after the backslash: one to six hex digits and one optional whitespace give the code point (U+FFFD and an error for 0, a surrogate or a value above U+10FFFF); at the end of the input U+FFFD and an error; otherwise the next character itself. |
| Lexing.IdentSequence | src/Tokenization/Tokenizer.php:166-189 | `consumeIdentSequence`: runs of ident code points and valid escapes, as long as there are any. |
| Lexing.StringStep | src/Tokenization/Tokenizer.php:199-250 | One round of the string loop at pos: up to the next quote, newline or backslash. |
| Lexing.StringBody | src/Tokenization/Tokenizer.php:199-250 | The body of a string after its opening quote, up to and including the closing one. |
| Lexing.StringToken | src/Tokenization/Tokenizer.php:199-250 | `consumeStringToken`, called just after the opening quote: a string or a bad-string token that starts at the quote and ends where the scan stops, never past the text. |
| Lexing.BadUrlRemnants | src/Tokenization/Tokenizer.php:546-551 | `consumeRemnantsOfBadUrl`: just past the next ')' that is not preceded by a backslash, or the end. |
| Lexing.UrlStep | src/Tokenization/Tokenizer.php:261-324 | One round of the URL loop at pos: up to the next character that stops an unquoted URL. |
| Lexing.UrlBody | src/Tokenization/Tokenizer.php:261-324 | The body of an unquoted URL, up to and including its closing parenthesis: a URL or a bad-URL token, ending within the text. |
| Lexing.UrlToken | src/Tokenization/Tokenizer.php:261-324 | `consumeUrlToken`: leading whitespace, then the body; the token starts at `offset`. |
| Lexing.IdentLike | src/Tokenization/Tokenizer.php:133-157 | `consumeIdentLikeToken`: an ident sequence, then `url(` (a Function when a quote follows the whitespace, else an unquoted URL), another function name, or a plain ident. |
| Lexing.IdentLikeAfter | src/Tokenization/Tokenizer.php:133-157 | What follows the ident sequence s read from pos: "url(" before a quote is a Function token, "url(" otherwise a URL, another "(" a Function, nothing an Ident; with the errors logged after the sequence. |
| Lexing.MantissaAt | src/Tokenization/Tokenizer.php:356-371 | The digits of a number: none exactly when no digit, or no '.' and a digit, is next; otherwise an integer part of digits and, when a fraction follows, a '.' and at least one digit. |
| Lexing.ExponentAt | src/Tokenization/Tokenizer.php:356-371 | The exponent of a number: an 'e' or 'E', an optional sign and at least one digit; it is negative exactly when the sign is '-'. |
| Lexing.NumberSpan | src/Tokenization/Tokenizer.php:356-371 | The parts of a number literal: an optional sign, the mantissa right after it, the exponent after the mantissa; none exactly when no mantissa follows the sign. |
| Lexing.NumberToken | src/Tokenization/Tokenizer.php:356-371 | `tryConsumeNumberToken`: the number literal at pos, if any. Its digits and exponent give its exact decimal value (`digits` times ten to the `exponent`). |
| Lexing.NumberLiteral | src/Tokenization/Tokenizer.php:356-371 | The number whose literal the number scan found at pos: its text is exactly the characters of that literal. |
| Lexing.NumberFlags | src/Tokenization/Tokenizer.php:356-371 | A number is an integer iff its literal has no '.', 'e' or 'E'; it is signed iff it starts with a sign. |
| Lexing.NumericToken | src/Tokenization/Tokenizer.php:380-413 | `tryConsumeNumericToken`: a number, then a unit (Dimension), a '%' (Percentage) or nothing. |
| Lexing.NumericSuffix | src/Tokenization/Tokenizer.php:380-413 | What follows the number `n` read at pos: a unit, a percent sign or nothing; the scan never moves back past the number. |
| Lexing.HashToken | src/Tokenization/Tokenizer.php:423-436 | `tryConsumeHashToken`, called just after the number sign: none exactly when no hash can start there; otherwise a hash token from the number sign to the new position, of the id type exactly when an ident sequence starts after the sign. |
| Lexing.SymbolToken | src/Tokenization/Tokenizer.php:445-477 | `tryConsumeSymbolToken`: a one-character symbol, "-->" or "<!--"; otherwise nothing moves. |
| Lexing.UnicodeRangeToken | src/Tokenization/Tokenizer.php:486-518 | `tryConsumeUnicodeRangeToken`: 'U+' and a first segment of up to six hex digits and '?'s. With a '?' the range runs from the segment with '?' as 0 to the segment with '?' as F; otherwise an optional `-HEX` gives the end, which defaults to the start. |
| Lexing.WildcardRange | src/Tokenization/Tokenizer.php:486-518 | The range of a first segment containing '?': a UnicodeRange token from the start of `U+` to the end of the segment, with no errors. |
| Lexing.ExplicitRange | src/Tokenization/Tokenizer.php:486-518 | The range of a hex-only first segment: a UnicodeRange token from the start of `U+` that ends at or after the segment (after the `-HEX` end when one follows), with no errors. |
| Lexing.WhitespaceToken | src/Tokenization/Tokenizer.php:527-539 | `tryConsumeWhitespaceToken`: one token for a maximal run of space, tab and LF. |
| Lexing.ConvertToToken | src/Tokenization/Tokenizer.php:561-640 | `convertToToken`: one token that starts at pos and ends within the text; it consumes at least one character unless a lone backslash ends the text there. |
| Lexing.CharToken | src/Tokenization/Tokenizer.php:561-640 | The rest of `convertToToken`: the token chosen by the character at pos alone. |
| Lexing.NameOrDelimToken | src/Tokenization/Tokenizer.php:561-640 | The rest of the character dispatch: ident-like tokens, at-keywords and the remaining delimiters. |
| Lexing.TokensFrom | src/Tokenization/Tokenizer.php:334-347 | `convertToTokenStream` from pos, with comments skipped as the source searches for them: comments, then one token, until the end. It is defined exactly when `Lexing.Tokenizes` holds, that is, when no token would start at a final lone backslash, and it always ends at the end of the text. |
| Lexing.TokensFromOffsets | src/Tokenization/Tokenizer.php:334-347 | Every token read from pos on, with comments skipped as the source does, starts inside the text at pos or later. |
| Lexing.NoTrailingBackslashTokenizes | src/Tokenization/Tokenizer.php:334-347 | A text that does not end in a backslash tokenizes to the end from every position. |
| Lexing.EscapedBackslashTokenizes | src/Tokenization/Tokenizer.php:621-629 | The text of two backslashes tokenizes to the end: the first escapes the second, giving one ident token. |
| Lexing.UnterminatedStringTokenizes | src/Tokenization/Tokenizer.php:199-250 | A string left open by a final backslash (a quote, `a`, a backslash) tokenizes to the end: it is one string token with an error. |
| Lexing.LoneBackslashStops | src/Tokenization/Tokenizer.php:166-189 | `a` followed by a lone backslash does not tokenize: after the ident `a` the next token would start at the final backslash, where `consumeIdentSequence` reads nothing and the loop of `convertToTokenStream` never moves on. |
| MatchContexts.MatchDefaultNamespace | src/Matching/DomNodeMatchContext.php:461-468 | `matchDefaultNamespace`: without a default namespace every node passes; with one, only elements can. |
| MatchContexts.FirstAttr | src/Matching/DomNodeMatchContext.php:50-90 | The index of the first attribute the key selects: none exactly when no attribute is selected; otherwise that attribute is selected and none before it is. |
| MatchContexts.Lookup | src/Matching/DomNodeMatchContext.php:50-90 | The value of the first attribute of an element the key selects; non-elements have none. |
| MatchContexts.GetAttributeValue | src/Matching/DomNodeMatchContext.php:50-90 | `getAttributeValue` with a qualified name: none for a non-element; no prefix looks the name up as written, '*' takes the first attribute with the local name, a known prefix the first with its namespace and the local name, and an unknown prefix fails. |
| MatchContexts.MatchElementType | src/Matching/DomNodeMatchContext.php:427-455 | `matchElementType`: a non-element never matches and the local name must agree unless it is '*'; a '*' prefix accepts any namespace, an empty prefix demands none, a declared prefix its namespace, an undeclared one fails; without a prefix the default namespace applies when there is one. |
| MatchContexts.LeftCandidates | src/Matching/DomNodeMatchContext.php:354-385 | The candidates a combinator's left side may match, given the node its right side matched. |
| MatchContexts.NearestFirst | src/Matching/DomNodeMatchContext.php:354-385 | The head of a nearest-first sibling list is the nearest one. |
| MatchContexts.NearestNext | src/Matching/DomNodeMatchContext.php:393-421 | The head of an in-order list of following siblings is the nearest one. |
| MatchContexts.ElementDescendants | src/Matching/DomNodeMatchContext.php:393-421 | The element descendants of a node, in document order: exactly the element nodes strictly below it. |
| MatchContexts.RightCandidates | src/Matching/DomNodeMatchContext.php:393-421 | The candidates a relative selector's inner selector may match, given the node it is anchored at. |
| Matching.ClassMatches | src/Selectors/ClassSelector.php:47-62 | `ClassSelector::matches`: a match needs a non-empty name and a `class` attribute; the words it is tested against are proved in `PseudoClassLaws.ClassFindsFirstWord` and `ClassNeedsAWord`. |
| Matching.IsEmptyNode | src/Selectors/PseudoClasses/EmptyPseudoClass.php:30-44 | `:empty`: a node without children is empty; `PseudoClassLaws.EmptyMeaning` states the full condition over the nodes below it. |
| Matching.IsChecked | src/Selectors/PseudoClasses/InputPseudoClass.php:70-80 | `:checked` holds only of HTML `input` and `option` elements. |
| Matching.IsIndeterminate | src/Selectors/PseudoClasses/InputPseudoClass.php:81-103 | `:indeterminate` holds only of HTML `input` and `progress` elements; `PseudoClassLaws.CheckedIsNotIndeterminate` shows it excludes `:checked`. |
| Matching.MatchInput | src/Selectors/PseudoClasses/InputPseudoClass.php:31-106 | `InputPseudoClass::matches`: every input pseudo-class but `:read-only` holds only of HTML elements; the partitions are proved in `PseudoClassLaws`. |
| Matching.MatchTypedChildIndexed | src/Selectors/PseudoClasses/TypedChildIndexedPseudoClass.php:37-76 | `TypedChildIndexedPseudoClass::matches`: it can only fail for a missing An+B, so the first-, last- and only-of-type forms and every form with An+B answer. |
| Matching.Matches | src/Selectors/CompoundSelector.php:54-63 | `matches` of every selector class: the id, class, attribute-free pseudo-classes, input pseudo-classes and forgiving lists always answer; unknown pseudo-classes and pseudo-elements always fail. |
| Matching.MatchChildIndexed | src/Selectors/PseudoClasses/ChildIndexedPseudoClass.php:42-79 | `ChildIndexedPseudoClass::matches`: first-, last- and only-child always answer; they never read An+B or `of`. |
| Matching.MatchAll | src/Selectors/LogicalSelector.php:52-71 | The AND loop: a match means every selector matched; `MatchingLaws.AllTrue` and `AllFalse` prove both directions. |
| Matching.MatchAny | src/Selectors/LogicalSelector.php:52-71 | The OR loop: no match means every selector answered no match; `MatchingLaws.AnyTrue` and `AnyFalse` prove both directions. |
| Matching.MatchForgiving | src/Selectors/ForgivingSelectorList.php:47-64 | The forgiving loop: without a selector that matches, the list does not match; `MatchingLaws.ForgivingMeaning` proves the converse. |
| Matching.MatchComplex | src/Selectors/ComplexSelector.php:59-85 | `ComplexSelector::matches`: a match needs the last unit to match the node itself. |
| Matching.NthChildResult | src/Selectors/PseudoClasses/ChildIndexedPseudoClass.php:65-78 | The last step of the nth-child pseudo-classes: the one-based position (from the end for nth-last-child, 0 for any other name) tested against An+B; a target missing from the siblings never matches. |
| Matching.ParentPath | src/Matching/DomNodeMatchContext.php:113-116 | The parent of a node that has one is a node. |
| Matching.TypedSiblings | src/Selectors/PseudoClasses/TypedChildIndexedPseudoClass.php:39-51 | The element siblings of p of its own element type, p included when it is an element, in document order. |
| Matching.FilterMatching | src/Selectors/PseudoClasses/ChildIndexedPseudoClass.php:61-64 | The `of S` filter of the nth-child pseudo-classes: the candidates from index i on that inner matches, in order. |
| MatchingLaws.AllTrue | src/Selectors/LogicalSelector.php:52-71 | AND answers true exactly when every member matches. |
| MatchingLaws.AllFalse | src/Selectors/LogicalSelector.php:52-71 | AND answers false exactly when a member does not match and every member before it does. |
| MatchingLaws.AnyFalse | src/Selectors/LogicalSelector.php:52-71 | OR answers false exactly when no member matches. |
| MatchingLaws.AnyTrue | src/Selectors/LogicalSelector.php:52-71 | OR answers true exactly when a member matches and every member before it does not. |
| MatchingLaws.ForgivingMeaning | src/Selectors/ForgivingSelectorList.php:47-64 | The forgiving list matches exactly when some member matches; members that fail are skipped. |
| MatchingLaws.AnyLeftFalse | src/Selectors/ComplexSelector.php:59-85 | The complex candidate loop answers false exactly when the reduced selector matches no candidate. |
| MatchingLaws.AnyLeftTrue | src/Selectors/ComplexSelector.php:59-85 | When no candidate makes it fail, the complex candidate loop answers true exactly when some candidate matches the reduced selector. |
| MatchingLaws.AnyMatchNone | src/Selectors/RelativeSelector.php:48-57 | The relative candidate loop answers false exactly when inner matches no candidate. |
| MatchingLaws.AnyMatchSome | src/Selectors/RelativeSelector.php:48-57 | When inner fails at no candidate, the relative candidate loop answers true exactly when inner matches one. |
| MatchingLaws.AnyLeftNone | src/Selectors/ComplexSelector.php:59-85 | The candidate loop of a two-unit complex selector answers false exactly when the first unit matches no candidate. |
| MatchingLaws.AnyLeftSome | src/Selectors/ComplexSelector.php:59-85 | When the first unit fails at no candidate, the loop of a two-unit complex selector answers true exactly when it matches one. |
| MatchingLaws.TwoUnits | src/Selectors/ComplexSelector.php:59-85 | A complex selector of two units: b must match p, then a must match a left candidate of the combinator. |
| MatchingLaws.AnyLeftSingle | src/Selectors/ComplexSelector.php:59-85 | The candidate loop over a single candidate answers what the first unit answers there. |
| MatchingLaws.ChildCombinator | src/Selectors/ComplexSelector.php:59-85 | `a > b` matches p exactly when b matches p and a matches its parent, an element or a document fragment. |
| MatchingLaws.DescendantCombinatorFalse | src/Selectors/ComplexSelector.php:59-85 | `a b` does not match p exactly when b does not match p, or b matches and a matches none of the element and fragment ancestors of p. |
| MatchingLaws.DescendantCombinatorTrue | src/Selectors/ComplexSelector.php:59-85 | When a fails at no ancestor, `a b` matches p exactly when b matches p and a matches an element or fragment ancestor. |
| MatchingLaws.Delegates | src/Selectors/PseudoClasses/NotPseudoClass.php:49-52 | `:has()`, `:is()` and `:where()` answer what their argument answers; `:not()` negates it and passes failures on. |
| MatchingLaws.RelativeLoop | src/Selectors/RelativeSelector.php:48-57 | A relative selector runs the candidate loop over the right candidates of its combinator. |
| MatchingLaws.HasChildFalse | src/Selectors/PseudoClasses/HasPseudoClass.php:47-50 | `:has(> s)` does not match p exactly when s matches none of the element children of p. |
| MatchingLaws.HasDescendantTrue | src/Selectors/PseudoClasses/HasPseudoClass.php:47-50 | When s fails at no descendant, `:has(s)` matches p exactly when s matches an element below p. |
| PseudoClassLaws.FirstChildIsNthChildOne | src/Selectors/PseudoClasses/ChildIndexedPseudoClass.php:51-53 | `:first-child` is `:nth-child(1)`: both hold exactly when p heads the list. |
| PseudoClassLaws.LastChildIsNthLastChildOne | src/Selectors/PseudoClasses/ChildIndexedPseudoClass.php:54-56 | `:last-child` is `:nth-last-child(1)` among distinct siblings. |
| PseudoClassLaws.OnlyChildIsFirstAndLast | src/Selectors/PseudoClasses/ChildIndexedPseudoClass.php:57-59 | `:only-child` is `:first-child:last-child` among distinct siblings. |
| PseudoClassLaws.ChildIndexedAmongAbsent | src/Selectors/PseudoClasses/ChildIndexedPseudoClass.php:51-68 | A node missing from the list matches none of the position tests. |
| PseudoClassLaws.ElementChildrenDistinct | src/Matching/DomNodeMatchContext.php:308-317 | The element children of a node are distinct. |
| PseudoClassLaws.ChildIndexedWithoutOf | src/Selectors/PseudoClasses/ChildIndexedPseudoClass.php:42-79 | Without `of`, the position tests run on the element children of the parent; a node without parent never matches. |
| PseudoClassLaws.ShorthandsIgnoreOf | src/Selectors/PseudoClasses/ChildIndexedPseudoClass.php:51-64 | `:first-child`, `:last-child` and `:only-child` ignore an `of` selector. |
| PseudoClassLaws.NthChildCountsSiblings | src/Selectors/PseudoClasses/ChildIndexedPseudoClass.php:65-78 | Without `of`, `:nth-child(An+B)` tests one more than the number of element siblings before p, and `:nth-last-child(An+B)` one more than the number after it. |
| PseudoClassLaws.NthAmongSiblings | src/Selectors/PseudoClasses/ChildIndexedPseudoClass.php:65-74 | The nth positions of an element child among its parent's element children count its element siblings. |
| PseudoClassLaws.NthResultCounts | src/Selectors/PseudoClasses/ChildIndexedPseudoClass.php:69-78 | The nth results at index prev of prev + 1 + next siblings: position prev + 1 from the front, next + 1 from the back. |
| PseudoClassLaws.ChildIndexedNeedsElement | src/Selectors/PseudoClasses/ChildIndexedPseudoClass.php:42-79 | A node that is not an element child never matches a child-indexed pseudo-class without `of`. |
| PseudoClassLaws.NthOfNeedsOfMatch | src/Selectors/PseudoClasses/ChildIndexedPseudoClass.php:61-68 | The nth forms with `of S` only match elements S matches: the position is taken among the element siblings S keeps. |
| PseudoClassLaws.OnlyOfTypeIsFirstAndLast | src/Selectors/PseudoClasses/TypedChildIndexedPseudoClass.php:55-65 | `:only-of-type` is `:first-of-type:last-of-type`. |
| PseudoClassLaws.NthOfTypeOne | src/Selectors/PseudoClasses/TypedChildIndexedPseudoClass.php:52-75 | For a node in the list, `:nth-of-type(1)` is `:first-of-type` and `:nth-last-of-type(1)` is `:last-of-type`; a node missing from it matches neither shorthand. |
| PseudoClassLaws.TypedSiblingsMeaning | src/Selectors/PseudoClasses/TypedChildIndexedPseudoClass.php:44-52 | The typed position of an element counts only the siblings of its own element type: the siblings found are exactly the element children of the parent with its namespace and local name, and p is among them. |
| PseudoClassLaws.EmptyMeaning | src/Selectors/PseudoClasses/EmptyPseudoClass.php:30-44 | `:empty` holds when every node strictly below p is a comment or a node of an unsupported kind. |
| PseudoClassLaws.EmptyByChildren | src/Selectors/PseudoClasses/EmptyPseudoClass.php:30-44 | A node without children is empty; one with a text or element child is not. |
| PseudoClassLaws.RequiredOptionalPartition | src/Selectors/PseudoClasses/InputPseudoClass.php:48-63 | Of the requirable elements, each is either `:required` or `:optional`; other nodes are neither. |
| PseudoClassLaws.ReadOnlyIsComplement | src/Selectors/PseudoClasses/InputPseudoClass.php:64-69 | `:read-only` is exactly the nodes that are not `:read-write`. |
| PseudoClassLaws.EnabledDisabledPartition | src/Selectors/PseudoClasses/InputPseudoClass.php:33-47 | `:disabled` only holds on elements `:enabled` applies to, and there the two are complements; at most one of them holds anywhere. |
| PseudoClassLaws.RadioInOwnGroup | src/Matching/DomNodeMatchContext.php:122-161 | A radio button belongs to its own group. |
| PseudoClassLaws.CheckedIsNotIndeterminate | src/Selectors/PseudoClasses/InputPseudoClass.php:70-97 | A checked control is never indeterminate: a checked radio button is itself a checked member of its group. |
| PseudoClassLaws.DisabledFieldsetDisables | src/Matching/DomNodeMatchContext.php:167-226 | A control below a disabled fieldset that has no legend child is `:disabled`. |
| PseudoClassLaws.LegendShields | src/Matching/DomNodeMatchContext.php:167-226 | The first legend of a disabled fieldset shields what it contains: the fieldset does not disable it. |
| PseudoClassLaws.OptionDisabledByOptgroup | src/Matching/DomNodeMatchContext.php:167-226 | An HTML option is `:disabled` when it carries `disabled` or its parent is a disabled HTML optgroup. |
| PseudoClassLaws.OnlyHtmlIsDisabled | src/Matching/DomNodeMatchContext.php:167-226 | Only HTML elements are ever disabled or enabled. |
| PseudoClassLaws.ClassFindsFirstWord | src/Selectors/ClassSelector.php:47-62 | A class attribute lists its names separated by white space: its first word matches. |
| PseudoClassLaws.ClassNeedsAWord | src/Selectors/ClassSelector.php:47-62 | A class name that is empty or holds white space never matches; nor does any name without a class attribute. |
| Scan.Find | src/Tokenization/Tokenizer.php:62-76 | The first index at or after `pos` where the target occurs: the target is there and at no earlier index; none exactly when it occurs nowhere from pos on. |
| Scan.Peek | src/Tokenization/TextStream.php:97-100 | `substr(text, pos, n)`: exactly the next n characters from `pos`, or all that remain when fewer do. |
| SelectorGrammar.PseudoClassAt | src/Parsing/PseudoSelectorParser.php:56-126 | `tryParsePseudoClassSelector` after the colon: an identifier names a known pseudo-class, a function token is parsed with its arguments, and anything else gives none with the position restored. |
| SelectorGrammar.FunctionAt | src/Parsing/PseudoSelectorParser.php:83-121 | A functional pseudo-class whose function token is at pos: the arguments run to where `consumeAnyValue` stops, which must be a ')'; they must not be empty, and after the pseudo-class nothing but whitespace may remain in them. |
| SelectorGrammar.WholeArguments | src/Parsing/PseudoSelectorParser.php:83-121 | The pseudo-class of a closed, non-empty argument list, which nothing but whitespace may follow. |
| SelectorGrammar.ArgumentsAt | src/Parsing/PseudoSelectorParser.php:83-121 | The `match ($name)` on the argument tokens, after their leading whitespace. |
| SelectorGrammar.HasArgs | src/Parsing/PseudoSelectorParser.php:171-187 | `parseHasPseudoClass`: no nested `has(`, then a list of relative selectors. |
| SelectorGrammar.NotArgs | src/Parsing/PseudoSelectorParser.php:211-220 | `parseNotPseudoClass`: a list of real complex selectors; when it does not raise, it always yields a selector, within the arguments. |
| SelectorGrammar.ChildIndexedArgs | src/Parsing/PseudoSelectorParser.php:136-162 | `parseChildIndexedPseudoClass`: an An+B, then, after whitespace, an optional `of` with a selector list. A token after that whitespace which is not `of` has been consumed and is not given back. |
| SelectorGrammar.OfAt | src/Parsing/PseudoSelectorParser.php:136-162 | The list after `of`, which whitespace must precede; when it does not raise, it always yields a selector, within the arguments. |
| SelectorGrammar.TypedArgs | src/Parsing/PseudoSelectorParser.php:230-240 | `parseTypedChildIndexedPseudoClass`: an An+B and nothing more; when it does not raise, it always yields a selector, within the arguments. |
| SelectorGrammar.CommaListAt | src/Parsing/SelectorParser.php:301-331 | `tryParseCommaSeparatedList`: the items, each after optional whitespace and separated by commas; none, the single item, or their OR. The stream is left right after the last item. |
| SelectorGrammar.CommaLoop | src/Parsing/SelectorParser.php:301-331 | The items from pos on; restore is the position after the item before them. |
| SelectorGrammar.InnerAt | src/Parsing/SelectorParser.php:301-331 | The item routine a list was given: when it yields nothing the position is kept, and when it yields a selector it has moved forward, within the tokens. |
| SelectorGrammar.RelativeAt | src/Parsing/SelectorParser.php:555-573 | `tryParseRelativeSelector`: an optional combinator (descendant when absent), whitespace, then a complex selector that ignores no default namespace. |
| SelectorGrammar.ComplexAt | src/Parsing/SelectorParser.php:343-383 | `tryParseComplexSelector`: units joined by combinators; a single unit stands alone. |
| SelectorGrammar.ComplexRest | src/Parsing/SelectorParser.php:343-383 | The loop of `tryParseComplexSelector`: a combinator and a unit, again and again; a combinator with no unit after it is given back. |
| SelectorGrammar.PartAt | src/Parsing/SelectorParser.php:343-383 | A unit of a complex selector: a compound selector when isReal, else a complex selector unit. |
| SelectorGrammar.UnitAt | src/Parsing/SelectorParser.php:394-424 | `tryParseComplexSelectorUnit`: an optional compound selector and then pseudo-compound selectors, whose AND lists are flattened in; none, the single selector, or their AND. |
| SelectorGrammar.PseudoCompoundRun | src/Parsing/SelectorParser.php:394-424 | The pseudo-compound selectors from pos on, AND lists flattened: the run ends within the tokens, where it started exactly when it is empty, and past it otherwise. |
| SelectorGrammar.CompoundAt | src/Parsing/SelectorParser.php:435-452 | `tryParseCompoundSelector`: an optional type selector and subclass selectors, not both absent. |
| SelectorGrammar.SubclassRun | src/Parsing/SelectorParser.php:435-452 | The subclass selectors from pos on: the run ends within the tokens, and where it started when it is empty. |
| SelectorGrammar.PseudoCompoundAt | src/Parsing/SelectorParser.php:462-510 | `tryParsePseudoCompoundSelector`: a colon and a pseudo-element, then pseudo-classes each after a colon; the pseudo-element alone, or the AND of all. |
| SelectorGrammar.PseudoClassRun | src/Parsing/SelectorParser.php:462-510 | The pseudo-classes after a pseudo-element, each after a colon: the run ends within the tokens, and where it started when it is empty. |
| SelectorGrammar.PseudoElementAt | src/Parsing/SelectorParser.php:521-544 | `tryParsePseudoElementSelector` after the first colon: a legacy name, or a second colon and a pseudo-class whose name, flag and arguments the pseudo-element takes over. |
| SelectorGrammar.SubclassAt | src/Parsing/SelectorParser.php:583-631 | `tryParseSubclassSelector`: an ID, a class, an attribute selector or a pseudo-class; a hash that is no ID and a '.' with no identifier raise. |
| SelectorGrammarLaws.KnownPseudoKeepsName | src/Parsing/PseudoSelectorParser.php:61-81 | A bare identifier gives a pseudo-class that carries the name it was written with, is not functional and has no arguments; it is an unknown pseudo-class exactly when the name is not a known one. |
| SelectorGrammarLaws.PseudoClassDispatch | src/Parsing/PseudoSelectorParser.php:56-126 | After the colon: an identifier, in any case, gives the pseudo-class of its lower-cased name just after it; a token that is neither an identifier nor a function gives none with the position kept. |
| SelectorGrammarLaws.UnknownFunctionKeepsArguments | src/Parsing/PseudoSelectorParser.php:251-261 | An unknown function keeps its argument tokens, the whole run up to the closing ')', and the stream continues after that ')'. |
| SelectorGrammarLaws.FunctionErrors | src/Parsing/PseudoSelectorParser.php:83-121 | The function errors: arguments that do not end at a ')' are not closed, and a ')' right after the function token leaves the argument missing. |
| SelectorGrammarLaws.NestedHasRaises | src/Parsing/PseudoSelectorParser.php:171-187 | `parseHasPseudoClass`: a `has(` token anywhere in the arguments raises the nesting error at the offset of the first of them. |
| SelectorGrammarLaws.LogicalArgumentsNotEmpty | src/Parsing/PseudoSelectorParser.php:171-220 | `:not()` and `:has()` hold a list that is not empty; an empty one raises. |
| SelectorGrammarLaws.OfNeedsWhitespace | src/Parsing/PseudoSelectorParser.php:136-162 | The list after `of` needs whitespace before it: without it the `of` form raises. |
| SelectorGrammarLaws.PseudoElementForms | src/Parsing/SelectorParser.php:521-544 | `tryParsePseudoElementSelector` after the first colon: a legacy pseudo-element comes only from the four legacy names, and `::name` takes over the name of the pseudo-class it parses. |
| SelectorGrammarLaws.SubclassNone | src/Parsing/SelectorParser.php:583-631 | `tryParseSubclassSelector` gives none, with the position kept, exactly for tokens that start no ID, class, attribute or pseudo-class. |
| SelectorGrammarLaws.SubclassErrors | src/Parsing/SelectorParser.php:583-631 | A hash that is no ID, and a '.' without an identifier after it, raise. |
| SelectorGrammarLaws.ComplexShape | src/Parsing/SelectorParser.php:343-383 | `tryParseComplexSelector` gives its first unit alone, where that unit ended, or a complex selector led by that unit with one combinator fewer than units and at least two units. |
| SelectorGrammarLaws.TrailingCombinatorGivenBack | src/Parsing/SelectorParser.php:343-383 | A combinator with no unit after it is given back: the selector ends before it. |
| SelectorGrammarLaws.ColumnWithoutUnit | src/Parsing/SelectorParser.php:343-383 | For `a`, the column combinator and a `?` delimiter, the column combinator has no unit after it: the selector is `a` alone and the stream is left at 1. |
| SelectorGrammarLaws.ListWithoutItem | src/Parsing/SelectorParser.php:301-331 | No first item: no list, and the position is kept. |
| SelectorGrammarLaws.ListOfOne | src/Parsing/SelectorParser.php:301-331 | One item and no comma after it: that item alone, with the stream right after it. |
| SelectorGrammarLaws.TrailingCommaGivenBack | src/Parsing/SelectorParser.php:301-331 | A comma with no item after it is given back: the list is the item before it, ending before the comma. |
| SelectorGrammarLaws.ListOfTwo | src/Parsing/SelectorParser.php:301-331 | Two items separated by a comma: their OR, with the stream right after the second. |
| SelectorGrammarLaws.KeptMembers | src/Parsing/SelectorParser.php:213-248 | The selectors a forgiving list keeps are exactly those of its segments that parse. |
| SelectorGrammarLaws.KeptAppend | src/Parsing/SelectorParser.php:213-248 | Keeping is done segment by segment: the kept selectors of two runs of segments, in order. |
| SelectorGrammarLaws.KeptAtMostSegments | src/Parsing/SelectorParser.php:213-248 | No more selectors are kept than there are segments. |
| SelectorGrammarLaws.ForgivingKeeps | src/Parsing/SelectorParser.php:213-248 | `parseForgivingSelectorList` keeps a selector exactly when one of the comma-separated segments of its arguments parses to it. |
| SelectorLaws.IdMatchesExactly | src/Selectors/IdSelector.php:40-45 | An id selector compares the plain `id` attribute exactly; a node without one never matches; it never fails. |
| SelectorLaws.TypeIsElementType | src/Selectors/TypeSelector.php:45-48 | A type selector is the context's element-type test: a node that is not an element never matches, and only an unknown prefix fails. |
| SelectorLaws.RootAndScopeAreIndependent | src/Selectors/PseudoClasses/RootPseudoClass.php:28-31 | `:root` picks out the root of the context whatever the scope, `:scope` the scope whatever the root. |
| SelectorLaws.AnyLinkNeedsHref | src/Selectors/PseudoClasses/AnyLinkPseudoClass.php:28-35 | `:any-link` holds exactly for an HTML `a` or `area` element that has an `href`, whatever its value. |
| SelectorLaws.UnsupportedSelectorsFail | src/Selectors/PseudoClasses/UnknownPseudoClassSelector.php:34-37 | Pseudo-elements and unknown pseudo-classes are never matched: they fail at every node. |
| SelectorLaws.DefaultNamespaceGate | src/Matching/DomNodeMatchContext.php:461-468 | Without a default namespace every node passes the namespace gate; with one, only nodes in it do. |
| SelectorLaws.CompoundGate | src/Selectors/CompoundSelector.php:54-63 | A compound selector that does not start with a type selector and does not ignore the default namespace rejects a node outside that namespace before looking at its children; otherwise it is the AND of its children. |
| SelectorLaws.ForgivingNeverFails | src/Selectors/ForgivingSelectorList.php:47-64 | A forgiving list never fails, and an empty one (also inside `:is()` or `:where()`) matches nothing. |
| SelectorLaws.RelativeWithoutCandidates | src/Selectors/RelativeSelector.php:48-57 | A relative selector whose combinator gives no candidates matches nothing. |
| SelectorParsing.TryParsePseudoClassSelector | src/Parsing/PseudoSelectorParser.php:56-126 | `tryParsePseudoClassSelector`, after the colon. Proved equal to `SelectorGrammar.PseudoClassAt`: on success the same selector or none and the same new position; on failure the same error, which is then the one error added to the log. |
| SelectorParsing.ParseFunctionalPseudoClass | src/Parsing/PseudoSelectorParser.php:83-121 | The function-token branch of `tryParsePseudoClassSelector`, after that token. Proved equal to `SelectorGrammar.FunctionAt` at the function token: on success the same selector or none and the same new position; on failure the same error, which is then the one error added to the log. |
| SelectorParsing.ParseWholeArguments | src/Parsing/PseudoSelectorParser.php:83-121 | The argument tokens on a fresh stream that shares the log; nothing but whitespace may remain. Proved equal to `SelectorGrammar.WholeArguments`; the shared log gains exactly the error of a failure. |
| SelectorParsing.ParseArguments | src/Parsing/PseudoSelectorParser.php:83-121 | The `match ($name)` of `tryParsePseudoClassSelector` on a fresh argument stream. Proved equal to `SelectorGrammar.ArgumentsAt`: on success the same value and the same new position; on failure the same error, which is then the one error added to the log. |
| SelectorParsing.ParseChildIndexedPseudoClass | src/Parsing/PseudoSelectorParser.php:136-162 | `parseChildIndexedPseudoClass`. Proved equal to `SelectorGrammar.ChildIndexedArgs`: on success the same value and the same new position; on failure the same error, which is then the one error added to the log. |
| SelectorParsing.ParseOfList | src/Parsing/PseudoSelectorParser.php:136-162 | The `of` branch of `parseChildIndexedPseudoClass`, after the keyword. Proved equal to `SelectorGrammar.OfAt`: on success the same value and the same new position; on failure the same error, which is then the one error added to the log. |
| SelectorParsing.ParseHasPseudoClass | src/Parsing/PseudoSelectorParser.php:171-187 | `parseHasPseudoClass`. Proved equal to `SelectorGrammar.HasArgs`: on success the same value and the same new position; on failure the same error, which is then the one error added to the log. |
| SelectorParsing.ParseNotPseudoClass | src/Parsing/PseudoSelectorParser.php:211-220 | `parseNotPseudoClass`. Proved equal to `SelectorGrammar.NotArgs`: on success the same value and the same new position; on failure the same error, which is then the one error added to the log. |
| SelectorParsing.ParseTypedChildIndexedPseudoClass | src/Parsing/PseudoSelectorParser.php:230-240 | `parseTypedChildIndexedPseudoClass`. Proved equal to `SelectorGrammar.TypedArgs`: on success the same value and the same new position; on failure the same error, which is then the one error added to the log. |
| SelectorParsing.ParseUnknownPseudoClass | src/Parsing/PseudoSelectorParser.php:251-261 | `parseUnknownPseudoClass`: the stream is used up and the raw arguments are kept. Proved to give the unknown pseudo-class with exactly the remaining argument tokens. |
| SelectorParsing.ParseForgivingSelectorList | src/Parsing/SelectorParser.php:213-248 | `parseForgivingSelectorList`: cuts the rest of the stream into segments, then keeps the selector of each segment that parses to its end. The exceptions go to a private log. Proved to return `SelectorGrammar.ForgivingAt` wrapped in a forgiving list, with the stream used up. |
| SelectorParsing.CutSegments | src/Parsing/SelectorParser.php:213-248 | The first loop of `parseForgivingSelectorList`: the segments, each stop token dropped. Proved equal to `SelectorScans.Segments`. |
| SelectorParsing.KeepParsed | src/Parsing/SelectorParser.php:213-248 | The second loop of `parseForgivingSelectorList`: each segment gets a stream of its own over the private log, and is kept when a real complex selector takes it all but whitespace. Proved equal to `SelectorGrammar.Kept`. |
| SelectorParsing.TryParseCommaSeparatedList | src/Parsing/SelectorParser.php:301-331 | `tryParseCommaSeparatedList`, with the item routine chosen by kind. Proved equal to `SelectorGrammar.CommaListAt`: on success the same selector or none and the same new position; on failure the same error, which is then the one error added to the log. |
| SelectorParsing.ParseCommaItems | src/Parsing/SelectorParser.php:301-331 | The loop of `tryParseCommaSeparatedList`, ending with the restore of the position. Proved equal to `SelectorGrammar.CommaLoop`. On success the position is the one it gives; the log gains exactly the error of a failure. |
| SelectorParsing.ParseCommaItem | src/Parsing/SelectorParser.php:301-331 | One round of the loop of `tryParseCommaSeparatedList`: an item, and whether a comma follows it. Proved to agree with `SelectorGrammar.CommaLoop` from the restore point: a failure, the end of the list, or one more item and the rest of the loop. |
| SelectorParsing.SkipComma | src/Parsing/SelectorParser.php:301-331 | Whitespace and a comma after a list item; on a comma the stream is past it. Proved to report a comma exactly when the token after `TokenStreams.WhitespaceEnd` is one. |
| SelectorParsing.ParseInner | src/Parsing/SelectorParser.php:301-331 | The item closure a list was given. Proved equal to `SelectorGrammar.InnerAt`: on success the same selector or none and the same new position; on failure the same error, which is then the one error added to the log. |
| SelectorParsing.TryParseRelativeSelector | src/Parsing/SelectorParser.php:555-573 | `tryParseRelativeSelector`. Proved equal to `SelectorGrammar.RelativeAt`: on success the same selector or none and the same new position; on failure the same error, which is then the one error added to the log. |
| SelectorParsing.TryParseComplexSelector | src/Parsing/SelectorParser.php:343-383 | `tryParseComplexSelector`. Proved equal to `SelectorGrammar.ComplexAt`: on success the same selector or none and the same new position; on failure the same error, which is then the one error added to the log. |
| SelectorParsing.ParseLinks | src/Parsing/SelectorParser.php:343-383 | The loop of `tryParseComplexSelector`: combinators and the units after them. Proved equal to `SelectorGrammar.ComplexRest`. On success the position is the one it gives; the log gains exactly the error of a failure. |
| SelectorParsing.ParsePart | src/Parsing/SelectorParser.php:343-383 | `$real ? tryParseCompoundSelector(…) : tryParseComplexSelectorUnit(…)`. Proved equal to `SelectorGrammar.PartAt`: on success the same selector or none and the same new position; on failure the same error, which is then the one error added to the log. |
| SelectorParsing.TryParseComplexSelectorUnit | src/Parsing/SelectorParser.php:394-424 | `tryParseComplexSelectorUnit`. Proved equal to `SelectorGrammar.UnitAt`: on success the same selector or none and the same new position; on failure the same error, which is then the one error added to the log. |
| SelectorParsing.ParsePseudoCompounds | src/Parsing/SelectorParser.php:394-424 | The loop of `tryParseComplexSelectorUnit`: pseudo-compound selectors, AND lists flattened. Proved equal to `SelectorGrammar.PseudoCompoundRun`. On success the position is the one it gives; the log gains exactly the error of a failure. |
| SelectorParsing.TryParseCompoundSelector | src/Parsing/SelectorParser.php:435-452 | `tryParseCompoundSelector`. Proved equal to `SelectorGrammar.CompoundAt`: on success the same selector or none and the same new position; on failure the same error, which is then the one error added to the log. |
| SelectorParsing.ParseSubclasses | src/Parsing/SelectorParser.php:435-452 | The loop of `tryParseCompoundSelector`: the subclass selectors. Proved equal to `SelectorGrammar.SubclassRun`. On success the position is the one it gives; the log gains exactly the error of a failure. |
| SelectorParsing.TryParsePseudoCompoundSelector | src/Parsing/SelectorParser.php:462-510 | `tryParsePseudoCompoundSelector`. Proved equal to `SelectorGrammar.PseudoCompoundAt`: on success the same selector or none and the same new position; on failure the same error, which is then the one error added to the log. |
| SelectorParsing.ParsePseudoClasses | src/Parsing/SelectorParser.php:462-510 | The loop of `tryParsePseudoCompoundSelector`: pseudo-classes, each after a colon. Proved equal to `SelectorGrammar.PseudoClassRun`. On success the position is the one it gives; the log gains exactly the error of a failure. |
| SelectorParsing.TryParsePseudoElementSelector | src/Parsing/SelectorParser.php:521-544 | `tryParsePseudoElementSelector`, after the first colon. Proved equal to `SelectorGrammar.PseudoElementAt`: on success the same selector or none and the same new position; on failure the same error, which is then the one error added to the log. |
| SelectorParsing.TryParseSubclassSelector | src/Parsing/SelectorParser.php:583-631 | `tryParseSubclassSelector`. Proved equal to `SelectorGrammar.SubclassAt`: on success the same selector or none and the same new position; on failure the same error, which is then the one error added to the log. |
| SelectorParsing.ParseSubclassAttribute | src/Parsing/SelectorParser.php:608-611 | The attribute branch of `tryParseSubclassSelector`, after the '['. Proved equal to `SelectorGrammar.SubclassAt` at the opening bracket, which is `SelectorScans.AttributeAt` after it: on success the same selector and the same new position; on failure the same error, which is then the one error added to the log. |
| SelectorParsing.ParseSubclassPseudoClass | src/Parsing/SelectorParser.php:613-622 | The pseudo-class branch of `tryParseSubclassSelector`, after the colon; none gives the colon back. Proved equal to `SelectorGrammar.SubclassAt` at the colon: on success the same selector or none and the same new position; on failure the same error, which is then the one error added to the log. |
| SelectorParsing.ParseClassName | src/Parsing/SelectorParser.php:595-606 | The class branch of `tryParseSubclassSelector`, after the '.'. Proved equal to `SelectorGrammar.SubclassAt` at the dot: on success the same selector or none and the same new position; on failure the same error, which is then the one error added to the log. |
| SelectorPrinting.PlainNames | src/Selectors/ClassSelector.php:68-71 | A class or id of lower-case letters prints after its sigil unescaped. |
| SelectorPrinting.RelativePrinting | src/Selectors/RelativeSelector.php:63-66 | A relative selector prints its combinator before the inner selector, and trims leading white space: with the descendant combinator only the inner selector is left. |
| SelectorPrinting.ChildRelativeRendering | tests/unit-tests/Selectors/RelativeSelectorTest.php:43-44 | The rendering `>.a` of a relative class selector with the child combinator. |
| SelectorPrinting.DescendantRelativeRendering | tests/unit-tests/Selectors/RelativeSelectorTest.php:46-47 | The rendering `.a` of a relative class selector with the descendant combinator. |
| SelectorPrinting.AndRendering | src/Selectors/LogicalSelector.php:77-80 | Two selectors joined by AND print with nothing between them. |
| SelectorPrinting.OrRendering | src/Selectors/ForgivingSelectorList.php:70-73 | Two selectors joined by OR, or in a forgiving list, print with a comma between them. |
| SelectorPrinting.WhereRendering | src/Selectors/PseudoClasses/IsWherePseudoClass.php:61-64 | `:where()` prints its forgiving list in parentheses. |
| SelectorPrinting.LogicalListRendering | src/Selectors/LogicalSelector.php:77-80 | For any two member selectors, an AND list prints their texts with nothing between them and an OR list with a comma between them. |
| SelectorPrinting.ForgivingListRendering | src/Selectors/ForgivingSelectorList.php:70-73 | For any two member selectors, a forgiving list prints their texts with a comma between them. |
| SelectorPrinting.IsWhereListRendering | src/Selectors/PseudoClasses/IsWherePseudoClass.php:61-64 | `:is()` or `:where()` around a forgiving list of any two members prints its name and, in parentheses, the members' texts with a comma between them. |
| SelectorPrinting.FunctionalRenderings | src/Selectors/PseudoClasses/NotPseudoClass.php:58-61 | `:not()` and `:has()` print their inner selector in parentheses. |
| SelectorPrinting.ComplexRendering | src/Selectors/ComplexSelector.php:91-100 | A complex selector of six units prints each unit with the texts `>`, a double pipe, a space, `+` and `~` of its five combinators between them, in order. |
| SelectorPrinting.ExistsPrintsName | src/Selectors/AttributeSelector.php:122-137 | An attribute selector without a matcher prints only its name, whatever value and modifier it holds. |
| SelectorPrinting.MatcherPrinting | src/Selectors/AttributeSelector.php:122-137 | An attribute selector with a matcher prints the matcher, the value in double quotes and ' s' or ' i' for an explicit case modifier. |
| SelectorPrinting.PlainAttributeRendering | src/Selectors/AttributeSelector.php:122-137 | Renderings such as `[lang="en"]`: a plain name, the matcher and the quoted value. |
| SelectorPrinting.QualifiedAttributeRendering | src/Selectors/AttributeSelector.php:122-137 | With plain prefix p, name n and value v, a hyphen-matcher selector with the `s` modifier prints as `[`, p, a pipe, n, the hyphen matcher, v in double quotes, ` s]`. |
| SelectorPrinting.PseudoElementIgnoresArguments | src/Selectors/PseudoElementSelector.php:42-45 | A pseudo-element prints as '::' and its name, whatever its arguments. |
| SelectorPrinting.ShorthandRenderings | src/Selectors/PseudoClasses/ChildIndexedPseudoClass.php:108-120 | The child-indexed pseudo-classes without An+B, such as `:first-child` and `:first-of-type`, print their name alone. |
| SelectorPrinting.NthRenderings | src/Selectors/PseudoClasses/ChildIndexedPseudoClass.php:108-120 | With An+B the child-indexed pseudo-classes print it in parentheses. |
| SelectorPrinting.NthOfRendering | src/Selectors/PseudoClasses/ChildIndexedPseudoClass.php:108-120 | The `of` selector prints after the An+B, separated by " of ". |
| SelectorPrinting.UnknownFunctionRendering | src/Selectors/AbstractPseudoSelector.php:63-72 | An unknown functional pseudo-class prints its raw arguments in parentheses, as in `:next-gen("foo")`. |
| SelectorPrinting.NonFunctionalPrintsName | src/Selectors/AbstractPseudoSelector.php:63-72 | A non-functional pseudo-class prints as ':' and its name, whatever arguments it holds. |
| SelectorScanLaws.AnyValueEndIsStop | src/Parsing/SelectorParser.php:47-100 | `consumeAnyValue` takes a run that scans from end to end, and stops only at the end of the stream or at a token that stops the scan with the counts that run leaves. |
| SelectorScanLaws.StopsOnlyAtStopKinds | src/Parsing/SelectorParser.php:47-100 | Only those tokens stop it, and only with no open bracket of their kind (commas: none at all). |
| SelectorScanLaws.ExcludingCommasStopsSooner | src/Parsing/SelectorParser.php:47-100 | Excluding commas can only stop the scan sooner. |
| SelectorScanLaws.FunctionOpensParenthesis | src/Parsing/SelectorParser.php:47-100 | A function token opens a parenthesis that its ')' closes; a lone ')' stops the scan at once. |
| SelectorScanLaws.SegmentsCover | src/Parsing/SelectorParser.php:213-248 | The segments cover the stream: put back between them, the dropped tokens give the stream again, and each dropped token is a stop token. |
| SelectorScanLaws.CombinatorTable | src/Parsing/SelectorParser.php:258-290 | `tryParseCombinator`: after optional whitespace `>`, `+`, `~` and a double pipe are the child, next-sibling, subsequent-sibling and column combinators; whitespace before anything else is the descendant combinator; with neither the result is none, at the start. |
| SelectorScanLaws.NoCombinatorKeepsPosition | src/Parsing/SelectorParser.php:258-290 | No whitespace, no combinator symbol: none, with the position given back. |
| SelectorScanLaws.WqNameIsWellFormed | src/Parsing/WqName.php:25-34 | `tryParseWqName` builds only names that meet the constructor's assertions. |
| SelectorScanLaws.WqNameTable | tests/unit-tests/Parsing/SelectorParserTest.php:25-35 | The qualified-name table: the input, whether a wildcard local name is allowed, the result. |
| SelectorScanLaws.AttributeMessages | src/Parsing/SelectorParser.php:110-204 | An attribute selector that does not parse raises one of the six messages. |
| SelectorScanLaws.AttributeExists | tests/unit-tests/Parsing/SelectorParserTest.php:47-51 | `[required]`: a name alone tests that the attribute exists. |
| SelectorScanLaws.AttributeWithModifier | src/Parsing/SelectorParser.php:110-204 | `[name=a i]`: a matcher, a value and the case-insensitive modifier. |
| SelectorScanLaws.AttributeUnfinished | tests/unit-tests/Parsing/SelectorParserTest.php:94-95 | `[` and `[name`: no name, and no ']' after it; at the end the last token's offset is reported. |
| SelectorScanLaws.MissingAttributeNameAsWritten | src/Parsing/SelectorParser.php:115 | For `[`, the code as written throws a TypeError from `recordParseException` (the as-written position fails), where the model reports "Missing attribute name." at offset 0. |
| SelectorScanLaws.AttributeSymbolForMatcher | tests/unit-tests/Parsing/SelectorParserTest.php:96 | `[name[]]`: a symbol where the matcher should be. |
| SelectorScanLaws.AttributeNoMatcher | tests/unit-tests/Parsing/SelectorParserTest.php:97 | `[name?"value"]`: a delimiter that starts no matcher. |
| SelectorScanLaws.AttributeMatcherWithoutEquals | tests/unit-tests/Parsing/SelectorParserTest.php:98 | `[name^"value"]`: '^' without the '=' it needs; the error is at the token after it. |
| SelectorScanLaws.AttributeMissingValue | tests/unit-tests/Parsing/SelectorParserTest.php:99 | `[name=]`: ']' where the value should be. |
| SelectorScanLaws.AttributeBadModifier | tests/unit-tests/Parsing/SelectorParserTest.php:100 | `[name=a t]`: an ident after the value that is not 'i' or 's'. |
| SelectorScanLaws.AttributeAfterModifier | tests/unit-tests/Parsing/SelectorParserTest.php:101 | `[name=a i j]`: a token after the modifier. |
| SelectorScans.AnyValueEnd | src/Parsing/SelectorParser.php:47-100 | Where `consumeAnyValue` stops, starting at pos with the bracket counts d: never before pos nor past the tokens. |
| SelectorScans.Segments | src/Parsing/SelectorParser.php:213-248 | The segments `parseForgivingSelectorList` cuts a stream into: the runs `consumeAnyValue` takes with commas excluded, each stop token dropped. |
| SelectorScans.CombinatorAt | src/Parsing/SelectorParser.php:258-290 | `tryParseCombinator`: optional whitespace, then `>`, `+`, `~` or a double pipe; whitespace alone is the descendant combinator. A single pipe after whitespace stays consumed. |
| SelectorScans.WqNameAt | src/Parsing/SelectorParser.php:660-711 | `tryParseWqName`: a prefix, a pipe and a local name; a pipe and a local name; or a lone name. A missing local name, or a wildcard where none is allowed, falls back to the first token alone, just after it; when that fails too, none at the start. |
| SelectorScans.TypeAt | src/Parsing/SelectorParser.php:641-649 | `tryParseTypeSelector`: a qualified name with the wildcard allowed; none keeps the position, a type selector moves it forward within the tokens. |
| SelectorScans.AttributeAt | src/Parsing/SelectorParser.php:110-204 | `parseAttributeSelector` after the '[': a name, then ']' or a matcher, a value and an optional modifier before ']'. |
| SelectorScans.AfterNameAt | src/Parsing/SelectorParser.php:118-121 | After the name: whitespace, then an end of the stream raises that the selector is not closed; otherwise the matcher part. A success is an attribute selector that ends with the closing bracket, past the name. |
| SelectorScans.MatcherAt | src/Parsing/SelectorParser.php:110-204 | After the name: a closing bracket, or a matcher and the rest; a success is always an attribute selector whose last token is the closing bracket. |
| SelectorScans.AttributeValueAt | src/Parsing/SelectorParser.php:110-204 | The rest of an attribute selector after its matcher: the value, an optional modifier, ']'. |
| SelectorScans.AttributeCloseAt | src/Parsing/SelectorParser.php:110-204 | After the value: a closing bracket or a modifier; a success moves forward and its last token is the closing bracket. |
| SelectorScans.ModifierCloseAt | src/Parsing/SelectorParser.php:110-204 | After the modifier: only a closing bracket may follow; a success ends just after it. |
| SelectorScans.ConsumeAnyValue | src/Parsing/SelectorParser.php:47-100 | `consumeAnyValue`: the tokens up to the stop, which stays unconsumed. Proved to stop at `SelectorScans.AnyValueEnd` and to return exactly the tokens passed over. |
| SelectorScans.TryParseCombinator | src/Parsing/SelectorParser.php:258-290 | `tryParseCombinator`. Proved equal to `SelectorScans.CombinatorAt`: the same value or none and the same new position; nothing is logged. |
| SelectorScans.TryParseWqName | src/Parsing/SelectorParser.php:660-711 | `tryParseWqName`. Proved equal to `SelectorScans.WqNameAt`: the same value or none and the same new position; nothing is logged. |
| SelectorScans.TryParseTypeSelector | src/Parsing/SelectorParser.php:641-649 | `tryParseTypeSelector`. Proved equal to `SelectorScans.TypeAt`: the same value or none and the same new position; nothing is logged. |
| SelectorScans.ParseAttributeSelector | src/Parsing/SelectorParser.php:110-204 | `parseAttributeSelector`, called after the '['. Proved equal to `SelectorScans.AttributeAt`: on success the same value and the same new position; on failure the same error, which is then the one error added to the log. |
| SelectorScans.ParseAttributeMatcher | src/Parsing/SelectorParser.php:110-204 | The part of `parseAttributeSelector` after the name, with a token left. Proved equal to `SelectorScans.MatcherAt`: on success the same value and the same new position; on failure the same error, which is then the one error added to the log. |
| SelectorScans.ParseAttributeValue | src/Parsing/SelectorParser.php:110-204 | The part of `parseAttributeSelector` after the matcher. Proved equal to `SelectorScans.AttributeValueAt`: on success the same value and the same new position; on failure the same error, which is then the one error added to the log. |
| SelectorScans.ParseAttributeClose | src/Parsing/SelectorParser.php:110-204 | The part of `parseAttributeSelector` after the value. Proved equal to `SelectorScans.AttributeCloseAt`: on success the same value and the same new position; on failure the same error, which is then the one error added to the log. |
| SelectorScans.ParseModifierClose | src/Parsing/SelectorParser.php:110-204 | The part of `parseAttributeSelector` after the modifier. Proved equal to `SelectorScans.ModifierCloseAt`: on success the same value and the same new position; on failure the same error, which is then the one error added to the log. |
| Selectors.WellFormed | src/Selectors/ComplexSelector.php:29-38 | The constructor assertions at every depth; a well-formed complex selector has at least one combinator. |
| Selectors.ToString | src/Selectors/AttributeSelector.php:122-137 | `__toString`: an id prints as '#' and a class as '.' before at least the name's length, an attribute selector between '[' and ']'. |
| Selectors.CombinatorText | src/Selectors/Combinator.php:10-17 | The text each combinator is written and printed with. |
| Selectors.LeftTrim | src/Selectors/RelativeSelector.php:65 | `ltrim`: the leading spaces, tabs, line feeds, carriage returns, NULs and vertical tabs go. |
| TextStreams.ReplaceNul | src/Tokenization/TextStream.php:41 | Every NUL becomes U+FFFD: the same length, and every other character kept in place. |
| TextStreams.NormalizeNewlines | src/Tokenization/TextStream.php:42 | Every CR LF pair, lone CR and form feed becomes one line feed: the result is no longer and holds no CR and no form feed, and no NUL when the input held none. |
| TextStreams.Normalize | src/Tokenization/TextStream.php:41-42 | The constructor's preprocessing, NUL first and then the newlines: the result is preprocessed and no longer than the input. |
| TextStreams.NormalizeKeepsPreprocessed | src/Tokenization/TextStream.php:41-42 | Preprocessing leaves text without NUL, CR and FF unchanged. |
| TextStreams.NormalizeIdempotent | src/Tokenization/TextStream.php:41-42 | Preprocessing is idempotent. |
| TextStreams.LoggedError | src/Tokenization/TextStream.php:109-125 | The error `recordParseException` builds: an empty message is replaced by a default. |
| TextStreams.TextStream.constructor | src/Tokenization/TextStream.php:36-47 | The stream holds the preprocessed input, its length and position 0, and shares the given error collection. |
| TextStreams.TextStream.Consume | src/Tokenization/TextStream.php:54-64 | The next character, or the end-of-stream failure. |
| TextStreams.TextStream.PeekAhead | src/Tokenization/TextStream.php:97-100 | At most n characters from the current position, exactly those of the text, and exactly n when that many remain. |
| TextStreams.TextStream.RecordParseException | src/Tokenization/TextStream.php:109-125 | Logs one error at the current position; the position stays. The error is `TextStreams.LoggedError` at the current position and is appended to the log. |
| TextStreams.TextStream.SkipWhitespace | src/Tokenization/TextStream.php:130-137 | Moves over the maximal run of space, tab and line feed. Proved to end at `Scan.RunEnd` of the whitespace class. |
| TokenLaws.EscapedCharsAreShort | src/Tokenization/Tokens/AbstractToken.php:45-61 | Every character a serialiser escapes lies below U+10000, so its escape ends in a space. |
| TokenLaws.HexEscapeReads | src/Tokenization/Tokenizer.php:86-124 | Fewer than six hex digits and a space read as the code point they spell, with the space consumed. |
| TokenLaws.EscapeDecodes | src/Tokenization/Tokenizer.php:86-124 | The escape of a code point other than U+0000 decodes back to it; nothing after it is read. |
| TokenLaws.EscapePlain | src/Tokenization/Tokens/AbstractToken.php:45-61 | Characters outside the escape set pass through unchanged and in order. |
| TokenLaws.EscapeIdentIdentity | src/Tokenization/Tokens/AbstractToken.php:70-81 | `escapeIdent` leaves a name alone that starts with '-' or an ident-start code point and continues with ident code points. |
| TokenLaws.EscapeIdentLeadingDigit | tests/unit-tests/Tokenization/Tokens/TokenTest.php:33 | `escapeIdent` escapes a leading digit and keeps the digits after it: "123" prints as "\31 23". |
| TokenLaws.StringBodyReads | src/Tokenization/Tokenizer.php:199-250 | After the literal run text[pos..j], a string body made of the escaped `v` and a closing '"' reads back as the run followed by `v`, with no error. |
| TokenLaws.StringRoundTrip | src/Tokenization/Tokens/StringToken.php:27-30 | `toString` of a string token tokenizes back to the same string, with no error. |
| TokenPrinting.UnicodeRangeReadsBack | src/Tokenization/Tokens/UnicodeRangeToken.php:42-49 | A printed unicode range is "U+", the start in hexadecimal and, when the range holds more than one code point, a '-' and the end in hexadecimal; the hex parts read back as the bounds. |
| TokenPrinting.UnicodeRangeRenderings | tests/unit-tests/Tokenization/Tokens/TokenTest.php:55-56 | The renderings U+0-40 and U+7B. |
| TokenPrinting.HashRendering | tests/unit-tests/Tokenization/Tokens/TokenTest.php:49 | A hash keeps its digits: the rest-of-ident set does not escape a leading digit. |
| TokenPrinting.AsciiIdent | src/Tokenization/Tokens/AbstractToken.php:70-81 | A name of ASCII letters, digits, '-' and '_' that does not start with a digit prints unescaped. |
| TokenPrinting.AtKeywordRendering | tests/unit-tests/Tokenization/Tokens/TokenTest.php:43 | At-keyword names print unescaped when they are plain idents. |
| TokenPrinting.FunctionRendering | tests/unit-tests/Tokenization/Tokens/TokenTest.php:48 | Function names print unescaped, then the opening parenthesis. |
| TokenPrinting.EscapeIdentKeepsMixed | tests/unit-tests/Tokenization/Tokens/TokenTest.php:32 | `escapeIdent` keeps upper-case letters, digits and hyphens after the first character. |
| TokenPrinting.EscapeIdentKeepsLeaders | tests/unit-tests/Tokenization/Tokens/TokenTest.php:34-36 | `escapeIdent` keeps leading hyphens and underscores. |
| TokenPrinting.EscapeIdentKeepsNonAscii | tests/unit-tests/Tokenization/Tokens/TokenTest.php:38 | Non-ASCII letters are ident code points: "中文" prints unescaped. |
| TokenPrinting.EscapeIdentBackslash | tests/unit-tests/Tokenization/Tokens/TokenTest.php:37 | `escapeIdent` escapes a leading backslash as \5C followed by a space and keeps the name after it, as in "\\backslash". |
| TokenPrinting.StringRendering | tests/unit-tests/Tokenization/Tokens/TokenTest.php:53 | A string token escapes its line feed and its double quote but not a single quote: "'line1", a line feed, "line2" and a double quote print as "'line1\A line2\22 " between quotes. |
| TokenPrinting.UrlRendering | tests/unit-tests/Tokenization/Tokens/TokenTest.php:57 | A URL escapes quotes, parentheses and line feeds: a single quote, "line1", a line feed, "(line2)" and a double quote print as url(\27 line1\A \28 line2\29 \22 ). |
| TokenPrinting.UrlUnicodeSpaceRendering | src/Tokenization/Tokens/UrlToken.php:28-33 | The URL pattern carries `/u`, so its `\s` escapes the Unicode spaces too: a no-break space between two texts that need no escape prints as `\A0 `. |
| TokenStreams.WhitespaceEnd | src/Tokenization/TokenStream.php:86-99 | Just past the whitespace tokens starting at pos: every token in between is whitespace and the token at the end, if any, is not. |
| TokenStreams.FirstFrom | src/Tokenization/TokenStream.php:111-120 | The index of the first token at or after pos that satisfies p: it satisfies p and none before it does; none exactly when no token from pos on does. |
| TokenStreams.ErrorPosition | src/Tokenization/TokenStream.php:65-79 | Where `recordParseException` is evidently meant to place an error: the requested position if it is not negative, else the current token's offset, else the last token's, else 0. This is the corrected half of the finding below; the parsers use it. |
| TokenStreams.ErrorPositionAsWritten | src/Tokenization/TokenStream.php:65-79 | `recordParseException` as written: it fails (a TypeError, nothing logged) exactly when the requested position is negative and the stream has a token, because it reads the undeclared `position` property of a token; otherwise it gives the same position as `TokenStreams.ErrorPosition`. |
| TokenStreams.TokenStream.constructor | src/Tokenization/TokenStream.php:40-45 | The stream holds the tokens, their count and position 0, and shares the given error collection. |
| TokenStreams.TokenStream.HasMore | src/Tokenization/TokenStream.php:52-55 | Whether a token remains: true exactly when the position is before the end. |
| TokenStreams.TokenStream.TryConsume | src/Tokenization/TokenStream.php:127-137 | The next token, or none at the end; only then does the position stay. |
| TokenStreams.TokenStream.SkipWhitespace | src/Tokenization/TokenStream.php:86-99 | Skips the whitespace tokens at the position; true iff there was one. Proved to end at `TokenStreams.WhitespaceEnd`. |
| TokenStreams.TokenStream.First | src/Tokenization/TokenStream.php:111-120 | The first token from the position on that satisfies p; the position stays. Proved to give the token at `TokenStreams.FirstFrom`, or none when that finds nothing. |
| TokenStreams.TokenStream.RecordParseException | src/Tokenization/TokenStream.php:65-79 | Logs one error at `requested`, or, when that is negative, at the position's token. The error carries the position `TokenStreams.ErrorPosition` gives and is appended to the log. This is the intended behaviour; as written the source throws a TypeError on that path (see Findings). |
| Tokenizer.SkipComment | src/Tokenization/Tokenizer.php:62-76 | The body of `consumeComments`' loop, at an opener: search for the closer from the opening slash, as the source does, and move past it; when there is none, log the error and move to the end. Proved to leave the rest of `Lexing.CommentsAsWritten` unchanged: the comments from the new position end where those from the old one do. |
| Tokenizer.ConsumeComments | src/Tokenization/Tokenizer.php:62-76 | `consumeComments` as written, with the search for the closer starting at the opening slash. Proved to end at the position `Lexing.CommentsAsWritten` gives, with its errors appended to the log. |
| Tokenizer.ConsumeEscapedCodePoint | src/Tokenization/Tokenizer.php:86-124 | `consumeEscapedCodePoint`, called just after the backslash. Proved equal to `Lexing.EscapedCodePoint`: the same result and end position, with the errors it raises appended to the log. |
| Tokenizer.IdentChunk | src/Tokenization/Tokenizer.php:166-189 | What one round of `consumeIdentSequence` reads: a run of ident code points, one valid escape, or nothing; it ends inside the text and is empty exactly when it consumes nothing. |
| Tokenizer.IdentSequenceByChunks | src/Tokenization/Tokenizer.php:166-189 | An ident sequence is its first round's chunk followed by the sequence after it, and ends where a round reads nothing, so that the rounds add up to `Lexing.IdentSequence`. |
| Tokenizer.IdentRound | src/Tokenization/Tokenizer.php:166-189 | One round of `consumeIdentSequence`: reads exactly `Tokenizer.IdentChunk` from the current position, moves to its end and appends its errors to the log; done, with nothing consumed, where neither a run nor an escape starts. |
| Tokenizer.ConsumeIdentSequence | src/Tokenization/Tokenizer.php:166-189 | `consumeIdentSequence`: alternately runs of ident code points and escapes. Proved equal to `Lexing.IdentSequence`: the same result and end position, with the errors it raises appended to the log. |
| Tokenizer.ConsumeStringStep | src/Tokenization/Tokenizer.php:199-250 | One round of `consumeStringToken`'s loop: the text up to the next quote, newline or backslash, and what that character does. Proved equal to `Lexing.StringStep`: the position and the log follow the step it gives. |
| Tokenizer.ConsumeStringToken | src/Tokenization/Tokenizer.php:199-250 | `consumeStringToken`, called just after the opening quote `ending`. Proved equal to `Lexing.StringToken`: the same result and end position, with the errors it raises appended to the log. |
| Tokenizer.ConsumeRemnantsOfBadUrl | src/Tokenization/Tokenizer.php:546-551 | `consumeRemnantsOfBadUrl`: past the next unescaped ')', or to the end. Proved to end at `Lexing.BadUrlRemnants`. |
| Tokenizer.ConsumeUrlStep | src/Tokenization/Tokenizer.php:261-324 | One round of `consumeUrlToken`'s loop: the text up to the next character that stops an unquoted URL, and what that character does. Proved equal to `Lexing.UrlStep`: the position and the log follow the step it gives. |
| Tokenizer.ConsumeUrlToken | src/Tokenization/Tokenizer.php:261-324 | `consumeUrlToken`, called after "url(": the token starts at `offset`. Proved equal to `Lexing.UrlToken`: the same result and end position, with the errors it raises appended to the log. |
| Tokenizer.ConsumeIdentLikeRest | src/Tokenization/Tokenizer.php:133-157 | The rest of `consumeIdentLikeToken` once the ident sequence s has been consumed: "url(" before a quote, "url(" otherwise, another "(", or nothing. Proved equal to `Lexing.IdentLikeAfter`: the same result and end position, with the errors it raises appended to the log. |
| Tokenizer.ConsumeIdentLikeToken | src/Tokenization/Tokenizer.php:133-157 | `consumeIdentLikeToken`: an ident sequence, then "url(" (a Function when a quote follows the whitespace, else an unquoted URL), another function name, or a plain ident. Proved equal to `Lexing.IdentLike`: the same result and end position, with the errors it raises appended to the log. |
| Tokenizer.TryConsumeNumberToken | src/Tokenization/Tokenizer.php:356-371 | `tryConsumeNumberToken`: the number literal at the position, if any. Proved equal to `Lexing.NumberToken`: none with the position unchanged when it finds nothing, otherwise its token and end position. |
| Tokenizer.ConsumeNumericSuffix | src/Tokenization/Tokenizer.php:380-413 | The suffix of `tryConsumeNumericToken` after the number n read from pos: a unit, a '%' or nothing. Proved equal to `Lexing.NumericSuffix`: the same result and end position, with the errors it raises appended to the log. |
| Tokenizer.TryConsumeNumericToken | src/Tokenization/Tokenizer.php:380-413 | `tryConsumeNumericToken`: a number, then a unit, a '%' or nothing. Proved equal to `Lexing.NumericToken`: none with the position unchanged when it finds nothing, otherwise its token and end position, with its errors appended to the log. |
| Tokenizer.TryConsumeHashToken | src/Tokenization/Tokenizer.php:423-436 | `tryConsumeHashToken`, called just after the '#'. Proved equal to `Lexing.HashToken`: none with the position unchanged when it finds nothing, otherwise its token and end position, with its errors appended to the log. |
| Tokenizer.TryConsumeSymbolToken | src/Tokenization/Tokenizer.php:445-477 | `tryConsumeSymbolToken`: a one-character symbol, "-->" or "<!--"; otherwise the position stays. Proved equal to `Lexing.SymbolToken`: none with the position unchanged when it finds nothing, otherwise its token and end position. |
| Tokenizer.TryConsumeUnicodeRangeToken | src/Tokenization/Tokenizer.php:486-518 | `tryConsumeUnicodeRangeToken`: 'U+', a segment of hex digits and '?'s, and an optional `-HEX`. Proved equal to `Lexing.UnicodeRangeToken`: none with the position unchanged when it finds nothing, otherwise its token and end position. |
| Tokenizer.TryConsumeWhitespaceToken | src/Tokenization/Tokenizer.php:527-539 | `tryConsumeWhitespaceToken`: one token for a run of space, tab and line feed. Proved equal to `Lexing.WhitespaceToken`: none with the position unchanged when it finds nothing, otherwise its token and end position. |
| Tokenizer.ConvertToToken | src/Tokenization/Tokenizer.php:561-640 | `convertToToken`: one token at the position, which the caller knows is not the end. Proved equal to `Lexing.ConvertToToken`: the same result and end position, with the errors it raises appended to the log. |
| Tokenizer.ConsumeCharToken | src/Tokenization/Tokenizer.php:561-640 | The character dispatch at the end of `convertToToken`, once no other token matched. Proved equal to `Lexing.CharToken`: the same result and end position, with the errors it raises appended to the log. |
| Tokenizer.ConsumeNameOrDelimToken | src/Tokenization/Tokenizer.php:561-640 | The rest of the dispatch, with the character at offset consumed. Proved equal to `Lexing.NameOrDelimToken`: the same result and end position, with the errors it raises appended to the log. |
| Tokenizer.ConsumeCommentsAndToken | src/Tokenization/Tokenizer.php:334-347 | One round of `convertToTokenStream`'s loop, on a text that tokenizes from the position: comments, then one token unless they reach the end. Proved equal to `Lexing.CommentsAsWritten` followed, unless they reach the end, by `Lexing.ConvertToToken`; the errors of both are appended to the log, and a token always moves the position forward. |
| Tokenizer.ConvertToTokenStream | src/Tokenization/Tokenizer.php:334-347 | `convertToTokenStream`, on a text that tokenizes from the position: comments and tokens up to the end; the stream shares the error log. Proved equal to `Lexing.TokensFrom`: the new stream holds its tokens, at position 0, and the text stream ends with those errors appended to the shared log. |
| Tokens.NeedsEscape | src/Tokenization/Tokens/UrlToken.php:28-33 | The escape sets of `escapeIdent` (AbstractToken.php:70-81), `StringToken::__toString` and `UrlToken::__toString`; the URL set escapes every space `\s` matches under `/u`, the Unicode separators included. Every set escapes the backslash, and the rest-of-ident set escapes nothing that may start an ident. |
| Tokens.Escape | src/Tokenization/Tokens/AbstractToken.php:45-61 | `escape` never shortens its text: every character is copied or replaced by its escape. What it prints is proved in `TokenLaws.EscapePlain` (characters outside the set are copied in order), `TokenPrinting.EscapedChar` (a character of the set becomes backslash, upper-case hex and a space) and `TokenLaws.EscapeDecodes` (each escape reads back to its character). |
| Tokens.EscapeIdent | src/Tokenization/Tokens/AbstractToken.php:70-81 | `escapeIdent` never shortens its text; `TokenLaws.EscapeIdentIdentity` proves it leaves a valid ident unchanged and `TokenLaws.EscapeIdentLeadingDigit` that it escapes a leading digit. |
| Tokens.ToString | src/Tokenization/Tokens/UrlToken.php:28-33 | `__toString` of every token class: IdentToken.php:27-30, FunctionToken.php:30-33, AtKeywordToken.php:27-30, HashToken.php:41-46, StringToken.php:27-30, BadStringToken.php:27-30, UrlToken.php:28-33, BadUrlToken.php:27-30, DelimToken.php:30-33, NumberToken.php:32-35, PercentageToken.php:32-35, DimensionToken.php:49-52, UnicodeRangeToken.php:42-49, WhitespaceToken.php:27-30 and SymbolToken.php:40-43. An ident prints at least its own length, a function ends in '(', a string sits between double quotes and a URL between `url(` and ')'; the renderings are proved in `TokenPrinting`. |
| Tokens.IntVal | src/Tokenization/Tokens/AbstractNumericToken.php:50-55 | `(int) value`: the value truncated toward zero. |
| Trees.Descendants | src/Matching/DomNodeMatchContext.php:325-346 | `loopDescendants` without the node itself: every path it yields lies strictly below the node; `Trees.DescendantsMeaning` proves the converse. |
| Trees.Parent | src/Matching/DomNodeMatchContext.php:113-116 | `getParentNode`: none exactly for the top node; otherwise the path one step shorter, above p. |
| Trees.StrictAncestors | src/Matching/DomNodeMatchContext.php:281-300 | The ancestors from the parent up to the top node, nearest first, as the `$parent` walk of `loopAncestors` visits them. |
| Trees.ElementChildren | src/Matching/DomNodeMatchContext.php:308-317 | `loopChildren`: exactly the element children of p, each one level below it, in document order. |
| Trees.DescendantsMeaning | src/Matching/DomNodeMatchContext.php:325-346 | The descendants are exactly the nodes strictly below p. |
| Trees.PrevElementSiblings | src/Matching/DomNodeMatchContext.php:354-385 | The element siblings before p, nearest first (the `previousElementSibling` walk). |
| Trees.NextElementSiblings | src/Matching/DomNodeMatchContext.php:393-421 | The element siblings after p, nearest first (the `nextElementSibling` walk). |
| Trees.Filter | src/Selectors/PseudoClasses/ChildIndexedPseudoClass.php:61-64 | The elements of s that pass keep, in their order (`array_filter` and the `continue` guards). |
| Trees.IndexOf | src/Selectors/PseudoClasses/ChildIndexedPseudoClass.php:65 | `array_search` with strict comparison: none exactly when x is absent; otherwise an index holding x with no earlier one. |
| Trees.FirstIndex | src/Matching/DomNodeMatchContext.php:483-497 | The index of the first element of s that passes keep (the early `return` of a search loop). |
| Trees.ElementChildPosition | src/Selectors/PseudoClasses/ChildIndexedPseudoClass.php:65-74 | The position of an element among its parent's element children is the number of element siblings before it, and the children number those before, itself and those after. |
| QualifiedNames.WellFormed | src/Parsing/WqName.php:25-34 | The constructor's assertions; a well-formed name prints a non-empty local name. |
| QualifiedNames.ToString | src/Parsing/WqName.php:62-76 | `__toString` prints at least the local name's length, and more when a prefix was written. |
| QualifiedNames.PipeMarksPrefix | src/Parsing/WqName.php:62-76 | A printed name holds a pipe exactly when a prefix was specified, and then exactly one. |
| QualifiedNames.PrintSeparatesParts | src/Parsing/WqName.php:62-76 | Two printed names are equal only if they agree on whether a prefix was given, and then the prefix prints and the local name prints agree. |
| QualifiedNames.PlainIdent | src/Parsing/WqName.php:62-76 | A name of lower-case ASCII letters is printed as it is. |
| QualifiedNames.QualifiedRendering | src/Parsing/WqName.php:62-76 | A specified prefix and a local name, neither a wildcard and both left alone by escaping, print as the prefix, a pipe and the local name. |
| QualifiedNames.AnyNamespaceRendering | src/Parsing/WqName.php:62-76 | The wildcard prefix with local name `lang` prints as the wildcard, a pipe and `lang`: any namespace. |
| QualifiedNames.NamedNamespaceRendering | src/Parsing/WqName.php:62-76 | Prefix `test` with local name `data` prints as `test`, a pipe and `data`: a named namespace. |
| QualifiedNames.NoNamespaceRendering | src/Parsing/WqName.php:62-76 | A specified empty prefix with local name `data` prints as a pipe and `data`: no namespace. |
| QualifiedNames.PlainRenderings | src/Parsing/WqName.php:62-76 | Without a prefix only the local name is printed; the wildcard stays literal. |

## Left out

- The `DomQuery` facade (src/DomQuery.php) and the `parseSelectorList` it calls are not modelled. The facade is glue around PHP's DOM classes, and `parseSelectorList` is not defined in src/Parsing/SelectorParser.php.
- The `jsonSerialize` methods, src/Utilities/Json.php, rector.php and the benchmarks are not modelled: they are serialisation and tooling. The selector tree is kept as datatypes instead.
- `RegexResult` and `TextStream::matchRegex` are not modelled: the PCRE engine is foreign code. Each pattern the tokenizer and the matchers use is written out as an explicit predicate or scan.
- Floating-point values are not modelled. A number token keeps its literal text with its `isInt` and `hasSign` flags. `floatval` and the `strval` printing of non-integer numbers, dimensions and percentages are left abstract.
- Tokens.IntVal: PHP's `intval` saturates at the bounds of a 64-bit integer, but the model truncates the exact decimal value toward zero on unbounded integers. The same holds for the digits AnbParsing.DigitsAfter reads.
- Offsets are counted in code points; the source counts bytes of UTF-8. The byte-wise `peek(1)` at the start of a token, which hits invalid UTF-8 on a non-ASCII character, is not modelled. `mb_chr`, `mb_substr` and the UTF-8 validity error of `escape` are not modelled either.
- Chars.Lower: `mb_strtolower` in the case-insensitive attribute test is modelled as ASCII lower-casing, so AttrValues.CaseInsensitiveIgnoresCase holds only up to ASCII case. Unicode case mapping is not modelled.
- Lexing.TokensFrom and Tokenizer.ConvertToTokenStream require `Lexing.Tokenizes`: no token may start at a final lone backslash. There `consumeIdentSequence` reads an empty name, fails its internal assertion and the loop never advances, so the model makes no claim for such a text. A final escaped backslash or a final backslash inside a string is covered (Lexing.EscapedBackslashTokenizes, Lexing.UnterminatedStringTokenizes).
- TokenStreams.TokenStream.RecordParseException: when the requested position is negative and the stream has a token, the source reads the undeclared `position` property of a token, gets null, and the `int` parameter of `ParseException` throws a TypeError before anything is logged. This is every call in src/Parsing/SelectorParser.php and src/Parsing/PseudoSelectorParser.php except the nested `:has()` error, which passes an offset. The model logs the error at the token's offset instead, as the unit tests expect, and so do the parsers built on it; the TypeError path is recorded as a finding (TokenStreams.ErrorPositionAsWritten).
- TokenStreams.ErrorPosition: gives the intended position, the token's offset, not the source's TypeError; see the line above.
- SelectorScans.CombinatorAt: a single '|' after whitespace stays consumed, as the source has it. Beyond the combinator table, the model states nothing about that path.
- AnbParsing.AnbAt follows src/Parsing/AnbParser.php, which has no branch for a bare `n` identifier. The unit tests in tests/unit-tests/Parsing/AnbParserTest.php expect one; the model follows the code.
- The unit tests that expect a `LogicException` for a wrong pseudo-class name, and the message test of the unknown pseudo-class, do not match the code. The model follows the code.
- PHP's `assert()` calls are treated as disabled, as in production. Where one guards a case the model can reach, the code after it is modelled. Example: a node missing from its typed siblings, at src/Selectors/PseudoClasses/TypedChildIndexedPseudoClass.php:53.
- The DOM is an abstract finite tree: node kind, local name, namespace, attributes and children. `getNodeType`, PHP's `\DOMNode` classes and the namespace constants of `isHtmlElement` are not modelled beyond an enumeration and a namespace field.
- The generators of `DomNodeMatchContext` become finite sequences in visiting order; their laziness is not modelled.
- Exceptions become `Result` failures carrying the message and position. A thrown parse error is also appended to the shared log, as `throw recordParseException(...)` does for the tokenizer's text stream and for a token-stream error with an explicit position. For the other token-stream errors the source throws a TypeError and logs nothing, which the model does not follow (see TokenStreams.TokenStream.RecordParseException above). A TypeError inside a forgiving list is caught there like a parse error, so for forgiving lists the two agree.
- SelectorLaws.AnyLinkNeedsHref: the claim that the value of `href` does not matter is proved as an if-and-only-if with the presence of the attribute. It is not stated as a comparison of two trees.
- TokenPrinting.UrlRendering: the printed URL token is not proved to tokenize back to the same URL. The tokenizer round trip is proved for string tokens only (TokenLaws.StringRoundTrip).
- SelectorPrinting.AndRendering, SelectorPrinting.OrRendering, SelectorPrinting.WhereRendering, SelectorPrinting.ChildRelativeRendering, SelectorPrinting.DescendantRelativeRendering, SelectorPrinting.FunctionalRenderings, SelectorPrinting.NthOfRendering, SelectorPrinting.PlainAttributeRendering and SelectorPrinting.QualifiedAttributeRendering state the renderings of the unit tests for any names of lower-case letters, not for the tests' literal names.
- SelectorGrammarLaws.PseudoElementForms: the legacy pseudo-element branch of `tryParsePseudoElementSelector` cannot be reached from the selector grammar. A `:before` after a compound is read first as an unknown pseudo-class by the subclass loop, so only the `::` form is ever built.

## Findings

| source | as written | input that shows it | evidently intended | confidence | as-written member | corrected member |
|---|---|---|---|---|---|---|
| src/Tokenization/Tokenizer.php:62-76 | `consumeComments` searches for the closing `*/` from the position of the opening `/*`, so the star of the opener can serve as the star of the closer and `/*/` reads as a complete comment | `/*/a*/b`: the comments stop after three characters and `a*/b` is tokenized | the search starts after the opener, as section 4.3.2 of CSS Syntax Module Level 3 states; the comment runs to the `*/` and only `b` remains. The tokenizer keeps the code as written; Lexing.CommentsAgree shows the two searches agree on every text without slash-star-slash | not executed | Lexing.SelfClosingCommentAsWritten | Lexing.CommentEndsAtFirstCloser |
| src/Tokenization/TokenStream.php:65-79 | with a negative position, `recordParseException` reads `$this->tokens[...]->position`, but tokens declare only `offset` and `length`; the null it gets makes `new ParseException($message, null)` throw a TypeError before the error is logged | the selector `[`: "Missing attribute name." is raised at the end of the one-token stream, and a TypeError is thrown instead | the token's `offset` is read, as the unit tests expect, and the error is logged at offset 0 | not executed | TokenStreams.ErrorPositionAsWritten, SelectorScanLaws.MissingAttributeNameAsWritten | TokenStreams.ErrorPosition |
