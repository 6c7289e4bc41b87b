# QName: a verified model of the qualified-name grammar

The repository parses a single string as an XML-style qualified name,
`prefix ':' localname` or a simple name, following a small BNF written in
its doc-comments, and wraps the result in a `QName` value with a canonical
string form, `equals` and `hashCode`. It holds three revisions of that
grammar, and this project models all three:

- the current `QName` (`src/main/.../QName.java`), whose rules throw
  `IllegalNameException` with a specific reason, whose `nameRule` dispatches
  on the position of the first colon, and whose `parse` can also return
  `null` (module `CurrentQName`);
- the stale `QNameParser` beside it (`src/main/.../QNameParser.java`), an
  exception-free set of boolean rules with a simple-first `nameRule`
  (module `BoolGrammar`);
- the first revision (`src/com/...`): a `QName` with public setters and a
  `QNameParser` that fills it. Its rule predicates are the same text as the
  stale parser's (`nonSpaceRule` 30-34, `charRule` 36-39, `stringRule` 41-47,
  `prefixRule` 49-59, `threeOrMoreCharNameRule` 61-70, the one- and two-char
  rules 72-103, `localNameRule` 105-108, `prefixedNameRule` 110-122,
  `simpleNameRule` 124-128, `nameRule` 130-132), with the patterns compiled
  inline, so the module `LegacyQName` uses the `BoolGrammar` predicates.

Modules, one per file: `Wrappers` (Option for a nullable reference, Result),
`CharClasses` (the character classes of the three regular expressions),
`Names` (the parsed value, `indexOf`, the split at the first colon),
`BoolGrammar`, `CurrentQName`, `LegacyQName`, and `TestCases` (the JUnit
cases as lemmas about the current parse).

The main results:

- All three revisions accept the same strings and build the same
  `(prefix, localName)` pair (`CurrentQName.ParseOutcome`,
  `LegacyQName.QNameParser.Parse`, both stated against `BoolGrammar.Parse`).
- An accepted string is split at its first colon. The prefix is set only when
  that colon is past index 0. The canonical form `getAsString()` gives back
  the input exactly, and neither part holds a colon. So two colons are never
  accepted, and a colon is never first or last.
- Each name rule, written in the source as a case split over lengths 1, 2 and
  3 or more, is proved equal to one shape. That shape is: non-empty, the first
  and last characters nonspace, and every interior character nonspace or
  `' '`. Simple names are those shapes minus `"."` and `".."`.
- The current revision reports the first rule that fails. The prefix is
  checked first (the "xml" check before the pattern). Then the local name is
  checked: first character, last character, then the leftmost bad interior
  character.
- Equal canonical strings mean equal parts, so `equals` and `hashCode`
  agree for any string hash function.

Definitions without a contract of their own (their properties are the lemmas
below): `CharClasses.NonSpace`, `OneCharSimple`, `NameChar`, `IsXmlName`,
`StartsWithXml` (the patterns at `src/main/java/com/codenvy/testtask/qname/QName.java`
27-41 and `equalsIgnoreCase("xml")` at 311-317); `BoolGrammar.NonSpaceRule`,
`OneCharSimpleNameRule`, `PrefixRule`, `PrefixedNameRule`, `NameRule`;
`CurrentQName.CharRule` (348-357); `Names.Name.AsString` (`getAsString`,
74-76); `CurrentQName.QName.GetAsString` (74-76) and
`LegacyQName.QName.GetAsString` (`src/com/codenvy/testtask/qname/QName.java`
30-32), both `AsString` of the object's fields; `CurrentQName.QName.HashCode`
(109-113), the xor of the two parts' hashes with 0 for a null prefix, whose
agreement with `equals` is `CurrentQName.EqualsAgreesWithHashCode`; the
accessors, which are the fields of the two `QName` classes.

## Model

| member | source | states |
|---|---|---|
| `CharClasses.XmlNameMatchesPattern` | src/main/java/com/codenvy/testtask/qname/QName.java:34-35 | The hand-written prefix matcher accepts exactly the strings that fully match `_?\p{Alpha}+[\p{Alnum}-_.]*`, read as an optional '_', a run of letters and a tail of name characters (both directions) |
| `CharClasses.XmlNameChars` | src/main/java/com/codenvy/testtask/qname/QName.java:34-35 | A valid XML name is non-empty and every character is a letter, digit, '-', '_' or '.'; so a prefix never holds ':' or a space |
| `Names.IndexOf` | src/main/java/com/codenvy/testtask/qname/QName.java:138 | `indexOf(':')`: -1 exactly when the character is absent, otherwise a position holding it with no earlier occurrence |
| `Names.SplitAtFirstColon` | src/main/java/com/codenvy/testtask/qname/QName.java:138-143 | The split parse performs: the prefix is present iff the string has a colon and does not start with one; a present prefix is non-empty and colon-free; when the first colon is not at index 0, the canonical form of the split is the input |
| `Names.IndexOfAfterPrefix` | src/main/java/com/codenvy/testtask/qname/QName.java:74-76 | In `prefix + ":" + localName` with a colon-free prefix, the first colon sits right after the prefix |
| `Names.AsStringInjective` | src/main/java/com/codenvy/testtask/qname/QName.java:90-113 | For names with no colon in either part, equal canonical strings imply equal prefix and local name |
| `Names.SplitOfAsString` | src/main/java/com/codenvy/testtask/qname/QName.java:74-76 | Splitting a well-formed name's canonical form at its first colon gives the same name back |
| `BoolGrammar.TwoCharSimpleNameRule` | src/main/java/com/codenvy/testtask/qname/QNameParser.java:124-134 | '.'+c, c+'.' or c+c accept exactly the two-character strings of nonspace characters other than "..", and nothing of another length |
| `BoolGrammar.OneCharLocalNameRule` | src/main/java/com/codenvy/testtask/qname/QNameParser.java:141-146 | True exactly for a single nonspace character ('.' included) |
| `BoolGrammar.TwoCharLocalNameRule` | src/main/java/com/codenvy/testtask/qname/QNameParser.java:153-159 | True exactly for two nonspace characters |
| `BoolGrammar.StringRule` | src/main/java/com/codenvy/testtask/qname/QNameParser.java:198-214 | The recursion on all-but-the-last character accepts exactly the non-empty strings whose every character is nonspace or ' ' |
| `BoolGrammar.ThreeOrMoreCharNameRule` | src/main/java/com/codenvy/testtask/qname/QNameParser.java:166-175 | False below length 3; otherwise true iff the first and last characters are nonspace and every interior one is nonspace or ' ' |
| `BoolGrammar.LocalNameRule` | src/main/java/com/codenvy/testtask/qname/QNameParser.java:99-102 | The three-way alternative equals one shape: non-empty, nonspace ends, interior nonspace or ' ' |
| `BoolGrammar.SimpleNameRule` | src/main/java/com/codenvy/testtask/qname/QNameParser.java:73-77 | Simple names are exactly the local-name shapes other than "." and ".." |
| `BoolGrammar.Parse` | src/main/java/com/codenvy/testtask/qname/QNameParser.java:42-56 | Succeeds iff the input is non-null, non-empty and satisfies nameRule, else IllegalName(name); on success the canonical form is the input, neither part holds a colon, the prefix is present iff the input has a colon, the prefix satisfies prefixRule and the local name localNameRule |
| `BoolGrammar.NameRuleSplits` | src/main/java/com/codenvy/testtask/qname/QNameParser.java:45-52 | For an accepted string, the first colon is not at index 0 and the split at it yields a valid prefix and a valid, colon-free local name |
| `BoolGrammar.NoColonInShape` | src/com/codenvy/testtask/qname/QNameParser.java:110-114 | No name shape holds ':', because ':' is outside nonspace and outside char |
| `BoolGrammar.NameRuleDispatch` | src/main/java/com/codenvy/testtask/qname/QNameParser.java:63-65 | The simple-first disjunction accepts exactly what the colon-dispatching nameRule of the current QName accepts |
| `BoolGrammar.SecondColonRejected` | src/com/codenvy/testtask/qname/QNameParser.java:110-122 | A string with two colons satisfies neither simplename nor prefixedname |
| `BoolGrammar.PrefixHasNoColon` | src/main/java/com/codenvy/testtask/qname/QNameParser.java:182-191 | A prefix that prefixRule accepts is non-empty and colon-free |
| `BoolGrammar.PrefixedNameMatchesProduction` | src/main/java/com/codenvy/testtask/qname/QNameParser.java:84-91 | prefixedNameRule, which splits at the first colon past index 0, holds iff the string can be written as prefix ':' localname in any way (both directions) |
| `BoolGrammar.ProductionSplitsAtFirstColon` | src/main/java/com/codenvy/testtask/qname/QNameParser.java:84-91 | Any reading of a string as prefix ':' localname is the reading at its first colon: the first colon sits right after that prefix, the split there gives back that prefix and local name, and prefixedNameRule accepts it |
| `BoolGrammar.ParseIdempotent` | src/main/java/com/codenvy/testtask/qname/QNameParser.java:42-56 | Parsing the canonical form of a parsed name gives the same name |
| `CurrentQName.StringRule` | src/main/java/com/codenvy/testtask/qname/QName.java:333-340 | The throwing stringRule never returns false and returns true exactly when the boolean stringRule holds |
| `CurrentQName.StringRuleReportsFirstBadChar` | src/main/java/com/codenvy/testtask/qname/QName.java:333-357 | The exception stringRule throws names the leftmost character that is neither nonspace nor ' ' |
| `CurrentQName.ThreeOrMoreCharNameRule` | src/main/java/com/codenvy/testtask/qname/QName.java:283-301 | Returns false exactly for strings shorter than 3; returns true exactly when the boolean rule holds; a bad first character throws CannotStartWith with it, then a bad last character throws CannotEndWith with it, before any interior character is looked at |
| `CurrentQName.ThreeOrMoreReportsFirstBadChar` | src/main/java/com/codenvy/testtask/qname/QName.java:283-301 | With nonspace ends, the exception names the leftmost bad interior character |
| `CurrentQName.PrefixRule` | src/main/java/com/codenvy/testtask/qname/QName.java:309-325 | Never returns false; returns true exactly when the boolean prefixRule holds (not "xml" in any case, and a full XML-name match); an "xml" start in any case throws PrefixStartsWithXml with the first three characters, ahead of the pattern; otherwise a pattern mismatch throws PrefixNotXmlName with the whole prefix |
| `CurrentQName.LocalNameRule` | src/main/java/com/codenvy/testtask/qname/QName.java:213-217 | True exactly when the boolean rule holds; false (not an exception) exactly for a bad local name of length 0, 1 or 2 |
| `CurrentQName.PrefixedNameRule` | src/main/java/com/codenvy/testtask/qname/QName.java:194-204 | True exactly when the boolean prefixedNameRule holds; a first colon in the last position throws |
| `CurrentQName.SimpleNameRule` | src/main/java/com/codenvy/testtask/qname/QName.java:176-186 | Never returns false; true exactly when the boolean simpleNameRule holds; a refused name of length 0, 1 or 2 throws CannotCreate with the name |
| `CurrentQName.NameRule` | src/main/java/com/codenvy/testtask/qname/QName.java:160-167 | The colon-index dispatch returns true exactly on the strings the stale, simple-first nameRule accepts |
| `CurrentQName.ParseOutcome` | src/main/java/com/codenvy/testtask/qname/QName.java:132-152 | Null or "" fail before any rule; a QName is returned iff the stale parser succeeds, with the same prefix and local name; null is returned exactly for a valid prefix followed by a bad local name of length 1 or 2, counted in characters (Unicode scalar values) |
| `CurrentQName.ParsePrefixedName` | src/main/java/com/codenvy/testtask/qname/QName.java:137-144 | Any valid prefix, ':' and any valid local name parse to exactly that prefix and local name |
| `CurrentQName.ParseSimpleName` | src/main/java/com/codenvy/testtask/qname/QName.java:137-144 | Any valid simple name parses to a name without prefix whose local name is the whole input |
| `CurrentQName.PrefixFailureReported` | src/main/java/com/codenvy/testtask/qname/QName.java:194-204 | When the prefix rule throws, parse reports that reason, whatever non-empty local name follows (an empty one is refused earlier by the trailing-colon check) |
| `CurrentQName.LocalNameFailureReported` | src/main/java/com/codenvy/testtask/qname/QName.java:194-204 | With a valid prefix, a throwing local-name rule's reason is the one parse reports |
| `CurrentQName.TrailingColonReported` | src/main/java/com/codenvy/testtask/qname/QName.java:194-200 | A string whose first colon is past index 0 and in the last position fails parse with CannotCreate of the whole string |
| `CurrentQName.SimpleNameFailureReported` | src/main/java/com/codenvy/testtask/qname/QName.java:176-186 | Without a colon past index 0, the simple-name rule's reason is the one parse reports |
| `CurrentQName.InteriorFailureReported` | src/main/java/com/codenvy/testtask/qname/QName.java:283-301 | A colon-free name of length 3 or more with nonspace ends fails parse with CannotContain of its leftmost interior character that is neither nonspace nor ' ' |
| `CurrentQName.ParseCorrected` | src/main/java/com/codenvy/testtask/qname/QName.java:132-152 | The parse with the null return replaced by an exception: same accepted strings and split as the stale parser, and the same exception wherever the code as written throws |
| `CurrentQName.NullReturnedForShortBadLocalName` | src/main/java/com/codenvy/testtask/qname/QName.java:145-147 | "ab:/" makes parse return null as written, while the corrected parse throws |
| `CurrentQName.QName.constructor` | src/main/java/com/codenvy/testtask/qname/QName.java:47 | The private constructor leaves no prefix and an empty local name |
| `CurrentQName.QName.SetPrefix` | src/main/java/com/codenvy/testtask/qname/QName.java:49-51 | Sets the prefix and leaves the local name unchanged |
| `CurrentQName.QName.SetLocalName` | src/main/java/com/codenvy/testtask/qname/QName.java:60-62 | Sets the local name and leaves the prefix unchanged |
| `CurrentQName.QName.Equals` | src/main/java/com/codenvy/testtask/qname/QName.java:90-103 | True for the same object; false for null or a non-QName; otherwise compares canonical strings, which for parsed names means comparing both parts |
| `CurrentQName.QName.Parse` | src/main/java/com/codenvy/testtask/qname/QName.java:121-152 | Throws, returns null or returns a fresh QName exactly as ParseOutcome says, filling the new object through setPrefix (only for a colon past index 0) and setLocalName |
| `CurrentQName.EqualsAgreesWithHashCode` | src/main/java/com/codenvy/testtask/qname/QName.java:105-113 | Two parsed QNames that are equal have the same hashCode for every String hash function |
| `LegacyQName.QName.constructor` | src/com/codenvy/testtask/qname/QName.java:10-12 | The default constructor leaves no prefix and an empty local name |
| `LegacyQName.QName.SetPrefix` | src/com/codenvy/testtask/qname/QName.java:14-16 | Sets the prefix and leaves the local name unchanged |
| `LegacyQName.QName.SetLocalName` | src/com/codenvy/testtask/qname/QName.java:22-24 | Sets the local name and leaves the prefix unchanged |
| `LegacyQName.QName.Equals` | src/com/codenvy/testtask/qname/QName.java:38-40 | Compares canonical strings; for parsed names, that is equality of both parts |
| `LegacyQName.QName.Parse` | src/com/codenvy/testtask/qname/QName.java:34-36 | Same result or exception as a fresh QNameParser's parse, hence as the stale parser |
| `LegacyQName.QNameParser.Parse` | src/com/codenvy/testtask/qname/QNameParser.java:14-28 | Throws IllegalName(name) exactly when the stale parser does; otherwise a fresh QName whose fields are the stale parser's split |
| `TestCases.GetPrefixCase` | src/test/java/com/codenvy/testtask/qname/TestQName.java:11-16 | "_param:Luis" has prefix "_param" |
| `TestCases.GetLocalNameCase` | src/test/java/com/codenvy/testtask/qname/TestQName.java:18-23 | "ar7-me:A.G.n ag" has local name "A.G.n ag" |
| `TestCases.GetAsStringCase` | src/test/java/com/codenvy/testtask/qname/TestQName.java:25-30 | "_p7txd:na me." is accepted and split at its colon |
| `TestCases.WithoutPrefixCase` | src/test/java/com/codenvy/testtask/qname/TestQName.java:32-37 | "justAname" has no prefix |
| `TestCases.PrefixNameCase` | src/test/java/com/codenvy/testtask/qname/TestQName.java:39-44 | "prefix:name" yields a QName, split at its colon |
| `TestCases.UnicodeCase` | src/test/java/com/codenvy/testtask/qname/TestQName.java:46-52 | Characters outside ASCII are nonspace |
| `TestCases.NullAndEmptyCases` | src/test/java/com/codenvy/testtask/qname/TestQName.java:54-62 | null and "" are refused before any rule |
| `TestCases.LeadingColonCase` | src/test/java/com/codenvy/testtask/qname/TestQName.java:64-67 | ":name" takes the simple-name path and fails on its first character |
| `TestCases.DotCases` | src/test/java/com/codenvy/testtask/qname/TestQName.java:69-77 | "." and ".." are refused |
| `TestCases.TrailingColonCase` | src/test/java/com/codenvy/testtask/qname/TestQName.java:79-82 | "runner:" is refused by the trailing-colon check |
| `TestCases.LeadingSpaceCase` | src/test/java/com/codenvy/testtask/qname/TestQName.java:84-87 | " fghj" fails on its first character |
| `TestCases.SpaceBeforePrefixCase` | src/test/java/com/codenvy/testtask/qname/TestQName.java:89-92 | " fghj:poiy" fails on its prefix |
| `TestCases.SpaceAfterColonCase` | src/test/java/com/codenvy/testtask/qname/TestQName.java:94-97 | "rtp: poiy" fails on the local name's first character |
| `TestCases.TrailingSpaceCase` | src/test/java/com/codenvy/testtask/qname/TestQName.java:99-102 | "rtp:poiy " fails on the local name's last character |
| `TestCases.SpaceInPrefixCase` | src/test/java/com/codenvy/testtask/qname/TestQName.java:104-107 | "fg hj:poiy" fails on its prefix |
| `TestCases.XmlPrefixCase` | src/test/java/com/codenvy/testtask/qname/TestQName.java:109-112 | "xmlfghj:poiy" fails on the "xml" check |
| `TestCases.WrongSymbolCase` | src/test/java/com/codenvy/testtask/qname/TestQName.java:114-117 | "fghj]poiy" fails on ']' |
| `TestCases.WrongQuoteCase` | src/test/java/com/codenvy/testtask/qname/TestQName.java:119-122 | "fghj\"poiy" fails on '"' |
| `TestCases.TwoColonsCase` | src/test/java/com/codenvy/testtask/qname/TestQName.java:124-127 | "fghj:p:oiy" fails on the second colon, inside the local name |
| `TestCases.ShortNameCases` | src/main/java/com/codenvy/testtask/qname/QNameParser.java:124-159 | "." is a local name but not a simple name, ".x" and "x." are simple names, " b" and "/" are not local names |

## Where the code and the written grammar differ (the model follows the code)

- Whitespace is Java's default `\s`: space, tab, newline, vertical tab, form
  feed and carriage return. Other Unicode whitespace counts as nonspace.
- `\p{Alpha}` and `\p{Alnum}` are ASCII classes, so a prefix is ASCII only.
- The current `nameRule` never falls back to the simple-name rule when the
  first colon is past index 0. `BoolGrammar.NameRuleDispatch` proves that
  this accepts the same strings as trying both forms.
- The current `parse` can return null (see Findings).

## Left out

- The `java.util.regex` engine: the three patterns are replaced by the character predicates of `CharClasses`.
- UTF-16 code units: a Dafny `char` is a Unicode scalar value, so a supplementary character (outside the Basic Multilingual Plane) is one `char` in the model but a surrogate pair, two units, in a Java `String`, and a lone surrogate cannot be represented at all. Every length in the model (the 1/2/3-or-more split of the rules, `substring` positions, the "length 1 or 2" of `CurrentQName.ReturnsNull`) is counted in scalar values, not in `String.length()`. So for names holding supplementary characters the model can take a different branch from the code: "ab:/" followed by one supplementary character returns null in the model, where in Java the local name has length 3 and `threeOrMoreCharNameRule` throws on its first character '/'.
- Exception messages and both `IllegalNameException` classes: a failure carries a reason tag and the fragment the message quotes. The current revision's wrapping ("An error occured while building QName from ...") is the `BuildFailed(name, cause)` constructor.
- `CurrentQName.QName.HashCode`: `String.hashCode` is a parameter (`stringHash`), since its integer arithmetic is library code. The model does state the xor of the two hashes, with 0 for a null prefix.
- `toString`.
- Null strings inside a QName: the local name of a QName whose `setLocalName` has not run yet is modelled as `""`, and the setters take a `string`, not a nullable one. Every QName that parse hands out has it set, so the null branch of the current `equals` (QName.java:99-101) is unreachable in the model. The first revision's setters are public (`src/com/codenvy/testtask/qname/QName.java` 14-24), so Java callers can also pass `null` to them. A null local name after `setPrefix("p")` then prints as "p:null" in `getAsString`, where the model gives "p:". A null passed to `setPrefix` is the model's `None`.
- `LegacyQName.QName.Equals`: the NullPointerException on a null argument is not modelled. The argument is a non-null QName.
- The stale `QNameParser.parse` calls the current QName's private constructor and setters, so it does not compile against it. `BoolGrammar.Parse` builds the same pair as a value instead of through setters.
- `stringRule` is applied only to the middle of a name of length 3 or more, so `StringRule` requires a non-empty string. The Java code would fail on `substring(0, -1)` for "".
- `CurrentQName.PrefixedNameRule` requires the first colon to be past index 0, as at its one call site. Without a colon, the Java code would fail on `substring(0, -1)`.
- The JUnit harness: its cases are the lemmas of `TestCases`.

## Findings

| source | as written | input that shows it | evidently intended | confidence | as-written member | corrected member |
|---|---|---|---|---|---|---|
| src/main/java/com/codenvy/testtask/qname/QName.java:145-147 | `checkRules` returns null when `nameRule` returns false. That happens for a valid prefix followed by a one- or two-character local name that is not all nonspace. | "ab:/" | Throw `IllegalNameException`, as the method's `@return`/`@throws` documentation and every other rejection path do | medium; not executed | `CurrentQName.NullReturnedForShortBadLocalName` (with `CurrentQName.ParseOutcome`) | `CurrentQName.ParseCorrected` |
