/**
 * The exception-free grammar: every rule is a boolean predicate over the
 * whole candidate string, and `parse` throws only when `nameRule` is false.
 * This is the stale QNameParser kept beside the current QName; the older
 * parser of the first revision has rule bodies identical to these and reuses them.
 */
module BoolGrammar {
  import opened Wrappers
  import opened CharClasses
  import opened Names

  /**
   * The language every name rule describes, stated without the BNF's case split:
   * a non-empty string whose first and last characters are nonspace and whose
   * interior characters are nonspace or ' '.
   */
  predicate NameShape(s: string) {
    && |s| >= 1
    && NonSpace(s[0])
    && NonSpace(s[|s| - 1])
    && forall i :: 0 < i < |s| - 1 ==> NameChar(s[i])
  }

  /** nonSpaceRule(s): the NONSPACE pattern matches all of s. */
  predicate NonSpaceRule(s: string) {
    |s| == 1 && NonSpace(s[0])
  }

  /** oneCharSimpleNameRule(s): the SIMPLE_NAME_PATTERN matches all of s. */
  predicate OneCharSimpleNameRule(s: string) {
    |s| == 1 && OneCharSimple(s[0])
  }

  /** twocharsimplename ::= '.' onecharsimplename | onecharsimplename '.' | onecharsimplename onecharsimplename */
  function TwoCharSimpleNameRule(s: string): (b: bool)
    ensures b <==> |s| == 2 && NameShape(s) && s != ".."
  {
    if |s| != 2 then false
    else
      || (s[..1] == "." && OneCharSimpleNameRule(s[1..]))
      || (s[1..] == "." && OneCharSimpleNameRule(s[..1]))
      || (OneCharSimpleNameRule(s[..1]) && OneCharSimpleNameRule(s[1..]))
  }

  /** onecharlocalname ::= nonspace */
  function OneCharLocalNameRule(s: string): (b: bool)
    ensures b <==> |s| == 1 && NameShape(s)
  {
    if |s| != 1 then false else NonSpaceRule(s)
  }

  /** twocharlocalname ::= nonspace nonspace */
  function TwoCharLocalNameRule(s: string): (b: bool)
    ensures b <==> |s| == 2 && NameShape(s)
  {
    if |s| != 2 then false else NonSpaceRule(s[..1]) && NonSpaceRule(s[1..])
  }

  /** string ::= char | string char, recursing on all but the last character. */
  function StringRule(s: string): (b: bool)
    requires |s| >= 1
    ensures b <==> forall i :: 0 <= i < |s| ==> NameChar(s[i])
    decreases |s|
  {
    if |s| == 1 then NameChar(s[0])
    else StringRule(s[..|s| - 1]) && NameChar(s[|s| - 1])
  }

  /** threeormorecharname ::= nonspace string nonspace */
  function ThreeOrMoreCharNameRule(s: string): (b: bool)
    ensures b <==> |s| >= 3 && NameShape(s)
  {
    if |s| < 3 then false
    else
      var middle := s[1..|s| - 1];
      assert forall i :: 0 < i < |s| - 1 ==> s[i] == middle[i - 1];
      NonSpaceRule(s[..1]) && StringRule(middle) && NonSpaceRule(s[|s| - 1..])
  }

  /** prefix ::= any valid XML name, except one whose first three characters are "xml" in any case. */
  predicate PrefixRule(p: string) {
    !StartsWithXml(p) && IsXmlName(p)
  }

  /** localname ::= onecharlocalname | twocharlocalname | threeormorecharname */
  function LocalNameRule(s: string): (b: bool)
    ensures b <==> NameShape(s)
  {
    OneCharLocalNameRule(s) || TwoCharLocalNameRule(s) || ThreeOrMoreCharNameRule(s)
  }

  /** simplename ::= onecharsimplename | twocharsimplename | threeormorecharname */
  function SimpleNameRule(s: string): (b: bool)
    ensures b <==> NameShape(s) && s != "." && s != ".."
  {
    OneCharSimpleNameRule(s) || TwoCharSimpleNameRule(s) || ThreeOrMoreCharNameRule(s)
  }

  /** prefixedname ::= prefix ':' localname, with the first colon as the separator. */
  predicate PrefixedNameRule(s: string) {
    var k := IndexOf(s, ':');
    k > 0 && PrefixRule(s[..k]) && LocalNameRule(s[k + 1..])
  }

  /** name ::= simplename | prefixedname, trying the simple form first. */
  predicate NameRule(s: string) {
    SimpleNameRule(s) || PrefixedNameRule(s)
  }

  /** IllegalNameException(name), with the name that was refused (None for null). */
  datatype ParseError = IllegalName(name: Option<string>)

  /**
   * parse(name): refuse null and "" before any rule, refuse what nameRule
   * refuses, and split an accepted string at its first colon.
   */
  function Parse(name: Option<string>): (r: Result<Name, ParseError>)
    ensures r.Ok? <==> name.Some? && name.value != "" && NameRule(name.value)
    ensures r.Err? ==> r.error == IllegalName(name)
    ensures r.Ok? ==> r.value.AsString() == name.value && r.value.WellFormed()
    ensures r.Ok? ==> (r.value.prefix.Some? <==> ':' in name.value)
    ensures r.Ok? && r.value.prefix.Some? ==> PrefixRule(r.value.prefix.value)
    ensures r.Ok? ==> LocalNameRule(r.value.localName)
  {
    if name.None? || name.value == "" then Err(IllegalName(name))
    else if NameRule(name.value) then
      NameRuleSplits(name.value);
      Ok(SplitAtFirstColon(name.value))
    else Err(IllegalName(name))
  }

  /** A name holds no colon except one separator, which is neither first nor last. */
  lemma NameRuleSplits(s: string)
    requires NameRule(s)
    ensures IndexOf(s, ':') != 0
    ensures SplitAtFirstColon(s).WellFormed()
    ensures var n := SplitAtFirstColon(s); n.prefix.Some? ==> PrefixRule(n.prefix.value)
    ensures LocalNameRule(SplitAtFirstColon(s).localName)
  {
    var k := IndexOf(s, ':');
    if SimpleNameRule(s) {
      NoColonInShape(s);
      assert k == -1 && s[0..] == s;
      assert SplitAtFirstColon(s) == Name(None, s);
      assert LocalNameRule(s);
    } else {
      assert k > 0 && PrefixRule(s[..k]) && LocalNameRule(s[k + 1..]);
      NoColonInShape(s[k + 1..]);
      PrefixHasNoColon(s[..k]);
      assert SplitAtFirstColon(s) == Name(Some(s[..k]), s[k + 1..]);
    }
  }

  /** ':' belongs to no class a name shape draws on. */
  lemma NoColonInShape(s: string)
    requires NameShape(s)
    ensures ':' !in s
  {
  }

  /**
   * The simple-first disjunction accepts exactly what the colon-dispatching
   * nameRule of the current QName accepts: no simple name holds a colon.
   */
  lemma NameRuleDispatch(s: string)
    ensures NameRule(s) <==>
      var k := IndexOf(s, ':');
      if k > 0 then PrefixRule(s[..k]) && LocalNameRule(s[k + 1..]) else SimpleNameRule(s)
  {
    var k := IndexOf(s, ':');
    if k > 0 {
      assert !SimpleNameRule(s) by {
        if SimpleNameRule(s) {
          NoColonInShape(s);
        }
      }
      assert NameRule(s) == PrefixedNameRule(s);
    } else {
      assert !PrefixedNameRule(s);
      assert NameRule(s) == SimpleNameRule(s);
    }
  }

  /** Two colons are never accepted: the second must be part of the local name, which excludes ':'. */
  lemma SecondColonRejected(s: string, i: int, j: int)
    requires 0 <= i < j < |s| && s[i] == ':' && s[j] == ':'
    ensures !NameRule(s)
  {
    if SimpleNameRule(s) {
      NoColonInShape(s);
    }
    if PrefixedNameRule(s) {
      var k := IndexOf(s, ':');
      NoColonInShape(s[k + 1..]);
    }
  }

  /** The argument of prefixedNameRule as the BNF writes it: some prefix, a colon, some local name. */
  predicate PrefixedForm(s: string, p: string, l: string) {
    s == p + ":" + l && PrefixRule(p) && LocalNameRule(l)
  }

  /** A valid prefix is a non-empty run of XML name characters, so it holds no colon. */
  lemma PrefixHasNoColon(p: string)
    requires PrefixRule(p)
    ensures p != "" && ':' !in p
  {
    XmlNameChars(p);
  }

  /**
   * prefixedNameRule's first-colon split loses nothing: s is a prefixed name
   * iff it can be written as prefix ':' localname in any way at all.
   */
  lemma PrefixedNameMatchesProduction(s: string)
    ensures PrefixedNameRule(s) <==> exists p, l :: PrefixedForm(s, p, l)
  {
    if PrefixedNameRule(s) {
      var k := IndexOf(s, ':');
      assert s == s[..k] + ":" + s[k + 1..];
      assert PrefixedForm(s, s[..k], s[k + 1..]);
    }
    if exists p, l :: PrefixedForm(s, p, l) {
      var p, l :| PrefixedForm(s, p, l);
      ProductionSplitsAtFirstColon(s, p, l);
    }
  }

  /** Any prefix ':' localname reading of s is the one at its first colon. */
  lemma ProductionSplitsAtFirstColon(s: string, p: string, l: string)
    requires PrefixedForm(s, p, l)
    ensures IndexOf(s, ':') == |p| && s[..|p|] == p && s[|p| + 1..] == l
    ensures PrefixedNameRule(s)
  {
    PrefixHasNoColon(p);
    IndexOfAfterPrefix(p, l);
    var k := IndexOf(s, ':');
    assert k == |p|;
    assert s[..k] == p;
    assert s[k + 1..] == l;
  }

  /** A name parses back to itself from its canonical form (parse is idempotent). */
  lemma ParseIdempotent(s: string)
    requires Parse(Some(s)).Ok?
    ensures Parse(Some(Parse(Some(s)).value.AsString())) == Parse(Some(s))
  {
  }
}
