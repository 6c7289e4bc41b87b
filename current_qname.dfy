/**
 * The current QName: the same grammar, but most rules throw
 * IllegalNameException with a reason instead of returning false, `nameRule`
 * dispatches on the position of the first colon, and the result is built by
 * creating an empty QName and filling it through its private setters.
 */
module CurrentQName {
  import opened Wrappers
  import opened CharClasses
  import opened Names
  import BoolGrammar

  /** The rule that threw IllegalNameException, with the fragment its message quotes. */
  datatype Reason =
    | CannotCreate(name: string)
    | PrefixStartsWithXml(start: string)
    | PrefixNotXmlName(prefix: string)
    | CannotStartWith(first: char)
    | CannotEndWith(last: char)
    | CannotContain(c: char)

  /** What a rule method does: return a boolean, or throw. */
  datatype Verdict = Returns(value: bool) | Throws(reason: Reason)

  /** char ::= nonspace | ' ', throwing for any other character. */
  function CharRule(c: char): Verdict {
    if NameChar(c) then Returns(true) else Throws(CannotContain(c))
  }

  /**
   * string ::= char | string char. The rule never returns false: it accepts
   * exactly the strings the boolean stringRule accepts and throws otherwise.
   */
  function StringRule(s: string): (r: Verdict)
    requires |s| >= 1
    ensures r != Returns(false)
    ensures r == Returns(true) <==> BoolGrammar.StringRule(s)
    decreases |s|
  {
    if |s| == 1 then CharRule(s[0])
    else
      match StringRule(s[..|s| - 1])
      case Throws(e) => Throws(e)
      case Returns(ok) => if ok then CharRule(s[|s| - 1]) else Returns(false)
  }

  /** The reason stringRule throws names the leftmost character outside the char class. */
  lemma {:induction false} StringRuleReportsFirstBadChar(s: string, k: int)
    requires 0 <= k < |s|
    requires !NameChar(s[k])
    requires forall j :: 0 <= j < k ==> NameChar(s[j])
    ensures StringRule(s) == Throws(CannotContain(s[k]))
    decreases |s|
  {
    if |s| > 1 {
      var init := s[..|s| - 1];
      if k < |s| - 1 {
        StringRuleReportsFirstBadChar(init, k);
      } else {
        assert BoolGrammar.StringRule(init);
      }
    }
  }

  /**
   * threeormorecharname ::= nonspace string nonspace. False only for strings
   * shorter than 3; a bad first, last or interior character throws.
   */
  function ThreeOrMoreCharNameRule(s: string): (r: Verdict)
    ensures r == Returns(false) <==> |s| < 3
    ensures r == Returns(true) <==> BoolGrammar.ThreeOrMoreCharNameRule(s)
    ensures |s| >= 3 && !NonSpace(s[0]) ==> r == Throws(CannotStartWith(s[0]))
    ensures |s| >= 3 && NonSpace(s[0]) && !NonSpace(s[|s| - 1]) ==> r == Throws(CannotEndWith(s[|s| - 1]))
  {
    if |s| < 3 then Returns(false)
    else if !BoolGrammar.NonSpaceRule(s[..1]) then Throws(CannotStartWith(s[0]))
    else if !BoolGrammar.NonSpaceRule(s[|s| - 1..]) then Throws(CannotEndWith(s[|s| - 1]))
    else
      var middle := s[1..|s| - 1];
      assert forall i :: 0 < i < |s| - 1 ==> s[i] == middle[i - 1];
      StringRule(middle)
  }

  /** With good ends, threeOrMoreCharNameRule reports the leftmost interior character outside the char class. */
  lemma ThreeOrMoreReportsFirstBadChar(s: string, k: int)
    requires |s| >= 3 && NonSpace(s[0]) && NonSpace(s[|s| - 1])
    requires 0 < k < |s| - 1 && !NameChar(s[k])
    requires forall j :: 0 < j < k ==> NameChar(s[j])
    ensures ThreeOrMoreCharNameRule(s) == Throws(CannotContain(s[k]))
  {
    var middle := s[1..|s| - 1];
    assert middle[k - 1] == s[k];
    StringRuleReportsFirstBadChar(middle, k - 1);
  }

  /** prefix ::= a valid XML name not starting with "xml" in any case; it throws instead of returning false. */
  function PrefixRule(p: string): (r: Verdict)
    ensures r != Returns(false)
    ensures r == Returns(true) <==> BoolGrammar.PrefixRule(p)
    ensures StartsWithXml(p) ==> r == Throws(PrefixStartsWithXml(p[..3]))
    ensures !StartsWithXml(p) && !IsXmlName(p) ==> r == Throws(PrefixNotXmlName(p))
  {
    if |p| > 2 && StartsWithXml(p) then Throws(PrefixStartsWithXml(p[..3]))
    else if !IsXmlName(p) then Throws(PrefixNotXmlName(p))
    else Returns(true)
  }

  /**
   * localname ::= onecharlocalname | twocharlocalname | threeormorecharname.
   * It returns false (rather than throwing) exactly for a bad name of length 0, 1 or 2.
   */
  function LocalNameRule(l: string): (r: Verdict)
    ensures r == Returns(true) <==> BoolGrammar.LocalNameRule(l)
    ensures r == Returns(false) <==> |l| <= 2 && !BoolGrammar.LocalNameRule(l)
  {
    if BoolGrammar.OneCharLocalNameRule(l) || BoolGrammar.TwoCharLocalNameRule(l) then Returns(true)
    else ThreeOrMoreCharNameRule(l)
  }

  /** prefixedname ::= prefix ':' localname, called only when the first colon is past index 0. */
  function PrefixedNameRule(s: string): (r: Verdict)
    requires IndexOf(s, ':') > 0
    ensures r == Returns(true) <==> BoolGrammar.PrefixedNameRule(s)
    ensures IndexOf(s, ':') == |s| - 1 ==> r == Throws(CannotCreate(s))
  {
    var k := IndexOf(s, ':');
    if k == |s| - 1 then Throws(CannotCreate(s))
    else
      match PrefixRule(s[..k])
      case Throws(e) => Throws(e)
      case Returns(ok) => if ok then LocalNameRule(s[k + 1..]) else Returns(false)
  }

  /** simplename ::= onecharsimplename | twocharsimplename | threeormorecharname, throwing when none holds. */
  function SimpleNameRule(s: string): (r: Verdict)
    ensures r != Returns(false)
    ensures r == Returns(true) <==> BoolGrammar.SimpleNameRule(s)
    ensures |s| <= 2 && !BoolGrammar.SimpleNameRule(s) ==> r == Throws(CannotCreate(s))
  {
    if BoolGrammar.OneCharSimpleNameRule(s) || BoolGrammar.TwoCharSimpleNameRule(s) then Returns(true)
    else
      match ThreeOrMoreCharNameRule(s)
      case Throws(e) => Throws(e)
      case Returns(ok) => if ok then Returns(true) else Throws(CannotCreate(s))
  }

  /**
   * name ::= simplename | prefixedname, dispatching on the first colon: past
   * index 0 it is a prefixed name, otherwise a simple one. It accepts exactly
   * the strings the simple-first boolean nameRule accepts.
   */
  function NameRule(s: string): (r: Verdict)
    ensures r == Returns(true) <==> BoolGrammar.NameRule(s)
  {
    BoolGrammar.NameRuleDispatch(s);
    if IndexOf(s, ':') > 0 then PrefixedNameRule(s) else SimpleNameRule(s)
  }

  /** IllegalNameException as parse() lets it escape. */
  datatype ParseError =
    | NullOrEmpty
    | BuildFailed(name: string, cause: Reason)

  /** The three ways parse() can end: a QName, null, or an exception. */
  datatype Outcome = Parsed(qname: Name) | Null | Failed(error: ParseError)

  /** The inputs for which parse() returns null: a valid prefix followed by a bad local name of length 1 or 2. */
  predicate ReturnsNull(s: string) {
    var k := IndexOf(s, ':');
    && 0 < k < |s| - 1
    && BoolGrammar.PrefixRule(s[..k])
    && |s| - k - 1 <= 2
    && !BoolGrammar.LocalNameRule(s[k + 1..])
  }

  /**
   * What parse(name) does, as a value. It accepts exactly what the boolean
   * parsers accept, with the same split; otherwise it throws, except on the
   * inputs of ReturnsNull, where it returns null.
   */
  function ParseOutcome(name: Option<string>): (r: Outcome)
    ensures r == Failed(NullOrEmpty) <==> name.None? || name.value == ""
    ensures r.Parsed? <==> BoolGrammar.Parse(name).Ok?
    ensures r.Parsed? ==> r.qname == BoolGrammar.Parse(name).value
    ensures r.Null? <==> name.Some? && ReturnsNull(name.value)
  {
    if name.None? || name.value == "" then Failed(NullOrEmpty)
    else
      match NameRule(name.value)
      case Throws(e) => Failed(BuildFailed(name.value, e))
      case Returns(ok) => if ok then Parsed(SplitAtFirstColon(name.value)) else Null
  }

  /**
   * parse(name) as it was evidently meant to behave: a string nameRule does not
   * accept throws, so no null escapes. Same accepted language, same split, same
   * exceptions wherever the code as written throws.
   */
  function ParseCorrected(name: Option<string>): (r: Result<Name, ParseError>)
    ensures r.Ok? <==> BoolGrammar.Parse(name).Ok?
    ensures r.Ok? ==> r.value == BoolGrammar.Parse(name).value
    ensures r.Ok? ==> r.value.AsString() == name.value && r.value.WellFormed()
    ensures ParseOutcome(name).Failed? ==> r == Err(ParseOutcome(name).error)
    ensures ParseOutcome(name).Null? ==> r == Err(BuildFailed(name.value, CannotCreate(name.value)))
  {
    if name.None? || name.value == "" then Err(NullOrEmpty)
    else
      match NameRule(name.value)
      case Throws(e) => Err(BuildFailed(name.value, e))
      case Returns(ok) =>
        if ok then Ok(SplitAtFirstColon(name.value))
        else Err(BuildFailed(name.value, CannotCreate(name.value)))
  }

  /** Any valid prefix, a colon and any valid local name parse to exactly that prefix and local name. */
  lemma ParsePrefixedName(p: string, l: string)
    requires BoolGrammar.PrefixRule(p) && BoolGrammar.LocalNameRule(l)
    ensures ParseOutcome(Some(p + ":" + l)) == Parsed(Name(Some(p), l))
  {
    var s := p + ":" + l;
    BoolGrammar.ProductionSplitsAtFirstColon(s, p, l);
    BoolGrammar.PrefixHasNoColon(p);
    BoolGrammar.NoColonInShape(l);
    SplitOfAsString(Name(Some(p), l));
  }

  /** Any valid simple name parses to a name without prefix whose local name is all of it. */
  lemma ParseSimpleName(s: string)
    requires BoolGrammar.SimpleNameRule(s)
    ensures ParseOutcome(Some(s)) == Parsed(Name(None, s))
  {
    BoolGrammar.NoColonInShape(s);
    SplitOfAsString(Name(None, s));
  }

  /** A prefix that fails its rule decides the exception; the local name is not looked at. */
  lemma PrefixFailureReported(p: string, l: string)
    requires p != "" && ':' !in p && l != ""
    requires PrefixRule(p).Throws?
    ensures ParseOutcome(Some(p + ":" + l)) == Failed(BuildFailed(p + ":" + l, PrefixRule(p).reason))
  {
    var s := p + ":" + l;
    IndexOfAfterPrefix(p, l);
    assert s[..|p|] == p;
  }

  /** With a valid prefix, a local name whose rule throws decides the exception. */
  lemma LocalNameFailureReported(p: string, l: string)
    requires BoolGrammar.PrefixRule(p) && l != ""
    requires LocalNameRule(l).Throws?
    ensures ParseOutcome(Some(p + ":" + l)) == Failed(BuildFailed(p + ":" + l, LocalNameRule(l).reason))
  {
    var s := p + ":" + l;
    BoolGrammar.PrefixHasNoColon(p);
    IndexOfAfterPrefix(p, l);
    assert s[..|p|] == p && s[|p| + 1..] == l;
  }

  /** A first colon in the last position is refused before either part is looked at. */
  lemma TrailingColonReported(s: string)
    requires 0 < IndexOf(s, ':') == |s| - 1
    ensures ParseOutcome(Some(s)) == Failed(BuildFailed(s, CannotCreate(s)))
  {
  }

  /** Without a colon past index 0, the simple-name rule's exception is the one parse reports. */
  lemma SimpleNameFailureReported(s: string)
    requires s != "" && IndexOf(s, ':') <= 0
    requires SimpleNameRule(s).Throws?
    ensures ParseOutcome(Some(s)) == Failed(BuildFailed(s, SimpleNameRule(s).reason))
  {
  }

  /** A colon-free name with good ends fails on its leftmost character outside the char class. */
  lemma InteriorFailureReported(s: string, k: int)
    requires |s| >= 3 && ':' !in s && NonSpace(s[0]) && NonSpace(s[|s| - 1])
    requires 0 < k < |s| - 1 && !NameChar(s[k])
    requires forall j :: 0 < j < k ==> NameChar(s[j])
    ensures ParseOutcome(Some(s)) == Failed(BuildFailed(s, CannotContain(s[k])))
  {
    ThreeOrMoreReportsFirstBadChar(s, k);
    assert SimpleNameRule(s) == Throws(CannotContain(s[k]));
    SimpleNameFailureReported(s);
  }

  /** The code as written returns null for "ab:/": the prefix is valid and "/" is not nonspace. */
  lemma NullReturnedForShortBadLocalName()
    ensures ParseOutcome(Some("ab:/")) == Null
    ensures ParseCorrected(Some("ab:/")) == Err(BuildFailed("ab:/", CannotCreate("ab:/")))
  {
    assert IndexOf("ab:/", ':') == 2;
    assert IsXmlName("ab");
  }

  /** What parse() hands back: an object reference (possibly null) or an exception. */
  datatype Returned = Object(q: QName?) | Thrown(error: ParseError)

  class QName {
    var prefix: Option<string>
    var localName: string

    /** The private constructor; the Java fields start null, the local name is modelled as "". */
    constructor ()
      ensures prefix == None && localName == ""
    {
      prefix := None;
      localName := "";
    }

    method SetPrefix(p: string)
      modifies this
      ensures prefix == Some(p) && localName == old(localName)
    {
      prefix := Some(p);
    }

    method SetLocalName(l: string)
      modifies this
      ensures localName == l && prefix == old(prefix)
    {
      localName := l;
    }

    function Value(): Name
      reads this
    {
      Name(prefix, localName)
    }

    function GetAsString(): string
      reads this
    {
      Value().AsString()
    }

    /**
     * equals(Object): true for the same object, false for null or anything that
     * is not a QName, otherwise a comparison of canonical strings, which for
     * parsed names is a comparison of both parts.
     */
    method Equals(other: object?) returns (b: bool)
      ensures other == this ==> b
      ensures other == null || !(other is QName) ==> !b
      ensures other is QName && other != this ==> (b <==> GetAsString() == (other as QName).GetAsString())
      ensures other is QName && Value().WellFormed() && (other as QName).Value().WellFormed() ==>
                (b <==> Value() == (other as QName).Value())
    {
      if this == other {
        return true;
      }
      if other == null || !(other is QName) {
        return false;
      }
      var that := other as QName;
      b := GetAsString() == that.GetAsString();
      if Value().WellFormed() && that.Value().WellFormed() && b {
        AsStringInjective(Value(), that.Value());
      }
    }

    /** hashCode(): prefix's hash (0 for null) xor localName's hash; String.hashCode is the parameter. */
    function HashCode(stringHash: string -> bv32): bv32
      reads this
    {
      (if prefix.None? then 0 else stringHash(prefix.value)) ^ stringHash(localName)
    }

    /**
     * parse(name), that is checkRules(name): throw for null or "", throw (wrapping
     * the rule's reason) when a rule throws, return null when nameRule is false,
     * and otherwise fill a new QName through setPrefix and setLocalName.
     */
    static method Parse(name: Option<string>) returns (r: Returned)
      ensures ParseOutcome(name).Failed? ==> r == Thrown(ParseOutcome(name).error)
      ensures ParseOutcome(name).Null? ==> r == Object(null)
      ensures ParseOutcome(name).Parsed? ==>
                r.Object? && r.q != null && fresh(r.q) && r.q.Value() == ParseOutcome(name).qname
    {
      if name.None? || name.value == "" {
        return Thrown(NullOrEmpty);
      }
      var s := name.value;
      var verdict := NameRule(s);
      if verdict.Throws? {
        return Thrown(BuildFailed(s, verdict.reason));
      }
      if !verdict.value {
        return Object(null);
      }
      var index := IndexOf(s, ':');
      var q := new QName();
      if index > 0 {
        q.SetPrefix(s[..index]);
      }
      q.SetLocalName(s[index + 1..]);
      return Object(q);
    }
  }

  /** Equal parsed QNames hash alike, whatever String.hashCode is: equals and hashCode agree. */
  lemma EqualsAgreesWithHashCode(a: QName, b: QName, stringHash: string -> bv32)
    requires a.Value().WellFormed() && b.Value().WellFormed()
    requires a.GetAsString() == b.GetAsString()
    ensures a.HashCode(stringHash) == b.HashCode(stringHash)
  {
    AsStringInjective(a.Value(), b.Value());
  }
}
