/**
 * The first revision: a QName with public setters and a QNameParser whose
 * parse creates a QName and fills it. Its rule predicates (nonSpaceRule,
 * charRule, stringRule, prefixRule, the name rules) compile their patterns
 * inline but are otherwise the boolean rules of BoolGrammar, which this module uses.
 */
module LegacyQName {
  import opened Wrappers
  import opened Names
  import BoolGrammar

  /** What parse() hands back: a QName, or IllegalNameException(name). */
  datatype Returned = Object(q: QName) | Thrown(error: BoolGrammar.ParseError)

  class QName {
    var prefix: Option<string>
    var localName: string

    /** The implicit default constructor; the local name, null in Java, is modelled as "". */
    constructor ()
      ensures prefix == None && localName == ""
    {
      prefix := None;
      localName := "";
    }

    method SetPrefix(p: string)
      modifies this
      ensures prefix == Some(p) && localName == old(localName)
    {
      prefix := Some(p);
    }

    method SetLocalName(l: string)
      modifies this
      ensures localName == l && prefix == old(prefix)
    {
      localName := l;
    }

    function Value(): Name
      reads this
    {
      Name(prefix, localName)
    }

    function GetAsString(): string
      reads this
    {
      Value().AsString()
    }

    /** equals(QName): canonical strings compared; for parsed names, both parts compared. */
    method Equals(that: QName) returns (b: bool)
      ensures b <==> GetAsString() == that.GetAsString()
      ensures Value().WellFormed() && that.Value().WellFormed() ==> (b <==> Value() == that.Value())
    {
      b := GetAsString() == that.GetAsString();
      if Value().WellFormed() && that.Value().WellFormed() && b {
        AsStringInjective(Value(), that.Value());
      }
    }

    /** parse(name): exactly new QNameParser().parse(name). */
    static method Parse(name: Option<string>) returns (r: Returned)
      ensures r.Object? <==> BoolGrammar.Parse(name).Ok?
      ensures r.Thrown? ==> r.error == BoolGrammar.Parse(name).error
      ensures r.Object? ==> fresh(r.q) && r.q.Value() == BoolGrammar.Parse(name).value
    {
      var parser := new QNameParser();
      r := parser.Parse(name);
    }
  }

  class QNameParser {

    constructor () {
    }

    /**
     * parse(name): throw IllegalNameException(name) for null, "" or a string
     * nameRule refuses; otherwise create a QName, set its prefix when the first
     * colon is past index 0, and set its local name to what follows that colon.
     */
    method Parse(name: Option<string>) returns (r: Returned)
      ensures r.Object? <==> BoolGrammar.Parse(name).Ok?
      ensures r.Thrown? ==> r.error == BoolGrammar.Parse(name).error
      ensures r.Object? ==> fresh(r.q) && r.q.Value() == BoolGrammar.Parse(name).value
    {
      if name.None? || name.value == "" {
        return Thrown(BoolGrammar.IllegalName(name));
      }
      var s := name.value;
      if BoolGrammar.NameRule(s) {
        var index := IndexOf(s, ':');
        var q := new QName();
        if index > 0 {
          q.SetPrefix(s[..index]);
        }
        q.SetLocalName(s[index + 1..]);
        return Object(q);
      } else {
        return Thrown(BoolGrammar.IllegalName(name));
      }
    }
  }
}
