/**
 * The value a successful parse produces, shared by every revision:
 * an optional prefix and a local name, and the split of the input at its
 * first colon that fills them.
 */
module Names {
  import opened Wrappers

  /** A qualified name; `prefix` is None where the Java field stays null. */
  datatype Name = Name(prefix: Option<string>, localName: string) {

    /** getAsString(): the local name alone, or prefix ':' localName. */
    function AsString(): string {
      if prefix.None? then localName else prefix.value + ":" + localName
    }

    /** What every accepted name satisfies: neither part holds a colon. */
    predicate WellFormed() {
      ':' !in localName && (prefix.Some? ==> prefix.value != "" && ':' !in prefix.value)
    }
  }

  /** String.indexOf(char): the first position of c in s, or -1. */
  function IndexOf(s: string, c: char): (r: int)
    ensures -1 <= r < |s|
    ensures r == -1 <==> c !in s
    ensures r >= 0 ==> s[r] == c && c !in s[..r]
  {
    if |s| == 0 then -1
    else if s[0] == c then 0
    else
      var k := IndexOf(s[1..], c);
      if k == -1 then -1 else k + 1
  }

  /**
   * The construction every parse performs on an accepted string: the prefix is
   * the text before the first colon only when that colon is not at index 0, and
   * the local name is everything after it (all of s when there is no colon).
   */
  function SplitAtFirstColon(s: string): (n: Name)
    ensures IndexOf(s, ':') != 0 ==> n.AsString() == s
    ensures n.prefix.Some? ==> n.prefix.value != "" && ':' !in n.prefix.value
    ensures n.prefix.Some? <==> ':' in s && s[0] != ':'
  {
    var k := IndexOf(s, ':');
    var n := Name(if k > 0 then Some(s[..k]) else None, s[k + 1..]);
    assert k > 0 ==> s == s[..k] + ":" + s[k + 1..] by {
      if k > 0 { assert s[k] == ':'; }
    }
    n
  }

  /** A prefixed canonical form has its separator exactly after the prefix. */
  lemma IndexOfAfterPrefix(p: string, l: string)
    requires ':' !in p
    ensures IndexOf(p + ":" + l, ':') == |p|
  {
    var s := p + ":" + l;
    assert s[|p|] == ':';
    assert s[..|p|] == p;
  }

  /**
   * Equality of canonical strings is equality of the parts, for names that hold
   * no colon in either part: the reason equals() and hashCode() agree.
   */
  lemma AsStringInjective(a: Name, b: Name)
    requires a.WellFormed() && b.WellFormed()
    requires a.AsString() == b.AsString()
    ensures a == b
  {
    var s := a.AsString();
    match (a.prefix, b.prefix)
    case (None, None) =>
    case (Some(p), None) =>
    case (None, Some(q)) =>
    case (Some(p), Some(q)) =>
      IndexOfAfterPrefix(p, a.localName);
      IndexOfAfterPrefix(q, b.localName);
      assert p == s[..|p|] && q == s[..|q|];
      assert a.localName == s[|p| + 1..] && b.localName == s[|q| + 1..];
  }

  /** Splitting a well-formed name's canonical form gives the name back. */
  lemma SplitOfAsString(n: Name)
    requires n.WellFormed()
    ensures SplitAtFirstColon(n.AsString()) == n
  {
    var s := n.AsString();
    if n.prefix.Some? {
      IndexOfAfterPrefix(n.prefix.value, n.localName);
      assert s[..|n.prefix.value|] == n.prefix.value;
      assert s[|n.prefix.value| + 1..] == n.localName;
    } else {
      assert IndexOf(s, ':') == -1;
      assert s[0..] == s;
    }
  }
}
