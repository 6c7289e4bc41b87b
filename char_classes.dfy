/**
 * The character classes behind the grammar's regular expressions.
 * `java.util.regex` is compiled without UNICODE_CHARACTER_CLASS, so `\S`,
 * `\p{Alpha}` and `\p{Alnum}` are the ASCII classes; every other code unit
 * (any letter or symbol outside ASCII) is "nonspace".
 */
module CharClasses {

  /** The complement of Java's default `\S`: space, tab, newline, vertical tab, form feed, carriage return. */
  predicate IsWhitespace(c: char) {
    c == ' ' || c == '\t' || c == '\n' || c == '\U{000B}' || c == '\U{000C}' || c == '\r'
  }

  /** The symbols every name class subtracts from `\S`. */
  predicate IsExcludedSymbol(c: char) {
    c in "/:[]*'\"|"
  }

  /** nonspace ::= any character except '/', ':', '[', ']', '*', ''', '"', '|' or whitespace */
  predicate NonSpace(c: char) {
    !IsWhitespace(c) && !IsExcludedSymbol(c)
  }

  /** onecharsimplename: a nonspace character that is not '.' */
  predicate OneCharSimple(c: char) {
    NonSpace(c) && c != '.'
  }

  /** char ::= nonspace | ' ' */
  predicate NameChar(c: char) {
    NonSpace(c) || c == ' '
  }

  predicate IsAlpha(c: char) {
    'A' <= c <= 'Z' || 'a' <= c <= 'z'
  }

  predicate IsAlnum(c: char) {
    IsAlpha(c) || '0' <= c <= '9'
  }

  /** The class `[\p{Alnum}-_.]`; the '-' stands for itself because it follows a property class. */
  predicate IsXmlNameChar(c: char) {
    IsAlnum(c) || c == '-' || c == '_' || c == '.'
  }

  /**
   * A full match of `_?\p{Alpha}+[\p{Alnum}-_.]*`: drop one leading '_', then a
   * letter, then name characters. '_' is not a letter, so the optional '_'
   * never has a choice to make.
   */
  predicate IsXmlName(s: string) {
    var body := AfterUnderscore(s);
    |body| > 0 && IsAlpha(body[0]) && forall i :: 1 <= i < |body| ==> IsXmlNameChar(body[i])
  }

  /** What is left for `\p{Alpha}+[\p{Alnum}-_.]*` once `_?` has taken its character. */
  function AfterUnderscore(s: string): string {
    if |s| > 0 && s[0] == '_' then s[1..] else s
  }

  /** `s.substring(0, 3).equalsIgnoreCase("xml")` for a string of length at least 3. */
  predicate StartsWithXml(s: string) {
    |s| > 2 && s[0] in "xX" && s[1] in "mM" && s[2] in "lL"
  }

  /** The regular expression read literally: `_?` covers s[..i], `\p{Alpha}+` covers s[i..j], the tail s[j..]. */
  predicate PatternSplit(s: string, i: int, j: int) {
    && 0 <= i <= 1 && i < j <= |s|
    && (i == 1 ==> s[0] == '_')
    && (forall k :: i <= k < j ==> IsAlpha(s[k]))
    && (forall k :: j <= k < |s| ==> IsXmlNameChar(s[k]))
  }

  /** The hand-written matcher accepts exactly the strings the regular expression matches in full. */
  lemma XmlNameMatchesPattern(s: string)
    ensures IsXmlName(s) <==> exists i, j :: PatternSplit(s, i, j)
  {
    if IsXmlName(s) {
      var i := if s[0] == '_' then 1 else 0;
      var body := AfterUnderscore(s);
      assert body == s[i..];
      forall k | i + 1 <= k < |s| ensures IsXmlNameChar(s[k]) {
        assert 1 <= k - i < |body| && s[k] == body[k - i];
      }
      assert PatternSplit(s, i, i + 1);
    }
    if exists i, j :: PatternSplit(s, i, j) {
      var i, j :| PatternSplit(s, i, j);
      var body := AfterUnderscore(s);
      assert body == s[i..] by {
        if i == 0 { assert IsAlpha(s[0]); }
      }
      forall k | 1 <= k < |body| ensures IsXmlNameChar(body[k]) {
        assert body[k] == s[i + k];
      }
    }
  }

  /** Every character of a valid XML name is a name character, so a prefix never holds ':' or a space. */
  lemma XmlNameChars(s: string)
    requires IsXmlName(s)
    ensures |s| > 0
    ensures forall k :: 0 <= k < |s| ==> IsXmlNameChar(s[k])
  {
    var body := AfterUnderscore(s);
    forall k | 0 <= k < |s| ensures IsXmlNameChar(s[k]) {
      if s[0] == '_' && k > 0 {
        assert s[k] == body[k - 1];
      } else if s[0] != '_' {
        assert s[k] == body[k];
      }
    }
  }
}
