/** The cases of the JUnit suite, stated about the current parse with the reason each failure carries. */
module TestCases {
  import opened Wrappers
  import opened CharClasses
  import opened Names
  import opened CurrentQName
  import BoolGrammar

  /** A string of three or more letters or non-ASCII characters is a simple name. */
  lemma LettersFormSimpleName(s: string)
    requires |s| >= 3
    requires forall i :: 0 <= i < |s| ==> IsAlpha(s[i]) || s[i] >= '\U{80}'
    ensures BoolGrammar.SimpleNameRule(s)
  {
    assert forall i :: 0 <= i < |s| ==> NonSpace(s[i]);
  }

  lemma GetPrefixCase()
    ensures ParseOutcome(Some("_param:Luis")) == Parsed(Name(Some("_param"), "Luis"))
  {
    assert IsXmlName("_param");
    assert "_param:Luis" == "_param" + ":" + "Luis";
    ParsePrefixedName("_param", "Luis");
  }

  lemma GetLocalNameCase()
    ensures ParseOutcome(Some("ar7-me:A.G.n ag")) == Parsed(Name(Some("ar7-me"), "A.G.n ag"))
  {
    assert IsXmlName("ar7-me");
    assert "ar7-me:A.G.n ag" == "ar7-me" + ":" + "A.G.n ag";
    ParsePrefixedName("ar7-me", "A.G.n ag");
  }

  lemma GetAsStringCase()
    ensures ParseOutcome(Some("_p7txd:na me.")) == Parsed(Name(Some("_p7txd"), "na me."))
  {
    assert IsXmlName("_p7txd");
    assert "_p7txd:na me." == "_p7txd" + ":" + "na me.";
    ParsePrefixedName("_p7txd", "na me.");
  }

  lemma WithoutPrefixCase()
    ensures ParseOutcome(Some("justAname")) == Parsed(Name(None, "justAname"))
  {
    var s := "justAname";
    LettersFormSimpleName(s);
    ParseSimpleName(s);
  }

  lemma PrefixNameCase()
    ensures ParseOutcome(Some("prefix:name")) == Parsed(Name(Some("prefix"), "name"))
  {
    assert IsXmlName("prefix");
    assert "prefix:name" == "prefix" + ":" + "name";
    ParsePrefixedName("prefix", "name");
  }

  lemma UnicodeCase()
    ensures ParseOutcome(Some("justAn\U{2785}\U{3370}ame")) == Parsed(Name(None, "justAn\U{2785}\U{3370}ame"))
  {
    var s := "justAn\U{2785}\U{3370}ame";
    LettersFormSimpleName(s);
    ParseSimpleName(s);
  }

  lemma NullAndEmptyCases()
    ensures ParseOutcome(None) == Failed(NullOrEmpty)
    ensures ParseOutcome(Some("")) == Failed(NullOrEmpty)
  {
  }

  lemma LeadingColonCase()
    ensures ParseOutcome(Some(":name")) == Failed(BuildFailed(":name", CannotStartWith(':')))
  {
    assert SimpleNameRule(":name") == Throws(CannotStartWith(':'));
    SimpleNameFailureReported(":name");
  }

  lemma TrailingColonCase()
    ensures ParseOutcome(Some("runner:")) == Failed(BuildFailed("runner:", CannotCreate("runner:")))
  {
    assert "runner:" == "runner" + ":" + "";
    IndexOfAfterPrefix("runner", "");
  }

  lemma TwoColonsCase()
    ensures ParseOutcome(Some("fghj:p:oiy")) == Failed(BuildFailed("fghj:p:oiy", CannotContain(':')))
  {
    var p, l := "fghj", "p:oiy";
    assert BoolGrammar.PrefixRule(p) by {
      assert IsXmlName(p);
    }
    assert LocalNameRule(l) == Throws(CannotContain(':')) by {
      ThreeOrMoreReportsFirstBadChar(l, 1);
    }
    assert p + ":" + l == "fghj:p:oiy";
    LocalNameFailureReported(p, l);
  }

  lemma DotCases()
    ensures ParseOutcome(Some(".")) == Failed(BuildFailed(".", CannotCreate(".")))
    ensures ParseOutcome(Some("..")) == Failed(BuildFailed("..", CannotCreate("..")))
  {
    var d, dd := ".", "..";
    assert !BoolGrammar.SimpleNameRule(d) && !BoolGrammar.SimpleNameRule(dd);
    assert IndexOf(d, ':') == -1 && IndexOf(dd, ':') == -1;
    SimpleNameFailureReported(d);
    SimpleNameFailureReported(dd);
  }

  lemma LeadingSpaceCase()
    ensures ParseOutcome(Some(" fghj")) == Failed(BuildFailed(" fghj", CannotStartWith(' ')))
  {
    var s := " fghj";
    assert SimpleNameRule(s) == Throws(CannotStartWith(' ')) by {
      assert !NonSpace(s[0]);
    }
    assert IndexOf(s, ':') == -1 by {
      assert ':' !in s;
    }
    SimpleNameFailureReported(s);
  }

  lemma SpaceBeforePrefixCase()
    ensures ParseOutcome(Some(" fghj:poiy")) == Failed(BuildFailed(" fghj:poiy", PrefixNotXmlName(" fghj")))
  {
    var p, l := " fghj", "poiy";
    assert PrefixRule(p) == Throws(PrefixNotXmlName(p)) by {
      assert !StartsWithXml(p) && !IsAlpha(AfterUnderscore(p)[0]);
    }
    assert p + ":" + l == " fghj:poiy";
    PrefixFailureReported(p, l);
  }

  lemma SpaceAfterColonCase()
    ensures ParseOutcome(Some("rtp: poiy")) == Failed(BuildFailed("rtp: poiy", CannotStartWith(' ')))
  {
    var p, l := "rtp", " poiy";
    assert BoolGrammar.PrefixRule(p) by {
      assert IsXmlName(p);
    }
    assert LocalNameRule(l) == Throws(CannotStartWith(' ')) by {
      assert !NonSpace(l[0]);
    }
    assert p + ":" + l == "rtp: poiy";
    LocalNameFailureReported(p, l);
  }

  lemma TrailingSpaceCase()
    ensures ParseOutcome(Some("rtp:poiy ")) == Failed(BuildFailed("rtp:poiy ", CannotEndWith(' ')))
  {
    var p, l := "rtp", "poiy ";
    assert BoolGrammar.PrefixRule(p) by {
      assert IsXmlName(p);
    }
    assert LocalNameRule(l) == Throws(CannotEndWith(' ')) by {
      assert NonSpace(l[0]) && !NonSpace(l[|l| - 1]);
    }
    assert p + ":" + l == "rtp:poiy ";
    LocalNameFailureReported(p, l);
  }

  lemma SpaceInPrefixCase()
    ensures ParseOutcome(Some("fg hj:poiy")) == Failed(BuildFailed("fg hj:poiy", PrefixNotXmlName("fg hj")))
  {
    var p, l := "fg hj", "poiy";
    assert PrefixRule(p) == Throws(PrefixNotXmlName(p)) by {
      assert !StartsWithXml(p) && AfterUnderscore(p)[2] == ' ';
    }
    assert p + ":" + l == "fg hj:poiy";
    PrefixFailureReported(p, l);
  }

  lemma XmlPrefixCase()
    ensures ParseOutcome(Some("xmlfghj:poiy")) == Failed(BuildFailed("xmlfghj:poiy", PrefixStartsWithXml("xml")))
  {
    var p, l := "xmlfghj", "poiy";
    assert PrefixRule(p) == Throws(PrefixStartsWithXml("xml")) by {
      assert p[..3] == "xml";
    }
    assert p + ":" + l == "xmlfghj:poiy";
    PrefixFailureReported(p, l);
  }

  lemma WrongSymbolCase()
    ensures ParseOutcome(Some("fghj]poiy")) == Failed(BuildFailed("fghj]poiy", CannotContain(']')))
  {
    var s := "fghj]poiy";
    assert ':' !in s && NonSpace(s[0]) && NonSpace(s[|s| - 1]);
    assert s[4] == ']' && forall j :: 0 < j < 4 ==> NameChar(s[j]);
    InteriorFailureReported(s, 4);
  }

  lemma WrongQuoteCase()
    ensures ParseOutcome(Some("fghj\"poiy")) == Failed(BuildFailed("fghj\"poiy", CannotContain('"')))
  {
    var s := "fghj\"poiy";
    assert ':' !in s && NonSpace(s[0]) && NonSpace(s[|s| - 1]);
    assert s[4] == '"' && forall j :: 0 < j < 4 ==> NameChar(s[j]);
    InteriorFailureReported(s, 4);
  }

  /** One- and two-character names: '.' is a local name but not a simple name; ".x" and "x." are simple names. */
  lemma ShortNameCases()
    ensures BoolGrammar.LocalNameRule(".") && !BoolGrammar.SimpleNameRule(".")
    ensures !BoolGrammar.SimpleNameRule("..") && BoolGrammar.LocalNameRule("..")
    ensures BoolGrammar.SimpleNameRule(".x") && BoolGrammar.SimpleNameRule("x.")
    ensures !BoolGrammar.LocalNameRule(" b") && !BoolGrammar.LocalNameRule("/")
  {
  }
}
