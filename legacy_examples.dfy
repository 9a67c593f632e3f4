/** Worked examples of the older normaliser, on the names the server's tests use; they show
    where the two normalisers part ways. */
module LegacyExamples {
  import opened Text
  import opened LegacyNormalizer

  /** The stages of the older normaliser, one after the other. */
  lemma NormalizeVia(name: string, lowered: string, cut: string, kept: string)
    requires Lower(name) == lowered && ApplyPatterns(lowered, Patterns) == cut
    requires KeepWordsAndSpaces(cut) == kept
    requires Strip(CollapseSpaces(kept)) == kept
    ensures Normalize(name) == kept
  {
  }

  lemma TidyWord(s: string)
    requires NoWhite(s) && forall i :: 0 <= i < |s| ==> IsLegacyChar(s[i])
    ensures Strip(CollapseSpaces(s)) == s
  {
    CollapseNoOp(s, IsLegacyChar);
    StripNoOp(s);
  }

  /** Deleting a punctuation character between two words joins them. */
  lemma KeepJoins(a: string, c: char, b: string)
    requires forall i :: 0 <= i < |a| ==> IsWord(a[i])
    requires forall i :: 0 <= i < |b| ==> IsWord(b[i])
    requires !IsWord(c) && !IsSpace(c)
    ensures KeepWordsAndSpaces(a + [c] + b) == a + b
  {
    var ac := a + [c];
    KeepAppend(ac, b);
    KeepAppend(a, [c]);
    KeepDropsPunctuation(c);
    KeepFixesWordsAndSpaces(a);
    KeepFixesWordsAndSpaces(b);
    assert KeepWordsAndSpaces(ac) == a;
  }

  lemma KeepDropsPunctuation(c: char)
    requires !IsWord(c) && !IsSpace(c)
    ensures KeepWordsAndSpaces([c]) == []
  {
    assert [c][1..] == [];
  }

  // "Test Company Ltd."

  lemma TestLtdLowered()
    ensures Lower("Test Company Ltd.") == "test company ltd."
  {
  }

  lemma TestLtdWords()
    ensures "test company ltd." == "test company" + " " + "ltd."
    ensures "test company" == "test" + " " + "company"
    ensures NoWhite("ltd.") && NoWhite("company") && NoWhite("test")
    ensures TrimRight("test company") == "test company" && TrimRight("test") == "test"
  {
  }

  lemma TestLtdPositions()
    ensures MatchesWord("ltd.", Patterns[3])
    ensures forall j :: 0 <= j < 3 ==> !MatchesWord("ltd.", Patterns[j])
    ensures MatchesWord("company", Patterns[4..][1])
    ensures forall j :: 0 <= j < 1 ==> !MatchesWord("company", Patterns[4..][j])
  {
    FirstLetterDiffers("ltd.", Patterns[0]);
    FirstLetterDiffers("ltd.", Patterns[1]);
    FirstLetterDiffers("company", Patterns[4]);
  }

  lemma TestLtdCutLtd()
    ensures ApplyPatterns("test company ltd.", Patterns) == ApplyPatterns("test company", Patterns[4..])
  {
    TestLtdWords();
    TestLtdPositions();
    CutLastWord("test company", "ltd.", 3);
  }

  /** The suffix patterns cut the last word `x` of `p + " " + x` with the first pattern that
      matches it, the `k`th. */
  lemma CutLastWord(p: string, x: string, k: nat)
    requires NoWhite(x) && x != [] && k < |Patterns| && MatchesWord(x, Patterns[k])
    requires forall j :: 0 <= j < k ==> !MatchesWord(x, Patterns[j])
    ensures ApplyPatterns(p + " " + x, Patterns) == ApplyPatterns(TrimRight(p), Patterns[k + 1..])
  {
    PatternsHaveNoWhite();
    ApplyPatternsPeel(p, x, Patterns, k);
  }

  lemma TestLtdCutCompany()
    ensures ApplyPatterns("test company", Patterns[4..]) == "test"
  {
    TestLtdWords();
    TestLtdPositions();
    PatternsHaveNoWhite();
    assert forall j :: 0 <= j < |Patterns[4..]| ==> Patterns[4..][j] == Patterns[4 + j];
    ApplyPatternsPeel("test", "company", Patterns[4..], 1);
    ApplyPatternsWithoutWhite("test", Patterns[4..][2..]);
  }

  /** "Test Company Ltd." becomes "test" here, where the server's normaliser gives
      "test company": "company" is one of the older suffix patterns. */
  lemma ExampleTestCompanyLtd()
    ensures Normalize("Test Company Ltd.") == "test"
  {
    TestLtdLowered();
    TestLtdCutLtd();
    TestLtdCutCompany();
    TestLtdFinish();
    NormalizeVia("Test Company Ltd.", "test company ltd.", "test", "test");
  }

  lemma TestLtdFinish()
    ensures KeepWordsAndSpaces("test") == "test" && Strip(CollapseSpaces("test")) == "test"
  {
    KeepFixesWordsAndSpaces("test");
    TidyWord("test");
  }

  // "A&B Corp."

  lemma AmpersandLowered()
    ensures Lower("A&B Corp.") == "a&b" + " " + "corp."
  {
  }

  lemma AmpersandWords()
    ensures NoWhite("corp.") && NoWhite("a&b") && TrimRight("a&b") == "a&b"
    ensures MatchesWord("corp.", Patterns[1])
    ensures forall j :: 0 <= j < 1 ==> !MatchesWord("corp.", Patterns[j])
    ensures "a&b" == "a" + ['&'] + "b"
  {
    FirstLetterDiffers("corp.", Patterns[0]);
  }

  lemma AmpersandCut()
    ensures ApplyPatterns("a&b" + " " + "corp.", Patterns) == "a&b"
  {
    AmpersandCutCorp();
    AmpersandRest();
  }

  lemma AmpersandCutCorp()
    ensures ApplyPatterns("a&b" + " " + "corp.", Patterns) == ApplyPatterns("a&b", Patterns[2..])
  {
    AmpersandWords();
    CutLastWord("a&b", "corp.", 1);
  }

  lemma AmpersandRest()
    ensures ApplyPatterns("a&b", Patterns[2..]) == "a&b"
  {
    AmpersandWords();
    NoPatternCuts("a&b", 2);
  }

  /** The patterns from the `k`th on leave a text without whitespace alone. */
  lemma NoPatternCuts(s: string, k: nat)
    requires NoWhite(s) && k <= |Patterns|
    ensures ApplyPatterns(s, Patterns[k..]) == s
  {
    ApplyPatternsWithoutWhite(s, Patterns[k..]);
  }

  /** "A&B Corp." becomes "ab": the ampersand is deleted, not turned into a space. */
  lemma ExampleAmpersand()
    ensures Normalize("A&B Corp.") == "ab"
  {
    AmpersandLowered();
    AmpersandCut();
    AmpersandKeep();
    NormalizeVia("A&B Corp.", "a&b" + " " + "corp.", "a&b", "ab");
  }

  lemma AmpersandKeep()
    ensures KeepWordsAndSpaces("a&b") == "ab" && Strip(CollapseSpaces("ab")) == "ab"
  {
    AmpersandWords();
    KeepJoins("a", '&', "b");
    TidyWord("ab");
  }

  // "Test-Company"

  lemma HyphenWords()
    ensures Lower("Test-Company") == "test-company"
    ensures "test-company" == "test" + ['-'] + "company"
    ensures NoWhite("test-company")
  {
  }

  /** "Test-Company" becomes "testcompany": no whitespace precedes "company", so no pattern
      matches, and the hyphen is deleted. */
  lemma ExampleHyphen()
    ensures Normalize("Test-Company") == "testcompany"
  {
    HyphenWords();
    ApplyPatternsWithoutWhite("test-company", Patterns);
    HyphenKeep();
    NormalizeVia("Test-Company", "test-company", "test-company", "testcompany");
  }

  lemma HyphenKeep()
    ensures KeepWordsAndSpaces("test-company") == "testcompany"
    ensures Strip(CollapseSpaces("testcompany")) == "testcompany"
  {
    HyphenDelete();
    HyphenTidy();
  }

  lemma HyphenDelete()
    ensures KeepWordsAndSpaces("test-company") == "testcompany"
  {
    HyphenWords();
    HyphenJoined();
    KeepJoins("test", '-', "company");
  }

  lemma HyphenJoined()
    ensures "test" + "company" == "testcompany"
  {
  }

  lemma HyphenTidy()
    ensures Strip(CollapseSpaces("testcompany")) == "testcompany"
  {
    TidyWord("testcompany");
  }
}
