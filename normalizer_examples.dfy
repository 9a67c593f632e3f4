/** The normalisation examples of the server's deduplicator tests
    (server/tests/test_deduplication.py), each derived from the general lemmas of
    `NameNormalizer` one stage at a time. */
module NormalizerExamples {
  import opened Text
  import opened NameNormalizer

  lemma SuffixTailsHaveNoSpace(k: nat)
    requires k <= |Suffixes|
    ensures forall j :: 0 <= j < |Suffixes[k..]| ==> NoSpace(Suffixes[k..][j])
  {
    SuffixesHaveNoSpace();
    assert forall j :: 0 <= j < |Suffixes[k..]| ==> Suffixes[k..][j] == Suffixes[k + j];
  }

  /** The suffixes from the `m`th on cut the last word `x` of `p + " " + x` when `x` is the
      `k`th of them and no earlier one. */
  lemma DropLastWord(p: string, x: string, m: nat, k: nat)
    requires NoSpace(x) && m + k < |Suffixes| && Suffixes[m + k] == x && x !in Suffixes[m..m + k]
    ensures StripSuffixes(p + " " + x, Suffixes[m..]) == StripSuffixes(p, Suffixes[m + k + 1..])
  {
    SuffixTailsHaveNoSpace(m);
    assert Suffixes[m..][..k] == Suffixes[m..m + k];
    assert Suffixes[m..][k + 1..] == Suffixes[m + k + 1..];
    StripSuffixesPeel(p, x, Suffixes[m..], k);
  }

  /** The suffixes cut the last word `x` of `p + " " + x` when `x` is the `k`th of them and
      no earlier one. */
  lemma DropFirstLastWord(p: string, x: string, k: nat)
    requires NoSpace(x) && k < |Suffixes| && Suffixes[k] == x && x !in Suffixes[..k]
    ensures StripSuffixes(p + " " + x, Suffixes) == StripSuffixes(p, Suffixes[k + 1..])
  {
    SuffixesHaveNoSpace();
    StripSuffixesPeel(p, x, Suffixes, k);
  }

  /** The suffixes cut the last two words of `p + " " + y + " " + x` when `x` is the
      `k`th of them and no earlier one, and `y` the `j`th and none between. */
  lemma DropTwoLastWords(p: string, y: string, x: string, k: nat, j: nat)
    requires NoSpace(p) && NoSpace(y) && NoSpace(x) && k < j < |Suffixes|
    requires Suffixes[k] == x && x !in Suffixes[..k]
    requires Suffixes[j] == y && y !in Suffixes[k + 1..j]
    ensures StripSuffixes(p + " " + y + " " + x, Suffixes) == p
  {
    DropFirstLastWord(p + " " + y, x, k);
    DropLastWord(p, y, k + 1, j - k - 1);
    NoSuffixCuts(p, j + 1);
  }

  /** The suffixes from the `m`th on leave a text without spaces alone. */
  lemma NoSuffixCuts(s: string, m: nat)
    requires NoSpace(s) && m <= |Suffixes|
    ensures StripSuffixes(s, Suffixes[m..]) == s
  {
    StripSuffixesWithoutSpace(s, Suffixes[m..]);
  }

  // "ABC Corp"

  lemma AbcLowered()
    ensures SeparatorsToSpaces(Lower("ABC Corp")) == "abc corp"
  {
  }

  lemma AbcWords()
    ensures Canonical("abc corp")
    ensures "abc corp" == "abc" + " " + "corp"
    ensures NoSpace("abc") && NoSpace("corp")
    ensures Suffixes[1] == "corp" && "corp" !in Suffixes[..1]
  {
  }

  /** "ABC Corp" normalises to "abc". */
  lemma ExampleAbcCorp()
    ensures Normalize("ABC Corp") == "abc"
  {
    AbcLowered();
    AbcWords();
    CleanOfWords("ABC Corp", "abc corp");
    DropFirstLastWord("abc", "corp", 1);
    NoSuffixCuts("abc", 2);
  }

  // "XYZ Ltd"

  lemma XyzLtdLowered()
    ensures SeparatorsToSpaces(Lower("XYZ Ltd")) == "xyz ltd"
  {
  }

  lemma XyzLtdWords()
    ensures Canonical("xyz ltd")
    ensures "xyz ltd" == "xyz" + " " + "ltd"
    ensures NoSpace("xyz") && NoSpace("ltd")
    ensures Suffixes[3] == "ltd" && "ltd" !in Suffixes[..3]
  {
  }

  /** "XYZ Ltd" normalises to "xyz". */
  lemma ExampleXyzLtd()
    ensures Normalize("XYZ Ltd") == "xyz"
  {
    XyzLtdLowered();
    XyzLtdWords();
    CleanOfWords("XYZ Ltd", "xyz ltd");
    DropFirstLastWord("xyz", "ltd", 3);
    NoSuffixCuts("xyz", 4);
  }

  // "XYZ Technologies Inc."

  lemma XyzLowered()
    ensures SeparatorsToSpaces(Lower("XYZ Technologies Inc.")) == "xyz technologies inc" + "."
  {
  }

  lemma XyzCanonical()
    ensures Canonical("xyz technologies inc")
  {
  }

  lemma XyzWords()
    ensures "xyz technologies inc" == "xyz" + " " + "technologies" + " " + "inc"
    ensures NoSpace("xyz") && NoSpace("technologies") && NoSpace("inc")
  {
  }

  lemma XyzPositions()
    ensures Suffixes[0] == "inc" && "inc" !in Suffixes[..0]
    ensures Suffixes[9] == "technologies" && "technologies" !in Suffixes[1..9]
  {
  }

  lemma XyzClean()
    ensures Clean("XYZ Technologies Inc.") == "xyz technologies inc"
  {
    XyzLowered();
    XyzCanonical();
    CleanOfWordsDot("XYZ Technologies Inc.", "xyz technologies inc");
  }

  /** "XYZ Technologies Inc." normalises to "xyz": the period goes with the punctuation, then
      "inc" and, later in the list, "technologies" are cut. */
  lemma ExampleXyzTechnologiesInc()
    ensures Normalize("XYZ Technologies Inc.") == "xyz"
  {
    XyzClean();
    XyzWords();
    XyzPositions();
    DropTwoLastWords("xyz", "technologies", "inc", 0, 9);
  }

  // "Test Company Ltd."

  lemma TestLtdLowered()
    ensures SeparatorsToSpaces(Lower("Test Company Ltd.")) == "test company ltd" + "."
  {
  }

  lemma TestLtdWords()
    ensures Canonical("test company ltd")
    ensures "test company ltd" == "test company" + " " + "ltd"
    ensures "test company" == "test" + " " + "company"
    ensures NoSpace("company") && NoSpace("ltd")
    ensures Suffixes[3] == "ltd" && "ltd" !in Suffixes[..3]
    ensures "company" !in Suffixes[4..]
  {
  }

  /** "Test Company Ltd." normalises to "test company": "company" is not a suffix word. */
  lemma ExampleTestCompanyLtd()
    ensures Normalize("Test Company Ltd.") == "test company"
  {
    TestLtdLowered();
    TestLtdWords();
    CleanOfWordsDot("Test Company Ltd.", "test company ltd");
    DropFirstLastWord("test company", "ltd", 3);
    SuffixTailsHaveNoSpace(4);
    StripSuffixesKeepWord("test", "company", Suffixes[4..]);
  }

  // "A&B Corp."

  lemma AmpersandLowered()
    ensures SeparatorsToSpaces(Lower("A&B Corp.")) == "a b corp" + "."
  {
  }

  lemma AmpersandWords()
    ensures Canonical("a b corp")
    ensures "a b corp" == "a b" + " " + "corp"
    ensures "a b" == "a" + " " + "b"
    ensures NoSpace("b") && NoSpace("corp")
    ensures Suffixes[1] == "corp" && "corp" !in Suffixes[..1]
    ensures "b" !in Suffixes[2..]
  {
  }

  /** "A&B Corp." normalises to "a b": the ampersand becomes a space. */
  lemma ExampleAmpersand()
    ensures Normalize("A&B Corp.") == "a b"
  {
    AmpersandLowered();
    AmpersandWords();
    CleanOfWordsDot("A&B Corp.", "a b corp");
    DropFirstLastWord("a b", "corp", 1);
    SuffixTailsHaveNoSpace(2);
    StripSuffixesKeepWord("a", "b", Suffixes[2..]);
  }

  // "Test-Company"

  lemma HyphenLowered()
    ensures SeparatorsToSpaces(Lower("Test-Company")) == "test company"
  {
  }

  lemma HyphenWords()
    ensures Canonical("test company")
    ensures "test company" == "test" + " " + "company"
    ensures NoSpace("company") && "company" !in Suffixes
  {
  }

  /** "Test-Company" normalises to "test company": the hyphen becomes a space. */
  lemma ExampleHyphen()
    ensures Normalize("Test-Company") == "test company"
  {
    HyphenLowered();
    HyphenWords();
    CleanOfWords("Test-Company", "test company");
    SuffixesHaveNoSpace();
    StripSuffixesKeepWord("test", "company", Suffixes);
  }
}
