/** The company-name normaliser of the older deduplicator (app/utils/deduplication.py,
    `_normalize_company_name`). Names are lower-cased, then every business-suffix pattern
    `\s+word$` or `\s+word\.?$` is applied once, in list order, to the still punctuated
    string; only afterwards is punctuation deleted (so `-` and `&` vanish instead of becoming
    spaces) and whitespace collapsed and trimmed. */
module LegacyNormalizer {
  import opened Text

  /** A suffix pattern: whitespace, the word, an optional period when `dot` holds, and the
      end of the text. */
  datatype Pattern = Pattern(word: string, dot: bool)

  /** The suffix patterns in the order the normaliser applies them. */
  const Patterns: seq<Pattern> :=
    [Pattern("inc", true), Pattern("corp", true), Pattern("llc", false), Pattern("ltd", true),
     Pattern("limited", false), Pattern("company", false), Pattern("co", true),
     Pattern("group", false), Pattern("international", false), Pattern("intl", true),
     Pattern("technologies", false), Pattern("tech", false), Pattern("systems", false),
     Pattern("solutions", false)]

  /** Where a regular-expression `$` matches: before a final line feed if there is one, and
      otherwise at the end. (It also matches at the very end of a text with a final line
      feed, but no suffix pattern can end with a line feed.) */
  function EndOfText(s: string): (e: nat)
    ensures e <= |s|
    ensures e == |s| || (e == |s| - 1 && s[e] == '\n')
  {
    if s != [] && s[|s| - 1] == '\n' then |s| - 1 else |s|
  }

  /** `body` ends with at least one whitespace character followed by `w`. */
  predicate SpaceThenWord(body: string, w: string) {
    |w| < |body| && IsSpace(body[|body| - |w| - 1]) && body[|body| - |w|..] == w
  }

  /** `re.sub(pattern, '', s)`. The leftmost match starts at the beginning of the whitespace
      run before the word, so the whole run goes; the optional period is taken when present;
      whatever follows `$` (a final line feed) stays. */
  function ApplyPattern(s: string, pat: Pattern): string {
    var e := EndOfText(s);
    var body := s[..e];
    if pat.dot && SpaceThenWord(body, pat.word + ".") then
      TrimRight(body[..|body| - |pat.word| - 1]) + s[e..]
    else if SpaceThenWord(body, pat.word) then
      TrimRight(body[..|body| - |pat.word|]) + s[e..]
    else s
  }

  /** The loop over the suffix patterns: each is applied once, in order. */
  function ApplyPatterns(s: string, pats: seq<Pattern>): string
    decreases |pats|
  {
    if pats == [] then s else ApplyPatterns(ApplyPattern(s, pats[0]), pats[1..])
  }

  /** `_normalize_company_name` of the older deduplicator. */
  function Normalize(name: string): string {
    Strip(CollapseSpaces(KeepWordsAndSpaces(ApplyPatterns(Lower(name), Patterns))))
  }

  /** The characters other than spaces that the older normaliser can produce: `\w` keeps the
      underscore. */
  predicate IsLegacyChar(c: char) {
    IsLowerAlnum(c) || c == '_'
  }

  predicate NotUpper(c: char) {
    !IsUpper(c)
  }

  /** A suffix pattern only deletes characters: what it leaves inherits every property that
      all characters of `s` have. */
  lemma ApplyPatternChars(s: string, pat: Pattern, ok: char -> bool)
    requires forall i :: 0 <= i < |s| ==> ok(s[i])
    ensures forall i :: 0 <= i < |ApplyPattern(s, pat)| ==> ok(ApplyPattern(s, pat)[i])
  {
    var e := EndOfText(s);
    var body := s[..e];
    var r := ApplyPattern(s, pat);
    if r != s {
      var cut := if pat.dot && SpaceThenWord(body, pat.word + ".") then |body| - |pat.word| - 1
                 else |body| - |pat.word|;
      var t := TrimRight(body[..cut]);
      TrimRightSpec(body[..cut]);
      assert r == t + s[e..];
      assert forall i :: 0 <= i < |t| ==> t[i] == s[i];
      assert forall i :: |t| <= i < |r| ==> r[i] == s[e + i - |t|];
    }
  }

  lemma {:induction false} ApplyPatternsChars(s: string, pats: seq<Pattern>, ok: char -> bool)
    requires forall i :: 0 <= i < |s| ==> ok(s[i])
    ensures forall i :: 0 <= i < |ApplyPatterns(s, pats)| ==> ok(ApplyPatterns(s, pats)[i])
    decreases |pats|
  {
    if pats != [] {
      ApplyPatternChars(s, pats[0], ok);
      ApplyPatternsChars(ApplyPattern(s, pats[0]), pats[1..], ok);
    }
  }

  /** Lower-casing leaves no upper-case letter, and the suffix patterns add none. */
  lemma {:induction false} PatternsKeepLowerCase(s: string, pats: seq<Pattern>)
    ensures forall i :: 0 <= i < |ApplyPatterns(Lower(s), pats)| ==>
      NotUpper(ApplyPatterns(Lower(s), pats)[i])
  {
    var lowered := Lower(s);
    assert forall i :: 0 <= i < |lowered| ==> NotUpper(lowered[i]);
    ApplyPatternsChars(lowered, pats, NotUpper);
  }

  /** Whatever the suffix patterns leave, once free of upper-case letters, comes out of the
      remaining steps tidy. */
  lemma TidyAfterCut(cut: string)
    requires forall i :: 0 <= i < |cut| ==> NotUpper(cut[i])
    ensures Tidy(Strip(CollapseSpaces(KeepWordsAndSpaces(cut))), IsLegacyChar)
  {
    assert forall i :: 0 <= i < |cut| ==> IsWord(cut[i]) ==> IsLegacyChar(cut[i]);
    KeepSpec(cut, IsLegacyChar);
    CollapseStripTidy(KeepWordsAndSpaces(cut), IsLegacyChar);
  }

  /** Every result of the older normaliser is tidy: lower-case letters, digits and
      underscores, separated by single spaces. */
  lemma NormalizeTidy(name: string)
    ensures Tidy(Normalize(name), IsLegacyChar)
  {
    PatternsKeepLowerCase(name, Patterns);
    TidyAfterCut(ApplyPatterns(Lower(name), Patterns));
  }

  /** Because `$` also matches before a final line feed, a pattern cuts a suffix off a text
      with a line feed appended exactly as it cuts it off the text itself, and the line feed
      stays. */
  lemma ApplyPatternBeforeNewline(s: string, pat: Pattern)
    requires s == [] || s[|s| - 1] != '\n'
    ensures ApplyPattern(s + "\n", pat) == ApplyPattern(s, pat) + "\n"
  {
    assert EndOfText(s + "\n") == |s|;
    assert (s + "\n")[..|s|] == s;
    assert (s + "\n")[|s|..] == "\n";
    assert EndOfText(s) == |s| && s[..|s|] == s && s[|s|..] == [];
  }

  /** `s` holds no whitespace. */
  predicate NoWhite(s: string) {
    forall i :: 0 <= i < |s| ==> !IsSpace(s[i])
  }

  /** `x` is what a pattern's match consists of after the whitespace: the word, or the word
      and a period when the pattern allows one. */
  predicate MatchesWord(x: string, pat: Pattern) {
    x == pat.word || (pat.dot && x == pat.word + ".")
  }

  /** A pattern cuts the last word of `p + " " + x`, with the whitespace before it, exactly
      when the word matches the pattern. */
  lemma ApplyPatternLastWord(p: string, x: string, pat: Pattern)
    requires NoWhite(x) && x != [] && NoWhite(pat.word)
    ensures ApplyPattern(p + " " + x, pat) == if MatchesWord(x, pat) then TrimRight(p) else p + " " + x
  {
    var s := p + " " + x;
    assert s[|s| - 1] == x[|x| - 1];
    assert EndOfText(s) == |s| && s[..|s|] == s && s[|s|..] == [];
    assert s[|s| - |x| - 1] == ' ' && s[|s| - |x|..] == x && s[..|p|] == p;
    WordAfterSpace(p, x, pat.word);
    assert forall i :: 0 <= i < |pat.word| ==> (pat.word + ".")[i] == pat.word[i];
    WordAfterSpace(p, x, pat.word + ".");
  }

  /** `SpaceThenWord` finds a candidate word after the last space only when it is that
      whole last word. */
  lemma WordAfterSpace(p: string, x: string, w: string)
    requires NoWhite(x) && x != []
    requires forall i :: 0 <= i < |w| - 1 ==> w[i] != ' '
    ensures SpaceThenWord(p + " " + x, w) <==> x == w
  {
    var s := p + " " + x;
    if x == w {
      assert s[|s| - |w|..] == w;
    } else if |w| < |x| {
      assert s[|s| - |w| - 1] == x[|x| - |w| - 1];
    } else if |w| == |x| {
      assert s[|s| - |w|..] == x;
    } else if |w| < |s| {
      assert s[|s| - |w|..][|w| - |x| - 1] == ' ';
    }
  }

  /** A text with no whitespace is never cut. */
  lemma {:induction false} ApplyPatternsWithoutWhite(s: string, pats: seq<Pattern>)
    requires NoWhite(s)
    ensures ApplyPatterns(s, pats) == s
    decreases |pats|
  {
    if pats != [] {
      if s != [] {
        assert s[|s| - 1] != '\n';
      }
      assert EndOfText(s) == |s| && s[..|s|] == s;
      ApplyPatternsWithoutWhite(s, pats[1..]);
    }
  }

  /** The pattern loop keeps a last word that matches none of the patterns. */
  lemma {:induction false} ApplyPatternsKeepWord(p: string, x: string, pats: seq<Pattern>)
    requires NoWhite(x) && x != []
    requires forall k :: 0 <= k < |pats| ==> NoWhite(pats[k].word) && !MatchesWord(x, pats[k])
    ensures ApplyPatterns(p + " " + x, pats) == p + " " + x
    decreases |pats|
  {
    if pats != [] {
      ApplyPatternLastWord(p, x, pats[0]);
      ApplyPatternsKeepWord(p, x, pats[1..]);
    }
  }

  /** When the last word first matches the k-th pattern, the loop cuts it there, together
      with the whitespace before it, and carries on with the later patterns only. */
  lemma {:induction false} ApplyPatternsPeel(p: string, x: string, pats: seq<Pattern>, k: nat)
    requires NoWhite(x) && x != [] && k < |pats| && MatchesWord(x, pats[k])
    requires forall j :: 0 <= j < k ==> !MatchesWord(x, pats[j])
    requires forall j :: 0 <= j < |pats| ==> NoWhite(pats[j].word)
    ensures ApplyPatterns(p + " " + x, pats) == ApplyPatterns(TrimRight(p), pats[k + 1..])
    decreases k
  {
    ApplyPatternLastWord(p, x, pats[0]);
    if k > 0 {
      assert pats[1..][k..] == pats[k + 1..];
      ApplyPatternsPeel(p, x, pats[1..], k - 1);
    }
  }

  /** A word that starts with another letter than the pattern's word does not match it. */
  lemma FirstLetterDiffers(x: string, pat: Pattern)
    requires x != [] && pat.word != [] && x[0] != pat.word[0]
    ensures !MatchesWord(x, pat)
  {
    assert (pat.word + ".")[0] == pat.word[0];
  }

  lemma PatternsHaveNoWhite()
    ensures forall j :: 0 <= j < |Patterns| ==> NoWhite(Patterns[j].word)
  {
  }
}
