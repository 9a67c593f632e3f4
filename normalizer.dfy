/** The company-name normaliser of the server's deduplicator
    (server/app/utils/deduplication.py, `_normalize_company_name`). Names are lower-cased,
    `-`, `_` and `&` become spaces, the remaining punctuation is deleted, whitespace is
    collapsed and trimmed, and then every business-suffix pattern is applied once, in list
    order. */
module NameNormalizer {
  import opened Text

  /** `re.sub(r'[-_&]', ' ', s)`. */
  function SeparatorsToSpaces(s: string): (r: string)
    ensures |r| == |s|
    ensures forall i :: 0 <= i < |s| ==> r[i] == if s[i] in "-_&" then ' ' else s[i]
  {
    seq(|s|, i requires 0 <= i < |s| => if s[i] in "-_&" then ' ' else s[i])
  }

  /** Steps one to four: everything the normaliser does before the suffix patterns. */
  function Clean(name: string): string {
    Strip(CollapseSpaces(KeepWordsAndSpaces(SeparatorsToSpaces(Lower(name)))))
  }

  /** The suffix patterns in the order the normaliser applies them. Each pattern is a space,
      the word, optionally a period, then the end of the string. */
  const Suffixes: seq<string> :=
    ["inc", "corp", "llc", "ltd", "limited", "co", "group", "international", "intl",
     "technologies", "tech", "systems", "solutions"]

  /** `s` ends with a space followed by `word`. */
  predicate EndsWithWord(s: string, word: string) {
    |word| < |s| && s[|s| - |word| - 1] == ' ' && s[|s| - |word|..] == word
  }

  /** `re.sub(' ' + suffix + r'\.?$', '', s)` on a cleaned string: a cleaned string holds no
      period and no line feed (see `CleanCanonical`), so the optional period and the way `$`
      also matches before a final line feed never come into play. */
  function StripSuffix(s: string, suffix: string): (r: string)
    ensures EndsWithWord(s, suffix) ==> s == r + " " + suffix
    ensures !EndsWithWord(s, suffix) ==> r == s
  {
    if EndsWithWord(s, suffix) then s[..|s| - |suffix| - 1] else s
  }

  /** The loop over the suffix patterns: each is applied once, in order, to the result of
      the previous one. */
  function StripSuffixes(s: string, suffixes: seq<string>): string
    decreases |suffixes|
  {
    if suffixes == [] then s else StripSuffixes(StripSuffix(s, suffixes[0]), suffixes[1..])
  }

  /** `_normalize_company_name`. */
  function Normalize(name: string): string {
    StripSuffixes(Clean(name), Suffixes)
  }

  /** The strings the normaliser produces: lower-case letters, digits and single spaces
      between them. */
  predicate Canonical(s: string) {
    Tidy(s, IsLowerAlnum)
  }

  /** Steps one to four always produce a canonical string: no upper case, no punctuation,
      no separator characters and no stray whitespace remain. */
  lemma CleanCanonical(name: string)
    ensures Canonical(Clean(name))
  {
    var lowered := Lower(name);
    var separated := SeparatorsToSpaces(lowered);
    assert forall i :: 0 <= i < |separated| ==> IsWord(separated[i]) ==> IsLowerAlnum(separated[i]);
    KeepSpec(separated, IsLowerAlnum);
    CollapseStripTidy(KeepWordsAndSpaces(separated), IsLowerAlnum);
  }

  /** Cutting a suffix pattern off a canonical string leaves a canonical string, and never
      an empty one. */
  lemma StripSuffixCanonical(s: string, suffix: string)
    requires Canonical(s) && s != []
    ensures Canonical(StripSuffix(s, suffix)) && StripSuffix(s, suffix) != []
  {
    if EndsWithWord(s, suffix) {
      var r := StripSuffix(s, suffix);
      assert s[|r|] == ' ';
      assert |r| > 0;
      assert s[|r| - 1] != ' ';
      assert forall i :: 0 <= i < |r| ==> r[i] == s[i];
    }
  }

  lemma {:induction false} StripSuffixesCanonical(s: string, suffixes: seq<string>)
    requires Canonical(s) && s != []
    ensures Canonical(StripSuffixes(s, suffixes)) && StripSuffixes(s, suffixes) != []
    decreases |suffixes|
  {
    if suffixes != [] {
      StripSuffixCanonical(s, suffixes[0]);
      StripSuffixesCanonical(StripSuffix(s, suffixes[0]), suffixes[1..]);
    }
  }

  /** Every normalised name is canonical, and a name with at least one letter or digit
      never normalises to the empty string: a suffix is only cut after a space, and a
      canonical string does not start with one. */
  lemma NormalizeCanonical(name: string)
    ensures Canonical(Normalize(name))
    ensures Clean(name) != [] ==> Normalize(name) != []
  {
    CleanCanonical(name);
    if Clean(name) != [] {
      StripSuffixesCanonical(Clean(name), Suffixes);
    } else {
      StripSuffixesOfEmpty(Suffixes);
    }
  }

  lemma {:induction false} StripSuffixesOfEmpty(suffixes: seq<string>)
    ensures StripSuffixes([], suffixes) == []
    decreases |suffixes|
  {
    if suffixes != [] {
      StripSuffixesOfEmpty(suffixes[1..]);
    }
  }

  /** Steps one to four leave a canonical string unchanged; with `CleanCanonical` this makes
      them idempotent. */
  lemma CleanFixesCanonical(s: string)
    requires Canonical(s)
    ensures Clean(s) == s
  {
    assert Lower(s) == s;
    assert SeparatorsToSpaces(s) == s;
    KeepFixesWordsAndSpaces(s);
    CollapseNoOp(s, IsLowerAlnum);
    StripNoOp(s);
  }

  lemma CleanIdempotent(name: string)
    ensures Clean(Clean(name)) == Clean(name)
  {
    CleanCanonical(name);
    CleanFixesCanonical(Clean(name));
  }

  /** `s` holds no space character. */
  predicate NoSpace(s: string) {
    forall i :: 0 <= i < |s| ==> s[i] != ' '
  }

  /** A name without a space has no suffix pattern to lose. */
  lemma {:induction false} StripSuffixesWithoutSpace(s: string, suffixes: seq<string>)
    requires NoSpace(s)
    ensures StripSuffixes(s, suffixes) == s
    decreases |suffixes|
  {
    if suffixes != [] {
      StripSuffixesWithoutSpace(s, suffixes[1..]);
    }
  }

  /** A suffix pattern matches after the last space exactly when the last word is the
      pattern's word. */
  lemma StripSuffixLastWord(p: string, x: string, w: string)
    requires NoSpace(x) && NoSpace(w)
    ensures EndsWithWord(p + " " + x, w) <==> x == w
  {
    var s := p + " " + x;
    if x == w {
      assert s[|s| - |w|..] == w;
    } else if |w| < |x| {
      assert s[|s| - |w| - 1] == x[|x| - |w| - 1];
    } else if |w| == |x| {
      assert s[|s| - |w|..] == x;
    } else if |w| < |s| {
      assert s[|s| - |w|..][|w| - |x| - 1] == ' ';
    }
  }

  /** The suffix loop keeps a last word that is none of the patterns' words. */
  lemma {:induction false} StripSuffixesKeepWord(p: string, x: string, suffixes: seq<string>)
    requires NoSpace(x) && x !in suffixes
    requires forall k :: 0 <= k < |suffixes| ==> NoSpace(suffixes[k])
    ensures StripSuffixes(p + " " + x, suffixes) == p + " " + x
    decreases |suffixes|
  {
    if suffixes != [] {
      StripSuffixLastWord(p, x, suffixes[0]);
      StripSuffixesKeepWord(p, x, suffixes[1..]);
    }
  }

  /** Peeling: when the last word is the k-th pattern's word (and no earlier pattern's), the
      loop removes it at step k and carries on with the later patterns only. */
  lemma {:induction false} StripSuffixesPeel(p: string, x: string, suffixes: seq<string>, k: nat)
    requires NoSpace(x) && k < |suffixes| && suffixes[k] == x && x !in suffixes[..k]
    requires forall j :: 0 <= j < |suffixes| ==> NoSpace(suffixes[j])
    ensures StripSuffixes(p + " " + x, suffixes) == StripSuffixes(p, suffixes[k + 1..])
    decreases k
  {
    StripSuffixLastWord(p, x, suffixes[0]);
    if k == 0 {
      assert (p + " " + x)[..|p|] == p;
    } else {
      assert suffixes[..k][0] == suffixes[0];
      assert suffixes[1..][..k - 1] == suffixes[..k][1..];
      assert suffixes[1..][k..] == suffixes[k + 1..];
      StripSuffixesPeel(p, x, suffixes[1..], k - 1);
    }
  }

  lemma SuffixesHaveNoSpace()
    ensures forall j :: 0 <= j < |Suffixes| ==> NoSpace(Suffixes[j])
  {
  }

  /** A name that lower-cases and separates to a canonical string is its own cleaned
      form. */
  lemma CleanOfWords(name: string, lowered: string)
    requires SeparatorsToSpaces(Lower(name)) == lowered && Canonical(lowered)
    ensures Clean(name) == lowered
  {
    KeepFixesWordsAndSpaces(lowered);
    CollapseNoOp(lowered, IsLowerAlnum);
    StripNoOp(lowered);
  }

  /** As `CleanOfWords`, for a name that ends in a period. */
  lemma CleanOfWordsDot(name: string, lowered: string)
    requires SeparatorsToSpaces(Lower(name)) == lowered + "." && Canonical(lowered)
    ensures Clean(name) == lowered
  {
    KeepAppend(lowered, ".");
    assert KeepWordsAndSpaces(".") == "";
    KeepFixesWordsAndSpaces(lowered);
    assert KeepWordsAndSpaces(lowered + ".") == lowered;
    CollapseNoOp(lowered, IsLowerAlnum);
    StripNoOp(lowered);
  }
}
