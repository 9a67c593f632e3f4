/** Character classes and string operations shared by the normalisers, the ignore list,
    the supplier analysis and the request validators. The character classes are Python's,
    restricted to the ASCII range. */
module Text {

  predicate IsUpper(c: char) { 'A' <= c <= 'Z' }

  predicate IsLowerAlnum(c: char) { 'a' <= c <= 'z' || '0' <= c <= '9' }

  /** Python's `str.isspace()` on ASCII, which is also the regular-expression class `\s`:
      tab, line feed, vertical tab, form feed, carriage return, the four separators
      0x1c-0x1f and the space. */
  predicate IsSpace(c: char) {
    c == ' ' || (9 <= c as int <= 13) || (28 <= c as int <= 31)
  }

  /** The regular-expression class `\w` on ASCII: letters, digits and the underscore. */
  predicate IsWord(c: char) {
    'a' <= c <= 'z' || 'A' <= c <= 'Z' || '0' <= c <= '9' || c == '_'
  }

  function LowerChar(c: char): (d: char)
    ensures !IsUpper(d)
    ensures IsUpper(c) ==> d as int == c as int + 32
    ensures !IsUpper(c) ==> d == c
  {
    if IsUpper(c) then (c as int + 32) as char else c
  }

  /** `s.lower()`. */
  function Lower(s: string): (r: string)
    ensures |r| == |s|
    ensures forall i :: 0 <= i < |s| ==> r[i] == LowerChar(s[i])
  {
    seq(|s|, i requires 0 <= i < |s| => LowerChar(s[i]))
  }

  /** Lower-casing twice is lower-casing once: a lower-cased key looks itself up. */
  lemma LowerIdempotent(s: string)
    ensures Lower(Lower(s)) == Lower(s)
  {
  }

  predicate StartsWith(s: string, prefix: string) {
    |prefix| <= |s| && s[..|prefix|] == prefix
  }

  predicate EndsWith(s: string, suffix: string) {
    |suffix| <= |s| && s[|s| - |suffix|..] == suffix
  }

  /** Python's substring test `sub in s`. */
  predicate Contains(s: string, sub: string)
    decreases |s|
  {
    StartsWith(s, sub) || (s != [] && Contains(s[1..], sub))
  }

  /** `s.lstrip()`: the leading whitespace run is dropped. */
  function TrimLeft(s: string): (r: string)
    ensures |r| <= |s|
  {
    if s != [] && IsSpace(s[0]) then TrimLeft(s[1..]) else s
  }

  /** `s.rstrip()`: the trailing whitespace run is dropped. */
  function TrimRight(s: string): (r: string)
    ensures |r| <= |s|
  {
    if s != [] && IsSpace(s[|s| - 1]) then TrimRight(s[..|s| - 1]) else s
  }

  /** `s.strip()`. */
  function Strip(s: string): string {
    TrimRight(TrimLeft(s))
  }

  /** `lstrip` cuts off exactly the maximal leading whitespace run. */
  lemma {:induction false} TrimLeftSpec(s: string)
    ensures TrimLeft(s) == s[|s| - |TrimLeft(s)|..]
    ensures TrimLeft(s) == [] || !IsSpace(TrimLeft(s)[0])
    ensures forall i :: 0 <= i < |s| - |TrimLeft(s)| ==> IsSpace(s[i])
    decreases |s|
  {
    if s != [] && IsSpace(s[0]) {
      TrimLeftSpec(s[1..]);
    }
  }

  /** `rstrip` cuts off exactly the maximal trailing whitespace run. */
  lemma {:induction false} TrimRightSpec(s: string)
    ensures TrimRight(s) == s[..|TrimRight(s)|]
    ensures TrimRight(s) == [] || !IsSpace(TrimRight(s)[|TrimRight(s)| - 1])
    ensures forall i :: |TrimRight(s)| <= i < |s| ==> IsSpace(s[i])
    decreases |s|
  {
    if s != [] && IsSpace(s[|s| - 1]) {
      TrimRightSpec(s[..|s| - 1]);
    }
  }

  /** Where `strip` starts cutting: the length of the leading whitespace run. */
  function StripStart(s: string): (lo: nat)
    ensures lo <= |s|
  {
    |s| - |TrimLeft(s)|
  }

  /** `strip` keeps the slice of `s` that starts at `StripStart(s)`, with whitespace only on
      either side of it. */
  lemma StripSlice(s: string)
    ensures StripStart(s) + |Strip(s)| <= |s|
    ensures Strip(s) == s[StripStart(s)..StripStart(s) + |Strip(s)|]
    ensures forall i :: 0 <= i < StripStart(s) ==> IsSpace(s[i])
    ensures forall i :: StripStart(s) + |Strip(s)| <= i < |s| ==> IsSpace(s[i])
  {
    var t := TrimLeft(s);
    var lo := StripStart(s);
    TrimLeftSpec(s);
    TrimRightSpec(t);
    assert forall i :: 0 <= i < |t| ==> t[i] == s[lo + i];
  }

  /** A non-empty stripped string starts and ends with a character other than whitespace. */
  lemma StripEnds(s: string)
    ensures Strip(s) != [] ==> !IsSpace(Strip(s)[0]) && !IsSpace(Strip(s)[|Strip(s)| - 1])
  {
    var t := TrimLeft(s);
    TrimLeftSpec(s);
    TrimRightSpec(t);
    if Strip(s) != [] {
      assert Strip(s)[0] == t[0];
    }
  }

  /** `strip` yields the empty string exactly when `s` is all whitespace. */
  lemma StripEmpty(s: string)
    ensures Strip(s) == [] <==> forall i :: 0 <= i < |s| ==> IsSpace(s[i])
  {
    var t := TrimLeft(s);
    var lo := StripStart(s);
    StripSlice(s);
    StripEnds(s);
    if Strip(s) == [] {
      TrimRightSpec(t);
      TrimLeftSpec(s);
      forall i | 0 <= i < |s|
        ensures IsSpace(s[i])
      {
        if lo <= i {
          assert s[i] == t[i - lo];
        }
      }
    }
  }

  /** A string with neither leading nor trailing whitespace is its own stripped form. */
  lemma StripNoOp(s: string)
    requires s != [] ==> !IsSpace(s[0]) && !IsSpace(s[|s| - 1])
    ensures Strip(s) == s
  {
  }

  lemma {:induction false} TrimLeftSnoc(s: string, c: char)
    requires IsSpace(c)
    ensures TrimLeft(s) == [] ==> TrimLeft(s + [c]) == []
    ensures TrimLeft(s) != [] ==> TrimLeft(s + [c]) == TrimLeft(s) + [c]
  {
    if s != [] && IsSpace(s[0]) {
      assert (s + [c])[1..] == s[1..] + [c];
      TrimLeftSnoc(s[1..], c);
    }
  }

  /** A trailing whitespace character does not change what `strip` keeps. */
  lemma StripSnocSpace(s: string, c: char)
    requires IsSpace(c)
    ensures Strip(s + [c]) == Strip(s)
  {
    TrimLeftSnoc(s, c);
    var t := TrimLeft(s);
    if t != [] {
      assert (t + [c])[..|t|] == t;
    }
  }

  /** `re.sub(r'\s+', ' ', s)`: every maximal whitespace run becomes a single space. */
  function CollapseSpaces(s: string): string
    decreases |s|
  {
    if s == [] then []
    else if IsSpace(s[0]) then " " + CollapseSpaces(TrimLeft(s[1..]))
    else [s[0]] + CollapseSpaces(s[1..])
  }

  /** Every character of `s` satisfies `ok` or is whitespace. */
  predicate OnlyOrSpace(s: string, ok: char -> bool) {
    forall i :: 0 <= i < |s| ==> ok(s[i]) || IsSpace(s[i])
  }

  /** Every character of `s` satisfies `ok` or is the space character, and no two spaces
      are adjacent. */
  predicate SingleSpaced(s: string, ok: char -> bool) {
    && (forall i :: 0 <= i < |s| ==> ok(s[i]) || s[i] == ' ')
    && (forall i :: 0 <= i < |s| - 1 ==> !(s[i] == ' ' && s[i + 1] == ' '))
  }

  /** Collapsing leaves single spaces only, keeps every other character class, and starts
      with a space exactly when `s` starts with whitespace. */
  lemma {:induction false} CollapseSpec(s: string, ok: char -> bool)
    requires OnlyOrSpace(s, ok)
    ensures SingleSpaced(CollapseSpaces(s), ok)
    ensures CollapseSpaces(s) == [] <==> s == []
    ensures s != [] ==> (CollapseSpaces(s)[0] == ' ' <==> IsSpace(s[0]))
    decreases |s|
  {
    if s != [] {
      if IsSpace(s[0]) {
        var rest := TrimLeft(s[1..]);
        TrimLeftSpec(s[1..]);
        assert forall i :: 0 <= i < |rest| ==> rest[i] == s[1 + |s[1..]| - |rest| + i];
        CollapseSpec(rest, ok);
      } else {
        assert OnlyOrSpace(s[1..], ok) by {
          assert forall i :: 0 <= i < |s[1..]| ==> s[1..][i] == s[1 + i];
        }
        CollapseSpec(s[1..], ok);
      }
    }
  }

  /** A single-spaced string whose only whitespace is the space character collapses to
      itself. */
  lemma {:induction false} CollapseNoOp(s: string, ok: char -> bool)
    requires SingleSpaced(s, ok)
    requires forall i :: 0 <= i < |s| ==> !(ok(s[i]) && IsSpace(s[i]))
    ensures CollapseSpaces(s) == s
    decreases |s|
  {
    if s != [] {
      assert SingleSpaced(s[1..], ok) by {
        assert forall i :: 0 <= i < |s[1..]| ==> s[1..][i] == s[1 + i];
      }
      CollapseNoOp(s[1..], ok);
      if IsSpace(s[0]) {
        assert TrimLeft(s[1..]) == s[1..];
      }
    }
  }

  /** A single-spaced string with no space at either end. */
  predicate Tidy(s: string, ok: char -> bool) {
    SingleSpaced(s, ok) && (s != [] ==> s[0] != ' ' && s[|s| - 1] != ' ')
  }

  /** `re.sub(r'\s+', ' ', s).strip()` is tidy and keeps the character class of `s`. */
  lemma CollapseStripTidy(s: string, ok: char -> bool)
    requires OnlyOrSpace(s, ok)
    requires forall c :: ok(c) ==> !IsSpace(c)
    ensures Tidy(Strip(CollapseSpaces(s)), ok)
  {
    var c := CollapseSpaces(s);
    CollapseSpec(s, ok);
    StripSlice(c);
    StripEnds(c);
    var r := Strip(c);
    var lo := StripStart(c);
    assert forall i :: 0 <= i < |r| ==> r[i] == c[lo + i];
  }

  /** `re.sub(r'[^\w\s]', '', s)`: characters that are neither word characters nor
      whitespace are deleted; the others keep their order. */
  function KeepWordsAndSpaces(s: string): (r: string)
    ensures |r| <= |s|
  {
    if s == [] then []
    else (if IsWord(s[0]) || IsSpace(s[0]) then [s[0]] else []) + KeepWordsAndSpaces(s[1..])
  }

  /** What survives the deletion is whitespace or a word character of `s`; so when every word
      character of `s` satisfies `ok`, so does every kept character other than whitespace. */
  lemma {:induction false} KeepSpec(s: string, ok: char -> bool)
    requires forall i :: 0 <= i < |s| ==> IsWord(s[i]) ==> ok(s[i])
    ensures OnlyOrSpace(KeepWordsAndSpaces(s), ok)
    decreases |s|
  {
    if s != [] {
      assert forall i :: 0 <= i < |s[1..]| ==> s[1..][i] == s[i + 1];
      KeepSpec(s[1..], ok);
    }
  }

  /** Deletion keeps every character of a string made only of word characters and
      whitespace. */
  lemma {:induction false} KeepFixesWordsAndSpaces(s: string)
    requires forall i :: 0 <= i < |s| ==> IsWord(s[i]) || IsSpace(s[i])
    ensures KeepWordsAndSpaces(s) == s
    decreases |s|
  {
    if s != [] {
      assert forall i :: 0 <= i < |s[1..]| ==> s[1..][i] == s[i + 1];
      KeepFixesWordsAndSpaces(s[1..]);
    }
  }

  /** Deletion works character by character, so it distributes over concatenation. */
  lemma {:induction false} KeepAppend(a: string, b: string)
    ensures KeepWordsAndSpaces(a + b) == KeepWordsAndSpaces(a) + KeepWordsAndSpaces(b)
    decreases |a|
  {
    if a != [] {
      var head := if IsWord(a[0]) || IsSpace(a[0]) then [a[0]] else [];
      assert (a + b)[0] == a[0];
      assert (a + b)[1..] == a[1..] + b;
      KeepAppend(a[1..], b);
      calc {
        KeepWordsAndSpaces(a + b);
        head + KeepWordsAndSpaces(a[1..] + b);
        head + (KeepWordsAndSpaces(a[1..]) + KeepWordsAndSpaces(b));
        (head + KeepWordsAndSpaces(a[1..])) + KeepWordsAndSpaces(b);
      }
    } else {
      assert a + b == b;
    }
  }

  /** `sep.join(parts)`. */
  function Join(parts: seq<string>, sep: string): string
  {
    if |parts| == 0 then ""
    else if |parts| == 1 then parts[0]
    else parts[0] + sep + Join(parts[1..], sep)
  }

  /** A join of several parts starts with the first part. */
  lemma JoinStartsWith(parts: seq<string>, sep: string)
    requires |parts| > 0
    ensures StartsWith(Join(parts, sep), parts[0])
  {
    if |parts| > 1 {
      assert (parts[0] + sep + Join(parts[1..], sep))[..|parts[0]|] == parts[0];
    }
  }
}
