/** The supplier ignore list of server/app/config.py: a line-oriented text file of names and
    the lower-cased set of them held in memory. The file is its decoded text plus whether it
    exists; whether opening it for reading or writing fails is given by two flags. */
module IgnoreList {
  import opened Text

  // The file as Python's text-mode iteration sees it.

  /** The length of the first line of a non-empty text: up to and including the first
      newline, or the whole text when it has none. */
  function LineEnd(text: string): (n: nat)
    requires text != []
    ensures 0 < n <= |text|
    ensures forall j :: 0 <= j < n - 1 ==> text[j] != '\n'
    ensures n < |text| ==> text[n - 1] == '\n'
  {
    if text[0] == '\n' || |text| == 1 then 1 else 1 + LineEnd(text[1..])
  }

  /** `for line in f` / `f.readlines()`: the lines of the text, each keeping its newline. */
  function Lines(text: string): seq<string>
    decreases |text|
  {
    if text == [] then []
    else
      var n := LineEnd(text);
      [text[..n]] + Lines(text[n..])
  }

  function Concat(lines: seq<string>): string {
    if lines == [] then [] else lines[0] + Concat(lines[1..])
  }

  /** A line: non-empty, with a newline at most as its last character. */
  predicate IsLine(line: string) {
    line != [] && forall j :: 0 <= j < |line| - 1 ==> line[j] != '\n'
  }

  predicate Terminated(line: string) {
    line != [] && line[|line| - 1] == '\n'
  }

  /** What the lines of some text look like: every one a line, and every one but the last
      ending with a newline. */
  predicate ProperLines(lines: seq<string>) {
    (forall i :: 0 <= i < |lines| ==> IsLine(lines[i])) &&
    (forall i :: 0 <= i < |lines| - 1 ==> Terminated(lines[i]))
  }

  /** Splitting into lines loses nothing: writing the lines back gives the text. */
  lemma {:induction false} ConcatOfLines(text: string)
    ensures Concat(Lines(text)) == text
    decreases |text|
  {
    if text != [] {
      var n := LineEnd(text);
      ConcatOfLines(text[n..]);
      assert text[..n] + text[n..] == text;
    }
  }

  /** The lines of a text are proper lines. */
  lemma {:induction false} LinesProper(text: string)
    ensures ProperLines(Lines(text))
    decreases |text|
  {
    if text != [] {
      var n := LineEnd(text);
      LinesProper(text[n..]);
      var rest := Lines(text[n..]);
      var ls := [text[..n]] + rest;
      assert IsLine(text[..n]);
      assert forall i :: 1 <= i < |ls| ==> ls[i] == rest[i - 1];
      if rest != [] {
        assert text[n..] != [];
        assert Terminated(text[..n]);
      }
    }
  }

  lemma {:induction false} LineEndOf(line: string, rest: string)
    requires line != []
    requires forall j :: 0 <= j < |line| - 1 ==> line[j] != '\n'
    requires rest != [] ==> line[|line| - 1] == '\n'
    ensures LineEnd(line + rest) == |line|
    decreases |line|
  {
    if |line| > 1 {
      assert (line + rest)[1..] == line[1..] + rest;
      LineEndOf(line[1..], rest);
    }
  }

  /** Conversely, proper lines written out read back as the same lines. */
  lemma {:induction false} LinesOfConcat(lines: seq<string>)
    requires ProperLines(lines)
    ensures Lines(Concat(lines)) == lines
  {
    if lines != [] {
      var rest := lines[1..];
      assert forall i :: 0 <= i < |rest| ==> rest[i] == lines[i + 1];
      assert ProperLines(rest);
      LinesOfConcat(rest);
      if rest != [] {
        assert Concat(rest) != [];
      }
      LineEndOf(lines[0], Concat(rest));
      var t := lines[0] + Concat(rest);
      assert t[..|lines[0]|] == lines[0] && t[|lines[0]|..] == Concat(rest);
    }
  }

  lemma {:induction false} ConcatSnoc(lines: seq<string>, line: string)
    ensures Concat(lines + [line]) == Concat(lines) + line
  {
    if lines == [] {
      assert [line][1..] == [];
    } else {
      assert (lines + [line])[1..] == lines[1..] + [line];
      ConcatSnoc(lines[1..], line);
    }
  }

  // The entries of the file.

  /** A stripped line that names a supplier: not blank and not a `#` comment. */
  predicate IsEntry(name: string) {
    name != "" && name[0] != '#'
  }

  /** The stripped entry lines in file order: `get_ignore_list` on an existing file. */
  function Entries(lines: seq<string>): seq<string> {
    if lines == [] then []
    else
      var last := Strip(lines[|lines| - 1]);
      Entries(lines[..|lines| - 1]) + (if IsEntry(last) then [last] else [])
  }

  /** What loading adds to the set: the lower-cased entries. */
  function Loaded(lines: seq<string>): set<string> {
    set e | e in Entries(lines) :: Lower(e)
  }

  lemma LoadedSnoc(lines: seq<string>, line: string)
    ensures Loaded(lines + [line])
         == Loaded(lines) + (if IsEntry(Strip(line)) then {Lower(Strip(line))} else {})
  {
    assert (lines + [line])[..|lines|] == lines;
  }

  /** The entries are exactly the stripped lines that are neither blank nor comments. */
  lemma {:induction false} EntriesSpec(lines: seq<string>)
    ensures forall e :: e in Entries(lines) <==>
      IsEntry(e) && exists i :: 0 <= i < |lines| && Strip(lines[i]) == e
  {
    if lines != [] {
      var init := lines[..|lines| - 1];
      EntriesSpec(init);
      assert forall i :: 0 <= i < |init| ==> init[i] == lines[i];
    }
  }

  /** Every entry is already stripped, so listing and loading see the same names. */
  lemma EntriesStripped(lines: seq<string>)
    ensures forall e :: e in Entries(lines) ==> Strip(e) == e
  {
    EntriesSpec(lines);
    forall e | e in Entries(lines)
      ensures Strip(e) == e
    {
      var i :| 0 <= i < |lines| && Strip(lines[i]) == e;
      StripEnds(lines[i]);
      StripNoOp(e);
    }
  }

  /** The lines `remove_from_ignore_list` writes back: those whose stripped text is not the
      name, compared case-sensitively. */
  function Kept(lines: seq<string>, name: string): seq<string> {
    if lines == [] then []
    else
      var last := lines[|lines| - 1];
      Kept(lines[..|lines| - 1], name) + (if Strip(last) != name then [last] else [])
  }

  /** `Kept` keeps the other lines verbatim and in their original order, and drops each line
      matching the name. */
  lemma {:induction false} KeptSpec(lines: seq<string>, name: string)
    ensures forall l :: l in Kept(lines, name) <==> l in lines && Strip(l) != name
    ensures |Kept(lines, name)| <= |lines|
    decreases |lines|
  {
    if lines != [] {
      var init := lines[..|lines| - 1];
      var last := lines[|lines| - 1];
      KeptSpec(init, name);
      assert lines == init + [last];
      assert Kept(lines, name) == Kept(init, name) + (if Strip(last) != name then [last] else []);
    }
  }

  /** With no line matching the name, every line is kept. */
  lemma {:induction false} KeptUnmatched(lines: seq<string>, name: string)
    requires forall i :: 0 <= i < |lines| ==> Strip(lines[i]) != name
    ensures Kept(lines, name) == lines
    decreases |lines|
  {
    if lines != [] {
      var init := lines[..|lines| - 1];
      assert forall i :: 0 <= i < |init| ==> init[i] == lines[i];
      KeptUnmatched(init, name);
      assert lines == init + [lines[|lines| - 1]];
    }
  }

  /** The kept lines of proper lines are proper again: the last line, the only one that may
      lack a newline, stays last if it is kept. */
  lemma KeptProper(lines: seq<string>, name: string)
    requires ProperLines(lines)
    ensures ProperLines(Kept(lines, name))
  {
    var k := Kept(lines, name);
    KeptSpec(lines, name);
    forall i | 0 <= i < |k|
      ensures IsLine(k[i])
    {
      assert k[i] in lines;
    }
    if lines != [] {
      var init := lines[..|lines| - 1];
      var last := lines[|lines| - 1];
      KeptSpec(init, name);
      var ki := Kept(init, name);
      forall i | 0 <= i < |ki|
        ensures Terminated(ki[i])
      {
        assert ki[i] in init;
      }
      assert k == ki + (if Strip(last) != name then [last] else []);
      assert forall i :: 0 <= i < |ki| ==> k[i] == ki[i];
    }
  }

  /** After the lines matching a name are removed, no entry of the file is that name. */
  lemma RemovedEntries(text: string, name: string)
    ensures forall e :: e in Entries(Lines(Concat(Kept(Lines(text), name)))) ==> e != name
  {
    LinesProper(text);
    KeptProper(Lines(text), name);
    LinesOfConcat(Kept(Lines(text), name));
    var kept := Kept(Lines(text), name);
    EntriesSpec(kept);
    KeptSpec(Lines(text), name);
    forall e | e in Entries(kept)
      ensures e != name
    {
      var i :| 0 <= i < |kept| && Strip(kept[i]) == e;
      assert kept[i] in kept;
    }
  }

  /** `supplier_name.lower() in self._ignored_suppliers`. */
  predicate Ignored(ignored: set<string>, name: string) {
    Lower(name) in ignored
  }

  /** Membership is case-insensitive: names differing only in case are ignored together. */
  lemma IgnoredCaseInsensitive(ignored: set<string>, a: string, b: string)
    requires Lower(a) == Lower(b)
    ensures Ignored(ignored, a) <==> Ignored(ignored, b)
  {
  }

  /** Membership is exact on the lower-cased name: a loaded set ignores a name exactly when
      some entry of the file has the same lower-cased form. */
  lemma LoadedIgnores(lines: seq<string>, name: string)
    ensures Ignored(Loaded(lines), name) <==> exists e :: e in Entries(lines) && Lower(e) == Lower(name)
  {
  }

  /** Appending a line to a text that ends with a newline (or is empty) appends it to the
      lines. */
  lemma LinesSnoc(text: string, line: string)
    requires text == [] || text[|text| - 1] == '\n'
    requires IsLine(line)
    ensures Lines(text + line) == Lines(text) + [line]
  {
    var ls := Lines(text);
    LinesProper(text);
    ConcatOfLines(text);
    if text != [] {
      LastLineTerminated(text);
    }
    ProperSnoc(ls, line);
    ConcatSnoc(ls, line);
    LinesOfConcat(ls + [line]);
  }

  /** A line appended after proper lines whose last one is terminated keeps them proper. */
  lemma ProperSnoc(ls: seq<string>, line: string)
    requires ProperLines(ls) && (ls == [] || Terminated(ls[|ls| - 1])) && IsLine(line)
    ensures ProperLines(ls + [line])
  {
    var ls' := ls + [line];
    assert forall i :: 0 <= i < |ls| ==> ls'[i] == ls[i];
  }

  /** A text ending with a newline has a last line ending with it. */
  lemma {:induction false} LastLineTerminated(text: string)
    requires text != [] && text[|text| - 1] == '\n'
    ensures Lines(text) != [] && Terminated(Lines(text)[|Lines(text)| - 1])
    decreases |text|
  {
    var n := LineEnd(text);
    var rest := Lines(text[n..]);
    if text[n..] != [] {
      LastLineTerminated(text[n..]);
      assert Lines(text)[|Lines(text)| - 1] == rest[|rest| - 1];
    } else {
      assert text[..n] == text;
    }
  }

  /** `add` does not strip, but loading does: after adding a name, a reload holds its
      stripped lower-cased form, which may differ from what `add` put in the set. */
  lemma AddThenReload(text: string, name: string)
    requires text == [] || text[|text| - 1] == '\n'
    requires forall j :: 0 <= j < |name| ==> name[j] != '\n'
    ensures Loaded(Lines(text + name + "\n"))
         == Loaded(Lines(text)) + (if IsEntry(Strip(name)) then {Lower(Strip(name))} else {})
  {
    var line := name + "\n";
    assert IsLine(line);
    assert text + name + "\n" == text + line;
    LinesSnoc(text, line);
    LoadedSnoc(Lines(text), line);
    StripSnocSpace(name, '\n');
  }

  /** `remove` compares case-sensitively: a line that differs from the name only in case is
      kept, so a reload ignores the name again. */
  lemma RemoveThenReload(text: string, name: string, i: nat)
    requires i < |Lines(text)| && IsEntry(Strip(Lines(text)[i]))
    requires Strip(Lines(text)[i]) != name && Lower(Strip(Lines(text)[i])) == Lower(name)
    ensures Ignored(Loaded(Lines(Concat(Kept(Lines(text), name)))), name)
  {
    var lines := Lines(text);
    LinesProper(text);
    KeptProper(lines, name);
    LinesOfConcat(Kept(lines, name));
    KeptSpec(lines, name);
    assert lines[i] in lines;
    var kept := Kept(lines, name);
    var j :| 0 <= j < |kept| && kept[j] == lines[i];
    EntriesSpec(kept);
    assert Strip(lines[i]) in Entries(kept);
  }

  /** `remove` of a name that no line matches leaves the file as it was. */
  lemma RemoveUnmatched(text: string, name: string)
    requires forall i :: 0 <= i < |Lines(text)| ==> Strip(Lines(text)[i]) != name
    ensures Concat(Kept(Lines(text), name)) == text
  {
    KeptUnmatched(Lines(text), name);
    ConcatOfLines(text);
  }

  /** The set a fresh load produces. A missing or unreadable file gives the empty set. */
  function FreshLoad(present: bool, text: string, readable: bool): set<string> {
    if present && readable then Loaded(Lines(text)) else {}
  }

  /** Some line, stripped, is the name. */
  predicate SomeLineStripsTo(lines: seq<string>, name: string) {
    exists i :: 0 <= i < |lines| && Strip(lines[i]) == name
  }

  /** The lower-cased forms of some names. */
  function LowerNames(names: seq<string>): set<string> {
    set e | e in names :: Lower(e)
  }

  /** What `get_ignore_list` returns for a file: its entries, or nothing when it is missing
      or unreadable. */
  function Listed(present: bool, text: string, readable: bool): seq<string> {
    if present && readable then Entries(Lines(text)) else []
  }

  /** The listed names are the stripped entry lines of an existing readable file, already
      stripped, and they are the names a fresh load ignores, up to case. */
  lemma ListedSpec(present: bool, text: string, readable: bool)
    ensures forall e :: e in Listed(present, text, readable) <==>
      present && readable && IsEntry(e) && SomeLineStripsTo(Lines(text), e)
    ensures forall e :: e in Listed(present, text, readable) ==> Strip(e) == e
    ensures FreshLoad(present, text, readable) == LowerNames(Listed(present, text, readable))
  {
    if present && readable {
      var lines := Lines(text);
      EntriesSpec(lines);
      EntriesStripped(lines);
      assert Loaded(lines) == LowerNames(Entries(lines)) by {
        forall n ensures n in Loaded(lines) <==> n in LowerNames(Entries(lines)) {}
      }
    } else {
      assert LowerNames([]) == {} by {
        forall n ensures n !in LowerNames([]) {}
      }
    }
  }

  class Config {
    /** Whether the ignore-list file exists. */
    var present: bool
    /** The file's text; empty when it does not exist. */
    var text: string
    /** Whether opening the file for reading succeeds. */
    var readable: bool
    /** Whether opening the file for writing or appending succeeds. */
    var writable: bool
    /** `_ignored_suppliers`. */
    var ignored: set<string>

    /** `Config()`: starts with an empty set and loads the file. */
    constructor (present: bool, text: string, readable: bool, writable: bool)
      ensures this.present == present && this.text == text
      ensures this.readable == readable && this.writable == writable
      ensures ignored == FreshLoad(present, text, readable)
    {
      this.present := present;
      this.text := text;
      this.readable := readable;
      this.writable := writable;
      ignored := {};
      new;
      Load();
    }

    /** `_load_ignore_list`: adds the lower-cased entries of the file to the set; a missing
        or unreadable file adds nothing. */
    method Load()
      modifies this
      ensures present == old(present) && text == old(text)
      ensures readable == old(readable) && writable == old(writable)
      ensures ignored == old(ignored) + FreshLoad(present, text, readable)
    {
      if !present || !readable {
        return;
      }
      var lines := Lines(text);
      var acc := ignored;
      for k := 0 to |lines|
        invariant acc == old(ignored) + Loaded(lines[..k])
        modifies {}
      {
        var name := Strip(lines[k]);
        LoadedSnoc(lines[..k], lines[k]);
        assert lines[..k + 1] == lines[..k] + [lines[k]];
        if name != "" && name[0] != '#' {
          acc := acc + {Lower(name)};
        }
      }
      assert lines[..|lines|] == lines;
      ignored := acc;
    }

    /** `reload_ignore_list`: clears the set and loads again, so stale entries are gone. */
    method Reload()
      modifies this
      ensures present == old(present) && text == old(text)
      ensures readable == old(readable) && writable == old(writable)
      ensures ignored == FreshLoad(present, text, readable)
    {
      ignored := {};
      Load();
    }

    /** `is_supplier_ignored`: case-insensitive; after a fresh load it is true exactly when
        some entry of the file equals the name up to case. */
    function IsSupplierIgnored(name: string): (r: bool)
      reads this
      ensures forall other :: Lower(other) == Lower(name) ==> Ignored(ignored, other) == r
      ensures ignored == FreshLoad(present, text, readable) ==>
        (r <==> present && readable && exists e :: e in Entries(Lines(text)) && Lower(e) == Lower(name))
    {
      LoadedIgnores(Lines(text), name);
      Ignored(ignored, name)
    }

    /** `add_to_ignore_list`: appends the name, unstripped, as one line (creating the file if
        need be) and adds its lower-cased form to the set; a failed open changes nothing. */
    method Add(name: string) returns (ok: bool)
      modifies this
      ensures ok == old(writable)
      ensures ok ==> present && text == (if old(present) then old(text) else "") + name + "\n"
      ensures ok ==> ignored == old(ignored) + {Lower(name)}
      ensures !ok ==> present == old(present) && text == old(text) && ignored == old(ignored)
      ensures readable == old(readable) && writable == old(writable)
    {
      if !writable {
        return false;
      }
      text := (if present then text else "") + name + "\n";
      present := true;
      ignored := ignored + {Lower(name)};
      return true;
    }

    /** `remove_from_ignore_list`: on an existing file, writes back every line whose stripped
        text differs from the name and discards the lower-cased name from the set. It
        reports success even when no line matched. */
    method Remove(name: string) returns (ok: bool)
      modifies this
      ensures ok == (old(present) && old(readable) && old(writable))
      ensures ok ==> text == Concat(Kept(Lines(old(text)), name))
      ensures ok ==> ignored == old(ignored) - {Lower(name)}
      ensures !ok ==> text == old(text) && ignored == old(ignored)
      ensures present == old(present) && readable == old(readable) && writable == old(writable)
    {
      if !present || !readable || !writable {
        return false;
      }
      var lines := Lines(text);
      var written := "";
      for k := 0 to |lines|
        invariant written == Concat(Kept(lines[..k], name))
        modifies {}
      {
        assert lines[..k + 1][..k] == lines[..k];
        assert lines[..k + 1][k] == lines[k];
        assert Kept(lines[..k + 1], name)
            == Kept(lines[..k], name) + (if Strip(lines[k]) != name then [lines[k]] else []);
        if Strip(lines[k]) != name {
          ConcatSnoc(Kept(lines[..k], name), lines[k]);
          written := written + lines[k];
        } else {
          assert Kept(lines[..k], name) + [] == Kept(lines[..k], name);
        }
      }
      assert lines[..|lines|] == lines;
      text := written;
      ignored := ignored - {Lower(name)};
      return true;
    }

    /** `get_ignore_list`: the stripped entries in file order, not lower-cased; nothing when
        the file is missing or unreadable. */
    function GetIgnoreList(): (r: seq<string>)
      reads this
      ensures forall e :: e in r <==>
        present && readable && IsEntry(e) && SomeLineStripsTo(Lines(text), e)
      ensures forall e :: e in r ==> Strip(e) == e
      ensures ignored == FreshLoad(present, text, readable) ==> ignored == LowerNames(r)
    {
      ListedSpec(present, text, readable);
      Listed(present, text, readable)
    }
  }
}
