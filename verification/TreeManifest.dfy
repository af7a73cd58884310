/**
 * The exact tree manifest of the offline release tool: one checksum line per
 * file in name order, checked against the whole tree.
 */
module TreeManifest {
  import opened Names

  predicate IsHex(c: char) {
    '0' <= c <= '9' || 'a' <= c <= 'f'
  }

  predicate IsDigest(d: string) {
    |d| == 64 && forall i :: 0 <= i < |d| ==> IsHex(d[i])
  }

  /** The characters at which `str.splitlines` ends a line, within ASCII. */
  predicate IsBreak(c: char) {
    c == '\n' || c == '\r' || c as int == 0x0B || c as int == 0x0C || 0x1C <= c as int <= 0x1E
  }

  predicate IsAscii(s: string) {
    forall i :: 0 <= i < |s| ==> s[i] as int < 128
  }

  lemma CharacterClasses(c: char)
    ensures IsHex(c) <==> c in "0123456789abcdef"
    ensures IsBreak(c) <==> c as int in {0x0A, 0x0B, 0x0C, 0x0D, 0x1C, 0x1D, 0x1E}
  {
    var hex := "0123456789abcdef";
    if IsHex(c) {
      var k := if c <= '9' then c as int - '0' as int else c as int - 'a' as int + 10;
      assert hex[k] == c;
    }
  }

  /** Free of line breaks and of the backslash. */
  predicate Clean(s: string) {
    forall i :: 0 <= i < |s| ==> !IsBreak(s[i]) && s[i] != '\\'
  }

  // ---------------------------------------------------------------- paths

  /** The components between slashes. */
  function Parts(s: string): (r: seq<string>)
    ensures r != []
  {
    if s == [] then [[]]
    else if s[0] == '/' then [[]] + Parts(s[1..])
    else
      var rest := Parts(s[1..]);
      [[s[0]] + rest[0]] + rest[1..]
  }

  function Joined(parts: seq<string>): string {
    if parts == [] then "" else if |parts| == 1 then parts[0] else parts[0] + "/" + Joined(parts[1..])
  }

  /** The components are free of slashes, and joined by slashes they are the path. */
  lemma {:induction false} PartsExact(s: string)
    ensures Joined(Parts(s)) == s && forall i :: 0 <= i < |Parts(s)| ==> '/' !in Parts(s)[i]
  {
    if s != [] {
      PartsExact(s[1..]);
      var rest := Parts(s[1..]);
      if s[0] == '/' {
        assert Parts(s)[1..] == rest;
      } else {
        assert Parts(s)[1..] == rest[1..] && Parts(s)[0] == [s[0]] + rest[0];
        assert |rest| > 1 ==> [s[0]] + rest[0] + "/" + Joined(rest[1..]) == [s[0]] + Joined(rest);
      }
      assert s == [s[0]] + s[1..];
    }
  }

  /** A relative path as the file system gives it. */
  predicate GoodParts(s: string) {
    forall i :: 0 <= i < |Parts(s)| ==> Parts(s)[i] != "" && Parts(s)[i] != "." && Parts(s)[i] != ".."
  }

  /**
   * `_safe_manifest_name(name, nested=True)`.  A lone dot has no components, so
   * the source lets it through.
   */
  predicate SafeName(s: string) {
    s != [] && '\\' !in s && (s == "." || GoodParts(s))
  }

  /** Splitting at slashes is the only way to write a path as slash-free components. */
  lemma {:induction false} PartsUnique(parts: seq<string>)
    requires parts != [] && forall i :: 0 <= i < |parts| ==> '/' !in parts[i]
    ensures Parts(Joined(parts)) == parts
    decreases |parts|, |parts[0]|
  {
    var rest := parts[1..];
    if parts[0] == "" {
      if |parts| > 1 {
        PartsUnique(rest);
        assert "" + "/" + Joined(rest) == ['/'] + Joined(rest);
        assert parts == [""] + rest;
      }
    } else {
      var shorter := [parts[0][1..]] + rest;
      assert parts[0] == [parts[0][0]] + parts[0][1..];
      PartsUnique(shorter);
      assert shorter[1..] == rest;
      assert Joined(parts) == [parts[0][0]] + Joined(shorter);
      assert parts == [[parts[0][0]] + shorter[0]] + shorter[1..];
    }
  }

  /** Which names are safe, in terms of their components. */
  lemma SafeNameExact(parts: seq<string>)
    requires parts != [] && forall i :: 0 <= i < |parts| ==> '/' !in parts[i]
    ensures SafeName(Joined(parts)) <==>
            '\\' !in Joined(parts)
            && (Joined(parts) == "." || forall i :: 0 <= i < |parts| ==> parts[i] !in {"", ".", ".."})
  {
    PartsUnique(parts);
    assert Parts("") == [""];
    assert GoodParts(Joined(parts)) ==> Joined(parts) != "";
  }

  /** A directory is an ancestor of a file exactly when its path and a slash begin the file's. */
  lemma AncestorsExact(s: string, d: Name)
    ensures d in Ancestors(s) <==> exists rest :: s == d.text + "/" + rest
  {
    if d in Ancestors(s) {
      var i :| 0 <= i < |s| && s[i] == '/' && d == Name(s[..i]);
      assert s == d.text + "/" + s[i + 1..];
    }
    if rest :| s == d.text + "/" + rest {
      var i := |d.text|;
      assert s[i] == '/' && s[..i] == d.text;
    }
  }

  // ---------------------------------------------------------------- trees

  /** A checked tree: the digest of every regular file, and the directories below the root. */
  datatype Tree = Tree(files: map<Name, string>, directories: set<Name>)

  /** The proper ancestors of a file, as `PurePosixPath(name).parents` without the root. */
  function Ancestors(s: string): set<Name> {
    set i | 0 <= i < |s| && s[i] == '/' :: Name(s[..i])
  }

  ghost predicate Implied(t: Tree, d: Name) {
    exists n :: n in t.files && d in Ancestors(n.text)
  }

  /** What a directory walk yields: digests, proper names, and the parents of every file. */
  ghost predicate Walked(t: Tree) {
    && (forall n :: n in t.files ==> IsDigest(t.files[n]) && n.text != "" && GoodParts(n.text))
    && (forall d :: Implied(t, d) ==> d in t.directories)
  }

  /** `_safe_tree_files` refuses a directory that holds no file. */
  ghost predicate NoEmptyDirectory(t: Tree) {
    forall d :: d in t.directories ==> Implied(t, d)
  }

  // ---------------------------------------------------------------- writing

  function Line(digest: string, name: string): string {
    digest + "  " + name + "\n"
  }

  function Render(names: seq<Name>, files: map<Name, string>): string
    requires forall i :: 0 <= i < |names| ==> names[i] in files
  {
    if names == [] then "" else Line(files[names[0]], names[0].text) + Render(names[1..], files)
  }

  datatype Written = Payload(text: string) | Refused

  /** `_write_tree_manifest` for a tree whose files are listed in any order. */
  ghost function WriteManifest(t: Tree, listing: seq<Name>): Written
    requires Elements(listing) == t.files.Keys
  {
    SortedAscending(listing);
    assert forall n :: n in Sorted(listing) ==> n in Elements(Sorted(listing));
    var text := Render(Sorted(listing), t.files);
    if !NoEmptyDirectory(t) || text == "" || !IsAscii(text) then Refused else Payload(text)
  }

  // ---------------------------------------------------------------- reading

  /** The length of the first line, its end included. */
  function FirstLine(s: string): (n: nat)
    ensures n <= |s| && (s != [] ==> n > 0)
  {
    if s == [] then 0
    else if s[0] == '\r' && |s| > 1 && s[1] == '\n' then 2
    else if IsBreak(s[0]) then 1
    else 1 + FirstLine(s[1..])
  }

  /** `splitlines(keepends=True)`. */
  function SplitLines(s: string): seq<string>
    decreases |s|
  {
    if s == [] then [] else [s[..FirstLine(s)]] + SplitLines(s[FirstLine(s)..])
  }

  datatype Entry = Entry(name: Name, digest: string)
  datatype Parsed<T> = Good(value: T) | Bad

  /** The line pattern: 64 hex digits, two spaces, a name without backslash, CR or LF, a newline. */
  function ParseLine(line: string): Parsed<Entry> {
    if |line| < 68 || !IsDigest(line[..64]) || line[64..66] != "  " || line[|line| - 1] != '\n' then Bad
    else
      var name := line[66..|line| - 1];
      if '\\' in name || '\r' in name || '\n' in name then Bad else Good(Entry(Name(name), line[..64]))
  }

  function NamesOf(es: seq<Entry>): seq<Name> {
    seq(|es|, i requires 0 <= i < |es| => es[i].name)
  }

  /** The loop over the lines; entries keep the order of the file. */
  function ParseLines(lines: seq<string>, entries: seq<Entry>): Parsed<seq<Entry>>
    decreases |lines|
  {
    if lines == [] then Good(entries)
    else match ParseLine(lines[0])
      case Bad => Bad
      case Good(e) =>
        if !SafeName(e.name.text) || e.name in NamesOf(entries) then Bad
        else ParseLines(lines[1..], entries + [e])
  }

  const MAX_MANIFEST_BYTES := 4 * 1024 * 1024

  ghost function ReadManifest(text: string): Parsed<seq<Entry>> {
    if |text| > MAX_MANIFEST_BYTES || !IsAscii(text) || text == "" || text[|text| - 1] != '\n' then Bad
    else match ParseLines(SplitLines(text), [])
      case Bad => Bad
      case Good(es) => if Ascending(NamesOf(es)) then Good(es) else Bad
  }

  /** The entry list says exactly what the files are. */
  ghost predicate Matches(es: seq<Entry>, files: map<Name, string>) {
    && (forall n :: n in NamesOf(es) <==> n in files)
    && (forall i :: 0 <= i < |es| ==> es[i].name in files && files[es[i].name] == es[i].digest)
  }

  /** `_verify_tree_manifest`: `manifest` is the file's own path in the tree. */
  ghost predicate Verifies(t: Tree, manifest: Name, text: string) {
    && NoEmptyDirectory(t)
    && ReadManifest(text).Good?
    && Matches(ReadManifest(text).value, t.files - {manifest})
  }

  // ---------------------------------------------------------------- reading what was written

  lemma {:induction false} FirstLineOf(line: string, rest: string)
    requires line != [] && line[|line| - 1] == '\n'
    requires forall i :: 0 <= i < |line| - 1 ==> !IsBreak(line[i])
    ensures FirstLine(line + rest) == |line|
  {
    if |line| > 1 {
      assert (line + rest)[1..] == line[1..] + rest;
      FirstLineOf(line[1..], rest);
    }
  }

  lemma LineSplits(d: string, name: string, rest: string)
    requires IsDigest(d) && Clean(name)
    ensures SplitLines(Line(d, name) + rest) == [Line(d, name)] + SplitLines(rest)
  {
    var line := Line(d, name);
    forall i | 0 <= i < |line| - 1 ensures !IsBreak(line[i]) {
      if i < 64 {
        assert line[i] == d[i];
      } else if i >= 66 {
        assert line[i] == name[i - 66];
      }
    }
    FirstLineOf(line, rest);
    assert (line + rest)[..|line|] == line && (line + rest)[|line|..] == rest;
  }

  /** A line gives an entry exactly when it is the entry's line with a proper digest and name. */
  lemma ParseLineExact(line: string, e: Entry)
    ensures ParseLine(line) == Good(e) <==>
            && line == e.digest + "  " + e.name.text + "\n" && IsDigest(e.digest) && e.name.text != ""
            && '\\' !in e.name.text && '\r' !in e.name.text && '\n' !in e.name.text
  {
    var own := Line(e.digest, e.name.text);
    if line == own && |e.digest| == 64 {
      assert own[..64] == e.digest && own[64..66] == "  " && own[66..|own| - 1] == e.name.text;
    }
    if ParseLine(line) == Good(e) {
      assert line == line[..64] + line[64..66] + line[66..|line| - 1] + line[|line| - 1..];
      assert line[|line| - 1..] == "\n";
    }
  }

  function Entries(names: seq<Name>, files: map<Name, string>): seq<Entry>
    requires forall i :: 0 <= i < |names| ==> names[i] in files
  {
    seq(|names|, i requires 0 <= i < |names| => Entry(names[i], files[names[i]]))
  }

  /** The names can be written on a line and read back. */
  ghost predicate AllClean(names: seq<Name>) {
    forall i :: 0 <= i < |names| ==> Clean(names[i].text)
  }

  /** The lines of the entries, one after the other. */
  function TextOf(es: seq<Entry>): string {
    if es == [] then "" else Line(es[0].digest, es[0].name.text) + TextOf(es[1..])
  }

  ghost predicate GoodEntry(e: Entry) {
    IsDigest(e.digest) && Clean(e.name.text) && SafeName(e.name.text)
  }

  lemma DistinctSplit(s: seq<Name>, t: seq<Name>)
    requires t != [] && Distinct(s + t)
    ensures t[0] !in s
  {
    forall i | 0 <= i < |s| ensures s[i] != t[0] {
      assert (s + t)[i] == s[i] && (s + t)[|s|] == t[0];
    }
  }

  lemma GoodEntryParses(e: Entry)
    requires GoodEntry(e)
    ensures ParseLine(Line(e.digest, e.name.text)) == Good(e)
  {
    ParseLineExact(Line(e.digest, e.name.text), e);
  }

  lemma {:induction false} TextParses(es: seq<Entry>, done: seq<Entry>)
    requires (forall i :: 0 <= i < |es| ==> GoodEntry(es[i])) && Distinct(NamesOf(done) + NamesOf(es))
    ensures ParseLines(SplitLines(TextOf(es)), done) == Good(done + es)
    decreases |es|
  {
    hide ParseLine, Line, Clean, IsDigest, Distinct, SafeName;
    if es == [] {
      assert done + es == done;
    } else {
      var e := es[0];
      var rest := SplitLines(TextOf(es[1..]));
      LineSplits(e.digest, e.name.text, TextOf(es[1..]));
      GoodEntryParses(e);
      DistinctSplit(NamesOf(done), NamesOf(es));
      assert NamesOf(done + [e]) + NamesOf(es[1..]) == NamesOf(done) + NamesOf(es);
      TextParses(es[1..], done + [e]);
      assert done + [e] + es[1..] == done + es;
      assert ([Line(e.digest, e.name.text)] + rest)[1..] == rest;
    }
  }

  lemma {:induction false} RenderIsText(names: seq<Name>, files: map<Name, string>)
    requires forall i :: 0 <= i < |names| ==> names[i] in files
    ensures Render(names, files) == TextOf(Entries(names, files))
  {
    hide Line;
    if names != [] {
      RenderIsText(names[1..], files);
      assert Entries(names, files)[1..] == Entries(names[1..], files);
    }
  }

  lemma CleanIsSafe(s: string)
    requires Clean(s) && s != "" && GoodParts(s)
    ensures SafeName(s)
  {
  }

  lemma AscendingDistinct(names: seq<Name>)
    requires Ascending(names)
    ensures Distinct(names)
  {
  }

  /** With clean names, reading the rendered text gives back every name with its digest. */
  lemma RenderReads(names: seq<Name>, files: map<Name, string>)
    requires Ascending(names) && names != []
    requires forall i :: 0 <= i < |names| ==> names[i] in files && IsDigest(files[names[i]])
    requires forall i :: 0 <= i < |names| ==> names[i].text != "" && GoodParts(names[i].text)
    requires AllClean(names) && IsAscii(Render(names, files)) && |Render(names, files)| <= MAX_MANIFEST_BYTES
    ensures ReadManifest(Render(names, files)) == Good(Entries(names, files))
  {
    hide Ascending, GoodEntry, ReadManifest, GoodParts, Render, IsDigest, Clean, IsAscii;
    var es := Entries(names, files);
    RenderIsText(names, files);
    assert NamesOf(es) == names;
    forall i | 0 <= i < |es| ensures GoodEntry(es[i]) {
      EntryGood(names[i], files[names[i]]);
    }
    ManifestReads(Render(names, files), es);
  }

  lemma EntryGood(n: Name, d: string)
    requires IsDigest(d) && n.text != "" && GoodParts(n.text) && Clean(n.text)
    ensures GoodEntry(Entry(n, d))
  {
    hide IsDigest, GoodParts;
    CleanIsSafe(n.text);
  }

  // ---------------------------------------------------------------- what reading guarantees

  lemma {:induction false} FirstLineInside(s: string, i: nat)
    requires i + 1 < FirstLine(s)
    ensures IsBreak(s[i]) ==> s[i] == '\r' && s[i + 1] == '\n' && i + 2 == FirstLine(s)
    decreases |s|
  {
    if !(s[0] == '\r' && |s| > 1 && s[1] == '\n') && !IsBreak(s[0]) && i > 0 {
      FirstLineInside(s[1..], i - 1);
    }
  }

  lemma {:induction false} SplitLinesClean(s: string, line: string)
    requires line in SplitLines(s)
    ensures forall i :: 0 <= i < |line| - 1 ==> IsBreak(line[i]) ==> line[i] == '\r'
    decreases |s|
  {
    var n := FirstLine(s);
    if line == s[..n] {
      forall i | 0 <= i < |line| - 1 ensures IsBreak(line[i]) ==> line[i] == '\r' {
        FirstLineInside(s, i);
      }
    } else {
      assert SplitLines(s) == [s[..n]] + SplitLines(s[n..]);
      SplitLinesClean(s[n..], line);
    }
  }

  lemma ParsedNameClean(line: string)
    requires ParseLine(line).Good?
    requires forall i :: 0 <= i < |line| - 1 ==> IsBreak(line[i]) ==> line[i] == '\r'
    ensures Clean(ParseLine(line).value.name.text)
  {
    var name := line[66..|line| - 1];
    forall i | 0 <= i < |name| ensures !IsBreak(name[i]) && name[i] != '\\' {
      assert name[i] == line[66 + i] && name[i] in name;
    }
  }

  lemma {:induction false} ParsedAllClean(lines: seq<string>, done: seq<Entry>)
    requires ParseLines(lines, done).Good? && AllClean(NamesOf(done))
    requires forall k :: 0 <= k < |lines| ==>
      forall i :: 0 <= i < |lines[k]| - 1 ==> IsBreak(lines[k][i]) ==> lines[k][i] == '\r'
    ensures AllClean(NamesOf(ParseLines(lines, done).value))
    decreases |lines|
  {
    if lines != [] {
      var e := ParseLine(lines[0]).value;
      ParsedNameClean(lines[0]);
      hide ParseLine, Clean;
      assert NamesOf(done + [e]) == NamesOf(done) + [e.name];
      ParsedAllClean(lines[1..], done + [e]);
    }
  }

  /** Whatever is read back has clean names. */
  lemma ReadNamesClean(text: string)
    requires ReadManifest(text).Good?
    ensures AllClean(NamesOf(ReadManifest(text).value))
  {
    var lines := SplitLines(text);
    forall k | 0 <= k < |lines|
      ensures forall i :: 0 <= i < |lines[k]| - 1 ==> IsBreak(lines[k][i]) ==> lines[k][i] == '\r'
    {
      SplitLinesClean(text, lines[k]);
    }
    hide SplitLines, Clean, IsBreak;
    ParsedAllClean(lines, []);
  }

  function Flat(lines: seq<string>): string {
    if lines == [] then "" else lines[0] + Flat(lines[1..])
  }

  lemma {:induction false} SplitLinesFlat(s: string)
    ensures Flat(SplitLines(s)) == s
    decreases |s|
  {
    if s != [] {
      var n := FirstLine(s);
      SplitLinesFlat(s[n..]);
      assert s == s[..n] + s[n..];
    }
  }

  /** What an accepted run over the lines has seen. */
  lemma {:induction false} ParsedLines(lines: seq<string>, done: seq<Entry>)
    requires ParseLines(lines, done).Good?
    ensures var es := ParseLines(lines, done).value;
      && |es| == |done| + |lines| && es[..|done|] == done && TextOf(es[|done|..]) == Flat(lines)
      && forall k :: |done| <= k < |es| ==> IsDigest(es[k].digest) && SafeName(es[k].name.text)
    decreases |lines|
  {
    hide SafeName, IsDigest, ParseLine;
    if lines != [] {
      var e := ParseLine(lines[0]).value;
      ParseLineExact(lines[0], e);
      ParsedLines(lines[1..], done + [e]);
      var es := ParseLines(lines, done).value;
      assert es[..|done|] == es[..|done| + 1][..|done|] == done;
      assert es[|done|] == es[..|done| + 1][|done|] == e;
      assert es[|done|..][1..] == es[|done| + 1..];
    }
  }

  /** The text is the lines of these entries, in strictly ascending order of safe and clean names. */
  ghost predicate Manifests(text: string, es: seq<Entry>) {
    && es != [] && text == TextOf(es) && (forall i :: 0 <= i < |es| ==> GoodEntry(es[i]))
    && Ascending(NamesOf(es)) && IsAscii(text) && |text| <= MAX_MANIFEST_BYTES
  }

  /**
   * Reading accepts exactly the manifests: an unsafe, repeated or unsorted name,
   * a wrong digest or any other byte is refused.
   */
  lemma ReadManifestExact(text: string, es: seq<Entry>)
    ensures ReadManifest(text) == Good(es) <==> Manifests(text, es)
  {
    if ReadManifest(text) == Good(es) {
      ReadNamesClean(text);
      ReadIsText(text, es);
    }
    if Manifests(text, es) {
      ManifestReads(text, es);
    }
  }

  lemma ReadIsText(text: string, es: seq<Entry>)
    requires ReadManifest(text) == Good(es) && AllClean(NamesOf(es))
    ensures Manifests(text, es)
  {
    hide SafeName, IsDigest, Clean, IsAscii, Ascending, SplitLines, ParseLines, TextOf, Flat;
    ParsedLines(SplitLines(text), []);
    SplitLinesFlat(text);
    assert es[0..] == es;
    assert es != [] by {
      if es == [] {
        EmptyText();
      }
    }
    forall i | 0 <= i < |es| ensures GoodEntry(es[i]) {
      assert NamesOf(es)[i] == es[i].name;
    }
  }

  lemma EmptyText()
    ensures TextOf([]) == ""
  {
  }

  lemma ManifestReads(text: string, es: seq<Entry>)
    requires Manifests(text, es)
    ensures ReadManifest(text) == Good(es)
  {
    hide GoodEntry, IsAscii, Less, SplitLines, ParseLines, TextOf, Distinct;
    AscendingDistinct(NamesOf(es));
    assert NamesOf([]) + NamesOf(es) == NamesOf(es);
    TextParses(es, []);
    TextEnds(es);
    assert [] + es == es;
  }

  lemma {:induction false} TextEnds(es: seq<Entry>)
    requires es != []
    ensures TextOf(es) != "" && TextOf(es)[|TextOf(es)| - 1] == '\n'
  {
    if |es| > 1 {
      TextEnds(es[1..]);
    }
  }

  // ---------------------------------------------------------------- the two loops

  lemma SortedTest(names: seq<Name>)
    ensures Sorted(names) == names <==> Ascending(names)
  {
    SortedAscending(names);
    if Ascending(names) {
      AscendingUnique(Sorted(names), names);
    }
  }

  /** `_read_manifest`: one pass over the lines, then the order of the names. */
  method ReadLines(text: string) returns (r: Parsed<seq<Entry>>)
    ensures r == ReadManifest(text)
    ensures forall es :: r == Good(es) <==> Manifests(text, es)
  {
    forall es ensures ReadManifest(text) == Good(es) <==> Manifests(text, es) {
      ReadManifestExact(text, es);
    }
    hide Manifests;
    if |text| > MAX_MANIFEST_BYTES || !IsAscii(text) || text == "" || text[|text| - 1] != '\n' {
      return Bad;
    }
    var lines := SplitLines(text);
    var entries: seq<Entry> := [];
    var k := 0;
    assert lines[0..] == lines;
    while k < |lines|
      invariant 0 <= k <= |lines|
      invariant ParseLines(lines[k..], entries) == ParseLines(lines, [])
    {
      assert lines[k..][0] == lines[k] && lines[k..][1..] == lines[k + 1..];
      var parsed := ParseLine(lines[k]);
      if parsed.Bad? || !SafeName(parsed.value.name.text) || parsed.value.name in NamesOf(entries) {
        assert ParseLines(lines, []).Bad?;
        return Bad;
      }
      entries := entries + [parsed.value];
      k := k + 1;
    }
    SortedTest(NamesOf(entries));
    r := if Sorted(NamesOf(entries)) == NamesOf(entries) then Good(entries) else Bad;
  }

  datatype Kind = Regular(digest: string) | Directory | Other
  datatype Found = Found(name: Name, kind: Kind)

  /** No unsafe entry, and no regular file listed twice. */
  ghost predicate Listable(listing: seq<Found>) {
    && (forall i :: 0 <= i < |listing| ==> !listing[i].kind.Other?)
    && (forall i, j :: 0 <= i < j < |listing| && listing[i].kind.Regular? && listing[j].kind.Regular? ==>
         listing[i].name != listing[j].name)
  }

  /** The tree holds exactly the listed files with their digests, and exactly the listed directories. */
  ghost predicate Lists(listing: seq<Found>, t: Tree) {
    && (forall i :: 0 <= i < |listing| && listing[i].kind.Regular? ==>
         listing[i].name in t.files && t.files[listing[i].name] == listing[i].kind.digest)
    && (forall n :: n in t.files ==> exists i :: 0 <= i < |listing| && listing[i].name == n && listing[i].kind.Regular?)
    && (forall n :: n in t.directories <==> exists i :: 0 <= i < |listing| && listing[i] == Found(n, Directory))
  }

  /** `_safe_tree_files`: refuses exactly unsafe or repeated entries and directories without a file. */
  method SafeTreeFiles(listing: seq<Found>) returns (r: Parsed<Tree>)
    ensures r.Good? ==> Listable(listing) && Lists(listing, r.value) && NoEmptyDirectory(r.value)
    ensures r.Bad? ==> !Listable(listing) || exists t :: Lists(listing, t) && !NoEmptyDirectory(t)
  {
    var t := Tree(map[], {});
    var k := 0;
    while k < |listing|
      invariant 0 <= k <= |listing|
      invariant Listable(listing[..k]) && Lists(listing[..k], t)
    {
      var f := listing[k];
      var before := listing[..k];
      assert listing[..k + 1] == before + [f];
      if f.kind.Other? || (f.kind.Regular? && f.name in t.files) {
        RefusesEntry(listing, k, t);
        return Bad;
      }
      ListsOneMore(before, f, t);
      t := if f.kind.Regular? then t.(files := t.files[f.name := f.kind.digest])
           else t.(directories := t.directories + {f.name});
      k := k + 1;
    }
    assert listing[..k] == listing;
    var implied := set n, d | n in t.files && d in Ancestors(n.text) :: d;
    assert forall d :: d in implied <==> Implied(t, d);
    r := if t.directories <= implied then Good(t) else Bad;
  }

  lemma RefusesEntry(listing: seq<Found>, k: nat, t: Tree)
    requires k < |listing| && Lists(listing[..k], t)
    requires listing[k].kind.Other? || (listing[k].kind.Regular? && listing[k].name in t.files)
    ensures !Listable(listing)
  {
    if !listing[k].kind.Other? {
      var i :| 0 <= i < k && listing[..k][i].name == listing[k].name && listing[..k][i].kind.Regular?;
      assert listing[i] == listing[..k][i];
    }
  }

  lemma ListsOneMore(before: seq<Found>, f: Found, t: Tree)
    requires Listable(before) && Lists(before, t)
    requires !f.kind.Other? && (f.kind.Regular? ==> f.name !in t.files)
    ensures Listable(before + [f])
    ensures Lists(before + [f],
                  if f.kind.Regular? then t.(files := t.files[f.name := f.kind.digest])
                  else t.(directories := t.directories + {f.name}))
  {
    var after := before + [f];
    assert forall i :: 0 <= i < |before| ==> after[i] == before[i];
    assert after[|before|] == f;
    assert Listable(after);
    var u := if f.kind.Regular? then t.(files := t.files[f.name := f.kind.digest])
             else t.(directories := t.directories + {f.name});
    forall n | n in u.files ensures exists i :: 0 <= i < |after| && after[i].name == n && after[i].kind.Regular? {
      if n in t.files {
        var i :| 0 <= i < |before| && before[i].name == n && before[i].kind.Regular?;
        assert after[i].name == n && after[i].kind.Regular?;
      }
    }
    forall n | n in u.directories ensures exists i :: 0 <= i < |after| && after[i] == Found(n, Directory) {
      if n in t.directories {
        var i :| 0 <= i < |before| && before[i] == Found(n, Directory);
        assert after[i] == Found(n, Directory);
      }
    }
  }

  // ---------------------------------------------------------------- the two theorems

  /** The tree after its manifest has been written into it. */
  ghost function WithManifest(t: Tree, manifest: Name, digest: string): Tree {
    t.(files := t.files[manifest := digest])
  }

  /**
   * A written manifest verifies exactly when it is within the size limit and
   * every file name is free of backslashes and line breaks.
   */
  lemma WriteThenVerify(t: Tree, listing: seq<Name>, manifest: Name, digest: string)
    requires Walked(t) && Elements(listing) == t.files.Keys && manifest !in t.files
    requires WriteManifest(t, listing).Payload?
    ensures Verifies(WithManifest(t, manifest, digest), manifest, WriteManifest(t, listing).text) <==>
      && (forall n :: n in t.files ==> Clean(n.text))
      && |WriteManifest(t, listing).text| <= MAX_MANIFEST_BYTES
  {
    var names, text := Sorted(listing), WriteManifest(t, listing).text;
    var after := WithManifest(t, manifest, digest);
    SortedAscending(listing);
    assert forall n :: n in names <==> n in Elements(names);
    assert after.files - {manifest} == t.files;
    assert NoEmptyDirectory(after) by {
      forall d | d in after.directories ensures Implied(after, d) {
        assert Implied(t, d);
        var n :| n in t.files && d in Ancestors(n.text);
        assert n in after.files;
      }
    }
    hide Clean, GoodParts, Ancestors, IsDigest, Sorted;
    if (forall n :: n in t.files ==> Clean(n.text)) && |text| <= MAX_MANIFEST_BYTES {
      assert names != [];
      assert AllClean(names);
      RenderReads(names, t.files);
      MatchesEntries(names, t.files);
    }
    if Verifies(after, manifest, text) {
      ReadNamesClean(text);
      var es := ReadManifest(text).value;
      forall n | n in t.files ensures Clean(n.text) {
        assert n in NamesOf(es);
        var i :| 0 <= i < |NamesOf(es)| && NamesOf(es)[i] == n;
      }
    }
  }

  lemma MatchesEntries(names: seq<Name>, files: map<Name, string>)
    requires forall n :: n in names <==> n in files
    ensures Matches(Entries(names, files), files)
  {
    assert NamesOf(Entries(names, files)) == names;
  }

  /** Two walked trees accepted against the same bytes hold the same files, digests and directories. */
  lemma VerifiedTreesAgree(a: Tree, b: Tree, manifest: Name, text: string)
    requires Walked(a) && Walked(b) && Verifies(a, manifest, text) && Verifies(b, manifest, text)
    requires manifest in a.files && manifest in b.files
    ensures a.files - {manifest} == b.files - {manifest}
    ensures a.files.Keys == b.files.Keys && a.directories == b.directories
  {
    var es := ReadManifest(text).value;
    var x, y := a.files - {manifest}, b.files - {manifest};
    hide ReadManifest, IsDigest, GoodParts, Ancestors;
    forall n ensures n in x <==> n in y {
      assert n in NamesOf(es) <==> n in x;
    }
    forall n | n in x ensures x[n] == y[n] {
      assert n in NamesOf(es);
      var i :| 0 <= i < |NamesOf(es)| && NamesOf(es)[i] == n;
      assert es[i].name == n;
    }
    forall n ensures n in a.files <==> n in b.files {
      assert n != manifest ==> (n in a.files <==> n in x) && (n in b.files <==> n in y);
    }
    forall d ensures d in a.directories <==> d in b.directories {
      assert Implied(a, d) <==> Implied(b, d);
    }
  }
}
