/**
  Zero-context git diffs and their two readers: changedLines
  (internal/gitchange/gitchange.go), which keeps each file's new-side line ranges, and
  parseDiff (internal/semantic/gitdiff.go), which keeps every hunk.

  A diff is an abstract value here, with the text git prints for it; the readers run on
  the text, line by line, and are proved against the value.
 */
module GitDiff {
  import opened Options
  import opened Text
  import opened Quoting

  // ---- Diffs ----

  /** One side of a hunk header; git leaves out a count of one. */
  datatype Side = Side(start: nat, count: nat, brief: bool) {
    predicate Valid() {
      (brief ==> count == 1) && start + count <= MAX_INT
    }

    function Print(): string {
      Itoa(start) + if brief then "" else "," + Itoa(count)
    }
  }

  /** A hunk: its header's two sides and what follows the second @@, then its lines. */
  datatype HunkText = HunkText(before: Side, after: Side, section: string, body: seq<string>) {
    predicate Valid() {
      && before.Valid() && after.Valid() && OneLine(section)
      && forall i :: 0 <= i < |body| ==> |body[i]| > 0 && body[i][0] in {'+', '-', '\\'}
    }

    function Header(): string {
      "@@ -" + before.Print() + " +" + after.Print() + " @@" + section
    }

    function Lines(): seq<string> {
      [Header()] + body
    }
  }

  function HunkLines(hunks: seq<HunkText>): seq<string> {
    if hunks == [] then [] else hunks[0].Lines() + HunkLines(hunks[1..])
  }

  /** A file of a diff.  `git` follows "diff --git ", `meta` are the extended header lines;
      a file without text (binary, empty or mode-only) has no more, one with text has its
      two names as printed and its hunks. */
  datatype FileText =
    | Bare(git: string, meta: seq<string>)
    | Hunked(git: string, meta: seq<string>, oldName: string, newName: string, hunks: seq<HunkText>)
  {
    predicate Valid() {
      && (forall i :: 0 <= i < |meta| ==> IsMeta(meta[i]))
      && (Hunked? ==>
            && (forall i :: 0 <= i < |meta| ==> !("Binary files " <= meta[i]))
            && (forall i :: 0 <= i < |hunks| ==> hunks[i].Valid())
            && (HeaderName(newName) == "/dev/null" || ("b/" <= HeaderName(newName) && HeaderName(newName) != "b/"))
            && (HeaderName(oldName) == "/dev/null" || ("a/" <= HeaderName(oldName) && HeaderName(oldName) != "a/"))
            && (HeaderName(newName) != "/dev/null" || HeaderName(oldName) != "/dev/null"))
    }

    function Lines(): seq<string> {
      ["diff --git " + git] + meta
      + if Bare? then [] else ["--- " + oldName, "+++ " + newName] + HunkLines(hunks)
    }

    /** The file's path in the new tree, if it survives with text. */
    function NewPath(): Option<string> {
      if Hunked? && HeaderName(newName) != "/dev/null" then Some(TrimPrefix(HeaderName(newName), "b/")) else None
    }

    function Path(): string {
      if Bare? then ""
      else if NewPath().Some? then NewPath().value
      else TrimPrefix(HeaderName(oldName), "a/")
    }
  }

  /** An extended header line: not one the readers take for something else. */
  predicate IsMeta(line: string) {
    !("diff --git " <= line) && !("--- " <= line) && !("+++ " <= line) && !("@@ " <= line)
  }

  function DiffLines(files: seq<FileText>): seq<string> {
    if files == [] then [] else files[0].Lines() + DiffLines(files[1..])
  }

  ghost predicate ValidDiff(files: seq<FileText>) {
    forall i :: 0 <= i < |files| ==> files[i].Valid()
  }

  // ---- The parts the readers share ----

  /** HeaderName: a path from a header line, without git's trailing tab or its quotes. */
  function HeaderName(name: string): string {
    var trimmed := TrimSuffix(name, "\t");
    if Unquote(trimmed).Some? then Unquote(trimmed).value else trimmed
  }

  datatype Range = Range(start: int, end: int)

  /** hunkRange: a header's "+start,count" side. */
  function HunkRange(field: string): Option<(int, int)> {
    if !("+" <= field) then None
    else
      match Cut(field[1..], ",")
      case None =>
        (match Atoi(field[1..]) case Some(start) => Some((start, 1)) case None => None)
      case Some((start, count)) =>
        match (Atoi(start), Atoi(count))
        case (Some(s), Some(c)) => Some((s, c))
        case _ => None
  }

  /** parseRange: either side, without its sign. */
  function ParseRange(value: string): Option<(int, int)> {
    match Cut(value, ",")
    case None =>
      (match Atoi(value) case Some(first) => Some((first, 1)) case None => None)
    case Some((start, count)) =>
      match (Atoi(start), Atoi(count))
      case (Some(first), Some(lines)) => Some((first, lines))
      case _ => None
  }

  lemma RangeParses(side: Side)
    requires side.Valid()
    ensures ParseRange(side.Print()) == Some((side.start as int, side.count as int))
  {
    AtoiItoa(side.start);
    AtoiItoa(side.count);
    if side.brief {
      assert side.Print() == Itoa(side.start);
      CutMisses(Itoa(side.start), ",");
    } else {
      assert side.Print() == Itoa(side.start) + "," + Itoa(side.count);
      CutAtNewCharacter(Itoa(side.start), ",", Itoa(side.count));
    }
  }

  lemma RangesAgree(side: Side)
    requires side.Valid()
    ensures HunkRange("+" + side.Print()) == Some((side.start as int, side.count as int))
  {
    RangeParses(side);
    assert ("+" + side.Print())[1..] == side.Print();
  }

  lemma PrintIsPlain(side: Side)
    ensures |side.Print()| > 0
    ensures forall i :: 0 <= i < |side.Print()| ==> IsDigit(side.Print()[i]) || side.Print()[i] == ','
    ensures Spaceless(side.Print())
  {
  }

  // ---- changedLines ----

  datatype Reader = Reader(path: string, header: bool, lines: map<string, seq<Range>>)

  function ReadLine(r: Reader, line: string): Reader {
    if "diff --git " <= line then Reader("", true, r.lines)
    else if "+++ " <= line && r.header then
      match CutPrefix(HeaderName(line[4..]), "b/")
      case Some(name) => Reader(name, false, r.lines[name := []])
      case None => Reader("", false, r.lines)
    else if !("@@ " <= line) || r.header || r.path == "" then r
    else
      var fields := Fields(line[3..]);
      if |fields| < 2 then r
      else
        match HunkRange(fields[1])
        case Some((start, count)) =>
          if count > 0
          then r.(lines := r.lines[r.path := Ranges(r, r.path) + [Range(start, start + count - 1)]])
          else r
        case None => r
  }

  function Ranges(r: Reader, path: string): seq<Range> {
    if path in r.lines then r.lines[path] else []
  }

  function ReadLines(r: Reader, lines: seq<string>): Reader
    decreases |lines|
  {
    if lines == [] then r else ReadLine(ReadLines(r, lines[..|lines| - 1]), lines[|lines| - 1])
  }

  function ReadAll(diff: string): map<string, seq<Range>> {
    ReadLines(Reader("", false, map[]), Split(diff)).lines
  }

  lemma {:induction false} ReadAppend(r: Reader, a: seq<string>, b: seq<string>)
    ensures ReadLines(r, a + b) == ReadLines(ReadLines(r, a), b)
    decreases |b|
  {
    if b == [] {
      assert a + b == a;
    } else {
      assert (a + b)[..|a + b| - 1] == a + b[..|b| - 1];
      ReadAppend(r, a, b[..|b| - 1]);
    }
  }

  /** The source's loop over the split text. */
  method ChangedLines(diff: string) returns (lines: map<string, seq<Range>>)
    ensures lines == ReadAll(diff)
  {
    var pieces := Split(diff);
    var r := Reader("", false, map[]);
    for i := 0 to |pieces|
      invariant r == ReadLines(Reader("", false, map[]), pieces[..i])
    {
      assert pieces[..i + 1][..i] == pieces[..i];
      r := ReadLine(r, pieces[i]);
    }
    assert pieces[..|pieces|] == pieces;
    lines := r.lines;
  }

  /** The new-side ranges of the hunks that add lines, in order. */
  function NewRanges(hunks: seq<HunkText>): seq<Range> {
    if hunks == [] then []
    else
      (if hunks[0].after.count > 0
       then [Range(hunks[0].after.start, hunks[0].after.start + hunks[0].after.count - 1)] else [])
      + NewRanges(hunks[1..])
  }

  /** A surviving file with text maps its path to its ranges. */
  function WithFile(f: FileText, lines: map<string, seq<Range>>): map<string, seq<Range>> {
    if f.NewPath().Some? then lines[f.NewPath().value := NewRanges(f.hunks)] else lines
  }

  /** What a diff's files map to, a later file of the same path replacing an earlier one. */
  function Changed(files: seq<FileText>, lines: map<string, seq<Range>>): map<string, seq<Range>>
    decreases |files|
  {
    if files == [] then lines else Changed(files[1..], WithFile(files[0], lines))
  }

  lemma HeaderFields(hunk: HunkText)
    requires hunk.Valid()
    ensures "@@ " <= hunk.Header()
    ensures |Fields(hunk.Header()[3..])| >= 2 && Fields(hunk.Header()[3..])[1] == "+" + hunk.after.Print()
  {
    PrintIsPlain(hunk.before);
    PrintIsPlain(hunk.after);
    hide Fields;
    var first, second, rest := "-" + hunk.before.Print(), "+" + hunk.after.Print(), " @@" + hunk.section;
    var line := hunk.Header();
    assert line == "@@ " + (first + (" " + (second + rest)));
    assert line[3..] == first + (" " + (second + rest));
    FieldsWord(first, " " + (second + rest));
    FieldsAfterSpace(second + rest);
    FieldsWord(second, rest);
  }

  lemma {:induction false} BodyIsSkipped(r: Reader, body: seq<string>)
    requires !r.header
    requires forall i :: 0 <= i < |body| ==> |body[i]| > 0 && body[i][0] in {'+', '-', '\\'}
    ensures ReadLines(r, body) == r
    decreases |body|
  {
    if body != [] {
      BodyIsSkipped(r, body[..|body| - 1]);
    }
  }

  /** The reader with more ranges for the file it is in. */
  function Extended(r: Reader, ranges: seq<Range>): Reader {
    r.(lines := r.lines[r.path := Ranges(r, r.path) + ranges])
  }

  predicate InFile(r: Reader) {
    !r.header && r.path != "" && r.path in r.lines
  }

  lemma ExtendedTwice(r: Reader, first: seq<Range>, second: seq<Range>)
    requires InFile(r)
    ensures InFile(Extended(r, first)) && Extended(Extended(r, first), second) == Extended(r, first + second)
    ensures Extended(r, []) == r
  {
    assert r.lines[r.path] + first + second == r.lines[r.path] + (first + second);
    assert r.lines[r.path] + [] == r.lines[r.path];
    assert r.lines[r.path := r.lines[r.path]] == r.lines;
  }

  lemma NewRangesHead(hunks: seq<HunkText>)
    requires hunks != []
    ensures NewRanges(hunks) == NewRanges([hunks[0]]) + NewRanges(hunks[1..])
  {
    assert [hunks[0]][1..] == [];
    assert NewRanges([]) == [];
  }

  /** A line that names a range in its second field adds it to the current file. */
  lemma RangeIsRead(r: Reader, line: string, start: int, count: int)
    requires InFile(r)
    requires "@@ " <= line && |Fields(line[3..])| >= 2 && HunkRange(Fields(line[3..])[1]) == Some((start, count))
    ensures ReadLine(r, line) == Extended(r, if count > 0 then [Range(start, start + count - 1)] else [])
  {
    hide Fields;
    hide HunkRange;
    hide HeaderName;
    assert line[0] == '@' && !("diff --git " <= line) && !("+++ " <= line);
    ExtendedTwice(r, [], []);
  }

  lemma HunkIsRead(r: Reader, hunk: HunkText)
    requires InFile(r) && hunk.Valid()
    ensures ReadLines(r, hunk.Lines()) == Extended(r, NewRanges([hunk]))
  {
    hide Fields;
    hide HunkRange;
    hide ReadLine;
    HeaderFields(hunk);
    RangesAgree(hunk.after);
    var line := hunk.Header();
    RangeIsRead(r, line, hunk.after.start, hunk.after.count);
    var mid := ReadLine(r, line);
    ReadAppend(r, [line], hunk.body);
    assert [line][..0] == [];
    assert ReadLines(r, [line]) == mid;
    assert hunk.Lines() == [line] + hunk.body;
    var range: seq<Range> := if hunk.after.count > 0 then [Range(hunk.after.start, hunk.after.start + hunk.after.count - 1)] else [];
    assert [hunk][1..] == [] && NewRanges([hunk]) == range + NewRanges([]) == range;
    BodyIsSkipped(mid, hunk.body);
  }

  lemma {:induction false} HunksAreRead(r: Reader, hunks: seq<HunkText>)
    requires InFile(r)
    requires forall i :: 0 <= i < |hunks| ==> hunks[i].Valid()
    ensures ReadLines(r, HunkLines(hunks)) == Extended(r, NewRanges(hunks))
    decreases |hunks|
  {
    hide ReadLine;
    hide HunkText.Valid;
    hide HunkText.Lines;
    hide Extended;
    ExtendedTwice(r, [], []);
    if hunks != [] {
      var hunk, rest := hunks[0], hunks[1..];
      HunkIsRead(r, hunk);
      var mid := ReadLines(r, hunk.Lines());
      ReadAppend(r, hunk.Lines(), HunkLines(rest));
      ExtendedTwice(r, NewRanges([hunk]), NewRanges(rest));
      HunksAreRead(mid, rest);
      NewRangesHead(hunks);
    }
  }

  lemma {:induction false} MetaIsSkipped(r: Reader, meta: seq<string>)
    requires forall i :: 0 <= i < |meta| ==> IsMeta(meta[i])
    ensures ReadLines(r, meta) == r
    decreases |meta|
  {
    if meta != [] {
      MetaIsSkipped(r, meta[..|meta| - 1]);
    }
  }

  lemma ReadTwo(r: Reader, first: string, second: string)
    ensures ReadLines(r, [first, second]) == ReadLine(ReadLine(r, first), second)
  {
    hide ReadLine;
    assert [first, second] == [first] + [second];
    ReadAppend(r, [first], [second]);
    assert [first][..0] == [] && [second][..0] == [];
  }

  lemma HeadersAreRead(r: Reader, f: FileText)
    requires f.Valid() && f.Hunked? && r.header && r.path == ""
    ensures ReadLines(r, ["--- " + f.oldName, "+++ " + f.newName])
         == match f.NewPath()
            case Some(path) => Reader(path, false, r.lines[path := []])
            case None => Reader("", false, r.lines)
  {
    var first, second := "--- " + f.oldName, "+++ " + f.newName;
    ReadTwo(r, first, second);
    assert first[0] == '-' && second[0] == '+' && second[4..] == f.newName;
    assert ReadLine(r, first) == r;
    var name := HeaderName(f.newName);
    if f.NewPath().None? {
      assert name == "/dev/null" && name[0] != 'b';
    }
  }

  /** A deleted file's hunks belong to no path, and are skipped. */
  lemma {:induction false} PathlessIsSkipped(r: Reader, lines: seq<string>)
    requires !r.header && r.path == ""
    requires forall i :: 0 <= i < |lines| ==> |lines[i]| > 0 && lines[i][0] in {'@', '+', '-', '\\'}
    ensures ReadLines(r, lines) == r
    decreases |lines|
  {
    if lines != [] {
      PathlessIsSkipped(r, lines[..|lines| - 1]);
    }
  }

  lemma {:induction false} HunkLinesStart(hunks: seq<HunkText>)
    requires forall i :: 0 <= i < |hunks| ==> hunks[i].Valid()
    ensures forall i :: 0 <= i < |HunkLines(hunks)| ==>
      |HunkLines(hunks)[i]| > 0 && HunkLines(hunks)[i][0] in {'@', '+', '-', '\\'}
  {
    if hunks != [] {
      HunkLinesStart(hunks[1..]);
    }
  }

  lemma GitLineIsRead(r: Reader, line: string)
    requires "diff --git " <= line
    ensures ReadLines(r, [line]) == Reader("", true, r.lines)
  {
    assert [line][..0] == [];
  }

  lemma PreludeIsRead(r: Reader, f: FileText)
    requires f.Valid()
    ensures ReadLines(r, ["diff --git " + f.git] + f.meta) == Reader("", true, r.lines)
  {
    var first := "diff --git " + f.git;
    GitLineIsRead(r, first);
    ReadAppend(r, [first], f.meta);
    MetaIsSkipped(Reader("", true, r.lines), f.meta);
  }

  lemma TextIsRead(r: Reader, f: FileText)
    requires f.Valid() && f.Hunked? && r.header && r.path == ""
    ensures ReadLines(r, ["--- " + f.oldName, "+++ " + f.newName] + HunkLines(f.hunks)).lines == WithFile(f, r.lines)
  {
    hide ReadLine;
    var heads, hunks := ["--- " + f.oldName, "+++ " + f.newName], HunkLines(f.hunks);
    ReadAppend(r, heads, hunks);
    HeadersAreRead(r, f);
    var mid := ReadLines(r, heads);
    if f.NewPath().Some? {
      HunksAreRead(mid, f.hunks);
      assert [] + NewRanges(f.hunks) == NewRanges(f.hunks);
    } else {
      HunkLinesStart(f.hunks);
      PathlessIsSkipped(mid, hunks);
    }
  }

  lemma FileIsRead(r: Reader, f: FileText)
    requires f.Valid()
    ensures ReadLines(r, f.Lines()).lines == WithFile(f, r.lines)
  {
    hide ReadLine;
    hide HeaderName;
    var first, start := ["diff --git " + f.git] + f.meta, Reader("", true, r.lines);
    PreludeIsRead(r, f);
    if f.Hunked? {
      var text := ["--- " + f.oldName, "+++ " + f.newName] + HunkLines(f.hunks);
      ReadAppend(r, first, text);
      TextIsRead(start, f);
      assert f.Lines() == first + text;
    } else {
      assert f.Lines() == first;
    }
  }

  lemma {:induction false} DiffIsRead(r: Reader, files: seq<FileText>)
    requires ValidDiff(files)
    ensures ReadLines(r, DiffLines(files)).lines == Changed(files, r.lines)
    decreases |files|
  {
    hide ReadLine;
    hide FileText.Lines;
    hide FileText.Valid;
    hide WithFile;
    if files != [] {
      var mid := ReadLines(r, files[0].Lines());
      ReadAppend(r, files[0].Lines(), DiffLines(files[1..]));
      FileIsRead(r, files[0]);
      DiffIsRead(mid, files[1..]);
    }
  }

  /** A diff's text: its lines, each ended. */
  function Print(files: seq<FileText>): string {
    Unlines(DiffLines(files))
  }

  /** changedLines, on the text of any zero-context diff: one entry for each surviving file
      with text, holding its hunks' added ranges in order, whatever the hunk bodies, the
      section headings and the file names contain. */
  lemma ChangedLinesReadsDiffs(files: seq<FileText>)
    requires ValidDiff(files) && OneLiners(DiffLines(files))
    ensures ReadAll(Print(files)) == Changed(files, map[])
  {
    hide ReadLine;
    var r := Reader("", false, map[]);
    SplitUnlines(DiffLines(files));
    ReadAppend(r, DiffLines(files), [""]);
    EmptyIsSkipped(ReadLines(r, DiffLines(files)));
    DiffIsRead(r, files);
  }

  lemma EmptyIsSkipped(r: Reader)
    ensures ReadLines(r, [""]) == r
  {
    assert [""][..0] == [];
  }
}
