/**
  parseDiff (internal/semantic/gitdiff.go), which keeps every hunk of a zero-context diff,
  and its agreement with changedLines, which keeps only the new-side ranges.  The scanner's
  mutable state is a value, a line takes it to the next, and the end flushes the last file.
 */
module DiffParser {
  import opened Options
  import opened Text
  import opened GitDiff

  datatype Status = Added | Modified | Deleted

  datatype Hunk = Hunk(oldStart: int, oldLines: int, newStart: int, newLines: int, header: string, diff: string,
                       added: seq<string>)

  datatype FileChange = FileChange(path: string, status: Status, hunks: seq<Hunk>, added: nat, removed: nat)

  /** parseHunkHeader. */
  function ParseHeader(line: string): Option<Hunk> {
    match Cut(TrimPrefix(line, "@@ "), " @@")
    case None => None
    case Some((ranges, header)) =>
      match Cut(ranges, " +")
      case None => None
      case Some((prior, updated)) =>
        if !("-" <= prior) then None
        else
          match (ParseRange(prior[1..]), ParseRange(updated))
          case (Some((oldStart, oldLines)), Some((newStart, newLines))) =>
            Some(Hunk(oldStart, oldLines, newStart, newLines, TrimSpace(header), line + "\n", []))
          case _ => None
  }

  /** parseDiff's variables. */
  datatype Parser = Parser(files: seq<FileChange>, path: string, status: Status, hunks: seq<Hunk>, added: nat,
                           removed: nat, current: Option<Hunk>, binary: bool, sawHunk: bool)
  {
    /** The hunks of the current file, the open one included. */
    function Hunks(): seq<Hunk> {
      hunks + if current.Some? then [current.value] else []
    }

    function Flush(wanted: string -> bool): Parser {
      var done := if path != "" && !binary && wanted(path) && (Hunks() != [] || status == Deleted)
                  then [FileChange(path, status, Hunks(), added, removed)] else [];
      Start(files + done)
    }
  }

  function Start(files: seq<FileChange>): Parser {
    Parser(files, "", Modified, [], 0, 0, None, false, false)
  }

  /** diffPath: None for /dev/null. */
  function DiffPath(line: string, side: string): Option<string>
    requires |line| >= 4
  {
    var name := HeaderName(line[4..]);
    if name == "/dev/null" then None else Some(TrimPrefix(name, side))
  }

  function ParseLine(p: Parser, line: string, wanted: string -> bool): Parser {
    if "diff --git " <= line then p.Flush(wanted)
    else if "new file mode" <= line then p.(status := Added)
    else if "deleted file mode" <= line then p.(status := Deleted)
    else if "Binary files " <= line then p.(binary := true)
    else if !p.sawHunk && "--- " <= line then
      (match DiffPath(line, "a/") case Some(name) => (if p.path == "" then p.(path := name) else p) case None => p)
    else if !p.sawHunk && "+++ " <= line then
      (match DiffPath(line, "b/") case Some(name) => p.(path := name) case None => p)
    else if "@@ " <= line then p.(sawHunk := true, hunks := p.Hunks(), current := ParseHeader(line))
    else if p.current.None? then p
    else if "+" <= line then
      var h := p.current.value;
      p.(current := Some(h.(diff := h.diff + line + "\n", added := h.added + [line[1..]])), added := p.added + 1)
    else if "-" <= line then
      var h := p.current.value;
      p.(current := Some(h.(diff := h.diff + line + "\n")), removed := p.removed + 1)
    else p
  }

  function ParseLines(p: Parser, lines: seq<string>, wanted: string -> bool): Parser
    decreases |lines|
  {
    if lines == [] then p else ParseLine(ParseLines(p, lines[..|lines| - 1], wanted), lines[|lines| - 1], wanted)
  }

  function ParseAll(raw: string, wanted: string -> bool): seq<FileChange> {
    ParseLines(Start([]), ScanLines(raw), wanted).Flush(wanted).files
  }

  /** The source's scanner loop, and the flush after it. */
  method ParseDiff(raw: string, wanted: string -> bool) returns (files: seq<FileChange>)
    ensures files == ParseAll(raw, wanted)
  {
    var lines := ScanLines(raw);
    var p := Start([]);
    for i := 0 to |lines|
      invariant p == ParseLines(Start([]), lines[..i], wanted)
    {
      assert lines[..i + 1][..i] == lines[..i];
      p := ParseLine(p, lines[i], wanted);
    }
    assert lines[..|lines|] == lines;
    files := p.Flush(wanted).files;
  }

  lemma {:induction false} ParseAppend(p: Parser, a: seq<string>, b: seq<string>, wanted: string -> bool)
    ensures ParseLines(p, a + b, wanted) == ParseLines(ParseLines(p, a, wanted), b, wanted)
    decreases |b|
  {
    if b == [] {
      assert a + b == a;
    } else {
      assert (a + b)[..|a + b| - 1] == a + b[..|b| - 1];
      ParseAppend(p, a, b[..|b| - 1], wanted);
    }
  }

  lemma ParseOne(p: Parser, line: string, wanted: string -> bool)
    ensures ParseLines(p, [line], wanted) == ParseLine(p, line, wanted)
  {
    hide ParseLine;
    assert [line][..0] == [];
    assert ParseLines(p, [], wanted) == p;
  }

  // ---- What a diff's files are ----

  /** The lines of a hunk parseDiff keeps, each ended. */
  function KeptText(body: seq<string>): string
    decreases |body|
  {
    if body == [] then ""
    else
      var last := body[|body| - 1];
      KeptText(body[..|body| - 1]) + if "+" <= last || "-" <= last then last + "\n" else ""
  }

  function AddedLines(body: seq<string>): seq<string>
    decreases |body|
  {
    if body == [] then []
    else
      var last := body[|body| - 1];
      AddedLines(body[..|body| - 1]) + if "+" <= last then [last[1..]] else []
  }

  function RemovedCount(body: seq<string>): nat
    decreases |body|
  {
    if body == [] then 0
    else RemovedCount(body[..|body| - 1]) + if "-" <= body[|body| - 1] then 1 else 0
  }

  function HunkOf(h: HunkText): Hunk {
    Hunk(h.before.start, h.before.count, h.after.start, h.after.count, TrimSpace(h.section),
         h.Header() + "\n" + KeptText(h.body), AddedLines(h.body))
  }

  function HunksOf(hunks: seq<HunkText>): seq<Hunk> {
    if hunks == [] then [] else [HunkOf(hunks[0])] + HunksOf(hunks[1..])
  }

  function TotalAdded(hunks: seq<HunkText>): nat {
    if hunks == [] then 0 else |AddedLines(hunks[0].body)| + TotalAdded(hunks[1..])
  }

  function TotalRemoved(hunks: seq<HunkText>): nat {
    if hunks == [] then 0 else RemovedCount(hunks[0].body) + TotalRemoved(hunks[1..])
  }

  function StatusOf(meta: seq<string>): Status
    decreases |meta|
  {
    if meta == [] then Modified
    else
      var last := meta[|meta| - 1];
      if "new file mode" <= last then Added
      else if "deleted file mode" <= last then Deleted
      else StatusOf(meta[..|meta| - 1])
  }

  function ChangeOf(f: FileText, wanted: string -> bool): seq<FileChange> {
    if f.Hunked? && wanted(f.Path()) && (f.hunks != [] || StatusOf(f.meta) == Deleted)
    then [FileChange(f.Path(), StatusOf(f.meta), HunksOf(f.hunks), TotalAdded(f.hunks), TotalRemoved(f.hunks))]
    else []
  }

  function ChangesOf(files: seq<FileText>, wanted: string -> bool): seq<FileChange> {
    if files == [] then [] else ChangeOf(files[0], wanted) + ChangesOf(files[1..], wanted)
  }

  // ---- parseDiff reads them back ----

  lemma HeaderParses(h: HunkText)
    requires h.Valid()
    ensures ParseHeader(h.Header())
         == Some(Hunk(h.before.start, h.before.count, h.after.start, h.after.count, TrimSpace(h.section), h.Header() + "\n", []))
  {
    hide ParseRange;
    hide TrimSpace;
    PrintIsPlain(h.before);
    PrintIsPlain(h.after);
    RangeParses(h.before);
    RangeParses(h.after);
    var prior, updated := "-" + h.before.Print(), h.after.Print();
    var ranges := prior + " +" + updated;
    var line := h.Header();
    assert line == "@@ " + (ranges + " @@" + h.section);
    assert TrimPrefix(line, "@@ ") == ranges + " @@" + h.section;
    RangesCut(prior, updated, h.section);
    assert ' ' !in prior;
    CutAtNewCharacter(prior, " +", updated);
    hide Cut;
    assert prior[1..] == h.before.Print();
  }

  /** The first " @@" of a header ends its ranges, whatever the section says. */
  lemma RangesCut(prior: string, updated: string, section: string)
    requires ' ' !in prior && ' ' !in updated
    ensures Cut(prior + " +" + updated + " @@" + section, " @@") == Some((prior + " +" + updated, section))
  {
    var a, s := prior + " +" + updated, prior + " +" + updated + " @@" + section;
    forall i | 0 <= i < |a| ensures !(" @@" <= s[i..]) {
      if i == |prior| {
        assert s[i..][1] == '+';
      } else {
        assert s[i..][0] == a[i] && (a[i] in prior || a[i] in updated || a[i] == '+');
      }
    }
    CutFinds(a, " @@", section);
  }

  /** The parser after some lines of the open hunk's body. */
  function WithBody(p: Parser, body: seq<string>): Parser
    requires p.current.Some?
  {
    var h := p.current.value;
    p.(current := Some(h.(diff := h.diff + KeptText(body), added := h.added + AddedLines(body))),
       added := p.added + |AddedLines(body)|, removed := p.removed + RemovedCount(body))
  }

  predicate IsBody(line: string) {
    |line| > 0 && line[0] in {'+', '-', '\\'}
  }

  lemma NotAHeader(line: string)
    requires IsBody(line)
    ensures !("diff --git " <= line) && !("new file mode" <= line) && !("deleted file mode" <= line)
    ensures !("Binary files " <= line) && !("@@ " <= line)
  {
  }

  lemma BodyLineParses(p: Parser, line: string, wanted: string -> bool)
    requires p.sawHunk && p.current.Some? && IsBody(line)
    ensures ParseLine(p, line, wanted) == WithBody(p, [line])
  {
    assert "+" <= line <==> line[0] == '+';
    assert "-" <= line <==> line[0] == '-';
    NotAHeader(line);
    OneLineKept(line);
    var h := p.current.value;
    assert h.diff + line + "\n" == h.diff + (line + "\n");
    assert h.diff + "" == h.diff && h.added + [] == h.added;
  }

  lemma OneLineKept(line: string)
    requires IsBody(line)
    ensures KeptText([line]) == if "+" <= line || "-" <= line then line + "\n" else ""
    ensures AddedLines([line]) == if "+" <= line then [line[1..]] else []
    ensures RemovedCount([line]) == if "-" <= line then 1 else 0
  {
    assert [line][..0] == [];
    var kept, added := if "+" <= line || "-" <= line then line + "\n" else "", if "+" <= line then [line[1..]] else [];
    assert KeptText([]) + kept == kept && AddedLines([]) + added == added;
  }

  lemma {:induction false} BodyParses(p: Parser, body: seq<string>, wanted: string -> bool)
    requires p.sawHunk && p.current.Some?
    requires forall i :: 0 <= i < |body| ==> IsBody(body[i])
    ensures ParseLines(p, body, wanted) == WithBody(p, body)
    decreases |body|
  {
    hide ParseLine;
    var h := p.current.value;
    if body == [] {
      assert h.diff + "" == h.diff && h.added + [] == h.added;
    } else {
      var before, last := body[..|body| - 1], body[|body| - 1];
      BodyParses(p, before, wanted);
      BodyLineParses(ParseLines(p, before, wanted), last, wanted);
      KeptLast(body);
      assert h.diff + KeptText(before) + KeptText([last]) == h.diff + KeptText(body);
      assert h.added + AddedLines(before) + AddedLines([last]) == h.added + AddedLines(body);
    }
  }

  lemma KeptLast(body: seq<string>)
    requires body != []
    ensures var before, last := body[..|body| - 1], body[|body| - 1];
            && KeptText(body) == KeptText(before) + KeptText([last])
            && AddedLines(body) == AddedLines(before) + AddedLines([last])
            && RemovedCount(body) == RemovedCount(before) + RemovedCount([last])
  {
    assert [body[|body| - 1]][..0] == [];
  }

  // ---- Whole hunks and files ----

  /** The parser after some hunks of the file it is in: every hunk but the last closed. */
  predicate AfterHunks(p: Parser, q: Parser, hunks: seq<HunkText>) {
    && q.files == p.files && q.path == p.path && q.status == p.status && q.binary == p.binary
    && q.Hunks() == p.Hunks() + HunksOf(hunks)
    && q.added == p.added + TotalAdded(hunks) && q.removed == p.removed + TotalRemoved(hunks)
  }

  lemma OneHunk(h: HunkText)
    ensures HunksOf([h]) == [HunkOf(h)] && TotalAdded([h]) == |AddedLines(h.body)| && TotalRemoved([h]) == RemovedCount(h.body)
  {
    assert [h][1..] == [];
    assert HunksOf([]) == [] && [HunkOf(h)] + [] == [HunkOf(h)];
  }

  lemma HunkLineParses(p: Parser, h: HunkText, wanted: string -> bool)
    requires h.Valid()
    ensures ParseLine(p, h.Header(), wanted) == p.(sawHunk := true, hunks := p.Hunks(), current := ParseHeader(h.Header()))
  {
    hide ParseHeader;
    assert h.Header()[0] == '@' && h.Header()[1] == '@' && h.Header()[2] == ' ';
  }

  lemma HunkParses(p: Parser, h: HunkText, wanted: string -> bool)
    requires h.Valid()
    ensures AfterHunks(p, ParseLines(p, h.Lines(), wanted), [h])
  {
    hide ParseLine;
    hide ParseHeader;
    HunkLineParses(p, h, wanted);
    HeaderParses(h);
    ParseOne(p, h.Header(), wanted);
    ParseAppend(p, [h.Header()], h.body, wanted);
    BodyParses(ParseLine(p, h.Header(), wanted), h.body, wanted);
    OneHunk(h);
    assert [] + AddedLines(h.body) == AddedLines(h.body);
    assert ParseLines(p, h.Lines(), wanted).current == Some(HunkOf(h));
  }

  lemma {:induction false} HunksParse(p: Parser, hunks: seq<HunkText>, wanted: string -> bool)
    requires forall i :: 0 <= i < |hunks| ==> hunks[i].Valid()
    ensures AfterHunks(p, ParseLines(p, HunkLines(hunks), wanted), hunks)
    decreases |hunks|
  {
    hide ParseLine;
    hide HunkOf;
    hide HunkText.Lines;
    hide HunkText.Valid;
    if hunks == [] {
      assert p.Hunks() + [] == p.Hunks();
    } else {
      var first, rest := hunks[0], hunks[1..];
      var q := ParseLines(p, first.Lines(), wanted);
      HunkParses(p, first, wanted);
      ParseAppend(p, first.Lines(), HunkLines(rest), wanted);
      HunksParse(q, rest, wanted);
      OneHunk(first);
      assert p.Hunks() + [HunkOf(first)] + HunksOf(rest) == p.Hunks() + HunksOf(hunks);
    }
  }

  predicate NotBinary(meta: seq<string>) {
    forall i :: 0 <= i < |meta| ==> !("Binary files " <= meta[i])
  }

  lemma MetaLineParses(p: Parser, line: string, wanted: string -> bool)
    requires !p.sawHunk && p.current.None? && IsMeta(line)
    ensures ParseLine(p, line, wanted)
         == p.(status := if "new file mode" <= line then Added else if "deleted file mode" <= line then Deleted else p.status,
               binary := if "new file mode" <= line || "deleted file mode" <= line then p.binary
                         else p.binary || "Binary files " <= line)
  {
  }

  lemma {:induction false} MetaParses(p: Parser, meta: seq<string>, wanted: string -> bool) returns (binary: bool)
    requires !p.sawHunk && p.current.None? && p.status == Modified
    requires forall i :: 0 <= i < |meta| ==> IsMeta(meta[i])
    ensures ParseLines(p, meta, wanted) == p.(status := StatusOf(meta), binary := binary)
    ensures NotBinary(meta) ==> binary == p.binary
    decreases |meta|
  {
    hide ParseLine;
    if meta == [] {
      binary := p.binary;
    } else {
      var before, last := meta[..|meta| - 1], meta[|meta| - 1];
      var already := MetaParses(p, before, wanted);
      MetaLineParses(ParseLines(p, before, wanted), last, wanted);
      binary := ParseLines(p, meta, wanted).binary;
    }
  }

  lemma OldNameParses(p: Parser, name: string, wanted: string -> bool)
    requires !p.sawHunk && p.path == ""
    ensures var before := DiffPath("--- " + name, "a/");
            ParseLine(p, "--- " + name, wanted) == if before.Some? then p.(path := before.value) else p
  {
    hide DiffPath;
    hide ParseHeader;
    hide Parser.Flush;
    hide Parser.Hunks;
    assert ("--- " + name)[0] == '-';
  }

  lemma NewNameParses(p: Parser, name: string, wanted: string -> bool)
    requires !p.sawHunk
    ensures var now := DiffPath("+++ " + name, "b/");
            ParseLine(p, "+++ " + name, wanted) == if now.Some? then p.(path := now.value) else p
  {
    hide DiffPath;
    hide ParseHeader;
    hide Parser.Flush;
    hide Parser.Hunks;
    assert ("+++ " + name)[0] == '+';
  }

  lemma HeadersParse(p: Parser, f: FileText, wanted: string -> bool)
    requires f.Valid() && f.Hunked? && !p.sawHunk && p.current.None? && p.path == ""
    ensures ParseLines(p, ["--- " + f.oldName, "+++ " + f.newName], wanted) == p.(path := f.Path())
  {
    var first, second := "--- " + f.oldName, "+++ " + f.newName;
    assert first[4..] == f.oldName && second[4..] == f.newName;
    OldNameParses(p, f.oldName, wanted);
    ParseTwo(p, first, second, wanted);
    hide ParseLine;
    NewNameParses(ParseLine(p, first, wanted), f.newName, wanted);
  }

  lemma ParseTwo(p: Parser, first: string, second: string, wanted: string -> bool)
    ensures ParseLines(p, [first, second], wanted) == ParseLine(ParseLine(p, first, wanted), second, wanted)
  {
    hide ParseLine;
    assert [first, second] == [first] + [second];
    ParseAppend(p, [first], [second], wanted);
    ParseOne(p, first, wanted);
    ParseOne(ParseLine(p, first, wanted), second, wanted);
  }

  lemma PathIsNamed(f: FileText)
    requires f.Valid() && f.Hunked?
    ensures f.Path() != ""
  {
  }

  /** A file's lines flush what came before, and leave exactly the file's own change open. */
  lemma FileParses(p: Parser, f: FileText, wanted: string -> bool)
    requires f.Valid()
    ensures var q := ParseLines(p, f.Lines(), wanted);
            q.files == p.Flush(wanted).files && q.Flush(wanted).files == q.files + ChangeOf(f, wanted)
  {
    hide ParseLine;
    var first := "diff --git " + f.git;
    var start := p.Flush(wanted);
    GitLineParses(p, first, wanted);
    var binary := MetaParses(start, f.meta, wanted);
    ParseAppend(p, [first], f.meta, wanted);
    var mid := ParseLines(p, [first] + f.meta, wanted);
    if f.Bare? {
      assert f.Lines() == [first] + f.meta;
      assert start.files + [] == start.files;
    } else {
      var heads, hunks := ["--- " + f.oldName, "+++ " + f.newName], HunkLines(f.hunks);
      assert f.Lines() == [first] + f.meta + (heads + hunks);
      ParseAppend(p, [first] + f.meta, heads + hunks, wanted);
      ParseAppend(mid, heads, hunks, wanted);
      HeadersParse(mid, f, wanted);
      HunksParse(mid.(path := f.Path()), f.hunks, wanted);
      PathIsNamed(f);
      HunksOfEmpty(f.hunks);
      assert [] + HunksOf(f.hunks) == HunksOf(f.hunks);
    }
  }

  lemma HunksOfEmpty(hunks: seq<HunkText>)
    ensures HunksOf(hunks) == [] <==> hunks == []
  {
  }

  lemma GitLineParses(p: Parser, line: string, wanted: string -> bool)
    requires "diff --git " <= line
    ensures ParseLines(p, [line], wanted) == p.Flush(wanted)
  {
    ParseOne(p, line, wanted);
  }

  lemma {:induction false} DiffParses(p: Parser, files: seq<FileText>, wanted: string -> bool)
    requires ValidDiff(files)
    ensures ParseLines(p, DiffLines(files), wanted).Flush(wanted).files == p.Flush(wanted).files + ChangesOf(files, wanted)
    decreases |files|
  {
    hide ParseLine;
    hide ChangeOf;
    hide Parser.Flush;
    hide FileText.Lines;
    hide FileText.Valid;
    if files == [] {
      assert p.Flush(wanted).files + [] == p.Flush(wanted).files;
    } else {
      var q := ParseLines(p, files[0].Lines(), wanted);
      ParseAppend(p, files[0].Lines(), DiffLines(files[1..]), wanted);
      FileParses(p, files[0], wanted);
      DiffParses(q, files[1..], wanted);
      var done, first, rest := p.Flush(wanted).files, ChangeOf(files[0], wanted), ChangesOf(files[1..], wanted);
      assert (done + first) + rest == done + (first + rest);
    }
  }

  /** parseDiff, on the text of any zero-context diff: every wanted file with hunks or deleted,
      with its status, its hunks and its counts. */
  lemma ParseDiffReadsDiffs(files: seq<FileText>, wanted: string -> bool)
    requires ValidDiff(files) && OneLiners(DiffLines(files)) && NoReturns(DiffLines(files))
    ensures ParseAll(Print(files), wanted) == ChangesOf(files, wanted)
  {
    hide ParseLine;
    ScanUnlines(DiffLines(files));
    DiffParses(Start([]), files, wanted);
    assert Start([]).Flush(wanted).files == [];
    assert [] + ChangesOf(files, wanted) == ChangesOf(files, wanted);
  }

  // ---- The two readers agree ----

  /** The new-side ranges of the hunks with a positive count. */
  function HunkRanges(hunks: seq<Hunk>): seq<Range> {
    if hunks == [] then []
    else
      (if hunks[0].newLines > 0 then [Range(hunks[0].newStart, hunks[0].newStart + hunks[0].newLines - 1)] else [])
      + HunkRanges(hunks[1..])
  }

  lemma {:induction false} HunkRangesOf(hunks: seq<HunkText>)
    ensures HunkRanges(HunksOf(hunks)) == NewRanges(hunks)
  {
    hide HunkText.Header;
    hide KeptText;
    hide AddedLines;
    hide TrimSpace;
    if hunks != [] {
      HunkRangesOf(hunks[1..]);
      OneMoreRange(HunkOf(hunks[0]), HunksOf(hunks[1..]));
    }
  }

  lemma OneMoreRange(h: Hunk, rest: seq<Hunk>)
    ensures HunkRanges([h] + rest)
         == (if h.newLines > 0 then [Range(h.newStart, h.newStart + h.newLines - 1)] else []) + HunkRanges(rest)
  {
    assert ([h] + rest)[1..] == rest;
  }

  /** No file with text that comes later in the diff has this one's path. */
  ghost predicate LastOfItsPath(files: seq<FileText>, k: nat)
    requires k < |files|
  {
    forall j :: k < j < |files| && files[j].Hunked? ==> files[j].Path() != files[k].Path()
  }

  /** No other file with text has this one's path, as git prints all but a change of type. */
  ghost predicate OnlyOfItsPath(files: seq<FileText>, k: nat)
    requires k < |files|
  {
    forall j :: 0 <= j < |files| && j != k && files[j].Hunked? ==> files[j].Path() != files[k].Path()
  }

  predicate LastChange(changes: seq<FileChange>, path: string, n: nat) {
    n < |changes| && changes[n].path == path && forall m :: n < m < |changes| ==> changes[m].path != path
  }

  predicate OnlyChange(changes: seq<FileChange>, path: string, n: nat) {
    n < |changes| && changes[n].path == path && forall m :: 0 <= m < |changes| && m != n ==> changes[m].path != path
  }

  lemma {:induction false} ChangedKeeps(files: seq<FileText>, lines: map<string, seq<Range>>, path: string)
    requires path in lines && forall j :: 0 <= j < |files| ==> files[j].NewPath() != Some(path)
    ensures path in Changed(files, lines) && Changed(files, lines)[path] == lines[path]
    decreases |files|
  {
    if files != [] {
      ChangedKeeps(files[1..], WithFile(files[0], lines), path);
    }
  }

  lemma {:induction false} ChangedHolds(files: seq<FileText>, lines: map<string, seq<Range>>, k: nat)
    requires k < |files| && files[k].NewPath().Some?
    requires forall j :: k < j < |files| ==> files[j].NewPath() != files[k].NewPath()
    ensures var path := files[k].NewPath().value;
            path in Changed(files, lines) && Changed(files, lines)[path] == NewRanges(files[k].hunks)
    decreases |files|
  {
    hide FileText.NewPath;
    hide NewRanges;
    var rest, next := files[1..], WithFile(files[0], lines);
    assert forall j :: 0 <= j < |rest| ==> rest[j] == files[j + 1];
    if k == 0 {
      ChangedKeeps(rest, next, files[0].NewPath().value);
    } else {
      ChangedHolds(rest, next, k - 1);
    }
  }

  lemma {:induction false} ChangesSplit(files: seq<FileText>, wanted: string -> bool, k: nat)
    requires k < |files|
    ensures ChangesOf(files, wanted)
         == ChangesOf(files[..k], wanted) + (ChangeOf(files[k], wanted) + ChangesOf(files[k + 1..], wanted))
    decreases |files|
  {
    hide ChangeOf;
    if k > 0 {
      var rest := files[1..];
      ChangesSplit(rest, wanted, k - 1);
      assert files[..k][1..] == rest[..k - 1] && files[k + 1..] == rest[k..];
      var first, before := ChangeOf(files[0], wanted), ChangesOf(rest[..k - 1], wanted);
      var after := ChangeOf(files[k], wanted) + ChangesOf(files[k + 1..], wanted);
      assert first + (before + after) == (first + before) + after;
    } else {
      assert files[..0] == [] && files[0 + 1..] == files[1..];
      assert ChangesOf([], wanted) == [];
    }
  }

  lemma {:induction false} ChangesHavePaths(files: seq<FileText>, wanted: string -> bool, path: string)
    requires forall f :: f in files && f.Hunked? ==> f.Path() != path
    ensures forall c :: c in ChangesOf(files, wanted) ==> c.path != path
    decreases |files|
  {
    hide FileText.Path;
    hide HunksOf;
    if files != [] {
      ChangesHavePaths(files[1..], wanted, path);
      assert files[0] in files;
    }
  }

  /** What the two readers say of a surviving file with text: changedLines holds its path, and
      parseDiff's last change of that path, or its only one, keeps the same ranges.  A file
      whose text is only a mode has no hunks, and no change. */
  ghost predicate Agree(file: FileText, only: bool, lines: map<string, seq<Range>>, changes: seq<FileChange>)
    requires file.NewPath().Some?
  {
    var path := file.NewPath().value;
    && path in lines
    && (file.hunks == [] ==> lines[path] == [])
    && (file.hunks != [] ==> exists n: nat :: KeepsRanges(changes, path, n, lines[path], only))
  }

  predicate KeepsRanges(changes: seq<FileChange>, path: string, n: nat, ranges: seq<Range>, only: bool) {
    LastChange(changes, path, n) && HunkRanges(changes[n].hunks) == ranges && (only ==> OnlyChange(changes, path, n))
  }

  /** On every zero-context diff without trailing carriage returns, whatever its hunk bodies
      contain: for each surviving text file that parseDiff wants, changedLines gives exactly the
      new-side ranges, those with a positive count, in order, of the hunks parseDiff keeps for
      it, in its last change of that path and, when no other file has the path, its only one. */
  lemma ReadersAgree(files: seq<FileText>, k: nat, wanted: string -> bool)
    requires ValidDiff(files) && OneLiners(DiffLines(files)) && NoReturns(DiffLines(files))
    requires k < |files| && files[k].NewPath().Some? && LastOfItsPath(files, k) && wanted(files[k].Path())
    ensures Agree(files[k], OnlyOfItsPath(files, k), ReadAll(Print(files)), ParseAll(Print(files), wanted))
  {
    hide *;
    ChangedLinesReadsDiffs(files);
    ParseDiffReadsDiffs(files, wanted);
    ReadingsAgree(files, k, wanted);
  }

  lemma ReadingsAgree(files: seq<FileText>, k: nat, wanted: string -> bool)
    requires k < |files| && files[k].NewPath().Some? && LastOfItsPath(files, k) && wanted(files[k].Path())
    ensures Agree(files[k], OnlyOfItsPath(files, k), Changed(files, map[]), ChangesOf(files, wanted))
  {
    hide HeaderName;
    hide Changed;
    hide ChangesOf;
    hide LastOfItsPath;
    hide OnlyOfItsPath;
    LastHasNewPath(files, k);
    ChangedHolds(files, map[], k);
    NewRangesOfNone();
    if files[k].hunks != [] {
      var n := KeptChange(files, k, wanted);
    }
  }

  lemma LastHasNewPath(files: seq<FileText>, k: nat)
    requires k < |files| && files[k].NewPath().Some? && LastOfItsPath(files, k)
    ensures files[k].Path() == files[k].NewPath().value
    ensures forall j :: k < j < |files| ==> files[j].NewPath() != files[k].NewPath()
  {
    hide HeaderName;
  }

  lemma NewRangesOfNone()
    ensures NewRanges([]) == []
  {
  }

  /** parseDiff keeps a surviving text file's change, with its hunks' ranges. */
  lemma KeptChange(files: seq<FileText>, k: nat, wanted: string -> bool) returns (n: nat)
    requires k < |files| && files[k].Hunked? && files[k].hunks != [] && LastOfItsPath(files, k) && wanted(files[k].Path())
    ensures var changes, path := ChangesOf(files, wanted), files[k].Path();
            KeepsRanges(changes, path, n, NewRanges(files[k].hunks), OnlyOfItsPath(files, k))
  {
    hide FileText.Path;
    hide HunksOf;
    hide HunkRanges;
    hide NewRanges;
    hide TotalAdded;
    hide TotalRemoved;
    var before, own, after := ChangesOf(files[..k], wanted), ChangeOf(files[k], wanted), ChangesOf(files[k + 1..], wanted);
    ChangesSplit(files, wanted, k);
    HunkRangesOf(files[k].hunks);
    n := |before|;
    var changes := before + (own + after);
    assert |own| == 1 && changes[n] == own[0];
    ChangesHavePaths(files[k + 1..], wanted, files[k].Path());
    assert forall m :: n < m < |changes| ==> changes[m] == after[m - n - 1] && after[m - n - 1] in after;
    if OnlyOfItsPath(files, k) {
      ChangesHavePaths(files[..k], wanted, files[k].Path());
      assert forall m :: 0 <= m < n ==> changes[m] == before[m] && before[m] in before;
    }
  }
}
