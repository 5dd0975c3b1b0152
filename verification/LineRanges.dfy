/**
  Line ranges in runner/mutation.go: mergeRanges, and changedDiff, which prints the lines a
  run mutates as a diff.  Both are loops over values they build up; changedLines, the reader
  of internal/gitchange, gets back exactly the ranges that went in.
 */
module LineRanges {
  import opened Options
  import opened Text
  import opened Quoting
  import opened GitDiff
  import opened Order

  predicate On(r: Range, line: int) {
    r.start <= line <= r.end
  }

  /** onLines over one file's ranges. */
  predicate OnSome(ranges: seq<Range>, line: int) {
    exists i :: 0 <= i < |ranges| && On(ranges[i], line)
  }

  predicate RangeLe(a: Range, b: Range) {
    a.start < b.start || (a.start == b.start && a.end <= b.end)
  }

  /** slices.SortFunc by start: a permutation in order of start.  Nothing is promised of ties. */
  method SortByStart(ranges: seq<Range>) returns (sorted: seq<Range>)
    ensures multiset(sorted) == multiset(ranges)
    ensures forall i, j :: 0 <= i < j < |sorted| ==> sorted[i].start <= sorted[j].start
  {
    sorted := Sort(ranges, RangeLe);
    SortSorts(ranges, RangeLe);
  }

  predicate Proper(ranges: seq<Range>) {
    forall i :: 0 <= i < |ranges| ==> ranges[i].start <= ranges[i].end
  }

  /** In order, disjoint, and with a line between each two. */
  ghost predicate Separated(ranges: seq<Range>) {
    Proper(ranges) && forall i, j :: 0 <= i < j < |ranges| ==> ranges[i].end + 1 < ranges[j].start
  }

  lemma SameLines(a: seq<Range>, b: seq<Range>, line: int)
    requires multiset(a) == multiset(b)
    ensures OnSome(a, line) <==> OnSome(b, line)
  {
    if OnSome(a, line) {
      var i :| 0 <= i < |a| && On(a[i], line);
      assert a[i] in multiset(b);
    }
    if OnSome(b, line) {
      var i :| 0 <= i < |b| && On(b[i], line);
      assert b[i] in multiset(a);
    }
  }

  /** mergeRanges: the same lines, in separated ranges when the input's are proper. */
  method MergeRanges(ranges: seq<Range>) returns (merged: seq<Range>)
    ensures forall line :: OnSome(merged, line) <==> OnSome(ranges, line)
    ensures Proper(ranges) ==> Separated(merged)
    ensures merged == [] <==> ranges == []
  {
    var sorted := SortByStart(ranges);
    assert |sorted| == |multiset(sorted)| == |ranges|;
    merged := [];
    for n := 0 to |sorted|
      invariant merged == [] <==> n == 0
      invariant forall line :: OnSome(merged, line) <==> OnSome(sorted[..n], line)
      invariant n > 0 ==> merged[|merged| - 1].start <= sorted[n - 1].start
      invariant Proper(sorted[..n]) ==> Separated(merged)
    {
      var r := sorted[n];
      ghost var before := merged;
      ghost var last := |merged| - 1;
      if |merged| > 0 && r.start <= merged[|merged| - 1].end + 1 {
        var end := if r.end > merged[|merged| - 1].end then r.end else merged[|merged| - 1].end;
        merged := merged[|merged| - 1 := merged[|merged| - 1].(end := end)];
        forall line ensures OnSome(merged, line) <==> OnSome(before, line) || On(r, line) {
          JoinedLines(before, r, line);
        }
      } else {
        merged := merged + [r];
        forall line ensures OnSome(merged, line) <==> OnSome(before, line) || On(r, line) {
          AddedLine(before, r, line);
        }
      }
      forall line ensures OnSome(sorted[..n + 1], line) <==> OnSome(sorted[..n], line) || On(r, line) {
        assert sorted[..n + 1] == sorted[..n] + [r];
        AddedLine(sorted[..n], r, line);
      }
      assert Proper(sorted[..n + 1]) ==> Proper(sorted[..n]) && r.start <= r.end by {
        assert sorted[..n + 1][n] == r;
        assert forall i :: 0 <= i < n ==> sorted[..n + 1][i] == sorted[..n][i];
      }
    }
    assert sorted[..|sorted|] == sorted;
    forall line ensures OnSome(merged, line) <==> OnSome(ranges, line) {
      SameLines(sorted, ranges, line);
    }
    if Proper(ranges) {
      forall i | 0 <= i < |sorted| ensures sorted[i].start <= sorted[i].end {
        assert sorted[i] in multiset(ranges);
      }
    }
  }

  lemma AddedLine(ranges: seq<Range>, r: Range, line: int)
    ensures OnSome(ranges + [r], line) <==> OnSome(ranges, line) || On(r, line)
  {
    var both := ranges + [r];
    if OnSome(ranges, line) {
      var i :| 0 <= i < |ranges| && On(ranges[i], line);
      assert both[i] == ranges[i];
    }
    assert both[|ranges|] == r;
  }

  lemma JoinedLines(ranges: seq<Range>, r: Range, line: int)
    requires |ranges| > 0 && ranges[|ranges| - 1].start <= r.start <= ranges[|ranges| - 1].end + 1
    ensures var last := ranges[|ranges| - 1];
            var end := if r.end > last.end then r.end else last.end;
            OnSome(ranges[|ranges| - 1 := last.(end := end)], line) <==> OnSome(ranges, line) || On(r, line)
  {
    var k, last := |ranges| - 1, ranges[|ranges| - 1];
    var joined := ranges[k := last.(end := if r.end > last.end then r.end else last.end)];
    assert On(joined[k], line) <==> On(last, line) || On(r, line);
    if OnSome(ranges, line) {
      var i :| 0 <= i < |ranges| && On(ranges[i], line);
      assert i != k ==> joined[i] == ranges[i];
    }
  }

  lemma StartsAreOn(a: seq<Range>, i: nat)
    requires Separated(a) && i < |a|
    ensures OnSome(a, a[i].start)
  {
    assert On(a[i], a[i].start);
  }

  /** Separated ranges are determined by the lines they cover, so the merge is too, whatever
      the sort does with ties. */
  lemma {:induction false} SeparatedUnique(a: seq<Range>, b: seq<Range>)
    requires Separated(a) && Separated(b)
    requires forall line :: OnSome(a, line) <==> OnSome(b, line)
    ensures a == b
    decreases |a|
  {
    if a != [] {
      StartsAreOn(a, 0);
    }
    if b != [] {
      StartsAreOn(b, 0);
    }
    if a != [] && b != [] {
      FirstsAgree(a, b);
      FirstsAgree(b, a);
      TailsAgree(a, b);
      SeparatedUnique(a[1..], b[1..]);
      assert a == [a[0]] + a[1..] && b == [b[0]] + b[1..];
    }
  }

  lemma TailsAgree(a: seq<Range>, b: seq<Range>)
    requires Separated(a) && Separated(b) && a != [] && b != [] && a[0] == b[0]
    requires forall line :: OnSome(a, line) <==> OnSome(b, line)
    ensures forall line :: OnSome(a[1..], line) <==> OnSome(b[1..], line)
  {
    forall line ensures OnSome(a[1..], line) <==> OnSome(b[1..], line) {
      RestCovers(a, line);
      RestCovers(b, line);
    }
  }

  lemma FirstsAgree(a: seq<Range>, b: seq<Range>)
    requires Separated(a) && Separated(b) && a != [] && b != []
    requires forall line :: OnSome(a, line) <==> OnSome(b, line)
    ensures a[0].start <= b[0].start && a[0].end <= b[0].end
  {
    StartsAreOn(b, 0);
    StartsAreOn(a, 0);
    var next := b[0].end + 1;
    assert !OnSome(b, next) && !OnSome(a, next);
    assert !On(a[0], next);
    assert OnSome(b, a[0].start);
  }

  lemma RestCovers(a: seq<Range>, line: int)
    requires Separated(a) && a != []
    ensures OnSome(a[1..], line) <==> OnSome(a, line) && line > a[0].end
  {
    if OnSome(a, line) && line > a[0].end {
      var i :| 0 <= i < |a| && On(a[i], line);
      assert a[1..][i - 1] == a[i];
    }
  }

  // ---- changedDiff ----

  const PLACEHOLDER: string := ".levenshtein-no-changed-go-lines"

  /** parseLines admits only such ranges, and mergeRanges keeps them so. */
  ghost predicate Printable(ranges: seq<Range>) {
    forall i :: 0 <= i < |ranges| ==> 1 <= ranges[i].start <= ranges[i].end < MAX_INT
  }

  function Added(count: nat): (lines: seq<string>)
    ensures |lines| == count && forall i :: 0 <= i < count ==> lines[i] == "+"
  {
    if count == 0 then [] else ["+"] + Added(count - 1)
  }

  function Repeat(s: string, count: nat): string {
    if count == 0 then "" else s + Repeat(s, count - 1)
  }

  function HunkFor(r: Range): HunkText
    requires 1 <= r.start <= r.end < MAX_INT
  {
    var count := r.end - r.start + 1;
    HunkText(Side(0, 0, false), Side(r.start, count, false), "", Added(count))
  }

  function HunksFor(ranges: seq<Range>): (hunks: seq<HunkText>)
    requires Printable(ranges)
    ensures forall i :: 0 <= i < |hunks| ==> hunks[i].Valid()
    ensures NewRanges(hunks) == ranges
  {
    if ranges == [] then []
    else
      var rest := HunksFor(ranges[1..]);
      assert ranges == [ranges[0]] + ranges[1..];
      [HunkFor(ranges[0])] + rest
  }

  /** One file's part of the diff, its names quoted. */
  function FileFor(file: string, ranges: seq<Range>, printable: char -> bool): FileText
    requires Printable(ranges)
  {
    var a, b := Quote("a/" + file, printable), Quote("b/" + file, printable);
    Hunked(a + " " + b, [], a, b, HunksFor(ranges))
  }

  function FilesFor(run: map<string, seq<Range>>, names: seq<string>, printable: char -> bool): seq<FileText>
    requires forall i :: 0 <= i < |names| ==> names[i] in run && Printable(run[names[i]])
  {
    if names == [] then []
    else
      (if run[names[0]] != [] then [FileFor(names[0], run[names[0]], printable)] else [])
      + FilesFor(run, names[1..], printable)
  }

  lemma {:induction false} RepeatLines(count: nat)
    ensures Unlines(Added(count)) == Repeat("+\n", count)
  {
    if count > 0 {
      RepeatLines(count - 1);
    }
  }

  lemma HunkForPrints(r: Range)
    requires 1 <= r.start <= r.end < MAX_INT
    ensures Unlines(HunkFor(r).Lines())
         == "@@ -0,0 +" + Itoa(r.start) + "," + Itoa(r.end - r.start + 1) + " @@\n" + Repeat("+\n", r.end - r.start + 1)
  {
    var h := HunkFor(r);
    RepeatLines(r.end - r.start + 1);
    assert Itoa(0) == "0";
    assert h.Lines()[1..] == h.body && h.Lines()[0] == h.Header();
    assert h.Header() == "@@ -0,0 +" + Itoa(r.start) + "," + Itoa(r.end - r.start + 1) + " @@";
  }

  lemma {:induction false} HunksForAppend(ranges: seq<Range>, r: Range)
    requires Printable(ranges + [r]) && Printable(ranges) && 1 <= r.start <= r.end < MAX_INT
    ensures HunksFor(ranges + [r]) == HunksFor(ranges) + [HunkFor(r)]
  {
    hide HunkFor;
    if ranges == [] {
      assert [] + [r] == [r] && [r][1..] == [];
      assert HunksFor([]) == [];
    } else {
      assert (ranges + [r])[1..] == ranges[1..] + [r];
      HunksForAppend(ranges[1..], r);
    }
  }

  lemma {:induction false} HunkLinesAppend(hunks: seq<HunkText>, h: HunkText)
    ensures HunkLines(hunks + [h]) == HunkLines(hunks) + h.Lines()
  {
    hide HunkText.Lines;
    if hunks == [] {
      assert [] + [h] == [h] && [h][1..] == [];
      assert HunkLines([h]) == h.Lines() + [];
    } else {
      assert (hunks + [h])[1..] == hunks[1..] + [h];
      HunkLinesAppend(hunks[1..], h);
    }
  }

  /** The text of a file's hunks grows by one hunk's text. */
  lemma HunkTextAppends(ranges: seq<Range>, r: Range)
    requires Printable(ranges + [r]) && Printable(ranges) && 1 <= r.start <= r.end < MAX_INT
    ensures Unlines(HunkLines(HunksFor(ranges + [r]))) == Unlines(HunkLines(HunksFor(ranges))) + Unlines(HunkFor(r).Lines())
  {
    hide HunkFor;
    hide HunkText.Lines;
    HunksForAppend(ranges, r);
    HunkLinesAppend(HunksFor(ranges), HunkFor(r));
    UnlinesAppend(HunkLines(HunksFor(ranges)), HunkFor(r).Lines());
  }

  lemma FileForPrints(file: string, ranges: seq<Range>, printable: char -> bool)
    requires Printable(ranges)
    ensures var a, b := Quote("a/" + file, printable), Quote("b/" + file, printable);
            Unlines(FileFor(file, ranges, printable).Lines())
            == ("diff --git " + a + " " + b + "\n" + "--- " + a + "\n" + "+++ " + b + "\n") + Unlines(HunkLines(HunksFor(ranges)))
  {
    hide Quote;
    hide HunksFor;
    hide HunkLines;
    hide Unlines;
    var a, b := Quote("a/" + file, printable), Quote("b/" + file, printable);
    var hunks := HunkLines(HunksFor(ranges));
    FileForLines(file, ranges, printable);
    ThreeHeads("diff --git " + (a + " " + b), "--- " + a, "+++ " + b, hunks);
    HeadText(a, b);
  }

  lemma FileForLines(file: string, ranges: seq<Range>, printable: char -> bool)
    requires Printable(ranges)
    ensures var a, b := Quote("a/" + file, printable), Quote("b/" + file, printable);
            FileFor(file, ranges, printable).Lines()
            == ["diff --git " + (a + " " + b)] + (["--- " + a] + (["+++ " + b] + HunkLines(HunksFor(ranges))))
  {
    hide Quote;
    hide HunksFor;
    hide HunkLines;
  }

  lemma HeadText(a: string, b: string)
    ensures ("diff --git " + (a + " " + b)) + "\n" + ("--- " + a) + "\n" + ("+++ " + b) + "\n"
         == "diff --git " + a + " " + b + "\n" + "--- " + a + "\n" + "+++ " + b + "\n"
  {
  }

  lemma ThreeHeads(first: string, second: string, third: string, rest: seq<string>)
    ensures Unlines([first] + ([second] + ([third] + rest))) == (first + "\n" + second + "\n" + third + "\n") + Unlines(rest)
  {
    hide Unlines;
    UnlinesHead(third, rest);
    UnlinesHead(second, [third] + rest);
    UnlinesHead(first, [second] + ([third] + rest));
  }

  lemma UnlinesHead(line: string, rest: seq<string>)
    ensures Unlines([line] + rest) == line + "\n" + Unlines(rest)
  {
    assert ([line] + rest)[1..] == rest;
  }

  /** The text of a file's hunks. */
  function HunksText(ranges: seq<Range>): string
    requires Printable(ranges)
  {
    Unlines(HunkLines(HunksFor(ranges)))
  }

  /** What changedDiff prints for one range. */
  function RangeText(r: Range): string
    requires 1 <= r.start <= r.end
  {
    "@@ -0,0 +" + Itoa(r.start) + "," + Itoa(r.end - r.start + 1) + " @@\n" + Repeat("+\n", r.end - r.start + 1)
  }

  lemma RangeTextAppends(ranges: seq<Range>, i: nat)
    requires Printable(ranges) && i < |ranges|
    ensures HunksText(ranges[..i + 1]) == HunksText(ranges[..i]) + RangeText(ranges[i])
  {
    assert ranges[..i + 1] == ranges[..i] + [ranges[i]];
    HunkTextAppends(ranges[..i], ranges[i]);
    HunkForPrints(ranges[i]);
  }

  /** The write closure of changedDiff. */
  method WriteFile(diff: string, file: string, ranges: seq<Range>, printable: char -> bool) returns (longer: string)
    requires Printable(ranges)
    ensures longer == diff + Unlines(FileFor(file, ranges, printable).Lines())
  {
    hide HunksText;
    hide RangeText;
    hide FileFor;
    hide Unlines;
    hide Quote;
    hide FileText.Lines;
    var a, b := Quote("a/" + file, printable), Quote("b/" + file, printable);
    var head := "diff --git " + a + " " + b + "\n" + "--- " + a + "\n" + "+++ " + b + "\n";
    longer := diff + head;
    NoHunks(ranges);
    assert (diff + head) + "" == diff + head;
    for i := 0 to |ranges|
      invariant longer == (diff + head) + HunksText(ranges[..i])
    {
      RangeTextAppends(ranges, i);
      longer := longer + RangeText(ranges[i]);
    }
    assert ranges[..|ranges|] == ranges;
    FileTextIs(file, ranges, printable, head);
    assert (diff + head) + HunksText(ranges) == diff + (head + HunksText(ranges));
  }

  lemma NoHunks(ranges: seq<Range>)
    ensures HunksText(ranges[..0]) == ""
  {
    assert ranges[..0] == [];
  }

  lemma FileTextIs(file: string, ranges: seq<Range>, printable: char -> bool, head: string)
    requires Printable(ranges)
    requires var a, b := Quote("a/" + file, printable), Quote("b/" + file, printable);
             head == "diff --git " + a + " " + b + "\n" + "--- " + a + "\n" + "+++ " + b + "\n"
    ensures Unlines(FileFor(file, ranges, printable).Lines()) == head + HunksText(ranges)
  {
    FileForPrints(file, ranges, printable);
  }

  ghost predicate PrintableRun(run: map<string, seq<Range>>) {
    forall file :: file in run ==> Printable(run[file])
  }

  /** The diff of a run, as a value: the placeholder, then each file with a line to run. */
  function DiffFor(run: map<string, seq<Range>>, printable: char -> bool): seq<FileText>
    requires PrintableRun(run)
  {
    [FileFor(PLACEHOLDER, [Range(1, 1)], printable)] + FilesFor(run, Ascending(run.Keys), printable)
  }

  lemma {:induction false} DiffLinesAppend(a: seq<FileText>, b: seq<FileText>)
    ensures DiffLines(a + b) == DiffLines(a) + DiffLines(b)
  {
    hide FileText.Lines;
    if a == [] {
      assert a + b == b;
    } else {
      assert (a + b)[1..] == a[1..] + b;
      DiffLinesAppend(a[1..], b);
    }
  }

  lemma {:induction false} FilesForAppend(run: map<string, seq<Range>>, names: seq<string>, name: string, printable: char -> bool)
    requires forall i :: 0 <= i < |names| ==> names[i] in run && Printable(run[names[i]])
    requires name in run && Printable(run[name])
    ensures FilesFor(run, names + [name], printable)
         == FilesFor(run, names, printable) + if run[name] != [] then [FileFor(name, run[name], printable)] else []
  {
    hide FileFor;
    if names == [] {
      assert [] + [name] == [name] && [name][1..] == [];
      assert FilesFor(run, [], printable) == [];
    } else {
      assert (names + [name])[1..] == names[1..] + [name];
      FilesForAppend(run, names[1..], name, printable);
    }
  }

  /** changedDiff: what it writes is the text of the run's diff. */
  method ChangedDiff(run: map<string, seq<Range>>, printable: char -> bool) returns (diff: string)
    requires PrintableRun(run)
    ensures diff == Print(DiffFor(run, printable))
  {
    hide FileFor;
    hide Print;
    hide FileText.Lines;
    hide Unlines;
    var first := [FileFor(PLACEHOLDER, [Range(1, 1)], printable)];
    diff := WriteFile("", PLACEHOLDER, [Range(1, 1)], printable);
    OneFile(first[0]);
    var names := Ascending(run.Keys);
    for i := 0 to |names|
      invariant diff == Print(first + FilesFor(run, names[..i], printable))
    {
      var name := names[i];
      assert names[..i + 1] == names[..i] + [name];
      FilesForAppend(run, names[..i], name, printable);
      ghost var before := FilesFor(run, names[..i], printable);
      if |run[name]| > 0 {
        diff := WriteFile(diff, name, run[name], printable);
        ghost var f := FileFor(name, run[name], printable);
        PrintAppends(first + before, f);
        assert (first + before) + [f] == first + (before + [f]);
      } else {
        assert first + (before + []) == first + before;
      }
    }
    assert names[..|names|] == names;
  }

  lemma OneFile(f: FileText)
    ensures Print([f] + []) == "" + Unlines(f.Lines())
  {
    assert [f] + [] == [f] && [f][1..] == [] && f.Lines() + [] == f.Lines();
    assert DiffLines([f]) == f.Lines() + DiffLines([]);
  }

  lemma PrintAppends(files: seq<FileText>, f: FileText)
    ensures Print(files + [f]) == Print(files) + Unlines(f.Lines())
  {
    hide FileText.Lines;
    DiffLinesAppend(files, [f]);
    assert [f][1..] == [] && f.Lines() + [] == f.Lines();
    assert DiffLines([f]) == f.Lines() + DiffLines([]);
    UnlinesAppend(DiffLines(files), f.Lines());
  }

  // ---- The round trip ----

  lemma QuotedNameIsRead(name: string, printable: char -> bool)
    requires PrintsText(printable)
    ensures HeaderName(Quote(name, printable)) == name
    ensures OneLine(Quote(name, printable))
  {
    var quoted := Quote(name, printable);
    assert quoted[|quoted| - 1..] == "\"";
    UnquoteQuote(name, printable);
    QuoteIsOneLine(name, printable);
  }

  lemma FileForIsValid(file: string, ranges: seq<Range>, printable: char -> bool)
    requires Printable(ranges) && PrintsText(printable) && file != ""
    ensures var f := FileFor(file, ranges, printable);
            f.Valid() && f.NewPath() == Some(file) && NewRanges(f.hunks) == ranges
  {
    hide Quote;
    hide HeaderName;
    QuotedNameIsRead("a/" + file, printable);
    QuotedNameIsRead("b/" + file, printable);
    assert ("b/" + file)[2..] == file && |"b/" + file| > 2 && |"a/" + file| > 2;
    assert ("b/" + file)[0] == 'b' && ("a/" + file)[0] == 'a';
  }

  lemma {:induction false} HunkLinesAreOneLiners(ranges: seq<Range>)
    requires Printable(ranges)
    ensures OneLiners(HunkLines(HunksFor(ranges)))
  {
    if ranges != [] {
      HunkLinesAreOneLiners(ranges[1..]);
      HunkHeaderIsOneLine(ranges[0]);
      var h := HunkFor(ranges[0]);
      assert HunkLines(HunksFor(ranges)) == h.Lines() + HunkLines(HunksFor(ranges[1..]));
    }
  }

  lemma HunkHeaderIsOneLine(r: Range)
    requires 1 <= r.start <= r.end < MAX_INT
    ensures OneLine(HunkFor(r).Header())
  {
    PrintIsPlain(HunkFor(r).before);
    PrintIsPlain(HunkFor(r).after);
  }

  lemma FileForIsOneLiners(file: string, ranges: seq<Range>, printable: char -> bool)
    requires Printable(ranges) && PrintsText(printable)
    ensures OneLiners(FileFor(file, ranges, printable).Lines())
  {
    hide Quote;
    hide HeaderName;
    hide HunksFor;
    QuotedNameIsRead("a/" + file, printable);
    QuotedNameIsRead("b/" + file, printable);
    HunkLinesAreOneLiners(ranges);
  }

  lemma {:induction false} DiffLinesAreOneLiners(files: seq<FileText>)
    requires forall i :: 0 <= i < |files| ==> OneLiners(files[i].Lines())
    ensures OneLiners(DiffLines(files))
  {
    hide FileText.Lines;
    if files != [] {
      DiffLinesAreOneLiners(files[1..]);
    }
  }

  /** The entries of a run with a line to run, among some names. */
  function NonEmpty(run: map<string, seq<Range>>, names: seq<string>): map<string, seq<Range>> {
    map name | name in run && name in names && run[name] != [] :: run[name]
  }

  lemma {:induction false} FilesForAreValid(run: map<string, seq<Range>>, names: seq<string>, printable: char -> bool)
    requires PrintsText(printable) && PrintableRun(run) && "" !in run
    requires forall i :: 0 <= i < |names| ==> names[i] in run
    ensures ValidDiff(FilesFor(run, names, printable))
    ensures forall i :: 0 <= i < |FilesFor(run, names, printable)| ==> OneLiners(FilesFor(run, names, printable)[i].Lines())
  {
    hide FileFor;
    hide FileText.Valid;
    hide FileText.Lines;
    if names != [] {
      FilesForAreValid(run, names[1..], printable);
      FileForIsValid(names[0], run[names[0]], printable);
      FileForIsOneLiners(names[0], run[names[0]], printable);
    }
  }

  lemma NonEmptyHead(run: map<string, seq<Range>>, names: seq<string>, lines: map<string, seq<Range>>)
    requires names != [] && names[0] in run
    ensures lines + NonEmpty(run, names)
         == (if run[names[0]] == [] then lines else lines[names[0] := run[names[0]]]) + NonEmpty(run, names[1..])
  {
    assert forall name :: name in names <==> name == names[0] || name in names[1..];
  }

  lemma {:induction false} FilesForAreRead(run: map<string, seq<Range>>, names: seq<string>, printable: char -> bool,
                                           lines: map<string, seq<Range>>)
    requires PrintsText(printable) && PrintableRun(run) && "" !in run
    requires forall i :: 0 <= i < |names| ==> names[i] in run
    ensures Changed(FilesFor(run, names, printable), lines) == lines + NonEmpty(run, names)
    decreases |names|
  {
    hide FileFor;
    hide NonEmpty;
    if names == [] {
      NonEmptyNone(run, lines);
    } else {
      var name, rest := names[0], names[1..];
      NonEmptyHead(run, names, lines);
      if run[name] == [] {
        assert FilesFor(run, names, printable) == [] + FilesFor(run, rest, printable) == FilesFor(run, rest, printable);
        FilesForAreRead(run, rest, printable, lines);
      } else {
        FileForIsValid(name, run[name], printable);
        assert FilesFor(run, names, printable)[1..] == FilesFor(run, rest, printable);
        FilesForAreRead(run, rest, printable, lines[name := run[name]]);
      }
    }
  }

  lemma NonEmptyNone(run: map<string, seq<Range>>, lines: map<string, seq<Range>>)
    ensures lines + NonEmpty(run, []) == lines
  {
  }

  /** Reading the diff back gives exactly the run's nonempty entries and the placeholder,
      whatever characters the file names hold. */
  lemma ChangedDiffReadsBack(run: map<string, seq<Range>>, printable: char -> bool)
    requires PrintsText(printable) && PrintableRun(run) && "" !in run
    ensures ReadAll(Print(DiffFor(run, printable)))
         == map[PLACEHOLDER := [Range(1, 1)]] + (map name | name in run && run[name] != [] :: run[name])
  {
    hide ReadAll;
    hide FileFor;
    hide FileText.Valid;
    hide FileText.Lines;
    var names, first := Ascending(run.Keys), FileFor(PLACEHOLDER, [Range(1, 1)], printable);
    var files := DiffFor(run, printable);
    var start := map[PLACEHOLDER := [Range(1, 1)]];
    FileForIsValid(PLACEHOLDER, [Range(1, 1)], printable);
    FileForIsOneLiners(PLACEHOLDER, [Range(1, 1)], printable);
    FilesForAreValid(run, names, printable);
    FilesForAreRead(run, names, printable, start);
    assert files[1..] == FilesFor(run, names, printable);
    DiffLinesAreOneLiners(files);
    ChangedLinesReadsDiffs(files);
    assert map[][PLACEHOLDER := [Range(1, 1)]] == start;
    assert NonEmpty(run, names) == map name | name in run && run[name] != [] :: run[name];
  }
}
