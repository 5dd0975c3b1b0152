/**
  What an accepted-survivor entry means (runner/mutation.go): which lines it names, by text,
  function and occurrence, and the lines a run mutates because of it.
 */
module MutationEntries {
  import opened Options
  import opened Text
  import opened GitDiff
  import opened LineRanges

  datatype Mutant = Mutant(file: string, line: int, column: int, mutator: string)

  /** acceptedEntry: `within` is its function, and 0 or "" leave a field unused. */
  datatype Entry = Entry(file: string, mutator: string, line: string, within: string, occurrence: int)

  /** sourceIndex: each file's lines, and the function around each. */
  datatype Index = Index(sources: map<string, seq<string>>, functions: map<string, seq<string>>) {
    function Lines(file: string): seq<string> {
      if file in sources then sources[file] else []
    }

    /** sourceLine: the line's trimmed text, or nothing outside the file. */
    function LineText(file: string, line: int): string {
      if 1 <= line <= |Lines(file)| then TrimSpace(Lines(file)[line - 1]) else ""
    }

    function FunctionAt(file: string, line: int): string {
      var names := if file in functions then functions[file] else [];
      if 1 <= line <= |names| then names[line - 1] else ""
    }

    /** Whether `other` counts towards an occurrence of this text. */
    predicate Counts(file: string, other: int, text: string, within: string, scoped: bool) {
      LineText(file, other) == text && (!scoped || FunctionAt(file, other) == within)
    }

    /** The lines from 1 to `last` that count. */
    function CountUpTo(file: string, last: int, text: string, within: string, scoped: bool): nat
      decreases if last < 0 then 0 else last
    {
      if last < 1 then 0
      else CountUpTo(file, last - 1, text, within, scoped) + if Counts(file, last, text, within, scoped) then 1 else 0
    }

    function Occurrence(file: string, line: int, scoped: bool): nat {
      CountUpTo(file, line, LineText(file, line), FunctionAt(file, line), scoped)
    }

    /** sourceIndex.names. */
    predicate Names(e: Entry, file: string, line: int) {
      && e.file == file && TrimSpace(e.line) == LineText(file, line)
      && (e.within == "" || FunctionAt(file, line) == e.within)
      && (e.occurrence == 0 || Occurrence(file, line, e.within != "") == e.occurrence)
    }

    predicate Matches(e: Entry, m: Mutant) {
      e.mutator == m.mutator && Names(e, m.file, m.line)
    }

    /** sourceIndex.occurrence, as its loop counts. */
    method CountOccurrence(file: string, line: int, scoped: bool) returns (count: nat)
      ensures count == Occurrence(file, line, scoped)
    {
      var text, within := LineText(file, line), FunctionAt(file, line);
      count := 0;
      var other := 1;
      while other <= line
        invariant 1 <= other && (other <= line + 1 || other == 1)
        invariant count == CountUpTo(file, other - 1, text, within, scoped)
      {
        if LineText(file, other) == text && (!scoped || FunctionAt(file, other) == within) {
          count := count + 1;
        }
        other := other + 1;
      }
    }
  }

  lemma {:induction false} CountGrows(index: Index, file: string, a: int, b: int, text: string, within: string, scoped: bool)
    requires a <= b
    ensures index.CountUpTo(file, a, text, within, scoped) <= index.CountUpTo(file, b, text, within, scoped)
    decreases b - a
  {
    if a < b {
      CountGrows(index, file, a, b - 1, text, within, scoped);
    }
  }

  /** An entry with an occurrence names at most one line of a file. */
  lemma OccurrenceNamesOneLine(index: Index, e: Entry, file: string, a: int, b: int)
    requires e.occurrence > 0 && index.Names(e, file, a) && index.Names(e, file, b)
    ensures a == b
  {
    var lower, upper := if a < b then a else b, if a < b then b else a;
    var text, within, scoped := index.LineText(file, upper), index.FunctionAt(file, upper), e.within != "";
    if lower < upper {
      CountGrows(index, file, lower, upper - 1, text, within, scoped);
      SameCount(index, file, lower, lower, upper, scoped);
    }
  }

  lemma {:induction false} SameCount(index: Index, file: string, last: int, a: int, b: int, scoped: bool)
    requires index.LineText(file, a) == index.LineText(file, b)
    requires scoped ==> index.FunctionAt(file, a) == index.FunctionAt(file, b)
    ensures index.CountUpTo(file, last, index.LineText(file, a), index.FunctionAt(file, a), scoped)
         == index.CountUpTo(file, last, index.LineText(file, b), index.FunctionAt(file, b), scoped)
    decreases if last < 0 then 0 else last
  {
    if last >= 1 {
      SameCount(index, file, last - 1, a, b, scoped);
    }
  }

  // ---- The lines a run mutates ----

  /** mutationInput, as far as the verdict depends on it; no `lines` counts every line. */
  datatype Input = Input(files: seq<string>, lines: Option<map<string, seq<Range>>>, index: Index, accepted: seq<Entry>)

  /** onLines. */
  predicate OnLines(lines: Option<map<string, seq<Range>>>, m: Mutant) {
    lines.None? || m.file !in lines.value || OnSome(lines.value[m.file], m.line)
  }

  /** A line some accepted entry names. */
  ghost predicate Named(input: Input, file: string, line: int) {
    && 1 <= line <= |input.index.Lines(file)|
    && exists e :: e in input.accepted && input.index.Names(e, file, line)
  }

  /** A line that counts as changed: one in the file's ranges, or any line of a file without
      ranges, an untracked one. */
  predicate ChangedLine(input: Input, file: string, line: int)
    requires input.lines.Some?
  {
    if file in input.lines.value then OnSome(input.lines.value[file], line)
    else 1 <= line <= (if |input.index.Lines(file)| > 1 then |input.index.Lines(file)| else 1)
  }

  /** What mutatedLines promises of a file it was asked about. */
  ghost predicate RunsOn(input: Input, file: string, line: int) {
    input.lines.None? || ChangedLine(input, file, line) || Named(input, file, line)
  }

  /** A file's ranges: its own, then one for each line an entry names. */
  method FileRanges(input: Input, file: string) returns (ranges: seq<Range>)
    requires input.lines.Some?
    ensures forall line :: OnSome(ranges, line) <==> RunsOn(input, file, line)
    ensures (file in input.lines.value ==> Proper(input.lines.value[file])) ==> Proper(ranges)
  {
    var lines := input.index.Lines(file);
    if file in input.lines.value {
      ranges := input.lines.value[file];
    } else {
      ranges := [Range(1, if |lines| > 1 then |lines| else 1)];
      assert forall line :: OnSome(ranges, line) <==> On(ranges[0], line);
    }
    ghost var proper := file in input.lines.value ==> Proper(input.lines.value[file]);
    for i := 0 to |input.accepted|
      invariant proper ==> Proper(ranges)
      invariant forall line :: OnSome(ranges, line) <==>
        ChangedLine(input, file, line)
        || (1 <= line <= |lines| && exists e :: e in input.accepted[..i] && input.index.Names(e, file, line))
    {
      var e := input.accepted[i];
      assert input.accepted[..i + 1] == input.accepted[..i] + [e];
      if e.file == file {
        ghost var before := ranges;
        for n := 1 to |lines| + 1
          invariant proper ==> Proper(ranges)
          invariant forall line :: OnSome(ranges, line) <==> OnSome(before, line) || (1 <= line < n && input.index.Names(e, file, line))
        {
          if input.index.Names(e, file, n) {
            forall line ensures OnSome(ranges + [Range(n, n)], line) <==> OnSome(ranges, line) || line == n {
              AddedLine(ranges, Range(n, n), line);
            }
            ranges := ranges + [Range(n, n)];
          }
        }
      }
    }
    assert input.accepted[..|input.accepted|] == input.accepted;
  }

  /** mutatedLines: for every selected file, exactly its changed lines and the lines accepted
      entries name, in separated ranges; without `lines`, everything. */
  method MutatedLines(input: Input) returns (run: Option<map<string, seq<Range>>>)
    ensures run.None? <==> input.lines.None?
    ensures run.Some? ==> forall file :: file in run.value <==> file in input.files
    ensures run.Some? ==> forall file, line :: file in run.value ==> (OnSome(run.value[file], line) <==> RunsOn(input, file, line))
    ensures run.Some? && (forall file :: file in input.lines.value ==> Proper(input.lines.value[file])) ==>
              forall file :: file in run.value ==> Separated(run.value[file])
  {
    if input.lines.None? {
      return None;
    }
    ghost var proper := forall file :: file in input.lines.value ==> Proper(input.lines.value[file]);
    var ranges: map<string, seq<Range>> := map[];
    for i := 0 to |input.files|
      invariant forall file :: file in ranges <==> file in input.files[..i]
      invariant forall file, line :: file in ranges ==> (OnSome(ranges[file], line) <==> RunsOn(input, file, line))
      invariant proper ==> forall file :: file in ranges ==> Separated(ranges[file])
    {
      var file := input.files[i];
      assert input.files[..i + 1] == input.files[..i] + [file];
      var gathered := FileRanges(input, file);
      var merged := MergeRanges(gathered);
      ranges := ranges[file := merged];
    }
    assert input.files[..|input.files|] == input.files;
    run := Some(ranges);
  }
}
