/** What decideMutation answers (runner/mutation.go), over the mutations of its report. */
module MutationAnswers {
  import opened Options
  import opened Order
  import opened GitDiff
  import opened LineRanges
  import opened MutationEntries
  import opened MutationVerdict
  import opened MutationLaws

  // ---- Counting mutations of a report ----

  type Wanted = (string, Mutation) -> bool

  function InFile(file: string, mutations: seq<Mutation>, wanted: Wanted): nat
    decreases |mutations|
  {
    if mutations == [] then 0
    else
      var last := mutations[|mutations| - 1];
      InFile(file, mutations[..|mutations| - 1], wanted) + if wanted(file, last) then 1 else 0
  }

  /** How many mutations of the report are wanted. */
  function Times(files: seq<MutatedFile>, wanted: Wanted): nat
    decreases |files|
  {
    if files == [] then 0
    else
      var last := files[|files| - 1];
      Times(files[..|files| - 1], wanted) + InFile(last.name, last.mutations, wanted)
  }

  function WithStatus(status: Status): Wanted {
    (file: string, m: Mutation) => m.status == status
  }

  /** The mutations that are this mutant, with this status. */
  function ThisOne(mutant: Mutant, status: Status): Wanted {
    (file: string, m: Mutation) =>
      m.status == status && mutant == Mutant(file, m.line, m.column, m.kind)
  }

  // ---- What becomes of a survivor ----

  /** Some file of the report holds a survivor that the entry matches, on another line. */
  ghost predicate FitsElsewhere(files: seq<MutatedFile>, index: Index, e: Entry, line: int) {
    exists f, m :: f in files && m in f.mutations && m.status == Lived && index.Matches(e, MutantOf(f.name, m)) && m.line != line
  }

  /** An entry matches it, and no survivor on any other line. */
  ghost predicate IsAccepted(files: seq<MutatedFile>, input: Input, m: Mutant) {
    exists e :: e in input.accepted && input.index.Matches(e, m) && !FitsElsewhere(files, input.index, e, m.line)
  }

  datatype Fate = Accepted | Untouched | Reported

  ghost function FateOf(files: seq<MutatedFile>, input: Input, m: Mutant): Fate {
    if IsAccepted(files, input, m) then Accepted
    else if OnLines(input.lines, m) then Reported
    else Untouched
  }

  /** The survivors that meet this fate. */
  ghost function LivedTo(files: seq<MutatedFile>, input: Input, fate: Fate): Wanted {
    (file: string, m: Mutation) => m.status == Lived && FateOf(files, input, MutantOf(file, m)) == fate
  }

  // ---- Counting in the flattened report ----

  function CountJ(js: seq<Judged>, p: Judged -> bool): nat
    decreases |js|
  {
    if js == [] then 0 else CountJ(js[..|js| - 1], p) + if p(js[|js| - 1]) then 1 else 0
  }

  lemma {:induction false} CountAppends(a: seq<Judged>, b: seq<Judged>, p: Judged -> bool)
    ensures CountJ(a + b, p) == CountJ(a, p) + CountJ(b, p)
    decreases |b|
  {
    if b == [] {
      assert a + b == a;
    } else {
      CountAppends(a, b[..|b| - 1], p);
      assert (a + b)[..|a + b| - 1] == a + b[..|b| - 1];
    }
  }

  lemma {:induction false} FileIsCounted(file: string, mutations: seq<Mutation>, wanted: Wanted, p: Judged -> bool)
    requires forall m :: wanted(file, m) <==> p(Judged(MutantOf(file, m), m.status))
    ensures InFile(file, mutations, wanted) == CountJ(FileJudged(file, mutations), p)
    decreases |mutations|
  {
    if mutations != [] {
      var before, last := mutations[..|mutations| - 1], mutations[|mutations| - 1];
      FileIsCounted(file, before, wanted, p);
      var j := Judged(MutantOf(file, last), last.status);
      assert FileJudged(file, mutations) == FileJudged(file, before) + [j];
      CountAppends(FileJudged(file, before), [j], p);
    }
  }

  lemma {:induction false} ReportIsCounted(files: seq<MutatedFile>, wanted: Wanted, p: Judged -> bool)
    requires forall file, m :: wanted(file, m) <==> p(Judged(MutantOf(file, m), m.status))
    ensures Times(files, wanted) == CountJ(AllJudged(files), p)
    decreases |files|
  {
    if files != [] {
      var before, last := files[..|files| - 1], files[|files| - 1];
      ReportIsCounted(before, wanted, p);
      FileIsCounted(last.name, last.mutations, wanted, p);
      CountAppends(AllJudged(before), FileJudged(last.name, last.mutations), p);
    }
  }

  lemma {:induction false} HavingIsCounted(js: seq<Judged>, status: Status)
    ensures |Having(js, status)| == CountJ(js, (j: Judged) => j.status == status)
    decreases |js|
  {
    if js != [] {
      HavingIsCounted(js[..|js| - 1], status);
    }
  }

  lemma {:induction false} OneIsCounted(js: seq<Judged>, j: Judged)
    ensures multiset(js)[j] == CountJ(js, (x: Judged) => x == j)
    decreases |js|
  {
    if js != [] {
      OneIsCounted(js[..|js| - 1], j);
      assert js == js[..|js| - 1] + [js[|js| - 1]];
    }
  }

  lemma StatusIsCounted(files: seq<MutatedFile>, status: Status)
    ensures |Having(AllJudged(files), status)| == Times(files, WithStatus(status))
  {
    HavingIsCounted(AllJudged(files), status);
    ReportIsCounted(files, WithStatus(status), (j: Judged) => j.status == status);
  }

  lemma MutantIsCounted(files: seq<MutatedFile>, m: Mutant, status: Status)
    ensures multiset(Having(AllJudged(files), status))[m] == Times(files, ThisOne(m, status))
  {
    HavingCounts(AllJudged(files), status, m);
    OneIsCounted(AllJudged(files), Judged(m, status));
    ReportIsCounted(files, ThisOne(m, status), (j: Judged) => j == Judged(m, status));
  }

  /** A flattened report holds its mutations and nothing else. */
  lemma {:induction false} InReport(files: seq<MutatedFile>, j: Judged)
    ensures j in AllJudged(files) <==> exists f, m :: f in files && m in f.mutations && j == Judged(MutantOf(f.name, m), m.status)
    decreases |files|
  {
    if files != [] {
      var before, last := files[..|files| - 1], files[|files| - 1];
      InReport(before, j);
      InJudgedFile(last.name, last.mutations, j);
      assert files == before + [last];
    }
  }

  lemma {:induction false} InJudgedFile(file: string, mutations: seq<Mutation>, j: Judged)
    ensures j in FileJudged(file, mutations) <==> exists m :: m in mutations && j == Judged(MutantOf(file, m), m.status)
    decreases |mutations|
  {
    if mutations != [] {
      var before, last := mutations[..|mutations| - 1], mutations[|mutations| - 1];
      InJudgedFile(file, before, j);
      assert mutations == before + [last];
    }
  }

  // ---- Acceptance ----

  /** The lines an entry fits are one exactly when it fits this survivor and none elsewhere. */
  lemma OneLineExactlyWhen(files: seq<MutatedFile>, index: Index, e: Entry, trusted: bool, m: Mutant)
    requires Judged(m, Lived) in AllJudged(files) && index.Matches(e, m)
    ensures |MatchOf(AllJudged(files), index, e, trusted).survivors| == 1 <==> !FitsElsewhere(files, index, e, m.line)
  {
    hide Index.Matches;
    hide MatchOf;
    var js := AllJudged(files);
    hide AllJudged;
    var lines := MatchOf(js, index, e, trusted).survivors;
    MatchLines(js, index, e, trusted);
    assert HasSurvivor(js, index, e, m.line);
    assert m.line in lines;
    if f, x :| f in files && x in f.mutations && x.status == Lived && index.Matches(e, MutantOf(f.name, x)) && x.line != m.line {
      InReport(files, Judged(MutantOf(f.name, x), x.status));
      assert HasSurvivor(js, index, e, x.line);
      assert x.line in lines;
    } else {
      forall line | line in lines ensures line == m.line {
        var j :| j in js && j.status == Lived && index.Matches(e, j.mutant) && j.mutant.line == line;
        InReport(files, j);
      }
    }
    OneLine(lines, m.line);
  }

  lemma OneLine(lines: seq<int>, line: int)
    requires Strict(lines, IntLe()) && line in lines
    ensures |lines| == 1 <==> forall other :: other in lines ==> other == line
  {
    if |lines| > 1 {
      assert lines[0] in lines && lines[1] in lines && lines[0] != lines[1];
    }
  }

  lemma AcceptsExactlyWhen(run: Run, input: Input, m: Mutant)
    requires run.report.Some? && Judged(m, Lived) in AllJudged(run.report.value)
    ensures Accepts(input, MatchesOf(run, input), m) <==> IsAccepted(run.report.value, input, m)
  {
    hide Index.Matches;
    hide MatchOf;
    hide AllJudged;
    hide FitsElsewhere;
    var files, matches := run.report.value, MatchesOf(run, input);
    forall i | 0 <= i < |matches| && input.index.Matches(input.accepted[i], m)
      ensures |matches[i].survivors| == 1 <==> !FitsElsewhere(files, input.index, input.accepted[i], m.line)
    {
      OneLineExactlyWhen(files, input.index, input.accepted[i], run.Trusted(), m);
    }
  }

  // ---- What the loop over the survivors gathers ----

  function CountM(ms: seq<Mutant>, q: Mutant -> bool): nat
    decreases |ms|
  {
    if ms == [] then 0 else CountM(ms[..|ms| - 1], q) + if q(ms[|ms| - 1]) then 1 else 0
  }

  function Only(q: Mutant -> bool): Mutant -> seq<Mutant> {
    (m: Mutant) => if q(m) then [m] else []
  }

  lemma {:induction false} OnlyIsCounted(ms: seq<Mutant>, q: Mutant -> bool)
    ensures CountM(ms, q) == |Flatten(ms, Only(q))|
    decreases |ms|
  {
    if ms != [] {
      OnlyIsCounted(ms[..|ms| - 1], q);
    }
  }

  lemma CountMForgets(a: seq<Mutant>, b: seq<Mutant>, q: Mutant -> bool)
    requires multiset(a) == multiset(b)
    ensures CountM(a, q) == CountM(b, q)
  {
    OnlyIsCounted(a, q);
    OnlyIsCounted(b, q);
    FlattenForgets(a, b, Only(q));
    assert |multiset(Flatten(a, Only(q)))| == |multiset(Flatten(b, Only(q)))|;
  }

  lemma {:induction false} HavingThatIsCounted(js: seq<Judged>, status: Status, q: Mutant -> bool, p: Judged -> bool)
    requires forall j :: p(j) <==> j.status == status && q(j.mutant)
    ensures CountM(Having(js, status), q) == CountJ(js, p)
    decreases |js|
  {
    if js != [] {
      var before, last := js[..|js| - 1], js[|js| - 1];
      HavingThatIsCounted(before, status, q, p);
      if last.status == status {
        assert Having(js, status)[..|Having(before, status)|] == Having(before, status);
      } else {
        assert Having(js, status) == Having(before, status);
      }
    }
  }

  lemma {:induction false} GatherCounts(input: Input, matches: seq<EntryMatch>, survivors: seq<Mutant>, files: seq<MutatedFile>)
    requires |matches| == |input.accepted|
    requires forall m :: m in survivors ==> (Accepts(input, matches, m) <==> IsAccepted(files, input, m))
    ensures var g := Gather(input, matches, survivors);
            && g.accepted == CountM(survivors, (m: Mutant) => FateOf(files, input, m) == Accepted)
            && |g.untouched| == CountM(survivors, (m: Mutant) => FateOf(files, input, m) == Untouched)
            && |g.findings| == CountM(survivors, (m: Mutant) => FateOf(files, input, m) == Reported)
    decreases |survivors|
  {
    hide Accepts;
    hide IsAccepted;
    hide OnLines;
    if survivors != [] {
      var before, last := survivors[..|survivors| - 1], survivors[|survivors| - 1];
      assert last in survivors;
      GatherCounts(input, matches, before, files);
    }
  }

  lemma {:induction false} GatherLists(input: Input, matches: seq<EntryMatch>, survivors: seq<Mutant>, files: seq<MutatedFile>, m: Mutant)
    requires |matches| == |input.accepted|
    requires forall m :: m in survivors ==> (Accepts(input, matches, m) <==> IsAccepted(files, input, m))
    ensures multiset(Gather(input, matches, survivors).untouched)[m]
         == if FateOf(files, input, m) == Untouched then multiset(survivors)[m] else 0
    decreases |survivors|
  {
    hide Accepts;
    hide IsAccepted;
    hide OnLines;
    if survivors != [] {
      var before, last := survivors[..|survivors| - 1], survivors[|survivors| - 1];
      assert last in survivors && survivors == before + [last];
      GatherLists(input, matches, before, files, m);
      OneMoreOf(before, last, m);
      OneMoreOf(Gather(input, matches, before).untouched, last, m);
    }
  }

  lemma SurvivorsAgree(run: Run, input: Input)
    requires run.report.Some?
    ensures var lived := SortedMutants(Having(AllJudged(run.report.value), Lived));
            forall m :: m in lived ==> (Accepts(input, MatchesOf(run, input), m) <==> IsAccepted(run.report.value, input, m))
  {
    hide AllJudged;
    hide MatchesOf;
    hide Accepts;
    hide IsAccepted;
    hide SortedMutants;
    var js := AllJudged(run.report.value);
    SortedKeeps(Having(js, Lived));
    forall m | m in Having(js, Lived) ensures Accepts(input, MatchesOf(run, input), m) <==> IsAccepted(run.report.value, input, m) {
      HavingHolds(js, Lived, m);
      AcceptsExactlyWhen(run, input, m);
    }
  }

  lemma SortedSame(ms: seq<Mutant>)
    ensures multiset(SortedMutants(ms)) == multiset(ms) && Sorted(SortedMutants(ms), MutantLe)
  {
    MutantsAreTotal();
    SortSorts(ms, MutantLe);
  }

  lemma FateIsCounted(files: seq<MutatedFile>, input: Input, fate: Fate)
    ensures CountM(SortedMutants(Having(AllJudged(files), Lived)), (m: Mutant) => FateOf(files, input, m) == fate)
         == Times(files, LivedTo(files, input, fate))
  {
    hide FateOf;
    hide AllJudged;
    hide SortedMutants;
    var js := AllJudged(files);
    var q := (m: Mutant) => FateOf(files, input, m) == fate;
    var p := (j: Judged) => j.status == Lived && FateOf(files, input, j.mutant) == fate;
    SortedSame(Having(js, Lived));
    CountMForgets(SortedMutants(Having(js, Lived)), Having(js, Lived), q);
    HavingThatIsCounted(js, Lived, q, p);
    ReportIsCounted(files, LivedTo(files, input, fate), p);
  }

  // ---- The summary ----

  /** Each of a judged run's counts is the number of mutations it is named for: by status, and for
      survivors by whether an entry accepts them and whether the change wrote their line. */
  lemma CountsByStatus(run: Run, input: Input)
    requires Judges(run, input)
    ensures var s, files := VerdictOf(run, input).summary, run.report.value;
            && s.killed == Times(files, WithStatus(Killed))
            && s.notCovered == Times(files, WithStatus(NotCovered))
            && s.timedOut == Times(files, WithStatus(TimedOut))
            && s.notViable == Times(files, WithStatus(NotViable))
            && s.skipped == Times(files, WithStatus(Skipped))
            && s.lived == Times(files, LivedTo(files, input, Reported))
            && s.untouched == Times(files, LivedTo(files, input, Untouched))
            && s.accepted == Times(files, LivedTo(files, input, Accepted))
  {
    hide AllJudged;
    hide Having;
    hide Times;
    hide LivedTo;
    hide Gather;
    hide SortedMutants;
    hide WarningsFor;
    hide EntryFindings;
    hide FateOf;
    hide CountM;
    hide Accepts;
    hide IsAccepted;
    var files := run.report.value;
    StatusIsCounted(files, Killed);
    StatusIsCounted(files, NotCovered);
    StatusIsCounted(files, TimedOut);
    StatusIsCounted(files, NotViable);
    StatusIsCounted(files, Skipped);
    SurvivorsAgree(run, input);
    GatherCounts(input, MatchesOf(run, input), SortedMutants(Having(AllJudged(files), Lived)), files);
    FateIsCounted(files, input, Reported);
    FateIsCounted(files, input, Untouched);
    FateIsCounted(files, input, Accepted);
  }

  /** Its lists hold, in order, each mutant as often as the report does: those not covered, those
      that timed out, and the survivors on lines the change did not write that no entry accepts. */
  lemma ListsByStatus(run: Run, input: Input, m: Mutant)
    requires Judges(run, input)
    ensures var s, files := VerdictOf(run, input).summary, run.report.value;
            && Sorted(s.uncovered, MutantLe) && multiset(s.uncovered)[m] == Times(files, ThisOne(m, NotCovered))
            && Sorted(s.timedOutMutants, MutantLe) && multiset(s.timedOutMutants)[m] == Times(files, ThisOne(m, TimedOut))
            && Sorted(s.untouchedList, MutantLe)
            && multiset(s.untouchedList)[m]
               == if FateOf(files, input, m) == Untouched then Times(files, ThisOne(m, Lived)) else 0
  {
    hide AllJudged;
    hide Having;
    hide Times;
    hide ThisOne;
    hide Gather;
    hide SortedMutants;
    hide WarningsFor;
    hide EntryFindings;
    hide FateOf;
    hide MutantLe;
    hide Sorted;
    hide Accepts;
    hide IsAccepted;
    var files, js := run.report.value, AllJudged(run.report.value);
    var g := Gather(input, MatchesOf(run, input), SortedMutants(Having(js, Lived)));
    SortedSame(Having(js, NotCovered));
    SortedSame(Having(js, TimedOut));
    SortedSame(Having(js, Lived));
    SortedSame(g.untouched);
    MutantIsCounted(files, m, NotCovered);
    MutantIsCounted(files, m, TimedOut);
    MutantIsCounted(files, m, Lived);
    SurvivorsAgree(run, input);
    GatherLists(input, MatchesOf(run, input), SortedMutants(Having(js, Lived)), files, m);
  }

  /** A survivor is reported exactly when the change wrote its line and no entry accepts it, where
      an entry accepts what it matches only if all of that is on one line. */
  lemma ReportedExactlyWhen(run: Run, input: Input, m: Mutant)
    requires Judges(run, input)
    ensures Survivor(m) in VerdictOf(run, input).findings
       <==> Times(run.report.value, ThisOne(m, Lived)) > 0 && FateOf(run.report.value, input, m) == Reported
  {
    hide AllJudged;
    hide VerdictOf;
    hide Having;
    hide Times;
    hide ThisOne;
    hide OnLines;
    hide IsAccepted;
    hide Accepts;
    var files, js := run.report.value, AllJudged(run.report.value);
    SurvivorsFound(run, input, m);
    MutantIsCounted(files, m, Lived);
    HavingHolds(js, Lived, m);
    assert m in Having(js, Lived) <==> m in multiset(Having(js, Lived));
    if Judged(m, Lived) in js {
      AcceptsExactlyWhen(run, input, m);
    }
  }

  lemma {:induction false} GatherSorted(input: Input, matches: seq<EntryMatch>, survivors: seq<Mutant>)
    requires |matches| == |input.accepted| && Sorted(survivors, MutantLe)
    ensures SurvivorsInOrder(Gather(input, matches, survivors).findings, survivors)
    decreases |survivors|
  {
    hide Accepts;
    hide OnLines;
    hide MutantLe;
    if survivors != [] {
      var before, last := survivors[..|survivors| - 1], survivors[|survivors| - 1];
      GatherSorted(input, matches, before);
      forall m | m in before ensures MutantLe(m, last) {
        var i :| 0 <= i < |before| && before[i] == m;
        assert survivors[i] == m;
      }
      assert forall m :: m in before ==> m in survivors;
      assert last in survivors;
    }
  }

  /** The findings are survivors of these, in the order of their place. */
  ghost predicate SurvivorsInOrder(findings: seq<Finding>, survivors: seq<Mutant>) {
    && (forall i :: 0 <= i < |findings| ==> findings[i].Survivor? && findings[i].mutant in survivors)
    && (forall i, j :: 0 <= i < j < |findings| ==> MutantLe(findings[i].mutant, findings[j].mutant))
  }

  /** The reported survivors come first, as many as the summary counts, in the order of their place. */
  lemma SurvivorsComeFirst(run: Run, input: Input, i: nat, j: nat)
    requires Judges(run, input) && i < j < VerdictOf(run, input).summary.lived
    ensures var findings := VerdictOf(run, input).findings;
            && j < |findings| && findings[i].Survivor? && findings[j].Survivor?
            && MutantLe(findings[i].mutant, findings[j].mutant)
  {
    hide AllJudged;
    hide Having;
    hide SortedMutants;
    hide WarningsFor;
    hide EntryFindings;
    hide Gather;
    hide MutantLe;
    hide Sorted;
    hide Timeouts;
    var lived := Having(AllJudged(run.report.value), Lived);
    SortedSame(lived);
    GatherSorted(input, MatchesOf(run, input), SortedMutants(lived));
  }

  predicate Precedes(a: string, b: string) {
    TextLe(a, b) && a != b
  }

  /** The order is of the file, then the line, then the column, then the mutator. */
  lemma PlaceExactlyWhen(a: Mutant, b: Mutant)
    ensures MutantLe(a, b)
       <==> || Precedes(a.file, b.file)
            || (a.file == b.file && a.line < b.line)
            || (a.file == b.file && a.line == b.line && a.column < b.column)
            || (a.file == b.file && a.line == b.line && a.column == b.column && TextLe(a.mutator, b.mutator))
  {
  }

  // ---- What is decided at all ----

  /** A mutant gremlins can have reported: run or skipped by its line, with a status a run ends with. */
  ghost predicate Believable(input: Input, file: string, m: Mutation) {
    && m.status in {Killed, Lived, NotCovered, TimedOut, NotViable, Skipped}
    && (m.status == Skipped <==> !RunsOn(input, file, m.line))
  }

  ghost predicate ReportIsBelievable(input: Input, files: seq<MutatedFile>) {
    forall f :: f in files ==> f.name in input.files && forall m :: m in f.mutations ==> Believable(input, f.name, m)
  }

  lemma RejectedExactlyWhen(input: Input, files: seq<MutatedFile>)
    ensures Rejected(input, files) <==> !ReportIsBelievable(input, files)
  {
    hide AllJudged;
    hide RunsOn;
    forall f, m | f in files && m in f.mutations && f.name in input.files
      ensures Judged(MutantOf(f.name, m), m.status) in AllJudged(files)
      ensures Wrong(input, Judged(MutantOf(f.name, m), m.status)) <==> !Believable(input, f.name, m)
    {
      InReport(files, Judged(MutantOf(f.name, m), m.status));
    }
    if j :| j in AllJudged(files) && Wrong(input, j) {
      InReport(files, j);
    }
  }

  /** A run is decided exactly when gremlins exited cleanly and either wrote a report it can have
      written for these files and lines, or wrote none and said there was nothing to mutate. */
  lemma DecidedExactlyWhen(run: Run, input: Input)
    ensures DecisionOf(run, input).Decided?
       <==> && run.exitCode == 0 && !run.saidError
            && (if run.reported then run.report.Some? && ReportIsBelievable(input, run.report.value) else run.noResults)
    ensures Judges(run, input)
       <==> run.exitCode == 0 && !run.saidError && run.reported && run.report.Some? && ReportIsBelievable(input, run.report.value)
  {
    hide Judge;
    hide Rejected;
    hide ReportIsBelievable;
    if run.report.Some? {
      RejectedExactlyWhen(input, run.report.value);
    }
  }

  /** A line is run when every line is, when one of its file's ranges holds it, when its file has
      none, as an untracked one, or when an accepted entry names it; and it counts as written on the
      same terms but for the entries. */
  lemma LineExactlyWhen(input: Input, m: Mutant)
    ensures OnLines(input.lines, m)
       <==> || input.lines.None? || m.file !in input.lines.value
            || exists r :: r in input.lines.value[m.file] && r.start <= m.line <= r.end
    ensures RunsOn(input, m.file, m.line)
       <==> || input.lines.None?
            || (m.file in input.lines.value && exists r :: r in input.lines.value[m.file] && r.start <= m.line <= r.end)
            || (m.file !in input.lines.value && (m.line == 1 || 1 <= m.line <= |input.index.Lines(m.file)|))
            || (1 <= m.line <= |input.index.Lines(m.file)| && exists e :: e in input.accepted && input.index.Names(e, m.file, m.line))
  {
    hide Index.Names;
    if input.lines.Some? && m.file in input.lines.value {
      InSomeRange(input.lines.value[m.file], m.line);
    }
  }

  lemma InSomeRange(ranges: seq<Range>, line: int)
    ensures OnSome(ranges, line) <==> exists r :: r in ranges && r.start <= line <= r.end
  {
    if r :| r in ranges && r.start <= line <= r.end {
      var i :| 0 <= i < |ranges| && ranges[i] == r;
      assert On(ranges[i], line);
    }
  }

  // ---- What an entry is reported for ----

  /** Some reported mutation of this status is one the entry matches. */
  ghost predicate Fits(files: seq<MutatedFile>, index: Index, e: Entry, status: Status) {
    exists f, m :: f in files && m in f.mutations && m.status == status && index.Matches(e, MutantOf(f.name, m))
  }

  ghost predicate FitsLine(files: seq<MutatedFile>, index: Index, e: Entry, line: int) {
    exists f, m :: f in files && m in f.mutations && m.status == Lived && m.line == line && index.Matches(e, MutantOf(f.name, m))
  }

  /** Gremlins measured its coverage, and each mutant's tests had at least ten seconds. */
  predicate HadTenSeconds(run: Run) {
    run.coverage.Some? && run.coefficient >= 1 && run.coverage.value * run.coefficient >= 10_000_000_000
  }

  predicate Mutated(files: seq<MutatedFile>, file: string) {
    exists f :: f in files && f.name == file
  }

  lemma FitsExactlyWhen(run: Run, input: Input, e: Entry, status: Status)
    requires run.report.Some?
    ensures MatchedHas(run, input, e, status) <==> Fits(run.report.value, input.index, e, status)
  {
    hide AllJudged;
    hide Index.Matches;
    var files := run.report.value;
    if j :| j in AllJudged(files) && input.index.Matches(e, j.mutant) && j.status == status {
      InReport(files, j);
    }
    if f, m :| f in files && m in f.mutations && m.status == status && input.index.Matches(e, MutantOf(f.name, m)) {
      InReport(files, Judged(MutantOf(f.name, m), m.status));
    }
  }

  /** Of a mutated file, an entry is said to match nothing exactly when it fits no mutation, and to
      be caught exactly when it fits some and each was killed, or timed out after ten seconds. */
  lemma EntryIsStaleExactlyWhen(run: Run, input: Input, i: nat)
    requires Judges(run, input) && i < |input.accepted|
    ensures var e, files, findings := input.accepted[i], run.report.value, VerdictOf(run, input).findings;
            && (NoLongerMatches(i) in findings <==> Mutated(files, e.file) && forall status :: !Fits(files, input.index, e, status))
            && (NowCaught(i) in findings
                <==> && Mutated(files, e.file) && (exists status :: Fits(files, input.index, e, status))
                     && forall status :: Fits(files, input.index, e, status) ==> status == Killed || (status == TimedOut && HadTenSeconds(run)))
  {
    hide VerdictOf;
    hide MatchedHas;
    hide Fits;
    StaleExactlyWhen(run, input, i);
    forall status ensures MatchedHas(run, input, input.accepted[i], status) <==> Fits(run.report.value, input.index, input.accepted[i], status) {
      FitsExactlyWhen(run, input, input.accepted[i], status);
    }
  }

  /** It is said to be ambiguous exactly when its survivors are on more than one line: those. */
  lemma AmbiguousExactlyWhen(run: Run, input: Input, i: nat, lines: seq<int>)
    requires Judges(run, input) && i < |input.accepted|
    ensures Ambiguous(i, lines) in VerdictOf(run, input).findings
       <==> && Mutated(run.report.value, input.accepted[i].file) && |lines| > 1
            && (forall a, b :: 0 <= a < b < |lines| ==> lines[a] < lines[b])
            && (forall line :: line in lines <==> FitsLine(run.report.value, input.index, input.accepted[i], line))
  {
    hide VerdictOf;
    hide AllJudged;
    hide FitsLine;
    hide MatchOf;
    var e, files, js, matches := input.accepted[i], run.report.value, AllJudged(run.report.value), MatchesOf(run, input);
    var own := MatchOf(js, input.index, e, run.Trusted()).survivors;
    assert matches[i].survivors == own;
    FindingsSplit(run, input, Ambiguous(i, lines));
    EntriesFind(input, FileNames(files), matches, |matches|, Ambiguous(i, lines));
    MatchLines(js, input.index, e, run.Trusted());
    forall line ensures HasSurvivor(js, input.index, e, line) <==> FitsLine(files, input.index, e, line) {
      SurvivorFitsLine(files, input.index, e, line);
    }
    IntsAreTotal();
    StrictIsAscending(own);
    if (forall a, b :: 0 <= a < b < |lines| ==> lines[a] < lines[b]) && forall line :: line in lines <==> FitsLine(files, input.index, e, line) {
      StrictIsAscending(lines);
      assert forall line :: line in lines <==> line in own;
      StrictUnique(lines, own, (set line | line in own), IntLe());
    }
  }

  lemma StrictIsAscending(lines: seq<int>)
    ensures Strict(lines, IntLe()) <==> forall a, b :: 0 <= a < b < |lines| ==> lines[a] < lines[b]
  {
  }

  lemma SurvivorFitsLine(files: seq<MutatedFile>, index: Index, e: Entry, line: int)
    ensures HasSurvivor(AllJudged(files), index, e, line) <==> FitsLine(files, index, e, line)
  {
    hide AllJudged;
    hide Index.Matches;
    if j :| j in AllJudged(files) && j.status == Lived && index.Matches(e, j.mutant) && j.mutant.line == line {
      InReport(files, j);
    }
    if f, m :| f in files && m in f.mutations && m.status == Lived && m.line == line && index.Matches(e, MutantOf(f.name, m)) {
      InReport(files, Judged(MutantOf(f.name, m), m.status));
    }
  }

  /** An entry that gives a line's text, function and occurrence names that line and no other. */
  lemma DescribedLineIsNamed(index: Index, file: string, line: int, other: int, mutator: string, scoped: bool)
    requires 1 <= line <= |index.Lines(file)| && (scoped ==> index.FunctionAt(file, line) != "")
    ensures var e := Entry(file, mutator, index.Lines(file)[line - 1], if scoped then index.FunctionAt(file, line) else "",
                           index.Occurrence(file, line, scoped));
            && e.occurrence > 0
            && (index.Names(e, file, other) <==> other == line)
  {
    var e := Entry(file, mutator, index.Lines(file)[line - 1], if scoped then index.FunctionAt(file, line) else "",
                   index.Occurrence(file, line, scoped));
    assert index.Counts(file, line, index.LineText(file, line), index.FunctionAt(file, line), scoped);
    assert index.Names(e, file, line);
    if index.Names(e, file, other) {
      OccurrenceNamesOneLine(index, e, file, line, other);
    }
  }

  // ---- Timeouts ----

  /** The mutations of a package's files with one of these statuses. */
  function OfPackage(dir: string, statuses: set<Status>): Wanted {
    (file: string, m: Mutation) => m.status in statuses && Dir(file) == dir
  }

  lemma {:induction false} CountInIsCounted(js: seq<Judged>, status: Status, dir: string)
    ensures CountIn(Having(js, status), dir) == CountJ(js, (j: Judged) => j.status == status && Dir(j.mutant.file) == dir)
    decreases |js|
  {
    hide Dir;
    if js != [] {
      var before, last := js[..|js| - 1], js[|js| - 1];
      CountInIsCounted(before, status, dir);
      if last.status == status {
        CountOneMore(Having(before, status), last.mutant, dir);
      } else {
        assert Having(js, status) == Having(before, status);
      }
    }
  }

  lemma {:induction false} CoveredIsCounted(js: seq<Judged>, dir: string)
    ensures CoveredIn(js, dir) == CountJ(js, (j: Judged) => j.status in {Killed, Lived, TimedOut} && Dir(j.mutant.file) == dir)
    decreases |js|
  {
    hide Dir;
    hide CountIn;
    hide Having;
    if js == [] {
      NothingCovered(dir);
    } else {
      var before, last := js[..|js| - 1], js[|js| - 1];
      CoveredIsCounted(before, dir);
      OneMoreCounted(before, last);
      assert js == before + [last];
    }
  }

  lemma NothingCovered(dir: string)
    ensures CoveredIn([], dir) == 0
  {
  }

  lemma PackageIsCounted(files: seq<MutatedFile>, dir: string)
    ensures CountIn(Having(AllJudged(files), TimedOut), dir) == Times(files, OfPackage(dir, {TimedOut}))
    ensures CoveredIn(AllJudged(files), dir) == Times(files, OfPackage(dir, {Killed, Lived, TimedOut}))
  {
    hide Dir;
    CountInIsCounted(AllJudged(files), TimedOut, dir);
    CoveredIsCounted(AllJudged(files), dir);
    ReportIsCounted(files, OfPackage(dir, {TimedOut}), (j: Judged) => j.status == TimedOut && Dir(j.mutant.file) == dir);
    ReportIsCounted(files, OfPackage(dir, {Killed, Lived, TimedOut}),
                    (j: Judged) => j.status in {Killed, Lived, TimedOut} && Dir(j.mutant.file) == dir);
  }

  /** A run is incomplete exactly when a mutation timed out without ten seconds, or three or more
      did and none was killed or lived; a complete one warns of exactly the packages where at least
      two, and at least half of what was covered, timed out. */
  lemma TimeoutsDecideExactlyWhen(run: Run, input: Input, w: Warning)
    requires Judges(run, input)
    ensures var files, v := run.report.value, VerdictOf(run, input);
            && (v.incomplete
                <==> || (Times(files, WithStatus(TimedOut)) > 0 && !HadTenSeconds(run))
                     || (Times(files, WithStatus(TimedOut)) >= 3
                         && Times(files, WithStatus(Killed)) == 0 && Times(files, WithStatus(Lived)) == 0))
            && (w in v.summary.warnings
                <==> && !v.incomplete
                     && w.timedOut == Times(files, OfPackage(w.dir, {TimedOut}))
                     && w.covered == Times(files, OfPackage(w.dir, {Killed, Lived, TimedOut}))
                     && w.timedOut >= 2 && 2 * w.timedOut >= w.covered)
  {
    hide AllJudged;
    hide VerdictOf;
    hide Having;
    hide Times;
    hide CountIn;
    hide CoveredIn;
    var files := run.report.value;
    IncompleteExactlyWhen(run, input);
    WarnedExactlyWhen(run, input, w);
    PackageIsCounted(files, w.dir);
    StatusIsCounted(files, TimedOut);
    StatusIsCounted(files, Killed);
    StatusIsCounted(files, Lived);
    NoneHave(AllJudged(files), Killed);
    NoneHave(AllJudged(files), Lived);
  }

  /** path.Dir of a file, directly below a directory or at the root. */
  lemma {:induction false} DirOfFile(dir: string, name: string)
    requires '/' !in name
    ensures Dir(dir + "/" + name) == dir && Dir(name) == "."
    decreases |name|
  {
    if name != "" {
      var before := name[..|name| - 1];
      DirOfFile(dir, before);
      var path := dir + "/" + name;
      assert path[..|path| - 1] == dir + "/" + before;
      assert name[|name| - 1] in name && path[|path| - 1] == name[|name| - 1];
    } else {
      assert (dir + "/")[..|dir|] == dir;
      assert dir + "/" + name == dir + "/";
    }
  }
}
