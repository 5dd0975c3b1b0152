/**
  decideMutation (runner/mutation.go): the only place a mutation run's outcome is decided.
  Messages are values rather than formatted text; gremlins' report is already decoded.
 */
module MutationVerdict {
  import opened Options
  import opened GitDiff
  import opened LineRanges
  import opened MutationEntries
  import opened Order

  datatype Status = Killed | Lived | NotCovered | TimedOut | NotViable | Skipped | Runnable | Other(text: string)

  datatype Mutation = Mutation(kind: string, status: Status, line: int, column: int)

  datatype MutatedFile = MutatedFile(name: string, mutations: seq<Mutation>)

  /** A mutant and what gremlins reports of it. */
  datatype Judged = Judged(mutant: Mutant, status: Status)

  /** One gremlins run: its exit code, whether it printed an error, whether it wrote a report or
      says it has none, the report, and what gives each mutant's time limit, in nanoseconds. */
  datatype Run = Run(exitCode: int, saidError: bool, reported: bool, noResults: bool, report: Option<seq<MutatedFile>>,
                     coverage: Option<int>, coefficient: int)
  {
    function Limit(): Option<int> {
      if coverage.None? || coefficient < 1 then None else Some(coverage.value * coefficient)
    }

    predicate Trusted() {
      Limit().Some? && Limit().value >= MUTANT_TIME_FLOOR
    }
  }

  const MUTANT_TIME_FLOOR: int := 10_000_000_000
  const MIN_TIMEOUTS_FOR_INCOMPLETE := 3
  const MIN_TIMEOUTS_FOR_WARNING := 2

  datatype Warning = Warning(dir: string, timedOut: nat, covered: nat)

  datatype Summary = Summary(killed: nat, lived: nat, untouched: nat, accepted: nat, notCovered: nat, timedOut: nat,
                             notViable: nat, skipped: nat, uncovered: seq<Mutant>, untouchedList: seq<Mutant>,
                             timedOutMutants: seq<Mutant>, warnings: seq<Warning>)

  datatype Why = LikeEveryOther | Unreported | Short(limit: int)

  datatype Finding =
    | Survivor(mutant: Mutant)
    | Ambiguous(entry: nat, lines: seq<int>)
    | NowCaught(entry: nat)
    | NoLongerMatches(entry: nat)
    | Timeout(mutant: Mutant, why: Why)

  datatype Verdict = Verdict(findings: seq<Finding>, incomplete: bool, summary: Summary)

  datatype Decision = Failed | Decided(verdict: Verdict)

  // ---- The report, flattened ----

  function MutantOf(file: string, m: Mutation): Mutant {
    Mutant(file, m.line, m.column, m.kind)
  }

  function FileJudged(file: string, mutations: seq<Mutation>): seq<Judged>
    decreases |mutations|
  {
    if mutations == [] then []
    else
      var last := mutations[|mutations| - 1];
      FileJudged(file, mutations[..|mutations| - 1]) + [Judged(MutantOf(file, last), last.status)]
  }

  function AllJudged(files: seq<MutatedFile>): seq<Judged>
    decreases |files|
  {
    if files == [] then []
    else
      var last := files[|files| - 1];
      AllJudged(files[..|files| - 1]) + FileJudged(last.name, last.mutations)
  }

  function FileNames(files: seq<MutatedFile>): set<string> {
    set f | f in files :: f.name
  }

  /** The mutants with one status, in report order. */
  function Having(js: seq<Judged>, status: Status): seq<Mutant>
    decreases |js|
  {
    if js == [] then []
    else
      var last := js[|js| - 1];
      Having(js[..|js| - 1], status) + if last.status == status then [last.mutant] else []
  }

  /** path.Dir of a clean relative path. */
  function Dir(path: string): string
    decreases |path|
  {
    if path == "" then "."
    else if path[|path| - 1] == '/' then path[..|path| - 1]
    else Dir(path[..|path| - 1])
  }

  function CountIn(ms: seq<Mutant>, dir: string): nat
    decreases |ms|
  {
    if ms == [] then 0
    else CountIn(ms[..|ms| - 1], dir) + if Dir(ms[|ms| - 1].file) == dir then 1 else 0
  }

  function CoveredIn(js: seq<Judged>, dir: string): nat {
    CountIn(Having(js, Killed), dir) + CountIn(Having(js, Lived), dir) + CountIn(Having(js, TimedOut), dir)
  }

  // ---- Order of mutants ----

  /** sortedMutants' comparison: file, line, column, mutator. */
  predicate MutantLe(a: Mutant, b: Mutant) {
    if a.file != b.file then TextLe(a.file, b.file)
    else if a.line != b.line then a.line < b.line
    else if a.column != b.column then a.column < b.column
    else TextLe(a.mutator, b.mutator)
  }

  lemma MutantsAreTotal()
    ensures Total(MutantLe)
  {
    forall a, b ensures (MutantLe(a, b) || MutantLe(b, a)) && (MutantLe(a, b) && MutantLe(b, a) ==> a == b) {
      TextTotal(a.file, b.file);
      TextTotal(a.mutator, b.mutator);
    }
    forall a, b, c | MutantLe(a, b) && MutantLe(b, c) ensures MutantLe(a, c) {
      MutantsTransitive(a, b, c);
    }
  }

  lemma MutantsTransitive(a: Mutant, b: Mutant, c: Mutant)
    requires MutantLe(a, b) && MutantLe(b, c)
    ensures MutantLe(a, c)
  {
    if a.file != b.file && b.file != c.file {
      TextTransitive(a.file, b.file, c.file);
      TextTotal(a.file, b.file);
    } else if a.file == b.file == c.file && a.line == b.line == c.line && a.column == b.column == c.column {
      TextTransitive(a.mutator, b.mutator, c.mutator);
    }
  }

  function SortedMutants(ms: seq<Mutant>): seq<Mutant> {
    Sort(ms, MutantLe)
  }

  // ---- The verdict, as a function of what was reported ----

  /** A report gremlins cannot have written for this run: a file it was not given, a mutant it
      ran or skipped against its lines, or a status no run ends with. */
  ghost predicate Wrong(input: Input, j: Judged) {
    || j.mutant.file !in input.files
    || (RunsOn(input, j.mutant.file, j.mutant.line) <==> j.status == Skipped)
    || j.status == Runnable || j.status.Other?
  }

  /** entryMatch. */
  datatype EntryMatch = EntryMatch(survivors: seq<int>, caught: bool, pending: bool)

  function IntLe(): (int, int) -> bool {
    (a, b) => a <= b
  }

  predicate Caught(status: Status, trusted: bool) {
    status == Killed || (status == TimedOut && trusted)
  }

  predicate Pending(status: Status, trusted: bool) {
    (status == TimedOut && !trusted) || status in {NotCovered, NotViable, Skipped, Runnable}
  }

  /** The lines of an entry's survivors, in report order. */
  function SurvivorLines(js: seq<Judged>, index: Index, e: Entry): seq<int>
    decreases |js|
  {
    if js == [] then []
    else
      var last := js[|js| - 1];
      SurvivorLines(js[..|js| - 1], index, e)
      + if last.status == Lived && index.Matches(e, last.mutant) then [last.mutant.line] else []
  }

  predicate SomeCaught(js: seq<Judged>, index: Index, e: Entry, trusted: bool) {
    exists j :: j in js && index.Matches(e, j.mutant) && Caught(j.status, trusted)
  }

  predicate SomePending(js: seq<Judged>, index: Index, e: Entry, trusted: bool) {
    exists j :: j in js && index.Matches(e, j.mutant) && Pending(j.status, trusted)
  }

  /** matchEntry: an entry against every mutant of its file. */
  function MatchOf(js: seq<Judged>, index: Index, e: Entry, trusted: bool): EntryMatch {
    EntryMatch(
      Compact(Sort(SurvivorLines(js, index, e), IntLe())), SomeCaught(js, index, e, trusted), SomePending(js, index, e, trusted))
  }

  function Matches(js: seq<Judged>, input: Input, trusted: bool): seq<EntryMatch> {
    seq(|input.accepted|, i requires 0 <= i < |input.accepted| => MatchOf(js, input.index, input.accepted[i], trusted))
  }

  /** accepts: an entry that fits survivors on a single line matches this mutant. */
  predicate Accepts(input: Input, matches: seq<EntryMatch>, m: Mutant)
    requires |matches| == |input.accepted|
  {
    exists i :: 0 <= i < |matches| && |matches[i].survivors| == 1 && input.index.Matches(input.accepted[i], m)
  }

  /** What the loop over the sorted survivors has gathered. */
  datatype Gathered = Gathered(accepted: nat, untouched: seq<Mutant>, findings: seq<Finding>)

  function Gather(input: Input, matches: seq<EntryMatch>, survivors: seq<Mutant>): Gathered
    requires |matches| == |input.accepted|
    decreases |survivors|
  {
    if survivors == [] then Gathered(0, [], [])
    else
      var g, m := Gather(input, matches, survivors[..|survivors| - 1]), survivors[|survivors| - 1];
      if Accepts(input, matches, m) then g.(accepted := g.accepted + 1)
      else if !OnLines(input.lines, m) then g.(untouched := g.untouched + [m])
      else g.(findings := g.findings + [Survivor(m)])
  }

  /** What an entry itself is reported for. */
  function EntryFindings(input: Input, names: set<string>, matches: seq<EntryMatch>, n: nat): seq<Finding>
    requires |matches| == |input.accepted| && n <= |matches|
  {
    if n == 0 then []
    else
      var before, fit := EntryFindings(input, names, matches, n - 1), matches[n - 1];
      if input.accepted[n - 1].file !in names then before
      else if |fit.survivors| == 1 || (|fit.survivors| == 0 && fit.pending) then before
      else if |fit.survivors| > 1 then before + [Ambiguous(n - 1, fit.survivors)]
      else if fit.caught then before + [NowCaught(n - 1)]
      else before + [NoLongerMatches(n - 1)]
  }

  function Timeouts(ms: seq<Mutant>, why: Why): seq<Finding>
    decreases |ms|
  {
    if ms == [] then [] else Timeouts(ms[..|ms| - 1], why) + [Timeout(ms[|ms| - 1], why)]
  }

  function TimedOutDirs(js: seq<Judged>): set<string> {
    set m | m in Having(js, TimedOut) :: Dir(m.file)
  }

  /** timeoutWarnings, over its directories in order. */
  function WarningsFor(js: seq<Judged>, dirs: seq<string>): seq<Warning>
    decreases |dirs|
  {
    if dirs == [] then []
    else
      var dir := dirs[|dirs| - 1];
      var n := CountIn(Having(js, TimedOut), dir);
      WarningsFor(js, dirs[..|dirs| - 1])
      + if n < MIN_TIMEOUTS_FOR_WARNING || 2 * n < CoveredIn(js, dir) then [] else [Warning(dir, n, CoveredIn(js, dir))]
  }

  function Judge(run: Run, input: Input, names: set<string>, js: seq<Judged>): Verdict {
    var matches := Matches(js, input, run.Trusted());
    var g := Gather(input, matches, SortedMutants(Having(js, Lived)));
    var timedOut := Having(js, TimedOut);
    var short := |timedOut| > 0 && !run.Trusted();
    var survivors := CountSurvivors(g) + |g.untouched| + g.accepted;
    var incomplete := short || (|timedOut| >= MIN_TIMEOUTS_FOR_INCOMPLETE && |Having(js, Killed)| == 0 && survivors == 0);
    var why := if !short then LikeEveryOther else if run.Limit().Some? then Short(run.Limit().value) else Unreported;
    Verdict(
      g.findings + EntryFindings(input, names, matches, |matches|)
      + (if incomplete then Timeouts(SortedMutants(timedOut), why) else []),
      incomplete,
      Summary(|Having(js, Killed)|, CountSurvivors(g), |g.untouched|, g.accepted, |Having(js, NotCovered)|, |timedOut|,
              |Having(js, NotViable)|, |Having(js, Skipped)|, SortedMutants(Having(js, NotCovered)),
              SortedMutants(g.untouched), SortedMutants(timedOut),
              if incomplete then [] else WarningsFor(js, Ascending(TimedOutDirs(js)))))
  }

  /** Summary.Lived counts the survivors reported. */
  function CountSurvivors(g: Gathered): nat {
    |g.findings|
  }

  const NOTHING := Summary(0, 0, 0, 0, 0, 0, 0, 0, [], [], [], [])

  /** The whole decision. */
  ghost function DecisionOf(run: Run, input: Input): Decision {
    if run.exitCode != 0 || run.saidError then Failed
    else if !run.reported then (if run.noResults then Decided(Verdict([], false, NOTHING)) else Failed)
    else if run.report.None? then Failed
    else
      var files := run.report.value;
      if Rejected(input, files) then Failed
      else Decided(Judge(run, input, FileNames(files), AllJudged(files)))
  }

  /** A report that names a file or holds a mutant it cannot. */
  ghost predicate Rejected(input: Input, files: seq<MutatedFile>) {
    || (exists f :: f in files && f.name !in input.files)
    || (exists j :: j in AllJudged(files) && Wrong(input, j))
  }

  // ---- decideMutation, as the source writes it ----

  lemma AllJudgedGrows(files: seq<MutatedFile>, i: nat)
    requires i < |files|
    ensures AllJudged(files[..i + 1]) == AllJudged(files[..i]) + FileJudged(files[i].name, files[i].mutations)
  {
    assert files[..i + 1][..i] == files[..i];
  }

  lemma FileJudgedGrows(file: string, mutations: seq<Mutation>, n: nat)
    requires n < |mutations|
    ensures FileJudged(file, mutations[..n + 1])
         == FileJudged(file, mutations[..n]) + [Judged(MutantOf(file, mutations[n]), mutations[n].status)]
  {
    assert mutations[..n + 1][..n] == mutations[..n];
  }

  lemma OneMore(js: seq<Judged>, j: Judged)
    ensures forall status :: Having(js + [j], status) == Having(js, status) + if j.status == status then [j.mutant] else []
  {
    assert (js + [j])[..|js|] == js;
  }

  /** What one more mutant does to an entry's match. */
  lemma OneMoreFits(js: seq<Judged>, j: Judged, index: Index, e: Entry, trusted: bool)
    ensures SurvivorLines(js + [j], index, e)
         == SurvivorLines(js, index, e) + if j.status == Lived && index.Matches(e, j.mutant) then [j.mutant.line] else []
    ensures SomeCaught(js + [j], index, e, trusted)
       <==> SomeCaught(js, index, e, trusted) || (index.Matches(e, j.mutant) && Caught(j.status, trusted))
    ensures SomePending(js + [j], index, e, trusted)
       <==> SomePending(js, index, e, trusted) || (index.Matches(e, j.mutant) && Pending(j.status, trusted))
  {
    hide Index.Matches;
    hide Caught;
    hide Pending;
    assert (js + [j])[..|js|] == js;
    assert forall x :: x in js + [j] <==> x in js || x == j;
  }

  lemma CountOneMore(ms: seq<Mutant>, m: Mutant, dir: string)
    ensures CountIn(ms + [m], dir) == CountIn(ms, dir) + if Dir(m.file) == dir then 1 else 0
  {
    assert (ms + [m])[..|ms|] == ms;
  }

  /** matchEntry's loop over one file's mutations. */
  method MatchFile(file: MutatedFile, index: Index, e: Entry, trusted: bool, ghost js: seq<Judged>,
                   lines: seq<int>, wasCaught: bool, wasPending: bool)
    returns (survivors: seq<int>, caught: bool, pending: bool)
    requires lines == SurvivorLines(js, index, e)
    requires wasCaught == SomeCaught(js, index, e, trusted) && wasPending == SomePending(js, index, e, trusted)
    ensures survivors == SurvivorLines(js + FileJudged(file.name, file.mutations), index, e)
    ensures caught == SomeCaught(js + FileJudged(file.name, file.mutations), index, e, trusted)
    ensures pending == SomePending(js + FileJudged(file.name, file.mutations), index, e, trusted)
  {
    hide Index.Matches;
    hide SurvivorLines;
    hide SomeCaught;
    hide SomePending;
    survivors, caught, pending := lines, wasCaught, wasPending;
    ghost var done := js;
    for n := 0 to |file.mutations|
      invariant done == js + FileJudged(file.name, file.mutations[..n])
      invariant survivors == SurvivorLines(done, index, e)
      invariant caught == SomeCaught(done, index, e, trusted) && pending == SomePending(done, index, e, trusted)
    {
      var m := file.mutations[n];
      var mutant := MutantOf(file.name, m);
      FileJudgedGrows(file.name, file.mutations, n);
      OneMoreFits(done, Judged(mutant, m.status), index, e, trusted);
      done := done + [Judged(mutant, m.status)];
      if index.Matches(e, mutant) {
        match m.status {
          case Lived => survivors := survivors + [m.line];
          case Killed => caught := true;
          case TimedOut => caught, pending := caught || trusted, pending || !trusted;
          case NotCovered => pending := true;
          case NotViable => pending := true;
          case Skipped => pending := true;
          case Runnable => pending := true;
          case Other(_) =>
        }
      }
    }
    assert file.mutations[..|file.mutations|] == file.mutations;
  }

  /** matchEntry over the report's files. */
  method MatchEntry(files: seq<MutatedFile>, index: Index, e: Entry, trusted: bool) returns (found: EntryMatch)
    ensures found == MatchOf(AllJudged(files), index, e, trusted)
  {
    hide SurvivorLines;
    hide SomeCaught;
    hide SomePending;
    var survivors: seq<int>, caught, pending := [], false, false;
    NothingFits(index, e, trusted);
    for i := 0 to |files|
      invariant survivors == SurvivorLines(AllJudged(files[..i]), index, e)
      invariant caught == SomeCaught(AllJudged(files[..i]), index, e, trusted)
      invariant pending == SomePending(AllJudged(files[..i]), index, e, trusted)
    {
      AllJudgedGrows(files, i);
      if files[i].name != e.file {
        OtherFileIsSkipped(AllJudged(files[..i]), files[i].name, files[i].mutations, index, e, trusted);
      } else {
        survivors, caught, pending := MatchFile(files[i], index, e, trusted, AllJudged(files[..i]), survivors, caught, pending);
      }
    }
    assert files[..|files|] == files;
    found := EntryMatch(Compact(Sort(survivors, IntLe())), caught, pending);
  }

  lemma NothingFits(index: Index, e: Entry, trusted: bool)
    ensures SurvivorLines([], index, e) == [] && !SomeCaught([], index, e, trusted) && !SomePending([], index, e, trusted)
  {
  }

  /** An entry matches nothing in another file. */
  lemma {:induction false} OtherFileIsSkipped(js: seq<Judged>, file: string, mutations: seq<Mutation>, index: Index, e: Entry,
                                              trusted: bool)
    requires file != e.file
    ensures SurvivorLines(js + FileJudged(file, mutations), index, e) == SurvivorLines(js, index, e)
    ensures SomeCaught(js + FileJudged(file, mutations), index, e, trusted) == SomeCaught(js, index, e, trusted)
    ensures SomePending(js + FileJudged(file, mutations), index, e, trusted) == SomePending(js, index, e, trusted)
    decreases |mutations|
  {
    hide SurvivorLines;
    hide SomeCaught;
    hide SomePending;
    if mutations == [] {
      assert js + [] == js;
    } else {
      var before, last := mutations[..|mutations| - 1], mutations[|mutations| - 1];
      var j := Judged(MutantOf(file, last), last.status);
      OtherFileIsSkipped(js, file, before, index, e, trusted);
      OneMoreFits(js + FileJudged(file, before), j, index, e, trusted);
      assert js + FileJudged(file, mutations) == js + FileJudged(file, before) + [j];
    }
  }

  /** What decideMutation's loop over the report has counted and gathered. */
  datatype Tally = Tally(killed: nat, lived: seq<Mutant>, uncovered: seq<Mutant>, timedOut: seq<Mutant>, notViable: nat,
                         skipped: nat, covered: map<string, nat>, timedOutIn: map<string, nat>)

  function At(counts: map<string, nat>, dir: string): nat {
    if dir in counts then counts[dir] else 0
  }

  function Bump(counts: map<string, nat>, dir: string): map<string, nat> {
    counts[dir := At(counts, dir) + 1]
  }

  ghost predicate Tallied(t: Tally, js: seq<Judged>) {
    && t.killed == |Having(js, Killed)| && t.lived == Having(js, Lived) && t.uncovered == Having(js, NotCovered)
    && t.timedOut == Having(js, TimedOut) && t.notViable == |Having(js, NotViable)| && t.skipped == |Having(js, Skipped)|
    && (forall dir :: At(t.covered, dir) == CoveredIn(js, dir))
    && (forall dir :: At(t.timedOutIn, dir) == CountIn(Having(js, TimedOut), dir))
    && t.timedOutIn.Keys == TimedOutDirs(js)
  }

  lemma OneMoreCounted(js: seq<Judged>, j: Judged)
    ensures forall dir :: CoveredIn(js + [j], dir)
              == CoveredIn(js, dir) + if j.status in {Killed, Lived, TimedOut} && Dir(j.mutant.file) == dir then 1 else 0
    ensures forall dir :: CountIn(Having(js + [j], TimedOut), dir)
              == CountIn(Having(js, TimedOut), dir) + if j.status == TimedOut && Dir(j.mutant.file) == dir then 1 else 0
    ensures TimedOutDirs(js + [j]) == TimedOutDirs(js) + if j.status == TimedOut then {Dir(j.mutant.file)} else {}
  {
    hide Dir;
    OneMore(js, j);
    assert forall ms: seq<Mutant> :: ms + [] == ms;
    forall ms: seq<Mutant>, dir ensures CountIn(ms + [j.mutant], dir) == CountIn(ms, dir) + if Dir(j.mutant.file) == dir then 1 else 0 {
      CountOneMore(ms, j.mutant, dir);
    }
  }

  function Tick(t: Tally, j: Judged): Tally {
    var dir := Dir(j.mutant.file);
    match j.status
    case Killed => t.(killed := t.killed + 1, covered := Bump(t.covered, dir))
    case Lived => t.(lived := t.lived + [j.mutant], covered := Bump(t.covered, dir))
    case NotCovered => t.(uncovered := t.uncovered + [j.mutant])
    case TimedOut => t.(timedOut := t.timedOut + [j.mutant], covered := Bump(t.covered, dir), timedOutIn := Bump(t.timedOutIn, dir))
    case NotViable => t.(notViable := t.notViable + 1)
    case Skipped => t.(skipped := t.skipped + 1)
    case _ => t
  }

  lemma TickTallies(t: Tally, js: seq<Judged>, j: Judged)
    requires Tallied(t, js)
    ensures Tallied(Tick(t, j), js + [j])
  {
    hide Dir;
    hide Having;
    hide CountIn;
    hide CoveredIn;
    hide TimedOutDirs;
    OneMore(js, j);
    OneMoreCounted(js, j);
  }

  lemma {:induction false} FileJudgedAt(file: string, mutations: seq<Mutation>, n: nat)
    requires n < |mutations|
    ensures |FileJudged(file, mutations)| == |mutations|
    ensures FileJudged(file, mutations)[n] == Judged(MutantOf(file, mutations[n]), mutations[n].status)
    decreases |mutations|
  {
    var before := mutations[..|mutations| - 1];
    if before != [] {
      FileJudgedAt(file, before, if n < |before| then n else 0);
    }
  }

  lemma {:induction false} ReportHolds(files: seq<MutatedFile>, i: nat, j: Judged)
    requires i < |files| && j in FileJudged(files[i].name, files[i].mutations)
    ensures j in AllJudged(files)
    decreases |files|
  {
    var before := files[..|files| - 1];
    if i < |before| {
      ReportHolds(before, i, j);
    }
  }

  /** The loop over one file's mutations; no tally for a mutant gremlins cannot have reported. */
  method TallyFile(input: Input, run: Option<map<string, seq<Range>>>, file: MutatedFile, was: Tally, ghost js: seq<Judged>)
    returns (tally: Option<Tally>)
    requires file.name in input.files && Tallied(was, js)
    requires forall line :: (run.None? || file.name !in run.value || OnSome(run.value[file.name], line)) <==> RunsOn(input, file.name, line)
    ensures tally.None? <==> exists j :: j in FileJudged(file.name, file.mutations) && Wrong(input, j)
    ensures tally.Some? ==> Tallied(tally.value, js + FileJudged(file.name, file.mutations))
  {
    hide Tallied;
    hide RunsOn;
    var t := was;
    assert js + [] == js;
    for n := 0 to |file.mutations|
      invariant Tallied(t, js + FileJudged(file.name, file.mutations[..n]))
      invariant forall j :: j in FileJudged(file.name, file.mutations[..n]) ==> !Wrong(input, j)
    {
      var m := file.mutations[n];
      var mutant := MutantOf(file.name, m);
      FileJudgedGrows(file.name, file.mutations, n);
      FileJudgedAt(file.name, file.mutations, n);
      ghost var j := Judged(mutant, m.status);
      assert j in FileJudged(file.name, file.mutations);
      if OnLines(run, mutant) == (m.status == Skipped) || m.status == Runnable || m.status.Other? {
        assert Wrong(input, j);
        return None;
      }
      ghost var before := js + FileJudged(file.name, file.mutations[..n]);
      TickTallies(t, before, j);
      assert before + [j] == js + FileJudged(file.name, file.mutations[..n + 1]);
      t := Tick(t, Judged(mutant, m.status));
    }
    assert file.mutations[..|file.mutations|] == file.mutations;
    tally := Some(t);
  }

  /** The loop over the report's files. */
  method TallyReport(input: Input, files: seq<MutatedFile>) returns (tally: Option<Tally>, mutated: set<string>)
    ensures tally.None? <==> Rejected(input, files)
    ensures tally.Some? ==> Tallied(tally.value, AllJudged(files)) && mutated == FileNames(files)
  {
    hide Tallied;
    hide Wrong;
    hide AllJudged;
    hide FileJudged;
    hide ChangedLine;
    hide Named;
    NothingReported();
    var run := MutatedLines(input);
    var t := Tally(0, [], [], [], 0, 0, map[], map[]);
    mutated := {};
    StartTallied(t);
    for i := 0 to |files|
      invariant Tallied(t, AllJudged(files[..i])) && mutated == FileNames(files[..i])
      invariant forall f :: f in files[..i] ==> f.name in input.files
      invariant forall j :: j in AllJudged(files[..i]) ==> !Wrong(input, j)
    {
      var file := files[i];
      AllJudgedGrows(files, i);
      assert files[..i + 1] == files[..i] + [file];
      if file.name !in input.files {
        return None, mutated;
      }
      mutated := mutated + {file.name};
      var next := TallyFile(input, run, file, t, AllJudged(files[..i]));
      if next.None? {
        ghost var j :| j in FileJudged(file.name, file.mutations) && Wrong(input, j);
        ReportHolds(files, i, j);
        return None, mutated;
      }
      t := next.value;
    }
    assert files[..|files|] == files;
    tally := Some(t);
  }

  lemma NothingReported()
    ensures AllJudged([]) == []
  {
  }

  lemma StartTallied(t: Tally)
    requires t == Tally(0, [], [], [], 0, 0, map[], map[])
    ensures Tallied(t, [])
  {
  }

  /** The loop over the sorted survivors. */
  method JudgeSurvivors(input: Input, matches: seq<EntryMatch>, survivors: seq<Mutant>) returns (g: Gathered)
    requires |matches| == |input.accepted|
    ensures g == Gather(input, matches, survivors)
  {
    hide Accepts;
    hide OnLines;
    g := Gathered(0, [], []);
    for i := 0 to |survivors|
      invariant g == Gather(input, matches, survivors[..i])
    {
      var mutant := survivors[i];
      assert survivors[..i + 1][..i] == survivors[..i];
      if Accepts(input, matches, mutant) {
        g := g.(accepted := g.accepted + 1);
      } else if !OnLines(input.lines, mutant) {
        g := g.(untouched := g.untouched + [mutant]);
      } else {
        g := g.(findings := g.findings + [Survivor(mutant)]);
      }
    }
    assert survivors[..|survivors|] == survivors;
  }

  /** The loop over the accepted entries. */
  method JudgeEntries(input: Input, mutated: set<string>, matches: seq<EntryMatch>) returns (findings: seq<Finding>)
    requires |matches| == |input.accepted|
    ensures findings == EntryFindings(input, mutated, matches, |matches|)
  {
    findings := [];
    for i := 0 to |matches|
      invariant findings == EntryFindings(input, mutated, matches, i)
    {
      if input.accepted[i].file !in mutated {
        continue;
      }
      var fit := matches[i];
      if |fit.survivors| == 1 || (|fit.survivors| == 0 && fit.pending) {
        continue;
      } else if |fit.survivors| > 1 {
        findings := findings + [Ambiguous(i, fit.survivors)];
      } else if fit.caught {
        findings := findings + [NowCaught(i)];
      } else {
        findings := findings + [NoLongerMatches(i)];
      }
    }
  }

  /** timeoutWarnings. */
  method TimeoutWarnings(covered: map<string, nat>, timedOut: map<string, nat>, ghost js: seq<Judged>) returns (warnings: seq<Warning>)
    requires forall dir :: At(covered, dir) == CoveredIn(js, dir)
    requires forall dir :: At(timedOut, dir) == CountIn(Having(js, TimedOut), dir)
    ensures warnings == WarningsFor(js, Ascending(timedOut.Keys))
  {
    hide CoveredIn;
    hide CountIn;
    var dirs := Ascending(timedOut.Keys);
    warnings := [];
    for i := 0 to |dirs|
      invariant warnings == WarningsFor(js, dirs[..i])
    {
      var dir := dirs[i];
      assert dirs[..i + 1][..i] == dirs[..i];
      var n := timedOut[dir];
      assert n == At(timedOut, dir);
      if !(n < MIN_TIMEOUTS_FOR_WARNING || 2 * n < At(covered, dir)) {
        warnings := warnings + [Warning(dir, n, At(covered, dir))];
      }
    }
    assert dirs[..|dirs|] == dirs;
  }

  method TimeoutFindings(ms: seq<Mutant>, why: Why) returns (findings: seq<Finding>)
    ensures findings == Timeouts(ms, why)
  {
    findings := [];
    for i := 0 to |ms|
      invariant findings == Timeouts(ms[..i], why)
    {
      assert ms[..i + 1][..i] == ms[..i];
      findings := findings + [Timeout(ms[i], why)];
    }
    assert ms[..|ms|] == ms;
  }

  method MatchAll(input: Input, files: seq<MutatedFile>, trusted: bool) returns (matches: seq<EntryMatch>)
    ensures |matches| == |input.accepted| && matches == Matches(AllJudged(files), input, trusted)
  {
    hide MatchOf;
    matches := [];
    for i := 0 to |input.accepted|
      invariant |matches| == i
      invariant forall k :: 0 <= k < i ==> matches[k] == MatchOf(AllJudged(files), input.index, input.accepted[k], trusted)
    {
      var fit := MatchEntry(files, input.index, input.accepted[i], trusted);
      matches := matches + [fit];
    }
  }

  method DecideMutation(run: Run, input: Input) returns (decision: Decision)
    ensures decision == DecisionOf(run, input)
  {
    hide AllJudged;
    hide Having;
    hide Wrong;
    hide Matches;
    hide Gather;
    hide EntryFindings;
    hide WarningsFor;
    hide Timeouts;
    hide Run.Trusted;
    hide Run.Limit;
    if run.exitCode != 0 || run.saidError {
      return Failed;
    }
    if !run.reported {
      return if run.noResults then Decided(Verdict([], false, NOTHING)) else Failed;
    }
    if run.report.None? {
      return Failed;
    }
    var files := run.report.value;
    var tally, mutated := TallyReport(input, files);
    if tally.None? {
      return Failed;
    }
    var t, trusted := tally.value, run.Trusted();
    var matches := MatchAll(input, files, trusted);
    var g := JudgeSurvivors(input, matches, SortedMutants(t.lived));
    var stale := JudgeEntries(input, mutated, matches);
    var findings := g.findings + stale;
    var lived, untouched := |g.findings|, |g.untouched|;
    var short := |t.timedOut| > 0 && !trusted;
    var incomplete := short || (|t.timedOut| >= MIN_TIMEOUTS_FOR_INCOMPLETE && t.killed == 0 && lived + untouched + g.accepted == 0);
    var warnings: seq<Warning>, timeouts: seq<Finding> := [], [];
    if incomplete {
      var why := LikeEveryOther;
      if short {
        why := Unreported;
        if run.Limit().Some? {
          why := Short(run.Limit().value);
        }
      }
      timeouts := TimeoutFindings(SortedMutants(t.timedOut), why);
    } else {
      warnings := TimeoutWarnings(t.covered, t.timedOutIn, AllJudged(files));
    }
    decision := Decided(Verdict(findings + timeouts, incomplete,
      Summary(t.killed, lived, untouched, g.accepted, |t.uncovered|, |t.timedOut|, t.notViable, t.skipped,
              SortedMutants(t.uncovered), SortedMutants(g.untouched), SortedMutants(t.timedOut), warnings)));
  }
}
