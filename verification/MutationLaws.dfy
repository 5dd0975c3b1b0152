/**
  What a mutation verdict can be trusted for (runner/mutation.go): it does not depend on the
  order gremlins reports in, every mutant is counted once, and accepted entries stay judged.
 */
module MutationLaws {
  import opened Options
  import opened Text
  import opened Order
  import opened MutationEntries
  import opened MutationVerdict

  // ---- Counting ----

  lemma OneMoreOf<T>(s: seq<T>, y: T, x: T)
    ensures multiset(s + [y])[x] == multiset(s)[x] + if x == y then 1 else 0
  {
  }

  lemma HavingOne(js: seq<Judged>, j: Judged, status: Status, m: Mutant)
    ensures multiset(Having(js + [j], status))[m] == multiset(Having(js, status))[m] + if j == Judged(m, status) then 1 else 0
  {
    assert (js + [j])[..|js|] == js;
    OneMoreOf(Having(js, status), j.mutant, m);
  }

  lemma {:induction false} HavingCounts(js: seq<Judged>, status: Status, m: Mutant)
    ensures multiset(Having(js, status))[m] == multiset(js)[Judged(m, status)]
    decreases |js|
  {
    if js != [] {
      hide Having;
      var before, last := js[..|js| - 1], js[|js| - 1];
      HavingCounts(before, status, m);
      assert js == before + [last];
      OneMoreOf(before, last, Judged(m, status));
      HavingOne(before, last, status, m);
    }
  }

  lemma HavingForgets(a: seq<Judged>, b: seq<Judged>, status: Status)
    requires multiset(a) == multiset(b)
    ensures multiset(Having(a, status)) == multiset(Having(b, status))
    ensures |Having(a, status)| == |Having(b, status)|
    ensures SortedMutants(Having(a, status)) == SortedMutants(Having(b, status))
  {
    forall m ensures multiset(Having(a, status))[m] == multiset(Having(b, status))[m] {
      HavingCounts(a, status, m);
      HavingCounts(b, status, m);
    }
    assert |multiset(Having(a, status))| == |Having(a, status)| && |multiset(Having(b, status))| == |Having(b, status)|;
    MutantsAreTotal();
    SortForgets(Having(a, status), Having(b, status), MutantLe);
  }

  lemma HavingHolds(js: seq<Judged>, status: Status, m: Mutant)
    ensures m in Having(js, status) <==> Judged(m, status) in js
  {
    HavingCounts(js, status, m);
    assert m in Having(js, status) <==> m in multiset(Having(js, status));
    assert Judged(m, status) in js <==> Judged(m, status) in multiset(js);
  }

  function InDir(dir: string): Mutant -> seq<Mutant> {
    (m: Mutant) => if Dir(m.file) == dir then [m] else []
  }

  lemma {:induction false} CountFlattens(ms: seq<Mutant>, dir: string)
    ensures CountIn(ms, dir) == |Flatten(ms, InDir(dir))|
    decreases |ms|
  {
    if ms != [] {
      CountFlattens(ms[..|ms| - 1], dir);
    }
  }

  lemma CountForgets(a: seq<Mutant>, b: seq<Mutant>, dir: string)
    requires multiset(a) == multiset(b)
    ensures CountIn(a, dir) == CountIn(b, dir)
  {
    CountFlattens(a, dir);
    CountFlattens(b, dir);
    FlattenForgets(a, b, InDir(dir));
    assert |multiset(Flatten(a, InDir(dir)))| == |multiset(Flatten(b, InDir(dir)))|;
  }

  // ---- The order of a report ----

  /** The same mutants of the same files, in any order. */
  ghost predicate SameReport(a: seq<MutatedFile>, b: seq<MutatedFile>) {
    FileNames(a) == FileNames(b) && multiset(AllJudged(a)) == multiset(AllJudged(b))
  }

  /** `b` has `a`'s files in another order, each with its mutations in another order. */
  ghost predicate Shuffled(a: seq<MutatedFile>, b: seq<MutatedFile>) {
    exists c :: Reordered(a, c) && multiset(c) == multiset(b)
  }

  ghost predicate Reordered(a: seq<MutatedFile>, c: seq<MutatedFile>) {
    && |a| == |c|
    && forall i :: 0 <= i < |a| ==> a[i].name == c[i].name && multiset(a[i].mutations) == multiset(c[i].mutations)
  }

  function FileOf(): MutatedFile -> seq<Judged> {
    (f: MutatedFile) => FileJudged(f.name, f.mutations)
  }

  lemma {:induction false} AllFlattens(files: seq<MutatedFile>)
    ensures AllJudged(files) == Flatten(files, FileOf())
    decreases |files|
  {
    if files != [] {
      AllFlattens(files[..|files| - 1]);
    }
  }

  lemma {:induction false} FileCounts(file: string, mutations: seq<Mutation>, j: Judged)
    ensures multiset(FileJudged(file, mutations))[j]
         == if j.mutant.file == file then multiset(mutations)[Mutation(j.mutant.mutator, j.status, j.mutant.line, j.mutant.column)] else 0
    decreases |mutations|
  {
    if mutations != [] {
      FileCounts(file, mutations[..|mutations| - 1], j);
      assert mutations == mutations[..|mutations| - 1] + [mutations[|mutations| - 1]];
    }
  }

  lemma {:induction false} ReorderedSame(a: seq<MutatedFile>, c: seq<MutatedFile>)
    requires Reordered(a, c)
    ensures multiset(AllJudged(a)) == multiset(AllJudged(c))
    decreases |a|
  {
    if a != [] {
      var x, y := a[|a| - 1], c[|c| - 1];
      ReorderedSame(a[..|a| - 1], c[..|c| - 1]);
      forall j ensures multiset(FileJudged(x.name, x.mutations))[j] == multiset(FileJudged(y.name, y.mutations))[j] {
        FileCounts(x.name, x.mutations, j);
        FileCounts(y.name, y.mutations, j);
      }
    }
  }

  lemma NamesSame(a: seq<MutatedFile>, c: seq<MutatedFile>, b: seq<MutatedFile>)
    requires Reordered(a, c) && multiset(c) == multiset(b)
    ensures FileNames(a) == FileNames(b)
  {
    SameMembers(c, b);
    forall name ensures name in FileNames(a) <==> name in FileNames(c) {
      assert forall i :: 0 <= i < |a| ==> a[i] in a && c[i] in c;
    }
  }

  lemma ShuffledSame(a: seq<MutatedFile>, b: seq<MutatedFile>)
    requires Shuffled(a, b)
    ensures SameReport(a, b)
  {
    var c :| Reordered(a, c) && multiset(c) == multiset(b);
    NamesSame(a, c, b);
    ReorderedSame(a, c);
    AllFlattens(c);
    AllFlattens(b);
    FlattenForgets(c, b, FileOf());
  }

  /** A line of some survivor the entry matches. */
  predicate HasSurvivor(js: seq<Judged>, index: Index, e: Entry, line: int) {
    exists j :: j in js && j.status == Lived && index.Matches(e, j.mutant) && j.mutant.line == line
  }

  lemma {:induction false} SurvivorLinesHold(js: seq<Judged>, index: Index, e: Entry, line: int)
    ensures line in SurvivorLines(js, index, e) <==> HasSurvivor(js, index, e, line)
    decreases |js|
  {
    hide Index.Matches;
    if js != [] {
      SurvivorLinesHold(js[..|js| - 1], index, e, line);
      assert js == js[..|js| - 1] + [js[|js| - 1]];
      assert forall x :: x in js <==> x in js[..|js| - 1] || x == js[|js| - 1];
    }
  }

  lemma IntsAreTotal()
    ensures Total(IntLe())
  {
  }

  /** The lines of an entry's match: exactly those of its survivors, strictly ascending. */
  lemma MatchLines(js: seq<Judged>, index: Index, e: Entry, trusted: bool)
    ensures Strict(MatchOf(js, index, e, trusted).survivors, IntLe())
    ensures forall line :: line in MatchOf(js, index, e, trusted).survivors <==> HasSurvivor(js, index, e, line)
  {
    hide Index.Matches;
    var lines := SurvivorLines(js, index, e);
    IntsAreTotal();
    SortSorts(lines, IntLe());
    CompactIsStrict(Sort(lines, IntLe()), IntLe());
    forall line ensures line in MatchOf(js, index, e, trusted).survivors <==> line in lines {
      assert line in Sort(lines, IntLe()) <==> line in multiset(lines);
    }
    forall line ensures line in lines <==> HasSurvivor(js, index, e, line) {
      SurvivorLinesHold(js, index, e, line);
    }
  }

  lemma MatchForgets(a: seq<Judged>, b: seq<Judged>, index: Index, e: Entry, trusted: bool)
    requires multiset(a) == multiset(b)
    ensures MatchOf(a, index, e, trusted) == MatchOf(b, index, e, trusted)
  {
    hide Index.Matches;
    SameMembers(a, b);
    MatchLines(a, index, e, trusted);
    MatchLines(b, index, e, trusted);
    IntsAreTotal();
    var x, y := MatchOf(a, index, e, trusted).survivors, MatchOf(b, index, e, trusted).survivors;
    assert forall line :: line in x <==> line in y;
    StrictUnique(x, y, (set line | line in x), IntLe());
  }

  lemma SameMembers<T>(a: seq<T>, b: seq<T>)
    requires multiset(a) == multiset(b)
    ensures forall x :: x in a <==> x in b
  {
    assert forall x :: x in a <==> x in multiset(a);
    assert forall x :: x in b <==> x in multiset(b);
  }

  lemma {:induction false} WarningsForget(a: seq<Judged>, b: seq<Judged>, dirs: seq<string>)
    requires multiset(a) == multiset(b)
    ensures WarningsFor(a, dirs) == WarningsFor(b, dirs)
    decreases |dirs|
  {
    hide Having;
    hide CountIn;
    if dirs != [] {
      var dir := dirs[|dirs| - 1];
      WarningsForget(a, b, dirs[..|dirs| - 1]);
      HavingForgets(a, b, Killed);
      HavingForgets(a, b, Lived);
      HavingForgets(a, b, TimedOut);
      CountForgets(Having(a, Killed), Having(b, Killed), dir);
      CountForgets(Having(a, Lived), Having(b, Lived), dir);
      CountForgets(Having(a, TimedOut), Having(b, TimedOut), dir);
    }
  }

  lemma DirsForget(a: seq<Judged>, b: seq<Judged>)
    requires multiset(a) == multiset(b)
    ensures TimedOutDirs(a) == TimedOutDirs(b)
  {
    HavingForgets(a, b, TimedOut);
    SameMembers(Having(a, TimedOut), Having(b, TimedOut));
  }

  lemma MatchesForget(a: seq<Judged>, b: seq<Judged>, input: Input, trusted: bool)
    requires multiset(a) == multiset(b)
    ensures Matches(a, input, trusted) == Matches(b, input, trusted)
  {
    hide MatchOf;
    forall i | 0 <= i < |input.accepted|
      ensures MatchOf(a, input.index, input.accepted[i], trusted) == MatchOf(b, input.index, input.accepted[i], trusted)
    {
      MatchForgets(a, b, input.index, input.accepted[i], trusted);
    }
  }

  lemma JudgeForgets(run: Run, other: Run, input: Input, names: set<string>, a: seq<Judged>, b: seq<Judged>)
    requires multiset(a) == multiset(b) && other == run.(report := other.report)
    ensures Judge(run, input, names, a) == Judge(other, input, names, b)
  {
    hide Having;
    hide Matches;
    hide SortedMutants;
    hide TimedOutDirs;
    hide WarningsFor;
    MatchesForget(a, b, input, run.Trusted());
    HavingForgets(a, b, Lived);
    HavingForgets(a, b, TimedOut);
    HavingForgets(a, b, Killed);
    HavingForgets(a, b, NotCovered);
    HavingForgets(a, b, NotViable);
    HavingForgets(a, b, Skipped);
    DirsForget(a, b);
    WarningsForget(a, b, Ascending(TimedOutDirs(a)));
  }

  /** The verdict of a run is the same however gremlins orders its files and their mutations. */
  lemma OrderDoesNotMatter(run: Run, a: seq<MutatedFile>, b: seq<MutatedFile>, input: Input)
    requires Shuffled(a, b)
    ensures DecisionOf(run.(report := Some(a)), input) == DecisionOf(run.(report := Some(b)), input)
  {
    hide AllJudged;
    hide Wrong;
    hide Judge;
    ShuffledSame(a, b);
    SameMembers(AllJudged(a), AllJudged(b));
    assert forall f :: f in a ==> f.name in FileNames(a);
    assert forall f :: f in b ==> f.name in FileNames(b);
    assert Rejected(input, a) <==> Rejected(input, b);
    JudgeForgets(run.(report := Some(a)), run.(report := Some(b)), input, FileNames(a), AllJudged(a), AllJudged(b));
  }

  // ---- Conservation ----

  function TotalMutations(files: seq<MutatedFile>): nat
    decreases |files|
  {
    if files == [] then 0 else TotalMutations(files[..|files| - 1]) + |files[|files| - 1].mutations|
  }

  lemma {:induction false} TotalIsJudged(files: seq<MutatedFile>)
    ensures |AllJudged(files)| == TotalMutations(files)
    decreases |files|
  {
    if files != [] {
      var last := files[|files| - 1];
      TotalIsJudged(files[..|files| - 1]);
      if last.mutations != [] {
        FileJudgedAt(last.name, last.mutations, 0);
      }
    }
  }

  lemma {:induction false} StatusesSplit(js: seq<Judged>)
    requires forall j :: j in js ==> j.status != Runnable && !j.status.Other?
    ensures |js| == |Having(js, Killed)| + |Having(js, Lived)| + |Having(js, NotCovered)| + |Having(js, TimedOut)|
                    + |Having(js, NotViable)| + |Having(js, Skipped)|
    decreases |js|
  {
    if js != [] {
      StatusesSplit(js[..|js| - 1]);
      assert js[|js| - 1] in js;
    }
  }

  lemma {:induction false} GatherKeeps(input: Input, matches: seq<EntryMatch>, survivors: seq<Mutant>)
    requires |matches| == |input.accepted|
    ensures var g := Gather(input, matches, survivors); |survivors| == g.accepted + |g.untouched| + |g.findings|
    decreases |survivors|
  {
    if survivors != [] {
      GatherKeeps(input, matches, survivors[..|survivors| - 1]);
    }
  }

  lemma SortedKeeps(ms: seq<Mutant>)
    ensures |SortedMutants(ms)| == |ms|
    ensures forall m :: m in SortedMutants(ms) <==> m in ms
  {
    MutantsAreTotal();
    SortSorts(ms, MutantLe);
    SameMembers(SortedMutants(ms), ms);
    assert |multiset(SortedMutants(ms))| == |multiset(ms)|;
  }

  /** A run whose report was judged. */
  ghost predicate Judges(run: Run, input: Input) {
    run.exitCode == 0 && !run.saidError && run.reported && run.report.Some? && !Rejected(input, run.report.value)
  }

  /** Only a run that wrote no report, and said there was nothing to mutate, is decided otherwise. */
  lemma DecidedRuns(run: Run, input: Input)
    requires DecisionOf(run, input).Decided?
    ensures Judges(run, input)
         || (!run.reported && run.noResults && DecisionOf(run, input).verdict == Verdict([], false, NOTHING))
  {
    hide Judge;
  }

  function Counted(s: Summary): nat {
    s.killed + s.lived + s.untouched + s.accepted + s.notCovered + s.timedOut + s.notViable + s.skipped
  }

  /** Every mutant gremlins reported is counted once. */
  lemma EveryMutantIsCounted(run: Run, input: Input)
    requires Judges(run, input)
    ensures Counted(DecisionOf(run, input).verdict.summary) == TotalMutations(run.report.value)
  {
    hide Matches;
    hide Gather;
    hide Having;
    hide SortedMutants;
    var js := AllJudged(run.report.value);
    TotalIsJudged(run.report.value);
    StatusesSplit(js);
    SortedKeeps(Having(js, Lived));
    MatchesLength(js, input, run.Trusted());
    GatherKeeps(input, Matches(js, input, run.Trusted()), SortedMutants(Having(js, Lived)));
  }

  /** A complete verdict that counts timeouts as caught gave every mutant the floor's time; an
      incomplete one says so with a finding. */
  lemma CompleteRunsHadTime(run: Run, input: Input)
    requires DecisionOf(run, input).Decided?
    ensures var v := DecisionOf(run, input).verdict;
            && (!v.incomplete && v.summary.timedOut > 0 ==> run.Limit().Some? && run.Limit().value >= MUTANT_TIME_FLOOR)
            && (v.incomplete ==> v.findings != [])
  {
    DecidedRuns(run, input);
    if Judges(run, input) {
      CompleteJudgment(run, input, FileNames(run.report.value), AllJudged(run.report.value));
    }
  }

  lemma CompleteJudgment(run: Run, input: Input, names: set<string>, js: seq<Judged>)
    ensures var v := Judge(run, input, names, js);
            && (!v.incomplete && v.summary.timedOut > 0 ==> run.Limit().Some? && run.Limit().value >= MUTANT_TIME_FLOOR)
            && (v.incomplete ==> v.findings != [])
  {
    hide Matches;
    hide Gather;
    hide Having;
    hide SortedMutants;
    hide WarningsFor;
    hide TimedOutDirs;
    SortedKeeps(Having(js, TimedOut));
    TimeoutsAt(SortedMutants(Having(js, TimedOut)), LikeEveryOther);
    forall why {
      TimeoutsAt(SortedMutants(Having(js, TimedOut)), why);
    }
  }

  lemma {:induction false} TimeoutsAt(ms: seq<Mutant>, why: Why)
    ensures |Timeouts(ms, why)| == |ms|
    ensures forall f :: f in Timeouts(ms, why) ==> f.Timeout?
    decreases |ms|
  {
    if ms != [] {
      TimeoutsAt(ms[..|ms| - 1], why);
    }
  }

  // ---- What is found ----

  lemma {:induction false} GatherFinds(input: Input, matches: seq<EntryMatch>, survivors: seq<Mutant>, f: Finding)
    requires |matches| == |input.accepted|
    ensures f in Gather(input, matches, survivors).findings
       <==> f.Survivor? && f.mutant in survivors && OnLines(input.lines, f.mutant) && !Accepts(input, matches, f.mutant)
    decreases |survivors|
  {
    hide OnLines;
    hide Accepts;
    if survivors != [] {
      var last := survivors[|survivors| - 1];
      GatherFinds(input, matches, survivors[..|survivors| - 1], f);
      assert survivors == survivors[..|survivors| - 1] + [last];
      assert forall m :: m in survivors <==> m in survivors[..|survivors| - 1] || m == last;
    }
  }

  /** What an entry's match is reported as. */
  ghost predicate Reports(i: nat, fit: EntryMatch, f: Finding) {
    if |fit.survivors| > 1 then f == Ambiguous(i, fit.survivors)
    else if |fit.survivors| == 1 || fit.pending then false
    else if fit.caught then f == NowCaught(i)
    else f == NoLongerMatches(i)
  }

  lemma {:induction false} EntriesFind(input: Input, names: set<string>, matches: seq<EntryMatch>, n: nat, f: Finding)
    requires |matches| == |input.accepted| && n <= |matches|
    ensures f in EntryFindings(input, names, matches, n)
       <==> exists i :: 0 <= i < n && input.accepted[i].file in names && Reports(i, matches[i], f)
  {
    if n > 0 {
      EntriesFind(input, names, matches, n - 1, f);
    }
  }

  /** Each finding comes from one part of the verdict. */
  lemma FindingsSplit(run: Run, input: Input, f: Finding)
    requires Judges(run, input)
    ensures var js, matches := AllJudged(run.report.value), MatchesOf(run, input);
            && (f.Survivor? ==> (f in VerdictOf(run, input).findings
                  <==> f in Gather(input, matches, SortedMutants(Having(js, Lived))).findings))
            && (!f.Survivor? && !f.Timeout? ==> (f in VerdictOf(run, input).findings
                  <==> f in EntryFindings(input, FileNames(run.report.value), matches, |matches|)))
  {
    hide Gather;
    hide EntryFindings;
    hide Having;
    hide SortedMutants;
    hide WarningsFor;
    hide TimedOutDirs;
    hide Timeouts;
    var js, matches := AllJudged(run.report.value), MatchesOf(run, input);
    hide Matches;
    GatherFinds(input, matches, SortedMutants(Having(js, Lived)), f);
    EntriesFind(input, FileNames(run.report.value), matches, |matches|, f);
    forall why {
      TimeoutsAt(SortedMutants(Having(js, TimedOut)), why);
    }
  }

  /** The verdict of a run whose report is judged, and its entries' matches. */
  ghost function VerdictOf(run: Run, input: Input): Verdict
    requires Judges(run, input)
  {
    DecisionOf(run, input).verdict
  }

  function MatchesOf(run: Run, input: Input): (matches: seq<EntryMatch>)
    requires run.report.Some?
    ensures |matches| == |input.accepted|
  {
    Matches(AllJudged(run.report.value), input, run.Trusted())
  }

  /** A check fails for exactly the survivors on changed lines that no entry accepts. */
  lemma SurvivorsFound(run: Run, input: Input, m: Mutant)
    requires Judges(run, input)
    ensures Survivor(m) in VerdictOf(run, input).findings
       <==> Judged(m, Lived) in AllJudged(run.report.value) && OnLines(input.lines, m) && !Accepts(input, MatchesOf(run, input), m)
  {
    hide MatchesOf;
    hide VerdictOf;
    var lived := Having(AllJudged(run.report.value), Lived);
    FindingsSplit(run, input, Survivor(m));
    GatherFinds(input, MatchesOf(run, input), SortedMutants(lived), Survivor(m));
    SortedKeeps(lived);
    HavingHolds(AllJudged(run.report.value), Lived, m);
  }

  /** What the run says of the mutants an entry matches. */
  ghost predicate MatchedHas(run: Run, input: Input, e: Entry, status: Status)
    requires run.report.Some?
  {
    exists j :: j in AllJudged(run.report.value) && input.index.Matches(e, j.mutant) && j.status == status
  }

  /** An entry is stale exactly when its file was mutated and either nothing it matches was
      mutated at all, or every mutant it matches was caught: killed, or timed out in a run
      whose timeouts count. */
  lemma StaleExactlyWhen(run: Run, input: Input, i: nat)
    requires Judges(run, input) && i < |input.accepted|
    ensures var e, findings := input.accepted[i], VerdictOf(run, input).findings;
            && (NoLongerMatches(i) in findings
                <==> e.file in FileNames(run.report.value) && forall status :: !MatchedHas(run, input, e, status))
            && (NowCaught(i) in findings
                <==> && e.file in FileNames(run.report.value)
                     && (exists status :: MatchedHas(run, input, e, status))
                     && forall status :: MatchedHas(run, input, e, status) ==> Caught(status, run.Trusted()))
  {
    hide VerdictOf;
    hide AllJudged;
    hide Index.Matches;
    var e, js, matches := input.accepted[i], AllJudged(run.report.value), MatchesOf(run, input);
    var fit := MatchOf(js, input.index, e, run.Trusted());
    assert matches[i] == fit;
    FindingsSplit(run, input, NoLongerMatches(i));
    FindingsSplit(run, input, NowCaught(i));
    EntriesFind(input, FileNames(run.report.value), matches, |matches|, NoLongerMatches(i));
    EntriesFind(input, FileNames(run.report.value), matches, |matches|, NowCaught(i));
    FitSays(run, input, e);
  }

  lemma FitSays(run: Run, input: Input, e: Entry)
    requires Judges(run, input)
    ensures var fit := MatchOf(AllJudged(run.report.value), input.index, e, run.Trusted());
            && (|fit.survivors| > 0 <==> MatchedHas(run, input, e, Lived))
            && (fit.caught <==> exists status :: MatchedHas(run, input, e, status) && Caught(status, run.Trusted()))
            && (fit.pending <==> exists status :: MatchedHas(run, input, e, status) && Pending(status, run.Trusted()))
            && (forall status :: MatchedHas(run, input, e, status) ==> status == Lived || Caught(status, run.Trusted()) || Pending(status, run.Trusted()))
  {
    hide AllJudged;
    hide Index.Matches;
    hide SurvivorLines;
    hide Run.Trusted;
    var js := AllJudged(run.report.value);
    var fit := MatchOf(js, input.index, e, run.Trusted());
    MatchLines(js, input.index, e, run.Trusted());
    if |fit.survivors| > 0 {
      assert fit.survivors[0] in fit.survivors;
      assert HasSurvivor(js, input.index, e, fit.survivors[0]);
    }
    if MatchedHas(run, input, e, Lived) {
      var j :| j in js && input.index.Matches(e, j.mutant) && j.status == Lived;
      assert HasSurvivor(js, input.index, e, j.mutant.line);
      assert j.mutant.line in fit.survivors;
    }
    forall status | MatchedHas(run, input, e, status)
      ensures status == Lived || Caught(status, run.Trusted()) || Pending(status, run.Trusted())
    {
      var j :| j in js && input.index.Matches(e, j.mutant) && j.status == status;
      assert !Wrong(input, j);
    }
  }

  /** Accepted entries stay judged: in a judged run no mutant on a line an entry names was
      skipped, because mutatedLines ran every such line.  parseAccepted refuses blank lines. */
  lemma AcceptedStayJudged(run: Run, input: Input, e: Entry, j: Judged)
    requires Judges(run, input) && e in input.accepted && TrimSpace(e.line) != ""
    requires j in AllJudged(run.report.value) && input.index.Names(e, j.mutant.file, j.mutant.line)
    ensures j.status != Skipped
  {
    hide AllJudged;
    assert !Wrong(input, j);
    assert Named(input, j.mutant.file, j.mutant.line);
  }

  /** An entry with an occurrence is never ambiguous. */
  lemma NeverAmbiguous(run: Run, input: Input, i: nat)
    requires Judges(run, input) && i < |input.accepted| && input.accepted[i].occurrence > 0
    ensures |MatchesOf(run, input)[i].survivors| <= 1
    ensures forall lines :: Ambiguous(i, lines) !in VerdictOf(run, input).findings
  {
    hide AllJudged;
    hide VerdictOf;
    var e, js, matches := input.accepted[i], AllJudged(run.report.value), MatchesOf(run, input);
    var lines := matches[i].survivors;
    MatchLines(js, input.index, e, run.Trusted());
    if |lines| > 1 {
      assert lines[0] in lines && lines[1] in lines;
      assert HasSurvivor(js, input.index, e, lines[0]) && HasSurvivor(js, input.index, e, lines[1]);
      OccurrenceNamesOneLine(input.index, e, e.file, lines[0], lines[1]);
    }
    forall lines ensures Ambiguous(i, lines) !in VerdictOf(run, input).findings {
      FindingsSplit(run, input, Ambiguous(i, lines));
      EntriesFind(input, FileNames(run.report.value), matches, |matches|, Ambiguous(i, lines));
    }
  }

  // ---- Timeouts ----

  function JudgedOf(run: Run): seq<Judged>
    requires run.report.Some?
  {
    AllJudged(run.report.value)
  }

  /** A run is incomplete exactly when a timeout's limit is not trusted, or when at least three
      mutants timed out and every covered one did. */
  lemma IncompleteExactlyWhen(run: Run, input: Input)
    requires Judges(run, input)
    ensures VerdictOf(run, input).incomplete
       <==> || (|Having(JudgedOf(run), TimedOut)| > 0 && !run.Trusted())
            || (|Having(JudgedOf(run), TimedOut)| >= 3
                && (forall m :: Judged(m, Killed) !in JudgedOf(run)) && (forall m :: Judged(m, Lived) !in JudgedOf(run)))
  {
    hide AllJudged;
    hide SortedMutants;
    hide WarningsFor;
    hide TimedOutDirs;
    hide Gather;
    hide Having;
    hide Run.Trusted;
    var js, matches := AllJudged(run.report.value), MatchesOf(run, input);
    hide Matches;
    SortedKeeps(Having(js, Lived));
    GatherKeeps(input, matches, SortedMutants(Having(js, Lived)));
    NoneHave(js, Killed);
    NoneHave(js, Lived);
  }

  lemma NoneHave(js: seq<Judged>, status: Status)
    ensures |Having(js, status)| == 0 <==> forall m :: Judged(m, status) !in js
  {
    if |Having(js, status)| > 0 {
      assert Having(js, status)[0] in Having(js, status);
      HavingHolds(js, status, Having(js, status)[0]);
    }
    forall m | m in Having(js, status) ensures Judged(m, status) in js {
      HavingHolds(js, status, m);
    }
    forall m | Judged(m, status) in js ensures m in Having(js, status) {
      HavingHolds(js, status, m);
    }
  }

  /** An incomplete run reports each mutant that timed out, with the limit it had; a complete
      one reports none. */
  lemma TimeoutsFound(run: Run, input: Input, m: Mutant, why: Why)
    requires Judges(run, input)
    ensures Timeout(m, why) in VerdictOf(run, input).findings
       <==> && VerdictOf(run, input).incomplete && Judged(m, TimedOut) in AllJudged(run.report.value)
            && why == (if run.Trusted() then LikeEveryOther
                       else if run.Limit().Some? then Short(run.Limit().value) else Unreported)
  {
    hide AllJudged;
    hide SortedMutants;
    hide WarningsFor;
    hide TimedOutDirs;
    hide Gather;
    hide EntryFindings;
    hide Having;
    hide Run.Trusted;
    hide Run.Limit;
    hide Timeouts;
    var js, matches := AllJudged(run.report.value), MatchesOf(run, input);
    hide Matches;
    var timedOut := Having(js, TimedOut);
    var cause := if run.Trusted() then LikeEveryOther else if run.Limit().Some? then Short(run.Limit().value) else Unreported;
    GatherFinds(input, matches, SortedMutants(Having(js, Lived)), Timeout(m, why));
    EntriesFind(input, FileNames(run.report.value), matches, |matches|, Timeout(m, why));
    TimeoutsHold(SortedMutants(timedOut), cause, m, why);
    SortedKeeps(timedOut);
    HavingHolds(js, TimedOut, m);
    if m in timedOut {
      assert |timedOut| > 0;
    }
  }

  lemma {:induction false} TimeoutsHold(ms: seq<Mutant>, why: Why, m: Mutant, other: Why)
    ensures Timeout(m, other) in Timeouts(ms, why) <==> m in ms && other == why
    decreases |ms|
  {
    if ms != [] {
      TimeoutsHold(ms[..|ms| - 1], why, m, other);
      assert ms == ms[..|ms| - 1] + [ms[|ms| - 1]];
    }
  }

  /** A complete run warns of exactly the directories where at least two mutants, and at least
      half of the covered ones, timed out; an incomplete one of none. */
  lemma WarnedExactlyWhen(run: Run, input: Input, w: Warning)
    requires Judges(run, input)
    ensures w in VerdictOf(run, input).summary.warnings
       <==> && !VerdictOf(run, input).incomplete
            && w.timedOut == CountIn(Having(JudgedOf(run), TimedOut), w.dir) && w.covered == CoveredIn(JudgedOf(run), w.dir)
            && w.timedOut >= 2 && 2 * w.timedOut >= w.covered
  {
    hide AllJudged;
    hide SortedMutants;
    hide Gather;
    hide EntryFindings;
    hide Having;
    hide CoveredIn;
    hide Matches;
    var js := AllJudged(run.report.value);
    WarningsHold(js, Ascending(TimedOutDirs(js)), w);
    if CountIn(Having(js, TimedOut), w.dir) > 0 {
      CountFrom(Having(js, TimedOut), w.dir);
    }
  }

  lemma {:induction false} WarningsHold(js: seq<Judged>, dirs: seq<string>, w: Warning)
    ensures w in WarningsFor(js, dirs)
       <==> && w.dir in dirs && w.timedOut == CountIn(Having(js, TimedOut), w.dir) && w.covered == CoveredIn(js, w.dir)
            && w.timedOut >= 2 && 2 * w.timedOut >= w.covered
    decreases |dirs|
  {
    hide Having;
    hide CoveredIn;
    hide CountIn;
    if dirs != [] {
      WarningsHold(js, dirs[..|dirs| - 1], w);
      assert dirs == dirs[..|dirs| - 1] + [dirs[|dirs| - 1]];
    }
  }

  lemma {:induction false} CountFrom(ms: seq<Mutant>, dir: string)
    requires CountIn(ms, dir) > 0
    ensures exists m :: m in ms && Dir(m.file) == dir
    decreases |ms|
  {
    hide Dir;
    var last := ms[|ms| - 1];
    assert last in ms;
    if Dir(last.file) != dir {
      CountFrom(ms[..|ms| - 1], dir);
    }
  }

  // ---- Running again with more time ----

  const MILLISECOND := 1_000_000

  function AtLeastMillisecond(elapsed: int): int {
    if elapsed < MILLISECOND then MILLISECOND else elapsed
  }

  /** Some mutant of the report timed out. */
  predicate TimedOutIn(files: seq<MutatedFile>) {
    exists f :: f in files && exists m :: m in f.mutations && m.status == TimedOut
  }

  /** longerCoefficient. */
  function LongerCoefficient(run: Run): Option<int> {
    if run.exitCode != 0 || !run.reported || run.report.None? then None
    else
      var limit := if run.Limit().Some? then run.Limit().value else 0;
      if !TimedOutIn(run.report.value) || run.coverage.None? || limit >= MUTANT_TIME_FLOOR then None
      else
        var elapsed := AtLeastMillisecond(run.coverage.value);
        Some((2 * MUTANT_TIME_FLOOR + elapsed - 1) / elapsed)
  }

  /** A rerun is asked for exactly when a judged run's timeouts are under a measured limit too
      short to trust. */
  lemma LongerIsAskedWhen(run: Run, input: Input)
    requires Judges(run, input)
    ensures LongerCoefficient(run).Some?
       <==> run.coverage.Some? && !run.Trusted() && VerdictOf(run, input).summary.timedOut > 0
  {
    TimedOutCounted(run.report.value);
    hide TimedOutIn;
    hide AllJudged;
    hide Matches;
    hide Gather;
    hide Having;
    hide SortedMutants;
    hide WarningsFor;
    hide TimedOutDirs;
  }

  /** Its coefficient is the least that gives this run's coverage time, taken as at least a
      millisecond, twice the floor: a rerun whose coverage takes at least half as long has a
      limit its timeouts count under. */
  lemma LongerIsEnough(run: Run, again: Run)
    requires LongerCoefficient(run).Some?
    ensures var c, elapsed := LongerCoefficient(run).value, AtLeastMillisecond(run.coverage.value);
            && c * elapsed >= 2 * MUTANT_TIME_FLOOR > (c - 1) * elapsed
            && (again.coefficient == c && again.coverage.Some? && 2 * again.coverage.value >= elapsed ==> again.Trusted())
  {
    hide TimedOutIn;
    var c, elapsed := LongerCoefficient(run).value, AtLeastMillisecond(run.coverage.value);
    RoundsUp(2 * MUTANT_TIME_FLOOR, elapsed);
    if again.coefficient == c && again.coverage.Some? && 2 * again.coverage.value >= elapsed {
      HalfIsEnough(c, elapsed, again.coverage.value);
    }
  }

  lemma RoundsUp(total: int, part: int)
    requires total > 0 && part > 0
    ensures var c := (total + part - 1) / part; c >= 1 && c * part >= total > (c - 1) * part
  {
    var c := (total + part - 1) / part;
    assert total + part - 1 == c * part + (total + part - 1) % part;
    assert (c - 1) * part == c * part - part;
    PositiveFactor(c, part);
  }

  lemma PositiveFactor(c: int, part: int)
    requires c * part > 0 && part > 0
    ensures c >= 1
  {
  }

  lemma HalfIsEnough(c: int, elapsed: int, again: int)
    requires c >= 1 && c * elapsed >= 2 * MUTANT_TIME_FLOOR && 2 * again >= elapsed
    ensures again * c >= MUTANT_TIME_FLOOR
  {
    assert c * (2 * again) >= c * elapsed;
  }

  lemma TimedOutCounted(files: seq<MutatedFile>)
    ensures TimedOutIn(files) <==> |Having(AllJudged(files), TimedOut)| > 0
  {
    var js := AllJudged(files);
    var timedOut := Having(js, TimedOut);
    if |timedOut| > 0 {
      HavingHolds(js, TimedOut, timedOut[0]);
      assert timedOut[0] in timedOut;
      JudgedComesFrom(files, Judged(timedOut[0], TimedOut));
    }
    if TimedOutIn(files) {
      var f :| f in files && exists m :: m in f.mutations && m.status == TimedOut;
      var m :| m in f.mutations && m.status == TimedOut;
      var i :| 0 <= i < |files| && files[i] == f;
      var n :| 0 <= n < |f.mutations| && f.mutations[n] == m;
      FileJudgedAt(f.name, f.mutations, n);
      ReportHolds(files, i, Judged(MutantOf(f.name, m), TimedOut));
      HavingHolds(js, TimedOut, MutantOf(f.name, m));
    }
  }

  lemma {:induction false} JudgedComesFrom(files: seq<MutatedFile>, j: Judged)
    requires j in AllJudged(files)
    ensures exists f :: f in files && exists m :: m in f.mutations && m.status == j.status
    decreases |files|
  {
    var last := files[|files| - 1];
    if j in AllJudged(files[..|files| - 1]) {
      JudgedComesFrom(files[..|files| - 1], j);
    } else {
      FileCounts(last.name, last.mutations, j);
      assert j in multiset(FileJudged(last.name, last.mutations));
      var m := Mutation(j.mutant.mutator, j.status, j.mutant.line, j.mutant.column);
      assert m in multiset(last.mutations);
      assert last in files && m in last.mutations;
    }
  }

  lemma MatchesLength(js: seq<Judged>, input: Input, trusted: bool)
    ensures |Matches(js, input, trusted)| == |input.accepted|
  {
  }
}
