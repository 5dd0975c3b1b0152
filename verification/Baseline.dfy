/**
  The baseline of accepted findings (internal/verify/baseline.go): matching, Apply and Record.
  Findings are decoded from a result's details, and what a check selects is a pair of
  predicates on codes.
 */
module Baseline {
  import opened Options
  import opened Text
  import opened Messages
  import opened Order

  type Kind = string

  const GO_LINT: Kind := "go-lint"
  const BASELINE_KINDS: set<Kind> := {GO_LINT, "go-http", "go-sql", "shell-lint", "go-imports"}
  const STALE := "baseline-stale"

  datatype Status = Passed | Failed | Errored | Incomplete | Cancelled

  datatype Finding = Finding(code: string, message: string, file: string, line: int, column: int, advisory: bool, baselined: bool)

  /** A result's details: findings in the shared shape, or something that holds none. */
  datatype Details = Shared(findings: seq<Finding>) | Opaque

  datatype Result = Result(id: string, status: Status, error: string, details: Details, skippedModules: bool)

  /** A planned check: its kind and target directory, whether it runs natively, whether it has
      rule modules, and the core and community codes its patterns select. */
  datatype Check = Check(kind: Kind, dir: string, native: bool, modules: bool, core: string -> bool, community: string -> bool)

  /** A report, with planned() as a map from result to check. */
  datatype Report = Report(run: string, checks: map<string, Check>, results: seq<Result>)

  /** `count` is at least 1 in a baseline file. */
  datatype Entry = Entry(kind: Kind, dir: string, file: string, code: string, message: string, count: nat)

  datatype Key = Key(kind: Kind, dir: string, file: string, code: string, message: string)

  datatype Baseline = Baseline(path: string, entries: seq<Entry>, lines: seq<int>)

  function KeyOf(e: Entry): Key {
    Key(e.kind, e.dir, e.file, e.code, Normalize(e.message))
  }

  function FindingKey(check: Check, f: Finding): Key {
    Key(check.kind, check.dir, f.file, f.code, Normalize(f.message))
  }

  predicate Completed(result: Result) {
    result.status == Passed || result.status == Failed
  }

  function Found(result: Result): seq<Finding> {
    if result.details.Shared? then result.details.findings else []
  }

  /** replaceFindings. */
  function Replaced(result: Result, findings: seq<Finding>): Result {
    if result.details.Shared? then result.(details := Shared(findings)) else result
  }

  predicate CouldReport(check: Check, skipped: bool, code: string) {
    if check.kind != GO_LINT then true
    else if '_' !in code then check.core(code)
    else check.modules && !skipped && check.community(code)
  }

  predicate Reported(result: Result, code: string) {
    exists f :: f in Found(result) && f.code == code
  }

  predicate Covers(check: Check, result: Result, e: Entry) {
    && check.kind == e.kind && check.dir == e.dir
    && (Reported(result, e.code) || CouldReport(check, result.skippedModules, e.code))
  }

  predicate Produces(check: Check, e: Entry) {
    check.kind == e.kind && check.dir == e.dir && CouldReport(check, check.native, e.code)
  }

  /** A finding a baseline can hold. */
  predicate Eligible(f: Finding) {
    f.code != STALE && !f.advisory
  }

  predicate Fails(f: Finding) {
    !f.advisory && !f.baselined
  }

  function At(counts: map<Key, nat>, key: Key): nat {
    if key in counts then counts[key] else 0
  }

  /** How many findings share a key. */
  function Matching(check: Check, findings: seq<Finding>, key: Key): nat
    decreases |findings|
  {
    if findings == [] then 0
    else
      var last := findings[|findings| - 1];
      Matching(check, findings[..|findings| - 1], key) + if Eligible(last) && FindingKey(check, last) == key then 1 else 0
  }

  // ---- Apply: what it does ----

  /** The checks whose results a baseline judges. */
  predicate JudgedAt(report: Report, i: int) {
    && 0 <= i < |report.results|
    && var result := report.results[i];
      && result.id in report.checks && report.checks[result.id].kind in BASELINE_KINDS && Completed(result)
  }

  function CheckAt(report: Report, i: int): Check
    requires JudgedAt(report, i)
  {
    report.checks[report.results[i].id]
  }

  /** What the entries a check covers allow of each key. */
  function Allowances(entries: seq<Entry>, check: Check, result: Result): map<Key, nat>
    decreases |entries|
  {
    if entries == [] then map[]
    else
      var before, last := Allowances(entries[..|entries| - 1], check, result), entries[|entries| - 1];
      if Covers(check, result, last) then before[KeyOf(last) := last.count] else before
  }

  /** Findings with the first ones of each key, up to its allowance, baselined. */
  function Marked(check: Check, findings: seq<Finding>, allowed: map<Key, nat>): seq<Finding>
    decreases |findings|
  {
    if findings == [] then []
    else
      var before, last := findings[..|findings| - 1], findings[|findings| - 1];
      Marked(check, before, allowed) + [if Marks(check, before, last, allowed) then last.(baselined := true) else last]
  }

  predicate Marks(check: Check, before: seq<Finding>, f: Finding, allowed: map<Key, nat>) {
    Eligible(f) && Matching(check, before, FindingKey(check, f)) < At(allowed, FindingKey(check, f))
  }

  function MarkCount(check: Check, findings: seq<Finding>, allowed: map<Key, nat>): nat
    decreases |findings|
  {
    if findings == [] then 0
    else
      var before, last := findings[..|findings| - 1], findings[|findings| - 1];
      MarkCount(check, before, allowed) + if Marks(check, before, last, allowed) then 1 else 0
  }

  function Minus(a: nat, b: nat): nat {
    if a <= b then 0 else a - b
  }

  function AllowancesAt(b: Baseline, report: Report, i: int): map<Key, nat>
    requires JudgedAt(report, i)
  {
    Allowances(b.entries, CheckAt(report, i), report.results[i])
  }

  /** What a judged check left unused of a key. */
  function Shortfall(b: Baseline, report: Report, i: int, key: Key): nat
    requires JudgedAt(report, i)
  {
    Minus(At(AllowancesAt(b, report, i), key), Matching(CheckAt(report, i), Found(report.results[i]), key))
  }

  predicate CoveredAt(report: Report, i: int, e: Entry) {
    JudgedAt(report, i) && Covers(CheckAt(report, i), report.results[i], e)
  }

  /** What each covering check of the first n results left unused of an entry. */
  function Shortfalls(b: Baseline, report: Report, index: nat, n: nat): seq<nat>
    requires index < |b.entries| && n <= |report.results|
  {
    if n == 0 then []
    else
      Shortfalls(b, report, index, n - 1)
      + if CoveredAt(report, n - 1, b.entries[index]) then [Shortfall(b, report, n - 1, KeyOf(b.entries[index]))] else []
  }

  function FirstCover(b: Baseline, report: Report, index: nat, n: nat): Option<nat>
    requires index < |b.entries| && n <= |report.results|
  {
    if n == 0 then None
    else if FirstCover(b, report, index, n - 1).Some? then FirstCover(b, report, index, n - 1)
    else if CoveredAt(report, n - 1, b.entries[index]) then Some(n - 1)
    else None
  }

  /** slices.Min. */
  function Min(s: seq<nat>): nat
    requires s != []
    decreases |s|
  {
    if |s| == 1 then s[0]
    else
      var rest := Min(s[..|s| - 1]);
      if s[|s| - 1] < rest then s[|s| - 1] else rest
  }

  /** What an entry is short of in every check that covers it. */
  function Missing(b: Baseline, report: Report, index: nat): nat
    requires index < |b.entries|
  {
    var counts := Shortfalls(b, report, index, |report.results|);
    if counts == [] then 0 else Min(counts)
  }

  /** A stale or orphaned entry's finding, as far as it differs from another's. */
  datatype Notice = Notice(line: int, message: string)

  function LineOf(b: Baseline, index: nat): int {
    if index < |b.lines| then b.lines[index] else 1
  }

  function StaleNotice(b: Baseline, index: nat, missing: nat): Notice
    requires index < |b.entries|
  {
    var e := b.entries[index];
    Notice(LineOf(b, index),
           Itoa(missing) + " of " + Itoa(e.count) + " baselined " + e.code + " findings in " + e.file + " no longer occur: " + e.message)
  }

  function StaleFinding(path: string, notice: Notice): Finding {
    Finding(STALE, notice.message, path, notice.line, 0, false, false)
  }

  function StaleFindings(path: string, notices: seq<Notice>): (fs: seq<Finding>)
    ensures |fs| == |notices|
    ensures forall f :: f in fs ==> f.code == STALE && Fails(f)
    decreases |notices|
  {
    if notices == [] then [] else StaleFindings(path, notices[..|notices| - 1]) + [StaleFinding(path, notices[|notices| - 1])]
  }

  predicate NoticeLe(a: Notice, b: Notice) {
    a.line < b.line || (a.line == b.line && TextLe(a.message, b.message))
  }

  /** The entry is charged to this result: it is short everywhere, and this is its first cover. */
  predicate ChargedTo(b: Baseline, report: Report, index: nat, i: int) {
    && index < |b.entries|
    && FirstCover(b, report, index, |report.results|) == Some(i)
    && Missing(b, report, index) > 0
  }

  /** The notices charged to a result, for those of the first n entries in `among`. */
  ghost function Notices(b: Baseline, report: Report, i: int, among: set<nat>, n: nat): seq<Notice>
    requires n <= |b.entries|
  {
    if n == 0 then []
    else
      Notices(b, report, i, among, n - 1)
      + if n - 1 in among then NoticeTo(b, report, n - 1, i) else []
  }

  /** What an entry is charged to a result. */
  function NoticeTo(b: Baseline, report: Report, index: nat, i: int): seq<Notice>
    requires index < |b.entries|
  {
    if ChargedTo(b, report, index, i) then [StaleNotice(b, index, Missing(b, report, index))] else []
  }

  const NO_LONGER := "baseline entries no longer match; remove them"

  /** judged, once its stale findings are in order. */
  function JudgedResult(path: string, result: Result, notices: seq<Notice>): Result {
    var findings := Found(result) + StaleFindings(path, notices);
    var settled := if notices != [] then Replaced(result, findings) else result;
    if exists f :: f in findings && Fails(f) && f.code != STALE then settled.(status := Failed)
    else if notices != [] then settled.(status := Failed, error := NO_LONGER)
    else settled.(status := Passed, error := "")
  }

  function MarkedResult(b: Baseline, report: Report, i: int): Result
    requires JudgedAt(report, i)
  {
    var result := report.results[i];
    Replaced(result, Marked(CheckAt(report, i), Found(result), AllowancesAt(b, report, i)))
  }

  function Indices(n: nat): (s: set<nat>)
    ensures forall i: nat :: i in s <==> i < n
  {
    if n == 0 then {} else Indices(n - 1) + {n - 1}
  }

  ghost function AppliedAt(b: Baseline, report: Report, i: int): Result
    requires 0 <= i < |report.results|
  {
    if !JudgedAt(report, i) then report.results[i]
    else
      var notices := Notices(b, report, i, Indices(|b.entries|), |b.entries|);
      JudgedResult(b.path, MarkedResult(b, report, i), Sort(notices, NoticeLe))
  }

  function Baselined(b: Baseline, report: Report, n: nat): nat
    requires n <= |report.results|
  {
    if n == 0 then 0
    else
      Baselined(b, report, n - 1)
      + if JudgedAt(report, n - 1) then MarkCount(CheckAt(report, n - 1), Found(report.results[n - 1]), AllowancesAt(b, report, n - 1)) else 0
  }

  /** An entry nothing configured could report, and nothing in this run covers. */
  predicate Orphan(report: Report, configured: seq<Check>, e: Entry) {
    && (forall k :: 0 <= k < |configured| ==> !Produces(configured[k], e))
    && (forall result :: result in report.results ==>
          !(result.id in report.checks && Covers(report.checks[result.id], result, e)))
  }

  function OrphanNotice(b: Baseline, index: nat, run: string): Notice
    requires index < |b.entries|
  {
    var e := b.entries[index];
    Notice(LineOf(b, index),
           "no configured check can report the " + Itoa(e.count) + " baselined " + e.kind + " " + e.code + " "
           + (if e.count == 1 then "finding" else "findings") + " in " + e.file + " (dir \"" + e.dir
           + "\"), so this entry can never match; delete it, or run verify " + run + " --write-baseline to drop it: " + e.message)
  }

  function Orphans(b: Baseline, report: Report, configured: seq<Check>, n: nat): seq<Notice>
    requires n <= |b.entries|
  {
    if n == 0 then []
    else
      Orphans(b, report, configured, n - 1)
      + if Orphan(report, configured, b.entries[n - 1]) then [OrphanNotice(b, n - 1, report.run)] else []
  }

  /** BaselineSummary, and the report's results and status. */
  datatype Applied = Applied(results: seq<Result>, status: Status, baselined: nat, stale: nat, orphaned: seq<Notice>)

  predicate AllPassed(results: seq<Result>) {
    forall i :: 0 <= i < |results| ==> results[i].status == Passed
  }

  function ReportStatus(results: seq<Result>): Status {
    if results == [] then Incomplete else if AllPassed(results) then Passed else Failed
  }

  /** The entries some check covers and every covering check left partly unused. */
  ghost function StaleAmong(b: Baseline, report: Report, among: set<nat>): set<nat> {
    set index | index in among && index < |b.entries| && Missing(b, report, index) > 0
  }

  /** What Apply promises of its result. */
  ghost predicate IsApplied(b: Baseline, report: Report, configured: seq<Check>, a: Applied) {
    && |a.results| == |report.results|
    && (forall i :: 0 <= i < |a.results| ==> a.results[i] == AppliedAt(b, report, i))
    && a.baselined == Baselined(b, report, |report.results|)
    && a.orphaned == Orphans(b, report, configured, |b.entries|)
    && a.stale == |StaleAmong(b, report, Indices(|b.entries|))| + |a.orphaned|
    && a.status == (if a.orphaned != [] && ReportStatus(a.results) == Passed then Failed else ReportStatus(a.results))
  }

  // ---- Apply, as the source writes it ----

  lemma AllowancesGrow(entries: seq<Entry>, n: nat, check: Check, result: Result)
    requires n < |entries|
    ensures Allowances(entries[..n + 1], check, result)
         == if Covers(check, result, entries[n]) then Allowances(entries[..n], check, result)[KeyOf(entries[n]) := entries[n].count]
            else Allowances(entries[..n], check, result)
  {
    assert entries[..n + 1][..n] == entries[..n];
  }

  /** The loop over the entries: what a check allows of each key, and which entries it covers. */
  method CoverEntries(b: Baseline, check: Check, result: Result) returns (left: map<Key, nat>, covering: seq<nat>)
    ensures left == Allowances(b.entries, check, result)
    ensures forall index: nat :: index in covering <==> index < |b.entries| && Covers(check, result, b.entries[index])
    ensures forall x, y :: 0 <= x < y < |covering| ==> covering[x] < covering[y]
  {
    hide Covers;
    left, covering := map[], [];
    for n := 0 to |b.entries|
      invariant left == Allowances(b.entries[..n], check, result)
      invariant forall index: nat :: index in covering <==> index < n && Covers(check, result, b.entries[index])
      invariant forall x, y :: 0 <= x < y < |covering| ==> covering[x] < covering[y]
    {
      AllowancesGrow(b.entries, n, check, result);
      if Covers(check, result, b.entries[n]) {
        assert forall x :: 0 <= x < |covering| ==> covering[x] in covering;
        left := left[KeyOf(b.entries[n]) := b.entries[n].count];
        covering := covering + [n];
      }
    }
    assert b.entries[..|b.entries|] == b.entries;
  }

  /** The loop over a result's findings: the first ones of each key use its allowance up. */
  method MarkFindings(check: Check, found: seq<Finding>, allowed: map<Key, nat>)
    returns (findings: seq<Finding>, left: map<Key, nat>, count: nat)
    ensures findings == Marked(check, found, allowed) && count == MarkCount(check, found, allowed)
    ensures forall key :: At(left, key) == Minus(At(allowed, key), Matching(check, found, key))
  {
    hide FindingKey;
    findings, left, count := [], allowed, 0;
    for j := 0 to |found|
      invariant findings == Marked(check, found[..j], allowed) && count == MarkCount(check, found[..j], allowed)
      invariant forall key :: At(left, key) == Minus(At(allowed, key), Matching(check, found[..j], key))
    {
      var f := found[j];
      var key := FindingKey(check, f);
      assert found[..j + 1][..j] == found[..j];
      if f.code != STALE && !f.advisory && At(left, key) > 0 {
        left := left[key := At(left, key) - 1];
        findings := findings + [f.(baselined := true)];
        count := count + 1;
      } else {
        findings := findings + [f];
      }
    }
    assert found[..|found|] == found;
  }

  function UnusedAt(unused: map<nat, seq<nat>>, index: nat): seq<nat> {
    if index in unused then unused[index] else []
  }

  function CoverAt(firstCover: map<nat, nat>, index: nat): Option<nat> {
    if index in firstCover then Some(firstCover[index]) else None
  }

  /** What Apply's first loop has gathered from the first n results. */
  ghost predicate Gathered(b: Baseline, report: Report, n: nat, unused: map<nat, seq<nat>>, firstCover: map<nat, nat>)
    requires n <= |report.results|
  {
    && (forall index: nat :: index in unused ==> index < |b.entries| && unused[index] != [])
    && (forall index: nat :: index < |b.entries| ==>
          UnusedAt(unused, index) == Shortfalls(b, report, index, n) && CoverAt(firstCover, index) == FirstCover(b, report, index, n))
  }

  /** One covered entry: what is left of it is appended, and its first cover kept. */
  method NoteOne(i: nat, index: nat, left: nat, unused: map<nat, seq<nat>>, firstCover: map<nat, nat>)
    returns (allUnused: map<nat, seq<nat>>, covers: map<nat, nat>)
    ensures UnusedAt(allUnused, index) == UnusedAt(unused, index) + [left]
    ensures CoverAt(covers, index) == if CoverAt(firstCover, index).Some? then CoverAt(firstCover, index) else Some(i)
    ensures forall other: nat :: other != index ==>
              UnusedAt(allUnused, other) == UnusedAt(unused, other) && CoverAt(covers, other) == CoverAt(firstCover, other)
    ensures allUnused.Keys == unused.Keys + {index}
  {
    allUnused, covers := unused[index := UnusedAt(unused, index) + [left]], firstCover;
    if index !in covers {
      covers := covers[index := i];
    }
  }

  /** The loop over the entries one check covers. */
  method NoteCovered(b: Baseline, i: nat, covering: seq<nat>, left: map<Key, nat>, unused: map<nat, seq<nat>>, firstCover: map<nat, nat>)
    returns (allUnused: map<nat, seq<nat>>, covers: map<nat, nat>)
    requires forall index :: index in covering ==> index < |b.entries|
    requires forall x, y :: 0 <= x < y < |covering| ==> covering[x] < covering[y]
    ensures forall index: nat :: index in covering ==> Noted(b, i, index, left, unused, firstCover, allUnused, covers)
    ensures forall index: nat :: index !in covering ==>
              UnusedAt(allUnused, index) == UnusedAt(unused, index) && CoverAt(covers, index) == CoverAt(firstCover, index)
    ensures forall index :: index in allUnused <==> index in unused || index in covering
  {
    hide KeyOf;
    hide UnusedAt;
    hide CoverAt;
    hide At;
    allUnused, covers := unused, firstCover;
    ghost var done: set<nat> := {};
    for x := 0 to |covering|
      invariant NotedAll(b, i, done, left, unused, firstCover, allUnused, covers)
      invariant Members(covering, x, done)
    {
      var index := covering[x];
      assert index in covering;
      MembersGrow(covering, x, done);
      ghost var were, had := allUnused, covers;
      allUnused, covers := NoteOne(i, index, At(left, KeyOf(b.entries[index])), allUnused, covers);
      NotedGrows(b, i, done, index, left, unused, firstCover, were, had, allUnused, covers);
      done := done + {index};
    }
    MembersAre(covering, done);
  }

  /** The first x elements of a list. */
  ghost predicate Members(covering: seq<nat>, x: nat, done: set<nat>)
    requires x <= |covering|
  {
    && (forall y :: 0 <= y < x ==> covering[y] in done)
    && (forall index :: index in done ==> exists y :: 0 <= y < x && covering[y] == index)
  }

  lemma MembersGrow(covering: seq<nat>, x: nat, done: set<nat>)
    requires x < |covering| && Members(covering, x, done)
    requires forall x, y :: 0 <= x < y < |covering| ==> covering[x] < covering[y]
    ensures covering[x] !in done && Members(covering, x + 1, done + {covering[x]})
  {
  }

  lemma MembersAre(covering: seq<nat>, done: set<nat>)
    requires Members(covering, |covering|, done)
    ensures forall index: nat :: index in covering <==> index in done
  {
  }

  /** What noting some entries adds, and that it adds nothing to others. */
  ghost predicate NotedAll(b: Baseline, i: nat, done: set<nat>, left: map<Key, nat>, unused: map<nat, seq<nat>>, firstCover: map<nat, nat>,
                           allUnused: map<nat, seq<nat>>, covers: map<nat, nat>)
  {
    && (forall index: nat :: index in done ==> index < |b.entries| && Noted(b, i, index, left, unused, firstCover, allUnused, covers))
    && (forall index: nat :: index !in done ==>
          UnusedAt(allUnused, index) == UnusedAt(unused, index) && CoverAt(covers, index) == CoverAt(firstCover, index))
    && allUnused.Keys == unused.Keys + done
  }

  lemma NotedGrows(b: Baseline, i: nat, done: set<nat>, index: nat, left: map<Key, nat>, unused: map<nat, seq<nat>>, firstCover: map<nat, nat>,
                   were: map<nat, seq<nat>>, had: map<nat, nat>, allUnused: map<nat, seq<nat>>, covers: map<nat, nat>)
    requires NotedAll(b, i, done, left, unused, firstCover, were, had) && index !in done && index < |b.entries|
    requires UnusedAt(allUnused, index) == UnusedAt(were, index) + [At(left, KeyOf(b.entries[index]))]
    requires CoverAt(covers, index) == if CoverAt(had, index).Some? then CoverAt(had, index) else Some(i)
    requires forall other: nat :: other != index ==>
               UnusedAt(allUnused, other) == UnusedAt(were, other) && CoverAt(covers, other) == CoverAt(had, other)
    requires allUnused.Keys == were.Keys + {index}
    ensures NotedAll(b, i, done + {index}, left, unused, firstCover, allUnused, covers)
  {
    hide UnusedAt;
    hide CoverAt;
    hide At;
    hide KeyOf;
  }

  /** What noting an entry adds. */
  ghost predicate Noted(b: Baseline, i: nat, index: nat, left: map<Key, nat>, unused: map<nat, seq<nat>>, firstCover: map<nat, nat>,
                        allUnused: map<nat, seq<nat>>, covers: map<nat, nat>)
    requires index < |b.entries|
  {
    && UnusedAt(allUnused, index) == UnusedAt(unused, index) + [At(left, KeyOf(b.entries[index]))]
    && CoverAt(covers, index) == if CoverAt(firstCover, index).Some? then CoverAt(firstCover, index) else Some(i)
  }

  lemma GatheredSkips(b: Baseline, report: Report, i: nat, unused: map<nat, seq<nat>>, firstCover: map<nat, nat>)
    requires i < |report.results| && !JudgedAt(report, i) && Gathered(b, report, i, unused, firstCover)
    ensures Gathered(b, report, i + 1, unused, firstCover)
  {
    hide Covers;
    hide JudgedAt;
  }

  lemma GatheredGrows(b: Baseline, report: Report, i: nat, covering: seq<nat>, left: map<Key, nat>, were: map<nat, seq<nat>>,
                      had: map<nat, nat>, unused: map<nat, seq<nat>>, firstCover: map<nat, nat>)
    requires i < |report.results| && JudgedAt(report, i) && Gathered(b, report, i, were, had)
    requires forall index: nat :: index in covering <==> index < |b.entries| && CoveredAt(report, i, b.entries[index])
    requires forall key :: At(left, key) == Shortfall(b, report, i, key)
    requires forall index: nat :: index in covering ==> Noted(b, i, index, left, were, had, unused, firstCover)
    requires forall index: nat :: index !in covering ==>
               UnusedAt(unused, index) == UnusedAt(were, index) && CoverAt(firstCover, index) == CoverAt(had, index)
    requires forall index :: index in unused <==> index in were || index in covering
    ensures Gathered(b, report, i + 1, unused, firstCover)
  {
    hide Covers;
    hide JudgedAt;
    hide Shortfall;
    hide KeyOf;
    forall index: nat | index < |b.entries|
      ensures UnusedAt(unused, index) == Shortfalls(b, report, index, i + 1) && CoverAt(firstCover, index) == FirstCover(b, report, index, i + 1)
    {
      assert index in covering <==> CoveredAt(report, i, b.entries[index]);
    }
    forall index: nat | index in unused ensures index < |b.entries| && unused[index] != [] {
      if index in covering {
        assert |UnusedAt(unused, index)| > 0;
      } else {
        assert UnusedAt(unused, index) == UnusedAt(were, index);
      }
    }
  }

  /** What Apply's first loop does for one judged result. */
  method MarkResult(b: Baseline, report: Report, i: nat, were: map<nat, seq<nat>>, had: map<nat, nat>)
    returns (result: Result, count: nat, unused: map<nat, seq<nat>>, firstCover: map<nat, nat>)
    requires JudgedAt(report, i) && Gathered(b, report, i, were, had)
    ensures result == MarkedResult(b, report, i)
    ensures count == MarkCount(CheckAt(report, i), Found(report.results[i]), AllowancesAt(b, report, i))
    ensures Gathered(b, report, i + 1, unused, firstCover)
  {
    hide Allowances;
    hide Covers;
    hide Marked;
    hide MarkCount;
    hide Matching;
    hide Gathered;
    result := report.results[i];
    var check := report.checks[result.id];
    var found := Found(result);
    var allowed, covering := CoverEntries(b, check, result);
    var findings, left;
    findings, left, count := MarkFindings(check, found, allowed);
    if found != [] {
      result := Replaced(result, findings);
    } else {
      NothingMarked(check, allowed);
    }
    unused, firstCover := NoteCovered(b, i, covering, left, were, had);
    GatheredGrows(b, report, i, covering, left, were, had, unused, firstCover);
  }

  lemma NothingGathered(b: Baseline, report: Report)
    ensures Gathered(b, report, 0, map[], map[])
  {
  }

  /** Apply's first loop: marks each judged result, and notes what it leaves unused. */
  method MarkResults(b: Baseline, report: Report)
    returns (results: seq<Result>, baselined: nat, unused: map<nat, seq<nat>>, firstCover: map<nat, nat>)
    ensures |results| == |report.results|
    ensures forall i :: 0 <= i < |results| ==> results[i] == if JudgedAt(report, i) then MarkedResult(b, report, i) else report.results[i]
    ensures baselined == Baselined(b, report, |report.results|)
    ensures Gathered(b, report, |report.results|, unused, firstCover)
  {
    hide AllowancesAt;
    hide MarkCount;
    hide MarkedResult;
    hide Completed;
    hide Gathered;
    NothingGathered(b, report);
    results, baselined, unused, firstCover := report.results, 0, map[], map[];
    for i := 0 to |report.results|
      invariant |results| == |report.results|
      invariant forall k :: i <= k < |results| ==> results[k] == report.results[k]
      invariant forall k :: 0 <= k < i ==> results[k] == if JudgedAt(report, k) then MarkedResult(b, report, k) else report.results[k]
      invariant baselined == Baselined(b, report, i)
      invariant Gathered(b, report, i, unused, firstCover)
    {
      var result := report.results[i];
      if result.id !in report.checks || report.checks[result.id].kind !in BASELINE_KINDS || !Completed(result) {
        GatheredSkips(b, report, i, unused, firstCover);
        continue;
      }
      var marked, count;
      marked, count, unused, firstCover := MarkResult(b, report, i, unused, firstCover);
      results := results[i := marked];
      baselined := baselined + count;
    }
  }

  lemma NothingMarked(check: Check, allowed: map<Key, nat>)
    ensures Marked(check, [], allowed) == []
  {
  }

  lemma NoticesAreTotal()
    ensures Total(NoticeLe)
  {
    forall a, b ensures (NoticeLe(a, b) || NoticeLe(b, a)) && (NoticeLe(a, b) && NoticeLe(b, a) ==> a == b) {
      TextTotal(a.message, b.message);
    }
    forall a, b, c | NoticeLe(a, b) && NoticeLe(b, c) ensures NoticeLe(a, c) {
      if a.line == b.line == c.line {
        TextTransitive(a.message, b.message, c.message);
      }
    }
  }

  lemma NoticesGrow(b: Baseline, report: Report, i: int, among: set<nat>, n: nat)
    requires n < |b.entries|
    ensures Notices(b, report, i, among, n + 1)
         == Notices(b, report, i, among, n) + if n in among then NoticeTo(b, report, n, i) else []
  {
    hide NoticeTo;
  }

  lemma NoticesStart(b: Baseline, report: Report, i: int, among: set<nat>)
    ensures Notices(b, report, i, among, 0) == []
  {
  }

  lemma {:induction false} NoticesAdd(b: Baseline, report: Report, i: int, among: set<nat>, x: nat, n: nat)
    requires x !in among && n <= |b.entries| && x < |b.entries|
    ensures multiset(Notices(b, report, i, among + {x}, n))
         == multiset(Notices(b, report, i, among, n)) + multiset(if x < n then NoticeTo(b, report, x, i) else [])
    decreases n
  {
    hide *;
    if n == 0 {
      NoticesStart(b, report, i, among);
      NoticesStart(b, report, i, among + {x});
    } else {
      NoticesAdd(b, report, i, among, x, n - 1);
      NoticesGrow(b, report, i, among, n - 1);
      NoticesGrow(b, report, i, among + {x}, n - 1);
    }
  }

  lemma {:induction false} NoticesAmong(b: Baseline, report: Report, i: int, a: set<nat>, c: set<nat>, n: nat)
    requires n <= |b.entries|
    requires forall index: nat :: index < n && ChargedTo(b, report, index, i) ==> (index in a <==> index in c)
    ensures Notices(b, report, i, a, n) == Notices(b, report, i, c, n)
  {
    hide ChargedTo;
    hide StaleNotice;
    hide Missing;
    if n > 0 {
      NoticesAmong(b, report, i, a, c, n - 1);
    }
  }

  function ChargedAt(stale: map<nat, seq<Notice>>, i: nat): seq<Notice> {
    if i in stale then stale[i] else []
  }

  /** What Apply's second loop has charged for some of the entries. */
  ghost predicate Charged(b: Baseline, report: Report, among: set<nat>, stale: map<nat, seq<Notice>>) {
    forall i: nat :: multiset(ChargedAt(stale, i)) == multiset(Notices(b, report, i, among, |b.entries|))
  }

  /** Apply's second loop, over a map: each entry short everywhere is charged to its first cover. */
  method ChargeStale(b: Baseline, report: Report, unused: map<nat, seq<nat>>, firstCover: map<nat, nat>)
    returns (stale: map<nat, seq<Notice>>, count: nat)
    requires Gathered(b, report, |report.results|, unused, firstCover)
    ensures Charged(b, report, Indices(|b.entries|), stale)
    ensures count == |StaleAmong(b, report, Indices(|b.entries|))|
  {
    hide Shortfalls;
    hide FirstCover;
    hide Min;
    hide StaleNotice;
    hide Notices;
    hide Charged;
    hide ChargedAt;
    hide StaleAmong;
    hide Missing;
    hide Gathered;
    NothingStale(b, report);
    stale, count := map[], 0;
    var todo := unused.Keys;
    ghost var done: set<nat> := {};
    NothingCharged(b, report, stale);
    while todo != {}
      invariant todo <= unused.Keys && done == unused.Keys - todo
      invariant Charged(b, report, done, stale)
      invariant count == |StaleAmong(b, report, done)|
      decreases |todo|
    {
      var index :| index in todo;
      GatheredSays(b, report, unused, firstCover, index);
      var missing, cover := Min(unused[index]), firstCover[index];
      ChargedGrows(b, report, done, stale, index, cover);
      StaleGrows(b, report, done, index);
      if missing > 0 {
        stale := stale[cover := ChargedAt(stale, cover) + [StaleNotice(b, index, missing)]];
        count := count + 1;
      }
      todo, done := todo - {index}, done + {index};
    }
    assert done == unused.Keys;
    ChargedAll(b, report, unused, firstCover, stale);
  }

  lemma GatheredSays(b: Baseline, report: Report, unused: map<nat, seq<nat>>, firstCover: map<nat, nat>, index: nat)
    requires Gathered(b, report, |report.results|, unused, firstCover) && index in unused
    ensures index < |b.entries| && unused[index] != [] && Min(unused[index]) == Missing(b, report, index)
    ensures index in firstCover && FirstCover(b, report, index, |report.results|) == Some(firstCover[index])
  {
    hide Min;
    hide Shortfall;
    assert UnusedAt(unused, index) == unused[index];
    CoveredHasFirst(b, report, index, |report.results|);
    assert CoverAt(firstCover, index).Some?;
  }

  lemma NothingStale(b: Baseline, report: Report)
    ensures StaleAmong(b, report, {}) == {}
  {
  }

  lemma StaleGrows(b: Baseline, report: Report, among: set<nat>, index: nat)
    requires index < |b.entries| && index !in among
    ensures |StaleAmong(b, report, among + {index})| == |StaleAmong(b, report, among)| + if Missing(b, report, index) > 0 then 1 else 0
  {
    hide Missing;
    assert StaleAmong(b, report, among + {index})
        == StaleAmong(b, report, among) + if Missing(b, report, index) > 0 then {index} else {};
  }

  lemma NothingCharged(b: Baseline, report: Report, stale: map<nat, seq<Notice>>)
    requires stale == map[]
    ensures Charged(b, report, {}, stale)
  {
    forall i: nat ensures multiset(ChargedAt(stale, i)) == multiset(Notices(b, report, i, {}, |b.entries|)) {
      NoNotices(b, report, i, |b.entries|);
    }
  }

  lemma ChargedGrows(b: Baseline, report: Report, among: set<nat>, stale: map<nat, seq<Notice>>, index: nat, cover: nat)
    requires index < |b.entries| && index !in among && Charged(b, report, among, stale)
    requires FirstCover(b, report, index, |report.results|) == Some(cover)
    ensures var missing := Missing(b, report, index);
            Charged(b, report, among + {index},
                    if missing > 0 then stale[cover := ChargedAt(stale, cover) + [StaleNotice(b, index, missing)]] else stale)
  {
    hide FirstCover;
    hide Missing;
    hide StaleNotice;
    hide Notices;
    var missing := Missing(b, report, index);
    var next := if missing > 0 then stale[cover := ChargedAt(stale, cover) + [StaleNotice(b, index, missing)]] else stale;
    forall i: nat ensures multiset(ChargedAt(next, i)) == multiset(Notices(b, report, i, among + {index}, |b.entries|)) {
      NoticesAdd(b, report, i, among, index, |b.entries|);
      assert multiset(ChargedAt(stale, i)) == multiset(Notices(b, report, i, among, |b.entries|));
      assert ChargedAt(next, i) == ChargedAt(stale, i) + NoticeTo(b, report, index, i);
    }
  }

  /** Only an entry some check covers can be charged, or be stale. */
  lemma ChargedAll(b: Baseline, report: Report, unused: map<nat, seq<nat>>, firstCover: map<nat, nat>, stale: map<nat, seq<Notice>>)
    requires Gathered(b, report, |report.results|, unused, firstCover) && Charged(b, report, unused.Keys, stale)
    ensures Charged(b, report, Indices(|b.entries|), stale)
    ensures StaleAmong(b, report, unused.Keys) == StaleAmong(b, report, Indices(|b.entries|))
  {
    hide FirstCover;
    hide Shortfalls;
    hide Min;
    forall index: nat | index < |b.entries| && index !in unused ensures Missing(b, report, index) == 0 {
      assert UnusedAt(unused, index) == [];
    }
    forall i: nat ensures multiset(ChargedAt(stale, i)) == multiset(Notices(b, report, i, Indices(|b.entries|), |b.entries|)) {
      NoticesAmong(b, report, i, unused.Keys, Indices(|b.entries|), |b.entries|);
    }
  }

  lemma {:induction false} NoNotices(b: Baseline, report: Report, i: int, n: nat)
    requires n <= |b.entries|
    ensures Notices(b, report, i, {}, n) == []
  {
    if n > 0 {
      NoNotices(b, report, i, n - 1);
    }
  }

  lemma {:induction false} CoveredHasFirst(b: Baseline, report: Report, index: nat, n: nat)
    requires index < |b.entries| && n <= |report.results|
    ensures Shortfalls(b, report, index, n) != [] <==> FirstCover(b, report, index, n).Some?
    ensures FirstCover(b, report, index, n).Some? ==>
              FirstCover(b, report, index, n).value < n && CoveredAt(report, FirstCover(b, report, index, n).value, b.entries[index])
  {
    hide CoveredAt;
    hide Shortfall;
    if n > 0 {
      CoveredHasFirst(b, report, index, n - 1);
    }
  }

  /** Apply's last loop: every judged result is settled, its stale findings in order. */
  method SettleResults(b: Baseline, report: Report, marked: seq<Result>, stale: map<nat, seq<Notice>>) returns (results: seq<Result>)
    requires |marked| == |report.results|
    requires forall i :: 0 <= i < |marked| ==> marked[i] == if JudgedAt(report, i) then MarkedResult(b, report, i) else report.results[i]
    requires Charged(b, report, Indices(|b.entries|), stale)
    ensures |results| == |report.results|
    ensures forall i :: 0 <= i < |results| ==> results[i] == AppliedAt(b, report, i)
  {
    hide JudgedResult;
    hide MarkedResult;
    hide Notices;
    results := marked;
    NoticesAreTotal();
    for i := 0 to |report.results|
      invariant |results| == |report.results|
      invariant forall k :: i <= k < |results| ==> results[k] == marked[k]
      invariant forall k :: 0 <= k < i ==> results[k] == AppliedAt(b, report, k)
    {
      var result := marked[i];
      if !(report.results[i].id in report.checks && report.checks[report.results[i].id].kind in BASELINE_KINDS && Completed(report.results[i])) {
        continue;
      }
      SortForgets(ChargedAt(stale, i), Notices(b, report, i, Indices(|b.entries|), |b.entries|), NoticeLe);
      results := results[i := JudgedResult(b.path, result, Sort(ChargedAt(stale, i), NoticeLe))];
    }
  }

  /** orphaned, and the findings made of it. */
  method OrphanedEntries(b: Baseline, report: Report, configured: seq<Check>) returns (orphaned: seq<Notice>)
    ensures orphaned == Orphans(b, report, configured, |b.entries|)
  {
    hide Orphan;
    hide OrphanNotice;
    orphaned := [];
    for index := 0 to |b.entries|
      invariant orphaned == Orphans(b, report, configured, index)
    {
      if Orphan(report, configured, b.entries[index]) {
        orphaned := orphaned + [OrphanNotice(b, index, report.run)];
      }
    }
  }

  method Apply(b: Baseline, report: Report, configured: seq<Check>) returns (applied: Applied)
    ensures IsApplied(b, report, configured, applied)
  {
    hide AppliedAt;
    hide StaleAmong;
    hide Notices;
    hide Gathered;
    hide MarkedResult;
    var marked, baselined, unused, firstCover := MarkResults(b, report);
    var stale, staleCount := ChargeStale(b, report, unused, firstCover);
    var results := SettleResults(b, report, marked, stale);
    var orphaned := OrphanedEntries(b, report, configured);
    var status := ReportStatus(results);
    if orphaned != [] && status == Passed {
      status := Failed;
    }
    applied := Applied(results, status, baselined, staleCount + |orphaned|, orphaned);
  }
}
