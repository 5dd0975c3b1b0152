/** What Apply answers, over the fields of findings and entries (internal/verify/baseline.go). */
module BaselineAnswers {
  // Which findings an entry accepts, which entries are stale or orphaned, what becomes of each
  // result, and what the report concludes, said without the keys, maps and counts Apply works with.

  import opened Options
  import opened Text
  import opened Messages
  import opened Order
  import opened Baseline
  import opened BaselineLaws

  // ---- What an entry names ----

  /** The entry is for the check, and for findings like this one: of its file and its code, with
      its message but for positions and white space. */
  predicate Names(check: Check, e: Entry, f: Finding) {
    && e.kind == check.kind && e.dir == check.dir
    && e.file == f.file && e.code == f.code && Normalize(e.message) == Normalize(f.message)
  }

  predicate CanAccept(f: Finding) {
    f.code != "baseline-stale" && !f.advisory
  }

  /** How many of the findings an entry names. */
  function Named(check: Check, e: Entry, findings: seq<Finding>): nat
    decreases |findings|
  {
    if findings == [] then 0
    else
      var last := findings[|findings| - 1];
      Named(check, e, findings[..|findings| - 1]) + if CanAccept(last) && Names(check, e, last) then 1 else 0
  }

  /** The last entry that names what e does: a file never repeats one, and a later one counts. */
  ghost predicate IsLast(b: Baseline, k: nat, e: Entry) {
    && k < |b.entries| && Alike(b.entries[k], e)
    && forall l :: k < l < |b.entries| ==> !Alike(b.entries[l], e)
  }

  predicate Alike(a: Entry, e: Entry) {
    a.kind == e.kind && a.dir == e.dir && a.file == e.file && a.code == e.code && Normalize(a.message) == Normalize(e.message)
  }

  lemma {:induction false} NamedIsMatching(check: Check, e: Entry, findings: seq<Finding>)
    requires e.kind == check.kind && e.dir == check.dir
    ensures Named(check, e, findings) == Matching(check, findings, KeyOf(e))
    decreases |findings|
  {
    if findings != [] {
      NamedIsMatching(check, e, findings[..|findings| - 1]);
    }
  }

  /** A check's allowance of an entry's key is the count of the last entry like it. */
  lemma {:induction false} AllowanceIsLast(entries: seq<Entry>, check: Check, result: Result, e: Entry, k: nat)
    requires k < |entries| && Alike(entries[k], e) && forall l :: k < l < |entries| ==> !Alike(entries[l], e)
    requires Covers(check, result, e)
    ensures KeyOf(e) in Allowances(entries, check, result) && Allowances(entries, check, result)[KeyOf(e)] == entries[k].count
    decreases |entries|
  {
    hide CouldReport;
    hide Reported;
    if k < |entries| - 1 {
      AllowanceIsLast(entries[..|entries| - 1], check, result, e, k);
    }
  }

  lemma {:induction false} NoAllowance(entries: seq<Entry>, check: Check, result: Result, key: Key)
    requires forall e :: e in entries && Covers(check, result, e) ==> KeyOf(e) != key
    ensures key !in Allowances(entries, check, result)
    decreases |entries|
  {
    hide Covers;
    hide KeyOf;
    if entries != [] {
      assert entries == entries[..|entries| - 1] + [entries[|entries| - 1]];
      NoAllowance(entries[..|entries| - 1], check, result, key);
    }
  }

  lemma {:induction false} LastExists(entries: seq<Entry>, e: Entry) returns (k: nat)
    requires exists a :: a in entries && Alike(a, e)
    ensures k < |entries| && Alike(entries[k], e) && forall l :: k < l < |entries| ==> !Alike(entries[l], e)
    decreases |entries|
  {
    hide Alike;
    if Alike(entries[|entries| - 1], e) {
      k := |entries| - 1;
    } else {
      assert entries == entries[..|entries| - 1] + [entries[|entries| - 1]];
      k := LastExists(entries[..|entries| - 1], e);
    }
  }

  // ---- Which findings are accepted ----

  /** The last entry that names the finding at j has a count no earlier such finding used up. */
  ghost predicate Accepted(b: Baseline, check: Check, findings: seq<Finding>, j: nat)
    requires j < |findings|
  {
    && CanAccept(findings[j])
    && exists k: nat :: AcceptedBy(b, check, findings, j, k)
  }

  ghost predicate AcceptedBy(b: Baseline, check: Check, findings: seq<Finding>, j: nat, k: nat)
    requires j < |findings|
  {
    && k < |b.entries| && IsLast(b, k, b.entries[k]) && Names(check, b.entries[k], findings[j])
    && Named(check, b.entries[k], findings[..j]) < b.entries[k].count
  }

  lemma MarksExactlyAccepted(b: Baseline, check: Check, result: Result, j: nat)
    requires j < |Found(result)|
    ensures Marks(check, Found(result)[..j], Found(result)[j], Allowances(b.entries, check, result))
       <==> Accepted(b, check, Found(result), j)
  {
    hide CouldReport;
    var found := Found(result);
    var f, key, allowed := found[j], FindingKey(check, found[j]), Allowances(b.entries, check, result);
    assert f in found;
    forall k: nat | k < |b.entries| && Names(check, b.entries[k], f)
      ensures Covers(check, result, b.entries[k]) && KeyOf(b.entries[k]) == key && b.entries[k] in b.entries
    {
    }
    if e :| e in b.entries && Covers(check, result, e) && KeyOf(e) == key {
      var k := LastExists(b.entries, e);
      var last := b.entries[k];
      AllowanceIsLast(b.entries, check, result, last, k);
      NamedIsMatching(check, last, found[..j]);
      assert IsLast(b, k, last);
      assert forall l: nat :: AcceptedBy(b, check, found, j, l) ==> l == k;
      assert Eligible(f) && Matching(check, found[..j], key) < last.count ==> AcceptedBy(b, check, found, j, k);
    } else {
      NoAllowance(b.entries, check, result, key);
    }
  }

  /** Apply changes of a finding only whether it is baselined, and baselines exactly those that an
      entry of their check's kind and directory names, up to the entry's count. */
  lemma AcceptedExactlyWhen(b: Baseline, report: Report, configured: seq<Check>, applied: Applied, i: nat, j: nat)
    requires IsApplied(b, report, configured, applied) && JudgedAt(report, i) && j < |Found(report.results[i])|
    ensures j < |Found(applied.results[i])|
    ensures var was, now := Found(report.results[i])[j], Found(applied.results[i])[j];
            && now == was.(baselined := now.baselined)
            && (now.baselined <==> was.baselined || Accepted(b, CheckAt(report, i), Found(report.results[i]), j))
  {
    hide Marks;
    hide Accepted;
    hide Notices;
    var result := report.results[i];
    MarkedAt(CheckAt(report, i), Found(result), AllowancesAt(b, report, i), j);
    MarksExactlyAccepted(b, CheckAt(report, i), result, j);
    assert applied.results[i] == AppliedAt(b, report, i);
  }

  // ---- Which entries are stale ----

  /** The check ran the rule that reports a code: it reported it; or its kind has no rules to
      select; or it selects the core rule, whose code has no underscore; or it selects the
      community rule, whose module it has and did not skip. */
  predicate RuleRan(check: Check, findings: seq<Finding>, skipped: bool, code: string) {
    || (exists f :: f in findings && f.code == code)
    || check.kind != "go-lint"
    || ('_' !in code && check.core(code))
    || ('_' in code && check.community(code) && check.modules && !skipped)
  }

  /** A check of a kind a baseline can hold that reached a verdict. */
  predicate Judges(report: Report, i: int) {
    && 0 <= i < |report.results| && report.results[i].id in report.checks
    && report.checks[report.results[i].id].kind in {"go-lint", "go-http", "go-sql", "shell-lint", "go-imports"}
    && (report.results[i].status == Passed || report.results[i].status == Failed)
  }

  /** The check is of the entry's kind and directory, and ran its rule. */
  predicate RanRuleOf(report: Report, i: int, e: Entry)
    requires 0 <= i < |report.results| && report.results[i].id in report.checks
  {
    var check, result := report.checks[report.results[i].id], report.results[i];
    check.kind == e.kind && check.dir == e.dir && RuleRan(check, Found(result), result.skippedModules, e.code)
  }

  lemma CoversExactlyWhen(report: Report, i: int, e: Entry)
    ensures JudgedAt(report, i) <==> Judges(report, i)
    ensures 0 <= i < |report.results| && report.results[i].id in report.checks ==>
              (Covers(report.checks[report.results[i].id], report.results[i], e) <==> RanRuleOf(report, i, e))
    ensures CoveredAt(report, i, e) <==> Judges(report, i) && RanRuleOf(report, i, e)
  {
  }

  /** What is left of entry k's count when the i-th check has used it. */
  function Left(b: Baseline, report: Report, i: int, k: nat): nat
    requires Judges(report, i) && k < |b.entries|
  {
    var used := Named(report.checks[report.results[i].id], b.entries[k], Found(report.results[i]));
    if used < b.entries[k].count then b.entries[k].count - used else 0
  }

  /** Some check judged the entry, and every one that did left part of it unused; `m` is the least
      any of them left. */
  ghost predicate StaleBy(b: Baseline, report: Report, index: nat, k: nat, m: nat) {
    && index < |b.entries| && IsLast(b, k, b.entries[index]) && m > 0
    && (exists i :: Judges(report, i) && RanRuleOf(report, i, b.entries[index]) && Left(b, report, i, k) == m)
    && (forall i :: Judges(report, i) && RanRuleOf(report, i, b.entries[index]) ==> m <= Left(b, report, i, k))
  }

  ghost predicate Stale(b: Baseline, report: Report, index: nat) {
    exists k: nat, m: nat :: StaleBy(b, report, index, k, m)
  }

  lemma ShortfallIsLeft(b: Baseline, report: Report, i: int, index: nat, k: nat)
    requires index < |b.entries| && IsLast(b, k, b.entries[index])
    requires CoveredAt(report, i, b.entries[index]) && Judges(report, i)
    ensures Shortfall(b, report, i, KeyOf(b.entries[index])) == Left(b, report, i, k)
  {
    hide CouldReport;
    hide Reported;
    AllowanceIsLast(b.entries, CheckAt(report, i), report.results[i], b.entries[index], k);
    NamedIsMatching(CheckAt(report, i), b.entries[k], Found(report.results[i]));
  }

  lemma MissingIsLeast(b: Baseline, report: Report, index: nat)
    requires index < |b.entries|
    ensures Missing(b, report, index) > 0 <==> Stale(b, report, index)
    ensures forall k: nat, m: nat :: StaleBy(b, report, index, k, m) ==> m == Missing(b, report, index)
  {
    hide Shortfall;
    hide RanRuleOf;
    hide KeyOf;
    hide Alike;
    var e := b.entries[index];
    assert Alike(e, e) && e in b.entries by {
      AlikeItself(e);
    }
    var last := LastExists(b.entries, e);
    forall k: nat | IsLast(b, k, e) ensures k == last {
    }
    forall i ensures CoveredAt(report, i, e) <==> Judges(report, i) && RanRuleOf(report, i, e) {
      CoversExactlyWhen(report, i, e);
    }
    forall i | CoveredAt(report, i, e)
      ensures Missing(b, report, index) <= Left(b, report, i, last)
      ensures exists least :: CoveredAt(report, least, e) && Judges(report, least) && Missing(b, report, index) == Left(b, report, least, last)
    {
      ChargeIsLeast(b, report, index, i);
      ShortfallIsLeft(b, report, i, index, last);
      var least :| CoveredAt(report, least, e) && Missing(b, report, index) == Shortfall(b, report, least, KeyOf(e));
      ShortfallIsLeft(b, report, least, index, last);
    }
    if Missing(b, report, index) > 0 {
      MissingNeedsCover(b, report, index);
      assert StaleBy(b, report, index, last, Missing(b, report, index));
    }
  }

  lemma AlikeItself(e: Entry)
    ensures Alike(e, e)
  {
  }

  lemma MissingNeedsCover(b: Baseline, report: Report, index: nat)
    requires index < |b.entries| && Missing(b, report, index) > 0
    ensures exists i :: CoveredAt(report, i, b.entries[index])
  {
    CoveredHasFirst(b, report, index, |report.results|);
  }

  /** The entry's first judge: no earlier check of the run ran its rule. */
  ghost predicate FirstJudge(b: Baseline, report: Report, index: nat, i: int)
    requires index < |b.entries|
  {
    && Judges(report, i) && RanRuleOf(report, i, b.entries[index])
    && forall l :: 0 <= l < i ==> !(Judges(report, l) && RanRuleOf(report, l, b.entries[index]))
  }

  lemma {:induction false} FirstCoverIsFirst(b: Baseline, report: Report, index: nat, n: nat, i: nat)
    requires index < |b.entries| && n <= |report.results|
    ensures FirstCover(b, report, index, n) == Some(i)
       <==> i < n && CoveredAt(report, i, b.entries[index]) && forall l: nat :: l < i ==> !CoveredAt(report, l, b.entries[index])
  {
    hide CoveredAt;
    if n > 0 {
      FirstCoverIsFirst(b, report, index, n - 1, i);
      CoveredHasFirst(b, report, index, n - 1);
      if FirstCover(b, report, index, n - 1).Some? {
        FirstCoverIsFirst(b, report, index, n - 1, FirstCover(b, report, index, n - 1).value);
      } else if exists l: nat :: l < n - 1 && CoveredAt(report, l, b.entries[index]) {
        var l: nat :| l < n - 1 && CoveredAt(report, l, b.entries[index]);
        FirstIsFirst(b, report, index, n - 1, l);
      }
    }
  }

  /** Charged exactly to its first judge, when it is stale. */
  lemma ChargedExactlyWhen(b: Baseline, report: Report, index: nat, i: nat)
    requires index < |b.entries|
    ensures ChargedTo(b, report, index, i) <==> Stale(b, report, index) && FirstJudge(b, report, index, i)
  {
    hide Missing;
    hide Stale;
    hide FirstCover;
    hide CoveredAt;
    MissingIsLeast(b, report, index);
    FirstCoverIsFirst(b, report, index, |report.results|, i);
    forall l ensures CoveredAt(report, l, b.entries[index]) <==> Judges(report, l) && RanRuleOf(report, l, b.entries[index]) {
      CoversExactlyWhen(report, l, b.entries[index]);
    }
  }

  lemma {:induction false} NoticesHold(b: Baseline, report: Report, i: nat, n: nat, x: Notice)
    requires n <= |b.entries|
    ensures x in Notices(b, report, i, Indices(|b.entries|), n)
       <==> exists index: nat :: index < n && ChargedTo(b, report, index, i) && x == StaleNotice(b, index, Missing(b, report, index))
  {
    hide ChargedTo;
    hide StaleNotice;
    hide Missing;
    if n > 0 {
      NoticesHold(b, report, i, n - 1, x);
    }
  }

  /** The stale finding that says `m` of the entry's findings no longer occur. */
  function StaleFindingOf(b: Baseline, index: nat, m: nat): Finding
    requires index < |b.entries|
  {
    var e := b.entries[index];
    Finding("baseline-stale",
            Itoa(m) + " of " + Itoa(e.count) + " baselined " + e.code + " findings in " + e.file + " no longer occur: " + e.message,
            b.path, if index < |b.lines| then b.lines[index] else 1, 0, false, false)
  }

  lemma {:induction false} StaleFindingsHold(path: string, notices: seq<Notice>, f: Finding)
    ensures f in StaleFindings(path, notices) <==> exists x :: x in notices && f == StaleFinding(path, x)
    decreases |notices|
  {
    hide StaleFinding;
    if notices != [] {
      StaleFindingsHold(path, notices[..|notices| - 1], f);
      assert notices == notices[..|notices| - 1] + [notices[|notices| - 1]];
    }
  }

  /** The findings Apply adds to the i-th result. */
  ghost function AddedAt(report: Report, applied: Applied, i: nat): seq<Finding>
    requires i < |report.results| && i < |applied.results|
  {
    var was, now := Found(report.results[i]), Found(applied.results[i]);
    if |was| <= |now| then now[|was|..] else []
  }

  ghost predicate AddsStale(b: Baseline, report: Report, i: nat, f: Finding, index: nat, k: nat, m: nat) {
    StaleBy(b, report, index, k, m) && FirstJudge(b, report, index, i) && f == StaleFindingOf(b, index, m)
  }

  /** What Apply adds to a result are the stale findings of exactly those stale entries it is the
      first to judge. */
  lemma AddedExactlyWhen(b: Baseline, report: Report, configured: seq<Check>, applied: Applied, i: nat, f: Finding)
    requires IsApplied(b, report, configured, applied) && i < |report.results| && report.results[i].details.Shared?
    ensures f in AddedAt(report, applied, i) <==> exists index: nat, k: nat, m: nat :: AddsStale(b, report, i, f, index, k, m)
  {
    hide Notices;
    hide Marked;
    assert applied.results[i] == AppliedAt(b, report, i);
    CoversAny(report, i);
    if JudgedAt(report, i) {
      var notices := Notices(b, report, i, Indices(|b.entries|), |b.entries|);
      var sorted := Sort(notices, NoticeLe);
      NoticesAreTotal();
      SortSorts(notices, NoticeLe);
      MarkedLength(CheckAt(report, i), Found(report.results[i]), AllowancesAt(b, report, i));
      assert AddedAt(report, applied, i) == StaleFindings(b.path, sorted);
      StaleFindingsHold(b.path, sorted, f);
      assert forall x :: x in sorted <==> x in multiset(sorted);
      assert forall x :: x in notices <==> x in multiset(notices);
      AddedFrom(b, report, i, notices, f);
    }
  }

  lemma CoversAny(report: Report, i: int)
    ensures JudgedAt(report, i) <==> Judges(report, i)
  {
  }

  lemma AddedFrom(b: Baseline, report: Report, i: nat, notices: seq<Notice>, f: Finding)
    requires notices == Notices(b, report, i, Indices(|b.entries|), |b.entries|)
    ensures (exists x :: x in notices && f == StaleFinding(b.path, x))
       <==> exists index: nat, k: nat, m: nat :: AddsStale(b, report, i, f, index, k, m)
  {
    hide Notices;
    hide ChargedTo;
    hide Missing;
    hide StaleBy;
    hide FirstJudge;
    hide StaleFindingOf;
    hide StaleNotice;
    hide StaleFinding;
    if x :| x in notices && f == StaleFinding(b.path, x) {
      NoticesHold(b, report, i, |b.entries|, x);
      var index: nat :| index < |b.entries| && ChargedTo(b, report, index, i) && x == StaleNotice(b, index, Missing(b, report, index));
      ChargedExactlyWhen(b, report, index, i);
      MissingIsLeast(b, report, index);
      var k: nat, m: nat :| StaleBy(b, report, index, k, m);
      SaysMissing(b, index, m);
      assert AddsStale(b, report, i, f, index, k, m);
    }
    if index: nat, k: nat, m: nat :| AddsStale(b, report, i, f, index, k, m) {
      StaleInRange(b, report, index, k, m);
      ChargedExactlyWhen(b, report, index, i);
      MissingIsLeast(b, report, index);
      SaysMissing(b, index, m);
      NoticesHold(b, report, i, |b.entries|, StaleNotice(b, index, m));
    }
  }

  lemma StaleInRange(b: Baseline, report: Report, index: nat, k: nat, m: nat)
    requires StaleBy(b, report, index, k, m)
    ensures index < |b.entries| && Stale(b, report, index)
  {
  }

  lemma SaysMissing(b: Baseline, index: nat, m: nat)
    requires index < |b.entries|
    ensures StaleFindingOf(b, index, m) == StaleFinding(b.path, StaleNotice(b, index, m))
  {
  }

  // ---- Which entries are orphaned ----

  /** The check could run the rule: a native one never runs community rules. */
  predicate CouldRun(check: Check, code: string) {
    || check.kind != "go-lint"
    || ('_' !in code && check.core(code))
    || ('_' in code && check.community(code) && check.modules && !check.native)
  }

  /** No configured check of the entry's kind and directory could run its rule, and no check of
      this run did. */
  ghost predicate NobodyRuns(report: Report, configured: seq<Check>, e: Entry) {
    && (forall check :: check in configured && check.kind == e.kind && check.dir == e.dir ==> !CouldRun(check, e.code))
    && (forall i :: 0 <= i < |report.results| && report.results[i].id in report.checks ==> !RanRuleOf(report, i, e))
  }

  lemma OrphanExactlyWhen(report: Report, configured: seq<Check>, e: Entry)
    ensures Orphan(report, configured, e) <==> NobodyRuns(report, configured, e)
  {
    hide Covers;
    hide RanRuleOf;
    forall i ensures 0 <= i < |report.results| && report.results[i].id in report.checks ==>
                       (Covers(report.checks[report.results[i].id], report.results[i], e) <==> RanRuleOf(report, i, e)) {
      CoversExactlyWhen(report, i, e);
    }
    if Orphan(report, configured, e) {
      assert forall i :: 0 <= i < |report.results| ==> report.results[i] in report.results;
      assert forall check :: check in configured ==> !Produces(check, e);
    }
  }

  ghost function OrphansAmong(b: Baseline, report: Report, configured: seq<Check>, n: nat): set<nat>
    requires n <= |b.entries|
  {
    set index | index in Indices(n) && NobodyRuns(report, configured, b.entries[index])
  }

  lemma OrphansAmongGrows(b: Baseline, report: Report, configured: seq<Check>, n: nat)
    requires n < |b.entries|
    ensures var among := OrphansAmong(b, report, configured, n);
            && n !in among
            && OrphansAmong(b, report, configured, n + 1) == if NobodyRuns(report, configured, b.entries[n]) then among + {n} else among
  {
    hide NobodyRuns;
  }

  lemma {:induction false} OrphansCount(b: Baseline, report: Report, configured: seq<Check>, n: nat)
    requires n <= |b.entries|
    ensures |Orphans(b, report, configured, n)| == |OrphansAmong(b, report, configured, n)|
  {
    hide Orphan;
    hide NobodyRuns;
    hide OrphanNotice;
    if n > 0 {
      OrphansCount(b, report, configured, n - 1);
      OrphanExactlyWhen(report, configured, b.entries[n - 1]);
      OrphansAmongGrows(b, report, configured, n - 1);
      hide OrphansAmong;
    }
  }

  lemma {:induction false} OrphansHold(b: Baseline, report: Report, configured: seq<Check>, n: nat, x: Notice)
    requires n <= |b.entries|
    ensures x in Orphans(b, report, configured, n)
       <==> exists index: nat :: index < n && NobodyRuns(report, configured, b.entries[index]) && x == OrphanNotice(b, index, report.run)
  {
    hide Orphan;
    hide NobodyRuns;
    hide OrphanNotice;
    if n > 0 {
      OrphansHold(b, report, configured, n - 1, x);
      OrphanExactlyWhen(report, configured, b.entries[n - 1]);
    }
  }

  ghost function StaleEntries(b: Baseline, report: Report): set<nat> {
    set index | index in Indices(|b.entries|) && Stale(b, report, index)
  }

  /** The summary counts each stale entry and each orphaned one, and lists the orphaned ones. */
  lemma SummaryCounts(b: Baseline, report: Report, configured: seq<Check>, applied: Applied)
    requires IsApplied(b, report, configured, applied)
    ensures applied.stale == |StaleEntries(b, report)| + |OrphansAmong(b, report, configured, |b.entries|)|
    ensures forall x :: x in applied.orphaned <==>
              exists index: nat :: index < |b.entries| && NobodyRuns(report, configured, b.entries[index]) && x == OrphanNotice(b, index, report.run)
  {
    hide Missing;
    hide Stale;
    hide NobodyRuns;
    hide OrphanNotice;
    hide OrphansAmong;
    hide AppliedAt;
    hide Orphans;
    OrphansCount(b, report, configured, |b.entries|);
    forall x
      ensures x in applied.orphaned <==>
                exists index: nat :: index < |b.entries| && NobodyRuns(report, configured, b.entries[index]) && x == OrphanNotice(b, index, report.run)
    {
      OrphansHold(b, report, configured, |b.entries|, x);
    }
    forall index: nat | index < |b.entries| ensures Missing(b, report, index) > 0 <==> Stale(b, report, index) {
      MissingIsLeast(b, report, index);
    }
    assert StaleAmong(b, report, Indices(|b.entries|)) == StaleEntries(b, report);
  }

  // ---- What becomes of each result, and of the report ----

  /** A check that did not reach a verdict, or of another kind, keeps its result. */
  lemma OthersAreKept(b: Baseline, report: Report, configured: seq<Check>, applied: Applied, i: nat)
    requires IsApplied(b, report, configured, applied) && i < |report.results| && !Judges(report, i)
    ensures applied.results[i] == report.results[i]
  {
    CoversAny(report, i);
    assert applied.results[i] == AppliedAt(b, report, i);
  }

  /** A finding that fails its check on its own. */
  predicate Unaccepted(f: Finding) {
    !f.advisory && !f.baselined && f.code != "baseline-stale"
  }

  /** A judged check fails exactly while a finding is neither advisory nor baselined, or it was given
      stale entries, and says so when there is nothing else. */
  lemma JudgedOutcome(b: Baseline, report: Report, configured: seq<Check>, applied: Applied, i: nat)
    requires IsApplied(b, report, configured, applied) && Judges(report, i) && report.results[i].details.Shared?
    ensures var was, now := report.results[i], applied.results[i];
            && now.id == was.id && now.skippedModules == was.skippedModules && now.details.Shared?
            && now.status == (if (exists f :: f in Found(now) && Unaccepted(f)) || AddedAt(report, applied, i) != [] then Failed else Passed)
            && now.error == (if exists f :: f in Found(now) && Unaccepted(f) then was.error
                             else if AddedAt(report, applied, i) != [] then "baseline entries no longer match; remove them"
                             else "")
  {
    hide Notices;
    hide Marked;
    CoversAny(report, i);
    assert applied.results[i] == AppliedAt(b, report, i);
    var notices := Sort(Notices(b, report, i, Indices(|b.entries|), |b.entries|), NoticeLe);
    MarkedLength(CheckAt(report, i), Found(report.results[i]), AllowancesAt(b, report, i));
    assert AddedAt(report, applied, i) == StaleFindings(b.path, notices);
  }

  predicate EveryPassed(results: seq<Result>) {
    forall result :: result in results ==> result.status == Passed
  }

  /** What a whole run concludes from its results and the entries nobody can match. */
  predicate Concludes(applied: Applied) {
    && (applied.status == Passed <==> applied.results != [] && applied.orphaned == [] && EveryPassed(applied.results))
    && (applied.status == Incomplete <==> applied.results == [])
    && (applied.status == Passed || applied.status == Failed || applied.status == Incomplete)
  }

  lemma ReportConcludes(b: Baseline, report: Report, configured: seq<Check>, applied: Applied)
    requires IsApplied(b, report, configured, applied)
    ensures Concludes(applied)
  {
    hide AppliedAt;
    if AllPassed(applied.results) {
      assert EveryPassed(applied.results);
    } else {
      var i :| 0 <= i < |applied.results| && applied.results[i].status != Passed;
      assert applied.results[i] in applied.results;
    }
  }

  // ---- How many findings are baselined ----

  function BaselinedIn(findings: seq<Finding>): nat
    decreases |findings|
  {
    if findings == [] then 0
    else BaselinedIn(findings[..|findings| - 1]) + if findings[|findings| - 1].baselined then 1 else 0
  }

  function AllBaselined(results: seq<Result>, n: nat): nat
    requires n <= |results|
  {
    if n == 0 then 0 else AllBaselined(results, n - 1) + BaselinedIn(Found(results[n - 1]))
  }

  lemma {:induction false} BaselinedAppends(a: seq<Finding>, b: seq<Finding>)
    ensures BaselinedIn(a + b) == BaselinedIn(a) + BaselinedIn(b)
    decreases |b|
  {
    if b == [] {
      assert a + b == a;
    } else {
      BaselinedAppends(a, b[..|b| - 1]);
      assert (a + b)[..|a + b| - 1] == a + b[..|b| - 1];
    }
  }

  lemma {:induction false} MarkedBaselines(check: Check, findings: seq<Finding>, allowed: map<Key, nat>)
    requires forall f :: f in findings ==> !f.baselined
    ensures BaselinedIn(Marked(check, findings, allowed)) == MarkCount(check, findings, allowed)
    decreases |findings|
  {
    hide Marks;
    if findings != [] {
      var before, last := findings[..|findings| - 1], findings[|findings| - 1];
      assert findings == before + [last];
      MarkedBaselines(check, before, allowed);
      assert Marked(check, findings, allowed)
          == Marked(check, before, allowed) + [if Marks(check, before, last, allowed) then last.(baselined := true) else last];
    }
  }

  lemma {:induction false} NoneBaselined(findings: seq<Finding>)
    requires forall f :: f in findings ==> !f.baselined
    ensures BaselinedIn(findings) == 0
    decreases |findings|
  {
    if findings != [] {
      NoneBaselined(findings[..|findings| - 1]);
    }
  }

  lemma {:induction false} StaleIsNotBaselined(path: string, notices: seq<Notice>)
    ensures forall f :: f in StaleFindings(path, notices) ==> !f.baselined
    decreases |notices|
  {
    if notices != [] {
      StaleIsNotBaselined(path, notices[..|notices| - 1]);
    }
  }

  lemma OneResultBaselines(b: Baseline, report: Report, i: nat)
    requires i < |report.results| && forall f :: f in Found(report.results[i]) ==> !f.baselined
    ensures BaselinedIn(Found(AppliedAt(b, report, i)))
         == if JudgedAt(report, i) then MarkCount(CheckAt(report, i), Found(report.results[i]), AllowancesAt(b, report, i)) else 0
  {
    hide Marked;
    hide MarkCount;
    hide Notices;
    var found := Found(report.results[i]);
    if JudgedAt(report, i) {
      var marked := Marked(CheckAt(report, i), found, AllowancesAt(b, report, i));
      var notices := Sort(Notices(b, report, i, Indices(|b.entries|), |b.entries|), NoticeLe);
      MarkedBaselines(CheckAt(report, i), found, AllowancesAt(b, report, i));
      MarkedLength(CheckAt(report, i), found, AllowancesAt(b, report, i));
      StaleIsNotBaselined(b.path, notices);
      NoneBaselined(StaleFindings(b.path, notices));
      BaselinedAppends(marked, StaleFindings(b.path, notices));
    } else {
      NoneBaselined(found);
    }
  }

  /** The summary's count is the number of findings the baseline accepted. */
  lemma {:induction false} SummaryBaselined(b: Baseline, report: Report, configured: seq<Check>, applied: Applied, n: nat)
    requires IsApplied(b, report, configured, applied) && n <= |report.results|
    requires forall i, f :: 0 <= i < |report.results| && f in Found(report.results[i]) ==> !f.baselined
    ensures AllBaselined(applied.results, n) == Baselined(b, report, n)
    ensures n == |report.results| ==> applied.baselined == AllBaselined(applied.results, n)
  {
    hide AppliedAt;
    hide MarkCount;
    if n > 0 {
      SummaryBaselined(b, report, configured, applied, n - 1);
      OneResultBaselines(b, report, n - 1);
      assert applied.results[n - 1] == AppliedAt(b, report, n - 1);
    }
  }
}
