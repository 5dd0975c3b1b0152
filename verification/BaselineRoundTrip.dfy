/** Record, then Apply (internal/verify/baseline.go). */
module BaselineRoundTrip {
  // Exactly when a recorded baseline accepts the run it was recorded from, and when recording that
  // run again changes nothing.

  import opened Options
  import opened Messages
  import opened Order
  import opened Baseline
  import opened BaselineRecord
  import opened BaselineLaws
  import opened BaselineAnswers

  /** Normalizing a second time changes nothing; Messages.StableExactlyWhen says when. */
  predicate Stable(message: string) {
    Normalize(Normalize(message)) == Normalize(message)
  }

  /** A finding some recording check reported. */
  predicate Reports(report: Report, i: int, j: int) {
    RecordsAt(report, i) && 0 <= j < |Found(report.results[i])| && Eligible(Found(report.results[i])[j])
  }

  function FindingAt(report: Report, i: int, j: int): Finding
    requires Reports(report, i, j)
  {
    Found(report.results[i])[j]
  }

  function ReportedKey(report: Report, i: int, j: int): Key
    requires Reports(report, i, j)
  {
    FindingKey(report.checks[report.results[i].id], FindingAt(report, i, j))
  }

  ghost predicate AllStable(report: Report) {
    forall i, j :: Reports(report, i, j) ==> Stable(FindingAt(report, i, j).message)
  }

  /** A report no baseline was applied to, as main applies or records one, never both. */
  ghost predicate Unmarked(report: Report) {
    forall i, j :: Reports(report, i, j) ==> !FindingAt(report, i, j).baselined
  }

  /** What a written baseline holds: for each counted key, one entry. */
  ghost predicate WrittenFrom(b: Baseline, report: Report, configured: seq<Check>, written: Baseline) {
    && !Refuses(report)
    && forall e :: e in written.entries <==> CountOf(b, report, configured, RawKey(e)) == Some(e.count)
  }

  lemma RecordedIsWritten(b: Baseline, report: Report, configured: seq<Check>, written: Baseline, change: Change)
    requires !Refuses(report) && IsRecorded(b, report, configured, written, change)
    ensures WrittenFrom(b, report, configured, written)
  {
    hide CountOf;
    hide Sum;
    var counts := CountsOf(b, report, configured, written, change);
    forall e ensures e in written.entries <==> CountOf(b, report, configured, RawKey(e)) == Some(e.count) {
      assert Get(counts, RawKey(e)) == CountOf(b, report, configured, RawKey(e));
    }
  }

  /** With every check completed, the checks Apply judges are those Record counts. */
  lemma JudgedRecords(report: Report, i: int)
    requires !Refuses(report)
    ensures JudgedAt(report, i) <==> RecordsAt(report, i)
  {
  }

  // ---- The most findings of a key ----

  lemma {:induction false} HighestBounds(report: Report, key: Key, n: nat, i: nat)
    requires n <= |report.results| && i < n && RecordsAt(report, i)
    ensures MatchingAt(report, i, key) <= Highest(report, key, n)
    decreases n
  {
    hide Matching;
    if i < n - 1 {
      HighestBounds(report, key, n - 1, i);
    }
  }

  lemma {:induction false} HighestFrom(report: Report, key: Key, n: nat) returns (i: nat)
    requires n <= |report.results| && Highest(report, key, n) > 0
    ensures i < n && RecordsAt(report, i) && MatchingAt(report, i, key) == Highest(report, key, n)
    decreases n
  {
    hide Matching;
    if RecordsAt(report, n - 1) && MatchingAt(report, n - 1, key) == Highest(report, key, n) {
      i := n - 1;
    } else {
      i := HighestFrom(report, key, n - 1);
    }
  }

  /** A counted key is that of a finding, at a check that reported the most of it. */
  lemma MostFrom(report: Report, key: Key) returns (i: nat, j: nat)
    requires Most(report, key) > 0
    ensures Reports(report, i, j) && ReportedKey(report, i, j) == key && MatchingAt(report, i, key) == Most(report, key)
  {
    i := HighestFrom(report, key, |report.results|);
    j := MatchingFrom(report.checks[report.results[i].id], Found(report.results[i]), key);
  }

  lemma ReportedIsCounted(report: Report, i: int, j: int)
    requires Reports(report, i, j)
    ensures 0 < MatchingAt(report, i, ReportedKey(report, i, j)) <= Most(report, ReportedKey(report, i, j))
  {
    MatchingHas(report.checks[report.results[i].id], Found(report.results[i]), j);
    HighestBounds(report, ReportedKey(report, i, j), |report.results|, i);
  }

  // ---- Entries that are kept, and entries that are covered ----

  lemma {:induction false} KeptFrom(entries: seq<Entry>, report: Report, configured: seq<Check>, key: Key) returns (e: Entry)
    requires KeptCount(entries, report, configured, key).Some?
    ensures e in entries && Kept(report, configured, e) && KeyOf(e) == key
    decreases |entries|
  {
    hide Kept;
    hide KeyOf;
    var last := entries[|entries| - 1];
    if Kept(report, configured, last) && KeyOf(last) == key {
      e := last;
    } else {
      e := KeptFrom(entries[..|entries| - 1], report, configured, key);
    }
  }

  /** What covers an entry depends on its kind, directory and code alone. */
  lemma KeptAlike(report: Report, configured: seq<Check>, a: Entry, b: Entry)
    requires a.kind == b.kind && a.dir == b.dir && a.code == b.code
    ensures Kept(report, configured, a) == Kept(report, configured, b)
    ensures Orphan(report, configured, a) == Orphan(report, configured, b)
  {
    hide CouldReport;
    hide Reported;
  }

  /** A written entry that a judged check covers counts the most findings of its key. */
  lemma CoveredIsCounted(b: Baseline, report: Report, configured: seq<Check>, written: Baseline, e: Entry, i: int)
    requires WrittenFrom(b, report, configured, written) && e in written.entries && CoveredAt(report, i, e)
    ensures Most(report, RawKey(e)) == e.count > 0
  {
    JudgedRecords(report, i);
    if KeptCount(b.entries, report, configured, RawKey(e)).Some? {
      var kept := KeptFrom(b.entries, report, configured, RawKey(e));
      KeptAlike(report, configured, kept, e);
    }
  }

  /** Every reported finding is recorded, in an entry its own check covers. */
  lemma ReportedIsWritten(b: Baseline, report: Report, configured: seq<Check>, written: Baseline, i: int, j: int)
    requires WrittenFrom(b, report, configured, written) && Reports(report, i, j)
    ensures var key := ReportedKey(report, i, j); var e := EntryFor(key, Most(report, key));
      e in written.entries && CoveredAt(report, i, e)
  {
    var key := ReportedKey(report, i, j);
    var e := EntryFor(key, Most(report, key));
    ReportedIsCounted(report, i, j);
    JudgedRecords(report, i);
    assert Reported(report.results[i], e.code) by {
      assert FindingAt(report, i, j) in Found(report.results[i]);
    }
    if KeptCount(b.entries, report, configured, key).Some? {
      var kept := KeptFrom(b.entries, report, configured, key);
      KeptAlike(report, configured, kept, e);
    }
    assert RawKey(e) == key;
  }

  /** A written entry is no orphan. */
  lemma WrittenIsNoOrphan(b: Baseline, report: Report, configured: seq<Check>, written: Baseline, e: Entry)
    requires WrittenFrom(b, report, configured, written) && e in written.entries
    ensures !Orphan(report, configured, e)
  {
    if KeptCount(b.entries, report, configured, RawKey(e)).Some? {
      var kept := KeptFrom(b.entries, report, configured, RawKey(e));
      KeptAlike(report, configured, kept, e);
    } else {
      var i, j := MostFrom(report, RawKey(e));
      ReportedIsWritten(b, report, configured, written, i, j);
      assert report.results[i] in report.results;
    }
  }

  // ---- Allowances ----

  lemma {:induction false} AllowanceFrom(entries: seq<Entry>, check: Check, result: Result, key: Key)
    ensures key in Allowances(entries, check, result) <==> exists e :: e in entries && Covers(check, result, e) && KeyOf(e) == key
    ensures key in Allowances(entries, check, result) ==>
              exists e :: e in entries && Covers(check, result, e) && KeyOf(e) == key && e.count == Allowances(entries, check, result)[key]
    decreases |entries|
  {
    hide Covers;
    hide KeyOf;
    if entries != [] {
      AllowanceFrom(entries[..|entries| - 1], check, result, key);
      assert entries == entries[..|entries| - 1] + [entries[|entries| - 1]];
    }
  }

  /** Stable messages: an entry a judged check covers is matched by the key it was written for. */
  lemma CoveredKeepsKey(b: Baseline, report: Report, configured: seq<Check>, written: Baseline, e: Entry, i: int)
    requires WrittenFrom(b, report, configured, written) && AllStable(report) && e in written.entries && CoveredAt(report, i, e)
    ensures KeyOf(e) == RawKey(e)
  {
    CoveredIsCounted(b, report, configured, written, e, i);
    var k, j := MostFrom(report, RawKey(e));
    assert Stable(FindingAt(report, k, j).message);
  }

  /** Stable messages: a judged check may use the most findings any check reported. */
  lemma AllowsMost(b: Baseline, report: Report, configured: seq<Check>, written: Baseline, i: int, key: Key)
    requires WrittenFrom(b, report, configured, written) && AllStable(report) && JudgedAt(report, i)
    ensures key in AllowancesAt(written, report, i) ==> AllowancesAt(written, report, i)[key] == Most(report, key)
  {
    var check, result := CheckAt(report, i), report.results[i];
    AllowanceFrom(written.entries, check, result, key);
    if key in AllowancesAt(written, report, i) {
      var e :| e in written.entries && Covers(check, result, e) && KeyOf(e) == key && e.count == AllowancesAt(written, report, i)[key];
      CoveredIsCounted(b, report, configured, written, e, i);
      CoveredKeepsKey(b, report, configured, written, e, i);
    }
  }

  lemma ReportedIsAllowed(b: Baseline, report: Report, configured: seq<Check>, written: Baseline, i: int, j: int)
    requires WrittenFrom(b, report, configured, written) && AllStable(report) && Reports(report, i, j) && JudgedAt(report, i)
    ensures At(AllowancesAt(written, report, i), ReportedKey(report, i, j)) == Most(report, ReportedKey(report, i, j))
  {
    var key := ReportedKey(report, i, j);
    var e := EntryFor(key, Most(report, key));
    ReportedIsWritten(b, report, configured, written, i, j);
    CoveredKeepsKey(b, report, configured, written, e, i);
    assert RawKey(e) == key;
    AllowanceFrom(written.entries, CheckAt(report, i), report.results[i], key);
    AllowsMost(b, report, configured, written, i, key);
  }

  // ---- A recorded baseline accepts its run ----

  lemma StableIsMarked(b: Baseline, report: Report, configured: seq<Check>, written: Baseline, i: int, f: Finding)
    requires WrittenFrom(b, report, configured, written) && AllStable(report) && JudgedAt(report, i)
    requires f in Marked(CheckAt(report, i), Found(report.results[i]), AllowancesAt(written, report, i))
    ensures Eligible(f) ==> f.baselined
  {
    hide Marks;
    var check, found, allowed := CheckAt(report, i), Found(report.results[i]), AllowancesAt(written, report, i);
    var marked := Marked(check, found, allowed);
    var j :| 0 <= j < |marked| && marked[j] == f;
    if found == [] {
      MarkedNothing(check, allowed);
    } else {
      MarkedAt(check, found, allowed, 0);
      MarkedAt(check, found, allowed, j);
      if Eligible(f) {
        MarksReported(b, report, configured, written, i, j);
      }
    }
  }

  lemma MarkedNothing(check: Check, allowed: map<Key, nat>)
    ensures |Marked(check, [], allowed)| == 0
  {
  }

  lemma MarksReported(b: Baseline, report: Report, configured: seq<Check>, written: Baseline, i: int, j: int)
    requires WrittenFrom(b, report, configured, written) && AllStable(report) && Reports(report, i, j) && JudgedAt(report, i)
    ensures Marks(CheckAt(report, i), Found(report.results[i])[..j], FindingAt(report, i, j), AllowancesAt(written, report, i))
  {
    ReportedIsAllowed(b, report, configured, written, i, j);
    ReportedIsCounted(report, i, j);
    MatchingHas(CheckAt(report, i), Found(report.results[i]), j);
  }

  lemma StableLeavesNothing(b: Baseline, report: Report, configured: seq<Check>, written: Baseline, index: nat)
    requires WrittenFrom(b, report, configured, written) && AllStable(report) && index < |written.entries|
    ensures Missing(written, report, index) == 0
  {
    hide Shortfall;
    hide Covers;
    var e := written.entries[index];
    var first := FirstCover(written, report, index, |report.results|);
    CoveredHasFirst(written, report, index, |report.results|);
    if first.Some? {
      MostUsesAll(b, report, configured, written, e, first.value);
      var i :| CoveredAt(report, i, e) && Shortfall(written, report, i, KeyOf(e)) == 0;
      ChargeIsLeast(written, report, index, i);
    }
  }

  /** The check that reported the most of a covered entry's key leaves nothing of it. */
  lemma MostUsesAll(b: Baseline, report: Report, configured: seq<Check>, written: Baseline, e: Entry, first: int)
    requires WrittenFrom(b, report, configured, written) && AllStable(report) && e in written.entries && CoveredAt(report, first, e)
    ensures exists i :: CoveredAt(report, i, e) && Shortfall(written, report, i, KeyOf(e)) == 0
  {
    CoveredIsCounted(b, report, configured, written, e, first);
    CoveredKeepsKey(b, report, configured, written, e, first);
    var i, j := MostFrom(report, RawKey(e));
    ReportedIsWritten(b, report, configured, written, i, j);
    AllowsMost(b, report, configured, written, i, KeyOf(e));
    assert CoveredAt(report, i, e);
    assert Shortfall(written, report, i, KeyOf(e)) == 0;
  }

  lemma {:induction false} NothingShort(b: Baseline, report: Report, i: int, n: nat)
    requires n <= |b.entries| && forall index :: 0 <= index < |b.entries| ==> Missing(b, report, index) == 0
    ensures Notices(b, report, i, Indices(|b.entries|), n) == []
  {
    if n > 0 {
      NothingShort(b, report, i, n - 1);
    }
  }

  lemma {:induction false} NoOrphans(b: Baseline, report: Report, configured: seq<Check>, n: nat)
    requires n <= |b.entries| && forall e :: e in b.entries ==> !Orphan(report, configured, e)
    ensures Orphans(b, report, configured, n) == []
  {
    hide Orphan;
    if n > 0 {
      NoOrphans(b, report, configured, n - 1);
    }
  }

  lemma StablePasses(b: Baseline, report: Report, configured: seq<Check>, written: Baseline, i: int)
    requires WrittenFrom(b, report, configured, written) && AllStable(report) && JudgedAt(report, i)
    ensures AppliedAt(written, report, i).status == Passed
  {
    hide Marked;
    hide AllStable;
    hide WrittenFrom;
    forall index | 0 <= index < |written.entries| ensures Missing(written, report, index) == 0 {
      StableLeavesNothing(b, report, configured, written, index);
    }
    NothingShort(written, report, i, |written.entries|);
    forall f | f in Marked(CheckAt(report, i), Found(report.results[i]), AllowancesAt(written, report, i))
      ensures Eligible(f) ==> f.baselined
    {
      StableIsMarked(b, report, configured, written, i, f);
    }
  }

  // ---- An unstable message is not accepted ----

  /** Check i reported an eligible finding at j whose message is not stable. */
  ghost predicate UnstableAt(report: Report, i: int, j: int) {
    Reports(report, i, j) && !Stable(FindingAt(report, i, j).message)
  }

  function KeyLength(report: Report, i: int, j: int): nat
    requires Reports(report, i, j)
  {
    |ReportedKey(report, i, j).message|
  }

  /** No unstable message has a longer key. */
  ghost predicate LongestUnstable(report: Report, i: int, j: int) {
    && UnstableAt(report, i, j)
    && forall k, l :: UnstableAt(report, k, l) ==> KeyLength(report, k, l) <= KeyLength(report, i, j)
  }

  /** An unstable finding as long as every other unstable one. */
  lemma {:induction false} SomeLongest(report: Report, i: int, j: int, bound: nat) returns (k: int, l: int)
    requires UnstableAt(report, i, j)
    requires forall x, y :: UnstableAt(report, x, y) ==> KeyLength(report, x, y) <= bound
    ensures LongestUnstable(report, k, l)
    decreases bound - KeyLength(report, i, j)
  {
    if x, y :| UnstableAt(report, x, y) && KeyLength(report, x, y) > KeyLength(report, i, j) {
      k, l := SomeLongest(report, x, y, bound);
    } else {
      k, l := i, j;
    }
  }

  lemma {:induction false} LengthsOf(findings: seq<Finding>) returns (bound: nat)
    ensures forall f :: f in findings ==> |Normalize(f.message)| <= bound
    decreases |findings|
  {
    if findings == [] {
      bound := 0;
    } else {
      var before, last := findings[..|findings| - 1], findings[|findings| - 1];
      bound := LengthsOf(before);
      assert findings == before + [last];
      bound := Max(bound, |Normalize(last.message)|);
    }
  }

  lemma {:induction false} LengthsBounded(results: seq<Result>) returns (bound: nat)
    ensures forall result, f :: result in results && f in Found(result) ==> |Normalize(f.message)| <= bound
    decreases |results|
  {
    if results == [] {
      bound := 0;
    } else {
      var before, last := results[..|results| - 1], results[|results| - 1];
      var some := LengthsBounded(before);
      var more := LengthsOf(Found(last));
      assert results == before + [last];
      bound := Max(some, more);
    }
  }

  lemma LongestExists(report: Report) returns (i: int, j: int)
    requires !AllStable(report)
    ensures LongestUnstable(report, i, j)
  {
    var x, y :| Reports(report, x, y) && !Stable(FindingAt(report, x, y).message);
    var bound := LengthsBounded(report.results);
    assert UnstableAt(report, x, y);
    forall k, l | UnstableAt(report, k, l) ensures KeyLength(report, k, l) <= bound {
      assert report.results[k] in report.results && FindingAt(report, k, l) in Found(report.results[k]);
    }
    i, j := SomeLongest(report, x, y, bound);
  }

  /** No written entry that the finding's check covers has the key of a longest unstable one. */
  lemma LongestIsUnmatched(b: Baseline, report: Report, configured: seq<Check>, written: Baseline, i: int, j: int, e: Entry)
    requires WrittenFrom(b, report, configured, written) && LongestUnstable(report, i, j)
    requires e in written.entries && CoveredAt(report, i, e)
    ensures KeyOf(e) != ReportedKey(report, i, j)
  {
    CoveredIsCounted(b, report, configured, written, e, i);
    var k, l := MostFrom(report, RawKey(e));
    StableExactlyWhen(FindingAt(report, k, l).message);
    assert e.message == Normalize(FindingAt(report, k, l).message);
    if UnstableAt(report, k, l) {
      assert KeyLength(report, k, l) <= KeyLength(report, i, j);
    }
  }

  lemma LongestIsNotAllowed(b: Baseline, report: Report, configured: seq<Check>, written: Baseline, i: int, j: int)
    requires WrittenFrom(b, report, configured, written) && LongestUnstable(report, i, j) && JudgedAt(report, i)
    ensures ReportedKey(report, i, j) !in AllowancesAt(written, report, i)
  {
    hide Covers;
    var key := ReportedKey(report, i, j);
    AllowanceFrom(written.entries, CheckAt(report, i), report.results[i], key);
    forall e | e in written.entries && Covers(CheckAt(report, i), report.results[i], e) ensures KeyOf(e) != key {
      LongestIsUnmatched(b, report, configured, written, i, j, e);
    }
  }

  lemma UnstableFails(b: Baseline, report: Report, configured: seq<Check>, written: Baseline) returns (i: int)
    requires WrittenFrom(b, report, configured, written) && Unmarked(report) && !AllStable(report)
    ensures JudgedAt(report, i) && AppliedAt(written, report, i).status == Failed
  {
    hide Matching;
    var j;
    i, j := LongestExists(report);
    JudgedRecords(report, i);
    LongestIsNotAllowed(b, report, configured, written, i, j);
    var f := FindingAt(report, i, j);
    assert !f.baselined;
    var result := MarkedResult(written, report, i);
    MarkedAt(CheckAt(report, i), Found(report.results[i]), AllowancesAt(written, report, i), j);
    assert Found(result)[j] == f;
    assert f in Found(result);
    var notices := Sort(Notices(written, report, i, Indices(|written.entries|), |written.entries|), NoticeLe);
    FailingFails(written.path, result, notices, f);
  }

  lemma FailingFails(path: string, result: Result, notices: seq<Notice>, f: Finding)
    requires f in Found(result) && Fails(f) && f.code != STALE
    ensures JudgedResult(path, result, notices).status == Failed
  {
    assert f in Found(result) + StaleFindings(path, notices);
  }

  /** Recording a run and applying the result to the same run passes every check a baseline
      judges exactly when every message the run reported is stable; then nothing is stale or
      orphaned either. */
  lemma RecordThenApply(b: Baseline, report: Report, configured: seq<Check>, written: Baseline, change: Change, applied: Applied)
    requires !Refuses(report) && Unmarked(report)
    requires IsRecorded(b, report, configured, written, change) && IsApplied(written, report, configured, applied)
    ensures (forall i :: JudgedAt(report, i) ==> applied.results[i].status == Passed) <==> AllStable(report)
    ensures AllStable(report) ==> applied.stale == 0
    ensures applied.orphaned == []
  {
    hide AppliedAt;
    RecordedIsWritten(b, report, configured, written, change);
    hide WrittenFrom;
    hide AllStable;
    if AllStable(report) {
      forall i | JudgedAt(report, i) ensures applied.results[i].status == Passed {
        StablePasses(b, report, configured, written, i);
      }
      forall index: nat | index < |written.entries| ensures Missing(written, report, index) == 0 {
        StableLeavesNothing(b, report, configured, written, index);
      }
      assert StaleAmong(written, report, Indices(|written.entries|)) == {};
    } else {
      var i := UnstableFails(b, report, configured, written);
      assert applied.results[i].status == Failed;
    }
    forall e | e in written.entries ensures !Orphan(report, configured, e) {
      WrittenIsNoOrphan(b, report, configured, written, e);
    }
    NoOrphans(written, report, configured, |written.entries|);
  }

  /** And the report passes exactly when, besides, every result no baseline judges passed. */
  lemma RecordThenApplyPasses(b: Baseline, report: Report, configured: seq<Check>, written: Baseline, change: Change, applied: Applied)
    requires !Refuses(report) && Unmarked(report)
    requires IsRecorded(b, report, configured, written, change) && IsApplied(written, report, configured, applied)
    ensures applied.status == Passed
       <==> AllStable(report) && forall i :: 0 <= i < |report.results| && !Judges(report, i) ==> report.results[i].status == Passed
  {
    hide IsRecorded;
    hide AllStable;
    hide AppliedAt;
    RecordThenApply(b, report, configured, written, change, applied);
    ReportConcludes(written, report, configured, applied);
    forall i ensures JudgedAt(report, i) <==> Judges(report, i) {
      CoversAny(report, i);
    }
    forall i | 0 <= i < |report.results| && !Judges(report, i) ensures applied.results[i] == report.results[i] {
      OthersAreKept(written, report, configured, applied, i);
    }
    assert forall i :: 0 <= i < |applied.results| ==> applied.results[i] in applied.results;
  }

  // ---- Recording again ----

  /** An entry with the key of a reported finding is covered by the finding's check. */
  lemma SharedKeyIsCovered(report: Report, i: int, j: int, e: Entry)
    requires !Refuses(report) && Reports(report, i, j) && KeyOf(e) == ReportedKey(report, i, j)
    ensures CoveredAt(report, i, e)
  {
    JudgedRecords(report, i);
    assert FindingAt(report, i, j) in Found(report.results[i]);
  }

  lemma ReportedIsNotKept(report: Report, configured: seq<Check>, entries: seq<Entry>, i: int, j: int)
    requires !Refuses(report) && Reports(report, i, j)
    ensures KeptCount(entries, report, configured, ReportedKey(report, i, j)).None?
  {
    if KeptCount(entries, report, configured, ReportedKey(report, i, j)).Some? {
      var e := KeptFrom(entries, report, configured, ReportedKey(report, i, j));
      SharedKeyIsCovered(report, i, j, e);
    }
  }

  lemma {:induction false} KeptIsBefore(entries: seq<Entry>, report: Report, configured: seq<Check>, key: Key)
    requires forall e :: e in entries && KeyOf(e) == key ==> Kept(report, configured, e)
    ensures KeptCount(entries, report, configured, key) == Get(Before(entries), key)
    decreases |entries|
  {
    hide Kept;
    hide KeyOf;
    if entries != [] {
      assert entries == entries[..|entries| - 1] + [entries[|entries| - 1]];
      KeptIsBefore(entries[..|entries| - 1], report, configured, key);
    }
  }

  lemma StableCountsSame(b: Baseline, report: Report, configured: seq<Check>, written: Baseline, key: Key)
    requires WrittenFrom(b, report, configured, written) && AllStable(report)
    ensures CountOf(written, report, configured, key) == Get(Before(written.entries), key)
  {
    if Most(report, key) > 0 {
      var i, j := MostFrom(report, key);
      ReportedIsNotKept(report, configured, written.entries, i, j);
      var r := EntryFor(key, Most(report, key));
      ReportedIsWritten(b, report, configured, written, i, j);
      CoveredKeepsKey(b, report, configured, written, r, i);
      assert RawKey(r) == key;
      BeforeHolds(written.entries, key);
      var e :| e in written.entries && KeyOf(e) == key && e.count == Before(written.entries)[key];
      SharedKeyIsCovered(report, i, j, e);
      CoveredKeepsKey(b, report, configured, written, e, i);
      CoveredIsCounted(b, report, configured, written, e, i);
    } else {
      forall e | e in written.entries && KeyOf(e) == key ensures Kept(report, configured, e) {
        WrittenIsNoOrphan(b, report, configured, written, e);
        forall i | 0 <= i < |report.results| && RecordsAt(report, i)
          ensures !Covers(report.checks[report.results[i].id], report.results[i], e)
        {
          JudgedRecords(report, i);
          if CoveredAt(report, i, e) {
            CoveredKeepsKey(b, report, configured, written, e, i);
            CoveredIsCounted(b, report, configured, written, e, i);
          }
        }
      }
      KeptIsBefore(written.entries, report, configured, key);
    }
  }

  lemma UnstableCountsMore(b: Baseline, report: Report, configured: seq<Check>, written: Baseline) returns (key: Key)
    requires WrittenFrom(b, report, configured, written) && !AllStable(report)
    ensures CountOf(written, report, configured, key).Some? && CountOf(written, report, configured, key).value > 0
    ensures key !in Before(written.entries)
  {
    var i, j := LongestExists(report);
    key := ReportedKey(report, i, j);
    ReportedIsCounted(report, i, j);
    ReportedIsNotKept(report, configured, written.entries, i, j);
    BeforeHolds(written.entries, key);
    forall e | e in written.entries ensures KeyOf(e) != key {
      if KeyOf(e) == key {
        SharedKeyIsCovered(report, i, j, e);
        LongestIsUnmatched(b, report, configured, written, i, j, e);
      }
    }
  }

  lemma SumZero(keys: set<Key>, f: Key -> nat)
    requires forall key :: key in keys ==> f(key) == 0
    ensures Sum(keys, f) == 0
  {
    SumSupport(keys, {}, f);
    SumNothing(f);
  }

  /** Recording the same run again adds and removes nothing, exactly when every message it
      reported is stable. */
  lemma RecordAgain(b: Baseline, report: Report, configured: seq<Check>, written: Baseline, change: Change, again: Baseline, second: Change)
    requires !Refuses(report)
    requires IsRecorded(b, report, configured, written, change) && IsRecorded(written, report, configured, again, second)
    ensures second.added == second.removed == 0 <==> AllStable(report)
  {
    hide Sum;
    hide CountOf;
    hide Lists;
    hide IsRecorded;
    RecordedIsWritten(b, report, configured, written, change);
    hide WrittenFrom;
    var counts, before := CountsOf(written, report, configured, again, second), Before(written.entries);
    if AllStable(report) {
      forall key ensures At(counts, key) == At(before, key) {
        StableCountsSame(b, report, configured, written, key);
        assert Get(counts, key) == Get(before, key);
      }
      SumZero(counts.Keys, Excess(counts, before));
      SumZero(before.Keys, Excess(before, counts));
    } else {
      var key := UnstableCountsMore(b, report, configured, written);
      assert Get(counts, key) == CountOf(written, report, configured, key);
      SumWithout(counts.Keys, key, Excess(counts, before));
      assert Excess(counts, before)(key) > 0;
    }
  }

  /** Such a message: "x.go:1:2:3" is recorded as "x.go:3", which matches as "x.go". */
  lemma SomeMessageIsUnstable()
    ensures Normalize("x.go:1:2:3") == "x.go:3" && Normalize("x.go:3") == "x.go" && !Stable("x.go:1:2:3")
  {
    hide StripPositions;
    hide Collapse;
    StripsTwo("x", ":3");
    StripsNone("x");
    StripsNone(":3");
    assert "x" + ".go:1:2" + ":3" == "x.go:1:2:3" && "x" + ".go" + ":3" == "x.go:3";
    StripsOne("x");
    assert "x" + ".go:3" == "x.go:3" && "x" + ".go" == "x.go";
    OneWord("x.go:3");
    OneWord("x.go");
  }
}
