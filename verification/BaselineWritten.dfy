/** What Record writes, over the fields of findings and entries (internal/verify/baseline.go). */
module BaselineWritten {
  import opened Options
  import opened Messages
  import opened Order
  import opened Baseline
  import opened BaselineRecord
  import opened BaselineLaws
  import opened BaselineAnswers

  /** A check of a kind a baseline can hold, whose findings are recorded. */
  predicate Counts(report: Report, i: int) {
    && 0 <= i < |report.results| && report.results[i].id in report.checks
    && report.checks[report.results[i].id].kind in {"go-lint", "go-http", "go-sql", "shell-lint", "go-imports"}
  }

  /** The entry holds this finding of the check, its message normalized. */
  predicate Holds(check: Check, e: Entry, f: Finding) {
    && e.kind == check.kind && e.dir == check.dir
    && e.file == f.file && e.code == f.code && e.message == Normalize(f.message)
  }

  /** How many of the findings an entry holds. */
  function Held(check: Check, e: Entry, findings: seq<Finding>): nat
    decreases |findings|
  {
    if findings == [] then 0
    else
      var last := findings[|findings| - 1];
      Held(check, e, findings[..|findings| - 1]) + if CanAccept(last) && Holds(check, e, last) then 1 else 0
  }

  function HeldAt(report: Report, i: int, e: Entry): nat
    requires Counts(report, i)
  {
    Held(report.checks[report.results[i].id], e, Found(report.results[i]))
  }

  /** The most findings any check reported of what the entry holds. */
  ghost predicate MostHeld(report: Report, e: Entry, most: nat) {
    && (forall i :: Counts(report, i) ==> HeldAt(report, i, e) <= most)
    && (most > 0 ==> exists i :: Counts(report, i) && HeldAt(report, i, e) == most)
  }

  /** Nobody in this run judged the old entry, and somebody configured could: it stays. */
  ghost predicate Stays(report: Report, configured: seq<Check>, was: Entry) {
    && !NobodyRuns(report, configured, was)
    && forall i :: Counts(report, i) ==> !RanRuleOf(report, i, was)
  }

  /** The written entry is old entry k as it was, its message normalized. */
  predicate Carries(b: Baseline, k: nat, e: Entry) {
    && k < |b.entries|
    && var was := b.entries[k];
      e.kind == was.kind && e.dir == was.dir && e.file == was.file && e.code == was.code && e.message == Normalize(was.message)
  }

  ghost predicate StaysAt(b: Baseline, report: Report, configured: seq<Check>, k: nat, e: Entry) {
    Carries(b, k, e) && Stays(report, configured, b.entries[k])
  }

  ghost predicate LastStays(b: Baseline, report: Report, configured: seq<Check>, k: nat, e: Entry) {
    StaysAt(b, report, configured, k, e) && forall l: nat :: k < l ==> !StaysAt(b, report, configured, l, e)
  }

  /** Record refuses exactly a run of no checks, or one with a check that neither passed nor failed. */
  lemma RefusesExactlyWhen(report: Report)
    ensures Refuses(report)
       <==> report.results == [] || exists result :: result in report.results && result.status != Passed && result.status != Failed
  {
    if result :| result in report.results && result.status != Passed && result.status != Failed {
      var i :| 0 <= i < |report.results| && report.results[i] == result;
      assert !Completed(report.results[i]);
    }
  }

  // ---- Keys and counts ----

  lemma {:induction false} HeldIsMatching(check: Check, e: Entry, findings: seq<Finding>)
    ensures Held(check, e, findings) == Matching(check, findings, RawKey(e))
    decreases |findings|
  {
    if findings != [] {
      HeldIsMatching(check, e, findings[..|findings| - 1]);
    }
  }

  lemma CountsRecords(report: Report, i: int)
    ensures Counts(report, i) <==> RecordsAt(report, i)
    ensures Counts(report, i) ==> forall e: Entry :: HeldAt(report, i, e) == MatchingAt(report, i, RawKey(e))
  {
    if Counts(report, i) {
      forall e: Entry ensures HeldAt(report, i, e) == MatchingAt(report, i, RawKey(e)) {
        HeldIsMatching(report.checks[report.results[i].id], e, Found(report.results[i]));
      }
    }
  }

  lemma {:induction false} HighestIsMost(report: Report, key: Key, n: nat)
    requires n <= |report.results|
    ensures forall i :: 0 <= i < n && RecordsAt(report, i) ==> MatchingAt(report, i, key) <= Highest(report, key, n)
    ensures Highest(report, key, n) > 0 ==> exists i :: 0 <= i < n && RecordsAt(report, i) && MatchingAt(report, i, key) == Highest(report, key, n)
  {
    hide MatchingAt;
    hide RecordsAt;
    if n > 0 {
      HighestIsMost(report, key, n - 1);
    }
  }

  lemma MostIsMostHeld(report: Report, e: Entry, most: nat)
    ensures MostHeld(report, e, most) <==> most == Most(report, RawKey(e))
  {
    hide MatchingAt;
    hide HeldAt;
    HighestIsMost(report, RawKey(e), |report.results|);
    forall i ensures Counts(report, i) <==> RecordsAt(report, i)
      ensures Counts(report, i) ==> HeldAt(report, i, e) == MatchingAt(report, i, RawKey(e))
    {
      CountsRecords(report, i);
    }
    hide Counts;
    InRange(report);
  }

  lemma InRange(report: Report)
    ensures forall i :: RecordsAt(report, i) ==> 0 <= i < |report.results|
  {
  }

  lemma StaysIsKept(report: Report, configured: seq<Check>, was: Entry)
    ensures Stays(report, configured, was) <==> Kept(report, configured, was)
  {
    hide Covers;
    hide RanRuleOf;
    hide NobodyRuns;
    hide Orphan;
    OrphanExactlyWhen(report, configured, was);
    forall i ensures Counts(report, i) <==> RecordsAt(report, i)
      ensures Counts(report, i) ==>
                (Covers(report.checks[report.results[i].id], report.results[i], was) <==> RanRuleOf(report, i, was))
    {
      CountsRecords(report, i);
      CoversExactlyWhen(report, i, was);
    }
  }

  lemma KeptCountGrows(b: Baseline, n: nat, report: Report, configured: seq<Check>, e: Entry)
    requires n < |b.entries|
    ensures KeptCount(b.entries[..n + 1], report, configured, RawKey(e))
         == if StaysAt(b, report, configured, n, e) then Some(b.entries[n].count) else KeptCount(b.entries[..n], report, configured, RawKey(e))
  {
    hide StaysAt;
    hide KeyOf;
    hide RawKey;
    hide Kept;
    assert b.entries[..n + 1][..n] == b.entries[..n];
    StaysAtIsKept(b, n, report, configured, e);
  }

  lemma {:induction false} KeptCountFrom(b: Baseline, n: nat, report: Report, configured: seq<Check>, e: Entry) returns (k: nat)
    requires n <= |b.entries| && KeptCount(b.entries[..n], report, configured, RawKey(e)).Some?
    ensures k < n && StaysAt(b, report, configured, k, e) && forall l: nat :: k < l < n ==> !StaysAt(b, report, configured, l, e)
    ensures KeptCount(b.entries[..n], report, configured, RawKey(e)) == Some(b.entries[k].count)
  {
    hide StaysAt;
    hide KeptCount;
    hide RawKey;
    NothingKept(report, configured, RawKey(e));
    KeptCountGrows(b, n - 1, report, configured, e);
    if StaysAt(b, report, configured, n - 1, e) {
      k := n - 1;
    } else {
      k := KeptCountFrom(b, n - 1, report, configured, e);
    }
  }

  lemma NothingKept(report: Report, configured: seq<Check>, key: Key)
    ensures KeptCount([], report, configured, key).None?
  {
  }

  lemma {:induction false} KeptCountHas(b: Baseline, n: nat, report: Report, configured: seq<Check>, e: Entry, k: nat)
    requires k < n <= |b.entries| && StaysAt(b, report, configured, k, e)
    ensures KeptCount(b.entries[..n], report, configured, RawKey(e)).Some?
  {
    hide StaysAt;
    hide KeptCount;
    hide RawKey;
    KeptCountGrows(b, n - 1, report, configured, e);
    if k < n - 1 {
      KeptCountHas(b, n - 1, report, configured, e, k);
    }
  }

  lemma StaysAtIsKept(b: Baseline, k: nat, report: Report, configured: seq<Check>, e: Entry)
    requires k < |b.entries|
    ensures StaysAt(b, report, configured, k, e) <==> Kept(report, configured, b.entries[k]) && KeyOf(b.entries[k]) == RawKey(e)
  {
    hide Stays;
    hide Kept;
    StaysIsKept(report, configured, b.entries[k]);
  }

  /** Record writes an entry exactly when it is an old one that stays, with its count; or, where
      none stays, it holds findings of the run, and counts the most any check reported. */
  lemma WrittenExactlyWhen(b: Baseline, report: Report, configured: seq<Check>, written: Baseline, change: Change, e: Entry)
    requires IsRecorded(b, report, configured, written, change)
    ensures e in written.entries
       <==> || (exists k: nat :: LastStays(b, report, configured, k, e) && e.count == b.entries[k].count)
            || ((forall k: nat :: !StaysAt(b, report, configured, k, e)) && e.count > 0 && MostHeld(report, e, e.count))
  {
    hide Most;
    hide MostHeld;
    hide KeptCount;
    hide Sum;
    hide StaysAt;
    var counts := CountsOf(b, report, configured, written, change);
    assert Get(counts, RawKey(e)) == CountOf(b, report, configured, RawKey(e));
    assert b.entries[..|b.entries|] == b.entries;
    MostIsMostHeld(report, e, e.count);
    forall k: nat | StaysAt(b, report, configured, k, e) ensures k < |b.entries| {
      StaysInRange(b, report, configured, k, e);
    }
    if KeptCount(b.entries, report, configured, RawKey(e)).Some? {
      var k := KeptCountFrom(b, |b.entries|, report, configured, e);
      assert LastStays(b, report, configured, k, e);
      assert forall l: nat :: LastStays(b, report, configured, l, e) ==> l == k;
    } else {
      forall k: nat ensures !StaysAt(b, report, configured, k, e) {
        if StaysAt(b, report, configured, k, e) {
          KeptCountHas(b, |b.entries|, report, configured, e, k);
        }
      }
    }
  }

  lemma StaysInRange(b: Baseline, report: Report, configured: seq<Check>, k: nat, e: Entry)
    requires StaysAt(b, report, configured, k, e)
    ensures k < |b.entries|
  {
  }

  function Fields(e: Entry): seq<string> {
    [e.kind, e.dir, e.file, e.code, e.message]
  }

  /** The first field in which they differ puts the one before the other. */
  predicate Precedes(a: Entry, b: Entry) {
    exists n :: 0 <= n < 5 && Fields(a)[..n] == Fields(b)[..n] && Fields(a)[n] != Fields(b)[n] && TextLe(Fields(a)[n], Fields(b)[n])
  }

  /** The entries are in order of kind, directory, file, code and message, none of them twice. */
  lemma WrittenInOrder(b: Baseline, report: Report, configured: seq<Check>, written: Baseline, change: Change, i: nat, j: nat)
    requires IsRecorded(b, report, configured, written, change) && i < j < |written.entries|
    ensures Precedes(written.entries[i], written.entries[j])
  {
    var counts := CountsOf(b, report, configured, written, change);
    FirstDifference(written.entries[i], written.entries[j]);
  }

  lemma FirstDifference(a: Entry, b: Entry)
    requires EntryLe(a, b) && RawKey(a) != RawKey(b)
    ensures Precedes(a, b)
  {
    hide TextLe;
    var n := if a.kind != b.kind then 0 else if a.dir != b.dir then 1 else if a.file != b.file then 2 else if a.code != b.code then 3 else 4;
    assert Fields(a)[..n] == Fields(b)[..n];
  }

  /** The failed checks of other kinds are named as not recorded, and only those. */
  lemma UnrecordedExactlyWhen(b: Baseline, report: Report, configured: seq<Check>, written: Baseline, change: Change, id: string)
    requires IsRecorded(b, report, configured, written, change)
    ensures id in change.unrecorded
       <==> exists i :: 0 <= i < |report.results| && !Counts(report, i) && report.results[i].status == Failed && report.results[i].id == id
  {
    hide Lists;
    hide Sum;
    UnrecordedHolds(report, |report.results|, id);
  }

  lemma {:induction false} UnrecordedHolds(report: Report, n: nat, id: string)
    requires n <= |report.results|
    ensures id in Unrecorded(report, n)
       <==> exists i :: 0 <= i < n && !Counts(report, i) && report.results[i].status == Failed && report.results[i].id == id
  {
    if n > 0 {
      UnrecordedHolds(report, n - 1, id);
      CountsRecords(report, n - 1);
    }
  }

  // ---- What is added and removed ----

  /** How many findings the written entries hold under a key. */
  function CountIn(entries: seq<Entry>, key: Key): nat
    decreases |entries|
  {
    if entries == [] then 0
    else if RawKey(entries[|entries| - 1]) == key then entries[|entries| - 1].count
    else CountIn(entries[..|entries| - 1], key)
  }

  /** What the old entries counted beyond what the written ones do. */
  function Lost(entries: seq<Entry>, written: seq<Entry>): nat
    decreases |entries|
  {
    if entries == [] then 0
    else
      var last := entries[|entries| - 1];
      Lost(entries[..|entries| - 1], written) + Minus(last.count, CountIn(written, KeyOf(last)))
  }

  lemma {:induction false} CountInFinds(entries: seq<Entry>, key: Key)
    ensures CountIn(entries, key) > 0 ==> exists e :: e in entries && RawKey(e) == key && e.count == CountIn(entries, key)
    decreases |entries|
  {
    hide RawKey;
    if entries != [] {
      var before, last := entries[..|entries| - 1], entries[|entries| - 1];
      assert entries == before + [last];
      CountInFinds(before, key);
    }
  }

  lemma {:induction false} CountInOnly(entries: seq<Entry>, e: Entry)
    requires e in entries && forall o :: o in entries && RawKey(o) == RawKey(e) ==> o == e
    ensures CountIn(entries, RawKey(e)) == e.count
    decreases |entries|
  {
    hide RawKey;
    var before, last := entries[..|entries| - 1], entries[|entries| - 1];
    assert entries == before + [last];
    if RawKey(last) != RawKey(e) {
      CountInOnly(before, e);
    }
  }

  lemma ListsCount(entries: seq<Entry>, counts: map<Key, nat>, key: Key)
    requires Lists(entries, counts)
    ensures CountIn(entries, key) == At(counts, key)
  {
    hide RawKey;
    if key in counts {
      var e := EntryFor(key, counts[key]);
      RawKeyFor(key, counts[key]);
      assert e in entries;
      forall o | o in entries && RawKey(o) == key ensures o == e {
        SameRaw(o, e);
      }
      CountInOnly(entries, e);
    } else {
      CountInFinds(entries, key);
    }
  }

  lemma RawKeyFor(key: Key, count: nat)
    ensures RawKey(EntryFor(key, count)) == key && EntryFor(key, count).count == count
  {
  }

  lemma SameRaw(a: Entry, b: Entry)
    requires RawKey(a) == RawKey(b) && a.count == b.count
    ensures a == b
  {
  }

  lemma {:induction false} LostIsExcess(entries: seq<Entry>, written: seq<Entry>, counts: map<Key, nat>)
    requires DistinctKeys(entries) && Lists(written, counts)
    ensures Lost(entries, written) == Sum(Before(entries).Keys, Excess(Before(entries), counts))
    decreases |entries|
  {
    hide KeyOf;
    hide Sum;
    hide Lists;
    if entries == [] {
      assert Before(entries).Keys == {};
      SumNothing(Excess(Before(entries), counts));
    } else {
      var rest, last := entries[..|entries| - 1], entries[|entries| - 1];
      LostIsExcess(rest, written, counts);
      ListsCount(written, counts, KeyOf(last));
      BeforeHolds(rest, KeyOf(last));
      var fewer, all := Before(rest), Before(entries);
      assert KeyOf(last) !in fewer by {
        assert forall e :: e in rest ==> exists i :: 0 <= i < |rest| && entries[i] == e;
      }
      SumWithout(all.Keys, KeyOf(last), Excess(all, counts));
      assert all.Keys - {KeyOf(last)} == fewer.Keys;
      SumSame(fewer.Keys, Excess(all, counts), Excess(fewer, counts));
    }
  }

  /** Removed is what the old entries count and the new ones do not, key by key; added is the rest
      of the difference. */
  lemma ChangeExactlyWhen(b: Baseline, report: Report, configured: seq<Check>, written: Baseline, change: Change)
    requires DistinctKeys(b.entries) && IsRecorded(b, report, configured, written, change)
    ensures change.removed == Lost(b.entries, written.entries)
    ensures change.added == TotalCount(written.entries) + Lost(b.entries, written.entries) - TotalCount(b.entries)
  {
    hide Sum;
    hide Lists;
    RecordConserves(b, report, configured, written, change);
    var counts := CountsOf(b, report, configured, written, change);
    LostIsExcess(b.entries, written.entries, counts);
  }
}
