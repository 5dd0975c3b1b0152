/**
  Record (internal/verify/baseline.go): the baseline that holds what a run found, and the entries
  of the old one that nobody in the run judged.
 */
module BaselineRecord {
  import opened Options
  import opened Order
  import opened Baseline

  datatype Change = Change(added: nat, removed: nat, unrecorded: seq<string>)

  datatype Recorded = Refused | Wrote(baseline: Baseline, change: Change)

  // ---- Sums over sets of keys ----

  ghost function Sum(keys: set<Key>, f: Key -> nat): nat {
    if keys == {} then 0
    else
      var key :| key in keys;
      f(key) + Sum(keys - {key}, f)
  }

  lemma {:induction false} SumWithout(keys: set<Key>, key: Key, f: Key -> nat)
    requires key in keys
    ensures Sum(keys, f) == f(key) + Sum(keys - {key}, f)
  {
    var first: Key :| first in keys && Sum(keys, f) == f(first) + Sum(keys - {first}, f);
    if first != key {
      SumWithout(keys - {first}, key, f);
      SumWithout(keys - {key}, first, f);
      assert keys - {first} - {key} == keys - {key} - {first};
    }
  }

  lemma {:induction false} SumSame(keys: set<Key>, f: Key -> nat, g: Key -> nat)
    requires forall key :: key in keys ==> f(key) == g(key)
    ensures Sum(keys, f) == Sum(keys, g)
  {
    if keys != {} {
      var key :| key in keys;
      SumWithout(keys, key, f);
      SumWithout(keys, key, g);
      SumSame(keys - {key}, f, g);
    }
  }

  // ---- What Record does ----

  /** The checks whose findings are recorded. */
  predicate RecordsAt(report: Report, i: int) {
    && 0 <= i < |report.results|
    && report.results[i].id in report.checks && report.checks[report.results[i].id].kind in BASELINE_KINDS
  }

  function MatchingAt(report: Report, i: int, key: Key): nat
    requires RecordsAt(report, i)
  {
    Matching(report.checks[report.results[i].id], Found(report.results[i]), key)
  }

  function Max(a: nat, b: nat): nat {
    if a < b then b else a
  }

  /** The most findings of a key that any of the first n results' checks reported. */
  function Highest(report: Report, key: Key, n: nat): nat
    requires n <= |report.results|
  {
    if n == 0 then 0
    else if RecordsAt(report, n - 1) then Max(Highest(report, key, n - 1), MatchingAt(report, n - 1, key))
    else Highest(report, key, n - 1)
  }

  function Most(report: Report, key: Key): nat {
    Highest(report, key, |report.results|)
  }

  /** An entry kept as it is: not orphaned, and covered by no check that records. */
  predicate Kept(report: Report, configured: seq<Check>, e: Entry) {
    && !Orphan(report, configured, e)
    && forall i :: 0 <= i < |report.results| && RecordsAt(report, i) ==>
         !Covers(report.checks[report.results[i].id], report.results[i], e)
  }

  /** The count of the last entry kept under a key. */
  function KeptCount(entries: seq<Entry>, report: Report, configured: seq<Check>, key: Key): Option<nat>
    decreases |entries|
  {
    if entries == [] then None
    else
      var last := entries[|entries| - 1];
      if Kept(report, configured, last) && KeyOf(last) == key then Some(last.count)
      else KeptCount(entries[..|entries| - 1], report, configured, key)
  }

  /** What Record counts under a key, if anything. */
  function CountOf(b: Baseline, report: Report, configured: seq<Check>, key: Key): Option<nat> {
    var kept := KeptCount(b.entries, report, configured, key);
    if kept.Some? then kept
    else if Most(report, key) > 0 then Some(Most(report, key))
    else None
  }

  function Get(counts: map<Key, nat>, key: Key): Option<nat> {
    if key in counts then Some(counts[key]) else None
  }

  /** The counts of a baseline's entries by key; a later entry overrides an earlier one. */
  function Before(entries: seq<Entry>): map<Key, nat>
    decreases |entries|
  {
    if entries == [] then map[]
    else Before(entries[..|entries| - 1])[KeyOf(entries[|entries| - 1]) := entries[|entries| - 1].count]
  }

  function RawKey(e: Entry): Key {
    Key(e.kind, e.dir, e.file, e.code, e.message)
  }

  function EntryFor(key: Key, count: nat): Entry {
    Entry(key.kind, key.dir, key.file, key.code, key.message, count)
  }

  /** compareEntries, which leaves the count aside; keys differ, so it decides nothing. */
  predicate EntryLe(a: Entry, b: Entry) {
    if a.kind != b.kind then TextLe(a.kind, b.kind)
    else if a.dir != b.dir then TextLe(a.dir, b.dir)
    else if a.file != b.file then TextLe(a.file, b.file)
    else if a.code != b.code then TextLe(a.code, b.code)
    else if a.message != b.message then TextLe(a.message, b.message)
    else a.count <= b.count
  }

  /** In order, one entry for each counted key. */
  ghost predicate Lists(entries: seq<Entry>, counts: map<Key, nat>) {
    && Sorted(entries, EntryLe)
    && (forall i, j :: 0 <= i < j < |entries| ==> RawKey(entries[i]) != RawKey(entries[j]))
    && (forall e :: e in entries <==> RawKey(e) in counts && counts[RawKey(e)] == e.count)
  }

  function Excess(a: map<Key, nat>, b: map<Key, nat>): Key -> nat {
    (key: Key) => Minus(At(a, key), At(b, key))
  }

  predicate Refuses(report: Report) {
    report.results == [] || exists i :: 0 <= i < |report.results| && !Completed(report.results[i])
  }

  function Unrecorded(report: Report, n: nat): seq<string>
    requires n <= |report.results|
  {
    if n == 0 then []
    else
      Unrecorded(report, n - 1)
      + if !RecordsAt(report, n - 1) && report.results[n - 1].status == Failed then [report.results[n - 1].id] else []
  }

  /** What Record promises of a run it does not refuse. */
  ghost predicate IsRecorded(b: Baseline, report: Report, configured: seq<Check>, written: Baseline, change: Change) {
    exists counts: map<Key, nat> ::
      && (forall key :: Get(counts, key) == CountOf(b, report, configured, key))
      && written.path == b.path && written.lines == [] && Lists(written.entries, counts)
      && change == Change(Sum(counts.Keys, Excess(counts, Before(b.entries))),
                          Sum(Before(b.entries).Keys, Excess(Before(b.entries), counts)),
                          Unrecorded(report, |report.results|))
  }

  // ---- Record, as the source writes it ----

  /** The loop over one result's findings. */
  method CountLocal(check: Check, findings: seq<Finding>) returns (local: map<Key, nat>)
    ensures forall key :: Get(local, key) == if Matching(check, findings, key) > 0 then Some(Matching(check, findings, key)) else None
  {
    hide FindingKey;
    local := map[];
    for j := 0 to |findings|
      invariant forall key :: Get(local, key) == if Matching(check, findings[..j], key) > 0 then Some(Matching(check, findings[..j], key)) else None
    {
      var f := findings[j];
      assert findings[..j + 1][..j] == findings[..j];
      if f.code != STALE && !f.advisory {
        var key := FindingKey(check, f);
        local := local[key := At(local, key) + 1];
      }
    }
    assert findings[..|findings|] == findings;
  }

  /** The loop over what one check counted. */
  method RaiseCounts(were: map<Key, nat>, local: map<Key, nat>) returns (counts: map<Key, nat>)
    ensures forall key :: Get(counts, key) == if key in local then Some(Max(At(were, key), local[key])) else Get(were, key)
  {
    counts := were;
    var todo := local.Keys;
    while todo != {}
      invariant todo <= local.Keys
      invariant forall key :: Get(counts, key) == if key in local && key !in todo then Some(Max(At(were, key), local[key])) else Get(were, key)
      decreases |todo|
    {
      var key :| key in todo;
      assert Get(counts, key) == Get(were, key);
      counts := counts[key := Max(At(counts, key), local[key])];
      todo := todo - {key};
    }
  }

  /** The loop over the results: the most findings any check reported of each key. */
  method CountRun(report: Report) returns (counts: map<Key, nat>, unrecorded: seq<string>)
    ensures forall key :: Get(counts, key) == if Most(report, key) > 0 then Some(Most(report, key)) else None
    ensures unrecorded == Unrecorded(report, |report.results|)
  {
    hide Matching;
    counts, unrecorded := map[], [];
    for i := 0 to |report.results|
      invariant forall key :: Get(counts, key) == if Highest(report, key, i) > 0 then Some(Highest(report, key, i)) else None
      invariant unrecorded == Unrecorded(report, i)
    {
      var result := report.results[i];
      if result.id !in report.checks || report.checks[result.id].kind !in BASELINE_KINDS {
        if result.status == Failed {
          unrecorded := unrecorded + [result.id];
        }
        continue;
      }
      var local := CountLocal(report.checks[result.id], Found(result));
      ghost var were := counts;
      counts := RaiseCounts(counts, local);
      forall key
        ensures Get(counts, key) == if Highest(report, key, i + 1) > 0 then Some(Highest(report, key, i + 1)) else None
      {
        assert Get(local, key) == if MatchingAt(report, i, key) > 0 then Some(MatchingAt(report, i, key)) else None;
        assert Get(were, key) == if Highest(report, key, i) > 0 then Some(Highest(report, key, i)) else None;
      }
    }
  }

  function Over(kept: Option<nat>, found: Option<nat>): Option<nat> {
    if kept.Some? then kept else found
  }

  /** The loop over the old entries. */
  method KeepEntries(b: Baseline, report: Report, configured: seq<Check>, found: map<Key, nat>)
    returns (counts: map<Key, nat>, before: map<Key, nat>)
    requires forall key :: Get(found, key) == if Most(report, key) > 0 then Some(Most(report, key)) else None
    ensures forall key :: Get(counts, key) == CountOf(b, report, configured, key)
    ensures before == Before(b.entries)
  {
    hide Kept;
    hide KeyOf;
    hide Most;
    counts, before := found, map[];
    for n := 0 to |b.entries|
      invariant before == Before(b.entries[..n])
      invariant forall key :: Get(counts, key) == Over(KeptCount(b.entries[..n], report, configured, key), Get(found, key))
    {
      var e := b.entries[n];
      assert b.entries[..n + 1][..n] == b.entries[..n];
      before := before[KeyOf(e) := e.count];
      if Kept(report, configured, e) {
        counts := counts[KeyOf(e) := e.count];
      }
    }
    assert b.entries[..|b.entries|] == b.entries;
  }

  lemma EntriesAreTotal()
    ensures Total(EntryLe)
  {
    forall a, b ensures (EntryLe(a, b) || EntryLe(b, a)) && (EntryLe(a, b) && EntryLe(b, a) ==> a == b) {
      TextTotal(a.kind, b.kind);
      TextTotal(a.dir, b.dir);
      TextTotal(a.file, b.file);
      TextTotal(a.code, b.code);
      TextTotal(a.message, b.message);
    }
    forall a, b, c | EntryLe(a, b) && EntryLe(b, c) ensures EntryLe(a, c) {
      EntriesTransitive(a, b, c);
    }
  }

  lemma EntriesTransitive(a: Entry, b: Entry, c: Entry)
    requires EntryLe(a, b) && EntryLe(b, c)
    ensures EntryLe(a, c)
  {
    hide TextLe;
    Chain(a.kind, b.kind, c.kind);
    Chain(a.dir, b.dir, c.dir);
    Chain(a.file, b.file, c.file);
    Chain(a.code, b.code, c.code);
    Chain(a.message, b.message, c.message);
  }

  lemma Chain(a: string, b: string, c: string)
    ensures TextLe(a, b) && TextLe(b, c) ==> TextLe(a, c)
    ensures TextLe(a, b) && TextLe(b, a) ==> a == b
    ensures TextLe(b, c) && TextLe(c, b) ==> b == c
  {
    TextTotal(a, b);
    TextTotal(b, c);
    if TextLe(a, b) && TextLe(b, c) {
      TextTransitive(a, b, c);
    }
  }

  /** Entries listed, in any order, for the counts of some keys. */
  ghost predicate Listed(entries: seq<Entry>, counts: map<Key, nat>, done: set<Key>) {
    && (forall e :: e in entries <==> RawKey(e) in done && RawKey(e) in counts && counts[RawKey(e)] == e.count)
    && (forall i, j :: 0 <= i < j < |entries| ==> RawKey(entries[i]) != RawKey(entries[j]))
  }

  lemma ListedGrows(entries: seq<Entry>, counts: map<Key, nat>, done: set<Key>, key: Key)
    requires Listed(entries, counts, done) && key in counts && key !in done
    ensures Listed(entries + [EntryFor(key, counts[key])], counts, done + {key})
  {
    var more := entries + [EntryFor(key, counts[key])];
    assert forall e :: e in more <==> e in entries || e == EntryFor(key, counts[key]);
    assert forall i :: 0 <= i < |entries| ==> entries[i] in entries && more[i] == entries[i];
  }

  lemma NothingListed(counts: map<Key, nat>)
    ensures Listed([], counts, {})
  {
  }

  /** The loop over the new counts, a map. */
  method ListCounts(counts: map<Key, nat>, before: map<Key, nat>) returns (listed: seq<Entry>, added: nat)
    ensures Listed(listed, counts, counts.Keys) && added == Sum(counts.Keys, Excess(counts, before))
  {
    hide Listed;
    hide Sum;
    hide EntryFor;
    listed, added := [], 0;
    var todo := counts.Keys;
    ghost var done: set<Key> := {};
    NothingListed(counts);
    while todo != {}
      invariant todo <= counts.Keys && done == counts.Keys - todo
      invariant Listed(listed, counts, done)
      invariant added + Sum(todo, Excess(counts, before)) == Sum(counts.Keys, Excess(counts, before))
      decreases |todo|
    {
      var key :| key in todo;
      SumWithout(todo, key, Excess(counts, before));
      ListedGrows(listed, counts, done, key);
      listed := listed + [EntryFor(key, counts[key])];
      added := added + Minus(counts[key], At(before, key));
      todo, done := todo - {key}, done + {key};
    }
    SumNothing(Excess(counts, before));
    assert done == counts.Keys;
  }

  lemma SumNothing(f: Key -> nat)
    ensures Sum({}, f) == 0
  {
  }

  /** The loop over the old counts, a map. */
  method CountRemoved(counts: map<Key, nat>, before: map<Key, nat>) returns (removed: nat)
    ensures removed == Sum(before.Keys, Excess(before, counts))
  {
    removed := 0;
    var todo := before.Keys;
    while todo != {}
      invariant todo <= before.Keys
      invariant removed + Sum(todo, Excess(before, counts)) == Sum(before.Keys, Excess(before, counts))
      decreases |todo|
    {
      var key :| key in todo;
      SumWithout(todo, key, Excess(before, counts));
      removed := removed + Minus(before[key], At(counts, key));
      todo := todo - {key};
    }
  }

  /** slices.SortFunc by compareEntries. */
  method SortEntries(listed: seq<Entry>, counts: map<Key, nat>) returns (entries: seq<Entry>)
    requires Listed(listed, counts, counts.Keys)
    ensures Lists(entries, counts)
  {
    hide EntryLe;
    EntriesAreTotal();
    SortSorts(listed, EntryLe);
    entries := Sort(listed, EntryLe);
    SortedLists(listed, entries);
  }

  /** Sorting keeps keys apart. */
  lemma SortedLists(listed: seq<Entry>, entries: seq<Entry>)
    requires multiset(entries) == multiset(listed)
    requires forall i, j :: 0 <= i < j < |listed| ==> RawKey(listed[i]) != RawKey(listed[j])
    ensures forall i, j :: 0 <= i < j < |entries| ==> RawKey(entries[i]) != RawKey(entries[j])
    ensures forall e :: e in entries <==> e in listed
  {
    forall e ensures e in entries <==> e in listed {
      assert e in entries <==> e in multiset(entries);
      assert e in listed <==> e in multiset(listed);
    }
    forall i, j | 0 <= i < j < |entries| ensures RawKey(entries[i]) != RawKey(entries[j]) {
      assert entries[i] in entries && entries[j] in entries;
      if entries[i] == entries[j] {
        assert entries == entries[..j] + [entries[j]] + entries[j + 1..];
        assert entries[i] in multiset(entries[..j]);
        assert multiset(listed)[entries[i]] >= 2;
        OnceListed(listed, entries[i]);
      }
    }
  }

  lemma {:induction false} OnceListed(listed: seq<Entry>, e: Entry)
    requires forall i, j :: 0 <= i < j < |listed| ==> RawKey(listed[i]) != RawKey(listed[j])
    ensures multiset(listed)[e] <= 1
  {
    if listed != [] {
      var before, last := listed[..|listed| - 1], listed[|listed| - 1];
      assert listed == before + [last];
      OnceListed(before, e);
      if last == e {
        forall i | 0 <= i < |before| ensures before[i] != e {
          assert RawKey(listed[i]) != RawKey(last);
        }
        assert e !in before;
      }
    }
  }

  method Record(b: Baseline, report: Report, configured: seq<Check>) returns (recorded: Recorded)
    ensures recorded.Refused? <==> Refuses(report)
    ensures recorded.Wrote? ==> IsRecorded(b, report, configured, recorded.baseline, recorded.change)
  {
    hide CountOf;
    hide Most;
    hide Lists;
    for i := 0 to |report.results|
      invariant forall k :: 0 <= k < i ==> Completed(report.results[k])
    {
      if !Completed(report.results[i]) {
        return Refused;
      }
    }
    if report.results == [] {
      return Refused;
    }
    var found, unrecorded := CountRun(report);
    var counts, before := KeepEntries(b, report, configured, found);
    var listed, added := ListCounts(counts, before);
    var removed := CountRemoved(counts, before);
    var entries := SortEntries(listed, counts);
    recorded := Wrote(Baseline(b.path, entries, []), Change(added, removed, unrecorded));
  }
}
