/**
  How Record and Apply fit together (internal/verify/baseline.go): what Apply marks and charges,
  that Record conserves findings, and when a judged result passes.
 */
module BaselineLaws {
  import opened Order
  import opened Baseline
  import opened BaselineRecord

  // ---- What Apply marks ----

  function Least(a: nat, b: nat): nat {
    if a < b then a else b
  }

  /** How many findings of a key Apply marks. */
  function MarksOf(check: Check, findings: seq<Finding>, allowed: map<Key, nat>, key: Key): nat
    decreases |findings|
  {
    if findings == [] then 0
    else
      var before, last := findings[..|findings| - 1], findings[|findings| - 1];
      MarksOf(check, before, allowed, key)
      + if Marks(check, before, last, allowed) && FindingKey(check, last) == key then 1 else 0
  }

  /** Apply marks exactly min(allowance, matching findings) of each key. */
  lemma {:induction false} MarksAreMin(check: Check, findings: seq<Finding>, allowed: map<Key, nat>, key: Key)
    ensures MarksOf(check, findings, allowed, key) == Least(At(allowed, key), Matching(check, findings, key))
    decreases |findings|
  {
    hide FindingKey;
    if findings != [] {
      MarksAreMin(check, findings[..|findings| - 1], allowed, key);
    }
  }

  /** Marking changes nothing else: each finding stays, or becomes baselined. */
  lemma {:induction false} MarkedAt(check: Check, findings: seq<Finding>, allowed: map<Key, nat>, j: nat)
    requires j < |findings|
    ensures |Marked(check, findings, allowed)| == |findings|
    ensures Marked(check, findings, allowed)[j]
         == if Marks(check, findings[..j], findings[j], allowed) then findings[j].(baselined := true) else findings[j]
    decreases |findings|
  {
    hide Marks;
    var before := findings[..|findings| - 1];
    assert j < |before| ==> before[..j] == findings[..j];
    if before != [] {
      MarkedAt(check, before, allowed, if j < |before| then j else 0);
    }
  }

  lemma {:induction false} MatchingGrows(check: Check, findings: seq<Finding>, j: nat, key: Key)
    requires j <= |findings|
    ensures Matching(check, findings[..j], key) <= Matching(check, findings, key)
    decreases |findings| - j
  {
    hide FindingKey;
    if j == |findings| {
      assert findings[..j] == findings;
    } else {
      assert findings[..j + 1][..j] == findings[..j];
      MatchingGrows(check, findings, j + 1, key);
    }
  }

  lemma MatchingHas(check: Check, findings: seq<Finding>, j: nat)
    requires j < |findings| && Eligible(findings[j])
    ensures Matching(check, findings[..j], FindingKey(check, findings[j])) < Matching(check, findings, FindingKey(check, findings[j]))
  {
    assert findings[..j + 1][..j] == findings[..j];
    MatchingGrows(check, findings, j + 1, FindingKey(check, findings[j]));
  }

  /** A key that matches has a finding. */
  lemma {:induction false} MatchingFrom(check: Check, findings: seq<Finding>, key: Key) returns (j: nat)
    requires Matching(check, findings, key) > 0
    ensures j < |findings| && Eligible(findings[j]) && FindingKey(check, findings[j]) == key
    decreases |findings|
  {
    var last := findings[|findings| - 1];
    if Eligible(last) && FindingKey(check, last) == key {
      j := |findings| - 1;
    } else {
      j := MatchingFrom(check, findings[..|findings| - 1], key);
    }
  }

  // ---- What Apply charges ----

  lemma {:induction false} MinIsLeast(s: seq<nat>)
    requires s != []
    ensures Min(s) in s && forall x :: x in s ==> Min(s) <= x
    decreases |s|
  {
    if |s| > 1 {
      var before, last := s[..|s| - 1], s[|s| - 1];
      MinIsLeast(before);
      assert s == before + [last];
    }
  }

  lemma {:induction false} ShortfallsHold(b: Baseline, report: Report, index: nat, n: nat, x: nat)
    requires index < |b.entries| && n <= |report.results|
    ensures x in Shortfalls(b, report, index, n)
       <==> exists i :: 0 <= i < n && CoveredAt(report, i, b.entries[index]) && Shortfall(b, report, i, KeyOf(b.entries[index])) == x
  {
    hide Shortfall;
    hide KeyOf;
    hide CoveredAt;
    if n > 0 {
      ShortfallsHold(b, report, index, n - 1, x);
    }
  }

  /** An entry's charge: to the first check that covers it, for the least any covering check
      left unused; an entry no check covers is charged to none. */
  lemma ChargeIsLeast(b: Baseline, report: Report, index: nat, i: int)
    requires index < |b.entries| && CoveredAt(report, i, b.entries[index])
    ensures Missing(b, report, index) <= Shortfall(b, report, i, KeyOf(b.entries[index]))
    ensures exists least :: CoveredAt(report, least, b.entries[index])
              && Missing(b, report, index) == Shortfall(b, report, least, KeyOf(b.entries[index]))
    ensures var first := FirstCover(b, report, index, |report.results|);
            first.Some? && first.value <= i && CoveredAt(report, first.value, b.entries[index])
  {
    hide Shortfall;
    hide CoveredAt;
    hide KeyOf;
    var n := |report.results|;
    assert 0 <= i < n by {
      CoveredInRange(report, i, b.entries[index]);
    }
    var all := Shortfalls(b, report, index, n);
    var here := CoveredShortfall(b, report, index, i);
    ShortfallsHold(b, report, index, n, here);
    MinIsLeast(all);
    ShortfallsHold(b, report, index, n, Min(all));
    CoveredHasFirst(b, report, index, n);
    FirstIsFirst(b, report, index, n, i);
  }

  lemma CoveredInRange(report: Report, i: int, e: Entry)
    requires CoveredAt(report, i, e)
    ensures 0 <= i < |report.results|
  {
  }

  function CoveredShortfall(b: Baseline, report: Report, index: nat, i: int): nat
    requires index < |b.entries| && CoveredAt(report, i, b.entries[index])
  {
    Shortfall(b, report, i, KeyOf(b.entries[index]))
  }

  lemma {:induction false} FirstIsFirst(b: Baseline, report: Report, index: nat, n: nat, i: nat)
    requires index < |b.entries| && n <= |report.results| && i < n && CoveredAt(report, i, b.entries[index])
    ensures FirstCover(b, report, index, n).Some? && FirstCover(b, report, index, n).value <= i
  {
    hide CoveredAt;
    if i < n - 1 {
      FirstIsFirst(b, report, index, n - 1, i);
    } else {
      CoveredHasFirst(b, report, index, n - 1);
    }
  }

  /** Every finding of the first m results. */
  function FindingsIn(results: seq<Result>, m: nat): nat
    requires m <= |results|
  {
    if m == 0 then 0 else FindingsIn(results, m - 1) + |Found(results[m - 1])|
  }

  /** What the first n entries are charged to the first m results. */
  ghost function Charges(b: Baseline, report: Report, m: nat, n: nat): nat
    requires n <= |b.entries|
  {
    if m == 0 then 0 else Charges(b, report, m - 1, n) + |Notices(b, report, m - 1, Indices(|b.entries|), n)|
  }

  lemma {:induction false} ChargesGrow(b: Baseline, report: Report, m: nat, n: nat)
    requires n < |b.entries|
    ensures Charges(b, report, m, n + 1) == Charges(b, report, m, n) + OneCharge(b, report, m, n)
  {
    hide NoticeTo;
    if m > 0 {
      ChargesGrow(b, report, m - 1, n);
      NoticesGrow(b, report, m - 1, Indices(|b.entries|), n);
    }
  }

  /** What one entry is charged to the first m results. */
  function OneCharge(b: Baseline, report: Report, m: nat, index: nat): nat
    requires index < |b.entries|
  {
    if m == 0 then 0 else OneCharge(b, report, m - 1, index) + |NoticeTo(b, report, index, m - 1)|
  }

  lemma {:induction false} ChargedOnce(b: Baseline, report: Report, m: nat, index: nat)
    requires index < |b.entries|
    ensures OneCharge(b, report, m, index)
         == var first := FirstCover(b, report, index, |report.results|);
            if first.Some? && first.value < m && Missing(b, report, index) > 0 then 1 else 0
  {
    hide Missing;
    hide FirstCover;
    hide StaleNotice;
    if m > 0 {
      ChargedOnce(b, report, m - 1, index);
    }
  }

  lemma {:induction false} ChargesAreStale(b: Baseline, report: Report, n: nat)
    requires n <= |b.entries|
    ensures Charges(b, report, |report.results|, n) == |StaleAmong(b, report, Indices(n))|
  {
    hide FirstCover;
    hide Shortfalls;
    hide Min;
    if n == 0 {
      NoCharges(b, report, |report.results|);
      assert StaleAmong(b, report, Indices(0)) == {};
    } else {
      ChargesAreStale(b, report, n - 1);
      ChargesGrow(b, report, |report.results|, n - 1);
      ChargedOnce(b, report, |report.results|, n - 1);
      CoveredHasFirst(b, report, n - 1, |report.results|);
      StaleGrows(b, report, Indices(n - 1), n - 1);
      assert Indices(n) == Indices(n - 1) + {n - 1};
    }
  }

  lemma {:induction false} NoCharges(b: Baseline, report: Report, m: nat)
    ensures Charges(b, report, m, 0) == 0
  {
    if m > 0 {
      NoCharges(b, report, m - 1);
      NoticesStart(b, report, m - 1, Indices(|b.entries|));
    }
  }

  /** Applying adds findings for stale entries and no others: the results' findings grow by the
      number of entries that are stale without being orphaned. */
  lemma ApplyAddsOnlyStale(b: Baseline, report: Report, configured: seq<Check>, applied: Applied)
    requires IsApplied(b, report, configured, applied)
    requires forall i :: 0 <= i < |report.results| ==> report.results[i].details.Shared?
    ensures FindingsIn(applied.results, |applied.results|) + |applied.orphaned|
         == FindingsIn(report.results, |report.results|) + applied.stale
  {
    hide StaleAmong;
    FindingsGrow(b, report, configured, applied, |report.results|);
    ChargesAreStale(b, report, |b.entries|);
  }

  lemma {:induction false} FindingsGrow(b: Baseline, report: Report, configured: seq<Check>, applied: Applied, m: nat)
    requires IsApplied(b, report, configured, applied) && m <= |report.results|
    requires forall i :: 0 <= i < |report.results| ==> report.results[i].details.Shared?
    ensures FindingsIn(applied.results, m) == FindingsIn(report.results, m) + Charges(b, report, m, |b.entries|)
  {
    hide AppliedAt;
    hide Found;
    if m > 0 {
      FindingsGrow(b, report, configured, applied, m - 1);
      AppliedLength(b, report, m - 1);
    }
  }

  lemma AppliedLength(b: Baseline, report: Report, i: nat)
    requires i < |report.results| && report.results[i].details.Shared?
    ensures |Found(AppliedAt(b, report, i))| == |Found(report.results[i])| + |Notices(b, report, i, Indices(|b.entries|), |b.entries|)|
  {
    hide Marked;
    hide Notices;
    if JudgedAt(report, i) {
      var found := Found(report.results[i]);
      var notices := Notices(b, report, i, Indices(|b.entries|), |b.entries|);
      NoticesAreTotal();
      SortSorts(notices, NoticeLe);
      assert |multiset(Sort(notices, NoticeLe))| == |multiset(notices)|;
      MarkedLength(CheckAt(report, i), found, AllowancesAt(b, report, i));
    } else {
      ChargedIsJudged(b, report, i, |b.entries|);
    }
  }

  lemma MarkedLength(check: Check, findings: seq<Finding>, allowed: map<Key, nat>)
    ensures |Marked(check, findings, allowed)| == |findings|
  {
    if findings != [] {
      MarkedAt(check, findings, allowed, 0);
    }
  }

  /** Only a judged result is charged. */
  lemma {:induction false} ChargedIsJudged(b: Baseline, report: Report, i: int, n: nat)
    requires n <= |b.entries| && !JudgedAt(report, i)
    ensures Notices(b, report, i, Indices(|b.entries|), n) == []
  {
    hide FirstCover;
    if n > 0 {
      ChargedIsJudged(b, report, i, n - 1);
      CoveredHasFirst(b, report, n - 1, |report.results|);
    }
  }

  /** A judged result passes exactly when it is charged with nothing and each key's findings
      fit in what the baseline allows. */
  lemma PassesExactlyWhen(b: Baseline, report: Report, i: nat)
    requires JudgedAt(report, i) && forall f :: f in Found(report.results[i]) && Eligible(f) ==> !f.baselined
    ensures AppliedAt(b, report, i).status == Passed
       <==> && Notices(b, report, i, Indices(|b.entries|), |b.entries|) == []
            && forall key :: Matching(CheckAt(report, i), Found(report.results[i]), key) <= At(AllowancesAt(b, report, i), key)
  {
    hide Notices;
    hide Covers;
    hide Allowances;
    hide Matching;
    hide Marked;
    hide FindingKey;
    var check, found, allowed := CheckAt(report, i), Found(report.results[i]), AllowancesAt(b, report, i);
    var notices := Notices(b, report, i, Indices(|b.entries|), |b.entries|);
    NoticesAreTotal();
    SortSorts(notices, NoticeLe);
    assert |multiset(Sort(notices, NoticeLe))| == |multiset(notices)|;
    MarkedLength(check, found, allowed);
    AllMarkedExactlyWhen(check, found, allowed);
  }

  lemma {:induction false} AllMarkedExactlyWhen(check: Check, findings: seq<Finding>, allowed: map<Key, nat>)
    requires forall f :: f in findings && Eligible(f) ==> !f.baselined
    ensures (forall f :: f in Marked(check, findings, allowed) ==> !Fails(f) || f.code == STALE)
       <==> forall key :: Matching(check, findings, key) <= At(allowed, key)
    decreases |findings|
  {
    hide FindingKey;
    if findings != [] {
      var before, last := findings[..|findings| - 1], findings[|findings| - 1];
      assert findings == before + [last];
      AllMarkedExactlyWhen(check, before, allowed);
      var marked := Marked(check, before, allowed);
      var final := if Marks(check, before, last, allowed) then last.(baselined := true) else last;
      assert Marked(check, findings, allowed) == marked + [final];
      assert forall f :: f in marked + [final] <==> f in marked || f == final;
      var key := FindingKey(check, last);
      assert Matching(check, findings, key) == Matching(check, before, key) + if Eligible(last) then 1 else 0;
      assert forall k :: Matching(check, before, k) <= Matching(check, findings, k);
    }
  }

  // ---- Record conserves findings ----

  function TotalCount(entries: seq<Entry>): nat
    decreases |entries|
  {
    if entries == [] then 0 else TotalCount(entries[..|entries| - 1]) + entries[|entries| - 1].count
  }

  function Counted(counts: map<Key, nat>): Key -> nat {
    (key: Key) => At(counts, key)
  }

  /** parseBaseline refuses entries that repeat a key. */
  predicate DistinctKeys(entries: seq<Entry>) {
    forall i, j :: 0 <= i < j < |entries| ==> KeyOf(entries[i]) != KeyOf(entries[j])
  }

  lemma {:induction false} BeforeHolds(entries: seq<Entry>, key: Key)
    ensures key in Before(entries) <==> exists e :: e in entries && KeyOf(e) == key
    ensures key in Before(entries) ==> exists e :: e in entries && KeyOf(e) == key && e.count == Before(entries)[key]
    decreases |entries|
  {
    hide KeyOf;
    if entries != [] {
      BeforeHolds(entries[..|entries| - 1], key);
      assert entries == entries[..|entries| - 1] + [entries[|entries| - 1]];
    }
  }

  lemma {:induction false} TotalBefore(entries: seq<Entry>)
    requires DistinctKeys(entries)
    ensures TotalCount(entries) == Sum(Before(entries).Keys, Counted(Before(entries)))
    decreases |entries|
  {
    hide KeyOf;
    hide Sum;
    if entries == [] {
      assert Before(entries).Keys == {};
      SumNothing(Counted(Before(entries)));
    } else {
      var rest, last := entries[..|entries| - 1], entries[|entries| - 1];
      TotalBefore(rest);
      BeforeHolds(rest, KeyOf(last));
      var fewer, all := Before(rest), Before(entries);
      assert KeyOf(last) !in fewer by {
        assert forall e :: e in rest ==> exists i :: 0 <= i < |rest| && entries[i] == e;
      }
      SumWithout(all.Keys, KeyOf(last), Counted(all));
      assert all.Keys - {KeyOf(last)} == fewer.Keys;
      SumSame(fewer.Keys, Counted(all), Counted(fewer));
    }
  }

  lemma {:induction false} TotalListed(entries: seq<Entry>, counts: map<Key, nat>)
    requires Listed(entries, counts, counts.Keys)
    ensures TotalCount(entries) == Sum(counts.Keys, Counted(counts))
    decreases |entries|
  {
    hide Sum;
    if entries == [] {
      assert forall key :: key in counts ==> EntryFor(key, counts[key]) in entries;
      assert counts.Keys == {};
      SumNothing(Counted(counts));
    } else {
      var rest, last := entries[..|entries| - 1], entries[|entries| - 1];
      var key := RawKey(last);
      var others := counts - {key};
      assert last in entries;
      forall e ensures e in rest <==> RawKey(e) in others.Keys && RawKey(e) in others && others[RawKey(e)] == e.count {
        assert entries == rest + [last];
        if e in rest {
          assert e in entries;
          var i :| 0 <= i < |rest| && rest[i] == e;
          assert entries[i] == e && RawKey(entries[i]) != RawKey(last);
        }
      }
      TotalListed(rest, others);
      SumWithout(counts.Keys, key, Counted(counts));
      assert others.Keys == counts.Keys - {key};
      SumSame(others.Keys, Counted(counts), Counted(others));
    }
  }

  lemma {:induction false} SumBalances(keys: set<Key>, a: map<Key, nat>, b: map<Key, nat>)
    ensures Sum(keys, Counted(a)) + Sum(keys, Excess(b, a)) == Sum(keys, Counted(b)) + Sum(keys, Excess(a, b))
  {
    if keys != {} {
      var key :| key in keys;
      SumWithout(keys, key, Counted(a));
      SumWithout(keys, key, Counted(b));
      SumWithout(keys, key, Excess(a, b));
      SumWithout(keys, key, Excess(b, a));
      SumBalances(keys - {key}, a, b);
    }
  }

  /** Keys that add nothing can be left out. */
  lemma {:induction false} SumSupport(keys: set<Key>, some: set<Key>, f: Key -> nat)
    requires some <= keys && forall key :: key in keys - some ==> f(key) == 0
    ensures Sum(keys, f) == Sum(some, f)
    decreases |keys - some|
  {
    if keys - some == {} {
      assert keys == some;
    } else {
      var key :| key in keys - some;
      SumWithout(keys, key, f);
      assert keys - {key} - some == keys - some - {key};
      SumSupport(keys - {key}, some, f);
    }
  }

  /** The findings a recorded baseline accepts are those of the old one, plus the added ones,
      less the removed ones. */
  lemma RecordConserves(b: Baseline, report: Report, configured: seq<Check>, written: Baseline, change: Change)
    requires DistinctKeys(b.entries) && IsRecorded(b, report, configured, written, change)
    ensures TotalCount(written.entries) + change.removed == TotalCount(b.entries) + change.added
  {
    hide CountOf;
    hide Sum;
    hide Lists;
    var counts, before := CountsOf(b, report, configured, written, change), Before(b.entries);
    ListsAreListed(written.entries, counts);
    TotalListed(written.entries, counts);
    TotalBefore(b.entries);
    var all := counts.Keys + before.Keys;
    SumBalances(all, counts, before);
    SumSupport(all, counts.Keys, Counted(counts));
    SumSupport(all, counts.Keys, Excess(counts, before));
    SumSupport(all, before.Keys, Counted(before));
    SumSupport(all, before.Keys, Excess(before, counts));
  }

  lemma ListsAreListed(entries: seq<Entry>, counts: map<Key, nat>)
    requires Lists(entries, counts)
    ensures Listed(entries, counts, counts.Keys)
  {
  }

  /** The counts a baseline was written from. */
  ghost function CountsOf(b: Baseline, report: Report, configured: seq<Check>, written: Baseline, change: Change): (counts: map<Key, nat>)
    requires IsRecorded(b, report, configured, written, change)
    ensures forall key :: Get(counts, key) == CountOf(b, report, configured, key)
    ensures Lists(written.entries, counts)
    ensures change == Change(Sum(counts.Keys, Excess(counts, Before(b.entries))),
                             Sum(Before(b.entries).Keys, Excess(Before(b.entries), counts)),
                             Unrecorded(report, |report.results|))
  {
    var counts: map<Key, nat> :|
      && (forall key :: Get(counts, key) == CountOf(b, report, configured, key))
      && written.path == b.path && written.lines == [] && Lists(written.entries, counts)
      && change == Change(Sum(counts.Keys, Excess(counts, Before(b.entries))),
                          Sum(Before(b.entries).Keys, Excess(Before(b.entries), counts)),
                          Unrecorded(report, |report.results|));
    counts
  }
}
