/**
  The timestamp argument behind the stat memo (internal/verify/statcache.go and fileEntry in
  fingerprint.go).
 */
module FileTimes {
  // Why an entry whose file was modified long enough before its content was read can stand for
  // rereading the file.  Times are nanoseconds on one clock.  A file is the history of its
  // versions; a write or a replacement stamps the version with a modification time no older than
  // the filesystem's timestamp granularity, and a change of mode keeps the modification time.

  /** What statOf reads: the identity an entry is validated against. */
  datatype FileStat = FileStat(size: nat, modified: int, inode: nat, mode: nat)

  /** What fileEntry produces, the digest being injective: the permissions and the content. */
  datatype Value = Value(mode: nat, content: seq<nat>)

  datatype Version = Version(at: int, modified: int, inode: nat, mode: nat, content: seq<nat>) {
    function Stat(): FileStat {
      FileStat(|content|, modified, inode, mode)
    }

    function Text(): Value {
      Value(mode, content)
    }
  }

  type History = seq<Version>

  /** git's racy-index allowance: two seconds. */
  const RACY_WINDOW: int := 2_000_000_000

  /** The version's modification time is its own clock stamp, at the filesystem's granularity. */
  predicate Stamped(v: Version, granularity: int) {
    v.at - granularity < v.modified <= v.at
  }

  /** Versions in order of time, each stamped or only a change of mode. */
  ghost predicate Lawful(h: History, granularity: int) {
    && |h| > 0 && granularity <= RACY_WINDOW
    && (forall i :: 0 < i < |h| ==> h[i - 1].at < h[i].at)
    && (forall i :: 0 < i < |h| ==>
          Stamped(h[i], granularity)
          || (h[i].modified == h[i - 1].modified && h[i].content == h[i - 1].content && h[i].inode == h[i - 1].inode))
  }

  /** The version a file has at a time, once it exists. */
  function IndexAt(h: History, time: int): (i: nat)
    requires |h| > 0 && h[0].at <= time
    ensures i < |h| && h[i].at <= time
  {
    if h[|h| - 1].at <= time then |h| - 1 else IndexAt(h[..|h| - 1], time)
  }

  function At(h: History, time: int): Version
    requires |h| > 0 && h[0].at <= time
  {
    h[IndexAt(h, time)]
  }

  lemma {:induction false} IndexIsLast(h: History, time: int, j: nat)
    requires |h| > 0 && h[0].at <= time && j < |h|
    requires forall i :: 0 < i < |h| ==> h[i - 1].at < h[i].at
    ensures h[j].at <= time <==> j <= IndexAt(h, time)
  {
    if h[|h| - 1].at <= time {
      Ordered(h, j, |h| - 1);
    } else if j < |h| - 1 {
      IndexIsLast(h[..|h| - 1], time, j);
    }
  }

  lemma {:induction false} Ordered(h: History, i: nat, j: nat)
    requires i <= j < |h|
    requires forall k :: 0 < k < |h| ==> h[k - 1].at < h[k].at
    ensures h[i].at <= h[j].at
    decreases j - i
  {
    if i < j {
      Ordered(h, i, j - 1);
    }
  }

  // ---- Entries ----

  datatype Entry = Entry(stat: FileStat, value: Value, hashedAt: int) {
    /** The content was read long enough after the last modification that a later write in
        the same timestamp tick is impossible. */
    predicate Settled() {
      stat.modified < hashedAt - RACY_WINDOW
    }
  }

  /** No write changes the file's content after `from`, up to `until`. */
  ghost predicate Quiet(h: History, from: int, until: int)
    requires |h| > 0 && h[0].at <= from
  {
    forall i :: 0 <= i < |h| && from < h[i].at <= until ==> h[i].content == At(h, from).content
  }

  /** A read of the file from one time to another returned `content`.  Only a file whose
      content does not change meanwhile is sure to read as itself; otherwise the bytes may be
      any mixture. */
  ghost predicate ReadsAs(h: History, from: int, until: int, content: seq<nat>)
    requires |h| > 0 && h[0].at <= from
  {
    Quiet(h, from, until) ==> content == At(h, from).content
  }

  /** fileEntry made the entry: an Lstat at `seen`, the clock read at hashedAt, and the bytes
      read from then until `until`, with anything written in between. */
  ghost predicate MadeAt(h: History, e: Entry, seen: int, until: int) {
    && |h| > 0 && h[0].at <= seen <= e.hashedAt <= until
    && e.stat == At(h, seen).Stat()
    && e.value.mode == e.stat.mode
    && ReadsAs(h, e.hashedAt, until, e.value.content)
  }

  /** The entry was made by some fileEntry that had finished by `now`. */
  ghost predicate Genuine(h: History, e: Entry, now: int) {
    exists seen, until :: MadeAt(h, e, seen, until) && until <= now
  }

  /** The entry was made by a fileEntry whose read no write tore. */
  ghost predicate WholeRead(h: History, e: Entry, now: int) {
    exists seen, until :: MadeAt(h, e, seen, until) && until <= now && Quiet(h, e.hashedAt, until)
  }

  // ---- Why a settled entry can be believed ----

  /** A version stamped after `time`, or a later one, is never modified long before `time`. */
  lemma {:induction false} LateStampsAreLate(h: History, granularity: int, time: int, i: nat, k: nat)
    requires Lawful(h, granularity) && 0 < i <= k < |h|
    requires time < h[i].at && Stamped(h[i], granularity)
    ensures h[k].modified >= time - RACY_WINDOW
    decreases k - i
  {
    if k > i {
      LateStampsAreLate(h, granularity, time, i, k - 1);
      Ordered(h, i, k);
    }
  }

  /** A file last modified long before `time` has not changed content since `time`. */
  lemma {:induction false} NotWrittenSince(h: History, granularity: int, time: int, i: nat, k: nat)
    requires Lawful(h, granularity) && h[0].at <= time
    requires IndexAt(h, time) <= i <= k < |h|
    requires h[k].modified < time - RACY_WINDOW
    ensures h[i].content == At(h, time).content
    decreases i
  {
    if i > IndexAt(h, time) {
      IndexIsLast(h, time, i);
      if Stamped(h[i], granularity) {
        LateStampsAreLate(h, granularity, time, i, k);
      } else {
        NotWrittenSince(h, granularity, time, i - 1, k);
      }
    }
  }

  /** A file that still has a settled entry's stat has not been written since hashedAt. */
  lemma SettledIsQuiet(h: History, granularity: int, e: Entry, time: int)
    requires Lawful(h, granularity) && e.Settled() && h[0].at <= e.hashedAt
    requires h[0].at <= time && At(h, time).Stat() == e.stat
    ensures Quiet(h, e.hashedAt, time)
    ensures e.hashedAt <= time ==> At(h, time).content == At(h, e.hashedAt).content
  {
    var k := IndexAt(h, time);
    forall i | 0 <= i < |h| && e.hashedAt < h[i].at <= time ensures h[i].content == At(h, e.hashedAt).content {
      IndexIsLast(h, e.hashedAt, i);
      IndexIsLast(h, time, i);
      NotWrittenSince(h, granularity, e.hashedAt, i, k);
    }
    if e.hashedAt <= time {
      IndexIsLast(h, time, IndexAt(h, e.hashedAt));
      NotWrittenSince(h, granularity, e.hashedAt, k, k);
    }
  }

  /** The heart of the memo.  Whatever was written between the stat, hashedAt and the read,
      and whatever mode changes came later: while the file's stat is still the settled
      entry's, the entry's value is what reading the file at `now` gives. */
  lemma SettledEntryIsRight(h: History, granularity: int, e: Entry, now: int)
    requires Lawful(h, granularity) && Genuine(h, e, now) && e.Settled()
    requires h[0].at <= now && At(h, now).Stat() == e.stat
    ensures e.value == At(h, now).Text()
  {
    var seen, until :| MadeAt(h, e, seen, until) && until <= now;
    SettledIsQuiet(h, granularity, e, now);
    assert Quiet(h, e.hashedAt, until);
  }

  /** Why racy entries are dropped: within the window a second write in the same tick leaves
      the stat unchanged, and an entry made before it is wrong. */
  lemma RacyEntryCanBeWrong() returns (h: History, e: Entry, now: int)
    ensures Lawful(h, RACY_WINDOW) && Genuine(h, e, now) && !e.Settled()
    ensures h[0].at <= now && At(h, now).Stat() == e.stat
    ensures e.value != At(h, now).Text()
  {
    var before, after := Version(0, 0, 7, 6, [1]), Version(5, 0, 7, 6, [2]);
    h, now := [before, after], 10;
    e := Entry(before.Stat(), before.Text(), 0);
    assert h[..1] == [before];
    assert At(h, 0) == before && At(h, 10) == after;
    assert MadeAt(h, e, 0, 0);
  }

  // ---- When the stat is no longer the file's ----

  /** The file now has the permissions it had at the stat and the content it had at hashedAt. */
  predicate SameAgain(h: History, hashedAt: int, taken: int, now: int)
    requires |h| > 0 && h[0].at <= hashedAt && h[0].at <= taken && h[0].at <= now
  {
    At(h, now).mode == At(h, taken).mode && At(h, now).content == At(h, hashedAt).content
  }

  /** What an entry says at any later time, for a read no write tore: the content at hashedAt
      with the permissions of the caller's stat. */
  lemma WholeReadIsHashedAt(h: History, e: Entry, taken: int, now: int)
    requires WholeRead(h, e, now) && h[0].at <= taken <= now && At(h, taken).Stat() == e.stat
    ensures e.value == At(h, now).Text() <==> SameAgain(h, e.hashedAt, taken, now)
    ensures e.value == At(h, taken).Text() <==> At(h, taken).content == At(h, e.hashedAt).content
  {
    var seen, until :| MadeAt(h, e, seen, until) && until <= now && Quiet(h, e.hashedAt, until);
    assert e.value == Value(At(h, taken).mode, At(h, e.hashedAt).content);
  }

  /** A write that tore a settled entry's read took the entry's stat from the file for good:
      only a stat taken before that write can still be answered with it. */
  lemma TornReadIsOutdated(h: History, granularity: int, e: Entry, until: int) returns (i: nat)
    requires Lawful(h, granularity) && e.Settled() && h[0].at <= e.hashedAt && !Quiet(h, e.hashedAt, until)
    ensures i < |h| && e.hashedAt < h[i].at <= until && h[i].content != At(h, e.hashedAt).content
    ensures forall time :: h[0].at <= time && h[i].at <= time ==> At(h, time).Stat() != e.stat
  {
    i :| 0 <= i < |h| && e.hashedAt < h[i].at <= until && h[i].content != At(h, e.hashedAt).content;
    forall time | h[0].at <= time && h[i].at <= time ensures At(h, time).Stat() != e.stat {
      if At(h, time).Stat() == e.stat {
        SettledIsQuiet(h, granularity, e, time);
      }
    }
  }

  /** What fileEntry stores, reading from hashedAt until `until`, is what rereading gives at
      `now` whatever bytes a torn read returns. */
  ghost predicate Sure(h: History, seen: int, hashedAt: int, until: int, now: int)
    requires |h| > 0 && h[0].at <= now
  {
    forall e: Entry :: e.hashedAt == hashedAt && MadeAt(h, e, seen, until) ==> e.value == At(h, now).Text()
  }

  lemma SureExactlyWhen(h: History, seen: int, hashedAt: int, until: int, now: int)
    requires |h| > 0 && h[0].at <= seen <= hashedAt <= until <= now
    ensures Sure(h, seen, hashedAt, until, now) <==> Quiet(h, hashedAt, until) && SameAgain(h, hashedAt, seen, now)
  {
    var stat := At(h, seen).Stat();
    var other := At(h, now).content + [0];
    assert other != At(h, now).content;
    var content := if Quiet(h, hashedAt, until) then At(h, hashedAt).content else other;
    assert MadeAt(h, Entry(stat, Value(stat.mode, content), hashedAt), seen, until);
  }

  /** Why the stat must still be the file's: a write between the caller's Lstat and now is
      invisible to a settled entry that matches that Lstat. */
  lemma StaleStatCanBeWrong() returns (h: History, e: Entry, taken: int, now: int)
    ensures Lawful(h, RACY_WINDOW) && Genuine(h, e, taken) && e.Settled()
    ensures h[0].at <= taken <= now && At(h, taken).Stat() == e.stat
    ensures e.value != At(h, now).Text()
  {
    var before, after := Version(0, 0, 7, 6, [1]), Version(9_000_000_000, 9_000_000_000, 7, 6, [2]);
    h, taken, now := [before, after], 6_000_000_000, 10_000_000_000;
    e := Entry(before.Stat(), before.Text(), 5_000_000_000);
    assert h[..1] == [before];
    assert At(h, taken) == before && At(h, e.hashedAt) == before && At(h, now) == after;
    assert MadeAt(h, e, taken - 2_000_000_000, taken);
  }
}
