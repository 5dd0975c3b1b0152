/** The stat memo (internal/verify/statcache.go) over whole runs. */
module StatRuns {
  // Sessions that share one cache directory come, go and are killed, files are written at any
  // moment, and shards are read and written in any interleaving.  Every answer to a stat the file
  // still has is what rereading gives.

  import opened Options
  import opened FileTimes
  import opened StatMemo

  /** What a session is doing while it holds the memo's mutex. */
  datatype Doing =
    | Idle
    | Loading(root: Root, next: nat, count: nat)                        // prepare, at shard `next`
    | Writing(root: Root, kept: map<Name, Entry>, count: nat, left: nat) // write, downwards
    | Removing(root: Root, count: nat)                                  // write, its leftovers

  datatype Session = Session(entries: map<Key, Entry>, roots: set<Root>, doing: Doing)

  datatype World = World(now: int, files: map<Key, History>, sessions: map<nat, Session>, disk: Disk)

  datatype Event =
    | Wait(until: int)
    | Change(key: Key, version: Version)                                  // a write, a replacement or a chmod
    | Open(id: nat)
    | Kill(id: nat)                                                       // at any moment, or at its end
    | Hash(id: nat, key: Key, seen: int, hashedAt: int, read: int, content: seq<nat>) // fileEntry stores what it read
    | Prepare(id: nat, root: Root, readable: bool)                        // its first shard
    | Load(id: nat, readable: bool)
    | Flush(id: nat, root: Root, looked: set<Key>, same: set<Key>, count: nat)
    | Write(id: nat, fails: bool)
    | Remove(id: nat, shard: Option<nat>)

  /** Every file exists from the start and obeys the clock. */
  ghost predicate Lawfully(w: World, granularity: int) {
    forall key :: key in w.files ==> Lawful(w.files[key], granularity) && w.files[key][|w.files[key]| - 1].at <= w.now
  }

  function From(root: Root, next: nat, count: nat): Doing {
    if next < count then Loading(root, next, count) else Idle
  }

  /** load: the settled entries of one shard, when it can be read. */
  function WithShard(entries: map<Key, Entry>, disk: Disk, root: Root, i: nat, readable: bool): map<Key, Entry> {
    if readable && (root, i) in disk then entries + Keyed(root, SettledOnly(disk[(root, i)].entries)) else entries
  }

  function Prepared(s: Session, disk: Disk, root: Root, readable: bool): Session {
    Session(WithShard(s.entries, disk, root, 0, readable), s.roots + {root},
            if readable && (root, 0) in disk then From(root, 1, disk[(root, 0)].shards) else Idle)
  }

  /** What fileEntry stores. */
  function Hashed(h: History, seen: int, hashedAt: int, content: seq<nat>): Entry
    requires |h| > 0 && h[0].at <= seen
  {
    var stat := At(h, seen).Stat();
    Entry(stat, Value(stat.mode, content), hashedAt)
  }

  /** A step of the world around the sessions. */
  ghost predicate Moves(w: World, t: World, e: Event, granularity: int) {
    match e
    case Wait(until) => until >= w.now && t == w.(now := until)
    case Change(key, v) =>
      && key in w.files && v.at > w.now && Lawful(w.files[key] + [v], granularity)
      && t == w.(now := v.at, files := w.files[key := w.files[key] + [v]])
    case Open(id) => id !in w.sessions && t == w.(sessions := w.sessions[id := Session(map[], {}, Idle)])
    case Kill(id) => t == w.(sessions := w.sessions - {id})
    case _ => false
  }

  /** A step of the session, from s to r, and of the shards on disk. */
  ghost predicate Acts(w: World, s: Session, r: Session, disk: Disk, e: Event) {
    match e
    case Hash(_, key, seen, hashedAt, read, content) =>
      && s.doing.Idle? && disk == w.disk
      && key in w.files && |w.files[key]| > 0 && w.files[key][0].at <= seen <= hashedAt <= read <= w.now
      && ReadsAs(w.files[key], hashedAt, read, content)
      && r == s.(entries := s.entries[key := Hashed(w.files[key], seen, hashedAt, content)])
    case Prepare(_, root, readable) =>
      s.doing.Idle? && root !in s.roots && disk == w.disk && r == Prepared(s, w.disk, root, readable)
    case Load(_, readable) =>
      && s.doing.Loading? && disk == w.disk
      && r == s.(entries := WithShard(s.entries, w.disk, s.doing.root, s.doing.next, readable),
                 doing := From(s.doing.root, s.doing.next + 1, s.doing.count))
    case Flush(_, root, looked, same, count) =>
      && s.doing.Idle? && root in s.roots && count > 0 && disk == w.disk
      && r == s.(doing := Writing(root, ToFlush(s.entries, looked, same, root), count, count))
    case Write(_, fails) =>
      && s.doing.Writing? && 0 < s.doing.left <= s.doing.count
      && disk == (if fails then w.disk else Put(w.disk, s.doing))
      && r == s.(doing := if s.doing.left > 1 then s.doing.(left := s.doing.left - 1) else Removing(s.doing.root, s.doing.count))
    case Remove(_, shard) =>
      && s.doing.Removing?
      && (shard.Some? ==> shard.value >= s.doing.count)
      && disk == (if shard.Some? then w.disk - {(s.doing.root, shard.value)} else w.disk)
      && r == (if shard.Some? then s else s.(doing := Idle))
    case _ => false
  }

  function Put(disk: Disk, d: Doing): Disk
    requires d.Writing? && 0 < d.left <= d.count
  {
    disk[(d.root, d.left - 1) := ShardRecord(d.kept, d.left - 1, d.count)]
  }

  ghost predicate SessionActs(w: World, t: World, e: Event, id: nat) {
    && id in w.sessions && id in t.sessions && Acts(w, w.sessions[id], t.sessions[id], t.disk, e)
    && t == w.(sessions := w.sessions[id := t.sessions[id]], disk := t.disk)
  }

  ghost predicate Step(w: World, t: World, e: Event, granularity: int) {
    if e.Wait? || e.Change? || e.Open? || e.Kill? then Moves(w, t, e, granularity) else SessionActs(w, t, e, e.id)
  }

  // ---- What every run keeps ----

  ghost predicate Trusted(w: World, key: Key, e: Entry) {
    key in w.files && |w.files[key]| > 0 && Genuine(w.files[key], e, w.now)
  }

  ghost predicate SessionTrusted(w: World, s: Session) {
    && (forall key :: key in s.entries ==> Trusted(w, key, s.entries[key]))
    && (s.doing.Writing? ==> forall name :: name in s.doing.kept ==> Trusted(w, Key(s.doing.root, name), s.doing.kept[name]))
  }

  ghost predicate DiskTrusted(w: World, disk: Disk) {
    forall root, name, e :: OnDisk(disk, root, name, e) ==> Trusted(w, Key(root, name), e)
  }

  /** Every entry in any session's memory or its flush, and every entry in any shard on disk,
      came from a real read. */
  ghost predicate Inv(w: World, granularity: int) {
    && Lawfully(w, granularity)
    && (forall id :: id in w.sessions ==> SessionTrusted(w, w.sessions[id]))
    && DiskTrusted(w, w.disk)
  }

  // ---- Step by step as the memo itself ----

  /** With no other session between, each shard's step leaves what StatStore.Write has left by then. */
  lemma WriteFollowsStore(w: World, s: Session, r: Session, disk: Disk, id: nat, before: Disk, fails: set<nat>)
    requires s.doing.Writing? && s.doing.left > 0 && Acts(w, s, r, disk, Write(id, s.doing.left - 1 in fails))
    requires w.disk == WrittenDownTo(before, s.doing.root, s.doing.kept, s.doing.count, fails, s.doing.left)
    ensures disk == WrittenDownTo(before, s.doing.root, s.doing.kept, s.doing.count, fails, s.doing.left - 1)
  {
  }

  /** And each load leaves what StatStore.Prepare has loaded by then. */
  lemma LoadFollowsStore(w: World, s: Session, r: Session, id: nat, before: map<Key, Entry>)
    requires s.doing.Loading? && Acts(w, s, r, w.disk, Load(id, true))
    requires s.entries == before + Keyed(s.doing.root, LoadedUpTo(w.disk, s.doing.root, s.doing.next))
    ensures r.entries == before + Keyed(s.doing.root, LoadedUpTo(w.disk, s.doing.root, s.doing.next + 1))
    ensures r.doing.Idle? <==> s.doing.next + 1 >= s.doing.count
  {
    LoadOneMore(w.disk, s.doing.root, s.doing.next, before);
  }

  // ---- Time and later writes do not undo what was read ----

  lemma {:induction false} AtBefore(h: History, v: Version, time: int)
    requires |h| > 0 && h[0].at <= time < v.at
    ensures At(h + [v], time) == At(h, time)
  {
    assert (h + [v])[..|h|] == h;
  }

  lemma QuietBefore(h: History, v: Version, from: int, until: int)
    requires |h| > 0 && h[0].at <= from <= until < v.at
    ensures Quiet(h + [v], from, until) <==> Quiet(h, from, until)
  {
    AtBefore(h, v, from);
    assert forall i :: 0 <= i < |h| ==> (h + [v])[i] == h[i];
  }

  lemma GenuineLasts(h: History, v: Version, e: Entry, now: int)
    requires |h| > 0 && Genuine(h, e, now) && now < v.at
    ensures Genuine(h + [v], e, v.at)
  {
    var seen, until :| MadeAt(h, e, seen, until) && until <= now;
    AtBefore(h, v, seen);
    AtBefore(h, v, e.hashedAt);
    QuietBefore(h, v, e.hashedAt, until);
    assert MadeAt(h + [v], e, seen, until);
  }

  lemma GenuineLater(h: History, e: Entry, now: int, later: int)
    requires Genuine(h, e, now) && now <= later
    ensures Genuine(h, e, later)
  {
  }

  lemma TrustLasts(w: World, t: World, granularity: int, event: Event, key: Key, e: Entry)
    requires Step(w, t, event, granularity) && Trusted(w, key, e)
    ensures Trusted(t, key, e)
  {
    hide Genuine;
    hide Acts;
    hide Lawful;
    if event.Change? && event.key == key {
      GenuineLasts(w.files[key], event.version, e, w.now);
    } else {
      GenuineLater(w.files[key], e, w.now, t.now);
    }
  }

  lemma StaysLawful(w: World, t: World, granularity: int, event: Event)
    requires Lawfully(w, granularity) && Step(w, t, event, granularity)
    ensures Lawfully(t, granularity)
  {
    hide Acts;
  }

  lemma LoadKeepsTrust(w: World, entries: map<Key, Entry>, root: Root, i: nat, readable: bool, key: Key)
    requires DiskTrusted(w, w.disk) && key in WithShard(entries, w.disk, root, i, readable)
    requires key in entries ==> Trusted(w, key, entries[key])
    ensures Trusted(w, key, WithShard(entries, w.disk, root, i, readable)[key])
  {
    hide Trusted;
    if readable && (root, i) in w.disk && key in Keyed(root, SettledOnly(w.disk[(root, i)].entries)) {
      assert OnDisk(w.disk, root, key.name, w.disk[(root, i)].entries[key.name]);
    }
  }

  lemma ActsKeepTrust(w: World, s: Session, r: Session, disk: Disk, event: Event)
    requires SessionTrusted(w, s) && DiskTrusted(w, w.disk) && Acts(w, s, r, disk, event)
    ensures SessionTrusted(w, r)
  {
    hide DiskTrusted;
    forall key | key in r.entries ensures Trusted(w, key, r.entries[key]) {
      if event.Hash? && event.key == key {
        assert MadeAt(w.files[key], r.entries[key], event.seen, event.read);
      } else if event.Prepare? {
        LoadKeepsTrust(w, s.entries, event.root, 0, event.readable, key);
      } else if event.Load? {
        LoadKeepsTrust(w, s.entries, s.doing.root, s.doing.next, event.readable, key);
      }
    }
  }

  lemma ActsKeepDisk(w: World, s: Session, r: Session, disk: Disk, event: Event)
    requires SessionTrusted(w, s) && DiskTrusted(w, w.disk) && Acts(w, s, r, disk, event)
    ensures DiskTrusted(w, disk)
  {
    hide Trusted;
    hide ReadsAs;
    forall root: Root, name, e | OnDisk(disk, root, name, e) ensures Trusted(w, Key(root, name), e) {
      var i :| (root, i) in disk && name in disk[(root, i)].entries && disk[(root, i)].entries[name] == e;
      if disk != w.disk && event.Write? && (root, i) == (s.doing.root, s.doing.left - 1) {
        assert name in s.doing.kept && s.doing.kept[name] == e;
      } else {
        assert OnDisk(w.disk, root, name, e);
      }
    }
  }

  lemma SessionStaysTrusted(w: World, t: World, granularity: int, event: Event, s: Session)
    requires Step(w, t, event, granularity) && SessionTrusted(w, s)
    ensures SessionTrusted(t, s)
  {
    hide Step;
    hide Trusted;
    forall key | key in s.entries ensures Trusted(t, key, s.entries[key]) {
      TrustLasts(w, t, granularity, event, key, s.entries[key]);
    }
    if s.doing.Writing? {
      forall name | name in s.doing.kept ensures Trusted(t, Key(s.doing.root, name), s.doing.kept[name]) {
        TrustLasts(w, t, granularity, event, Key(s.doing.root, name), s.doing.kept[name]);
      }
    }
  }

  lemma DiskStaysTrusted(w: World, t: World, granularity: int, event: Event, disk: Disk)
    requires Step(w, t, event, granularity) && DiskTrusted(w, disk)
    ensures DiskTrusted(t, disk)
  {
    hide Step;
    hide Trusted;
    hide OnDisk;
    forall root: Root, name, e | OnDisk(disk, root, name, e) ensures Trusted(t, Key(root, name), e) {
      TrustLasts(w, t, granularity, event, Key(root, name), e);
    }
  }

  /** What a step changes is trusted in the world it left, and what is trusted stays so. */
  lemma DiskIsKept(w: World, t: World, granularity: int, event: Event)
    requires Inv(w, granularity) && Step(w, t, event, granularity)
    ensures DiskTrusted(t, t.disk)
  {
    hide SessionTrusted;
    hide DiskTrusted;
    hide Lawfully;
    hide Lawful;
    hide Acts;
    if !(event.Wait? || event.Change? || event.Open? || event.Kill?) {
      ActsKeepDisk(w, w.sessions[event.id], t.sessions[event.id], t.disk, event);
    }
    DiskStaysTrusted(w, t, granularity, event, t.disk);
  }

  lemma SessionIsKept(w: World, t: World, granularity: int, event: Event, id: nat)
    requires Inv(w, granularity) && Step(w, t, event, granularity) && id in t.sessions
    ensures SessionTrusted(t, t.sessions[id])
  {
    hide DiskTrusted;
    hide Lawfully;
    hide Lawful;
    hide Acts;
    hide Trusted;
    if !(event.Wait? || event.Change? || event.Open? || event.Kill?) && event.id == id {
      ActsKeepTrust(w, w.sessions[id], t.sessions[id], t.disk, event);
    }
    SessionStaysTrusted(w, t, granularity, event, t.sessions[id]);
  }

  lemma KeepsInv(w: World, t: World, granularity: int, event: Event)
    requires Inv(w, granularity) && Step(w, t, event, granularity)
    ensures Inv(t, granularity)
  {
    hide SessionTrusted;
    hide DiskTrusted;
    hide Lawfully;
    hide Acts;
    StaysLawful(w, t, granularity, event);
    DiskIsKept(w, t, granularity, event);
    forall id | id in t.sessions ensures SessionTrusted(t, t.sessions[id]) {
      SessionIsKept(w, t, granularity, event, id);
    }
  }

  ghost predicate AnyStep(w: World, t: World, granularity: int) {
    exists e :: Step(w, t, e, granularity)
  }

  /** Any run starting from lawful files, no session and an empty cache directory. */
  ghost predicate IsRun(run: seq<World>, granularity: int) {
    && |run| > 0 && Lawfully(run[0], granularity) && run[0].sessions == map[] && run[0].disk == map[]
    && forall n :: 0 < n < |run| ==> AnyStep(run[n - 1], run[n], granularity)
  }

  lemma {:induction false} RunsKeepInv(run: seq<World>, granularity: int, n: nat)
    requires IsRun(run, granularity) && n < |run|
    ensures Inv(run[n], granularity)
  {
    if n > 0 {
      RunsKeepInv(run, granularity, n - 1);
      assert AnyStep(run[n - 1], run[n], granularity);
      var e :| Step(run[n - 1], run[n], e, granularity);
      KeepsInv(run[n - 1], run[n], granularity, e);
    }
  }

  // ---- What a lookup answers ----

  /** In a state of a run, some session's memo answers a stat the file had at `taken`. */
  ghost predicate Answers(run: seq<World>, granularity: int, n: nat, id: nat, key: Key, taken: int) {
    && IsRun(run, granularity) && n < |run| && id in run[n].sessions
    && key in run[n].files && |run[n].files[key]| > 0 && run[n].files[key][0].at <= taken <= run[n].now
    && Answer(run[n].sessions[id].entries, key, At(run[n].files[key], taken).Stat()).Some?
  }

  lemma AnswersAreGenuine(run: seq<World>, granularity: int, n: nat, id: nat, key: Key, taken: int)
    requires Answers(run, granularity, n, id, key, taken)
    ensures Lawful(run[n].files[key], granularity) && Genuine(run[n].files[key], run[n].sessions[id].entries[key], run[n].now)
  {
    hide Lawful;
    RunsKeepInv(run, granularity, n);
    assert Trusted(run[n], key, run[n].sessions[id].entries[key]);
  }

  /** Whatever has been written, flushed, killed or loaded before, by whichever sessions: an
      answer to a stat the file still has is exactly what rereading the file now would
      compute. */
  lemma AnswersAreRereads(run: seq<World>, granularity: int, n: nat, id: nat, key: Key, taken: int)
    requires Answers(run, granularity, n, id, key, taken)
    requires At(run[n].files[key], taken).Stat() == At(run[n].files[key], run[n].now).Stat()
    ensures run[n].sessions[id].entries[key].value == At(run[n].files[key], run[n].now).Text()
  {
    hide Lawful;
    AnswersAreGenuine(run, granularity, n, id, key, taken);
    SettledEntryIsRight(run[n].files[key], granularity, run[n].sessions[id].entries[key], run[n].now);
  }

  /** Once the file may have changed since the caller's stat.  An answer from a read no write
      tore is what rereading gives exactly when the file has its permissions again and the
      content it had at hashedAt; and is the file as it was at the stat exactly when it had
      that content then, as it did if the stat is not older than hashedAt.  An answer from a
      torn read comes only when the write that tore it is younger than the stat, and has
      taken that stat from the file for good. */
  lemma AnswersAreRereadsExactlyWhen(run: seq<World>, granularity: int, n: nat, id: nat, key: Key, taken: int)
    requires Answers(run, granularity, n, id, key, taken)
    ensures Explained(run[n].files[key], run[n].sessions[id].entries[key], taken, run[n].now)
  {
    hide IsRun;
    hide Lawful;
    hide Genuine;
    hide Explained;
    AnswersAreGenuine(run, granularity, n, id, key, taken);
    AnswerIsSettled(run, granularity, n, id, key, taken);
    EntriesAreExplained(run[n].files[key], granularity, run[n].sessions[id].entries[key], taken, run[n].now);
  }

  lemma AnswerIsSettled(run: seq<World>, granularity: int, n: nat, id: nat, key: Key, taken: int)
    requires Answers(run, granularity, n, id, key, taken)
    ensures |run[n].files[key]| > 0 && run[n].files[key][0].at <= taken <= run[n].now
    ensures run[n].sessions[id].entries[key].Settled()
    ensures run[n].sessions[id].entries[key].stat == At(run[n].files[key], taken).Stat()
  {
    hide IsRun;
  }

  ghost predicate Explained(h: History, e: Entry, taken: int, now: int) {
    && |h| > 0 && h[0].at <= taken <= now && h[0].at <= e.hashedAt
    && (if WholeRead(h, e, now) then WholeAnswer(h, e, taken, now) else exists i: nat :: TornAt(h, e, taken, now, i))
  }

  ghost predicate WholeAnswer(h: History, e: Entry, taken: int, now: int)
    requires |h| > 0 && h[0].at <= taken <= now && h[0].at <= e.hashedAt
  {
    && (e.value == At(h, now).Text() <==> SameAgain(h, e.hashedAt, taken, now))
    && (e.value == At(h, taken).Text() <==> At(h, taken).content == At(h, e.hashedAt).content)
    && (e.hashedAt <= taken ==> At(h, taken).content == At(h, e.hashedAt).content)
  }

  /** Version i was written during the entry's read, after the caller's stat. */
  ghost predicate TornAt(h: History, e: Entry, taken: int, now: int, i: nat)
    requires |h| > 0 && h[0].at <= e.hashedAt
  {
    && i < |h| && e.hashedAt < h[i].at <= now && taken < h[i].at && h[i].content != At(h, e.hashedAt).content
    && forall time :: h[0].at <= time && h[i].at <= time ==> At(h, time).Stat() != e.stat
  }

  lemma EntriesAreExplained(h: History, granularity: int, e: Entry, taken: int, now: int)
    requires Lawful(h, granularity) && Genuine(h, e, now) && e.Settled()
    requires h[0].at <= taken <= now && At(h, taken).Stat() == e.stat
    ensures Explained(h, e, taken, now)
  {
    hide Lawful;
    hide Quiet;
    var seen, until :| MadeAt(h, e, seen, until) && until <= now;
    if WholeRead(h, e, now) {
      WholeReadIsHashedAt(h, e, taken, now);
      SettledIsQuiet(h, granularity, e, taken);
    } else {
      var i := TornReadIsOutdated(h, granularity, e, until);
      assert TornAt(h, e, taken, now, i);
    }
  }

  /** An answer from an entry that was made before the caller's stat, torn or not, is the file
      as it was at that stat. */
  lemma AnswersAreTheStatsOwn(run: seq<World>, granularity: int, n: nat, id: nat, key: Key, taken: int)
    requires Answers(run, granularity, n, id, key, taken)
    requires Genuine(run[n].files[key], run[n].sessions[id].entries[key], taken)
    ensures run[n].sessions[id].entries[key].value == At(run[n].files[key], taken).Text()
  {
    hide Lawful;
    AnswersAreGenuine(run, granularity, n, id, key, taken);
    SettledEntryIsRight(run[n].files[key], granularity, run[n].sessions[id].entries[key], taken);
  }

  // ---- Every read a file's history allows is some run's ----

  /** The run ends at `now` with this history of the one file and a session holding the entry. */
  ghost predicate EndsWith(run: seq<World>, granularity: int, h: History, key: Key, id: nat, e: Entry, now: int) {
    && IsRun(run, granularity) && |run| > 0
    && var w := run[|run| - 1];
       w.files == map[key := h] && w.now == now && id in w.sessions && key in w.sessions[id].entries && w.sessions[id].entries[key] == e
  }

  function Grown(h: History, key: Key, i: nat): World
    requires i < |h|
  {
    World(h[i].at, map[key := h[..i + 1]], map[], map[])
  }

  lemma GrownSteps(h: History, granularity: int, key: Key, i: nat)
    requires Lawful(h, granularity) && i + 1 < |h|
    ensures AnyStep(Grown(h, key, i), Grown(h, key, i + 1), granularity)
  {
    assert h[..i + 1] + [h[i + 1]] == h[..i + 2];
    assert Step(Grown(h, key, i), Grown(h, key, i + 1), Change(key, h[i + 1]), granularity);
  }

  lemma Extended(run: seq<World>, granularity: int, e: Event, t: World)
    requires IsRun(run, granularity) && |run| > 0 && Step(run[|run| - 1], t, e, granularity)
    ensures IsRun(run + [t], granularity)
  {
    hide Step;
    hide Lawfully;
  }

  /** The history, written from the start. */
  lemma HistoryIsWritten(h: History, granularity: int, key: Key) returns (run: seq<World>)
    requires Lawful(h, granularity)
    ensures IsRun(run, granularity) && |run| > 0 && run[|run| - 1] == World(h[|h| - 1].at, map[key := h], map[], map[])
  {
    run := seq(|h|, i requires 0 <= i < |h| => Grown(h, key, i));
    forall n | 0 < n < |run| ensures AnyStep(run[n - 1], run[n], granularity) {
      GrownSteps(h, granularity, key, n - 1);
    }
    assert h[..|h|] == h;
  }

  /** Write the history, wait, open a session and let it hash the file. */
  lemma EveryEntryArises(h: History, granularity: int, key: Key, id: nat, e: Entry, now: int) returns (run: seq<World>)
    requires Lawful(h, granularity) && h[|h| - 1].at <= now && Genuine(h, e, now)
    ensures EndsWith(run, granularity, h, key, id, e, now)
  {
    hide IsRun;
    hide Lawful;
    hide ReadsAs;
    var written := HistoryIsWritten(h, granularity, key);
    var waited := World(now, map[key := h], map[], map[]);
    Extended(written, granularity, Wait(now), waited);
    var begun := waited.(sessions := map[id := Session(map[], {}, Idle)]);
    Extended(written + [waited], granularity, Open(id), begun);
    var seen, until :| MadeAt(h, e, seen, until) && until <= now;
    var hashed := waited.(sessions := map[id := Session(map[key := e], {}, Idle)]);
    var event := Hash(id, key, seen, e.hashedAt, until, e.value.content);
    assert Acts(begun, begun.sessions[id], hashed.sessions[id], map[], event);
    Extended(written + [waited] + [begun], granularity, event, hashed);
    run := written + [waited] + [begun] + [hashed];
  }

  /** Some run's session answers a stat taken at `taken` from this read with what rereading
      would not give. */
  ghost predicate WrongAnswerArises(h: History, granularity: int, key: Key, seen: int, hashedAt: int, until: int, taken: int, now: int)
    requires |h| > 0 && h[0].at <= now
  {
    exists run, id: nat, e: Entry ::
      && EndsWith(run, granularity, h, key, id, e, now) && Answers(run, granularity, |run| - 1, id, key, taken)
      && e.hashedAt == hashedAt && MadeAt(h, e, seen, until) && e.value != At(h, now).Text()
  }

  /** For every history, read and stat it answers: wrong answers arise exactly when a write
      tears the read, or the file has other permissions now than at the stat, or other content
      than at hashedAt. */
  lemma WrongAnswersExactlyWhen(h: History, granularity: int, key: Key, seen: int, hashedAt: int, until: int, taken: int, now: int)
    requires Lawful(h, granularity) && h[|h| - 1].at <= now
    requires h[0].at <= seen <= hashedAt <= until <= now && h[0].at <= taken <= now
    requires At(h, taken).Stat() == At(h, seen).Stat() && At(h, seen).Stat().modified < hashedAt - RACY_WINDOW
    ensures WrongAnswerArises(h, granularity, key, seen, hashedAt, until, taken, now)
       <==> !(Quiet(h, hashedAt, until) && SameAgain(h, hashedAt, taken, now))
  {
    hide Lawful;
    hide Quiet;
    hide IsRun;
    SureExactlyWhen(h, seen, hashedAt, until, now);
    if !Sure(h, seen, hashedAt, until, now) {
      var e: Entry :| e.hashedAt == hashedAt && MadeAt(h, e, seen, until) && e.value != At(h, now).Text();
      var run := EveryEntryArises(h, granularity, key, 0, e, now);
      assert Answers(run, granularity, |run| - 1, 0, key, taken);
    }
  }

  // ---- Three answers that are not what the caller's stat was of ----

  const SECOND: int := 1_000_000_000

  function Written(seconds: int, content: seq<nat>): Version {
    Version(seconds * SECOND, seconds * SECOND, 7, 6, content)
  }

  /** A caller stats the file at six seconds.  Another check of its session, whose stat is as
      old, reads from eight seconds on and stores before the caller looks up. */
  ghost predicate AnswersStat(run: seq<World>, h: History, e: Entry) {
    && EndsWith(run, RACY_WINDOW, h, Key(0, []), 0, e, 10 * SECOND)
    && Answers(run, RACY_WINDOW, |run| - 1, 0, Key(0, []), 6 * SECOND)
  }

  /** Torn by a write at nine seconds: neither the file at the stat nor the file now. */
  lemma TornAnswer() returns (run: seq<World>, h: History, e: Entry)
    ensures AnswersStat(run, h, e)
    ensures e.value != At(h, 6 * SECOND).Text() && e.value != At(h, 10 * SECOND).Text()
  {
    var a, b := Written(0, [1, 1]), Written(9, [2, 2]);
    h, e := [a, b], Entry(a.Stat(), Value(6, [1, 2]), 8 * SECOND);
    assert h[..1] == [a];
    assert At(h, 6 * SECOND) == a && At(h, 8 * SECOND) == a && At(h, 10 * SECOND) == b;
    assert h[1].content != h[0].content;
    assert MadeAt(h, e, 6 * SECOND, 10 * SECOND);
    run := EveryEntryArises(h, RACY_WINDOW, Key(0, []), 0, e, 10 * SECOND);
  }

  /** Written at seven seconds: the file now, and not the file at the stat. */
  lemma NewerAnswer() returns (run: seq<World>, h: History, e: Entry)
    ensures AnswersStat(run, h, e)
    ensures e.value != At(h, 6 * SECOND).Text() && e.value == At(h, 10 * SECOND).Text()
  {
    var a, b := Written(0, [1]), Written(7, [2]);
    h, e := [a, b], Entry(a.Stat(), b.Text(), 8 * SECOND);
    assert h[..1] == [a];
    assert At(h, 6 * SECOND) == a && At(h, 8 * SECOND) == b && At(h, 10 * SECOND) == b;
    assert MadeAt(h, e, 6 * SECOND, 8 * SECOND);
    run := EveryEntryArises(h, RACY_WINDOW, Key(0, []), 0, e, 10 * SECOND);
  }

  /** Written at seven seconds and written back at nine: what was there only in between. */
  lemma PassingAnswer() returns (run: seq<World>, h: History, e: Entry)
    ensures AnswersStat(run, h, e)
    ensures At(h, 6 * SECOND).Text() == At(h, 10 * SECOND).Text() && e.value != At(h, 10 * SECOND).Text()
  {
    var a, b, c := Written(0, [1]), Written(7, [2]), Written(9, [1]);
    h, e := [a, b, c], Entry(a.Stat(), b.Text(), 8 * SECOND);
    assert h[..2] == [a, b] && h[..2][..1] == [a];
    assert h[2] == c && At(h, 10 * SECOND) == c;
    assert IndexAt([a, b], 8 * SECOND) == 1 && IndexAt([a, b], 6 * SECOND) == 0;
    assert At(h, 6 * SECOND) == a && At(h, 8 * SECOND) == b;
    assert MadeAt(h, e, 6 * SECOND, 8 * SECOND);
    run := EveryEntryArises(h, RACY_WINDOW, Key(0, []), 0, e, 10 * SECOND);
  }
}
