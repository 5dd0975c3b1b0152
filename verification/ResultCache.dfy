/** How a verdict reaches the result cache (internal/verify/cache.go), under one key. */
module ResultCache {
  // The record results/KEY.json and the marker results/KEY.retry are written in sequence by
  // whoever holds the key's result lock.  Any write can fail, any process can be killed between
  // two writes, and the inputs can change at any time.

  import opened Options

  type Key = nat
  type Actor = nat

  /** An execution begun under the key: the inputs' fingerprint before it, whether it passed
      once it ended, and the fingerprint taken after it. */
  datatype Execution = Execution(before: Key, passed: Option<bool>, after: Option<Key>)

  /** The two files; a record names the execution whose verdict it holds. */
  datatype Disk = Disk(record: Option<nat>, retry: bool)

  /** Where an actor is in Execute and execute. */
  datatype Pc =
    | Idle
    | Locked             // result lock held, key confirmed
    | Cleared            // the old record is gone
    | Running(id: nat)   // marker written, executor started
    | Ended(id: nat)     // executor returned
    | Confirmed(id: nat) // passed, and the fingerprint still equals the key
    | Saved(id: nat)     // record written
    | Releasing

  /** A verdict served from the cache, and how many executions had begun by then. */
  datatype Served = Served(id: nat, begun: nat)

  datatype State = State(
    disk: Disk,
    inputs: Key,               // what a fingerprint of the source would be now
    lock: Option<Actor>,
    pcs: map<Actor, Pc>,
    begun: seq<Execution>,     // every execution begun under the key, in order
    served: seq<Served>)
  {
    function PcOf(a: Actor): Pc {
      if a in pcs then pcs[a] else Idle
    }
  }

  datatype Event =
    | Acquire                // the lock is free and the second fingerprint equals the key
    | Serve(seen: bool)      // load the record; `seen` is whether os.Stat reports the marker
    | Rerun                  // nothing usable, or a rerun was asked for
    | Fault                  // this action's file operation fails, or its context ends
    | Proceed                // it succeeds
    | Finish(passed: bool)   // the executor returns
    | Killed                 // the actor's process dies
    | Edit(to: Key)          // somebody changes the inputs

  function To(s: State, a: Actor, pc: Pc): State {
    s.(pcs := s.pcs[a := pc])
  }

  /** One action of the actor at `pc`, or None when it does not apply. */
  function Act(key: Key, s: State, a: Actor, pc: Pc, e: Event): Option<State> {
    match pc
    case Idle =>
      if e == Acquire && s.lock == None && s.inputs == key then Some(To(s, a, Locked).(lock := Some(a))) else None
    case Locked =>
      if e.Serve? && s.disk.record.Some? && !(e.seen && s.disk.retry)
      then Some(To(s, a, Releasing).(served := s.served + [Served(s.disk.record.value, |s.begun|)]))
      else if e == Rerun then Some(To(s, a, Cleared).(disk := s.disk.(record := None)))
      else if e == Fault then Some(To(s, a, Releasing))
      else None
    case Cleared =>
      if e == Proceed
      then Some(To(s, a, Running(|s.begun|)).(disk := s.disk.(retry := true), begun := s.begun + [Execution(key, None, None)]))
      else if e == Fault then Some(To(s, a, Releasing))
      else None
    case Running(id) =>
      if e.Finish? && id < |s.begun|
      then Some(To(s, a, if e.passed then Ended(id) else Releasing).(
                  begun := s.begun[id := s.begun[id].(passed := Some(e.passed))]))
      else None
    case Ended(id) =>
      if e == Proceed && id < |s.begun|
      then Some(To(s, a, if s.inputs == key then Confirmed(id) else Releasing).(
                  begun := s.begun[id := s.begun[id].(after := Some(s.inputs))]))
      else if e == Fault then Some(To(s, a, Releasing))
      else None
    case Confirmed(id) =>
      if e == Proceed then Some(To(s, a, Saved(id)).(disk := s.disk.(record := Some(id))))
      else if e == Fault then Some(To(s, a, Releasing))
      else None
    case Saved(_) =>
      if e == Proceed then Some(To(s, a, Releasing).(disk := s.disk.(retry := false)))
      else if e == Fault then Some(To(s, a, Releasing))
      else None
    case Releasing =>
      if e == Proceed then Some(To(s, a, Idle).(lock := None)) else None
  }

  /** One event: an edit of the inputs, a kill, or an actor's action. */
  function Next(key: Key, s: State, a: Actor, e: Event): Option<State> {
    if e.Edit? then Some(s.(inputs := e.to))
    else if e == Killed then Some(To(s, a, Idle).(lock := if s.lock == Some(a) then None else s.lock))
    else Act(key, s, a, s.PcOf(a), e)
  }

  ghost predicate Step(key: Key, s: State, t: State) {
    exists a, e :: Next(key, s, a, e) == Some(t)
  }

  /** A cache directory that starts with nothing under the key. */
  ghost predicate Init(s: State) {
    s.disk == Disk(None, false) && s.lock == None && s.pcs == map[] && s.begun == [] && s.served == []
  }

  ghost predicate IsRun(key: Key, run: seq<State>) {
    |run| > 0 && Init(run[0]) && forall n :: 0 < n < |run| ==> Step(key, run[n - 1], run[n])
  }

  // ---- The invariant ----

  /** Execution `id` is the one most recently begun, it passed, and the fingerprint equalled
      the key both before it and after it. */
  predicate CurrentPass(key: Key, s: State, id: nat) {
    && id + 1 == |s.begun|
    && s.begun[id] == Execution(key, Some(true), Some(key))
  }

  /** What each place in the protocol knows. */
  predicate PcInv(key: Key, s: State, pc: Pc) {
    match pc
    case Idle => true
    case Locked => true
    case Cleared => s.disk.record == None
    case Running(id) => s.disk == Disk(None, true) && id + 1 == |s.begun| && s.begun[id] == Execution(key, None, None)
    case Ended(id) => s.disk == Disk(None, true) && id + 1 == |s.begun| && s.begun[id] == Execution(key, Some(true), None)
    case Confirmed(id) => s.disk == Disk(None, true) && CurrentPass(key, s, id)
    case Saved(id) => s.disk == Disk(Some(id), true) && CurrentPass(key, s, id)
    case Releasing => true
  }

  /** The newest execution was published: its record was written. */
  predicate Published(key: Key, s: State) {
    |s.begun| > 0 && CurrentPass(key, s, |s.begun| - 1)
  }

  /** A verdict served came from the newest execution begun until then, which passed. */
  predicate ServedInv(key: Key, s: State) {
    forall i :: 0 <= i < |s.served| ==>
      && s.served[i].id + 1 == s.served[i].begun <= |s.begun|
      && s.begun[s.served[i].id] == Execution(key, Some(true), Some(key))
  }

  ghost predicate Inv(key: Key, s: State) {
    && (forall a: Actor :: s.PcOf(a) != Idle ==> s.lock == Some(a))
    && (forall a: Actor :: PcInv(key, s, s.PcOf(a)))
    && (s.disk.record.Some? ==> CurrentPass(key, s, s.disk.record.value))
    && (!s.disk.retry && |s.begun| > 0 ==> Published(key, s))
    && ServedInv(key, s)
  }

  lemma KeepsInv(key: Key, s: State, t: State, a: Actor, e: Event)
    requires Inv(key, s) && Next(key, s, a, e) == Some(t)
    ensures Inv(key, t)
  {
    KeepsPlaces(key, s, t, a, e);
    KeepsDisk(key, s, t, a, e);
    KeepsServed(key, s, t, a, e);
  }

  lemma KeepsPlaces(key: Key, s: State, t: State, a: Actor, e: Event)
    requires Inv(key, s) && Next(key, s, a, e) == Some(t)
    ensures forall b: Actor :: t.PcOf(b) != Idle ==> t.lock == Some(b)
    ensures forall b: Actor :: PcInv(key, t, t.PcOf(b))
  {
    hide ServedInv;
    hide Published;
    KeepsOtherPlaces(key, s, t, a, e);
    assert PcInv(key, s, s.PcOf(a));
  }

  lemma KeepsOtherPlaces(key: Key, s: State, t: State, a: Actor, e: Event)
    requires Next(key, s, a, e) == Some(t)
    ensures forall b: Actor :: b != a ==> t.PcOf(b) == s.PcOf(b)
  {
  }

  lemma KeepsDisk(key: Key, s: State, t: State, a: Actor, e: Event)
    requires Inv(key, s) && Next(key, s, a, e) == Some(t)
    ensures t.disk.record.Some? ==> CurrentPass(key, t, t.disk.record.value)
    ensures !t.disk.retry && |t.begun| > 0 ==> Published(key, t)
  {
    hide ServedInv;
    assert PcInv(key, s, s.PcOf(a));
  }

  lemma KeepsServed(key: Key, s: State, t: State, a: Actor, e: Event)
    requires Inv(key, s) && Next(key, s, a, e) == Some(t)
    ensures ServedInv(key, t)
  {
    assert PcInv(key, s, s.PcOf(a));
  }

  lemma {:induction false} RunsKeepInv(key: Key, run: seq<State>, n: nat)
    requires IsRun(key, run) && n < |run|
    ensures Inv(key, run[n])
  {
    if n > 0 {
      RunsKeepInv(key, run, n - 1);
      assert Step(key, run[n - 1], run[n]);
      var a, e :| Next(key, run[n - 1], a, e) == Some(run[n]);
      KeepsInv(key, run[n - 1], run[n], a, e);
    }
  }

  // ---- What every run promises ----

  /** Whatever failed, was killed or was edited: a record on disk is the verdict of the
      execution most recently begun under the key, which passed with the fingerprint equal
      to the key before and after.  The marker adds that without one, the newest execution
      was published. */
  lemma RecordIsCurrent(key: Key, run: seq<State>, n: nat)
    requires IsRun(key, run) && n < |run|
    ensures run[n].disk.record.Some? ==> CurrentPass(key, run[n], run[n].disk.record.value)
    ensures |run[n].begun| > 0 && !Published(key, run[n]) ==> run[n].disk.retry && run[n].disk.record == None
  {
    RunsKeepInv(key, run, n);
  }

  ghost predicate NobodyRuns(s: State) {
    forall a: Actor :: !s.PcOf(a).Running?
  }

  lemma ServingIsCurrent(key: Key, s: State, t: State, a: Actor, e: Event)
    requires Inv(key, s) && Next(key, s, a, e) == Some(t) && |t.served| > |s.served|
    ensures t.begun == s.begun && s.disk.record.Some? && NobodyRuns(s)
    ensures t.served == s.served + [Served(s.disk.record.value, |s.begun|)]
  {
    assert s.PcOf(a) == Locked;
  }

  /** No hit ever returns a superseded verdict: when a verdict is served, it is the newest
      execution's, and no execution is running. */
  lemma HitsAreCurrent(key: Key, s: State, t: State)
    requires Inv(key, s) && Step(key, s, t) && |t.served| > |s.served|
    ensures |t.served| == |s.served| + 1 && t.begun == s.begun && NobodyRuns(s)
    ensures CurrentPass(key, t, t.served[|s.served|].id)
  {
    var a, e :| Next(key, s, a, e) == Some(t);
    ServingIsCurrent(key, s, t, a, e);
  }

  lemma RunsServeCurrent(key: Key, run: seq<State>, n: nat)
    requires IsRun(key, run) && 0 < n < |run|
    requires |run[n].served| > |run[n - 1].served|
    ensures NobodyRuns(run[n - 1])
    ensures CurrentPass(key, run[n], run[n].served[|run[n].served| - 1].id)
  {
    hide Inv;
    hide Step;
    hide NobodyRuns;
    hide CurrentPass;
    RunsKeepInv(key, run, n - 1);
    HitsAreCurrent(key, run[n - 1], run[n]);
  }

  /** One actor at a time works under the key. */
  lemma OneActorWorks(key: Key, run: seq<State>, n: nat, a: Actor, b: Actor)
    requires IsRun(key, run) && n < |run|
    requires run[n].PcOf(a) != Idle && run[n].PcOf(b) != Idle
    ensures a == b
  {
    RunsKeepInv(key, run, n);
  }

  // ---- execute, as the source writes it ----

  /** What the environment makes of one execution: which file operations fail, whether the
      executor passes, and the fingerprint after it (None for an error). */
  datatype Fate = Fate(clearFails: bool, markFails: bool, passed: bool, after: Option<Key>,
                       saveFails: bool, unmarkFails: bool)

  datatype Report = NotRun | Ran(passed: bool, cached: bool)

  predicate Publishes(key: Key, f: Fate) {
    f.passed && f.after == Some(key) && !f.saveFails
  }

  /** The files a whole execution leaves. */
  function FilesAfter(before: Disk, key: Key, id: nat, f: Fate): Disk {
    if f.clearFails then before
    else if f.markFails then Disk(None, before.retry)
    else if Publishes(key, f) then Disk(Some(id), f.unmarkFails)
    else Disk(None, true)
  }

  class Store {
    var record: Option<nat>
    var retry: bool

    function Files(): Disk
      reads this
    {
      Disk(record, retry)
    }

    constructor (files: Disk)
      ensures Files() == files
    {
      record, retry := files.record, files.retry;
    }

    /** CachedExecutor.execute, under the held result lock. */
    method Execute(key: Key, id: nat, f: Fate) returns (report: Report)
      modifies this
      ensures Files() == FilesAfter(old(Files()), key, id, f)
      ensures report == if f.clearFails || f.markFails then NotRun else Ran(f.passed, Publishes(key, f))
    {
      if f.clearFails {
        return NotRun;
      }
      record := None;
      if f.markFails {
        return NotRun;
      }
      retry := true;
      report := Ran(f.passed, false);
      if f.passed {
        if f.after != Some(key) {
          return;
        }
        if !f.saveFails {
          record := Some(id);
          report := Ran(f.passed, true);
          if !f.unmarkFails {
            retry := false;
          }
        }
      }
    }
  }

  /** The events of one whole execution by an actor holding the lock; a kill cuts it short. */
  function Script(key: Key, f: Fate): seq<Event> {
    if f.clearFails then [Fault]
    else if f.markFails then [Rerun, Fault]
    else [Rerun, Proceed, Finish(f.passed)] + if f.passed then Checking(key, f) else []
  }

  function Checking(key: Key, f: Fate): seq<Event> {
    if f.after == None then [Fault]
    else [Edit(f.after.value), Proceed] + if f.after == Some(key) then Saving(f) else []
  }

  function Saving(f: Fate): seq<Event> {
    if f.saveFails then [Fault] else [Proceed, if f.unmarkFails then Fault else Proceed]
  }

  function Play(key: Key, s: State, a: Actor, events: seq<Event>): Option<State>
    decreases |events|
  {
    if events == [] then Some(s)
    else
      var t := Next(key, s, a, events[0]);
      if t.None? then None else Play(key, t.value, a, events[1..])
  }

  lemma PlayOne(key: Key, s: State, a: Actor, e: Event, rest: seq<Event>) returns (t: State)
    requires Next(key, s, a, e).Some?
    ensures Next(key, s, a, e) == Some(t)
    ensures Play(key, s, a, [e] + rest) == Play(key, t, a, rest)
  {
    t := Next(key, s, a, e).value;
    assert ([e] + rest)[1..] == rest;
  }

  lemma SavingPlays(key: Key, s: State, a: Actor, id: nat, f: Fate)
    requires s.PcOf(a) == Confirmed(id) && s.disk == Disk(None, true)
    ensures var t := Play(key, s, a, Saving(f));
            t.Some? && t.value.PcOf(a) == Releasing
            && t.value.disk == if f.saveFails then Disk(None, true) else Disk(Some(id), f.unmarkFails)
  {
    if f.saveFails {
      var t := PlayOne(key, s, a, Fault, []);
      assert [Fault] + [] == Saving(f);
    } else {
      var last := if f.unmarkFails then Fault else Proceed;
      var t := PlayOne(key, s, a, Proceed, [last]);
      var u := PlayOne(key, t, a, last, []);
      assert [last] + [] == [last];
      assert [Proceed] + [last] == Saving(f);
    }
  }

  lemma CheckingPlays(key: Key, s: State, a: Actor, id: nat, f: Fate)
    requires s.PcOf(a) == Ended(id) && s.disk == Disk(None, true) && id < |s.begun|
    ensures var t := Play(key, s, a, Checking(key, f));
            t.Some? && t.value.PcOf(a) == Releasing
            && t.value.disk == if f.after == Some(key) && !f.saveFails then Disk(Some(id), f.unmarkFails) else Disk(None, true)
  {
    if f.after == None {
      var t := PlayOne(key, s, a, Fault, []);
      assert [Fault] + [] == Checking(key, f);
    } else {
      var rest := if f.after == Some(key) then Saving(f) else [];
      var t := PlayOne(key, s, a, Edit(f.after.value), [Proceed] + rest);
      var u := PlayOne(key, t, a, Proceed, rest);
      assert [Edit(f.after.value)] + ([Proceed] + rest) == Checking(key, f);
      if f.after == Some(key) {
        SavingPlays(key, u, a, id, f);
      }
    }
  }

  /** The method and the interleaved steps agree: played to its end, an execution's script
      leaves the files Execute leaves, and any prefix of it is what a kill leaves. */
  lemma ExecutePlaysItsScript(key: Key, s: State, a: Actor, f: Fate)
    requires s.PcOf(a) == Locked
    ensures var t := Play(key, s, a, Script(key, f));
            t.Some? && t.value.PcOf(a) == Releasing
            && t.value.disk == FilesAfter(s.disk, key, |s.begun|, f)
  {
    if f.clearFails {
      var t := PlayOne(key, s, a, Fault, []);
      assert [Fault] + [] == Script(key, f);
    } else if f.markFails {
      var t := PlayOne(key, s, a, Rerun, [Fault]);
      var u := PlayOne(key, t, a, Fault, []);
      assert [Fault] + [] == [Fault] && [Rerun] + [Fault] == Script(key, f);
    } else {
      var rest := if f.passed then Checking(key, f) else [];
      var t := PlayOne(key, s, a, Rerun, [Proceed] + ([Finish(f.passed)] + rest));
      var u := PlayOne(key, t, a, Proceed, [Finish(f.passed)] + rest);
      var w := PlayOne(key, u, a, Finish(f.passed), rest);
      assert [Rerun] + ([Proceed] + ([Finish(f.passed)] + rest)) == Script(key, f);
      if f.passed {
        CheckingPlays(key, w, a, |s.begun|, f);
      }
    }
  }

  // ---- A verdict that can be kept is ----

  lemma {:induction false} PlayAppends(key: Key, s: State, a: Actor, first: seq<Event>, rest: seq<Event>)
    requires Play(key, s, a, first).Some?
    ensures Play(key, s, a, first + rest) == Play(key, Play(key, s, a, first).value, a, rest)
    decreases |first|
  {
    if first == [] {
      assert first + rest == rest;
    } else {
      assert (first + rest)[1..] == first[1..] + rest;
      PlayAppends(key, Next(key, s, a, first[0]).value, a, first[1..], rest);
    }
  }

  lemma PassIsConfirmed(key: Key, s: State, a: Actor)
    requires s.PcOf(a) == Locked
    ensures var t := Play(key, s, a, [Rerun, Proceed, Finish(true), Edit(key), Proceed]);
            && t.Some? && t.value.PcOf(a) == Confirmed(|s.begun|) && t.value.disk == Disk(None, true) && t.value.inputs == key
            && |t.value.begun| == |s.begun| + 1 && t.value.served == s.served
  {
    var t := PlayOne(key, s, a, Rerun, [Proceed, Finish(true), Edit(key), Proceed]);
    assert [Rerun] + [Proceed, Finish(true), Edit(key), Proceed] == [Rerun, Proceed, Finish(true), Edit(key), Proceed];
    var u := PlayOne(key, t, a, Proceed, [Finish(true), Edit(key), Proceed]);
    assert [Proceed] + [Finish(true), Edit(key), Proceed] == [Proceed, Finish(true), Edit(key), Proceed];
    var w := PlayOne(key, u, a, Finish(true), [Edit(key), Proceed]);
    assert [Finish(true)] + [Edit(key), Proceed] == [Finish(true), Edit(key), Proceed];
    var x := PlayOne(key, w, a, Edit(key), [Proceed]);
    assert [Edit(key)] + [Proceed] == [Edit(key), Proceed];
    var y := PlayOne(key, x, a, Proceed, []);
    assert [Proceed] + [] == [Proceed];
  }

  lemma ConfirmedIsServed(key: Key, s: State, a: Actor, id: nat)
    requires s.PcOf(a) == Confirmed(id) && s.inputs == key
    ensures var t := Play(key, s, a, [Proceed, Proceed, Proceed, Acquire, Serve(true)]);
            t.Some? && t.value.served == s.served + [Served(id, |s.begun|)]
  {
    var t := PlayOne(key, s, a, Proceed, [Proceed, Proceed, Acquire, Serve(true)]);
    assert [Proceed] + [Proceed, Proceed, Acquire, Serve(true)] == [Proceed, Proceed, Proceed, Acquire, Serve(true)];
    var u := PlayOne(key, t, a, Proceed, [Proceed, Acquire, Serve(true)]);
    assert [Proceed] + [Proceed, Acquire, Serve(true)] == [Proceed, Proceed, Acquire, Serve(true)];
    var w := PlayOne(key, u, a, Proceed, [Acquire, Serve(true)]);
    assert [Proceed] + [Acquire, Serve(true)] == [Proceed, Acquire, Serve(true)];
    var x := PlayOne(key, w, a, Acquire, [Serve(true)]);
    assert [Acquire] + [Serve(true)] == [Acquire, Serve(true)];
    var y := PlayOne(key, x, a, Serve(true), []);
    assert [Serve(true)] + [] == [Serve(true)];
  }

  /** An execution that passes on unchanged inputs, whose files can be written, is served to the
      next lookup under the key, although that looks at the marker. */
  lemma PassedIsServed(key: Key, s: State, a: Actor, f: Fate)
    requires s.PcOf(a) == Locked
    requires !f.clearFails && !f.markFails && f.passed && f.after == Some(key) && !f.saveFails && !f.unmarkFails
    ensures var t := Play(key, s, a, Script(key, f) + [Proceed, Acquire, Serve(true)]);
            t.Some? && t.value.served == s.served + [Served(|s.begun|, |s.begun| + 1)]
  {
    var first := [Rerun, Proceed, Finish(true), Edit(key), Proceed];
    var last := [Proceed, Proceed, Proceed, Acquire, Serve(true)];
    assert Script(key, f) + [Proceed, Acquire, Serve(true)] == first + last;
    PassIsConfirmed(key, s, a);
    PlayAppends(key, s, a, first, last);
    ConfirmedIsServed(key, Play(key, s, a, first).value, a, |s.begun|);
  }

  /** What an execution leaves: its record exactly when it passed, the inputs had not changed and
      every file operation before was done; nothing of an older one once that was cleared; and no
      marker only when the record is complete. */
  lemma ExecutionLeaves(before: Disk, key: Key, id: nat, f: Fate)
    requires !f.clearFails
    ensures FilesAfter(before, key, id, f).record
         == if !f.markFails && f.passed && f.after == Some(key) && !f.saveFails then Some(id) else None
    ensures !f.markFails ==>
              (!FilesAfter(before, key, id, f).retry <==> f.passed && f.after == Some(key) && !f.saveFails && !f.unmarkFails)
  {
  }

  // ---- lockedFingerprint, as the source writes it ----

  /** What one attempt meets: the first fingerprint, the result lock, the workspace, and the
      second fingerprint, each None or false when it fails. */
  datatype Attempt = Attempt(first: Option<Key>, locked: bool, entered: bool, second: Option<Key>)

  /** The inputs changed between an attempt's two fingerprints, and nothing failed. */
  predicate Changes(t: Attempt, gated: bool) {
    t.first.Some? && t.locked && (gated ==> t.entered) && t.second.Some? && t.second != t.first
  }

  predicate Confirms(t: Attempt, gated: bool) {
    t.first.Some? && t.locked && (gated ==> t.entered) && t.second == t.first
  }

  /** The locks one check holds: result locks by key, and its place in the tree. */
  class Held {
    var keys: set<Key>
    var inTree: bool

    constructor ()
      ensures keys == {} && !inTree
    {
      keys, inTree := {}, false;
    }

    /** At most three attempts.  Success holds exactly the key's lock, and the workspace when
        gated; every failure, and every abandoned attempt, leaves nothing held. */
    method LockedFingerprint(attempts: seq<Attempt>, gated: bool) returns (key: Option<Key>)
      requires |attempts| == 3 && keys == {} && !inTree
      modifies this
      ensures key.Some? <==> exists n :: 0 <= n < 3 && Confirms(attempts[n], gated) && forall m :: 0 <= m < n ==> Changes(attempts[m], gated)
      ensures key.Some? ==> keys == {key.value} && inTree == gated
                            && exists n :: 0 <= n < 3 && attempts[n].first == key && attempts[n].second == key
      ensures key.None? ==> keys == {} && !inTree
    {
      for n := 0 to 3
        invariant keys == {} && !inTree
        invariant forall m :: 0 <= m < n ==> Changes(attempts[m], gated)
      {
        var t := attempts[n];
        if t.first.None? {
          return None;
        }
        if !t.locked {
          return None;
        }
        keys := keys + {t.first.value};
        if gated {
          if !t.entered {
            keys := keys - {t.first.value};
            return None;
          }
          inTree := true;
        }
        if t.second == t.first {
          return t.first;
        }
        if gated {
          inTree := false;
        }
        keys := keys - {t.first.value};
        if t.second.None? {
          return None;
        }
      }
      return None;
    }
  }
}
