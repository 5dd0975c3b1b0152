/** The session's memoized git listings (internal/verify/discovery.go). */
module Discovery {
  // Any number of callers ask for a source's listing while checks create files and relist.  A
  // listing is known by when its git run began, on a clock that ticks with every step; a call's
  // steps interleave with everyone else's in any order.

  import opened Options

  type Source = nat
  type Caller = nat

  /** The memo and the relist counters, both guarded by listingMu but for the first load. */
  datatype Memo = Memo(listings: map<Source, nat>, epochs: map<Source, nat>) {
    function Epoch(source: Source): nat {
      if source in epochs then epochs[source] else 0
    }

    /** relist: the next snapshot asks git again. */
    function Relist(source: Source): Memo {
      Memo(listings - {source}, epochs[source := Epoch(source) + 1])
    }

    /** The end of listing: keep what git found unless a relist came in between, or another
        caller's listing is already kept. */
    function Keep(source: Source, epoch: nat, found: nat): Memo {
      if Epoch(source) != epoch || source in listings then this else this.(listings := listings[source := found])
    }

    function Answer(source: Source, epoch: nat, found: nat): nat {
      if Epoch(source) != epoch || source !in listings then found else listings[source]
    }
  }

  /** The Session's own fields and critical sections. */
  class Listings {
    var listings: map<Source, nat>
    var epochs: map<Source, nat>

    function State(): Memo
      reads this
    {
      Memo(listings, epochs)
    }

    constructor ()
      ensures State() == Memo(map[], map[])
    {
      listings, epochs := map[], map[];
    }

    method Relist(source: Source)
      modifies this
      ensures State() == old(State()).Relist(source)
    {
      epochs := epochs[source := (if source in epochs then epochs[source] else 0) + 1];
      listings := listings - {source};
    }

    /** listing after its git run; `epoch` is what it read before. */
    method Settle(source: Source, epoch: nat, found: nat) returns (answer: nat)
      modifies this
      ensures State() == old(State()).Keep(source, epoch, found)
      ensures answer == old(State()).Answer(source, epoch, found)
    {
      var now := if source in epochs then epochs[source] else 0;
      if now != epoch {
        return found;
      }
      if source !in listings {
        listings := listings[source := found];
      }
      answer := listings[source];
    }
  }

  /** A call of listing, begun at `since`; each later stage remembers when it came. */
  datatype Call =
    | Missed(source: Source, since: nat)
    | Read(source: Source, since: nat, epoch: nat, at: nat)
    | Listed(source: Source, since: nat, epoch: nat, at: nat, began: nat)

  /** A listing handed to a caller, and a relist. */
  datatype Answered = Answered(source: Source, since: nat, began: nat)
  datatype Relisted = Relisted(source: Source, at: nat)

  datatype State = State(clock: nat, memo: Memo, calls: map<Caller, Call>, answers: seq<Answered>, relists: seq<Relisted>)

  datatype Event =
    | Ask(source: Source)   // listings.Load
    | ReadEpoch
    | RunGit                // git begins; its listing is of the tree from then on
    | GitFails              // not memoized, and the caller walks the filesystem
    | Settle                // listingMu, after git
    | Relist(source: Source)

  function Tick(s: State): State {
    s.(clock := s.clock + 1)
  }

  function Finish(s: State, c: Caller, call: Call, began: nat): State {
    Tick(s).(calls := s.calls - {c}, answers := s.answers + [Answered(call.source, call.since, began)])
  }

  function Next(s: State, c: Caller, e: Event): Option<State> {
    match e
    case Relist(source) =>
      Some(Tick(s).(memo := s.memo.Relist(source), relists := s.relists + [Relisted(source, s.clock)]))
    case Ask(source) =>
      if c in s.calls then None
      else if source in s.memo.listings then Some(Finish(s, c, Missed(source, s.clock), s.memo.listings[source]))
      else Some(Tick(s).(calls := s.calls[c := Missed(source, s.clock)]))
    case ReadEpoch =>
      if c in s.calls && s.calls[c].Missed?
      then Some(Tick(s).(calls := s.calls[c := Read(s.calls[c].source, s.calls[c].since, s.memo.Epoch(s.calls[c].source), s.clock)]))
      else None
    case RunGit =>
      if c in s.calls && s.calls[c].Read?
      then Some(Tick(s).(calls := s.calls[c := Listed(s.calls[c].source, s.calls[c].since, s.calls[c].epoch, s.calls[c].at, s.clock)]))
      else None
    case GitFails =>
      if c in s.calls && s.calls[c].Listed? then Some(Tick(s).(calls := s.calls - {c})) else None
    case Settle =>
      if c in s.calls && s.calls[c].Listed? then
        var call := s.calls[c];
        Some(Finish(s, c, call, s.memo.Answer(call.source, call.epoch, call.began)).(
               memo := s.memo.Keep(call.source, call.epoch, call.began)))
      else None
  }

  ghost predicate Init(s: State) {
    s == State(1, Memo(map[], map[]), map[], [], [])
  }

  ghost predicate Step(s: State, t: State) {
    exists c, e :: Next(s, c, e) == Some(t)
  }

  ghost predicate IsRun(run: seq<State>) {
    |run| > 0 && Init(run[0]) && forall n :: 0 < n < |run| ==> Step(run[n - 1], run[n])
  }

  // ---- The invariant ----

  /** Every relist of the source so far came before `time`. */
  ghost predicate AfterRelists(s: State, source: Source, time: nat) {
    forall r :: r in s.relists && r.source == source ==> r.at < time
  }

  ghost predicate CallInv(s: State, call: Call) {
    match call
    case Missed(_, since) => since < s.clock
    case Read(source, since, epoch, at) =>
      since < at < s.clock && epoch <= s.memo.Epoch(source)
      && (epoch == s.memo.Epoch(source) ==> AfterRelists(s, source, at))
    case Listed(source, since, epoch, at, began) =>
      since < at < began < s.clock && epoch <= s.memo.Epoch(source)
      && (epoch == s.memo.Epoch(source) ==> AfterRelists(s, source, at))
  }

  /** A caller was never handed a listing whose git run began before a relist that came
      before the call. */
  ghost predicate Fresh(s: State, a: Answered) {
    forall r :: r in s.relists && r.source == a.source && r.at < a.since ==> r.at < a.began
  }

  ghost predicate Inv(s: State) {
    && (forall r :: r in s.relists ==> r.at < s.clock)
    && (forall source :: source in s.memo.listings ==>
          s.memo.listings[source] < s.clock && AfterRelists(s, source, s.memo.listings[source]))
    && (forall c :: c in s.calls ==> CallInv(s, s.calls[c]))
    && (forall a :: a in s.answers ==> a.since < s.clock && Fresh(s, a))
  }

  lemma KeepsInv(s: State, t: State, c: Caller, e: Event)
    requires Inv(s) && Next(s, c, e) == Some(t)
    ensures Inv(t)
  {
    KeepsListings(s, t, c, e);
    KeepsCalls(s, t, c, e);
    KeepsAnswers(s, t, c, e);
  }

  lemma KeepsListings(s: State, t: State, c: Caller, e: Event)
    requires Inv(s) && Next(s, c, e) == Some(t)
    ensures forall r :: r in t.relists ==> r.at < t.clock
    ensures forall source :: source in t.memo.listings ==>
              t.memo.listings[source] < t.clock && AfterRelists(t, source, t.memo.listings[source])
  {
    hide Fresh;
    if e.Settle? {
      assert CallInv(s, s.calls[c]);
    }
  }

  lemma KeepsCalls(s: State, t: State, c: Caller, e: Event)
    requires Inv(s) && Next(s, c, e) == Some(t)
    ensures forall x :: x in t.calls ==> CallInv(t, t.calls[x])
  {
    hide Fresh;
    forall x | x in t.calls ensures CallInv(t, t.calls[x]) {
      assert x in s.calls ==> CallInv(s, s.calls[x]);
    }
  }

  lemma KeepsAnswers(s: State, t: State, c: Caller, e: Event)
    requires Inv(s) && Next(s, c, e) == Some(t)
    ensures forall a :: a in t.answers ==> a.since < t.clock && Fresh(t, a)
  {
    if e.Settle? {
      assert CallInv(s, s.calls[c]);
    }
  }

  lemma {:induction false} RunsKeepInv(run: seq<State>, n: nat)
    requires IsRun(run) && n < |run|
    ensures Inv(run[n])
  {
    if n > 0 {
      RunsKeepInv(run, n - 1);
      assert Step(run[n - 1], run[n]);
      var c, e :| Next(run[n - 1], c, e) == Some(run[n]);
      KeepsInv(run[n - 1], run[n], c, e);
    }
  }

  /** In every interleaving, a memoized listing's git run began after every relist of its
      source so far. */
  lemma MemoIsNewerThanRelists(run: seq<State>, n: nat, source: Source)
    requires IsRun(run) && n < |run| && source in run[n].memo.listings
    ensures AfterRelists(run[n], source, run[n].memo.listings[source])
  {
    RunsKeepInv(run, n);
  }

  /** A fingerprint taken after an execution relisted never uses a listing older than the
      execution's files: every answer to a call made after a relist is from a git run begun
      after it, whether it came from the memo, from this call or from another caller. */
  lemma AnswersSeeEarlierRelists(run: seq<State>, n: nat, a: Answered, r: Relisted)
    requires IsRun(run) && n < |run| && a in run[n].answers && r in run[n].relists
    requires r.source == a.source && r.at < a.since
    ensures r.at < a.began
  {
    RunsKeepInv(run, n);
  }

  // ---- A listing is asked for once ----

  /** Unless a relist came in between, git's listing answers its own call, or the one already kept
      does, and every later call at once, until the next relist. */
  lemma SettledIsRemembered(s: State, t: State, u: State, c: Caller, d: Caller)
    requires c in s.calls && s.calls[c].Listed? && s.calls[c].epoch == s.memo.Epoch(s.calls[c].source)
    requires Next(s, c, Settle) == Some(t) && Next(t, d, Ask(s.calls[c].source)) == Some(u)
    ensures var source := s.calls[c].source;
            var kept := if source in s.memo.listings then s.memo.listings[source] else s.calls[c].began;
            && t.answers == s.answers + [Answered(source, s.calls[c].since, kept)]
            && u.answers == t.answers + [Answered(source, t.clock, kept)] && u.calls == t.calls
  {
    assert t.calls - {d} == t.calls;
  }

  /** A relist in between leaves the call its own listing, and the memo as it was. */
  lemma RelistedIsNotKept(s: State, t: State, c: Caller)
    requires c in s.calls && s.calls[c].Listed? && s.calls[c].epoch != s.memo.Epoch(s.calls[c].source)
    requires Next(s, c, Settle) == Some(t)
    ensures t.memo == s.memo && t.answers == s.answers + [Answered(s.calls[c].source, s.calls[c].since, s.calls[c].began)]
  {
  }
}
