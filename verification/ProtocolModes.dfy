/** How a check enters its tree (internal/verify/cache.go), over every run. */
module ProtocolModes {
  // A native check executes, and restores artifacts, only inside its source's tree; one that
  // writes there is alone; and the gate turns away nobody it need not.

  import opened Options
  import opened WorkspaceGate
  import opened Protocol
  import opened ProtocolSafety

  // ---- What every state keeps of a check's mode ----

  /** A check that found its key under a result lock enters exclusively when it writes or restores;
      one that runs without a lock, when it writes. */
  predicate RightMode(check: Check, key: Option<Key>, ex: bool, phase: Phase) {
    check.native && ex == (check.writes || (key.Some? && check.restores)) && (phase.Confirm? ==> key.Some?)
  }

  /** A lookup goes without the tree only for a check that need not restore or run again. */
  predicate RightGate(check: Check, gated: bool) {
    (gated ==> check.native) && (check.native && (check.rerun || check.restores) ==> gated)
  }

  predicate RightNext(check: Check, next: Next) {
    next.Again? ==> RightGate(check, next.gated)
  }

  predicate ModeOk(check: Check, pc: Pc) {
    match pc
    case Naming(_, gated) => RightGate(check, gated)
    case Locking(_, gated, _) => RightGate(check, gated)
    case Entering(key, ex, phase) => RightMode(check, key, ex, phase)
    case Parked(key, ex, phase, _) => RightMode(check, key, ex, phase)
    case Claiming(key, ex, phase) => RightMode(check, key, ex, phase)
    case Opening(key, ex, phase) => RightMode(check, key, ex, phase)
    case Inside(key, Some(ex), phase) => RightMode(check, key, ex, phase)
    case Inside(key, None, phase) => if phase.Execute? then !check.native else RightGate(check, false)
    case Leaving(_, _, next) => check.native && RightNext(check, next)
    case Exiting(_, _, next) => check.native && RightNext(check, next)
    case Unlocking(_, next) => RightNext(check, next)
    case _ => true
  }

  lemma ActionKeepsMode(v: View, pc: Pc, choice: Choice, o: Outcome)
    requires Act(v, pc, choice) == Some(o) && ModeOk(v.check, pc)
    ensures ModeOk(v.check, o.pc)
  {
    hide GateState.Admits;
    hide GateState.Try;
    hide GateState.Queue;
    hide GateState.Leave;
    hide GateState.Abandon;
    hide HoldState.Join;
    hide HoldState.Drop;
    hide HoldState.GiveUp;
  }

  ghost predicate ModeInv(cfg: Config, s: State) {
    forall a :: a in s.pcs && IsActor(cfg, a) ==> ModeOk(CheckOf(cfg, a), s.pcs[a])
  }

  lemma StepKeepsMode(cfg: Config, s: State, t: State)
    requires Step(cfg, s, t) && ModeInv(cfg, s)
    ensures ModeInv(cfg, t)
  {
    hide Act;
    hide ModeOk;
    if a, choice :| ActorStep(cfg, s, t, a, choice) {
      ActionKeepsMode(ViewOf(cfg, s, a), s.pcs[a], choice, Act(ViewOf(cfg, s, a), s.pcs[a], choice).value);
    } else {
      DeadIsOk();
    }
  }

  lemma DeadIsOk()
    ensures forall check :: ModeOk(check, Dead)
  {
  }

  lemma {:induction false} RunsKeepMode(cfg: Config, run: seq<State>, n: nat)
    requires IsRun(cfg, run) && n < |run|
    ensures ModeInv(cfg, run[n])
  {
    if n > 0 {
      RunsKeepMode(cfg, run, n - 1);
      assert Step(cfg, run[n - 1], run[n]);
      StepKeepsMode(cfg, run[n - 1], run[n]);
    }
  }

  // ---- Native checks execute inside the tree ----

  /** The check runs, between its executor's start and its end. */
  predicate Executes(pc: Pc) {
    pc.Inside? && pc.phase.Execute?
  }

  /** The check may load a record, and restore its artifacts. */
  predicate Restores(check: Check, pc: Pc) {
    pc.Inside? && pc.phase.Confirm? && check.restores
  }

  /** A native check executes inside its tree, and so does one that looks up artifacts to restore:
      exclusively exactly when it writes the tree, or holds a result lock and restores. */
  lemma NativeChecksAreInTheTree(cfg: Config, s: State, a: Actor)
    requires Reachable(cfg, s) && a in s.pcs && IsActor(cfg, a) && CheckOf(cfg, a).native
    requires Executes(s.pcs[a]) || Restores(CheckOf(cfg, a), s.pcs[a])
    ensures InTree(s.pcs[a])
    ensures s.pcs[a].workspace.value <==> CheckOf(cfg, a).writes || (s.pcs[a].key.Some? && CheckOf(cfg, a).restores)
    ensures Restores(CheckOf(cfg, a), s.pcs[a]) ==> s.pcs[a].workspace == Some(true)
  {
    var run :| IsRun(cfg, run) && run[|run| - 1] == s;
    RunsKeepMode(cfg, run, |run| - 1);
    assert ModeOk(CheckOf(cfg, a), s.pcs[a]);
  }

  /** A check that is not native is never in a tree. */
  lemma OthersStayOut(cfg: Config, s: State, a: Actor)
    requires Reachable(cfg, s) && a in s.pcs && IsActor(cfg, a) && !CheckOf(cfg, a).native
    ensures !ThroughGate(s.pcs[a])
  {
    var run :| IsRun(cfg, run) && run[|run| - 1] == s;
    RunsKeepMode(cfg, run, |run| - 1);
    assert ModeOk(CheckOf(cfg, a), s.pcs[a]);
  }

  predicate UsesTree(check: Check, pc: Pc) {
    check.native && (Executes(pc) || Restores(check, pc))
  }

  predicate WritesTree(check: Check, pc: Pc) {
    check.native && ((Executes(pc) && check.writes) || Restores(check, pc))
  }

  /** While a check writes a source's tree, or may restore artifacts there, no other check of the
      process executes or restores in it, and with a common cache directory no other process's. */
  lemma WritersWorkAlone(cfg: Config, s: State, a: Actor, b: Actor)
    requires cfg.Valid() && Reachable(cfg, s)
    requires a in s.pcs && b in s.pcs && a != b && IsActor(cfg, a) && IsActor(cfg, b)
    requires SessionOf(cfg, a).source == SessionOf(cfg, b).source
    requires SessionOf(cfg, a).proc == SessionOf(cfg, b).proc || (SessionOf(cfg, a).cached && SessionOf(cfg, b).cached)
    requires WritesTree(CheckOf(cfg, a), s.pcs[a])
    ensures !UsesTree(CheckOf(cfg, b), s.pcs[b]) && !InTree(s.pcs[b])
  {
    NativeChecksAreInTheTree(cfg, s, a);
    if UsesTree(CheckOf(cfg, b), s.pcs[b]) {
      NativeChecksAreInTheTree(cfg, s, b);
    }
    if InTree(s.pcs[b]) {
      TreeIsExclusive(cfg, s, a, b);
    }
  }

  // ---- Whom the gate admits ----

  /** Whether the check came through the gate, or parked. */
  lemma TurnAdmits(v: View, pc: Pc, o: Outcome)
    requires (pc.Entering? || pc.Parked?) && Act(v, pc, Proceed) == Some(o)
    ensures !o.pc.Parked? <==> if pc.ex then !v.gate.writer && v.gate.readers == 0 else !v.gate.writer && v.gate.queued == 0
    ensures !o.pc.Parked? <==> ThroughGate(o.pc)
  {
  }

  /** A check of the place that is through the gate, exclusively or not. */
  ghost predicate IsIn(cfg: Config, s: State, p: Place, b: Actor, ex: bool) {
    b in s.pcs && IsActor(cfg, b) && PlaceOf(cfg, b) == p && ThroughGate(s.pcs[b]) && GateMode(s.pcs[b]) == ex
  }

  ghost predicate IsQueued(cfg: Config, s: State, p: Place, b: Actor) {
    b in s.pcs && IsActor(cfg, b) && PlaceOf(cfg, b) == p && s.pcs[b].Parked? && s.pcs[b].ex
  }

  lemma SomebodyPlays(cfg: Config, s: State, p: Place, role: Role)
    requires Typed(cfg, s)
    ensures |Who(cfg, s.pcs, role, AtPlace(p))| > 0 <==> exists b :: b in s.pcs && InRole(cfg, role, AtPlace(p), b, s.pcs[b])
  {
    var who := Who(cfg, s.pcs, role, AtPlace(p));
    if |who| > 0 {
      var b :| b in who;
    }
    if b :| b in s.pcs && InRole(cfg, role, AtPlace(p), b, s.pcs[b]) {
      assert b in who;
    }
  }

  lemma GateKnowsWhoIsIn(cfg: Config, s: State, p: Place)
    requires Typed(cfg, s) && GateInv(cfg, s, p)
    ensures s.GateAt(p).writer <==> exists b :: IsIn(cfg, s, p, b, true)
    ensures s.GateAt(p).readers == 0 <==> forall b :: !IsIn(cfg, s, p, b, false)
    ensures s.GateAt(p).queued == 0 <==> forall b :: !IsQueued(cfg, s, p, b)
  {
    SomebodyPlays(cfg, s, p, Writer);
    SomebodyPlays(cfg, s, p, Reader);
    SomebodyPlays(cfg, s, p, Queuer);
    hide Who;
    assert forall b :: IsIn(cfg, s, p, b, true) <==> b in s.pcs && InRole(cfg, Writer, AtPlace(p), b, s.pcs[b]);
    assert forall b :: IsIn(cfg, s, p, b, false) <==> b in s.pcs && InRole(cfg, Reader, AtPlace(p), b, s.pcs[b]);
    assert forall b :: IsQueued(cfg, s, p, b) <==> b in s.pcs && InRole(cfg, Queuer, AtPlace(p), b, s.pcs[b]);
  }

  /** Nobody the check must wait for: for an exclusive one anybody who is in, for a shared one
      whoever is in exclusively or queued to be. */
  ghost predicate NobodyInTheWay(cfg: Config, s: State, p: Place, ex: bool) {
    && (forall b :: !IsIn(cfg, s, p, b, true))
    && (if ex then forall b :: !IsIn(cfg, s, p, b, false) else forall b :: !IsQueued(cfg, s, p, b))
  }

  /** A turn at the gate admits a check exactly when nobody it must wait for is there.  So shared
      checks overlap. */
  lemma AdmittedExactlyWhen(cfg: Config, s: State, t: State, a: Actor)
    requires cfg.Valid() && Reachable(cfg, s) && ActorStep(cfg, s, t, a, Proceed)
    requires s.pcs[a].Entering? || s.pcs[a].Parked?
    ensures a in t.pcs && (ThroughGate(t.pcs[a]) <==> NobodyInTheWay(cfg, s, PlaceOf(cfg, a), s.pcs[a].ex))
  {
    hide Act;
    hide IsIn;
    hide IsQueued;
    hide GateInv;
    hide HoldInv;
    ReachableInv(cfg, s);
    GateKnowsWhoIsIn(cfg, s, PlaceOf(cfg, a));
    TurnAdmits(ViewOf(cfg, s, a), s.pcs[a], Act(ViewOf(cfg, s, a), s.pcs[a], Proceed).value);
  }

  // ---- What a check waits for ----

  ghost predicate CanProceed(cfg: Config, s: State, a: Actor) {
    exists t :: ActorStep(cfg, s, t, a, Proceed)
  }

  lemma ProceedsExactlyWhen(cfg: Config, s: State, a: Actor)
    requires a in s.pcs && IsActor(cfg, a)
    ensures CanProceed(cfg, s, a) <==> Act(ViewOf(cfg, s, a), s.pcs[a], Proceed).Some?
  {
    hide Act;
    hide ViewOf;
    var o := Act(ViewOf(cfg, s, a), s.pcs[a], Proceed);
    if o.Some? {
      assert ActorStep(cfg, s, Apply(cfg, s, a, o.value), a, Proceed);
    }
  }

  /** An earlier check of the plan whose preparation stage is the same. */
  ghost predicate SharesPreparation(cfg: Config, earlier: Actor, later: Actor) {
    && IsActor(cfg, earlier) && IsActor(cfg, later)
    && earlier.session == later.session && earlier.index < later.index
    && CheckOf(cfg, earlier).prep.Some? && CheckOf(cfg, later).prep == CheckOf(cfg, earlier).prep
  }

  /** Before it takes a slot a check waits for exactly the earlier ones that share its preparation. */
  lemma WaitsForPreparations(cfg: Config, s: State, a: Actor)
    requires cfg.Valid() && Reachable(cfg, s) && a in s.pcs && IsActor(cfg, a) && s.pcs[a].Waiting?
    ensures CanProceed(cfg, s, a) <==> forall b :: b in s.pcs && SharesPreparation(cfg, b, a) ==> s.pcs[b] == Finished
  {
    ReachableInv(cfg, s);
    ProceedsExactlyWhen(cfg, s, a);
    forall b | b in s.pcs ensures Before(cfg, b, a) <==> SharesPreparation(cfg, b, a) {
    }
  }

  /** And once it runs they are all finished. */
  lemma SharedPreparationsAreDone(cfg: Config, s: State, earlier: Actor, later: Actor)
    requires cfg.Valid() && Reachable(cfg, s) && earlier in s.pcs && later in s.pcs && SharesPreparation(cfg, earlier, later)
    requires !s.pcs[later].Waiting? && !s.pcs[later].Dead?
    ensures s.pcs[earlier] == Finished
  {
    ReachableInv(cfg, s);
    assert Before(cfg, earlier, later);
  }

  /** A check takes a slot exactly when fewer than `workers` of its session have one. */
  lemma WaitsForSlot(cfg: Config, s: State, a: Actor)
    requires cfg.Valid() && Reachable(cfg, s) && a in s.pcs && IsActor(cfg, a) && s.pcs[a].Ready?
    ensures Typed(cfg, s)
    ensures CanProceed(cfg, s, a) <==> |Who(cfg, s.pcs, Slotted, AtSession(a.session))| < SessionOf(cfg, a).workers
  {
    hide Who;
    ReachableInv(cfg, s);
    ProceedsExactlyWhen(cfg, s, a);
  }

  /** It takes a result lock exactly when no check holds it. */
  lemma WaitsForResultLock(cfg: Config, s: State, a: Actor)
    requires cfg.Valid() && Reachable(cfg, s) && a in s.pcs && IsActor(cfg, a) && s.pcs[a].Locking?
    ensures CanProceed(cfg, s, a) <==> forall b :: b in s.pcs ==> LockOf(s.pcs[b]) != Some(s.pcs[a].lock)
  {
    ReachableInv(cfg, s);
    ProceedsExactlyWhen(cfg, s, a);
    var key := s.pcs[a].lock;
    if key in s.locks {
      assert LockOf(s.pcs[s.locks[key]]) == Some(key);
    }
  }

  /** A check of another process holds the source's file lock. */
  ghost predicate HeldElsewhere(cfg: Config, s: State, p: Place, b: Actor) {
    && b in s.pcs && IsActor(cfg, b) && PlaceOf(cfg, b).source == p.source && PlaceOf(cfg, b) != p
    && SessionOf(cfg, b).cached && ((s.pcs[b].Inside? && s.pcs[b].workspace.Some?) || s.pcs[b].Leaving?)
  }

  lemma FileIsFree(cfg: Config, s: State, p: Place)
    requires Inv(cfg, s)
    ensures s.HoldAt(p).holders != 0 || s.FileOwner(p.source) == None ==> forall b :: !HeldElsewhere(cfg, s, p, b)
    ensures s.HoldAt(p).holders == 0 && s.FileOwner(p.source).Some? ==> exists b :: HeldElsewhere(cfg, s, p, b)
  {
    assert HoldInv(cfg, s, p);
    forall b | HeldElsewhere(cfg, s, p, b) ensures s.HoldAt(p).holders == 0 && s.FileOwner(p.source).Some? {
      var q := PlaceOf(cfg, b);
      assert HoldInv(cfg, s, q);
      RoleIsCounted(cfg, s, b, Holder, AtPlace(q));
    }
    if s.HoldAt(p).holders == 0 && s.FileOwner(p.source).Some? {
      var q := Place(s.files[p.source], p.source);
      assert HoldInv(cfg, s, q);
      SomebodyPlays(cfg, s, q, Holder);
      var b :| b in s.pcs && InRole(cfg, Holder, AtPlace(q), b, s.pcs[b]);
      assert HeldElsewhere(cfg, s, p, b);
    }
  }

  /** It gets the source's file lock, once it has the hold's slot, exactly when no check of another
      process holds it: checks of one process share it. */
  lemma WaitsForFileLock(cfg: Config, s: State, a: Actor)
    requires cfg.Valid() && Reachable(cfg, s) && a in s.pcs && IsActor(cfg, a) && s.pcs[a].Opening?
    ensures CanProceed(cfg, s, a) <==> forall b :: !HeldElsewhere(cfg, s, PlaceOf(cfg, a), b)
  {
    hide HeldElsewhere;
    ReachableInv(cfg, s);
    ProceedsExactlyWhen(cfg, s, a);
    FileIsFree(cfg, s, PlaceOf(cfg, a));
  }

  // ---- A check that finishes has run ----

  /** A run with what the environment decided at each step: who acted with which choice, or that
      a process was killed. */
  datatype Deed = Acts(a: Actor, choice: Choice) | Killed(proc: nat)

  ghost predicate Follows(cfg: Config, s: State, t: State, m: Deed) {
    match m
    case Acts(a, choice) => ActorStep(cfg, s, t, a, choice)
    case Killed(proc) => s.pcs.Keys == Actors(cfg) && t == Crash(cfg, s, proc)
  }

  ghost predicate IsScripted(cfg: Config, run: seq<State>, script: seq<Deed>) {
    && |run| == |script| + 1 && run[0] == Init(cfg)
    && forall n :: 0 <= n < |script| ==> Follows(cfg, run[n], run[n + 1], script[n])
  }

  /** The check is looking its result up: a failure there only sends it to run without a lock. */
  predicate LooksUp(pc: Pc) {
    pc.Naming? || pc.Locking? || LockOf(pc).Some?
  }

  /** What lets a check end without executing: a cancellation, a tree it cannot enter when it runs
      without a lock, or a record that loads. */
  predicate Excuses(check: Check, pc: Pc, choice: Choice) {
    choice == Cancel || (choice == Stop && !LooksUp(pc)) || (choice == Hit && !check.rerun)
  }

  /** Still on the way to executing. */
  predicate OnTheWay(pc: Pc) {
    match pc
    case Inside(_, _, phase) => phase.Confirm?
    case Leaving(_, _, next) => next != Finish
    case Exiting(_, _, next) => next != Finish
    case Unlocking(_, next) => next != Finish
    case Finishing => false
    case Closing => false
    case Finished => false
    case _ => true
  }

  lemma ActionGoesOn(v: View, pc: Pc, choice: Choice, o: Outcome)
    requires Act(v, pc, choice) == Some(o) && OnTheWay(pc) && !Excuses(v.check, pc, choice)
    ensures OnTheWay(o.pc) || Executes(o.pc)
  {
  }

  /** The environment never excuses the check in the first n steps. */
  ghost predicate NeverExcused(cfg: Config, run: seq<State>, script: seq<Deed>, a: Actor, n: nat)
    requires n <= |script| && |run| == |script| + 1 && IsActor(cfg, a)
  {
    forall k :: 0 <= k < n && script[k].Acts? && script[k].a == a ==>
      a in run[k].pcs && !Excuses(CheckOf(cfg, a), run[k].pcs[a], script[k].choice)
  }

  /** Whatever else happens in a run, a check that has finished uncancelled, let into its tree and
      without a record of its own executed; one that must run again has whatever records there are. */
  lemma {:induction false} FinishedChecksRan(cfg: Config, run: seq<State>, script: seq<Deed>, a: Actor, n: nat)
    requires IsScripted(cfg, run, script) && n < |run| && IsActor(cfg, a) && NeverExcused(cfg, run, script, a, n)
    ensures a in run[n].pcs
    ensures OnTheWay(run[n].pcs[a]) || exists k :: 0 <= k <= n && a in run[k].pcs && Executes(run[k].pcs[a])
  {
    hide Act;
    hide OnTheWay;
    if n == 0 {
      WaitingIsOnTheWay();
    } else {
      FinishedChecksRan(cfg, run, script, a, n - 1);
      var s, m := run[n - 1], script[n - 1];
      assert Follows(cfg, s, run[n], m);
      if OnTheWay(s.pcs[a]) && m.Acts? && m.a == a {
        ActionGoesOn(ViewOf(cfg, s, a), s.pcs[a], m.choice, Act(ViewOf(cfg, s, a), s.pcs[a], m.choice).value);
      } else {
        WaitingIsOnTheWay();
      }
    }
  }

  lemma WaitingIsOnTheWay()
    ensures OnTheWay(Waiting) && OnTheWay(Dead)
  {
  }

  // ---- Where a check's result lock comes from ----

  /** How often the first n steps found the check's fingerprint changed under its lock. */
  function Changes(script: seq<Deed>, a: Actor, n: nat): nat
    requires n <= |script|
  {
    if n == 0 then 0 else Changes(script, a, n - 1) + if script[n - 1] == Acts(a, Changed) then 1 else 0
  }

  /** The attempt a lookup is at, when it has begun. */
  function Attempt(pc: Pc): nat {
    match pc
    case Naming(try, _) => try
    case Locking(try, _, _) => try
    case Entering(_, _, Confirm(try)) => try
    case Parked(_, _, Confirm(try), _) => try
    case Claiming(_, _, Confirm(try)) => try
    case Opening(_, _, Confirm(try)) => try
    case Inside(_, _, Confirm(try)) => try
    case Leaving(_, _, Again(try, _)) => try
    case Exiting(_, _, Again(try, _)) => try
    case Unlocking(_, Again(try, _)) => try
    case _ => 0
  }

  /** A lookup that no failure has sent to run without a lock: it holds one, or will. */
  predicate Locked(pc: Pc) {
    match pc
    case Direct => false
    case Entering(key, _, _) => key.Some?
    case Parked(key, _, _, _) => key.Some?
    case Claiming(key, _, _) => key.Some?
    case Opening(key, _, _) => key.Some?
    case Inside(key, _, _) => key.Some?
    case Leaving(key, _, next) => key.Some? && next != Fallback
    case Exiting(key, _, next) => key.Some? && next != Fallback
    case Unlocking(_, next) => next != Fallback
    case _ => true
  }

  lemma ActionStaysLocked(v: View, pc: Pc, choice: Choice, o: Outcome)
    requires Act(v, pc, choice) == Some(o) && Locked(pc) && Attempt(pc) < 3 && !Fails(choice)
    requires v.session.cached && v.check.reusable
    ensures Locked(o.pc)
    ensures Attempt(o.pc) <= Attempt(pc) + if choice == Changed then 1 else 0
  {
  }

  /** A check the run reuses results for executes under the result lock of its key, unless a step
      of its own failed or three fingerprints in a row changed under it. */
  lemma {:induction false} LookupsKeepTheirLock(cfg: Config, run: seq<State>, script: seq<Deed>, a: Actor, n: nat)
    requires IsScripted(cfg, run, script) && n < |run| && IsActor(cfg, a)
    requires SessionOf(cfg, a).cached && CheckOf(cfg, a).reusable
    requires forall k :: 0 <= k < n && script[k].Acts? && script[k].a == a ==> !Fails(script[k].choice)
    requires Changes(script, a, n) < 3
    ensures a in run[n].pcs && Locked(run[n].pcs[a]) && Attempt(run[n].pcs[a]) <= Changes(script, a, n)
    ensures Executes(run[n].pcs[a]) ==> run[n].pcs[a].key.Some?
  {
    hide Act;
    hide Locked;
    hide Attempt;
    RestingIsLocked();
    if n > 0 {
      LookupsKeepTheirLock(cfg, run, script, a, n - 1);
      var s, m := run[n - 1], script[n - 1];
      assert Follows(cfg, s, run[n], m);
      if m.Acts? && m.a == a {
        ActionStaysLocked(ViewOf(cfg, s, a), s.pcs[a], m.choice, Act(ViewOf(cfg, s, a), s.pcs[a], m.choice).value);
      }
    }
  }

  lemma RestingIsLocked()
    ensures Locked(Waiting) && Locked(Dead) && Attempt(Waiting) == Attempt(Dead) == 0
    ensures forall pc :: Locked(pc) && Executes(pc) ==> pc.key.Some?
  {
  }

  /** A lookup that never begins: no lock, and no fingerprint. */
  predicate Unlocked(pc: Pc) {
    LockOf(pc).None? && !pc.Naming? && !pc.Locking? && (pc.Inside? ==> pc.phase.Execute?)
    && match pc
       case Entering(_, _, phase) => phase.Execute?
       case Parked(_, _, phase, _) => phase.Execute?
       case Claiming(_, _, phase) => phase.Execute?
       case Opening(_, _, phase) => phase.Execute?
       case Leaving(_, _, next) => next == Finish
       case Exiting(_, _, next) => next == Finish
       case _ => true
  }

  lemma ActionStaysUnlocked(v: View, pc: Pc, choice: Choice, o: Outcome)
    requires Act(v, pc, choice) == Some(o) && Unlocked(pc) && !(v.session.cached && v.check.reusable)
    ensures Unlocked(o.pc)
  {
  }

  /** A check without a cache directory, or whose results the run does not reuse, never takes a
      result lock nor loads a record. */
  lemma {:induction false} OthersNeverLookUp(cfg: Config, run: seq<State>, a: Actor, n: nat)
    requires IsRun(cfg, run) && n < |run| && IsActor(cfg, a)
    requires !(SessionOf(cfg, a).cached && CheckOf(cfg, a).reusable)
    ensures a in run[n].pcs && Unlocked(run[n].pcs[a])
  {
    hide Act;
    if n > 0 {
      OthersNeverLookUp(cfg, run, a, n - 1);
      var s, t := run[n - 1], run[n];
      assert Step(cfg, s, t);
      if b, choice :| ActorStep(cfg, s, t, b, choice) {
        if a == b {
          ActionStaysUnlocked(ViewOf(cfg, s, a), s.pcs[a], choice, Act(ViewOf(cfg, s, a), s.pcs[a], choice).value);
        }
      }
    }
  }
}
