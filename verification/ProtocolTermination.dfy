/** Every run ends, and every check that is not killed finishes. */
module ProtocolTermination {
  // A check does a bounded amount of work (at most three fingerprint attempts without its
  // workspace, three with it, and one run without a result lock), and a waiter that wakes in vain
  // parks again only after somebody else's work closed its channel.

  import opened Options
  import opened Protocol
  import opened ProtocolSafety
  import opened ProtocolProgress

  // ---- The work one check has left ----

  /** Work from the start of an attempt, retries included. */
  function AttemptWork(try: nat, gated: bool): nat {
    40 + (if try < 3 then 20 * (3 - try) else 0) + if gated then 0 else 100
  }

  function NextWork(next: Next): nat {
    match next
    case Again(try, gated) => AttemptWork(try, gated)
    case Fallback => 20
    case Finish => 2
  }

  /** What an attempt has left at step `done` of it; without a key it is a direct run. */
  function Remaining(key: Option<Key>, phase: Phase, gated: bool, done: nat): nat
    requires done <= 8
  {
    if key.Some? && phase.Confirm? then AttemptWork(phase.try, gated) - done else 20 - done
  }

  function Work(pc: Pc): nat {
    match pc
    case Waiting => 300
    case Ready => 290
    case Starting => 280
    case Naming(try, gated) => AttemptWork(try, gated)
    case Locking(try, gated, _) => AttemptWork(try, gated) - 1
    case Direct => 20
    case Entering(key, _, phase) => Remaining(key, phase, true, 2)
    case Parked(key, _, phase, _) => Remaining(key, phase, true, 3)
    case Claiming(key, _, phase) => Remaining(key, phase, true, 4)
    case Opening(key, _, phase) => Remaining(key, phase, true, 5)
    case Inside(key, workspace, phase) => Remaining(key, phase, workspace.Some?, 6)
    case Leaving(_, _, next) => NextWork(next) + 3
    case Exiting(_, _, next) => NextWork(next) + 2
    case Unlocking(_, next) => NextWork(next) + 1
    case Finishing => 2
    case Closing => 1
    case Finished => 0
    case Dead => 0
  }

  /** An attempt past its first fingerprint is one of the first three, and only a lookup
      confirms. */
  predicate Bounded(pc: Pc) {
    match pc
    case Locking(try, _, _) => try < 3
    case Entering(key, _, phase) => BoundedPhase(key, phase)
    case Parked(key, _, phase, _) => BoundedPhase(key, phase)
    case Claiming(key, _, phase) => BoundedPhase(key, phase)
    case Opening(key, _, phase) => BoundedPhase(key, phase)
    case Inside(key, _, phase) => BoundedPhase(key, phase) || (key.Some? && phase == Execute)
    case _ => true
  }

  predicate BoundedPhase(key: Option<Key>, phase: Phase) {
    if key.Some? then phase.Confirm? && phase.try < 3 else phase == Execute
  }

  predicate Reparks(pc: Pc, o: Outcome) {
    pc.Parked? && o.pc.Parked?
  }

  lemma ActionStaysBounded(v: View, pc: Pc, choice: Choice, o: Outcome)
    requires Act(v, pc, choice) == Some(o) && Bounded(pc)
    ensures Bounded(o.pc)
  {
  }

  lemma ConfirmingDoesWork(v: View, pc: Pc, choice: Choice, o: Outcome)
    requires Act(v, pc, choice) == Some(o) && Bounded(pc) && pc.Inside?
    ensures Work(o.pc) < Work(pc)
  {
  }

  lemma AtGateDoesWork(v: View, pc: Pc, choice: Choice, o: Outcome)
    requires Act(v, pc, choice) == Some(o) && Bounded(pc) && (pc.Entering? || pc.Parked? || pc.Claiming? || pc.Opening?)
    ensures if Reparks(pc, o) then Work(o.pc) == Work(pc) else Work(o.pc) < Work(pc)
  {
  }

  lemma ElsewhereDoesWork(v: View, pc: Pc, choice: Choice, o: Outcome)
    requires Act(v, pc, choice) == Some(o) && Bounded(pc)
    requires !(pc.Entering? || pc.Parked? || pc.Claiming? || pc.Opening? || pc.Inside?)
    ensures Work(o.pc) < Work(pc)
  {
  }

  /** Every action but waking in vain leaves its check less to do. */
  lemma ActionDoesWork(v: View, pc: Pc, choice: Choice, o: Outcome)
    requires Act(v, pc, choice) == Some(o) && Bounded(pc)
    ensures if Reparks(pc, o) then Work(o.pc) == Work(pc) else Work(o.pc) < Work(pc)
  {
    if pc.Inside? {
      ConfirmingDoesWork(v, pc, choice, o);
    } else if pc.Entering? || pc.Parked? || pc.Claiming? || pc.Opening? {
      AtGateDoesWork(v, pc, choice, o);
    } else {
      ElsewhereDoesWork(v, pc, choice, o);
    }
  }

  // ---- The work everyone has left ----

  ghost function Total(pcs: map<Actor, Pc>): nat
    decreases |pcs|
  {
    if pcs == map[] then 0
    else
      var a :| a in pcs;
      Work(pcs[a]) + Total(pcs - {a})
  }

  lemma {:induction false} TotalWithout(pcs: map<Actor, Pc>, a: Actor)
    requires a in pcs
    ensures Total(pcs) == Work(pcs[a]) + Total(pcs - {a})
    decreases |pcs|
  {
    var b :| b in pcs && Total(pcs) == Work(pcs[b]) + Total(pcs - {b});
    if b != a {
      TotalWithout(pcs - {b}, a);
      TotalWithout(pcs - {a}, b);
      assert pcs - {b} - {a} == pcs - {a} - {b};
    }
  }

  lemma TotalMoves(pcs: map<Actor, Pc>, a: Actor, pc: Pc)
    requires a in pcs
    ensures Total(pcs[a := pc]) == Total(pcs) - Work(pcs[a]) + Work(pc)
  {
    TotalWithout(pcs, a);
    TotalWithout(pcs[a := pc], a);
    assert pcs[a := pc] - {a} == pcs - {a};
  }

  /** The waiters whose channel is closed. */
  ghost function Woken(cfg: Config, s: State): set<Actor>
    requires Typed(cfg, s)
  {
    set a | a in s.pcs && s.pcs[a].Parked? && s.GateAt(PlaceOf(cfg, a)).wake != Some(s.pcs[a].channel)
  }

  ghost function Measure(cfg: Config, s: State): nat
    requires Typed(cfg, s)
  {
    Total(s.pcs) * (|Actors(cfg)| + 1) + |Woken(cfg, s)|
  }

  ghost predicate AllBounded(s: State) {
    forall a :: a in s.pcs ==> Bounded(s.pcs[a])
  }

  lemma WokenAreActors(cfg: Config, s: State)
    requires Typed(cfg, s)
    ensures |Woken(cfg, s)| <= |Actors(cfg)|
  {
    SubsetIsSmaller(Woken(cfg, s), Actors(cfg));
  }

  lemma {:induction false} SubsetIsSmaller(small: set<Actor>, large: set<Actor>)
    requires small <= large
    ensures |small| <= |large|
    decreases small
  {
    if small != {} {
      var a :| a in small;
      SubsetIsSmaller(small - {a}, large - {a});
    }
  }

  lemma ActionReparks(v: View, pc: Pc, choice: Choice, o: Outcome)
    requires Act(v, pc, choice) == Some(o) && Reparks(pc, o)
    ensures v.gate.wake != Some(pc.channel) && o.gate.wake == Some(o.pc.channel)
    ensures v.gate.wake.Some? ==> o.gate.wake == v.gate.wake
  {
  }

  lemma ReparkingUsesUpAWakeUp(cfg: Config, s: State, t: State, a: Actor, o: Outcome)
    requires Typed(cfg, s) && Typed(cfg, t) && a in s.pcs && IsActor(cfg, a) && t == Apply(cfg, s, a, o)
    requires Reparks(s.pcs[a], o)
    requires var g := s.GateAt(PlaceOf(cfg, a));
             g.wake != Some(s.pcs[a].channel) && o.gate.wake == Some(o.pc.channel) && (g.wake.Some? ==> o.gate.wake == g.wake)
    ensures |Woken(cfg, t)| < |Woken(cfg, s)|
  {
    forall b | b in Woken(cfg, t) ensures b in Woken(cfg, s) - {a} {
      assert t.GateAt(PlaceOf(cfg, b)) == if PlaceOf(cfg, b) == PlaceOf(cfg, a) then o.gate else s.GateAt(PlaceOf(cfg, b));
    }
    SubsetIsSmaller(Woken(cfg, t), Woken(cfg, s) - {a});
    assert a in Woken(cfg, s);
  }

  /** What an action does to the work left, whatever action it was. */
  ghost predicate WorkDone(cfg: Config, s: State, t: State, a: Actor, o: Outcome) {
    && Typed(cfg, s) && Typed(cfg, t) && a in s.pcs && IsActor(cfg, a) && t == Apply(cfg, s, a, o)
    && Bounded(o.pc)
    && if Reparks(s.pcs[a], o) then
         var g := s.GateAt(PlaceOf(cfg, a));
         && Work(o.pc) == Work(s.pcs[a])
         && g.wake != Some(s.pcs[a].channel) && o.gate.wake == Some(o.pc.channel) && (g.wake.Some? ==> o.gate.wake == g.wake)
       else Work(o.pc) < Work(s.pcs[a])
  }

  lemma ActionsDoWork(cfg: Config, s: State, t: State, a: Actor, choice: Choice) returns (o: Outcome)
    requires Typed(cfg, s) && Typed(cfg, t) && AllBounded(s) && ActorStep(cfg, s, t, a, choice)
    ensures WorkDone(cfg, s, t, a, o)
  {
    var v, pc := ViewOf(cfg, s, a), s.pcs[a];
    o := Act(v, pc, choice).value;
    ActionStaysBounded(v, pc, choice, o);
    ActionDoesWork(v, pc, choice, o);
    if Reparks(pc, o) {
      ActionReparks(v, pc, choice, o);
    }
  }

  lemma WorkStaysBounded(cfg: Config, s: State, t: State, a: Actor, o: Outcome)
    requires AllBounded(s) && WorkDone(cfg, s, t, a, o)
    ensures AllBounded(t)
  {
  }

  lemma WorkMeasuresDown(cfg: Config, s: State, t: State, a: Actor, o: Outcome)
    requires WorkDone(cfg, s, t, a, o)
    ensures Measure(cfg, t) < Measure(cfg, s)
  {
    var before, after := Total(s.pcs), Total(t.pcs);
    assert after == before - Work(s.pcs[a]) + Work(o.pc) by {
      TotalMoves(s.pcs, a, o.pc);
    }
    assert |Woken(cfg, t)| <= |Actors(cfg)| by {
      WokenAreActors(cfg, t);
    }
    assert after < before || (after == before && |Woken(cfg, t)| < |Woken(cfg, s)|) by {
      if Reparks(s.pcs[a], o) {
        ReparkingUsesUpAWakeUp(cfg, s, t, a, o);
      }
    }
    if after < before {
      Lesser(after, before, |Actors(cfg)| + 1, |Woken(cfg, t)|, |Woken(cfg, s)|);
    }
  }

  lemma Lesser(x: nat, y: nat, n: nat, j: nat, k: nat)
    requires x < y && j < n
    ensures x * n + j < y * n + k
  {
    assert (x + 1) * n <= y * n;
  }

  /** Every step of every check brings the end nearer. */
  lemma StepsMeasureDown(cfg: Config, s: State, t: State)
    requires Typed(cfg, s) && Typed(cfg, t) && AllBounded(s) && CheckStep(cfg, s, t)
    ensures AllBounded(t)
    ensures Measure(cfg, t) < Measure(cfg, s)
  {
    var a, choice :| ActorStep(cfg, s, t, a, choice);
    var o := ActionsDoWork(cfg, s, t, a, choice);
    WorkStaysBounded(cfg, s, t, a, o);
    WorkMeasuresDown(cfg, s, t, a, o);
  }

  // ---- Whole runs ----

  lemma StepKeepsBounded(cfg: Config, s: State, t: State)
    requires Typed(cfg, s) && Typed(cfg, t) && AllBounded(s) && Step(cfg, s, t)
    ensures AllBounded(t)
  {
    if CheckStep(cfg, s, t) {
      StepsMeasureDown(cfg, s, t);
    }
  }

  lemma RunsAreTyped(cfg: Config, run: seq<State>, n: nat)
    requires cfg.Valid() && IsRun(cfg, run) && n < |run|
    ensures Typed(cfg, run[n])
  {
    RunsKeepInv(cfg, run, n);
  }

  lemma {:induction false} RunsStayBounded(cfg: Config, run: seq<State>, n: nat)
    requires cfg.Valid() && IsRun(cfg, run) && n < |run|
    ensures Typed(cfg, run[n]) && AllBounded(run[n])
  {
    RunsAreTyped(cfg, run, n);
    if n > 0 {
      RunsStayBounded(cfg, run, n - 1);
      StepKeepsBounded(cfg, run[n - 1], run[n]);
    }
  }

  lemma ReachableBounded(cfg: Config, s: State)
    requires cfg.Valid() && Reachable(cfg, s)
    ensures Typed(cfg, s) && AllBounded(s)
  {
    var run :| IsRun(cfg, run) && run[|run| - 1] == s;
    RunsStayBounded(cfg, run, |run| - 1);
  }

  lemma StepsStayReachable(cfg: Config, s: State, t: State)
    requires Reachable(cfg, s) && Step(cfg, s, t)
    ensures Reachable(cfg, t)
  {
    var run :| IsRun(cfg, run) && run[|run| - 1] == s;
    assert IsRun(cfg, run + [t]);
  }

  /** A stretch of a run in which no process is killed. */
  ghost predicate IsStretch(cfg: Config, run: seq<State>) {
    |run| > 0 && forall n :: 0 < n < |run| ==> CheckStep(cfg, run[n - 1], run[n])
  }

  /** No run goes on for ever: without another kill, at most Measure more steps happen,
      whatever the interleaving and whatever fails or is cancelled. */
  lemma {:induction false} StretchesEnd(cfg: Config, run: seq<State>)
    requires cfg.Valid() && IsStretch(cfg, run) && Reachable(cfg, run[0])
    ensures Typed(cfg, run[0]) && |run| <= Measure(cfg, run[0]) + 1
    decreases |run|
  {
    ReachableBounded(cfg, run[0]);
    if |run| > 1 {
      StepsStayReachable(cfg, run[0], run[1]);
      ReachableBounded(cfg, run[1]);
      StepsMeasureDown(cfg, run[0], run[1]);
      StretchesEnd(cfg, run[1..]);
    }
  }

  ghost predicate Final(cfg: Config, s: State) {
    forall t :: !CheckStep(cfg, s, t)
  }

  /** A stretch nothing can extend ends with every check finished or its process killed. */
  lemma MaximalStretchesFinish(cfg: Config, run: seq<State>, a: Actor)
    requires cfg.Valid() && IsStretch(cfg, run) && Reachable(cfg, run[|run| - 1])
    requires Final(cfg, run[|run| - 1])
    requires a in run[|run| - 1].pcs && IsActor(cfg, a)
    ensures !Unfinished(run[|run| - 1].pcs[a])
  {
    var last := run[|run| - 1];
    if Unfinished(last.pcs[a]) {
      StepExists(cfg, last, a);
    }
  }

  lemma StepExists(cfg: Config, s: State, a: Actor)
    requires cfg.Valid() && Reachable(cfg, s)
    requires a in s.pcs && IsActor(cfg, a) && Unfinished(s.pcs[a])
    ensures exists t :: CheckStep(cfg, s, t)
  {
    DeadlockFree(cfg, s, a);
    var b, choice, t :| !Fails(choice) && ActorStep(cfg, s, t, b, choice);
    assert CheckStep(cfg, s, t);
  }
}
