/**
  Deadlock freedom: in every reachable state with an unfinished check some check can act,
  with no cancellation, failure or crash to help.
 */
module ProtocolProgress {
  // Waits follow one order (an earlier check with the same preparation, a slot, a result lock,
  // the gate, the file hold), and each lemma below climbs one rung of it.

  import opened Options
  import opened Protocol
  import opened ProtocolSafety

  ghost predicate CanAct(cfg: Config, s: State, a: Actor) {
    a in s.pcs && IsActor(cfg, a)
    && exists choice :: !Fails(choice) && Act(ViewOf(cfg, s, a), s.pcs[a], choice).Some?
  }

  ghost predicate Progresses(cfg: Config, s: State) {
    exists a :: CanAct(cfg, s, a)
  }

  predicate Unfinished(pc: Pc) {
    pc != Finished && pc != Dead
  }

  /** The places an actor waits; anywhere else its next action is its own. */
  predicate Waits(pc: Pc) {
    pc.Waiting? || pc.Ready? || pc.Locking? || pc.Parked? || pc.Claiming? || pc.Opening? || pc.Leaving?
  }

  lemma NobodyElseIsNeeded(cfg: Config, s: State, a: Actor)
    requires Inv(cfg, s) && a in s.pcs && IsActor(cfg, a)
    requires Unfinished(s.pcs[a]) && !Waits(s.pcs[a])
    ensures CanAct(cfg, s, a)
  {
    var v, pc := ViewOf(cfg, s, a), s.pcs[a];
    if pc.Naming? && pc.try < 3 {
      assert Act(v, pc, Name(0)).Some?;
    } else if pc.Inside? && pc.phase.Confirm? {
      assert Act(v, pc, Miss).Some?;
    } else {
      if pc.Finishing? {
        RoleIsCounted(cfg, s, a, Slotted, AtSession(a.session));
      }
      assert Act(v, pc, Proceed).Some?;
    }
  }

  lemma ProceedIsProgress(cfg: Config, s: State, a: Actor)
    requires a in s.pcs && IsActor(cfg, a) && Act(ViewOf(cfg, s, a), s.pcs[a], Proceed).Some?
    ensures Progresses(cfg, s)
  {
    assert CanAct(cfg, s, a);
  }

  /** Someone plays a role whenever its counter is positive. */
  lemma CountedRole(cfg: Config, s: State, role: Role, site: Site) returns (a: Actor)
    requires Typed(cfg, s) && |Who(cfg, s.pcs, role, site)| > 0
    ensures a in s.pcs && IsActor(cfg, a) && InRole(cfg, role, site, a, s.pcs[a])
  {
    a :| a in Who(cfg, s.pcs, role, site);
  }

  // ---- Rung 1: whoever holds the tree's file lock ----

  lemma HolderProgresses(cfg: Config, s: State, a: Actor)
    requires Inv(cfg, s) && a in s.pcs && IsActor(cfg, a)
    requires Plays(SessionOf(cfg, a).cached, Holder, s.pcs[a])
    ensures Progresses(cfg, s)
  {
    if s.pcs[a].Inside? {
      NobodyElseIsNeeded(cfg, s, a);
    } else if !s.HoldAt(PlaceOf(cfg, a)).taken {
      ProceedIsProgress(cfg, s, a);
    } else {
      var p := PlaceOf(cfg, a);
      assert HoldInv(cfg, s, p);
      var opener := CountedRole(cfg, s, Opener, AtPlace(p));
      RoleIsCounted(cfg, s, a, Holder, AtPlace(p));
      ProceedIsProgress(cfg, s, opener);
    }
  }

  // ---- Rung 2: whoever is taking the file lock, or waits for the hold's slot ----

  lemma OpenerProgresses(cfg: Config, s: State, a: Actor)
    requires Inv(cfg, s) && a in s.pcs && IsActor(cfg, a) && s.pcs[a].Opening?
    ensures Progresses(cfg, s)
  {
    var p := PlaceOf(cfg, a);
    if s.HoldAt(p).holders != 0 || s.FileOwner(p.source) == None {
      ProceedIsProgress(cfg, s, a);
    } else {
      var owner := Place(s.files[p.source], p.source);
      assert HoldInv(cfg, s, owner);
      var holder := CountedRole(cfg, s, Holder, AtPlace(owner));
      HolderProgresses(cfg, s, holder);
    }
  }

  lemma SlotWaiterProgresses(cfg: Config, s: State, a: Actor)
    requires Inv(cfg, s) && a in s.pcs && IsActor(cfg, a) && (s.pcs[a].Claiming? || s.pcs[a].Leaving?)
    ensures Progresses(cfg, s)
  {
    var p := PlaceOf(cfg, a);
    if !s.HoldAt(p).taken {
      ProceedIsProgress(cfg, s, a);
    } else {
      assert HoldInv(cfg, s, p);
      var opener := CountedRole(cfg, s, Opener, AtPlace(p));
      OpenerProgresses(cfg, s, opener);
    }
  }

  // ---- Rung 3: whoever is through the gate, or waits at it ----

  lemma ThroughGateProgresses(cfg: Config, s: State, a: Actor)
    requires Inv(cfg, s) && a in s.pcs && IsActor(cfg, a) && ThroughGate(s.pcs[a])
    ensures Progresses(cfg, s)
  {
    match s.pcs[a]
    case Claiming(_, _, _) => SlotWaiterProgresses(cfg, s, a);
    case Leaving(_, _, _) => SlotWaiterProgresses(cfg, s, a);
    case Opening(_, _, _) => OpenerProgresses(cfg, s, a);
    case _ => NobodyElseIsNeeded(cfg, s, a);
  }

  lemma ClosedGateProgresses(cfg: Config, s: State, p: Place)
    requires Inv(cfg, s) && (s.GateAt(p).writer || s.GateAt(p).readers != 0)
    ensures Progresses(cfg, s)
  {
    assert GateInv(cfg, s, p);
    var holder := CountedRole(cfg, s, if s.GateAt(p).writer then Writer else Reader, AtPlace(p));
    ThroughGateProgresses(cfg, s, holder);
  }

  /** A parked check is woken, or the gate's invariant says whom it waits for. */
  lemma ParkedProgresses(cfg: Config, s: State, a: Actor)
    requires Inv(cfg, s) && a in s.pcs && IsActor(cfg, a) && s.pcs[a].Parked?
    ensures Progresses(cfg, s)
  {
    var p := PlaceOf(cfg, a);
    assert GateInv(cfg, s, p);
    if s.GateAt(p).wake != Some(s.pcs[a].channel) {
      ProceedIsProgress(cfg, s, a);
    } else if s.GateAt(p).writer || s.GateAt(p).readers != 0 {
      ClosedGateProgresses(cfg, s, p);
    } else {
      var queued := CountedRole(cfg, s, Queuer, AtPlace(p));
      ProceedIsProgress(cfg, s, queued);
    }
  }

  // ---- Rung 4: whoever holds a result lock ----

  lemma LockHolderProgresses(cfg: Config, s: State, a: Actor)
    requires Inv(cfg, s) && a in s.pcs && IsActor(cfg, a) && LockOf(s.pcs[a]).Some?
    ensures Progresses(cfg, s)
  {
    if ThroughGate(s.pcs[a]) {
      ThroughGateProgresses(cfg, s, a);
    } else if s.pcs[a].Parked? {
      ParkedProgresses(cfg, s, a);
    } else {
      NobodyElseIsNeeded(cfg, s, a);
    }
  }

  // ---- Rung 5: whoever has a worker slot ----

  lemma SlottedProgresses(cfg: Config, s: State, a: Actor)
    requires Inv(cfg, s) && a in s.pcs && IsActor(cfg, a)
    requires Plays(SessionOf(cfg, a).cached, Slotted, s.pcs[a])
    ensures Progresses(cfg, s)
  {
    if s.pcs[a].Locking? {
      var k := s.pcs[a].lock;
      if k in s.locks {
        LockHolderProgresses(cfg, s, s.locks[k]);
      } else {
        ProceedIsProgress(cfg, s, a);
      }
    } else if LockOf(s.pcs[a]).Some? {
      LockHolderProgresses(cfg, s, a);
    } else if ThroughGate(s.pcs[a]) {
      ThroughGateProgresses(cfg, s, a);
    } else if s.pcs[a].Parked? {
      ParkedProgresses(cfg, s, a);
    } else {
      NobodyElseIsNeeded(cfg, s, a);
    }
  }

  // ---- Rung 6: whoever waits for a slot or for an earlier check ----

  lemma {:induction false} UnfinishedProgresses(cfg: Config, s: State, a: Actor)
    requires cfg.Valid() && Inv(cfg, s) && a in s.pcs && IsActor(cfg, a) && Unfinished(s.pcs[a])
    ensures Progresses(cfg, s)
    decreases a.index
  {
    if s.pcs[a].Waiting? {
      if b :| b in s.pcs && Before(cfg, b, a) && s.pcs[b] != Finished {
        assert Unfinished(s.pcs[b]);
        UnfinishedProgresses(cfg, s, b);
      } else {
        ProceedIsProgress(cfg, s, a);
      }
    } else if s.pcs[a].Ready? {
      if s.UsedBy(a.session) < SessionOf(cfg, a).workers {
        ProceedIsProgress(cfg, s, a);
      } else {
        var running := CountedRole(cfg, s, Slotted, AtSession(a.session));
        SlottedProgresses(cfg, s, running);
      }
    } else if s.pcs[a].Closing? {
      NobodyElseIsNeeded(cfg, s, a);
    } else {
      SlottedProgresses(cfg, s, a);
    }
  }

  /** No reachable state is stuck: any number of processes and sessions, any plans, any
      worker count of at least one, any history of cancellations, failures and crashes. */
  lemma DeadlockFree(cfg: Config, s: State, a: Actor)
    requires cfg.Valid() && Reachable(cfg, s)
    requires a in s.pcs && IsActor(cfg, a) && Unfinished(s.pcs[a])
    ensures exists b, choice, t :: !Fails(choice) && ActorStep(cfg, s, t, b, choice)
  {
    ReachableInv(cfg, s);
    UnfinishedProgresses(cfg, s, a);
    var b :| CanAct(cfg, s, b);
    var choice :| !Fails(choice) && Act(ViewOf(cfg, s, b), s.pcs[b], choice).Some?;
    assert ActorStep(cfg, s, Apply(cfg, s, b, Act(ViewOf(cfg, s, b), s.pcs[b], choice).value), b, choice);
  }
}
