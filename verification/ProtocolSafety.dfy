/** Safety of the concurrent protocol over every run. */
module ProtocolSafety {
  // The invariant holds in each reachable state, and from it come exclusion in a source's tree,
  // slot bounds, preparation order and the gate's promises to its waiters.

  import opened Options
  import opened WorkspaceGate
  import opened Protocol

  function Count(b: bool): int {
    if b then 1 else 0
  }

  // ---- What one action does to the counters it can see ----

  /** The gate's counters move exactly as the actor's roles do. */
  lemma ActionCountsGate(v: View, pc: Pc, choice: Choice, o: Outcome)
    requires Act(v, pc, choice) == Some(o)
    requires v.gate.writer ==> v.gate.readers == 0
    requires ThroughGate(pc) && GateMode(pc) ==> v.gate.writer
    ensures o.gate.readers - v.gate.readers == Count(Plays(v.session.cached, Reader, o.pc)) - Count(Plays(v.session.cached, Reader, pc))
    ensures Count(o.gate.writer) - Count(v.gate.writer) == Count(Plays(v.session.cached, Writer, o.pc)) - Count(Plays(v.session.cached, Writer, pc))
    ensures o.gate.queued - v.gate.queued == Count(Plays(v.session.cached, Queuer, o.pc)) - Count(Plays(v.session.cached, Queuer, pc))
  {
  }

  lemma ActionKeepsGateAlone(v: View, pc: Pc, choice: Choice, o: Outcome)
    requires Act(v, pc, choice) == Some(o)
    requires v.gate.writer ==> v.gate.readers == 0
    requires v.gate.wake.Some? ==> v.gate.wake.value < v.gate.made
    requires ThroughGate(pc) && !GateMode(pc) ==> !v.gate.writer
    ensures o.gate.writer ==> o.gate.readers == 0
    ensures o.gate.wake.Some? ==> o.gate.wake.value < o.gate.made
    ensures v.gate.made <= o.gate.made
  {
  }

  /** A waiter parked on the current channel that could not enter still cannot, unless the
      action closed its channel. */
  lemma ActionKeepsWaiters(v: View, pc: Pc, choice: Choice, o: Outcome, channel: nat, ex: bool)
    requires Act(v, pc, choice) == Some(o)
    requires v.gate.writer ==> v.gate.readers == 0
    requires v.gate.queued >= 0 && v.gate.readers >= 0 && channel < v.gate.made
    requires v.gate.wake == Some(channel) ==> !v.gate.Admits(ex)
    ensures o.gate.wake == Some(channel) ==> !o.gate.Admits(ex)
  {
  }

  /** An actor that parks does so on the current channel, unable to enter. */
  lemma ActionParks(v: View, pc: Pc, choice: Choice, o: Outcome)
    requires Act(v, pc, choice) == Some(o) && o.pc.Parked?
    requires v.gate.wake.Some? ==> v.gate.wake.value < v.gate.made
    ensures o.pc.channel < o.gate.made
    ensures o.gate.wake == Some(o.pc.channel) && !o.gate.Admits(o.pc.ex)
  {
  }

  ghost predicate HoldAgrees(hold: HoldState, file: Option<nat>, proc: nat) {
    (hold.locked <==> hold.holders > 0) && (hold.holders > 0 <==> file == Some(proc)) && hold.holders >= 0
  }

  lemma ActionCountsHold(v: View, pc: Pc, choice: Choice, o: Outcome)
    requires Act(v, pc, choice) == Some(o)
    requires HoldAgrees(v.hold, v.file, v.session.proc)
    requires pc.Opening? ==> v.hold.taken
    requires Plays(v.session.cached, Holder, pc) ==> v.hold.holders > 0
    requires pc.Claiming? || pc.Opening? || pc.Leaving? ==> v.session.cached
    ensures o.hold.holders - v.hold.holders == Count(Plays(v.session.cached, Holder, o.pc)) - Count(Plays(v.session.cached, Holder, pc))
    ensures Count(o.hold.taken) - Count(v.hold.taken) == Count(Plays(v.session.cached, Opener, o.pc)) - Count(Plays(v.session.cached, Opener, pc))
    ensures HoldAgrees(o.hold, o.file, v.session.proc)
    ensures o.file == v.file || (v.file == None && o.file == Some(v.session.proc)) || (v.file == Some(v.session.proc) && o.file == None)
  {
  }

  lemma ActionMovesLock(v: View, pc: Pc, choice: Choice, o: Outcome)
    requires Act(v, pc, choice) == Some(o)
    ensures match o.lock
            case Keep => LockOf(o.pc) == LockOf(pc)
            case Take(k) => pc.Locking? && v.lockFree && pc.lock == k && LockOf(pc) == None && LockOf(o.pc) == Some(k)
            case Drop(k) => LockOf(pc) == Some(k) && LockOf(o.pc) == None
  {
  }

  lemma ActionCountsSlots(v: View, pc: Pc, choice: Choice, o: Outcome)
    requires Act(v, pc, choice) == Some(o)
    requires v.used <= v.session.workers
    ensures o.used - v.used == Count(Plays(v.session.cached, Slotted, o.pc)) - Count(Plays(v.session.cached, Slotted, pc))
    ensures o.used <= v.session.workers
  {
  }

  lemma ActionKeepsOrder(v: View, pc: Pc, choice: Choice, o: Outcome)
    requires Act(v, pc, choice) == Some(o)
    requires pc.Claiming? || pc.Opening? || pc.Leaving? ==> v.session.cached
    ensures !o.pc.Waiting? && !o.pc.Dead? && pc != Finished && pc != Dead
    ensures pc.Waiting? ==> v.turn
    ensures o.pc.Claiming? || o.pc.Opening? || o.pc.Leaving? ==> v.session.cached
  {
  }

  // ---- The invariant is kept ----

  lemma RoleIsCounted(cfg: Config, s: State, a: Actor, role: Role, site: Site)
    requires Typed(cfg, s) && a in s.pcs && InRole(cfg, role, site, a, s.pcs[a])
    ensures |Who(cfg, s.pcs, role, site)| > 0
  {
    assert a in Who(cfg, s.pcs, role, site);
  }

  ghost predicate Stepped(cfg: Config, s: State, t: State, a: Actor, choice: Choice, o: Outcome) {
    && Inv(cfg, s) && a in s.pcs && IsActor(cfg, a)
    && Act(ViewOf(cfg, s, a), s.pcs[a], choice) == Some(o)
    && t == Apply(cfg, s, a, o) && Typed(cfg, t)
  }

  /** What an action does to its gate, whatever action it was. */
  ghost predicate GateMoved(cfg: Config, s: State, t: State, a: Actor, o: Outcome) {
    && Typed(cfg, s) && Typed(cfg, t) && a in s.pcs && IsActor(cfg, a) && t == Apply(cfg, s, a, o)
    && var v, pc := ViewOf(cfg, s, a), s.pcs[a];
    && o.gate.readers - v.gate.readers == Count(Plays(v.session.cached, Reader, o.pc)) - Count(Plays(v.session.cached, Reader, pc))
    && Count(o.gate.writer) - Count(v.gate.writer) == Count(Plays(v.session.cached, Writer, o.pc)) - Count(Plays(v.session.cached, Writer, pc))
    && o.gate.queued - v.gate.queued == Count(Plays(v.session.cached, Queuer, o.pc)) - Count(Plays(v.session.cached, Queuer, pc))
    && (o.gate.writer ==> o.gate.readers == 0)
    && (o.gate.wake.Some? ==> o.gate.wake.value < o.gate.made) && v.gate.made <= o.gate.made
    && (o.pc.Parked? ==> o.pc.channel < o.gate.made && !o.gate.Admits(o.pc.ex))
    && (forall b :: b in s.pcs && b != a && PlaceOf(cfg, b) == PlaceOf(cfg, a) && s.pcs[b].Parked? ==>
          o.gate.wake == Some(s.pcs[b].channel) ==> !o.gate.Admits(s.pcs[b].ex))
  }

  lemma MovesGate(cfg: Config, s: State, t: State, a: Actor, choice: Choice, o: Outcome)
    requires Stepped(cfg, s, t, a, choice, o)
    ensures GateMoved(cfg, s, t, a, o)
  {
    hide Act;
    var v, pc, p := ViewOf(cfg, s, a), s.pcs[a], PlaceOf(cfg, a);
    assert GateInv(cfg, s, p);
    if Plays(v.session.cached, Writer, pc) {
      RoleIsCounted(cfg, s, a, Writer, AtPlace(p));
    }
    if Plays(v.session.cached, Reader, pc) {
      RoleIsCounted(cfg, s, a, Reader, AtPlace(p));
    }
    ActionCountsGate(v, pc, choice, o);
    ActionKeepsGateAlone(v, pc, choice, o);
    if o.pc.Parked? {
      ActionParks(v, pc, choice, o);
    }
    forall b | b in s.pcs && b != a && PlaceOf(cfg, b) == p && s.pcs[b].Parked?
      ensures o.gate.wake == Some(s.pcs[b].channel) ==> !o.gate.Admits(s.pcs[b].ex)
    {
      ActionKeepsWaiters(v, pc, choice, o, s.pcs[b].channel, s.pcs[b].ex);
    }
  }

  lemma KeepsGate(cfg: Config, s: State, t: State, a: Actor, o: Outcome, p: Place)
    requires GateMoved(cfg, s, t, a, o) && GateInv(cfg, s, p)
    ensures GateInv(cfg, t, p)
  {
    hide Who;
    hide Plays;
    Move(cfg, s.pcs, a, o.pc, Reader, AtPlace(p));
    Move(cfg, s.pcs, a, o.pc, Writer, AtPlace(p));
    Move(cfg, s.pcs, a, o.pc, Queuer, AtPlace(p));
    if PlaceOf(cfg, a) != p {
      assert t.GateAt(p) == s.GateAt(p);
    } else {
      assert t.GateAt(p) == o.gate;
    }
  }

  /** What an action does to the hold and the file lock, whatever action it was. */
  ghost predicate HoldMoved(cfg: Config, s: State, t: State, a: Actor, o: Outcome) {
    && Typed(cfg, s) && Typed(cfg, t) && a in s.pcs && IsActor(cfg, a) && t == Apply(cfg, s, a, o)
    && var v := ViewOf(cfg, s, a);
    && HoldAgrees(o.hold, o.file, v.session.proc)
    && o.hold.holders - v.hold.holders == Count(Plays(v.session.cached, Holder, o.pc)) - Count(Plays(v.session.cached, Holder, s.pcs[a]))
    && Count(o.hold.taken) - Count(v.hold.taken) == Count(Plays(v.session.cached, Opener, o.pc)) - Count(Plays(v.session.cached, Opener, s.pcs[a]))
    && (o.file == v.file || (v.file == None && o.file == Some(v.session.proc)) || (v.file == Some(v.session.proc) && o.file == None))
  }

  lemma MovesHold(cfg: Config, s: State, t: State, a: Actor, choice: Choice, o: Outcome)
    requires Stepped(cfg, s, t, a, choice, o)
    ensures HoldMoved(cfg, s, t, a, o)
  {
    HoldOfActor(cfg, s, a);
    ActionCountsHold(ViewOf(cfg, s, a), s.pcs[a], choice, o);
  }

  lemma KeepsHold(cfg: Config, s: State, t: State, a: Actor, o: Outcome, p: Place)
    requires HoldMoved(cfg, s, t, a, o) && HoldInv(cfg, s, p)
    ensures HoldInv(cfg, t, p)
  {
    var mine := PlaceOf(cfg, a);
    Move(cfg, s.pcs, a, o.pc, Holder, AtPlace(p));
    Move(cfg, s.pcs, a, o.pc, Opener, AtPlace(p));
    assert t.FileOwner(p.source) == if p.source == mine.source then o.file else s.FileOwner(p.source);
    assert t.HoldAt(p) == if p == mine then o.hold else s.HoldAt(p);
  }

  /** An actor's roles at its own place are visible in the hold. */
  lemma HoldOfActor(cfg: Config, s: State, a: Actor)
    requires Inv(cfg, s) && a in s.pcs && IsActor(cfg, a)
    ensures var v := ViewOf(cfg, s, a);
            && HoldAgrees(v.hold, v.file, v.session.proc)
            && (s.pcs[a].Opening? ==> v.hold.taken)
            && (Plays(v.session.cached, Holder, s.pcs[a]) ==> v.hold.holders > 0)
            && (s.pcs[a].Claiming? || s.pcs[a].Opening? || s.pcs[a].Leaving? ==> v.session.cached)
  {
    var mine := PlaceOf(cfg, a);
    assert HoldInv(cfg, s, mine);
    if s.pcs[a].Opening? {
      RoleIsCounted(cfg, s, a, Opener, AtPlace(mine));
    }
    if Plays(SessionOf(cfg, a).cached, Holder, s.pcs[a]) {
      RoleIsCounted(cfg, s, a, Holder, AtPlace(mine));
    }
  }

  ghost predicate LockMoved(cfg: Config, s: State, t: State, a: Actor, o: Outcome) {
    && Inv(cfg, s) && a in s.pcs && IsActor(cfg, a) && t == Apply(cfg, s, a, o)
    && match o.lock
       case Keep => LockOf(o.pc) == LockOf(s.pcs[a])
       case Take(k) => k !in s.locks && LockOf(s.pcs[a]) == None && LockOf(o.pc) == Some(k)
       case Drop(k) => LockOf(s.pcs[a]) == Some(k) && LockOf(o.pc) == None
  }

  lemma LockStaysOwned(cfg: Config, s: State, t: State, a: Actor, o: Outcome, b: Actor, k: Key)
    requires LockMoved(cfg, s, t, a, o)
    requires b in t.pcs && LockOf(t.pcs[b]) == Some(k)
    ensures k in t.locks && t.locks[k] == b
  {
    if b != a {
      assert s.pcs[b] == t.pcs[b];
      assert k in s.locks && s.locks[k] == b;
    }
  }

  lemma LockStaysHeld(cfg: Config, s: State, t: State, a: Actor, o: Outcome, k: Key)
    requires LockMoved(cfg, s, t, a, o)
    requires k in t.locks
    ensures t.locks[k] in t.pcs && LockOf(t.pcs[t.locks[k]]) == Some(k)
  {
    if o.lock != Take(k) {
      assert k in s.locks && t.locks[k] == s.locks[k];
      assert LockOf(s.pcs[s.locks[k]]) == Some(k);
    }
  }

  lemma MovesLock(cfg: Config, s: State, t: State, a: Actor, choice: Choice, o: Outcome)
    requires Stepped(cfg, s, t, a, choice, o)
    ensures LockMoved(cfg, s, t, a, o)
  {
    ActionMovesLock(ViewOf(cfg, s, a), s.pcs[a], choice, o);
  }

  lemma KeepsLock(cfg: Config, s: State, t: State, a: Actor, o: Outcome)
    requires LockMoved(cfg, s, t, a, o) && Typed(cfg, t)
    ensures LockInv(cfg, t)
  {
    forall b, k | b in t.pcs && LockOf(t.pcs[b]) == Some(k) ensures k in t.locks && t.locks[k] == b {
      LockStaysOwned(cfg, s, t, a, o, b, k);
    }
    forall k | k in t.locks ensures t.locks[k] in t.pcs && LockOf(t.pcs[t.locks[k]]) == Some(k) {
      LockStaysHeld(cfg, s, t, a, o, k);
    }
  }

  lemma KeepsSlot(cfg: Config, s: State, t: State, a: Actor, choice: Choice, o: Outcome)
    requires Stepped(cfg, s, t, a, choice, o)
    ensures SlotInv(cfg, t)
  {
    ActionCountsSlots(ViewOf(cfg, s, a), s.pcs[a], choice, o);
    forall r | 0 <= r < |cfg.sessions|
      ensures t.UsedBy(r) == |Who(cfg, t.pcs, Slotted, AtSession(r))| && t.UsedBy(r) <= cfg.sessions[r].workers
    {
      Move(cfg, s.pcs, a, o.pc, Slotted, AtSession(r));
    }
  }

  lemma KeepsOrder(cfg: Config, s: State, t: State, a: Actor, choice: Choice, o: Outcome)
    requires Stepped(cfg, s, t, a, choice, o)
    ensures OrderInv(cfg, t)
  {
    ActionKeepsOrder(ViewOf(cfg, s, a), s.pcs[a], choice, o);
  }

  lemma KeepsInv(cfg: Config, s: State, t: State, a: Actor, choice: Choice)
    requires Inv(cfg, s) && ActorStep(cfg, s, t, a, choice)
    ensures Inv(cfg, t)
  {
    var o := Act(ViewOf(cfg, s, a), s.pcs[a], choice).value;
    assert t.pcs.Keys == s.pcs.Keys;
    MovesGate(cfg, s, t, a, choice, o);
    forall p ensures GateInv(cfg, t, p) {
      KeepsGate(cfg, s, t, a, o, p);
    }
    MovesHold(cfg, s, t, a, choice, o);
    forall p ensures HoldInv(cfg, t, p) {
      KeepsHold(cfg, s, t, a, o, p);
    }
    MovesLock(cfg, s, t, a, choice, o);
    KeepsLock(cfg, s, t, a, o);
    KeepsSlot(cfg, s, t, a, choice, o);
    KeepsOrder(cfg, s, t, a, choice, o);
  }

  // ---- Crashes ----

  predicate SiteDies(cfg: Config, site: Site, proc: nat) {
    match site
    case AtSession(r) => r < |cfg.sessions| && cfg.sessions[r].proc == proc
    case AtPlace(p) => p.proc == proc
  }

  /** A killed process leaves nobody in any of its roles and touches no one else's. */
  lemma CrashEmptiesRoles(cfg: Config, s: State, proc: nat, role: Role, site: Site)
    requires Typed(cfg, s)
    ensures Who(cfg, Crash(cfg, s, proc).pcs, role, site) == if SiteDies(cfg, site, proc) then {} else Who(cfg, s.pcs, role, site)
  {
    var t := Crash(cfg, s, proc);
    forall a | a in s.pcs
      ensures InRole(cfg, role, site, a, t.pcs[a]) <==> !SiteDies(cfg, site, proc) && InRole(cfg, role, site, a, s.pcs[a])
    {
    }
  }

  lemma CrashKeepsGate(cfg: Config, s: State, proc: nat, p: Place)
    requires Typed(cfg, s) && Typed(cfg, Crash(cfg, s, proc)) && GateInv(cfg, s, p)
    ensures GateInv(cfg, Crash(cfg, s, proc), p)
  {
    CrashEmptiesRoles(cfg, s, proc, Reader, AtPlace(p));
    CrashEmptiesRoles(cfg, s, proc, Writer, AtPlace(p));
    CrashEmptiesRoles(cfg, s, proc, Queuer, AtPlace(p));
  }

  lemma CrashKeepsHold(cfg: Config, s: State, proc: nat, p: Place)
    requires Typed(cfg, s) && Typed(cfg, Crash(cfg, s, proc)) && HoldInv(cfg, s, p)
    ensures HoldInv(cfg, Crash(cfg, s, proc), p)
  {
    CrashEmptiesRoles(cfg, s, proc, Holder, AtPlace(p));
    CrashEmptiesRoles(cfg, s, proc, Opener, AtPlace(p));
  }

  lemma CrashKeepsSlots(cfg: Config, s: State, proc: nat)
    requires Typed(cfg, s) && Typed(cfg, Crash(cfg, s, proc)) && SlotInv(cfg, s)
    ensures SlotInv(cfg, Crash(cfg, s, proc))
  {
    var t := Crash(cfg, s, proc);
    forall r | 0 <= r < |cfg.sessions|
      ensures t.UsedBy(r) == |Who(cfg, t.pcs, Slotted, AtSession(r))| && t.UsedBy(r) <= cfg.sessions[r].workers
    {
      CrashEmptiesRoles(cfg, s, proc, Slotted, AtSession(r));
    }
  }

  lemma CrashKeepsOrder(cfg: Config, s: State, proc: nat)
    requires Typed(cfg, s) && Typed(cfg, Crash(cfg, s, proc)) && OrderInv(cfg, s)
    ensures OrderInv(cfg, Crash(cfg, s, proc))
  {
  }

  lemma CrashKeepsInv(cfg: Config, s: State, proc: nat)
    requires Inv(cfg, s)
    ensures Inv(cfg, Crash(cfg, s, proc))
  {
    var t := Crash(cfg, s, proc);
    assert t.pcs.Keys == s.pcs.Keys;
    forall p ensures GateInv(cfg, t, p) && HoldInv(cfg, t, p) {
      CrashKeepsGate(cfg, s, proc, p);
      CrashKeepsHold(cfg, s, proc, p);
    }
    CrashKeepsLocks(cfg, s, proc);
    CrashKeepsSlots(cfg, s, proc);
    CrashKeepsOrder(cfg, s, proc);
  }

  lemma CrashKeepsLocks(cfg: Config, s: State, proc: nat)
    requires Typed(cfg, s) && LockInv(cfg, s)
    ensures Typed(cfg, Crash(cfg, s, proc)) && LockInv(cfg, Crash(cfg, s, proc))
  {
    var t := Crash(cfg, s, proc);
    assert t.pcs.Keys == s.pcs.Keys;
    forall a, k | a in t.pcs && LockOf(t.pcs[a]) == Some(k) ensures k in t.locks && t.locks[k] == a {
      assert LockOf(s.pcs[a]) == Some(k);
    }
  }

  lemma InitInv(cfg: Config)
    requires cfg.Valid()
    ensures Inv(cfg, Init(cfg))
  {
    var s := Init(cfg);
    forall role, site ensures Who(cfg, s.pcs, role, site) == {} {
    }
    forall p ensures GateInv(cfg, s, p) && HoldInv(cfg, s, p) {
      assert Who(cfg, s.pcs, Reader, AtPlace(p)) == {};
    }
  }

  /** Every reachable state, whatever interleaving, outcome or crash led to it. */
  lemma {:induction false} RunsKeepInv(cfg: Config, run: seq<State>, n: nat)
    requires cfg.Valid() && IsRun(cfg, run) && n < |run|
    ensures Inv(cfg, run[n])
  {
    if n == 0 {
      InitInv(cfg);
    } else {
      RunsKeepInv(cfg, run, n - 1);
      var s, t := run[n - 1], run[n];
      assert Step(cfg, s, t);
      if a, choice :| ActorStep(cfg, s, t, a, choice) {
        KeepsInv(cfg, s, t, a, choice);
      } else {
        var proc :| t == Crash(cfg, s, proc);
        CrashKeepsInv(cfg, s, proc);
      }
    }
  }

  lemma ReachableInv(cfg: Config, s: State)
    requires cfg.Valid() && Reachable(cfg, s)
    ensures Inv(cfg, s)
  {
    var run :| IsRun(cfg, run) && run[|run| - 1] == s;
    RunsKeepInv(cfg, run, |run| - 1);
  }

  // ---- What the invariant promises ----

  /** The actor is in its source's tree: between acquire's return and the call to leave. */
  predicate InTree(pc: Pc) {
    pc.Inside? && pc.workspace.Some?
  }

  lemma TwoAreAtLeastTwo(who: set<Actor>, a: Actor, b: Actor)
    requires a in who && b in who && a != b
    ensures |who| >= 2
  {
    assert |who - {a}| == |who| - 1 && b in who - {a};
  }

  /** Whoever is in a tree exclusively is alone there within its process; and with a common
      cache directory no two processes are ever in one source together. */
  lemma TreeIsExclusive(cfg: Config, s: State, a: Actor, b: Actor)
    requires cfg.Valid() && Reachable(cfg, s)
    requires a in s.pcs && b in s.pcs && a != b && IsActor(cfg, a) && IsActor(cfg, b)
    requires InTree(s.pcs[a]) && InTree(s.pcs[b])
    requires SessionOf(cfg, a).source == SessionOf(cfg, b).source
    ensures PlaceOf(cfg, a) == PlaceOf(cfg, b) ==> !s.pcs[a].workspace.value && !s.pcs[b].workspace.value
    ensures SessionOf(cfg, a).cached && SessionOf(cfg, b).cached ==> PlaceOf(cfg, a) == PlaceOf(cfg, b)
  {
    ReachableInv(cfg, s);
    var pa, pb := PlaceOf(cfg, a), PlaceOf(cfg, b);
    assert GateInv(cfg, s, pa) && HoldInv(cfg, s, pa) && HoldInv(cfg, s, pb);
    if SessionOf(cfg, a).cached && SessionOf(cfg, b).cached {
      RoleIsCounted(cfg, s, a, Holder, AtPlace(pa));
      RoleIsCounted(cfg, s, b, Holder, AtPlace(pb));
    }
    if pa == pb {
      WritersAreAlone(cfg, s, a, b, pa);
      WritersAreAlone(cfg, s, b, a, pa);
    }
  }

  lemma WritersAreAlone(cfg: Config, s: State, a: Actor, b: Actor, p: Place)
    requires Typed(cfg, s) && GateInv(cfg, s, p)
    requires a in s.pcs && b in s.pcs && a != b && PlaceOf(cfg, a) == PlaceOf(cfg, b) == p
    requires ThroughGate(s.pcs[a]) && ThroughGate(s.pcs[b])
    ensures !GateMode(s.pcs[a])
  {
    if GateMode(s.pcs[a]) {
      RoleIsCounted(cfg, s, a, Writer, AtPlace(p));
      if GateMode(s.pcs[b]) {
        TwoAreAtLeastTwo(Who(cfg, s.pcs, Writer, AtPlace(p)), a, b);
      } else {
        RoleIsCounted(cfg, s, b, Reader, AtPlace(p));
      }
    }
  }

  /** A process owns a source's file lock whenever its hold has a holder. */
  lemma HoldersOwnTheFile(cfg: Config, s: State, p: Place)
    requires cfg.Valid() && Reachable(cfg, s)
    ensures s.HoldAt(p).holders > 0 <==> s.FileOwner(p.source) == Some(p.proc)
  {
    ReachableInv(cfg, s);
    assert HoldInv(cfg, s, p);
  }

  /** A release never waits behind an acquirer blocked in lockFile: whoever has the slot while
      someone is leaving can take its next step at once. */
  lemma ReleaseNeverWaitsForTheLock(cfg: Config, s: State, leaver: Actor, opener: Actor)
    requires cfg.Valid() && Reachable(cfg, s)
    requires leaver in s.pcs && opener in s.pcs && IsActor(cfg, leaver) && IsActor(cfg, opener)
    requires PlaceOf(cfg, leaver) == PlaceOf(cfg, opener)
    requires s.pcs[leaver].Leaving? && s.pcs[opener].Opening?
    ensures Act(ViewOf(cfg, s, opener), s.pcs[opener], Proceed).Some?
  {
    ReachableInv(cfg, s);
    HoldOfActor(cfg, s, leaver);
  }

  /** No lost wake-up: a waiter parked on the unclosed channel could not enter. */
  lemma ParkedCannotEnter(cfg: Config, s: State, a: Actor)
    requires cfg.Valid() && Reachable(cfg, s)
    requires a in s.pcs && IsActor(cfg, a) && s.pcs[a].Parked?
    requires s.GateAt(PlaceOf(cfg, a)).wake == Some(s.pcs[a].channel)
    ensures !s.GateAt(PlaceOf(cfg, a)).Admits(s.pcs[a].ex)
  {
    ReachableInv(cfg, s);
    assert GateInv(cfg, s, PlaceOf(cfg, a));
  }

  /** While a writer is queued no step raises the reader count. */
  lemma QueuedWriterHoldsBackReaders(cfg: Config, s: State, t: State, p: Place)
    requires cfg.Valid() && Reachable(cfg, s) && Step(cfg, s, t)
    requires s.GateAt(p).queued > 0
    ensures t.GateAt(p).readers <= s.GateAt(p).readers
  {
    if a, choice :| ActorStep(cfg, s, t, a, choice) {
      StepHoldsBackReaders(cfg, s, t, a, choice, p);
    } else {
      ReachableInv(cfg, s);
      assert GateInv(cfg, s, p);
    }
  }

  lemma StepHoldsBackReaders(cfg: Config, s: State, t: State, a: Actor, choice: Choice, p: Place)
    requires ActorStep(cfg, s, t, a, choice)
    requires s.GateAt(p).queued > 0
    ensures t.GateAt(p).readers <= s.GateAt(p).readers
  {
    var o := Act(ViewOf(cfg, s, a), s.pcs[a], choice).value;
    if PlaceOf(cfg, a) == p {
      ActionHoldsBackReaders(ViewOf(cfg, s, a), s.pcs[a], choice, o);
    } else {
      assert t.GateAt(p) == s.GateAt(p);
    }
  }

  lemma ActionHoldsBackReaders(v: View, pc: Pc, choice: Choice, o: Outcome)
    requires Act(v, pc, choice) == Some(o) && v.gate.queued > 0
    ensures o.gate.readers <= v.gate.readers
  {
  }

  /** At most `workers` checks of a session run at once, counting every one past its wait for
      a slot and not yet finished. */
  lemma SlotsBoundRunning(cfg: Config, s: State, r: nat)
    requires cfg.Valid() && Reachable(cfg, s) && r < |cfg.sessions|
    ensures Typed(cfg, s) && |Who(cfg, s.pcs, Slotted, AtSession(r))| <= cfg.sessions[r].workers
  {
    ReachableInv(cfg, s);
  }

  /** Checks that share a preparation run in plan order and never overlap. */
  lemma PreparationsRunInOrder(cfg: Config, s: State, earlier: Actor, later: Actor)
    requires cfg.Valid() && Reachable(cfg, s)
    requires earlier in s.pcs && later in s.pcs && IsActor(cfg, later) && Before(cfg, earlier, later)
    requires Plays(SessionOf(cfg, later).cached, Slotted, s.pcs[later])
    ensures s.pcs[earlier] == Finished
  {
    ReachableInv(cfg, s);
  }

  /** Two checks never hold one result lock, and an actor that holds none leaves none held. */
  lemma ResultLocksAreExclusive(cfg: Config, s: State, a: Actor, b: Actor, k: Key)
    requires cfg.Valid() && Reachable(cfg, s)
    requires a in s.pcs && b in s.pcs && LockOf(s.pcs[a]) == Some(k) && LockOf(s.pcs[b]) == Some(k)
    ensures a == b
  {
    ReachableInv(cfg, s);
  }

  /** A check between attempts, falling back to a direct run, or done holds nothing: no result
      lock, no gate, no place in the hold.  Every error path of lockedFingerprint ends here. */
  lemma ReleasedHoldsNothing(cfg: Config, s: State, a: Actor)
    requires cfg.Valid() && Reachable(cfg, s)
    requires a in s.pcs && IsActor(cfg, a)
    requires s.pcs[a].Naming? || s.pcs[a].Direct? || s.pcs[a].Finishing? || s.pcs[a].Closing? || s.pcs[a].Finished?
    ensures forall k :: k in s.locks ==> s.locks[k] != a
    ensures forall role: Role, p :: !role.Slotted? ==> Typed(cfg, s) && a !in Who(cfg, s.pcs, role, AtPlace(p))
  {
    ReachableInv(cfg, s);
  }
}
