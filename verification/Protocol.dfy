/** The concurrent run of internal/verify: run.go, cache.go and gate.go as one state machine. */
module Protocol {
  // Sessions in any number of processes execute a plan's checks in bounded slots (run.go), look
  // results up under per-key result locks (cache.go), and enter their working tree through the
  // gate and the shared file lock (gate.go).
  //
  // An actor is one check of one session.  Every step is one actor's, and every step is one atomic
  // action of the source: a channel operation, a critical section under a mutex, or a file lock
  // taken or dropped.  `Choice` is what the environment decides: a fingerprint, a cancellation or
  // failure, whether a record loads.

  import opened Options
  import opened WorkspaceGate

  // ---- What runs ----

  /** A planned check: whether its executor is native, whether it can write the tree
      (writesWorkspace) or restores artifacts, whether the run reuses results for it,
      whether it must execute again, and the digest of its preparation stage. */
  datatype Check = Check(native: bool, writes: bool, restores: bool, reusable: bool, rerun: bool, prep: Option<nat>)

  /** One session: the process it lives in, the source it verifies, whether it has a cache
      directory (one common directory), and its plan and slots. */
  datatype Session = Session(proc: nat, source: nat, cached: bool, workers: nat, plan: seq<Check>)

  const MAX_CHECK_PARALLELISM := 4

  /** checkParallelism, of n checks on some processors; jobs above zero is the caller's choice. */
  function CheckParallelism(n: int, jobs: int, processors: int): (limit: int)
    ensures 1 <= limit && (n >= 1 ==> limit <= n)
    ensures limit <= if jobs > 0 then jobs else MAX_CHECK_PARALLELISM
    ensures jobs <= 0 && limit > 1 ==> limit <= processors
    ensures limit < n ==> if jobs > 0 then limit == jobs else limit >= processors || limit == MAX_CHECK_PARALLELISM
  {
    if n <= 1 then 1
    else
      var default := if processors < MAX_CHECK_PARALLELISM then processors else MAX_CHECK_PARALLELISM;
      var chosen := if jobs > 0 then jobs else default;
      var limit := if chosen < 1 then 1 else chosen;
      if n < limit then n else limit
  }

  datatype Config = Config(sessions: seq<Session>) {
    /** CheckParallelism never answers less than one. */
    predicate Valid() {
      forall r :: 0 <= r < |sessions| ==> sessions[r].workers >= 1
    }
  }

  datatype Actor = Actor(session: nat, index: nat)

  /** A source as one process sees it: where its gate and its file hold live. */
  datatype Place = Place(proc: nat, source: nat)

  type Key = nat

  // ---- Where an actor is ----

  /** What lockedFingerprint's caller does once everything is released. */
  datatype Next = Again(try: nat, gated: bool) | Fallback | Finish

  datatype Phase = Confirm(try: nat) | Execute

  datatype Pc =
    | Waiting                                            // for earlier checks with its preparation
    | Ready                                              // to take a worker slot
    | Starting                                           // Execute: route not chosen yet
    | Naming(try: nat, gated: bool)                      // first fingerprint of an attempt
    | Locking(try: nat, gated: bool, lock: Key)          // lockFile on the result lock
    | Direct                                             // run: no result lock
    | Entering(key: Option<Key>, ex: bool, phase: Phase) // about to call gate.acquire
    | Parked(key: Option<Key>, ex: bool, phase: Phase, channel: nat)
    | Claiming(key: Option<Key>, ex: bool, phase: Phase) // wants the hold's slot
    | Opening(key: Option<Key>, ex: bool, phase: Phase)  // has it, and joins the file lock
    | Inside(key: Option<Key>, workspace: Option<bool>, phase: Phase)
    | Leaving(key: Option<Key>, ex: bool, next: Next)    // wants the hold's slot to leave it
    | Exiting(key: Option<Key>, ex: bool, next: Next)    // about to leave the gate
    | Unlocking(lock: Key, next: Next)                   // about to drop the result lock
    | Finishing                                          // about to free the slot
    | Closing                                            // about to close done
    | Finished                                           // done is closed
    | Dead                                               // its process was killed

  datatype State = State(
    pcs: map<Actor, Pc>,
    gates: map<Place, GateState>,
    holds: map<Place, HoldState>,
    files: map<nat, nat>,      // source -> process holding its workspace file lock
    locks: map<Key, Actor>,    // result locks held
    used: map<nat, nat>)       // session -> worker slots taken
  {
    function GateAt(p: Place): GateState {
      if p in gates then gates[p] else EMPTY_GATE
    }

    function HoldAt(p: Place): HoldState {
      if p in holds then holds[p] else HoldState(false, 0, false)
    }

    function FileOwner(source: nat): Option<nat> {
      if source in files then Some(files[source]) else None
    }

    function UsedBy(r: nat): nat {
      if r in used then used[r] else 0
    }
  }

  ghost predicate IsActor(cfg: Config, a: Actor) {
    a.session < |cfg.sessions| && a.index < |cfg.sessions[a.session].plan|
  }

  function Actors(cfg: Config): set<Actor> {
    set r: nat, i: nat | r < |cfg.sessions| && i < |cfg.sessions[r].plan| :: Actor(r, i)
  }

  function SessionOf(cfg: Config, a: Actor): Session
    requires IsActor(cfg, a)
  {
    cfg.sessions[a.session]
  }

  function CheckOf(cfg: Config, a: Actor): Check
    requires IsActor(cfg, a)
  {
    cfg.sessions[a.session].plan[a.index]
  }

  function PlaceOf(cfg: Config, a: Actor): Place
    requires IsActor(cfg, a)
  {
    Place(SessionOf(cfg, a).proc, SessionOf(cfg, a).source)
  }

  /** sharedPreparation between a check and an earlier one of the same session. */
  predicate Before(cfg: Config, earlier: Actor, later: Actor)
    requires IsActor(cfg, later)
  {
    && earlier.session == later.session && earlier.index < later.index
    && CheckOf(cfg, Actor(later.session, earlier.index)).prep.Some?
    && CheckOf(cfg, Actor(later.session, earlier.index)).prep == CheckOf(cfg, later).prep
  }

  // ---- Steps ----

  datatype Choice =
    | Proceed             // the action succeeds
    | Name(key: Key)      // a fingerprint
    | Stop                // an error while the context lives; a lookup falls back to running uncached
    | Cancel              // an ended context
    | Changed             // the second fingerprint differs
    | Hit                 // a record loads
    | Miss                // none does

  /** Where releasing everything leads. */
  function After(next: Next): Pc {
    match next
    case Again(try, gated) => Naming(try, gated)
    case Fallback => Direct
    case Finish => Finishing
  }

  function AfterWorkspace(key: Option<Key>, next: Next): Pc {
    if key.Some? then Unlocking(key.value, next) else After(next)
  }

  /** The release lockedFingerprint returns, or run's deferred leave, begins here. */
  function Release(cached: bool, key: Option<Key>, workspace: Option<bool>, next: Next): Pc {
    if workspace.None? then AfterWorkspace(key, next)
    else if cached then Leaving(key, workspace.value, next)
    else Exiting(key, workspace.value, next)
  }

  /** What a failed wait leads to: a lookup falls back unless cancelled, a run just ends. */
  function Failed(key: Option<Key>, choice: Choice): Next {
    if key.Some? && choice == Stop then Fallback else Finish
  }

  predicate Fails(choice: Choice) {
    choice == Stop || choice == Cancel
  }

  /** What an actor's next action can see: its session and check, its place's gate and hold,
      who has the source's file lock, whether the result lock it wants is free, its session's
      taken slots, and whether the earlier checks it waits for are finished. */
  datatype View = View(session: Session, check: Check, gate: GateState, hold: HoldState, file: Option<nat>,
                       lockFree: bool, used: nat, turn: bool)

  datatype LockMove = Keep | Take(taken: Key) | Drop(dropped: Key)

  datatype Outcome = Outcome(pc: Pc, gate: GateState, hold: HoldState, file: Option<nat>, lock: LockMove, used: nat)

  function To(v: View, pc: Pc): Outcome {
    Outcome(pc, v.gate, v.hold, v.file, Keep, v.used)
  }

  /** One turn at the gate, arriving or woken: in, or parked. */
  function GateTurn(v: View, g: GateState, key: Option<Key>, ex: bool, phase: Phase): Outcome {
    var pc := if !g.Admits(ex) then Parked(key, ex, phase, g.Park().wake.value)
              else if v.session.cached then Claiming(key, ex, phase)
              else Inside(key, Some(ex), phase);
    To(v, pc).(gate := g.Try(ex))
  }

  /** One atomic action, or None when it must wait or the choice does not apply. */
  function Act(v: View, pc: Pc, choice: Choice): Option<Outcome> {
    match pc
    case Waiting =>
      if choice == Proceed && v.turn then Some(To(v, Ready)) else None
    case Ready =>
      if choice == Proceed && v.used < v.session.workers then Some(To(v, Starting).(used := v.used + 1)) else None
    case Starting =>
      if choice == Cancel then Some(To(v, Finishing))
      else if choice != Proceed then None
      else if v.session.cached && v.check.reusable
      then Some(To(v, Naming(0, v.check.native && (v.check.rerun || v.check.restores))))
      else Some(To(v, Direct))
    case Naming(try, gated) =>
      if choice.Name? && try < 3 then Some(To(v, Locking(try, gated, choice.key)))
      else if choice == Proceed && try >= 3 then Some(To(v, Direct))
      else if Fails(choice) then Some(To(v, if choice == Stop then Direct else Finishing))
      else None
    case Locking(try, gated, key) =>
      if choice == Proceed && v.lockFree
      then Some(To(v, if gated then Entering(Some(key), v.check.writes || v.check.restores, Confirm(try))
                      else Inside(Some(key), None, Confirm(try))).(lock := Take(key)))
      else if Fails(choice) then Some(To(v, if choice == Stop then Direct else Finishing))
      else None
    case Direct =>
      if choice != Proceed then None
      else Some(To(v, if v.check.native then Entering(None, v.check.writes, Execute) else Inside(None, None, Execute)))
    case Entering(key, ex, phase) =>
      if choice == Proceed then Some(GateTurn(v, v.gate.Queue(ex), key, ex, phase)) else None
    case Parked(key, ex, phase, channel) =>
      if choice == Proceed && v.gate.wake != Some(channel) then Some(GateTurn(v, v.gate, key, ex, phase))
      else if choice == Cancel then Some(To(v, AfterWorkspace(key, Finish)).(gate := v.gate.Abandon(ex)))
      else None
    case Claiming(key, ex, phase) =>
      if choice == Proceed && !v.hold.taken
      then Some(To(v, Opening(key, ex, phase)).(hold := v.hold.(taken := true)))
      else if choice == Cancel then Some(To(v, Exiting(key, ex, Finish)))
      else None
    case Opening(key, ex, phase) =>
      if choice == Proceed && (v.hold.holders != 0 || v.file == None)
      then Some(To(v, Inside(key, Some(ex), phase)).(hold := v.hold.Join(), file := Some(v.session.proc)))
      else if Fails(choice) && v.hold.holders == 0
      then Some(To(v, Exiting(key, ex, Failed(key, choice))).(hold := v.hold.GiveUp()))
      else None
    case Inside(key, workspace, Confirm(try)) =>
      if choice == Changed then Some(To(v, Release(v.session.cached, key, workspace, Again(try + 1, workspace.Some?))))
      else if Fails(choice) then Some(To(v, Release(v.session.cached, key, workspace, Failed(key, choice))))
      else if choice == Hit && !v.check.rerun then Some(To(v, Release(v.session.cached, key, workspace, Finish)))
      else if choice == Miss
      then Some(To(v, if workspace.Some? || !v.check.native then Inside(key, workspace, Execute)
                      else Release(v.session.cached, key, workspace, Again(0, true))))
      else None
    case Inside(key, workspace, Execute) =>
      if choice == Proceed then Some(To(v, Release(v.session.cached, key, workspace, Finish))) else None
    case Leaving(key, ex, next) =>
      if choice == Proceed && !v.hold.taken
      then Some(To(v, Exiting(key, ex, next)).(
                  hold := v.hold.Drop(), file := if v.hold.holders == 1 then None else v.file))
      else None
    case Exiting(key, ex, next) =>
      if choice == Proceed then Some(To(v, AfterWorkspace(key, next)).(gate := v.gate.Leave(ex))) else None
    case Unlocking(key, next) =>
      if choice == Proceed then Some(To(v, After(next)).(lock := Drop(key))) else None
    case Finishing =>
      if choice == Proceed && v.used > 0 then Some(To(v, Closing).(used := v.used - 1)) else None
    case Closing =>
      if choice == Proceed then Some(To(v, Finished)) else None
    case Finished => None
    case Dead => None
  }

  /** The part of the state an actor's next action looks at. */
  function ViewOf(cfg: Config, s: State, a: Actor): View
    requires IsActor(cfg, a) && a in s.pcs
  {
    var place := PlaceOf(cfg, a);
    View(SessionOf(cfg, a), CheckOf(cfg, a), s.GateAt(place), s.HoldAt(place),
         s.FileOwner(place.source),
         s.pcs[a].Locking? ==> s.pcs[a].lock !in s.locks,
         s.UsedBy(a.session),
         forall b :: b in s.pcs && Before(cfg, b, a) ==> s.pcs[b] == Finished)
  }

  /** The state after an action. */
  function Apply(cfg: Config, s: State, a: Actor, o: Outcome): State
    requires IsActor(cfg, a)
  {
    var place := PlaceOf(cfg, a);
    State(
      s.pcs[a := o.pc],
      s.gates[place := o.gate],
      s.holds[place := o.hold],
      if o.file.Some? then s.files[place.source := o.file.value] else s.files - {place.source},
      match o.lock { case Keep => s.locks case Take(k) => s.locks[k := a] case Drop(k) => s.locks - {k} },
      s.used[a.session := o.used])
  }

  /** A process is killed: its checks stop where they are, its memory is gone, and the
      operating system drops its file locks. */
  function Crash(cfg: Config, s: State, proc: nat): State
    requires s.pcs.Keys == Actors(cfg)
  {
    State(
      map a | a in s.pcs :: if SessionOf(cfg, a).proc == proc then Dead else s.pcs[a],
      map p | p in s.gates && p.proc != proc :: s.gates[p],
      map p | p in s.holds && p.proc != proc :: s.holds[p],
      map f | f in s.files && s.files[f] != proc :: s.files[f],
      map k | k in s.locks && s.locks[k] in s.pcs && SessionOf(cfg, s.locks[k]).proc != proc :: s.locks[k],
      map r | r in s.used && r < |cfg.sessions| && cfg.sessions[r].proc != proc :: s.used[r])
  }

  function Init(cfg: Config): State {
    State(map a | a in Actors(cfg) :: Waiting, map[], map[], map[], map[], map[])
  }

  ghost predicate ActorStep(cfg: Config, s: State, t: State, a: Actor, choice: Choice) {
    a in s.pcs && IsActor(cfg, a)
    && var o := Act(ViewOf(cfg, s, a), s.pcs[a], choice); o.Some? && t == Apply(cfg, s, a, o.value)
  }

  /** Some check acts. */
  ghost predicate CheckStep(cfg: Config, s: State, t: State) {
    exists a, choice :: ActorStep(cfg, s, t, a, choice)
  }

  ghost predicate Step(cfg: Config, s: State, t: State) {
    CheckStep(cfg, s, t)
    || (s.pcs.Keys == Actors(cfg) && exists proc :: t == Crash(cfg, s, proc))
  }

  /** A finite run: every interleaving, every outcome and every crash is one of these. */
  ghost predicate IsRun(cfg: Config, run: seq<State>) {
    |run| > 0 && run[0] == Init(cfg) && forall n :: 0 < n < |run| ==> Step(cfg, run[n - 1], run[n])
  }

  ghost predicate Reachable(cfg: Config, s: State) {
    exists run :: IsRun(cfg, run) && run[|run| - 1] == s
  }

  // ---- What an actor holds ----

  datatype Role = Reader | Writer | Queuer | Holder | Opener | Slotted

  /** The session, or the place, where an actor plays a role. */
  datatype Site = AtSession(session: nat) | AtPlace(place: Place)

  predicate ThroughGate(pc: Pc) {
    pc.Claiming? || pc.Opening? || (pc.Inside? && pc.workspace.Some?) || pc.Leaving? || pc.Exiting?
  }

  function GateMode(pc: Pc): bool
    requires ThroughGate(pc)
  {
    if pc.Inside? then pc.workspace.value else pc.ex
  }

  predicate Plays(cached: bool, role: Role, pc: Pc) {
    match role
    case Reader => ThroughGate(pc) && !GateMode(pc)
    case Writer => ThroughGate(pc) && GateMode(pc)
    case Queuer => pc.Parked? && pc.ex
    case Holder => cached && ((pc.Inside? && pc.workspace.Some?) || pc.Leaving?)
    case Opener => pc.Opening?
    case Slotted => !pc.Waiting? && !pc.Ready? && !pc.Closing? && !pc.Finished? && !pc.Dead?
  }

  function SiteOf(cfg: Config, role: Role, a: Actor): Site
    requires IsActor(cfg, a)
  {
    if role == Slotted then AtSession(a.session) else AtPlace(PlaceOf(cfg, a))
  }

  /** The result lock an actor holds, if any. */
  function LockOf(pc: Pc): Option<Key> {
    match pc
    case Entering(key, _, _) => key
    case Parked(key, _, _, _) => key
    case Claiming(key, _, _) => key
    case Opening(key, _, _) => key
    case Inside(key, _, _) => key
    case Leaving(key, _, _) => key
    case Exiting(key, _, _) => key
    case Unlocking(key, _) => Some(key)
    case _ => None
  }

  predicate InRole(cfg: Config, role: Role, site: Site, a: Actor, pc: Pc)
    requires IsActor(cfg, a)
  {
    SiteOf(cfg, role, a) == site && Plays(SessionOf(cfg, a).cached, role, pc)
  }

  ghost function Who(cfg: Config, pcs: map<Actor, Pc>, role: Role, site: Site): set<Actor>
    requires forall a :: a in pcs ==> IsActor(cfg, a)
  {
    set a | a in pcs && InRole(cfg, role, site, a, pcs[a])
  }

  /** How one actor's move changes how many play each role. */
  lemma Move(cfg: Config, pcs: map<Actor, Pc>, a: Actor, pc: Pc, role: Role, site: Site)
    requires a in pcs && forall b :: b in pcs ==> IsActor(cfg, b)
    ensures |Who(cfg, pcs[a := pc], role, site)|
         == |Who(cfg, pcs, role, site)|
            - (if InRole(cfg, role, site, a, pcs[a]) then 1 else 0)
            + (if InRole(cfg, role, site, a, pc) then 1 else 0)
  {
    var before, after := Who(cfg, pcs, role, site), Who(cfg, pcs[a := pc], role, site);
    forall b | b != a ensures b in before <==> b in after {
    }
    ChangeOne(before, after, a);
  }

  lemma ChangeOne(before: set<Actor>, after: set<Actor>, a: Actor)
    requires forall b :: b != a ==> (b in before <==> b in after)
    ensures |after| == |before| - (if a in before then 1 else 0) + (if a in after then 1 else 0)
  {
    var others := before - {a};
    assert before == if a in before then others + {a} else others;
    assert after == if a in after then others + {a} else others;
  }

  // ---- The invariant ----

  ghost predicate Typed(cfg: Config, s: State) {
    s.pcs.Keys == Actors(cfg)
  }

  /** The gate's counters are its actual holders and queued writers, a writer is alone, and no
      waiter parked on the current channel could enter: no wake-up is ever lost. */
  ghost predicate GateInv(cfg: Config, s: State, p: Place)
    requires Typed(cfg, s)
  {
    var g := s.GateAt(p);
    && g.readers == |Who(cfg, s.pcs, Reader, AtPlace(p))|
    && (if g.writer then 1 else 0) == |Who(cfg, s.pcs, Writer, AtPlace(p))|
    && g.queued == |Who(cfg, s.pcs, Queuer, AtPlace(p))|
    && (g.writer ==> g.readers == 0)
    && (g.wake.Some? ==> g.wake.value < g.made)
    && (forall a :: a in s.pcs && PlaceOf(cfg, a) == p && s.pcs[a].Parked? ==>
          && s.pcs[a].channel < g.made
          && (g.wake == Some(s.pcs[a].channel) ==> !g.Admits(s.pcs[a].ex)))
  }

  /** holders counts the process's checks in the tree, the slot has one owner, and the process
      owns the source's file lock exactly while holders is positive. */
  ghost predicate HoldInv(cfg: Config, s: State, p: Place)
    requires Typed(cfg, s)
  {
    var h := s.HoldAt(p);
    && h.holders == |Who(cfg, s.pcs, Holder, AtPlace(p))|
    && (if h.taken then 1 else 0) == |Who(cfg, s.pcs, Opener, AtPlace(p))|
    && (h.locked <==> h.holders > 0)
    && (h.holders > 0 <==> s.FileOwner(p.source) == Some(p.proc))
  }

  ghost predicate LockInv(cfg: Config, s: State)
    requires Typed(cfg, s)
  {
    && (forall a, k :: a in s.pcs && LockOf(s.pcs[a]) == Some(k) ==> k in s.locks && s.locks[k] == a)
    && (forall k :: k in s.locks ==> s.locks[k] in s.pcs && LockOf(s.pcs[s.locks[k]]) == Some(k))
  }

  ghost predicate SlotInv(cfg: Config, s: State)
    requires Typed(cfg, s)
  {
    forall r :: 0 <= r < |cfg.sessions| ==>
      s.UsedBy(r) == |Who(cfg, s.pcs, Slotted, AtSession(r))| && s.UsedBy(r) <= cfg.sessions[r].workers
  }

  /** A check past its wait has every earlier check with its preparation finished. */
  ghost predicate OrderInv(cfg: Config, s: State)
    requires Typed(cfg, s)
  {
    && (forall a, b :: a in s.pcs && b in s.pcs && Before(cfg, b, a) && !s.pcs[a].Waiting? && !s.pcs[a].Dead? ==>
          s.pcs[b] == Finished)
    && (forall a :: a in s.pcs && (s.pcs[a].Claiming? || s.pcs[a].Opening? || s.pcs[a].Leaving?) ==> SessionOf(cfg, a).cached)
    && (forall a, b :: a in s.pcs && b in s.pcs && SessionOf(cfg, a).proc == SessionOf(cfg, b).proc ==>
          (s.pcs[a].Dead? ==> s.pcs[b].Dead?))
  }

  ghost predicate Inv(cfg: Config, s: State) {
    && Typed(cfg, s)
    && (forall p :: GateInv(cfg, s, p))
    && (forall p :: HoldInv(cfg, s, p))
    && LockInv(cfg, s) && SlotInv(cfg, s) && OrderInv(cfg, s)
  }
}
