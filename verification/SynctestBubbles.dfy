/**
  synctestBodies (runner/lint/policy/wallclock.go): the functions and literals that run in a
  synctest bubble.  The syntax tree is reduced to what each body calls.
 */
module SynctestBubbles {
  type Fn = nat
  type Lit = nat
  type Var = nat

  /** A callback or a callee, as addCallback tells them apart; a static callee is Named. */
  datatype Callback = Literal(lit: Lit) | Named(fn: Fn) | Held(obj: Var) | Opaque

  datatype Code = Func(fn: Fn) | Lambda(lit: Lit)

  /** A package's test files: whether one imports testing/synctest, the arguments of its
      synctest.Test and synctest.Run calls, what each declared body calls, and the literals each
      variable holds. */
  datatype Package = Package(importing: bool, starts: seq<Callback>, bodies: map<Code, seq<Callback>>, held: map<Var, seq<Lit>>)
  {
    function Literals(v: Var): seq<Lit> {
      if v in held then held[v] else []
    }

    /** The code a callback stands for. */
    function Targets(c: Callback): set<Code> {
      match c
      case Literal(lit) => {Lambda(lit)}
      case Named(fn) => {Func(fn)}
      case Held(v) => set lit | lit in Literals(v) :: Lambda(lit)
      case Opaque => {}
    }

    function AllTargets(calls: seq<Callback>): set<Code> {
      if calls == [] then {} else AllTargets(calls[..|calls| - 1]) + Targets(calls[|calls| - 1])
    }

    /** The code a body calls; a function declared elsewhere has no body here. */
    function Calls(code: Code): set<Code> {
      if code in bodies then AllTargets(bodies[code]) else {}
    }

    /** A chain of calls from a bubble's callback. */
    ghost predicate Chain(path: seq<Code>) {
      && |path| > 0 && path[0] in AllTargets(starts)
      && forall n :: 0 <= n < |path| - 1 ==> path[n + 1] in Calls(path[n])
    }

    ghost predicate Reaches(code: Code) {
      exists path :: Chain(path) && path[|path| - 1] == code
    }

    /** Everything that could be found. */
    function Mentioned(keys: set<Code>): set<Code> {
      AllTargets(starts) + set key, code | key in keys && code in Calls(key) :: code
    }
  }

  lemma ReachesNext(p: Package, code: Code, next: Code)
    requires p.Reaches(code) && next in p.Calls(code)
    ensures p.Reaches(next)
  {
    var path :| p.Chain(path) && path[|path| - 1] == code;
    assert p.Chain(path + [next]);
  }

  lemma ReachesStart(p: Package, code: Code)
    requires code in p.AllTargets(p.starts)
    ensures p.Reaches(code)
  {
    assert p.Chain([code]);
  }

  /** A set that holds the callbacks and is closed under calls holds every chain. */
  lemma {:induction false} ClosedHoldsChains(p: Package, found: set<Code>, path: seq<Code>)
    requires p.AllTargets(p.starts) <= found && forall code :: code in found ==> p.Calls(code) <= found
    requires p.Chain(path)
    ensures path[|path| - 1] in found
    decreases |path|
  {
    if |path| > 1 {
      var before := path[..|path| - 1];
      assert p.Chain(before);
      ClosedHoldsChains(p, found, before);
    }
  }

  /** What the search has found, with the bodies still to inspect. */
  ghost predicate Searching(p: Package, found: set<Code>, pending: seq<Code>) {
    && (forall code :: code in found ==> p.Reaches(code))
    && (forall code :: code in pending ==> code in found)
    && (forall code :: code in found && code !in pending ==> p.Calls(code) <= found)
  }

  /** addCallback, addFunc and addLiteral: new code is found, and its body pending. */
  method AddCallback(p: Package, c: Callback, found: set<Code>, pending: seq<Code>) returns (more: set<Code>, todo: seq<Code>)
    ensures more == found + p.Targets(c)
    ensures pending <= todo
    ensures forall code :: code in todo ==> code in pending || (code in p.Targets(c) && code in p.bodies)
    ensures forall code :: code in more && code !in found && code in p.bodies ==> code in todo
    ensures more == found ==> todo == pending
  {
    more, todo := found, pending;
    match c {
      case Literal(lit) => more, todo := AddCode(p, Lambda(lit), more, todo);
      case Named(fn) => more, todo := AddCode(p, Func(fn), more, todo);
      case Held(v) =>
        var lits := p.Literals(v);
        for i := 0 to |lits|
          invariant more == found + set lit | lit in lits[..i] :: Lambda(lit)
          invariant pending <= todo
          invariant forall code :: code in todo ==> code in pending || (code in p.Targets(c) && code in p.bodies)
          invariant forall code :: code in more && code !in found && code in p.bodies ==> code in todo
          invariant more == found ==> todo == pending
        {
          assert lits[..i + 1] == lits[..i] + [lits[i]];
          assert lits[i] in lits;
          more, todo := AddCode(p, Lambda(lits[i]), more, todo);
        }
        assert lits[..|lits|] == lits;
      case Opaque =>
    }
  }

  method AddCode(p: Package, code: Code, found: set<Code>, pending: seq<Code>) returns (more: set<Code>, todo: seq<Code>)
    ensures more == found + {code}
    ensures todo == if code in found || code !in p.bodies then pending else pending + [code]
  {
    more, todo := found, pending;
    if code in found {
      return;
    }
    more := more + {code};
    if code in p.bodies {
      todo := todo + [code];
    }
  }

  /** The loop over the calls of a body, or over the arguments that start bubbles. */
  method AddAll(p: Package, calls: seq<Callback>, found: set<Code>, pending: seq<Code>) returns (more: set<Code>, todo: seq<Code>)
    ensures more == found + p.AllTargets(calls)
    ensures forall code :: code in todo ==> code in pending || (code in p.AllTargets(calls) && code in p.bodies)
    ensures forall code :: code in pending ==> code in todo
    ensures forall code :: code in more && code !in found && code in p.bodies ==> code in todo
    ensures more == found ==> todo == pending
  {
    hide Package.Targets;
    more, todo := found, pending;
    for i := 0 to |calls|
      invariant more == found + p.AllTargets(calls[..i])
      invariant forall code :: code in todo ==> code in pending || (code in p.AllTargets(calls[..i]) && code in p.bodies)
      invariant forall code :: code in pending ==> code in todo
      invariant forall code :: code in more && code !in found && code in p.bodies ==> code in todo
      invariant more == found ==> todo == pending
    {
      assert calls[..i + 1][..i] == calls[..i];
      more, todo := AddCallback(p, calls[i], more, todo);
    }
    assert calls[..|calls|] == calls;
  }

  /** synctestBodies: the search ends, and what it finds is exactly the code a chain of calls
      from a bubble's callback reaches. */
  method SynctestBodies(p: Package) returns (found: set<Code>)
    ensures forall code :: code in found <==> p.importing && p.Reaches(code)
  {
    hide Package.AllTargets;
    hide Package.Calls;
    hide Package.Mentioned;
    hide Package.Reaches;
    hide Searching;
    found := {};
    if !p.importing {
      return;
    }
    var pending: seq<Code> := [];
    found, pending := AddAll(p, p.starts, found, pending);
    StartsSearching(p, found, pending);
    ghost var all := p.Mentioned(p.bodies.Keys);
    while pending != []
      invariant Searching(p, found, pending)
      invariant p.AllTargets(p.starts) <= found <= all
      invariant forall code :: code in pending ==> code in p.bodies
      decreases all - found, |pending|
    {
      var body, rest := pending[|pending| - 1], pending[..|pending| - 1];
      assert pending == rest + [body];
      assert body in pending;
      CallsAre(p, body);
      var more, todo := AddAll(p, p.bodies[body], found, rest);
      TurnKeepsSearching(p, found, rest, body, more, todo);
      found, pending := more, todo;
    }
    SearchIsDone(p, found);
  }

  lemma StartsSearching(p: Package, found: set<Code>, pending: seq<Code>)
    requires found == p.AllTargets(p.starts)
    requires forall code :: code in pending ==> code in found
    requires forall code :: code in found && code in p.bodies ==> code in pending
    ensures Searching(p, found, pending) && found <= p.Mentioned(p.bodies.Keys)
  {
    hide Package.AllTargets;
    hide Package.Calls;
    forall code | code in found ensures p.Reaches(code) {
      ReachesStart(p, code);
    }
    BodilessCallNothing(p);
  }

  lemma TurnKeepsSearching(p: Package, found: set<Code>, rest: seq<Code>, body: Code, more: set<Code>, todo: seq<Code>)
    requires Searching(p, found, rest + [body]) && body in p.bodies && found <= p.Mentioned(p.bodies.Keys)
    requires more == found + p.Calls(body)
    requires forall code :: code in todo ==> code in rest || code in p.Calls(body)
    requires forall code :: code in rest ==> code in todo
    requires forall code :: code in more && code !in found && code in p.bodies ==> code in todo
    ensures Searching(p, more, todo) && more <= p.Mentioned(p.bodies.Keys)
  {
    hide Package.AllTargets;
    hide Package.Calls;
    hide Package.Reaches;
    assert body in rest + [body] && forall code :: code in rest ==> code in rest + [body];
    forall code | code in p.Calls(body) ensures p.Reaches(code) {
      ReachesNext(p, body, code);
    }
    BodilessCallNothing(p);
  }

  lemma SearchIsDone(p: Package, found: set<Code>)
    requires Searching(p, found, []) && p.AllTargets(p.starts) <= found
    ensures forall code :: code in found <==> p.Reaches(code)
  {
    forall code | p.Reaches(code) ensures code in found {
      var path :| p.Chain(path) && path[|path| - 1] == code;
      ClosedHoldsChains(p, found, path);
    }
  }

  lemma BodilessCallNothing(p: Package)
    ensures forall code :: code !in p.bodies ==> p.Calls(code) == {}
  {
  }

  lemma CallsAre(p: Package, code: Code)
    requires code in p.bodies
    ensures p.Calls(code) == p.AllTargets(p.bodies[code])
  {
  }

  // ---- What runs in a bubble, call by call ----

  /** The call is of this code: a literal as it stands, a named function, or any literal the
      variable is given. */
  predicate IsCallOf(p: Package, c: Callback, code: Code) {
    match c
    case Literal(lit) => code == Lambda(lit)
    case Named(fn) => code == Func(fn)
    case Held(v) => v in p.held && code.Lambda? && code.lit in p.held[v]
    case Opaque => false
  }

  predicate Directly(p: Package, calls: seq<Callback>, code: Code) {
    exists c :: c in calls && IsCallOf(p, c, code)
  }

  /** Each body calls the next, the first is a callback that starts a bubble. */
  predicate CallChain(p: Package, path: seq<Code>) {
    && |path| > 0 && Directly(p, p.starts, path[0])
    && forall n :: 0 <= n < |path| - 1 ==> BodyCalls(p, path[n], path[n + 1])
  }

  predicate BodyCalls(p: Package, body: Code, code: Code) {
    body in p.bodies && Directly(p, p.bodies[body], code)
  }

  lemma {:induction false} TargetsExactlyWhen(p: Package, calls: seq<Callback>, code: Code)
    ensures code in p.AllTargets(calls) <==> Directly(p, calls, code)
    decreases |calls|
  {
    if calls != [] {
      var before, last := calls[..|calls| - 1], calls[|calls| - 1];
      TargetsExactlyWhen(p, before, code);
      TargetIsCall(p, last, code);
      hide Package.Targets;
      hide IsCallOf;
      assert calls == before + [last];
    }
  }

  lemma TargetIsCall(p: Package, c: Callback, code: Code)
    ensures code in p.Targets(c) <==> IsCallOf(p, c, code)
  {
    if c.Held? && code.Lambda? {
      assert Lambda(code.lit) == code;
    }
  }

  lemma ChainExactlyWhen(p: Package, path: seq<Code>)
    ensures p.Chain(path) <==> CallChain(p, path)
  {
    hide Package.AllTargets;
    hide Directly;
    if path != [] {
      TargetsExactlyWhen(p, p.starts, path[0]);
    }
    forall n | 0 <= n < |path| - 1 ensures path[n + 1] in p.Calls(path[n]) <==> BodyCalls(p, path[n], path[n + 1]) {
      if path[n] in p.bodies {
        TargetsExactlyWhen(p, p.bodies[path[n]], path[n + 1]);
      }
    }
  }

  /** What the search finds is what some chain of calls ends in. */
  lemma ReachesExactlyWhen(p: Package, code: Code)
    ensures p.Reaches(code) <==> exists path :: CallChain(p, path) && path[|path| - 1] == code
  {
    hide Package.Chain;
    hide CallChain;
    forall path ensures p.Chain(path) <==> CallChain(p, path) {
      ChainExactlyWhen(p, path);
    }
    ChainsAreNotEmpty(p);
  }

  lemma ChainsAreNotEmpty(p: Package)
    ensures forall path :: CallChain(p, path) ==> |path| > 0
    ensures forall path :: p.Chain(path) ==> |path| > 0
  {
  }
}
