/** What flowDurations finds (runner/lint/policy/wallclock_flow.go), one statement at a time. */
module DurationTraces {
  // An execution is a path through the graph and, at each of its blocks, the measured variables
  // before every statement and after the last.  How one set follows from the one before is said
  // of each variable on its own.

  import opened Options
  import opened ClockExpressions
  import opened DurationFlow
  import ClockFixpoint

  // ---- Executions ----

  /** On entering a block: the variables a range pass overwrites are forgotten, unless a callback
      may have stored them. */
  ghost predicate Enters(g: Graph, b: Block, from: set<Obj>, first: set<Obj>) {
    forall obj: Obj :: obj in first <==> obj in g.shared || (obj in from && Some(obj) !in b.rangeKills)
  }

  /** Across one statement: what it stores, and always what a callback may have. */
  ghost predicate Passes(g: Graph, e: Effect, readings: set<Obj>, before: set<Obj>, after: set<Obj>) {
    exists stored :: Leaves(e, readings, before, stored) && forall obj: Obj :: obj in after <==> obj in stored || obj in g.shared
  }

  /** One pass of a block entered with `from`: the variables before each statement, and at the end. */
  ghost predicate IsPass(g: Graph, b: Block, readings: set<Obj>, from: set<Obj>, trace: seq<set<Obj>>) {
    && |trace| == |b.nodes| + 1 && Enters(g, b, from, trace[0])
    && forall n :: 0 <= n < |b.nodes| ==> Passes(g, b.nodes[n].effect, readings, trace[n], trace[n + 1])
  }

  ghost predicate IsExecution(g: Graph, readings: set<Obj>, measured: set<Obj>, path: seq<nat>, traces: seq<seq<set<Obj>>>) {
    && IsPath(g, path) && |traces| == |path|
    && forall k :: 0 <= k < |path| ==> IsPassAt(g, readings, measured, path, traces, k)
  }

  ghost predicate IsPassAt(g: Graph, readings: set<Obj>, measured: set<Obj>, path: seq<nat>, traces: seq<seq<set<Obj>>>, k: nat)
    requires IsPath(g, path) && |traces| == |path| && k < |path|
  {
    && (k > 0 ==> traces[k - 1] != [])
    && IsPass(g, g.blocks[path[k]], readings, if k == 0 then measured else traces[k - 1][|traces[k - 1]| - 1], traces[k])
  }

  /** The execution's last block mentions the identifier while its variable is measured. */
  ghost predicate ReadsMeasured(g: Graph, path: seq<nat>, traces: seq<seq<set<Obj>>>, ident: Ident) {
    && IsPath(g, path) && |traces| == |path|
    && exists n, obj :: 0 <= n < |g.blocks[Last(path)].nodes| && n < |traces[|traces| - 1]|
                  && (ident, obj) in g.blocks[Last(path)].nodes[n].mentions && obj in traces[|traces| - 1][n]
  }

  // ---- One statement ----

  lemma {:induction false} LastTargetExists(e: Effect, obj: Obj, n: nat) returns (i: nat)
    requires !e.NoStore? && n <= |e.lhs| && Some(obj) in e.lhs[..n]
    requires forall k :: n <= k < |e.lhs| ==> e.lhs[k] != Some(obj)
    ensures IsLastTarget(e, obj, i)
  {
    if e.lhs[n - 1] == Some(obj) {
      i := n - 1;
    } else {
      assert e.lhs[..n] == e.lhs[..n - 1] + [e.lhs[n - 1]];
      i := LastTargetExists(e, obj, n - 1);
    }
  }

  /** A statement leaves only one set. */
  lemma LeavesOne(e: Effect, readings: set<Obj>, before: set<Obj>, a: set<Obj>, b: set<Obj>)
    requires Leaves(e, readings, before, a) && Leaves(e, readings, before, b)
    ensures a == b
  {
    forall obj: Obj ensures obj in a <==> obj in b {
      if IsTarget(e, obj) {
        assert e.lhs[..|e.lhs|] == e.lhs;
        var i := LastTargetExists(e, obj, |e.lhs|);
      }
    }
  }

  lemma PassesIsAfterStore(g: Graph, e: Effect, readings: set<Obj>, before: set<Obj>, after: set<Obj>)
    ensures Passes(g, e, readings, before, after) <==> after == AfterStore(e, readings, before) + g.shared
  {
    hide Leaves;
    hide AfterStore;
    StoreLeaves(e, readings, before);
    forall stored | Leaves(e, readings, before, stored) ensures stored == AfterStore(e, readings, before) {
      LeavesOne(e, readings, before, stored, AfterStore(e, readings, before));
    }
  }

  // ---- One block ----

  lemma {:induction false} PassIsAfterNodes(g: Graph, b: Block, readings: set<Obj>, from: set<Obj>, trace: seq<set<Obj>>, n: nat)
    requires IsPass(g, b, readings, from, trace) && n <= |b.nodes|
    ensures trace[n] == AfterNodes(g, b.nodes[..n], readings, Enter(g, b, from))
  {
    hide Passes;
    hide AfterStore;
    if n > 0 {
      PassIsAfterNodes(g, b, readings, from, trace, n - 1);
      assert b.nodes[..n][..n - 1] == b.nodes[..n - 1];
      PassesIsAfterStore(g, b.nodes[n - 1].effect, readings, trace[n - 1], trace[n]);
    }
  }

  ghost function PassOf(g: Graph, b: Block, readings: set<Obj>, from: set<Obj>): (trace: seq<set<Obj>>)
    ensures |trace| == |b.nodes| + 1
  {
    seq(|b.nodes| + 1, n requires 0 <= n <= |b.nodes| => AfterNodes(g, b.nodes[..n], readings, Enter(g, b, from)))
  }

  /** A block can always be passed, and in one way only. */
  lemma OnePass(g: Graph, b: Block, readings: set<Obj>, from: set<Obj>, trace: seq<set<Obj>>)
    ensures IsPass(g, b, readings, from, trace) <==> trace == PassOf(g, b, readings, from)
    ensures PassOf(g, b, readings, from)[|b.nodes|] == Transfer(g, b, readings, from)
  {
    hide Passes;
    hide AfterStore;
    var own := PassOf(g, b, readings, from);
    assert b.nodes[..|b.nodes|] == b.nodes;
    forall n | 0 <= n < |b.nodes| ensures Passes(g, b.nodes[n].effect, readings, own[n], own[n + 1]) {
      assert b.nodes[..n + 1][..n] == b.nodes[..n];
      PassesIsAfterStore(g, b.nodes[n].effect, readings, own[n], own[n + 1]);
    }
    if IsPass(g, b, readings, from, trace) {
      forall n | 0 <= n < |trace| ensures trace[n] == own[n] {
        PassIsAfterNodes(g, b, readings, from, trace, n);
      }
    }
  }

  // ---- One path ----

  /** What an execution enters its last block with is the path's state. */
  lemma {:induction false} ExecutionIsAlongPath(g: Graph, readings: set<Obj>, measured: set<Obj>, path: seq<nat>, traces: seq<seq<set<Obj>>>)
    requires IsExecution(g, readings, measured, path, traces)
    ensures traces[|traces| - 1] == PassOf(g, g.blocks[Last(path)], readings, AlongPath(g, readings, measured, path))
    decreases |path|
  {
    hide IsPass;
    hide Transfer;
    hide PassOf;
    var k := |path| - 1;
    assert IsPassAt(g, readings, measured, path, traces, k);
    if k > 0 {
      var before, earlier := path[..k], traces[..k];
      forall l | 0 <= l < k ensures IsPassAt(g, readings, measured, before, earlier, l) {
        assert IsPassAt(g, readings, measured, path, traces, l);
      }
      ExecutionIsAlongPath(g, readings, measured, before, earlier);
      OnePass(g, g.blocks[Last(before)], readings, AlongPath(g, readings, measured, before), traces[k - 1]);
    }
    OnePass(g, g.blocks[Last(path)], readings, AlongPath(g, readings, measured, path), traces[k]);
  }

  lemma {:induction false} PathHasExecution(g: Graph, readings: set<Obj>, measured: set<Obj>, path: seq<nat>)
    returns (traces: seq<seq<set<Obj>>>)
    requires IsPath(g, path)
    ensures IsExecution(g, readings, measured, path, traces)
    decreases |path|
  {
    hide IsPass;
    hide PassOf;
    hide Transfer;
    if |path| == 1 {
      traces := [PassOf(g, g.blocks[path[0]], readings, measured)];
      OnePass(g, g.blocks[path[0]], readings, measured, traces[0]);
      assert IsPassAt(g, readings, measured, path, traces, 0);
    } else {
      var before := path[..|path| - 1];
      var earlier := PathHasExecution(g, readings, measured, before);
      ExecutionIsAlongPath(g, readings, measured, before, earlier);
      OnePass(g, g.blocks[Last(before)], readings, AlongPath(g, readings, measured, before), earlier[|before| - 1]);
      var last := PassOf(g, g.blocks[Last(path)], readings, AlongPath(g, readings, measured, path));
      OnePass(g, g.blocks[Last(path)], readings, AlongPath(g, readings, measured, path), last);
      traces := earlier + [last];
      forall k | 0 <= k < |path| ensures IsPassAt(g, readings, measured, path, traces, k) {
        if k < |before| {
          assert IsPassAt(g, readings, measured, before, earlier, k);
        }
      }
    }
  }

  /** A read on some path, as the worklist counts them, is a read some execution makes. */
  lemma ReadExactlyWhen(g: Graph, readings: set<Obj>, measured: set<Obj>, ident: Ident)
    ensures ReadOnSomePath(g, readings, measured, ident)
       <==> exists path, traces :: IsExecution(g, readings, measured, path, traces) && ReadsMeasured(g, path, traces, ident)
  {
    hide AfterNodes;
    hide IsExecution;
    hide AlongPath;
    if path :| IsPath(g, path) && Reads(g, g.blocks[Last(path)], readings, AlongPath(g, readings, measured, path), ident) {
      var traces := PathHasExecution(g, readings, measured, path);
      ExecutionIsWellFormed(g, readings, measured, path, traces);
      ExecutionIsAlongPath(g, readings, measured, path, traces);
      assert ReadsMeasured(g, path, traces, ident);
    }
    if path, traces :| IsExecution(g, readings, measured, path, traces) && ReadsMeasured(g, path, traces, ident) {
      ExecutionIsWellFormed(g, readings, measured, path, traces);
      ExecutionIsAlongPath(g, readings, measured, path, traces);
      assert Reads(g, g.blocks[Last(path)], readings, AlongPath(g, readings, measured, path), ident);
    }
  }

  lemma ExecutionIsWellFormed(g: Graph, readings: set<Obj>, measured: set<Obj>, path: seq<nat>, traces: seq<seq<set<Obj>>>)
    requires IsExecution(g, readings, measured, path, traces)
    ensures IsPath(g, path) && |traces| == |path|
  {
  }

  // ---- Expressions ----

  /** What a chain of methods that copy a reading starts from. */
  function Origin(e: Expr): Expr {
    if e.TimeMethod? && e.name == Copy then Origin(e.receiver) else e
  }

  /** A reading is a copy, of any depth, of time.Now() or of a variable that only holds one. */
  lemma {:induction false} ReadingExactlyWhen(e: Expr, readings: set<Obj>)
    ensures Reading(e, readings)
       <==> Origin(e).Now? || (Origin(e).Name? && Origin(e).obj.Some? && Origin(e).obj.value in readings)
  {
    if e.TimeMethod? && e.name == Copy {
      ReadingExactlyWhen(e.receiver, readings);
    }
  }

  /** The parts an expression's value is computed from, through signs, arithmetic, conversions, min
      and max, and methods of a duration. */
  function Parts(e: Expr): set<Expr> {
    match e
    case Unary(x) => Parts(x)
    case Binary(true, x, y) => Parts(x) + Parts(y)
    case Convert(x) => Parts(x)
    case Extreme(args) => set arg, part | arg in args && part in Parts(arg) :: part
    case TimeMethod(name, receiver, onDuration, args) =>
      if name == Sub && |args| == 1 then {e} else if onDuration then Parts(receiver) else {}
    case _ => {e}
  }

  /** time.Since, the difference of two readings, or a variable that holds a measurement. */
  predicate IsMeasurement(e: Expr, readings: set<Obj>, measured: set<Obj>) {
    || e.Since?
    || (e.TimeMethod? && e.name == Sub && |e.args| == 1 && Reading(e.receiver, readings) && Reading(e.args[0], readings))
    || (e.Name? && e.obj.Some? && e.obj.value in measured)
  }

  /** An expression is a measured duration exactly when some part of it is a measurement. */
  lemma {:induction false} DurationExactlyWhen(e: Expr, readings: set<Obj>, measured: set<Obj>)
    ensures Duration(e, readings, measured) <==> exists part :: part in Parts(e) && IsMeasurement(part, readings, measured)
  {
    hide Reading;
    match e
    case Unary(x) => DurationExactlyWhen(x, readings, measured);
    case Binary(arithmetic, x, y) =>
      if arithmetic {
        DurationExactlyWhen(x, readings, measured);
        DurationExactlyWhen(y, readings, measured);
      }
    case Convert(x) => DurationExactlyWhen(x, readings, measured);
    case Extreme(args) =>
      forall arg | arg in args
        ensures Duration(arg, readings, measured) <==> exists part :: part in Parts(arg) && IsMeasurement(part, readings, measured)
      {
        DurationExactlyWhen(arg, readings, measured);
      }
    case TimeMethod(name, receiver, onDuration, args) =>
      if name == Sub && |args| == 1 {
        assert Parts(e) == {e} && e in Parts(e);
        assert Duration(e, readings, measured) <==> IsMeasurement(e, readings, measured);
      } else if onDuration {
        assert Parts(e) == Parts(receiver);
        DurationExactlyWhen(receiver, readings, measured);
      } else {
        assert Parts(e) == {};
      }
    case _ =>
      assert Parts(e) == {e} && e in Parts(e);
      assert Duration(e, readings, measured) <==> IsMeasurement(e, readings, measured);
  }

  // ---- The function-wide fixpoint ----

  /** A statement of the function: a node of some graph, or one the graphs leave out. */
  ghost predicate IsStatement(source: Source, e: Effect) {
    || (exists body, block, node :: body in source.bodies && block in body.blocks && node in block.nodes && node.effect == e)
    || Unlisted(e) in source.others
  }

  /** The statement gives the variable a value at its i-th left side.  A declaration without values
      gives none. */
  predicate Gives(e: Effect, i: nat, obj: Obj) {
    !e.NoStore? && i < |e.lhs| && e.lhs[i] == Some(obj) && !(e.Declare? && e.rhs == [])
  }

  /** A store whose value cannot be seen: in code with a fake clock, or by a range. */
  ghost predicate GivesUnseen(source: Source, obj: Obj) {
    exists lhs :: Unseen(lhs) in source.others && Some(obj) in lhs
  }

  /** The value the statement gives at its i-th left side, when the sides pair up. */
  function Given(e: Effect, i: nat): Option<Expr>
    requires !e.NoStore? && i < |e.lhs|
  {
    if |e.lhs| == |e.rhs| then Some(e.rhs[i]) else None
  }

  /** Some store of the function gives the variable the value, or one that cannot be seen. */
  ghost predicate IsGiven(source: Source, obj: Obj, value: Option<Expr>) {
    || (value.None? && GivesUnseen(source, obj))
    || exists e, i: nat :: IsStatement(source, e) && Gives(e, i, obj) && value == Given(e, i)
  }

  lemma HoldsExactlyWhen(source: Source, stores: ClockFixpoint.Stores, obj: Obj, value: Option<Expr>)
    requires Collects(source, stores)
    ensures Holds(stores, obj, value) <==> IsGiven(source, obj, value)
  {
    if e, i: nat :| IsStatement(source, e) && Gives(e, i, obj) && value == Given(e, i) {
      assert Puts(e, obj, value);
      if Unlisted(e) in source.others {
        assert OtherPuts(Unlisted(e), obj, value);
      }
    }
    if value.None? && GivesUnseen(source, obj) {
      var lhs :| Unseen(lhs) in source.others && Some(obj) in lhs;
      assert OtherPuts(Unseen(lhs), obj, value);
    }
    if Holds(stores, obj, value) {
      HeldIsGiven(source, obj, value);
    }
  }

  lemma HeldIsGiven(source: Source, obj: Obj, value: Option<Expr>)
    requires BodiesPut(source.bodies, obj, value) || OthersPut(source.others, obj, value)
    ensures IsGiven(source, obj, value)
  {
    if BodiesPut(source.bodies, obj, value) {
      var body :| body in source.bodies && BlocksPut(body.blocks, obj, value);
      var block :| block in body.blocks && NodesPut(block.nodes, obj, value);
      var node :| node in block.nodes && Puts(node.effect, obj, value);
      assert IsStatement(source, node.effect);
      var i :| 0 <= i < |node.effect.lhs| && node.effect.lhs[i] == Some(obj) && value == ValueAt(node.effect, i);
      assert Gives(node.effect, i, obj);
    } else {
      var other :| other in source.others && OtherPuts(other, obj, value);
      if other.Unlisted? {
        assert IsStatement(source, other.effect);
        var i :| 0 <= i < |other.effect.lhs| && other.effect.lhs[i] == Some(obj) && value == ValueAt(other.effect, i);
        assert Gives(other.effect, i, obj);
      }
    }
  }

  predicate IsReading(value: Option<Expr>, readings: set<Obj>) {
    value.Some? && Reading(value.value, readings)
  }

  /** A variable holds a reading exactly when it is given a value, and every value it is given is
      seen to be a reading; and a measurement exactly when some value it is given is one. */
  lemma VariablesExactlyWhen(source: Source, stores: ClockFixpoint.Stores, readings: set<Obj>, measured: set<Obj>, obj: Obj)
    requires Collects(source, stores) && ClockFixpoint.LeastClosed(stores, readings, measured)
    ensures obj in readings
       <==> (exists value :: IsGiven(source, obj, value)) && forall value :: IsGiven(source, obj, value) ==> IsReading(value, readings)
    ensures obj in measured
       <==> exists value :: IsGiven(source, obj, value) && value.Some? && Duration(value.value, readings, measured)
  {
    hide Reading;
    hide Duration;
    hide IsGiven;
    hide ClockFixpoint.LeastClosed;
    StoredIsGiven(source, stores, obj);
    hide Collects;
    ClockFixpoint.LeastIsFixed(stores, readings, measured, obj);
    if obj in stores {
      assert forall value :: value in stores[obj] ==> (IsReading(value, readings) <==> value.Some? && Reading(value.value, readings));
    }
  }

  lemma StoredIsGiven(source: Source, stores: ClockFixpoint.Stores, obj: Obj)
    requires Collects(source, stores)
    ensures obj in stores <==> exists value :: IsGiven(source, obj, value)
    ensures obj in stores ==> forall value :: value in stores[obj] <==> IsGiven(source, obj, value)
  {
    hide IsGiven;
    hide Collects;
    forall value ensures Holds(stores, obj, value) <==> IsGiven(source, obj, value) {
      HoldsExactlyWhen(source, stores, obj, value);
    }
    StoredIsHeld(source, stores, obj);
  }

  lemma StoredIsHeld(source: Source, stores: ClockFixpoint.Stores, obj: Obj)
    requires Collects(source, stores)
    ensures obj in stores ==> exists value :: Holds(stores, obj, value)
  {
    if obj in stores {
      assert Holds(stores, obj, stores[obj][0]);
    }
  }
}
