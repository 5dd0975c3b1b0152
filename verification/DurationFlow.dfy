/** The flow-sensitive half of rule LV1007 (runner/lint/policy/wallclock_flow.go). */
module DurationFlow {
  // A worklist over a function's control-flow graph marks the identifiers read while their
  // variable holds a measured duration.  A map from objects to true is the set of its keys.

  import opened Options
  import opened ClockExpressions
  import ClockFixpoint

  /** What one CFG node stores: an assignment, with `compound` for a token other than
      = and :=, or a var declaration.  None stands for a left side localVar rejects. */
  datatype Effect =
    | NoStore
    | Assign(lhs: seq<Option<Obj>>, rhs: seq<Expr>, compound: bool)
    | Declare(lhs: seq<Option<Obj>>, rhs: seq<Expr>)
  {
    predicate Compound() {
      Assign? && compound
    }
  }

  /** A CFG node: the identifiers it mentions outside function literals, with the
      objects they use, and what it stores. */
  datatype Node = Node(mentions: seq<(Ident, Obj)>, effect: Effect)

  /** A basic block; range bodies name the variables each pass overwrites. */
  datatype Block = Block(rangeKills: seq<Option<Obj>>, nodes: seq<Node>, succs: seq<nat>)

  /** The graph of one function body, block 0 being the entry, and the variables
      closureWrites found that a callback may change. */
  datatype Graph = Graph(blocks: seq<Block>, shared: set<Obj>) {
    predicate Valid() {
      |blocks| > 0 && forall b, i :: 0 <= b < |blocks| && 0 <= i < |blocks[b].succs| ==> blocks[b].succs[i] < |blocks|
    }
  }

  // ---- Transfer functions ----

  /** Whether storing the i-th left side of `e` leaves its variable measured. */
  predicate Stored(e: Effect, i: nat, readings: set<Obj>, state: set<Obj>)
    requires !e.NoStore? && i < |e.lhs|
  {
    (e.Compound() && Has(state, e.lhs[i]))
    || (|e.rhs| == |e.lhs| && Duration(e.rhs[i], readings, state))
  }

  /** The values map after the first n left sides: a repeated variable keeps the last. */
  function Values(e: Effect, n: nat, readings: set<Obj>, state: set<Obj>): map<Obj, bool>
    requires !e.NoStore? && n <= |e.lhs|
  {
    if n == 0 then map[]
    else
      var before := Values(e, n - 1, readings, state);
      if e.lhs[n - 1].None? then before
      else before[e.lhs[n - 1].value := Stored(e, n - 1, readings, state)]
  }

  function Overwrite(state: set<Obj>, values: map<Obj, bool>): set<Obj> {
    (set obj | obj in state && obj !in values) + (set obj | obj in values && values[obj])
  }

  function AfterStore(e: Effect, readings: set<Obj>, state: set<Obj>): set<Obj> {
    if e.NoStore? then state else Overwrite(state, Values(e, |e.lhs|, readings, state))
  }

  /** The state after the first n nodes of a block entered with `state`. */
  function AfterNodes(g: Graph, nodes: seq<Node>, readings: set<Obj>, state: set<Obj>): set<Obj>
    decreases |nodes|
  {
    if nodes == [] then state
    else AfterStore(nodes[|nodes| - 1].effect, readings, AfterNodes(g, nodes[..|nodes| - 1], readings, state)) + g.shared
  }

  function Enter(g: Graph, b: Block, state: set<Obj>): set<Obj> {
    (set obj | obj in state && Some(obj) !in b.rangeKills) + g.shared
  }

  function Transfer(g: Graph, b: Block, readings: set<Obj>, state: set<Obj>): set<Obj> {
    AfterNodes(g, b.nodes, readings, Enter(g, b, state))
  }

  /** Block b, entered with `state`, reads `ident` while its variable is measured. */
  ghost predicate Reads(g: Graph, b: Block, readings: set<Obj>, state: set<Obj>, ident: Ident) {
    exists n, obj :: 0 <= n < |b.nodes| && (ident, obj) in b.nodes[n].mentions
                     && obj in AfterNodes(g, b.nodes[..n], readings, Enter(g, b, state))
  }

  // ---- Path-by-path meaning ----

  ghost predicate IsPath(g: Graph, path: seq<nat>) {
    && |path| > 0 && path[0] == 0 && |g.blocks| > 0
    && (forall i :: 0 <= i < |path| ==> path[i] < |g.blocks|)
    && (forall i :: 0 < i < |path| ==> path[i] in g.blocks[path[i - 1]].succs)
  }

  function Last(path: seq<nat>): nat
    requires |path| > 0
  {
    path[|path| - 1]
  }

  /** The measured variables on entry to the last block of a path, run block by block. */
  ghost function AlongPath(g: Graph, readings: set<Obj>, measured: set<Obj>, path: seq<nat>): set<Obj>
    requires IsPath(g, path)
    decreases |path|
  {
    if |path| == 1 then measured
    else
      var before := path[..|path| - 1];
      Transfer(g, g.blocks[Last(before)], readings, AlongPath(g, readings, measured, before))
  }

  /** Some path from the entry reads `ident` with its variable measured. */
  ghost predicate ReadOnSomePath(g: Graph, readings: set<Obj>, measured: set<Obj>, ident: Ident) {
    exists path :: IsPath(g, path)
                   && Reads(g, g.blocks[Last(path)], readings, AlongPath(g, readings, measured, path), ident)
  }

  // ---- Transfer is monotone and distributes over union ----

  lemma StoredMonotone(e: Effect, i: nat, readings: set<Obj>, small: set<Obj>, large: set<Obj>)
    requires !e.NoStore? && i < |e.lhs| && small <= large
    requires Stored(e, i, readings, small)
    ensures Stored(e, i, readings, large)
  {
    if |e.rhs| == |e.lhs| && Duration(e.rhs[i], readings, small) {
      DurationMonotone(e.rhs[i], readings, small, readings, large);
    }
  }

  lemma {:induction false} ValuesKeys(e: Effect, n: nat, readings: set<Obj>, s1: set<Obj>, s2: set<Obj>)
    requires !e.NoStore? && n <= |e.lhs|
    ensures Values(e, n, readings, s1).Keys == Values(e, n, readings, s2).Keys
  {
    if n > 0 {
      ValuesKeys(e, n - 1, readings, s1, s2);
    }
  }

  lemma {:induction false} ValuesMonotone(e: Effect, n: nat, readings: set<Obj>, small: set<Obj>, large: set<Obj>, obj: Obj)
    requires !e.NoStore? && n <= |e.lhs| && small <= large
    requires obj in Values(e, n, readings, small) && Values(e, n, readings, small)[obj]
    ensures obj in Values(e, n, readings, large) && Values(e, n, readings, large)[obj]
  {
    if e.lhs[n - 1] == Some(obj) {
      StoredMonotone(e, n - 1, readings, small, large);
    } else {
      ValuesMonotone(e, n - 1, readings, small, large, obj);
    }
  }

  lemma AfterStoreMonotone(e: Effect, readings: set<Obj>, small: set<Obj>, large: set<Obj>)
    requires small <= large
    ensures AfterStore(e, readings, small) <= AfterStore(e, readings, large)
  {
    if !e.NoStore? {
      ValuesKeys(e, |e.lhs|, readings, small, large);
      forall obj | obj in AfterStore(e, readings, small) ensures obj in AfterStore(e, readings, large) {
        if obj in Values(e, |e.lhs|, readings, small) {
          ValuesMonotone(e, |e.lhs|, readings, small, large, obj);
        }
      }
    }
  }

  lemma {:induction false} AfterNodesMonotone(g: Graph, nodes: seq<Node>, readings: set<Obj>, small: set<Obj>, large: set<Obj>)
    requires small <= large
    ensures AfterNodes(g, nodes, readings, small) <= AfterNodes(g, nodes, readings, large)
    decreases |nodes|
  {
    if nodes != [] {
      var before := nodes[..|nodes| - 1];
      AfterNodesMonotone(g, before, readings, small, large);
      AfterStoreMonotone(nodes[|nodes| - 1].effect, readings,
                         AfterNodes(g, before, readings, small), AfterNodes(g, before, readings, large));
    }
  }

  lemma TransferMonotone(g: Graph, b: Block, readings: set<Obj>, small: set<Obj>, large: set<Obj>)
    requires small <= large
    ensures Transfer(g, b, readings, small) <= Transfer(g, b, readings, large)
    ensures forall ident :: Reads(g, b, readings, small, ident) ==> Reads(g, b, readings, large, ident)
  {
    var smallIn, largeIn := Enter(g, b, small), Enter(g, b, large);
    AfterNodesMonotone(g, b.nodes, readings, smallIn, largeIn);
    forall n | 0 <= n < |b.nodes|
      ensures AfterNodes(g, b.nodes[..n], readings, smallIn) <= AfterNodes(g, b.nodes[..n], readings, largeIn)
    {
      AfterNodesMonotone(g, b.nodes[..n], readings, smallIn, largeIn);
    }
  }

  lemma {:induction false} ValuesHaveOneCause(e: Effect, n: nat, readings: set<Obj>, state: set<Obj>, obj: Obj)
    returns (cause: set<Obj>)
    requires !e.NoStore? && n <= |e.lhs|
    requires obj in Values(e, n, readings, state) && Values(e, n, readings, state)[obj]
    ensures cause <= state && |cause| <= 1
    ensures obj in Values(e, n, readings, cause) && Values(e, n, readings, cause)[obj]
  {
    if e.lhs[n - 1] != Some(obj) {
      cause := ValuesHaveOneCause(e, n - 1, readings, state, obj);
    } else if e.Compound() && obj in state {
      cause := {obj};
    } else {
      cause := DurationHasOneCause(e.rhs[n - 1], readings, state);
    }
  }

  lemma AfterStoreHasOneCause(e: Effect, readings: set<Obj>, state: set<Obj>, obj: Obj) returns (cause: set<Obj>)
    requires obj in AfterStore(e, readings, state)
    ensures cause <= state && |cause| <= 1
    ensures obj in AfterStore(e, readings, cause)
  {
    if e.NoStore? || obj !in Values(e, |e.lhs|, readings, state) {
      cause := {obj};
      if !e.NoStore? {
        ValuesKeys(e, |e.lhs|, readings, state, cause);
      }
    } else {
      cause := ValuesHaveOneCause(e, |e.lhs|, readings, state, obj);
    }
  }

  lemma {:induction false} AfterNodesHaveOneCause(g: Graph, nodes: seq<Node>, readings: set<Obj>, state: set<Obj>, obj: Obj)
    returns (cause: set<Obj>)
    requires obj in AfterNodes(g, nodes, readings, state)
    ensures cause <= state && |cause| <= 1
    ensures obj in AfterNodes(g, nodes, readings, cause)
    decreases |nodes|
  {
    if nodes == [] {
      cause := {obj};
    } else if obj in g.shared {
      cause := {};
    } else {
      var before, effect := nodes[..|nodes| - 1], nodes[|nodes| - 1].effect;
      var middle := AfterStoreHasOneCause(effect, readings, AfterNodes(g, before, readings, state), obj);
      if middle == {} {
        cause := {};
      } else {
        var x :| x in middle;
        assert middle == {x} by { SingletonIsWhole(middle, x); }
        cause := AfterNodesHaveOneCause(g, before, readings, state, x);
      }
      AfterStoreMonotone(effect, readings, middle, AfterNodes(g, before, readings, cause));
    }
  }

  lemma SingletonIsWhole(s: set<Obj>, x: Obj)
    requires x in s && |s| <= 1
    ensures s == {x}
  {
    assert |s - {x}| == |s| - 1;
  }

  lemma EnterHasOneCause(g: Graph, b: Block, state: set<Obj>, middle: set<Obj>) returns (cause: set<Obj>)
    requires middle <= Enter(g, b, state) && |middle| <= 1
    ensures cause <= state && |cause| <= 1
    ensures middle <= Enter(g, b, cause)
  {
    cause := {};
    if middle != {} {
      var x :| x in middle;
      SingletonIsWhole(middle, x);
      if x !in g.shared {
        cause := {x};
      }
    }
  }

  /** The transfer of a block distributes over union: whatever it leaves measured it
      would leave measured entered with at most one of the variables it was entered with. */
  lemma TransferDistributes(g: Graph, b: Block, readings: set<Obj>, state: set<Obj>, obj: Obj) returns (cause: set<Obj>)
    requires obj in Transfer(g, b, readings, state)
    ensures cause <= state && |cause| <= 1
    ensures obj in Transfer(g, b, readings, cause)
  {
    var middle := AfterNodesHaveOneCause(g, b.nodes, readings, Enter(g, b, state), obj);
    cause := EnterHasOneCause(g, b, state, middle);
    AfterNodesMonotone(g, b.nodes, readings, middle, Enter(g, b, cause));
  }

  lemma ReadsDistribute(g: Graph, b: Block, readings: set<Obj>, state: set<Obj>, ident: Ident) returns (cause: set<Obj>)
    requires Reads(g, b, readings, state, ident)
    ensures cause <= state && |cause| <= 1
    ensures Reads(g, b, readings, cause, ident)
  {
    var n, obj :| 0 <= n < |b.nodes| && (ident, obj) in b.nodes[n].mentions
                  && obj in AfterNodes(g, b.nodes[..n], readings, Enter(g, b, state));
    var middle := AfterNodesHaveOneCause(g, b.nodes[..n], readings, Enter(g, b, state), obj);
    cause := EnterHasOneCause(g, b, state, middle);
    AfterNodesMonotone(g, b.nodes[..n], readings, middle, Enter(g, b, cause));
  }

  // ---- storeDuration ----

  predicate IsTarget(e: Effect, obj: Obj) {
    !e.NoStore? && Some(obj) in e.lhs
  }

  /** The variable's last left side is the i-th. */
  predicate IsLastTarget(e: Effect, obj: Obj, i: nat) {
    !e.NoStore? && i < |e.lhs| && e.lhs[i] == Some(obj) && forall k :: i < k < |e.lhs| ==> e.lhs[k] != Some(obj)
  }

  /** What a statement leaves measured.  A variable it does not store in is as before.  One it
      does is measured when it was and the store is compound, or when the right side paired with
      its last left side is a duration measured with the variables as they were before. */
  ghost predicate Leaves(e: Effect, readings: set<Obj>, before: set<Obj>, after: set<Obj>) {
    && (forall obj: Obj :: !IsTarget(e, obj) ==> (obj in after <==> obj in before))
    && (forall obj: Obj, i: nat :: IsLastTarget(e, obj, i) ==>
          (obj in after <==>
            || (e.Assign? && e.compound && obj in before)
            || (|e.lhs| == |e.rhs| && Duration(e.rhs[i], readings, before))))
  }

  lemma {:induction false} ValuesAreLast(e: Effect, n: nat, readings: set<Obj>, state: set<Obj>, obj: Obj, i: nat)
    requires !e.NoStore? && i < n <= |e.lhs| && e.lhs[i] == Some(obj) && forall k :: i < k < n ==> e.lhs[k] != Some(obj)
    ensures obj in Values(e, n, readings, state) && Values(e, n, readings, state)[obj] == Stored(e, i, readings, state)
  {
    if i < n - 1 {
      ValuesAreLast(e, n - 1, readings, state, obj, i);
    }
  }

  lemma StoreLeaves(e: Effect, readings: set<Obj>, before: set<Obj>)
    ensures Leaves(e, readings, before, AfterStore(e, readings, before))
  {
    var after := AfterStore(e, readings, before);
    if !e.NoStore? {
      forall obj: Obj | !IsTarget(e, obj) ensures obj in after <==> obj in before {
        if obj in Values(e, |e.lhs|, readings, before) {
          ValuesAreWritten(e, |e.lhs|, readings, before, obj);
        }
      }
      forall obj: Obj, i: nat | IsLastTarget(e, obj, i)
        ensures obj in after <==> (e.Assign? && e.compound && obj in before) || (|e.lhs| == |e.rhs| && Duration(e.rhs[i], readings, before))
      {
        ValuesAreLast(e, |e.lhs|, readings, before, obj, i);
      }
    }
  }

  /** storeDuration: every right side is evaluated before the state changes. */
  method StoreDuration(effect: Effect, readings: set<Obj>, before: set<Obj>) returns (measured: set<Obj>)
    ensures measured == AfterStore(effect, readings, before)
    ensures Leaves(effect, readings, before, measured)
  {
    hide Leaves;
    StoreLeaves(effect, readings, before);
    measured := before;
    if effect.NoStore? {
      return;
    }
    var values: map<Obj, bool> := map[];
    for i := 0 to |effect.lhs|
      invariant values == Values(effect, i, readings, before)
    {
      var obj := effect.lhs[i];
      if obj.Some? {
        var value := effect.Compound() && obj.value in before;
        if |effect.rhs| == |effect.lhs| {
          value := value || Duration(effect.rhs[i], readings, before);
        }
        values := values[obj.value := value];
      }
    }
    var todo := values.Keys;
    while todo != {}
      invariant todo <= values.Keys
      invariant measured == Overwrite(before, map obj | obj in values && obj !in todo :: values[obj])
    {
      var obj :| obj in todo;
      todo := todo - {obj};
      if values[obj] {
        measured := measured + {obj};
      } else {
        measured := measured - {obj};
      }
    }
    assert (map obj | obj in values && obj !in todo :: values[obj]) == values;
  }

  // ---- The worklist ----

  /** A block's incoming map; None until some path reaches it. */
  type Incoming = seq<Option<set<Obj>>>

  /** Every fact in `incoming` is one some path justifies. */
  ghost predicate Justified(g: Graph, readings: set<Obj>, measured: set<Obj>, incoming: Incoming)
    requires |incoming| == |g.blocks|
  {
    forall b :: 0 <= b < |incoming| && incoming[b].Some? ==>
      && (exists path :: IsPath(g, path) && Last(path) == b)
      && forall obj :: obj in incoming[b].value ==>
           exists path :: IsPath(g, path) && Last(path) == b && obj in AlongPath(g, readings, measured, path)
  }

  /** Block b's effect is already in its successors' incoming maps and in `uses`. */
  ghost predicate Settled(g: Graph, readings: set<Obj>, incoming: Incoming, uses: set<Ident>, b: nat)
    requires |incoming| == |g.blocks| && b < |g.blocks| && incoming[b].Some?
  {
    && (forall next :: next in g.blocks[b].succs ==>
          next < |g.blocks| && incoming[next].Some?
          && Transfer(g, g.blocks[b], readings, incoming[b].value) <= incoming[next].value)
    && (forall ident :: Reads(g, g.blocks[b], readings, incoming[b].value, ident) ==> ident in uses)
  }

  /** A set of at most one variable known at block b lies on one path to b. */
  lemma CauseOnPath(g: Graph, readings: set<Obj>, measured: set<Obj>, incoming: Incoming, b: nat, cause: set<Obj>)
    returns (path: seq<nat>)
    requires |incoming| == |g.blocks| && b < |g.blocks| && incoming[b].Some?
    requires Justified(g, readings, measured, incoming)
    requires cause <= incoming[b].value && |cause| <= 1
    ensures IsPath(g, path) && Last(path) == b
    ensures cause <= AlongPath(g, readings, measured, path)
  {
    if cause == {} {
      path :| IsPath(g, path) && Last(path) == b;
    } else {
      var x :| x in cause;
      SingletonIsWhole(cause, x);
      path :| IsPath(g, path) && Last(path) == b && x in AlongPath(g, readings, measured, path);
    }
  }

  lemma ReadsAreJustified(g: Graph, readings: set<Obj>, measured: set<Obj>, incoming: Incoming, b: nat, ident: Ident)
    requires |incoming| == |g.blocks| && b < |g.blocks| && incoming[b].Some?
    requires Justified(g, readings, measured, incoming)
    requires Reads(g, g.blocks[b], readings, incoming[b].value, ident)
    ensures ReadOnSomePath(g, readings, measured, ident)
  {
    var cause := ReadsDistribute(g, g.blocks[b], readings, incoming[b].value, ident);
    var path := CauseOnPath(g, readings, measured, incoming, b, cause);
    TransferMonotone(g, g.blocks[b], readings, cause, AlongPath(g, readings, measured, path));
  }

  lemma TransferIsJustified(g: Graph, readings: set<Obj>, measured: set<Obj>, incoming: Incoming, b: nat, next: nat, obj: Obj)
    requires g.Valid() && |incoming| == |g.blocks| && b < |g.blocks| && incoming[b].Some?
    requires Justified(g, readings, measured, incoming)
    requires next in g.blocks[b].succs
    requires obj in Transfer(g, g.blocks[b], readings, incoming[b].value)
    ensures exists path :: IsPath(g, path) && Last(path) == next && obj in AlongPath(g, readings, measured, path)
  {
    var cause := TransferDistributes(g, g.blocks[b], readings, incoming[b].value, obj);
    var path := CauseOnPath(g, readings, measured, incoming, b, cause);
    TransferMonotone(g, g.blocks[b], readings, cause, AlongPath(g, readings, measured, path));
    assert (path + [next])[..|path|] == path;
    assert IsPath(g, path + [next]);
  }

  lemma SuccessorHasPath(g: Graph, readings: set<Obj>, measured: set<Obj>, incoming: Incoming, b: nat, next: nat)
    requires g.Valid() && |incoming| == |g.blocks| && b < |g.blocks| && incoming[b].Some?
    requires Justified(g, readings, measured, incoming)
    requires next in g.blocks[b].succs
    ensures exists path :: IsPath(g, path) && Last(path) == next
  {
    var path := CauseOnPath(g, readings, measured, incoming, b, {});
    assert IsPath(g, path + [next]);
  }

  /** Once every reached block is settled, each path's state is below its block's incoming map. */
  lemma {:induction false} PathsAreCovered(g: Graph, readings: set<Obj>, measured: set<Obj>, incoming: Incoming, uses: set<Ident>, path: seq<nat>)
    requires g.Valid() && |incoming| == |g.blocks|
    requires incoming[0].Some? && measured <= incoming[0].value
    requires forall b :: 0 <= b < |incoming| && incoming[b].Some? ==> Settled(g, readings, incoming, uses, b)
    requires IsPath(g, path)
    ensures incoming[Last(path)].Some?
    ensures AlongPath(g, readings, measured, path) <= incoming[Last(path)].value
    decreases |path|
  {
    if |path| > 1 {
      var before := path[..|path| - 1];
      PathsAreCovered(g, readings, measured, incoming, uses, before);
      TransferMonotone(g, g.blocks[Last(before)], readings,
                       AlongPath(g, readings, measured, before), incoming[Last(before)].value);
      assert Last(path) in g.blocks[Last(before)].succs;
    }
  }

  /** Variables the analysis can ever mark: the seeds, the shared ones and every store. */
  ghost function Written(g: Graph): set<Obj> {
    set b: nat, n: nat, i: nat | b < |g.blocks| && n < |g.blocks[b].nodes| && !g.blocks[b].nodes[n].effect.NoStore?
                            && i < |g.blocks[b].nodes[n].effect.lhs| && g.blocks[b].nodes[n].effect.lhs[i].Some?
      :: g.blocks[b].nodes[n].effect.lhs[i].value
  }

  lemma {:induction false} ValuesAreWritten(e: Effect, n: nat, readings: set<Obj>, state: set<Obj>, obj: Obj)
    requires !e.NoStore? && n <= |e.lhs|
    requires obj in Values(e, n, readings, state)
    ensures exists i :: 0 <= i < n && e.lhs[i] == Some(obj)
  {
    if e.lhs[n - 1] != Some(obj) {
      ValuesAreWritten(e, n - 1, readings, state, obj);
    }
  }

  lemma {:induction false} AfterNodesAreWritten(g: Graph, b: nat, n: nat, readings: set<Obj>, state: set<Obj>)
    requires b < |g.blocks| && n <= |g.blocks[b].nodes|
    ensures AfterNodes(g, g.blocks[b].nodes[..n], readings, state) <= state + g.shared + Written(g)
  {
    if n > 0 {
      var nodes := g.blocks[b].nodes;
      assert nodes[..n][..n - 1] == nodes[..n - 1];
      AfterNodesAreWritten(g, b, n - 1, readings, state);
      var effect, before := nodes[n - 1].effect, AfterNodes(g, nodes[..n - 1], readings, state);
      forall obj | obj in AfterStore(effect, readings, before) ensures obj in before + Written(g) {
        if obj !in before {
          ValuesAreWritten(effect, |effect.lhs|, readings, before, obj);
        }
      }
    }
  }

  lemma TransferIsWritten(g: Graph, b: nat, readings: set<Obj>, state: set<Obj>)
    requires b < |g.blocks|
    ensures Transfer(g, g.blocks[b], readings, state) <= state + g.shared + Written(g)
  {
    var nodes := g.blocks[b].nodes;
    assert nodes[..|nodes|] == nodes;
    AfterNodesAreWritten(g, b, |nodes|, readings, Enter(g, g.blocks[b], state));
  }

  /** One block's pass: its reads join `uses`, and the state leaving it is returned. */
  method WalkBlock(g: Graph, b: nat, readings: set<Obj>, entering: set<Obj>, seen: set<Ident>)
    returns (state: set<Obj>, uses: set<Ident>)
    requires b < |g.blocks|
    ensures state == Transfer(g, g.blocks[b], readings, entering)
    ensures forall ident :: ident in uses <==> ident in seen || Reads(g, g.blocks[b], readings, entering, ident)
  {
    var block := g.blocks[b];
    ghost var entry := Enter(g, block, entering);
    state := entering;
    uses := seen;
    for i := 0 to |block.rangeKills|
      invariant state == set obj | obj in entering && Some(obj) !in block.rangeKills[..i]
    {
      if block.rangeKills[i].Some? {
        state := state - {block.rangeKills[i].value};
      }
    }
    state := state + g.shared;
    assert block.rangeKills[..|block.rangeKills|] == block.rangeKills;
    for n := 0 to |block.nodes|
      invariant state == AfterNodes(g, block.nodes[..n], readings, entry)
      invariant forall ident :: ident in uses <==>
        ident in seen || exists k, obj :: 0 <= k < n && (ident, obj) in block.nodes[k].mentions
                                          && obj in AfterNodes(g, block.nodes[..k], readings, entry)
    {
      var mentions := block.nodes[n].mentions;
      ghost var before := uses;
      for i := 0 to |mentions|
        invariant forall ident :: ident in uses <==>
          ident in before || exists obj :: (ident, obj) in mentions[..i] && obj in state
      {
        var (ident, obj) := mentions[i];
        if obj in state {
          uses := uses + {ident};
        }
        assert mentions[..i + 1] == mentions[..i] + [mentions[i]];
      }
      assert mentions[..|mentions|] == mentions;
      state := StoreDuration(block.nodes[n].effect, readings, state);
      state := state + g.shared;
      assert block.nodes[..n + 1][..n] == block.nodes[..n];
    }
    assert block.nodes[..|block.nodes|] == block.nodes;
  }

  /** What a successor's incoming map becomes when `state` flows into it. */
  function Joined(slot: Option<set<Obj>>, state: set<Obj>): set<Obj> {
    (if slot.Some? then slot.value else {}) + state
  }

  /** Merges `state` into one successor, in any order of its variables. */
  method Join(incoming: array<Option<set<Obj>>>, next: nat, state: set<Obj>) returns (changed: bool)
    requires next < incoming.Length
    modifies incoming
    ensures incoming[..] == old(incoming[..])[next := Some(Joined(old(incoming[next]), state))]
    ensures changed <==> incoming[next] != old(incoming[next])
  {
    changed := incoming[next] == None;
    if changed {
      incoming[next] := Some({});
    }
    ghost var start := incoming[next].value;
    var todo := state;
    while todo != {}
      invariant todo <= state && incoming[next].Some?
      invariant incoming[..] == old(incoming[..])[next := incoming[next]]
      invariant incoming[next].value == start + (state - todo)
      invariant changed <==> incoming[next] != old(incoming[next])
    {
      var obj :| obj in todo;
      todo := todo - {obj};
      if obj !in incoming[next].value {
        incoming[next] := Some(incoming[next].value + {obj});
        changed := true;
      }
    }
    assert incoming[next].value == Joined(old(incoming[next]), state);
  }

  ghost predicate Grown(before: Incoming, after: Incoming) {
    |before| == |after|
    && forall b :: 0 <= b < |before| && before[b].Some? ==> after[b].Some? && before[b].value <= after[b].value
  }

  /** What every turn of the worklist keeps. */
  ghost predicate Consistent(g: Graph, readings: set<Obj>, measured: set<Obj>, incoming: Incoming,
                             pending: seq<nat>, uses: set<Ident>, seen: set<Ident>)
    requires g.Valid()
  {
    && |incoming| == |g.blocks|
    && incoming[0].Some? && measured <= incoming[0].value
    && (forall b :: b in pending ==> b < |g.blocks| && incoming[b].Some?)
    && Justified(g, readings, measured, incoming)
    && seen <= uses
    && (forall ident :: ident in uses ==> ident in seen || ReadOnSomePath(g, readings, measured, ident))
    && (forall b :: 0 <= b < |incoming| && incoming[b].Some? ==>
          incoming[b].value <= measured + g.shared + Written(g)
          && (b in pending || Settled(g, readings, incoming, uses, b)))
  }

  ghost function Unreached(incoming: Incoming): set<nat> {
    set b: nat | b < |incoming| && incoming[b].None?
  }

  ghost function Missing(incoming: Incoming, domain: set<Obj>): set<(nat, Obj)> {
    set b: nat, obj | b < |incoming| && incoming[b].Some? && obj in domain && obj !in incoming[b].value :: (b, obj)
  }

  lemma GrowthIsProgress(before: Incoming, after: Incoming, domain: set<Obj>)
    requires Grown(before, after) && before != after
    requires forall b :: 0 <= b < |after| && after[b].Some? ==> after[b].value <= domain
    ensures Unreached(after) < Unreached(before)
            || (Unreached(after) == Unreached(before) && Missing(after, domain) < Missing(before, domain))
  {
    var b: nat :| b < |before| && before[b] != after[b];
    if Unreached(after) == Unreached(before) {
      forall x: nat | x < |before| && before[x].None? ensures after[x].None? {
        assert x in Unreached(before);
      }
      assert before[b] == Some(before[b].value) && after[b] == Some(after[b].value);
      assert before[b].value != after[b].value && before[b].value <= after[b].value;
      var obj :| obj in after[b].value && obj !in before[b].value;
      assert (b, obj) in Missing(before, domain) && (b, obj) !in Missing(after, domain);
      assert Missing(after, domain) <= Missing(before, domain);
    } else {
      assert Unreached(after) <= Unreached(before);
    }
  }

  lemma SettledPersists(g: Graph, readings: set<Obj>, before: Incoming, after: Incoming,
                        uses: set<Ident>, moreUses: set<Ident>, b: nat)
    requires |before| == |g.blocks| && b < |g.blocks| && before[b].Some? && Grown(before, after)
    requires Settled(g, readings, before, uses, b)
    requires after[b] == before[b] && uses <= moreUses
    ensures Settled(g, readings, after, moreUses, b)
  {
  }

  /** What merging a state into some successors does: nothing shrinks, a block whose map
      grew is pending, and each of those successors holds the state. */
  ghost predicate Propagated(succs: seq<nat>, state: set<Obj>, domain: set<Obj>,
                             before: Incoming, after: Incoming, waiting: seq<nat>, pending: seq<nat>)
  {
    && Grown(before, after)
    && waiting <= pending
    && (forall x :: x in pending ==> x in waiting || (x < |after| && after[x].Some?))
    && (forall x :: 0 <= x < |before| ==>
          after[x] == before[x] || (x in pending && after[x].Some? && after[x].value <= domain))
    && (after == before ==> pending == waiting)
    && (forall next :: next in succs ==> next < |after| && after[next].Some? && state <= after[next].value)
  }

  lemma PropagateOne(succs: seq<nat>, next: nat, state: set<Obj>, domain: set<Obj>, before: Incoming,
                     middle: Incoming, after: Incoming, waiting: seq<nat>, pending: seq<nat>)
    requires Propagated(succs, state, domain, before, middle, waiting, pending)
    requires next < |middle| && state <= domain
    requires middle[next].Some? ==> middle[next].value <= domain
    requires after == middle[next := Some(Joined(middle[next], state))]
    ensures Propagated(succs + [next], state, domain, before, after, waiting,
                       if after[next] != middle[next] then pending + [next] else pending)
  {
    if after[next] == middle[next] {
      assert after == middle;
    } else if before[next].Some? {
      assert middle[next] == Some(middle[next].value) && middle[next].value != after[next].value;
      var obj :| obj in after[next].value && obj !in middle[next].value;
      assert obj !in before[next].value;
    }
  }

  method Propagate(g: Graph, incoming: array<Option<set<Obj>>>, waiting: seq<nat>, b: nat, readings: set<Obj>,
                   state: set<Obj>, ghost measured: set<Obj>, ghost domain: set<Obj>)
    returns (pending: seq<nat>)
    requires g.Valid() && incoming.Length == |g.blocks| && b < |g.blocks| && incoming[b].Some?
    requires forall x :: 0 <= x < incoming.Length && incoming[x].Some? ==> incoming[x].value <= domain
    requires Justified(g, readings, measured, incoming[..])
    requires state == Transfer(g, g.blocks[b], readings, incoming[b].value) && state <= domain
    modifies incoming
    ensures Justified(g, readings, measured, incoming[..])
    ensures Propagated(g.blocks[b].succs, state, domain, old(incoming[..]), incoming[..], waiting, pending)
  {
    ghost var before := incoming[..];
    var succs := g.blocks[b].succs;
    pending := waiting;
    for i := 0 to |succs|
      invariant Justified(g, readings, measured, incoming[..])
      invariant Propagated(succs[..i], state, domain, before, incoming[..], waiting, pending)
    {
      var next := succs[i];
      assert next in succs && succs[..i + 1] == succs[..i] + [next];
      ghost var middle := incoming[..];
      var changed := Join(incoming, next, state);
      JoinIsJustified(g, readings, measured, before, middle, b, next, state);
      PropagateOne(succs[..i], next, state, domain, before, middle, incoming[..], waiting, pending);
      if changed {
        pending := pending + [next];
      }
    }
    assert succs[..|succs|] == succs;
  }

  /** One turn of the worklist keeps Consistent. */
  lemma TurnKeepsConsistent(g: Graph, readings: set<Obj>, measured: set<Obj>, b: nat, before: Incoming, after: Incoming,
                            waiting: seq<nat>, pending: seq<nat>, oldUses: set<Ident>, uses: set<Ident>, seen: set<Ident>)
    requires g.Valid() && b < |g.blocks|
    requires Consistent(g, readings, measured, before, waiting + [b], oldUses, seen)
    requires Justified(g, readings, measured, before) && |after| == |g.blocks| && Justified(g, readings, measured, after)
    requires before[b].Some?
    requires Propagated(g.blocks[b].succs, Transfer(g, g.blocks[b], readings, before[b].value), measured + g.shared + Written(g),
                        before, after, waiting, pending)
    requires forall ident :: ident in uses <==> ident in oldUses || Reads(g, g.blocks[b], readings, before[b].value, ident)
    ensures Consistent(g, readings, measured, after, pending, uses, seen)
  {
    forall ident | ident in uses && ident !in oldUses ensures ReadOnSomePath(g, readings, measured, ident) {
      ReadsAreJustified(g, readings, measured, before, b, ident);
    }
    forall x | 0 <= x < |after| && after[x].Some? && x !in pending
      ensures Settled(g, readings, after, uses, x)
    {
      assert after[x] == before[x];
      if x != b {
        assert x !in waiting + [b];
        SettledPersists(g, readings, before, after, oldUses, uses, x);
      }
    }
    forall x | x in waiting ensures x < |g.blocks| && after[x].Some? {
      assert x in waiting + [b];
    }
  }

  /** flowDurations: the worklist stops, and what it adds to `seen` is exactly the
      identifiers some path from the entry reads with their variable measured. */
  method FlowDurations(g: Graph, readings: set<Obj>, measured: set<Obj>, seen: set<Ident>) returns (uses: set<Ident>)
    requires g.Valid()
    ensures forall ident :: ident in uses <==> ident in seen || ReadOnSomePath(g, readings, measured, ident)
  {
    var incoming := new Option<set<Obj>>[|g.blocks|](_ => None);
    incoming[0] := Some(measured);
    var pending: seq<nat> := [0];
    uses := seen;
    ghost var domain := measured + g.shared + Written(g);
    assert IsPath(g, [0]) && AlongPath(g, readings, measured, [0]) == measured;
    while |pending| > 0
      invariant incoming.Length == |g.blocks|
      invariant Consistent(g, readings, measured, incoming[..], pending, uses, seen)
      decreases Unreached(incoming[..]), Missing(incoming[..], domain), |pending|
    {
      ghost var before, oldUses := incoming[..], uses;
      var b, waiting := pending[|pending| - 1], pending[..|pending| - 1];
      assert pending == waiting + [b] && b in pending;
      var state;
      state, uses := WalkBlock(g, b, readings, incoming[b].value, uses);
      TransferIsWritten(g, b, readings, before[b].value);
      pending := Propagate(g, incoming, waiting, b, readings, state, measured, domain);
      TurnKeepsConsistent(g, readings, measured, b, before, incoming[..], waiting, pending, oldUses, uses, seen);
      if incoming[..] != before {
        GrowthIsProgress(before, incoming[..], domain);
      }
    }
    forall ident | ReadOnSomePath(g, readings, measured, ident) ensures ident in uses {
      CoveredReads(g, readings, measured, incoming[..], uses, ident);
    }
  }

  lemma CoveredReads(g: Graph, readings: set<Obj>, measured: set<Obj>, incoming: Incoming, uses: set<Ident>, ident: Ident)
    requires g.Valid() && |incoming| == |g.blocks|
    requires incoming[0].Some? && measured <= incoming[0].value
    requires forall b :: 0 <= b < |incoming| && incoming[b].Some? ==> Settled(g, readings, incoming, uses, b)
    requires ReadOnSomePath(g, readings, measured, ident)
    ensures ident in uses
  {
    var path :| IsPath(g, path)
                && Reads(g, g.blocks[Last(path)], readings, AlongPath(g, readings, measured, path), ident);
    PathsAreCovered(g, readings, measured, incoming, uses, path);
    TransferMonotone(g, g.blocks[Last(path)], readings,
                     AlongPath(g, readings, measured, path), incoming[Last(path)].value);
  }

  /** Merging a justified transfer into a justified map keeps it justified. */
  lemma JoinIsJustified(g: Graph, readings: set<Obj>, measured: set<Obj>, before: Incoming, middle: Incoming,
                        b: nat, next: nat, state: set<Obj>)
    requires g.Valid() && |before| == |middle| == |g.blocks| && b < |g.blocks| && before[b].Some?
    requires Justified(g, readings, measured, before) && Justified(g, readings, measured, middle)
    requires next in g.blocks[b].succs && next < |g.blocks|
    requires state == Transfer(g, g.blocks[b], readings, before[b].value)
    ensures Justified(g, readings, measured, middle[next := Some(Joined(middle[next], state))])
  {
    SuccessorHasPath(g, readings, measured, before, b, next);
    forall obj | obj in state
      ensures exists path :: IsPath(g, path) && Last(path) == next && obj in AlongPath(g, readings, measured, path)
    {
      TransferIsJustified(g, readings, measured, before, b, next, obj);
    }
  }

  // ---- Whole functions ----

  /** A store found anywhere in a body: its variable, and for each function literal around
      it within the body whether that literal's scope declares the variable. */
  datatype Write = Write(target: Option<Obj>, declaredIn: seq<bool>)

  /** One function body: its graph's blocks and every store inside it, closures included. */
  datatype Body = Body(blocks: seq<Block>, writes: seq<Write>)

  /** A callback declared outside the variable's scope stores it. */
  ghost predicate Captured(writes: seq<Write>, obj: Obj) {
    exists w :: w in writes && w.target == Some(obj) && false in w.declaredIn
  }

  ghost predicate GraphOf(body: Body, measured: set<Obj>, g: Graph) {
    g.blocks == body.blocks && forall obj :: obj in g.shared <==> obj in measured && Captured(body.writes, obj)
  }

  method ClosureWrites(body: Body, measured: set<Obj>) returns (shared: set<Obj>)
    ensures GraphOf(body, measured, Graph(body.blocks, shared))
  {
    shared := {};
    for i := 0 to |body.writes|
      invariant forall obj :: obj in shared <==> obj in measured && Captured(body.writes[..i], obj)
    {
      var w := body.writes[i];
      assert body.writes[..i + 1] == body.writes[..i] + [w];
      if Has(measured, w.target) {
        ghost var before := shared;
        for k := 0 to |w.declaredIn|
          invariant shared == if false in w.declaredIn[..k] then before + {w.target.value} else before
        {
          if !w.declaredIn[k] {
            shared := shared + {w.target.value};
          }
          assert w.declaredIn[..k + 1] == w.declaredIn[..k] + [w.declaredIn[k]];
        }
        assert w.declaredIn[..|w.declaredIn|] == w.declaredIn;
      }
    }
    assert body.writes[..|body.writes|] == body.writes;
  }

  /** Some path of some body reads the identifier with its variable measured. */
  ghost predicate MeasuredUse(bodies: seq<Body>, readings: set<Obj>, measured: set<Obj>, ident: Ident) {
    exists body, g :: body in bodies && GraphOf(body, measured, g) && ReadOnSomePath(g, readings, measured, ident)
  }

  /** durationUses over a function's body and the bodies of its literals: the result is the
      union of what each graph's paths read, whatever order anything is visited in. */
  method DurationUses(bodies: seq<Body>, readings: set<Obj>, measured: set<Obj>) returns (uses: set<Ident>)
    requires forall body :: body in bodies ==> Graph(body.blocks, {}).Valid()
    ensures forall ident :: ident in uses <==> MeasuredUse(bodies, readings, measured, ident)
  {
    uses := {};
    for i := 0 to |bodies|
      invariant forall ident :: ident in uses <==> MeasuredUse(bodies[..i], readings, measured, ident)
    {
      var body, seen := bodies[i], uses;
      assert bodies[..i + 1] == bodies[..i] + [body];
      var shared := ClosureWrites(body, measured);
      var g := Graph(body.blocks, shared);
      assert forall b, k :: 0 <= b < |g.blocks| && 0 <= k < |g.blocks[b].succs| ==>
        Graph(body.blocks, {}).blocks[b].succs[k] < |g.blocks|;
      uses := FlowDurations(g, readings, measured, seen);
      forall ident ensures ident in uses <==> MeasuredUse(bodies[..i + 1], readings, measured, ident) {
        if MeasuredUse(bodies[..i + 1], readings, measured, ident) && ident !in seen {
          var other, h :| other in bodies[..i + 1] && GraphOf(other, measured, h) && ReadOnSomePath(h, readings, measured, ident);
          assert other == body;
          assert h.shared == g.shared;
        }
      }
    }
    assert bodies[..|bodies|] == bodies;
  }

  // ---- The flow refines the fixpoint ----

  /** A store that is no node of a graph: the variables a skipped literal stores in or a range
      statement sets, whose values cannot be seen, or a statement the graphs leave out. */
  datatype Other = Unseen(lhs: seq<Option<Obj>>) | Unlisted(effect: Effect)

  /** A function as measureClock inspects it: its body and its literals' bodies, and every other
      store inside it. */
  datatype Source = Source(bodies: seq<Body>, others: seq<Other>) {
    ghost predicate Valid() {
      forall body :: body in bodies ==> Graph(body.blocks, {}).Valid()
    }
  }

  /** What measureClock records of a statement: the value of each left side, or that it cannot
      be seen.  A declaration without values starts at the zero value, which reads no clock. */
  predicate Puts(e: Effect, obj: Obj, value: Option<Expr>) {
    !e.NoStore? && !(e.Declare? && e.rhs == []) && PutsBefore(e, |e.lhs|, obj, value)
  }

  /** One of the first n left sides is the variable, with this value. */
  predicate PutsBefore(e: Effect, n: nat, obj: Obj, value: Option<Expr>)
    requires !e.NoStore? && n <= |e.lhs|
  {
    exists i :: 0 <= i < n && e.lhs[i] == Some(obj) && value == ValueAt(e, i)
  }

  function ValueAt(e: Effect, i: nat): Option<Expr>
    requires !e.NoStore? && i < |e.lhs|
  {
    if |e.lhs| == |e.rhs| then Some(e.rhs[i]) else None
  }

  predicate OtherPuts(other: Other, obj: Obj, value: Option<Expr>) {
    match other
    case Unseen(lhs) => Some(obj) in lhs && value == None
    case Unlisted(e) => Puts(e, obj, value)
  }

  predicate NodesPut(nodes: seq<Node>, obj: Obj, value: Option<Expr>) {
    exists node :: node in nodes && Puts(node.effect, obj, value)
  }

  predicate BlocksPut(blocks: seq<Block>, obj: Obj, value: Option<Expr>) {
    exists block :: block in blocks && NodesPut(block.nodes, obj, value)
  }

  predicate BodiesPut(bodies: seq<Body>, obj: Obj, value: Option<Expr>) {
    exists body :: body in bodies && BlocksPut(body.blocks, obj, value)
  }

  predicate OthersPut(others: seq<Other>, obj: Obj, value: Option<Expr>) {
    exists other :: other in others && OtherPuts(other, obj, value)
  }

  /** Every value the function stores in each variable, and nothing else. */
  ghost predicate Collects(source: Source, stores: ClockFixpoint.Stores) {
    && Filled(stores)
    && forall obj: Obj, value :: Holds(stores, obj, value) <==> BodiesPut(source.bodies, obj, value) || OthersPut(source.others, obj, value)
  }

  /** A variable is recorded with a value. */
  predicate Filled(stores: ClockFixpoint.Stores) {
    forall obj :: obj in stores ==> stores[obj] != []
  }

  predicate Holds(stores: ClockFixpoint.Stores, obj: Obj, value: Option<Expr>) {
    obj in stores && value in stores[obj]
  }

  /** record: appends a value to a local variable's. */
  method Record(stores: ClockFixpoint.Stores, target: Option<Obj>, value: Option<Expr>) returns (more: ClockFixpoint.Stores)
    ensures forall obj: Obj, v :: Holds(more, obj, v) <==> Holds(stores, obj, v) || (target == Some(obj) && v == value)
    ensures Filled(stores) ==> Filled(more)
  {
    more := stores;
    if target.Some? {
      var values := if target.value in stores then stores[target.value] else [];
      more := more[target.value := values + [value]];
    }
  }

  /** collect at one statement. */
  method CollectEffect(stores: ClockFixpoint.Stores, e: Effect) returns (more: ClockFixpoint.Stores)
    ensures forall obj: Obj, v :: Holds(more, obj, v) <==> Holds(stores, obj, v) || Puts(e, obj, v)
    ensures Filled(stores) ==> Filled(more)
  {
    hide Holds;
    hide Filled;
    more := stores;
    if e.NoStore? || (e.Declare? && e.rhs == []) {
      return;
    }
    for i := 0 to |e.lhs|
      invariant forall obj: Obj, v :: Holds(more, obj, v) <==> Holds(stores, obj, v) || PutsBefore(e, i, obj, v)
      invariant Filled(stores) ==> Filled(more)
    {
      more := Record(more, e.lhs[i], ValueAt(e, i));
    }
  }

  method CollectUnseen(stores: ClockFixpoint.Stores, lhs: seq<Option<Obj>>) returns (more: ClockFixpoint.Stores)
    ensures forall obj: Obj, v :: Holds(more, obj, v) <==> Holds(stores, obj, v) || (Some(obj) in lhs && v == None)
    ensures Filled(stores) ==> Filled(more)
  {
    hide Holds;
    hide Filled;
    more := stores;
    for i := 0 to |lhs|
      invariant forall obj: Obj, v :: Holds(more, obj, v) <==> Holds(stores, obj, v) || (Some(obj) in lhs[..i] && v == None)
      invariant Filled(stores) ==> Filled(more)
    {
      assert lhs[..i + 1] == lhs[..i] + [lhs[i]];
      more := Record(more, lhs[i], None);
    }
    assert lhs[..|lhs|] == lhs;
  }

  method CollectNodes(stores: ClockFixpoint.Stores, nodes: seq<Node>) returns (more: ClockFixpoint.Stores)
    ensures forall obj: Obj, v :: Holds(more, obj, v) <==> Holds(stores, obj, v) || NodesPut(nodes, obj, v)
    ensures Filled(stores) ==> Filled(more)
  {
    hide Holds;
    hide Filled;
    hide Puts;
    more := stores;
    for i := 0 to |nodes|
      invariant forall obj: Obj, v :: Holds(more, obj, v) <==> Holds(stores, obj, v) || NodesPut(nodes[..i], obj, v)
      invariant Filled(stores) ==> Filled(more)
    {
      assert nodes[..i + 1] == nodes[..i] + [nodes[i]];
      more := CollectEffect(more, nodes[i].effect);
    }
    assert nodes[..|nodes|] == nodes;
  }

  method CollectBlocks(stores: ClockFixpoint.Stores, blocks: seq<Block>) returns (more: ClockFixpoint.Stores)
    ensures forall obj: Obj, v :: Holds(more, obj, v) <==> Holds(stores, obj, v) || BlocksPut(blocks, obj, v)
    ensures Filled(stores) ==> Filled(more)
  {
    hide Holds;
    hide Filled;
    hide NodesPut;
    more := stores;
    for i := 0 to |blocks|
      invariant forall obj: Obj, v :: Holds(more, obj, v) <==> Holds(stores, obj, v) || BlocksPut(blocks[..i], obj, v)
      invariant Filled(stores) ==> Filled(more)
    {
      assert blocks[..i + 1] == blocks[..i] + [blocks[i]];
      more := CollectNodes(more, blocks[i].nodes);
    }
    assert blocks[..|blocks|] == blocks;
  }

  method CollectOthers(stores: ClockFixpoint.Stores, others: seq<Other>) returns (more: ClockFixpoint.Stores)
    ensures forall obj: Obj, v :: Holds(more, obj, v) <==> Holds(stores, obj, v) || OthersPut(others, obj, v)
    ensures Filled(stores) ==> Filled(more)
  {
    hide Holds;
    hide Filled;
    hide Puts;
    hide OthersPut;
    more := stores;
    NoOthers();
    for i := 0 to |others|
      invariant forall obj: Obj, v :: Holds(more, obj, v) <==> Holds(stores, obj, v) || OthersPut(others[..i], obj, v)
      invariant Filled(stores) ==> Filled(more)
    {
      assert others[..i + 1] == others[..i] + [others[i]];
      OneMoreOther(others[..i], others[i]);
      match others[i] {
        case Unseen(lhs) => more := CollectUnseen(more, lhs);
        case Unlisted(e) => more := CollectEffect(more, e);
      }
    }
    assert others[..|others|] == others;
  }

  lemma NoOthers()
    ensures forall obj: Obj, v :: !OthersPut([], obj, v)
  {
  }

  lemma OneMoreOther(others: seq<Other>, other: Other)
    ensures forall obj: Obj, v :: OthersPut(others + [other], obj, v) <==> OthersPut(others, obj, v) || OtherPuts(other, obj, v)
  {
    hide OtherPuts;
    assert forall x :: x in others + [other] <==> x in others || x == other;
  }

  /** measureClock's collect over the whole function. */
  method Collect(source: Source) returns (stores: ClockFixpoint.Stores)
    ensures Collects(source, stores)
  {
    hide Holds;
    hide Filled;
    hide BlocksPut;
    hide OthersPut;
    var bodies := source.bodies;
    stores := map[];
    NothingHeld();
    for i := 0 to |bodies|
      invariant forall obj: Obj, v :: Holds(stores, obj, v) <==> BodiesPut(bodies[..i], obj, v)
      invariant Filled(stores)
    {
      assert bodies[..i + 1] == bodies[..i] + [bodies[i]];
      stores := CollectBlocks(stores, bodies[i].blocks);
    }
    assert bodies[..|bodies|] == bodies;
    stores := CollectOthers(stores, source.others);
  }

  lemma NothingHeld()
    ensures Filled(map[]) && forall obj: Obj, v :: !Holds(map[], obj, v)
  {
  }

  /** The effect's values are recorded against the variables they are stored in. */
  ghost predicate Recorded(stores: ClockFixpoint.Stores, e: Effect) {
    !e.NoStore? && |e.lhs| == |e.rhs| ==>
      forall i :: 0 <= i < |e.lhs| && e.lhs[i].Some? ==> Holds(stores, e.lhs[i].value, Some(e.rhs[i]))
  }

  ghost predicate AllRecorded(stores: ClockFixpoint.Stores, blocks: seq<Block>) {
    forall b, n :: 0 <= b < |blocks| && 0 <= n < |blocks[b].nodes| ==> Recorded(stores, blocks[b].nodes[n].effect)
  }

  /** What measureClock collects holds every store of every graph of the function. */
  lemma CollectedIsRecorded(source: Source, stores: ClockFixpoint.Stores, body: Body)
    requires Collects(source, stores) && body in source.bodies
    ensures AllRecorded(stores, body.blocks)
  {
    forall b, n | 0 <= b < |body.blocks| && 0 <= n < |body.blocks[b].nodes| ensures Recorded(stores, body.blocks[b].nodes[n].effect) {
      var e := body.blocks[b].nodes[n].effect;
      if !e.NoStore? && |e.lhs| == |e.rhs| {
        forall i | 0 <= i < |e.lhs| && e.lhs[i].Some? ensures Holds(stores, e.lhs[i].value, Some(e.rhs[i])) {
          assert ValueAt(e, i) == Some(e.rhs[i]);
          assert Puts(e, e.lhs[i].value, Some(e.rhs[i]));
          assert NodesPut(body.blocks[b].nodes, e.lhs[i].value, Some(e.rhs[i]));
          assert BlocksPut(body.blocks, e.lhs[i].value, Some(e.rhs[i]));
          assert BodiesPut(source.bodies, e.lhs[i].value, Some(e.rhs[i]));
        }
      }
    }
  }

  lemma {:induction false} ValuesStayMeasured(stores: ClockFixpoint.Stores, e: Effect, n: nat, readings: set<Obj>,
                                              measured: set<Obj>, state: set<Obj>, obj: Obj)
    requires ClockFixpoint.Closed(stores, readings, measured) && Recorded(stores, e)
    requires state <= measured && !e.NoStore? && n <= |e.lhs|
    requires obj in Values(e, n, readings, state) && Values(e, n, readings, state)[obj]
    ensures obj in measured
  {
    if e.lhs[n - 1] != Some(obj) {
      ValuesStayMeasured(stores, e, n - 1, readings, measured, state, obj);
    } else if !(e.Compound() && obj in state) {
      DurationMonotone(e.rhs[n - 1], readings, state, readings, measured);
      assert Some(e.rhs[n - 1]) in stores[obj];
      assert ClockFixpoint.SomeDuration(stores[obj], readings, measured);
    }
  }

  lemma {:induction false} NodesStayMeasured(stores: ClockFixpoint.Stores, g: Graph, nodes: seq<Node>, readings: set<Obj>,
                                             measured: set<Obj>, state: set<Obj>)
    requires ClockFixpoint.Closed(stores, readings, measured) && g.shared <= measured && state <= measured
    requires forall n :: 0 <= n < |nodes| ==> Recorded(stores, nodes[n].effect)
    ensures AfterNodes(g, nodes, readings, state) <= measured
    decreases |nodes|
  {
    if nodes != [] {
      var before, effect := nodes[..|nodes| - 1], nodes[|nodes| - 1].effect;
      NodesStayMeasured(stores, g, before, readings, measured, state);
      var middle := AfterNodes(g, before, readings, state);
      forall obj | obj in AfterStore(effect, readings, middle) ensures obj in measured {
        if obj !in middle {
          ValuesStayMeasured(stores, effect, |effect.lhs|, readings, measured, middle, obj);
        } else {
          assert obj in measured;
        }
      }
    }
  }

  lemma {:induction false} PathsStayMeasured(stores: ClockFixpoint.Stores, g: Graph, readings: set<Obj>, measured: set<Obj>, path: seq<nat>)
    requires ClockFixpoint.Closed(stores, readings, measured) && g.shared <= measured
    requires AllRecorded(stores, g.blocks) && IsPath(g, path)
    ensures AlongPath(g, readings, measured, path) <= measured
    decreases |path|
  {
    if |path| > 1 {
      var before := path[..|path| - 1];
      PathsStayMeasured(stores, g, readings, measured, before);
      NodesStayMeasured(stores, g, g.blocks[Last(before)].nodes, readings, measured,
                        Enter(g, g.blocks[Last(before)], AlongPath(g, readings, measured, before)));
    }
  }

  /** The identifier is one that names a variable in `measured`. */
  ghost predicate NamesMeasured(bodies: seq<Body>, measured: set<Obj>, ident: Ident) {
    exists body, b, n, obj :: body in bodies && 0 <= b < |body.blocks| && 0 <= n < |body.blocks[b].nodes|
                              && (ident, obj) in body.blocks[b].nodes[n].mentions && obj in measured
  }

  /** The flow-sensitive analysis only narrows the function-wide one. */
  lemma UsesRefineMeasured(source: Source, stores: ClockFixpoint.Stores, readings: set<Obj>, measured: set<Obj>, ident: Ident)
    requires Collects(source, stores) && ClockFixpoint.Closed(stores, readings, measured)
    requires MeasuredUse(source.bodies, readings, measured, ident)
    ensures NamesMeasured(source.bodies, measured, ident)
  {
    hide Collects;
    hide AllRecorded;
    var body, g :| body in source.bodies && GraphOf(body, measured, g) && ReadOnSomePath(g, readings, measured, ident);
    CollectedIsRecorded(source, stores, body);
    var path :| IsPath(g, path)
                && Reads(g, g.blocks[Last(path)], readings, AlongPath(g, readings, measured, path), ident);
    PathsStayMeasured(stores, g, readings, measured, path);
    var b, entering := Last(path), AlongPath(g, readings, measured, path);
    var n, obj :| 0 <= n < |g.blocks[b].nodes| && (ident, obj) in g.blocks[b].nodes[n].mentions
                  && obj in AfterNodes(g, g.blocks[b].nodes[..n], readings, Enter(g, g.blocks[b], entering));
    BlockIsRecorded(stores, g.blocks, b);
    NodesStayMeasured(stores, g, g.blocks[b].nodes[..n], readings, measured, Enter(g, g.blocks[b], entering));
    assert (ident, obj) in body.blocks[b].nodes[n].mentions;
  }

  lemma BlockIsRecorded(stores: ClockFixpoint.Stores, blocks: seq<Block>, b: nat)
    requires AllRecorded(stores, blocks) && b < |blocks|
    ensures forall n :: 0 <= n < |blocks[b].nodes| ==> Recorded(stores, blocks[b].nodes[n].effect)
  {
  }

  /** checkWallClock's two analyses in sequence: collect the stores, seed with the least closed
      pair, then follow the flow.  What it returns is a function of the program alone. */
  method ClassifyUses(source: Source)
    returns (stores: ClockFixpoint.Stores, readings: set<Obj>, measured: set<Obj>, uses: set<Ident>)
    requires source.Valid()
    ensures Collects(source, stores) && ClockFixpoint.LeastClosed(stores, readings, measured)
    ensures forall ident :: ident in uses <==> MeasuredUse(source.bodies, readings, measured, ident)
    ensures forall ident :: ident in uses ==> NamesMeasured(source.bodies, measured, ident)
  {
    stores := Collect(source);
    readings, measured := ClockFixpoint.MeasureClock(stores);
    uses := DurationUses(source.bodies, readings, measured);
    forall ident | ident in uses ensures NamesMeasured(source.bodies, measured, ident) {
      UsesRefineMeasured(source, stores, readings, measured, ident);
    }
  }

  /** What the classification returns depends on the stores as a set only: any two collections
      of one function have the same least closed pair. */
  lemma CollectionsAgree(source: Source, a: ClockFixpoint.Stores, b: ClockFixpoint.Stores, r1: set<Obj>, m1: set<Obj>,
                         r2: set<Obj>, m2: set<Obj>)
    requires Collects(source, a) && Collects(source, b)
    requires ClockFixpoint.LeastClosed(a, r1, m1) && ClockFixpoint.LeastClosed(b, r2, m2)
    ensures r1 == r2 && m1 == m2
  {
    forall r, m ensures ClockFixpoint.Closed(a, r, m) <==> ClockFixpoint.Closed(b, r, m) {
      SameClosed(source, a, b, r, m);
    }
  }

  lemma SameClosed(source: Source, a: ClockFixpoint.Stores, b: ClockFixpoint.Stores, r: set<Obj>, m: set<Obj>)
    requires Collects(source, a) && Collects(source, b)
    ensures ClockFixpoint.Closed(a, r, m) <==> ClockFixpoint.Closed(b, r, m)
  {
    forall obj, v ensures Holds(a, obj, v) <==> Holds(b, obj, v) {
    }
    forall obj ensures obj in a <==> obj in b {
      assert obj in a ==> Holds(a, obj, a[obj][0]);
      assert obj in b ==> Holds(b, obj, b[obj][0]);
    }
    forall obj | obj in a ensures forall v :: v in a[obj] <==> v in b[obj] {
      assert forall v :: v in a[obj] <==> Holds(a, obj, v);
      assert forall v :: v in b[obj] <==> Holds(b, obj, v);
    }
  }
}
