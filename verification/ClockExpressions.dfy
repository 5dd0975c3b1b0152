/** The expressions of rule LV1007 (runner/lint/policy/wallclock.go). */
module ClockExpressions {
  // They are reduced to what `reading` and `duration` tell apart.  Parentheses are dropped, since
  // both functions look through them.

  import opened Options

  /** A local variable (a types.Object that localVar returns). */
  type Obj = nat

  /** One occurrence of an identifier in the source (an *ast.Ident). */
  type Ident = nat

  /** The methods of package time the rule distinguishes: Sub, those that copy a
      reading (UTC, Local, Round, Truncate), and every other one. */
  datatype Method = Sub | Copy | Plain

  datatype Expr =
    | Name(ident: Ident, obj: Option<Obj>)
    | Unary(x: Expr)
    | Binary(arithmetic: bool, x: Expr, y: Expr)
    | Now
    | Since
    | Convert(x: Expr)
    | Extreme(args: seq<Expr>)
    | TimeMethod(name: Method, receiver: Expr, onDuration: bool, args: seq<Expr>)
    | Opaque

  predicate Has(variables: set<Obj>, obj: Option<Obj>) {
    obj.Some? && obj.value in variables
  }

  /** wallClock.reading: time.Now(), a copy of it, or a variable that only holds one. */
  predicate Reading(e: Expr, readings: set<Obj>) {
    match e
    case Name(_, obj) => Has(readings, obj)
    case Now => true
    case TimeMethod(name, receiver, _, _) => name == Copy && Reading(receiver, readings)
    case _ => false
  }

  /** wallClock.duration and measuredCall, before uses is set. */
  predicate Duration(e: Expr, readings: set<Obj>, measured: set<Obj>) {
    match e
    case Name(_, obj) => Has(measured, obj)
    case Unary(x) => Duration(x, readings, measured)
    case Binary(arithmetic, x, y) =>
      arithmetic && (Duration(x, readings, measured) || Duration(y, readings, measured))
    case Since => true
    case Convert(x) => Duration(x, readings, measured)
    case Extreme(args) => exists arg :: arg in args && Duration(arg, readings, measured)
    case TimeMethod(name, receiver, onDuration, args) =>
      if name == Sub && |args| == 1 then
        Reading(receiver, readings) && Reading(args[0], readings)
      else
        onDuration && Duration(receiver, readings, measured)
    case _ => false
  }

  lemma {:induction false} ReadingMonotone(e: Expr, small: set<Obj>, large: set<Obj>)
    requires small <= large
    requires Reading(e, small)
    ensures Reading(e, large)
  {
    match e
    case TimeMethod(_, receiver, _, _) => ReadingMonotone(receiver, small, large);
    case _ =>
  }

  lemma {:induction false} DurationMonotone(e: Expr, readings: set<Obj>, measured: set<Obj>,
                                            moreReadings: set<Obj>, moreMeasured: set<Obj>)
    requires readings <= moreReadings && measured <= moreMeasured
    requires Duration(e, readings, measured)
    ensures Duration(e, moreReadings, moreMeasured)
  {
    match e
    case Unary(x) => DurationMonotone(x, readings, measured, moreReadings, moreMeasured);
    case Convert(x) => DurationMonotone(x, readings, measured, moreReadings, moreMeasured);
    case Binary(_, x, y) =>
      if Duration(x, readings, measured) {
        DurationMonotone(x, readings, measured, moreReadings, moreMeasured);
      } else {
        DurationMonotone(y, readings, measured, moreReadings, moreMeasured);
      }
    case Extreme(args) =>
      var arg :| arg in args && Duration(arg, readings, measured);
      DurationMonotone(arg, readings, measured, moreReadings, moreMeasured);
    case TimeMethod(name, receiver, _, args) =>
      if name == Sub && |args| == 1 {
        ReadingMonotone(receiver, readings, moreReadings);
        ReadingMonotone(args[0], readings, moreReadings);
      } else {
        DurationMonotone(receiver, readings, measured, moreReadings, moreMeasured);
      }
    case _ =>
  }

  /** With readings fixed, `duration` is a disjunction of variable bits: whatever makes
      it true is either no variable at all or one variable alone. */
  lemma {:induction false} DurationHasOneCause(e: Expr, readings: set<Obj>, measured: set<Obj>)
    returns (cause: set<Obj>)
    requires Duration(e, readings, measured)
    ensures cause <= measured && |cause| <= 1
    ensures Duration(e, readings, cause)
  {
    match e
    case Name(_, obj) => cause := {obj.value};
    case Unary(x) => cause := DurationHasOneCause(x, readings, measured);
    case Convert(x) => cause := DurationHasOneCause(x, readings, measured);
    case Binary(_, x, y) =>
      if Duration(x, readings, measured) {
        cause := DurationHasOneCause(x, readings, measured);
      } else {
        cause := DurationHasOneCause(y, readings, measured);
      }
    case Extreme(args) =>
      var arg :| arg in args && Duration(arg, readings, measured);
      cause := DurationHasOneCause(arg, readings, measured);
    case TimeMethod(name, receiver, _, args) =>
      if name == Sub && |args| == 1 {
        cause := {};
      } else {
        cause := DurationHasOneCause(receiver, readings, measured);
      }
    case _ => cause := {};
  }
}
