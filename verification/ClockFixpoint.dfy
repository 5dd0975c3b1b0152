/** measureClock's fixpoint (runner/lint/policy/wallclock.go). */
module ClockFixpoint {
  // What seeds the data-flow analysis: which variables only ever hold readings of the clock, and
  // which ever hold a duration measured from one.

  import opened Options
  import opened ClockExpressions

  /** Every value stored in each variable, None for one that cannot be seen. */
  type Stores = map<Obj, seq<Option<Expr>>>

  predicate AllReadings(values: seq<Option<Expr>>, readings: set<Obj>) {
    forall value :: value in values ==> value.Some? && Reading(value.value, readings)
  }

  predicate SomeDuration(values: seq<Option<Expr>>, readings: set<Obj>, measured: set<Obj>) {
    exists value :: value in values && value.Some? && Duration(value.value, readings, measured)
  }

  /** A pair that one more round over every variable would not change. */
  ghost predicate Closed(stored: Stores, readings: set<Obj>, measured: set<Obj>) {
    forall obj :: obj in stored ==>
      && (AllReadings(stored[obj], readings) ==> obj in readings)
      && (SomeDuration(stored[obj], readings, measured) ==> obj in measured)
  }

  /** Below every closed pair. */
  ghost predicate Below(stored: Stores, readings: set<Obj>, measured: set<Obj>) {
    forall r, m :: Closed(stored, r, m) ==> readings <= r && measured <= m
  }

  ghost predicate LeastClosed(stored: Stores, readings: set<Obj>, measured: set<Obj>) {
    Closed(stored, readings, measured) && Below(stored, readings, measured)
  }

  /** There is one least closed pair, so what measureClock returns cannot depend on the
      order in which Go's randomized map iteration visits the variables. */
  lemma LeastClosedUnique(stored: Stores, r1: set<Obj>, m1: set<Obj>, r2: set<Obj>, m2: set<Obj>)
    requires LeastClosed(stored, r1, m1) && LeastClosed(stored, r2, m2)
    ensures r1 == r2 && m1 == m2
  {
    assert Closed(stored, r1, m1) && Closed(stored, r2, m2);
  }

  /** In the least closed pair a variable is a reading exactly when every value stored in it is one,
      and measured exactly when some value is, so a variable also set from an injected clock is
      no reading. */
  lemma LeastIsFixed(stored: Stores, readings: set<Obj>, measured: set<Obj>, obj: Obj)
    requires LeastClosed(stored, readings, measured)
    ensures obj in readings
       <==> obj in stored && forall value :: value in stored[obj] ==> value.Some? && Reading(value.value, readings)
    ensures obj in measured
       <==> obj in stored && exists value :: value in stored[obj] && value.Some? && Duration(value.value, readings, measured)
  {
    var r := set o | o in readings && o in stored && AllReadings(stored[o], readings);
    var m := set o | o in measured && o in stored && SomeDuration(stored[o], readings, measured);
    forall o | o in stored
      ensures AllReadings(stored[o], r) ==> o in r
      ensures SomeDuration(stored[o], r, m) ==> o in m
    {
      if AllReadings(stored[o], r) {
        forall value | value in stored[o] ensures value.Some? && Reading(value.value, readings) {
          ReadingMonotone(value.value, r, readings);
        }
      }
      if SomeDuration(stored[o], r, m) {
        var value :| value in stored[o] && value.Some? && Duration(value.value, r, m);
        DurationMonotone(value.value, r, m, readings, measured);
      }
    }
    assert Closed(stored, r, m);
  }

  lemma BelowAllReadings(stored: Stores, obj: Obj, readings: set<Obj>, measured: set<Obj>)
    requires obj in stored && Below(stored, readings, measured)
    requires AllReadings(stored[obj], readings)
    ensures Below(stored, readings + {obj}, measured)
  {
    forall r, m | Closed(stored, r, m) ensures obj in r {
      forall value | value in stored[obj] ensures value.Some? && Reading(value.value, r) {
        ReadingMonotone(value.value, readings, r);
      }
    }
  }

  lemma BelowSomeDuration(stored: Stores, obj: Obj, readings: set<Obj>, measured: set<Obj>)
    requires obj in stored && Below(stored, readings, measured)
    requires SomeDuration(stored[obj], readings, measured)
    ensures Below(stored, readings, measured + {obj})
  {
    var value :| value in stored[obj] && value.Some? && Duration(value.value, readings, measured);
    forall r, m | Closed(stored, r, m) ensures obj in m {
      DurationMonotone(value.value, readings, measured, r, m);
      assert SomeDuration(stored[obj], r, m);
    }
  }

  /** The in-place iteration.  `todo` hands out the variables of one round in any order. */
  method MeasureClock(stored: Stores) returns (readings: set<Obj>, measured: set<Obj>)
    ensures LeastClosed(stored, readings, measured)
    ensures readings <= stored.Keys && measured <= stored.Keys
  {
    readings, measured := {}, {};
    var changed := true;
    while changed
      invariant readings <= stored.Keys && measured <= stored.Keys
      invariant Below(stored, readings, measured)
      invariant !changed ==> Closed(stored, readings, measured)
      decreases stored.Keys - readings, stored.Keys - measured, changed
    {
      changed := false;
      ghost var startReadings, startMeasured := readings, measured;
      var todo := stored.Keys;
      while todo != {}
        invariant todo <= stored.Keys
        invariant startReadings <= readings <= stored.Keys && startMeasured <= measured <= stored.Keys
        invariant Below(stored, readings, measured)
        invariant !changed ==> readings == startReadings && measured == startMeasured
        invariant changed ==> startReadings < readings || startMeasured < measured
        invariant !changed ==> forall obj :: obj in stored.Keys - todo ==>
          && (AllReadings(stored[obj], readings) ==> obj in readings)
          && (SomeDuration(stored[obj], readings, measured) ==> obj in measured)
      {
        var obj :| obj in todo;
        todo := todo - {obj};
        if obj !in readings && AllReadings(stored[obj], readings) {
          BelowAllReadings(stored, obj, readings, measured);
          readings := readings + {obj};
          changed := true;
        }
        if obj !in measured && SomeDuration(stored[obj], readings, measured) {
          BelowSomeDuration(stored, obj, readings, measured);
          measured := measured + {obj};
          changed := true;
        }
      }
      if changed && readings == startReadings {
        assert stored.Keys - measured < stored.Keys - startMeasured;
      }
    }
  }
}
