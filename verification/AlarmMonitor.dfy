/** The alarm monitor (statsd/src/anomaly/AlarmMonitor.cpp): a priority queue of alarms and
    the one alarm time registered with the system, which is allowed to drift from the
    soonest alarm by at most the minimum update difference. Times are 32-bit. */
module AlarmMonitorModel {
  import opened IndexedHeap

  function Wrap32(x: int): Uint32 { x % 0x1_0000_0000 }

  ghost predicate Soonest(alarms: set<Alarm>, a: Alarm) {
    a in alarms && forall b :: b in alarms ==> Time(a) <= Time(b)
  }

  /** The registered time is within `min` of the soonest alarm, both ways. */
  ghost predicate Drift(alarms: set<Alarm>, registered: Uint32, min: Uint32) {
    forall a :: Soonest(alarms, a) ==> registered <= Time(a) + min && Time(a) <= registered + min
  }

  /** The time registered after an alarm for `t` is added. */
  function RegisteredAfterAdd(registered: Uint32, min: Uint32, t: Uint32): Uint32 {
    if registered < 1 || Wrap32(t + min) < registered then t else registered
  }

  /** The time registered after a removal that leaves `soonest` first. */
  function RegisteredAfterRemove(registered: Uint32, min: Uint32, soonest: Uint32): Uint32 {
    if soonest > Wrap32(registered + min) then soonest else registered
  }

  /** Adding `t` takes the registered time away from the soonest alarm: the 32-bit sum wraps,
      looks sooner than the registered time, and `t` is in truth far later. */
  ghost predicate WrapsAway(alarms: set<Alarm>, registered: Uint32, min: Uint32, t: Uint32) {
    && t + min >= 0x1_0000_0000 && Wrap32(t + min) < registered
    && exists a :: Soonest(alarms, a) && Time(a) + min < t
  }

  lemma SoonestTimesAgree(alarms: set<Alarm>, a: Alarm, b: Alarm)
    requires Soonest(alarms, a) && Soonest(alarms, b)
    ensures Time(a) == Time(b)
  {
  }

  /** The set after an addition has its soonest among the old soonest and the new alarm. */
  lemma SoonestAfterAdd(alarms: set<Alarm>, x: Alarm, s: Alarm)
    requires Soonest(alarms, s)
    ensures Soonest(alarms + {x}, if Time(x) < Time(s) then x else s)
  {
  }

  lemma {:induction false} DriftBySoonest(alarms: set<Alarm>, registered: Uint32, min: Uint32, s: Alarm)
    requires Soonest(alarms, s)
    ensures Drift(alarms, registered, min) <==> registered <= Time(s) + min && Time(s) <= registered + min
  {
    forall a | Soonest(alarms, a) ensures Time(a) == Time(s) { SoonestTimesAgree(alarms, a, s); }
  }

  /** Adding keeps the drift bound if and only if the sum does not wrap away. */
  lemma {:induction false} AddKeepsDrift(alarms: set<Alarm>, s: Alarm, x: Alarm, registered: Uint32, min: Uint32)
    requires Soonest(alarms, s) && registered >= 1 && Drift(alarms, registered, min)
    ensures Drift(alarms + {x}, RegisteredAfterAdd(registered, min, Time(x)), min) <==>
            !WrapsAway(alarms, registered, min, Time(x))
  {
    hide Drift;
    SoonestAfterAdd(alarms, x, s);
    DriftBySoonest(alarms, registered, min, s);
    DriftBySoonest(alarms + {x}, RegisteredAfterAdd(registered, min, Time(x)), min, if Time(x) < Time(s) then x else s);
    forall a | Soonest(alarms, a) ensures Time(a) == Time(s) { SoonestTimesAgree(alarms, a, s); }
    assert Time(x) + min < 0x1_0000_0000 ==> Wrap32(Time(x) + min) == Time(x) + min;
  }

  lemma NoDriftWhenEmpty(min: Uint32)
    ensures Drift({}, 0, min)
  {
  }

  /** The first alarm is always registered exactly. */
  lemma {:induction false} FirstAdd(x: Alarm, min: Uint32)
    ensures Drift({x}, RegisteredAfterAdd(0, min, Time(x)), min)
  {
    assert Soonest({x}, x);
    DriftBySoonest({x}, Time(x), min, x);
  }

  /** Removing keeps the bound whether or not the sum wraps: a wrapped sum can only make the
      monitor register the soonest alarm needlessly. */
  lemma {:induction false} RemoveKeepsDrift(alarms: set<Alarm>, s: Alarm, x: Alarm, s2: Alarm, registered: Uint32,
                                            min: Uint32)
    requires Soonest(alarms, s) && Drift(alarms, registered, min) && Soonest(alarms - {x}, s2)
    ensures Drift(alarms - {x}, RegisteredAfterRemove(registered, min, Time(s2)), min)
  {
    DriftBySoonest(alarms, registered, min, s);
    DriftBySoonest(alarms - {x}, RegisteredAfterRemove(registered, min, Time(s2)), min, s2);
    assert registered + min < 0x1_0000_0000 ==> Wrap32(registered + min) == registered + min;
  }

  /** The bound is not kept for every alarm: with 10 s of slack, an alarm at 5 s and one in
      the last ten seconds of the clock, the later one is registered. */
  lemma {:induction false} DriftCanBeLost(soon: Alarm, late: Alarm)
    requires soon == Alarm(0, 5) && late == Alarm(1, 0xFFFF_FFF6)
    ensures RegisteredAfterAdd(5, 10, Time(late)) == 0xFFFF_FFF6
    ensures Drift({soon}, 5, 10) && !Drift({soon, late}, RegisteredAfterAdd(5, 10, Time(late)), 10)
  {
    assert Wrap32(0xFFFF_FFF6 + 10) == 0;
    assert Soonest({soon}, soon) && Soonest({soon, late}, soon);
    DriftBySoonest({soon}, 5, 10, soon);
    DriftBySoonest({soon, late}, 0xFFFF_FFF6, 10, soon);
  }

  class AlarmMonitor {
    var registered: Uint32
    const min: Uint32
    const queue: IndexedPriorityQueue

    ghost predicate Valid()
      reads this, queue
    {
      && queue.Valid()
      && (forall a :: a in Alarms() ==> Time(a) >= 1)
      && (registered == 0 <==> Alarms() == {})
    }

    ghost function Alarms(): set<Alarm>
      reads this, queue
    {
      queue.Contents()
    }

    ghost predicate WithinDrift()
      reads this, queue
    {
      Drift(Alarms(), registered, min)
    }

    constructor (minDiffSec: Uint32)
      ensures Valid() && fresh(queue) && Alarms() == {} && min == minDiffSec && WithinDrift()
    {
      registered, min := 0, minDiffSec;
      queue := new IndexedPriorityQueue();
    }

    /** A reconnected companion service is told the soonest time exactly. */
    method SetStatsCompanionService(present: bool)
      requires Valid()
      modifies this
      ensures Valid() && unchanged(queue)
      ensures old(WithinDrift()) || (present && Alarms() != {}) ==> WithinDrift()
      ensures !present || Alarms() == {} ==> registered == old(registered)
      ensures present ==> forall a :: Soonest(Alarms(), a) ==> registered == Time(a)
    {
      if !present { return; }
      var top := queue.Top();
      if top != Null {
        registered := top.timestampSec;
        assert Soonest(Alarms(), top);
        DriftBySoonest(Alarms(), registered, min, top);
        forall a | Soonest(Alarms(), a) ensures Time(a) == registered { SoonestTimesAgree(Alarms(), a, top); }
      }
    }

    /** Null and zero-time alarms are refused. */
    method Add(alarm: Alarm)
      requires Valid()
      modifies this, queue
      ensures Valid()
      ensures Alarms() == old(Alarms()) + (if Time(alarm) < 1 then {} else {alarm})
      ensures Time(alarm) < 1 ==> registered == old(registered)
      ensures Time(alarm) >= 1 ==> registered == RegisteredAfterAdd(old(registered), min, Time(alarm))
      ensures old(WithinDrift()) && Time(alarm) >= 1 ==>
                (WithinDrift() <==> old(Alarms()) == {} || !WrapsAway(old(Alarms()), old(registered), min, Time(alarm)))
    {
      hide Drift, Wrap32, WrapsAway, Inverse, Heap;
      if alarm == Null { return; }
      if alarm.timestampSec < 1 { return; }
      var before := queue.Top();
      ghost var alarms := Alarms();
      queue.Push(alarm);
      if before == Null {
        assert alarms + {alarm} == {alarm};
        FirstAdd(alarm, min);
      } else if Drift(alarms, registered, min) {
        assert Soonest(alarms, before);
        AddKeepsDrift(alarms, before, alarm, registered, min);
      }
      if registered < 1 || Wrap32(alarm.timestampSec + min) < registered {
        registered := alarm.timestampSec;
      }
    }

    method Remove(alarm: Alarm)
      requires Valid()
      modifies this, queue
      ensures Valid() && Alarms() == old(Alarms()) - {alarm}
      ensures old(WithinDrift()) ==> WithinDrift()
      ensures alarm !in old(Alarms()) ==> registered == old(registered)
      ensures alarm in old(Alarms()) ==>
                forall a :: Soonest(Alarms(), a) ==> registered == RegisteredAfterRemove(old(registered), min, Time(a))
    {
      hide Drift, Wrap32, Inverse, Heap;
      if alarm == Null {
        assert old(Alarms()) - {alarm} == old(Alarms());
        return;
      }
      var before := queue.Top();
      ghost var alarms := Alarms();
      var wasPresent := queue.Remove(alarm);
      if !wasPresent {
        assert old(Alarms()) - {alarm} == old(Alarms());
        return;
      }
      var top := queue.Top();
      if top == Null {
        registered := 0;
        NoDriftWhenEmpty(min);
        return;
      }
      forall a | Soonest(Alarms(), a) ensures Time(a) == Time(top) { SoonestTimesAgree(Alarms(), a, top); }
      if Drift(alarms, registered, min) {
        assert Soonest(alarms, before) && Soonest(alarms - {alarm}, top);
        RemoveKeepsDrift(alarms, before, alarm, top, registered, min);
      }
      if top.timestampSec > Wrap32(registered + min) {
        registered := top.timestampSec;
      }
    }

    /** Takes out exactly the alarms due by `timestampSec`; if there were any, the
        registered time is the soonest of the rest. */
    method PopSoonerThan(timestampSec: Uint32) returns (oldAlarms: set<Alarm>)
      requires Valid()
      modifies this, queue
      ensures Valid() && Alarms() == old(Alarms()) - oldAlarms
      ensures oldAlarms == set a | a in old(Alarms()) && Time(a) <= timestampSec
      ensures oldAlarms == {} ==> registered == old(registered)
      ensures oldAlarms != {} ==> forall a :: Soonest(Alarms(), a) ==> registered == Time(a)
      ensures old(WithinDrift()) || oldAlarms != {} ==> WithinDrift()
    {
      hide Drift, Inverse, Heap;
      oldAlarms := {};
      ghost var alarms := Alarms();
      var t := queue.Top();
      while t != Null && t.timestampSec <= timestampSec
        invariant queue.Valid() && t == queue.Top()
        invariant Alarms() == alarms - oldAlarms && oldAlarms <= alarms
        invariant forall a :: a in oldAlarms ==> Time(a) <= timestampSec
        invariant registered == old(registered)
        decreases Alarms()
      {
        oldAlarms := oldAlarms + {t};
        queue.Pop();
        t := queue.Top();
      }
      if oldAlarms != {} {
        if t == Null {
          registered := 0;
          NoDriftWhenEmpty(min);
        } else {
          registered := t.timestampSec;
          assert Soonest(Alarms(), t);
          DriftBySoonest(Alarms(), registered, min, t);
          forall a | Soonest(Alarms(), a) ensures Time(a) == registered { SoonestTimesAgree(Alarms(), a, t); }
        }
      } else {
        assert alarms - oldAlarms == alarms;
      }
    }
  }
}
