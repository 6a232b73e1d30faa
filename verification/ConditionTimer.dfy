/** The condition stopwatch (statsd/src/condition/ConditionTimer.h): how long a condition
    was true in each bucket, when bucket boundaries are handled after the fact. */
module ConditionTimer {

  /** A condition over time: its value at `start`, and the times at which it flipped. */
  datatype History = History(start: int, initial: bool, changes: seq<int>)

  function Now(h: History): bool { h.initial == (|h.changes| % 2 == 0) }

  function LastChange(h: History): int { if h.changes == [] then h.start else h.changes[|h.changes| - 1] }

  function Before(h: History): History
    requires h.changes != []
  {
    h.(changes := h.changes[..|h.changes| - 1])
  }

  ghost predicate Ordered(h: History) {
    && (forall i :: 0 <= i < |h.changes| ==> h.start <= h.changes[i])
    && forall i, j :: 0 <= i < j < |h.changes| ==> h.changes[i] <= h.changes[j]
  }

  ghost predicate StrictlyOrdered(h: History) {
    forall i, j :: 0 <= i < j < |h.changes| ==> h.changes[i] < h.changes[j]
  }

  /** Time for which the condition was true in [start, t). */
  function TrueTime(h: History, t: int): int
    decreases |h.changes|
  {
    if h.changes == [] then (if h.initial then t - h.start else 0)
    else if t <= LastChange(h) then TrueTime(Before(h), t)
    else TrueTime(Before(h), LastChange(h)) + if Now(h) then t - LastChange(h) else 0
  }

  /** After the last change the condition is constant. */
  lemma TrueTimeAfter(h: History, t: int)
    requires t >= LastChange(h)
    ensures TrueTime(h, t) == TrueTime(h, LastChange(h)) + if Now(h) then t - LastChange(h) else 0
  {
  }

  lemma {:induction false} TrueTimeFlip(h: History, t: int)
    requires t >= LastChange(h)
    ensures var g := h.(changes := h.changes + [t]);
            TrueTime(g, t) == TrueTime(h, t) && LastChange(g) == t && Now(g) == !Now(h)
  {
    var g := h.(changes := h.changes + [t]);
    assert Before(g) == h;
  }

  ghost function ChangesAfter(h: History, t: int): nat
    decreases |h.changes|
  {
    if h.changes == [] then 0 else ChangesAfter(Before(h), t) + if LastChange(h) > t then 1 else 0
  }

  /** Between two times the condition is true for at most the time that passes. */
  lemma {:induction false} TrueTimeBounds(h: History, s: int, t: int)
    requires Ordered(h) && h.start <= s <= t
    ensures 0 <= TrueTime(h, t) - TrueTime(h, s) <= t - s
    decreases |h.changes|
  {
    if h.changes != [] {
      var g, c := Before(h), LastChange(h);
      if t <= c {
        TrueTimeBounds(g, s, t);
      } else if s <= c {
        TrueTimeBounds(g, s, c);
      }
    }
  }

  /** The stretch from a boundary to the last change is true (or false) throughout if no other
      change falls after the boundary, and is not if one does and times strictly increase. */
  lemma {:induction false} StretchIsSteady(h: History, t: int)
    requires Ordered(h) && h.start <= t < LastChange(h)
    ensures ChangesAfter(h, t) == 1 ==>
              TrueTime(h, LastChange(h)) - TrueTime(h, t) == if Now(h) then 0 else LastChange(h) - t
    ensures ChangesAfter(h, t) > 1 && StrictlyOrdered(h) ==>
              TrueTime(h, LastChange(h)) - TrueTime(h, t) != if Now(h) then 0 else LastChange(h) - t
  {
    var g, c := Before(h), LastChange(h);
    assert TrueTime(h, c) == TrueTime(g, c) && TrueTime(h, t) == TrueTime(g, t);
    if ChangesAfter(h, t) == 1 {
      NoneAfter(g, t);
      TrueTimeAfter(g, c);
      TrueTimeAfter(g, t);
    } else if StrictlyOrdered(h) && ChangesAfter(h, t) > 1 {
      SomeAfter(g, t);
      var d := LastChange(g);
      assert d == h.changes[|h.changes| - 2];
      TrueTimeAfter(g, c);
      OtherValueBefore(g, t);
    }
  }

  /** Right before its last change the condition had the other value for some time. */
  lemma {:induction false} OtherValueBefore(h: History, t: int)
    requires Ordered(h) && StrictlyOrdered(h) && h.start <= t < LastChange(h)
    ensures var c := LastChange(h);
            if Now(h) then TrueTime(h, c) - TrueTime(h, t) < c - t else TrueTime(h, c) - TrueTime(h, t) > 0
  {
    var g, c := Before(h), LastChange(h);
    assert TrueTime(h, c) == TrueTime(g, c) && TrueTime(h, t) == TrueTime(g, t);
    TrueTimeAfter(g, c);
    var e := LastChange(g);
    assert g.changes != [] ==> e == h.changes[|h.changes| - 2] < c;
    if e <= t {
      TrueTimeAfter(g, t);
    } else {
      TrueTimeBounds(g, t, e);
    }
  }

  lemma NoneAfter(h: History, t: int)
    requires Ordered(h) && h.start <= t && ChangesAfter(h, t) == 0
    ensures LastChange(h) <= t
  {
  }

  lemma {:induction false} SomeAfter(h: History, t: int)
    requires Ordered(h) && h.start <= t && ChangesAfter(h, t) > 0
    ensures h.changes != [] && LastChange(h) > t
  {
    if LastChange(h) <= t { LateNone(h, t); }
  }

  lemma {:induction false} LateNone(h: History, t: int)
    requires Ordered(h) && LastChange(h) <= t
    ensures ChangesAfter(h, t) == 0
    decreases |h.changes|
  {
    if |h.changes| > 1 { LateNone(Before(h), t); }
  }

  /** The value after the changes at or before `t`. */
  ghost function ValueAt(h: History, t: int): bool {
    h.initial == ((|h.changes| - ChangesAfter(h, t)) % 2 == 0)
  }

  /** The condition is the other value than now if and only if an odd number of changes has
      followed. */
  lemma {:induction false} ValueByParity(h: History, t: int)
    ensures ChangesAfter(h, t) <= |h.changes|
    ensures ValueAt(h, t) == (Now(h) == (ChangesAfter(h, t) % 2 == 0))
  {
    FewChangesAfter(h, t);
  }

  lemma {:induction false} FewChangesAfter(h: History, t: int)
    ensures ChangesAfter(h, t) <= |h.changes|
    decreases |h.changes|
  {
    if h.changes != [] { FewChangesAfter(Before(h), t); }
  }

  datatype DurationInfo = DurationInfo(durationNs: int, correctionNs: int)

  function Max(a: int, b: int): int { if a < b then b else a }

  class ConditionTimer {
    var timerNs: int
    var currentBucketStartDelayNs: int
    var lastConditionChangeNs: int
    var condition: bool
    ghost var history: History
    ghost var boundary: int
    ghost var returned: int
    ghost var corrections: int

    /** On every run: what was returned plus the running timer is the true time up to the
        point from which the open interval counts, and the corrections add up to the
        pending delay. */
    ghost predicate Valid()
      reads this
    {
      && Ordered(history) && 0 <= history.start <= boundary && condition == Now(history)
      && corrections == currentBucketStartDelayNs
      && (if condition then
            && LastChange(history) <= lastConditionChangeNs <= Max(LastChange(history), boundary)
            && returned + timerNs == TrueTime(history, lastConditionChangeNs)
          else
            && lastConditionChangeNs == (if history.changes == [] then 0 else LastChange(history))
            && returned + timerNs == TrueTime(history, LastChange(history)))
    }

    /** At any later time the durations returned, the running timer and the open interval make up
        the true time. */
    lemma {:induction false} TotalTime(t: int)
      requires Valid() && t >= LastChange(history) && t >= lastConditionChangeNs
      ensures returned + timerNs + (if condition then t - lastConditionChangeNs else 0) == TrueTime(history, t)
    {
      hide TrueTime;
      TrueTimeAfter(history, t);
      if condition { TrueTimeAfter(history, lastConditionChangeNs); }
    }

    constructor (initial: bool, bucketStartNs: int)
      requires bucketStartNs >= 0
      ensures Valid() && history == History(bucketStartNs, initial, []) && boundary == bucketStartNs
      ensures returned == 0 && corrections == 0
    {
      timerNs, currentBucketStartDelayNs, condition := 0, 0, initial;
      lastConditionChangeNs := if initial then bucketStartNs else 0;
      history, boundary, returned, corrections := History(bucketStartNs, initial, []), bucketStartNs, 0, 0;
    }

    method OnConditionChanged(newCondition: bool, timestampNs: int)
      requires Valid() && timestampNs >= LastChange(history)
      modifies this
      ensures Valid() && boundary == old(boundary) && returned == old(returned) && corrections == old(corrections)
      ensures history == if newCondition == old(condition) then old(history)
                         else old(history).(changes := old(history).changes + [timestampNs])
    {
      hide TrueTime;
      if newCondition == condition {
        return;
      }
      TrueTimeFlip(history, timestampNs);
      TrueTimeAfter(history, timestampNs);
      if condition { TrueTimeAfter(history, lastConditionChangeNs); }
      condition := newCondition;
      if !newCondition {
        timerNs := timerNs + (timestampNs - lastConditionChangeNs);
      }
      lastConditionChangeNs := timestampNs;
      history := history.(changes := history.changes + [timestampNs]);
    }

    /** Closes the bucket that ends at `nextBucketStartNs`, as late as `eventTimeNs`. All
        the time returned so far is then exactly the true time before the boundary if at most
        one change lies after it, and is not if more do and times strictly increase. The delay is
        kept, and added to the correction in place of the one kept before, if the condition was
        true at the boundary; if an even number of changes lies after it, not zero, the code takes
        the other value. */
    method NewBucketStart(eventTimeNs: int, nextBucketStartNs: int) returns (r: DurationInfo)
      requires Valid() && nextBucketStartNs >= boundary
      modifies this
      ensures Valid() && history == old(history) && boundary == nextBucketStartNs
      ensures r.durationNs == returned - old(returned)
      ensures old(returned) == TrueTime(history, old(boundary)) && ChangesAfter(history, nextBucketStartNs) <= 1 ==>
                r.durationNs == TrueTime(history, nextBucketStartNs) - TrueTime(history, old(boundary))
      ensures r.correctionNs == currentBucketStartDelayNs - old(currentBucketStartDelayNs)
      ensures ChangesAfter(history, nextBucketStartNs) <= 1 ==> returned == TrueTime(history, nextBucketStartNs)
      ensures ChangesAfter(history, nextBucketStartNs) > 1 && StrictlyOrdered(history) ==>
                returned != TrueTime(history, nextBucketStartNs)
      ensures var late := if eventTimeNs > nextBucketStartNs then eventTimeNs - nextBucketStartNs else 0;
              var after := ChangesAfter(history, nextBucketStartNs);
              && (after == 0 || after % 2 == 1 ==>
                    currentBucketStartDelayNs == if ValueAt(history, nextBucketStartNs) then late else 0)
              && (after > 0 && after % 2 == 0 ==>
                    currentBucketStartDelayNs == if ValueAt(history, nextBucketStartNs) then 0 else late)
    {
      hide TrueTime, ChangesAfter, Ordered;
      ghost var h, t := history, nextBucketStartNs;
      BoundaryFacts(h, t);
      ValueByParity(h, t);
      if condition { TrueTimeAfter(h, lastConditionChangeNs); }
      var correction := -currentBucketStartDelayNs;
      currentBucketStartDelayNs := 0;
      var endDelay := Max(eventTimeNs - nextBucketStartNs, 0);
      if condition {
        if nextBucketStartNs >= lastConditionChangeNs {
          timerNs := timerNs + (nextBucketStartNs - lastConditionChangeNs);
          lastConditionChangeNs := nextBucketStartNs;
          correction := correction + endDelay;
          currentBucketStartDelayNs := endDelay;
        }
      } else if lastConditionChangeNs > nextBucketStartNs {
        timerNs := timerNs - (lastConditionChangeNs - nextBucketStartNs);
        correction := correction + endDelay;
        currentBucketStartDelayNs := endDelay;
      }
      var duration := timerNs;
      timerNs := 0;
      if !condition && lastConditionChangeNs > nextBucketStartNs {
        timerNs := lastConditionChangeNs - nextBucketStartNs;
      }
      r := DurationInfo(duration, correction);
      returned := returned + duration;
      corrections := corrections + correction;
      boundary := nextBucketStartNs;
    }
  }

  /** How a boundary splits the history, before and after its last change. */
  lemma {:induction false} BoundaryFacts(h: History, t: int)
    requires Ordered(h) && h.start <= t
    ensures LastChange(h) <= t ==> ChangesAfter(h, t) == 0
    ensures LastChange(h) <= t ==>
              TrueTime(h, t) == TrueTime(h, LastChange(h)) + if Now(h) then t - LastChange(h) else 0
    ensures LastChange(h) > t ==> ChangesAfter(h, t) >= 1
    ensures LastChange(h) > t && ChangesAfter(h, t) == 1 ==>
              TrueTime(h, LastChange(h)) - TrueTime(h, t) == if Now(h) then 0 else LastChange(h) - t
    ensures LastChange(h) > t && ChangesAfter(h, t) > 1 && StrictlyOrdered(h) ==>
              TrueTime(h, LastChange(h)) - TrueTime(h, t) != if Now(h) then 0 else LastChange(h) - t
  {
    if LastChange(h) <= t {
      LateNone(h, t);
      TrueTimeAfter(h, t);
    } else {
      StretchIsSteady(h, t);
    }
  }
}
