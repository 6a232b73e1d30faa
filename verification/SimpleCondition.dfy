/** Simple predicates (statsd/src/condition/SimpleConditionTracker.cpp): a start/stop/stop_all
    machine per dimension key that forgets keys whose state is the default one.

    The reference is a fold over the events that were not dropped by the guardrail. */
module SimpleCondition {
  type Key = nat

  import opened ConditionStates

  /** operator|: the larger of the two, in the order of the enum. */
  function Either(l: ConditionState, r: ConditionState): ConditionState {
    if Order(l) >= Order(r) then l else r
  }

  function Order(s: ConditionState): int {
    match s
    case NotEvaluated => -2
    case Unknown => -1
    case False => 0
    case True => 1
  }

  // ---------- the reference ----------

  datatype Event = Start(key: Key) | Stop(key: Key) | StopAll

  /** What is known about one key, and how often it has been started and not stopped. */
  datatype KeyState = KeyState(known: bool, started: nat)

  function Apply(s: KeyState, e: Event, key: Key, nesting: bool): KeyState {
    match e
    case Start(k) => if k != key then s else KeyState(true, if nesting then s.started + 1 else 1)
    case Stop(k) => if k != key then s else KeyState(true, if nesting && s.started > 0 then s.started - 1 else 0)
    case StopAll => KeyState(true, 0)
  }

  /** The state of `key` after the events, starting from the default. */
  function Fold(events: seq<Event>, key: Key, nesting: bool, defaultFalse: bool): KeyState {
    if events == [] then KeyState(defaultFalse, 0)
    else Apply(Fold(events[..|events| - 1], key, nesting, defaultFalse), events[|events| - 1], key, nesting)
  }

  function Value(s: KeyState): ConditionState {
    if s.started > 0 then True else if s.known then False else Unknown
  }

  lemma {:induction false} FoldPush(events: seq<Event>, e: Event, key: Key, nesting: bool, defaultFalse: bool)
    ensures Fold(events + [e], key, nesting, defaultFalse) ==
            Apply(Fold(events, key, nesting, defaultFalse), e, key, nesting)
  {
    assert (events + [e])[..|events|] == events;
  }

  // ---------- the compressed state ----------

  const DEFAULT_DIMENSION_KEY: Key := 0
  const SOFT_LIMIT: nat := 500
  const HARD_LIMIT: nat := 800

  function TrueKeys(counts: map<Key, int>): set<Key> { set k | k in counts && counts[k] > 0 }

  /** One key's entry stands for its reference state. */
  ghost predicate EntryOk(counts: map<Key, int>, initial: ConditionState, key: Key, s: KeyState, nesting: bool) {
    if key in counts then
      && counts[key] >= 0 && s.known && (counts[key] > 0 <==> s.started > 0)
      && (nesting ==> counts[key] == s.started)
      && (initial == False ==> counts[key] > 0)
    else s.started == 0 && (s.known <==> initial == False)
  }

  ghost predicate Represents(counts: map<Key, int>, initial: ConditionState, events: seq<Event>,
                             nesting: bool, defaultFalse: bool)
  {
    (initial == Unknown || initial == False) &&
    forall key :: EntryOk(counts, initial, key, Fold(events, key, nesting, defaultFalse), nesting)
  }

  /** The counts after a start or a stop of `key`, as handleConditionEvent leaves them. */
  function Updated(counts: map<Key, int>, initial: ConditionState, key: Key, start: bool,
                   nesting: bool): map<Key, int> {
    if key !in counts then
      if start then counts[key := 1] else if initial != False then counts[key := 0] else counts
    else if start then counts[key := counts[key] + 1]
    else
      var n := if counts[key] > 0 then (if nesting then counts[key] - 1 else 0) else counts[key];
      if initial == False && n == 0 then counts - {key} else counts[key := n]
  }

  lemma {:induction false} UpdatedRepresents(counts: map<Key, int>, initial: ConditionState, events: seq<Event>,
                                             key: Key, start: bool, nesting: bool, defaultFalse: bool)
    requires Represents(counts, initial, events, nesting, defaultFalse)
    ensures Represents(Updated(counts, initial, key, start, nesting), initial,
                       events + [if start then Start(key) else Stop(key)], nesting, defaultFalse)
  {
    hide Fold;
    var e := if start then Start(key) else Stop(key);
    forall k ensures EntryOk(Updated(counts, initial, key, start, nesting), initial, k,
                             Fold(events + [e], k, nesting, defaultFalse), nesting)
    {
      FoldPush(events, e, k, nesting, defaultFalse);
      assert EntryOk(counts, initial, k, Fold(events, k, nesting, defaultFalse), nesting);
    }
  }

  lemma {:induction false} ClearedRepresents(counts: map<Key, int>, initial: ConditionState, events: seq<Event>,
                          nesting: bool, defaultFalse: bool)
    requires Represents(counts, initial, events, nesting, defaultFalse)
    ensures Represents(map[], False, events + [StopAll], nesting, defaultFalse)
  {
    hide Fold;
    forall k ensures EntryOk(map[], False, k, Fold(events + [StopAll], k, nesting, defaultFalse), nesting) {
      FoldPush(events, StopAll, k, nesting, defaultFalse);
    }
  }

  /** An exact query, read off the compressed state. */
  function Read(counts: map<Key, int>, initial: ConditionState, key: Key): ConditionState {
    if key in counts then Either(Either(NotEvaluated, initial), if counts[key] > 0 then True else False)
    else Either(NotEvaluated, initial)
  }

  lemma {:induction false} ReadIsValue(counts: map<Key, int>, initial: ConditionState, events: seq<Event>, key: Key,
                    nesting: bool, defaultFalse: bool)
    requires Represents(counts, initial, events, nesting, defaultFalse)
    ensures Read(counts, initial, key) == Value(Fold(events, key, nesting, defaultFalse))
  {
    hide Fold;
    assert EntryOk(counts, initial, key, Fold(events, key, nesting, defaultFalse), nesting);
  }

  class SimpleConditionTracker {
    const countNesting: bool
    const sliced: bool
    const defaultFalse: bool
    var initialValue: ConditionState
    var slicedConditionState: map<Key, int>
    var lastChangedToTrue: set<Key>
    var lastChangedToFalse: set<Key>
    ghost var events: seq<Event>

    ghost predicate Valid()
      reads this
    {
      && Represents(slicedConditionState, initialValue, events, countNesting, defaultFalse)
      && initialValue == Default()
    }

    /** The value of a key that no event has named: false once everything was stopped. */
    ghost function Default(): ConditionState
      reads this
    {
      if defaultFalse || StopAll in events then False else Unknown
    }

    /** The reference value of a key. */
    ghost function Reference(key: Key): ConditionState
      reads this
    {
      Value(Fold(events, key, countNesting, defaultFalse))
    }

    constructor (nesting: bool, isSliced: bool, initiallyFalse: bool)
      ensures Valid() && events == [] && countNesting == nesting && sliced == isSliced && defaultFalse == initiallyFalse
      ensures forall key :: Reference(key) == if initiallyFalse then False else Unknown
    {
      countNesting, sliced, defaultFalse := nesting, isSliced, initiallyFalse;
      initialValue := if initiallyFalse then False else Unknown;
      slicedConditionState, lastChangedToTrue, lastChangedToFalse := map[], {}, {};
      events := [];
    }

    predicate HitGuardRail(key: Key)
      reads this
    {
      && sliced && key !in slicedConditionState
      && |slicedConditionState| >= SOFT_LIMIT && |slicedConditionState| + 1 > HARD_LIMIT
    }

    /** An event is dropped exactly if it would bring an 801st key. */
    lemma GuardRailIff(key: Key)
      ensures HitGuardRail(key) <==> sliced && key !in slicedConditionState && |slicedConditionState| >= 800
    {
    }

    /** stop_all: every started key changes to false, and false becomes the default. */
    method HandleStopAll() returns (state: ConditionState, changed: bool)
      requires Valid()
      modifies this
      ensures Valid() && events == old(events) + [StopAll] && state == False
      ensures slicedConditionState == map[] && initialValue == False
      ensures lastChangedToFalse == old(lastChangedToFalse) + TrueKeys(old(slicedConditionState))
      ensures lastChangedToTrue == old(lastChangedToTrue)
      ensures changed == !(old(initialValue) == False && old(slicedConditionState) == map[])
      ensures !changed ==> forall key :: Reference(key) == old(Reference(key))
    {
      hide Fold;
      ClearedRepresents(slicedConditionState, initialValue, events, countNesting, defaultFalse);
      changed := !(initialValue == False && slicedConditionState == map[]);
      lastChangedToFalse := lastChangedToFalse + TrueKeys(slicedConditionState);
      ghost var was, init, h := slicedConditionState, initialValue, events;
      initialValue := False;
      slicedConditionState := map[];
      events := events + [StopAll];
      forall key ensures !changed ==> Reference(key) == Value(Fold(h, key, countNesting, defaultFalse)) {
        ReadIsValue(was, init, h, key, countNesting, defaultFalse);
        ReadIsValue(slicedConditionState, initialValue, events, key, countNesting, defaultFalse);
      }
      state := False;
    }

    /** A start or stop of one key, unless the guardrail drops it. */
    method HandleConditionEvent(key: Key, matchStart: bool) returns (state: ConditionState, changed: bool)
      requires Valid()
      modifies `slicedConditionState, `lastChangedToTrue, `lastChangedToFalse, `events
      ensures Valid()
      ensures if old(HitGuardRail(key)) then
                state == Unknown && !changed && events == old(events)
                && slicedConditionState == old(slicedConditionState)
                && lastChangedToTrue == old(lastChangedToTrue) && lastChangedToFalse == old(lastChangedToFalse)
              else
                && events == old(events) + [if matchStart then Start(key) else Stop(key)]
                && state == Reference(key) && (state == True || state == False)
                && changed == (Reference(key) != old(Reference(key)))
                && lastChangedToTrue == old(lastChangedToTrue) + (if changed && state == True then {key} else {})
                && lastChangedToFalse == old(lastChangedToFalse) + (if changed && state == False then {key} else {})
    {
      hide Fold, Represents;
      if HitGuardRail(key) {
        return Unknown, false;
      }
      ghost var was, h := slicedConditionState, events;
      KnownInitial(was, initialValue, h, countNesting, defaultFalse);
      KeyEntry(was, initialValue, h, key, countNesting, defaultFalse);
      state, changed := CountEvent(key, matchStart);
      UpdatedRepresents(was, initialValue, h, key, matchStart, countNesting, defaultFalse);
      events := events + [if matchStart then Start(key) else Stop(key)];
      ReadIsValue(was, initialValue, h, key, countNesting, defaultFalse);
      ReadIsValue(slicedConditionState, initialValue, events, key, countNesting, defaultFalse);
    }

    /** The counting itself: new counts, the key's new state, and whether it changed. */
    method CountEvent(key: Key, matchStart: bool) returns (state: ConditionState, changed: bool)
      requires initialValue == Unknown || initialValue == False
      requires key in slicedConditionState ==>
                 slicedConditionState[key] >= 0 && (initialValue == False ==> slicedConditionState[key] > 0)
      modifies `slicedConditionState, `lastChangedToTrue, `lastChangedToFalse
      ensures slicedConditionState == Updated(old(slicedConditionState), initialValue, key, matchStart, countNesting)
      ensures state == Read(slicedConditionState, initialValue, key) && (state == True || state == False)
      ensures changed == (state != old(Read(slicedConditionState, initialValue, key)))
      ensures lastChangedToTrue == old(lastChangedToTrue) + (if changed && state == True then {key} else {})
      ensures lastChangedToFalse == old(lastChangedToFalse) + (if changed && state == False then {key} else {})
    {
      changed := false;
      if key !in slicedConditionState {
        state := if matchStart then True else False;
        if matchStart && initialValue != True {
          slicedConditionState := slicedConditionState[key := 1];
          changed := true;
          lastChangedToTrue := lastChangedToTrue + {key};
        } else if initialValue != False {
          slicedConditionState := slicedConditionState[key := 0];
          lastChangedToFalse := lastChangedToFalse + {key};
          changed := true;
        }
      } else {
        var startedCount := slicedConditionState[key];
        state := if startedCount > 0 then True else False;
        if matchStart {
          if startedCount == 0 {
            lastChangedToTrue := lastChangedToTrue + {key};
            changed := true;
          }
          startedCount := startedCount + 1;
          state := True;
          slicedConditionState := slicedConditionState[key := startedCount];
        } else {
          if startedCount > 0 {
            if countNesting {
              startedCount := startedCount - 1;
              if startedCount == 0 {
                state := False;
              }
            } else {
              startedCount := 0;
              state := False;
            }
            if startedCount == 0 {
              lastChangedToFalse := lastChangedToFalse + {key};
              changed := true;
            }
          }
          slicedConditionState := slicedConditionState[key := startedCount];
          if initialValue == False && startedCount == 0 {
            slicedConditionState := slicedConditionState - {key};
          }
        }
      }
    }

    /** evaluateCondition for one event: stop_all beats stop beats start; an event that
        matches nothing reports the current state. The two change sets are exactly the
        difference between the started keys before and after. */
    method EvaluateCondition(matchStart: bool, matchStop: bool, matchStopAll: bool, key: Key)
      returns (state: ConditionState, changed: bool)
      requires Valid() && (!sliced ==> key == DEFAULT_DIMENSION_KEY)
      modifies this
      ensures Valid()
      ensures events == old(events) + (
                if matchStopAll then [StopAll]
                else if !(matchStart || matchStop) || old(HitGuardRail(key)) then []
                else if matchStop then [Stop(key)] else [Start(key)])
      ensures lastChangedToTrue !! lastChangedToFalse && lastChangedToTrue !! TrueKeys(old(slicedConditionState))
      ensures TrueKeys(slicedConditionState) ==
              (TrueKeys(old(slicedConditionState)) + lastChangedToTrue) - lastChangedToFalse
      ensures !changed ==> forall k :: Reference(k) == old(Reference(k))
      ensures matchStopAll ==> state == False
      ensures !matchStopAll && (matchStart || matchStop) ==>
                if old(HitGuardRail(key)) then state == Unknown && !changed
                else state == Reference(key) && changed == (Reference(key) != old(Reference(key)))
      ensures !matchStopAll && !(matchStart || matchStop) ==>
                !changed && (if !sliced then state == Reference(key)
                             else (state == True <==> exists k :: Reference(k) == True)
                                  && (state != True ==> state == Default()))
    {
      hide Fold, Represents, TrueKeys, Value;
      KnownInitial(slicedConditionState, initialValue, events, countNesting, defaultFalse);
      lastChangedToTrue, lastChangedToFalse := {}, {};
      if matchStopAll {
        state, changed := HandleStopAll();
        NoKeys();
        return;
      }
      if !(matchStart || matchStop) {
        changed := false;
        state := CurrentState(key);
        return;
      }
      state, changed := EvaluateKeyEvent(key, !matchStop);
    }

    /** The state reported for an event that matches nothing. */
    method CurrentState(key: Key) returns (state: ConditionState)
      requires Valid() && (!sliced ==> key == DEFAULT_DIMENSION_KEY)
      ensures !sliced ==> state == Reference(key)
      ensures sliced ==> (state == True <==> exists k :: Reference(k) == True) && (state != True ==> state == Default())
    {
      hide Fold, Represents;
      KeysAreReference(slicedConditionState, initialValue, events, countNesting, defaultFalse);
      if sliced {
        state := if TrueKeys(slicedConditionState) != {} then True else initialValue;
        if TrueKeys(slicedConditionState) != {} {
          ghost var k :| k in TrueKeys(slicedConditionState);
          assert Reference(k) == True;
        }
      } else {
        ReadIsValue(slicedConditionState, initialValue, events, key, countNesting, defaultFalse);
        state := if DEFAULT_DIMENSION_KEY !in slicedConditionState then initialValue
                 else if slicedConditionState[DEFAULT_DIMENSION_KEY] > 0 then True else False;
      }
    }

    method EvaluateKeyEvent(key: Key, matchStart: bool) returns (state: ConditionState, changed: bool)
      requires Valid() && lastChangedToTrue == {} && lastChangedToFalse == {}
      modifies `slicedConditionState, `lastChangedToTrue, `lastChangedToFalse, `events
      ensures Valid()
      ensures events == old(events) +
                        (if old(HitGuardRail(key)) then [] else if matchStart then [Start(key)] else [Stop(key)])
      ensures lastChangedToTrue !! lastChangedToFalse && lastChangedToTrue !! TrueKeys(old(slicedConditionState))
      ensures TrueKeys(slicedConditionState) ==
              (TrueKeys(old(slicedConditionState)) + lastChangedToTrue) - lastChangedToFalse
      ensures if old(HitGuardRail(key)) then state == Unknown && !changed
              else state == Reference(key) && changed == (Reference(key) != old(Reference(key)))
      ensures !changed ==> forall k :: Reference(k) == old(Reference(k))
    {
      hide Fold, Represents, TrueKeys, Value;
      ghost var h, was := events, slicedConditionState;
      KeysAreReference(was, initialValue, h, countNesting, defaultFalse);
      state, changed := HandleConditionEvent(key, matchStart);
      KeysAreReference(slicedConditionState, initialValue, events, countNesting, defaultFalse);
      OthersKept(h, events, key, countNesting, defaultFalse);
      if events != h {
        Difference(TrueKeys(was), TrueKeys(slicedConditionState), key, old(Reference(key)), state,
                   lastChangedToTrue, lastChangedToFalse);
      }
    }

    /** isConditionMet with an exact link: the folded value, although false keys are forgotten. */
    method IsConditionMet(key: Key) returns (state: ConditionState)
      requires Valid()
      ensures state == Reference(key)
    {
      hide Fold;
      ReadIsValue(slicedConditionState, initialValue, events, key, countNesting, defaultFalse);
      state := Either(NotEvaluated, initialValue);
      if key in slicedConditionState {
        state := Either(state, if slicedConditionState[key] > 0 then True else False);
      }
    }

    /** isConditionMet without a link: the one state of a predicate that is not sliced, and the
        default of one that is. */
    method IsConditionMetUnlinked() returns (state: ConditionState)
      requires Valid()
      ensures state == if sliced then Default() else Reference(DEFAULT_DIMENSION_KEY)
    {
      hide Fold, Represents;
      KnownInitial(slicedConditionState, initialValue, events, countNesting, defaultFalse);
      ReadIsValue(slicedConditionState, initialValue, events, DEFAULT_DIMENSION_KEY, countNesting, defaultFalse);
      state := Either(NotEvaluated, initialValue);
      if !sliced {
        if DEFAULT_DIMENSION_KEY in slicedConditionState {
          state := Either(state, if slicedConditionState[DEFAULT_DIMENSION_KEY] > 0 then True else False);
        }
      }
    }

    /** isConditionMet with a partial link: true if some key that contains the asked one is
        true, false if not and false is the default or some such key is known. */
    method IsConditionMetPartial(key: Key, contains: (Key, Key) -> bool) returns (state: ConditionState)
      requires Valid()
      ensures state == True <==> exists k :: contains(k, key) && Reference(k) == True
      ensures state == Unknown <==>
                Default() == Unknown && forall k :: contains(k, key) ==> Reference(k) == Unknown
      ensures state == False || state == True || state == Unknown
    {
      hide Fold, Represents;
      KnownInitial(slicedConditionState, initialValue, events, countNesting, defaultFalse);
      state := Either(NotEvaluated, initialValue);
      var todo := slicedConditionState.Keys;
      while todo != {}
        invariant todo <= slicedConditionState.Keys
        invariant state == True <==>
                  exists k :: k in slicedConditionState && k !in todo && contains(k, key) && slicedConditionState[k] > 0
        invariant state == True || state == False || state == Unknown
        invariant state == Unknown ==> initialValue == Unknown
        invariant state == False && initialValue == Unknown ==>
                    exists k :: k in slicedConditionState && k !in todo && contains(k, key)
        invariant state == Unknown ==> forall k :: k in slicedConditionState && k !in todo ==> !contains(k, key)
      {
        var k :| k in todo;
        if contains(k, key) {
          state := Either(state, if slicedConditionState[k] > 0 then True else False);
        }
        todo := todo - {k};
      }
      forall k ensures Reference(k) == Read(slicedConditionState, initialValue, k) {
        ReadIsValue(slicedConditionState, initialValue, events, k, countNesting, defaultFalse);
      }
    }
  }

  lemma KnownInitial(counts: map<Key, int>, initial: ConditionState, events: seq<Event>, nesting: bool,
                     defaultFalse: bool)
    requires Represents(counts, initial, events, nesting, defaultFalse)
    ensures initial == Unknown || initial == False
  {
  }

  lemma {:induction false} KeyEntry(counts: map<Key, int>, initial: ConditionState, events: seq<Event>, key: Key,
                 nesting: bool, defaultFalse: bool)
    requires Represents(counts, initial, events, nesting, defaultFalse)
    ensures key in counts ==> counts[key] >= 0 && (initial == False ==> counts[key] > 0)
  {
    hide Fold;
    assert EntryOk(counts, initial, key, Fold(events, key, nesting, defaultFalse), nesting);
  }

  /** The started keys are those whose reference value is true. */
  lemma {:induction false} KeysAreReference(counts: map<Key, int>, initial: ConditionState, events: seq<Event>,
                         nesting: bool, defaultFalse: bool)
    requires Represents(counts, initial, events, nesting, defaultFalse)
    ensures forall k :: k in TrueKeys(counts) <==> Value(Fold(events, k, nesting, defaultFalse)) == True
  {
    hide Fold;
    forall k ensures k in TrueKeys(counts) <==> Value(Fold(events, k, nesting, defaultFalse)) == True {
      ReadIsValue(counts, initial, events, k, nesting, defaultFalse);
    }
  }

  lemma NoKeys()
    ensures TrueKeys(map[]) == {}
  {
  }

  /** Sets that differ at one key at most differ by the change sets. */
  lemma Difference(before: set<Key>, after: set<Key>, key: Key, was: ConditionState, now: ConditionState,
                   toTrue: set<Key>, toFalse: set<Key>)
    requires forall k :: k != key ==> (k in before <==> k in after)
    requires (key in before <==> was == True) && (key in after <==> now == True) && (now == True || now == False)
    requires toTrue == (if was != now && now == True then {key} else {})
    requires toFalse == (if was != now && now == False then {key} else {})
    ensures after == (before + toTrue) - toFalse && toTrue !! toFalse && toTrue !! before
  {
  }

  /** An event of one key leaves the others alone. */
  lemma {:induction false} OthersKept(h: seq<Event>, h': seq<Event>, key: Key, nesting: bool, defaultFalse: bool)
    requires h' == h || h' == h + [Start(key)] || h' == h + [Stop(key)]
    ensures forall k :: k != key ==> Fold(h', k, nesting, defaultFalse) == Fold(h, k, nesting, defaultFalse)
  {
    hide Fold;
    forall k | k != key ensures Fold(h', k, nesting, defaultFalse) == Fold(h, k, nesting, defaultFalse) {
      FoldPush(h, Start(key), k, nesting, defaultFalse);
      FoldPush(h, Stop(key), k, nesting, defaultFalse);
    }
  }
}
