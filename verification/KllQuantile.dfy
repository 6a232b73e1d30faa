/** The quantile aggregator on top of the compactor stack, and what a reader of the
    sketch may rely on after any sequence of Add, AddWeighted and Reset calls. */
module KllQuantileModel {
  import opened Options
  import opened KllCapacity
  import opened KllLedger
  import opened KllTrace
  import opened KllStack
  import opened KllError
  import opened KllHeight
  import Arith

  /** Rank of a bound as read off the sketch: levels plus the sampled item. */
  ghost function SketchRank(levels: seq<seq<int>>, sampler: Option<Sampler>, b: Bound): int {
    Rank(levels, b) + if sampler.Some? then b.Of(sampler.value.sampledItem, sampler.value.itemWeight) else 0
  }

  /** The trace took in exactly the history, rank by rank, and no other value. */
  ghost predicate Accounts(t: seq<Action>, history: seq<Weighted>) {
    && (forall b :: TrueRank(Taken(t), b) == TrueRank(history, b))
    && (forall x :: Contains(Taken(t), x) ==> Contains(history, x))
  }

  lemma {:induction false} AccountsMore(t: seq<Action>, u: seq<Action>, history: seq<Weighted>, value: int, weight: nat)
    requires Accounts(t, history) && AllOf(Taken(u), value, weight)
    ensures Accounts(t + u, history + [Weighted(value, weight)])
  {
    hide Taken, TrueRank;
    var more := history + [Weighted(value, weight)];
    TakenConcat(t, u);
    forall b ensures TrueRank(Taken(t + u), b) == TrueRank(more, b) {
      TrueRankPush(history, Weighted(value, weight), b);
      TrueRankConcat(Taken(t), Taken(u), b);
      AllOfRank(Taken(u), value, weight, b);
    }
    forall x | Contains(Taken(t + u), x) ensures Contains(more, x) {
      var i :| 0 <= i < |Taken(t) + Taken(u)| && (Taken(t) + Taken(u))[i].value == x;
      if i < |Taken(t)| {
        assert Taken(t)[i].value == x;
        assert Contains(Taken(t), x);
        var j :| 0 <= j < |history| && history[j].value == x;
        assert more[j].value == x;
      } else {
        assert more[|history|].value == x;
      }
    }
  }

  // ---------- what any trace leaves ----------

  /** On every trace that has handed over what it flushed, a rank is off by at most 2^level for
      each halving of a level that was not empty, the weight of each sample handed over, each dropped weight, and the
      weight in the sampler. */
  lemma {:induction false} RankError(t: seq<Action>, b: Bound)
    requires Replay(t).Some? && Replay(t).value.handed == []
    ensures var s := Replay(t).value;
            var slack := ErrorBound(s.log) + if s.sampler.Some? then s.sampler.value.itemWeight else 0;
            -slack <= SketchRank(s.levels, s.sampler, b) - TrueRank(Taken(t), b) <= slack
  {
    hide Rank, TotalDrift, ErrorBound, Taken, Replay;
    var s := Replay(t).value;
    Ledger(t, b);
    Booked(t);
    TotalDriftBounded(s.log, b);
    TrueRankBounded(s.absorbed, b);
  }

  /** What the odd-sized halvings did to the total weight. */
  ghost function OddDrift(log: seq<Entry>): int {
    if log == [] then 0
    else OddDrift(log[..|log| - 1]) +
         match log[|log| - 1]
         case Compact(h, items, keepEven) =>
           if |items| % 2 == 0 then 0 else if keepEven then Scale(h, 1) else Scale(h, -1)
         case _ => 0
  }

  ghost predicate WholeSamples(log: seq<Entry>) {
    forall i :: 0 <= i < |log| && log[i].Sample? ==> TrueRank(log[i].handed, Top) == TrueRank(log[i].absorbed, Top)
  }

  ghost function LostWeight(log: seq<Entry>): int {
    if log == [] then 0 else LostWeight(log[..|log| - 1]) + if log[|log| - 1].Lost? then log[|log| - 1].weight else 0
  }

  lemma {:induction false} WeightDrifts(log: seq<Entry>)
    requires WholeSamples(log)
    ensures TotalDrift(log, Top) == OddDrift(log) - LostWeight(log)
  {
    hide Drift, Count, Scale, TrueRank;
    if log != [] {
      WeightDrifts(log[..|log| - 1]);
      WeightDriftOf(log[|log| - 1]);
    }
  }

  lemma {:induction false} WeightDriftOf(e: Entry)
    ensures Drift(e, Top) == match e
                             case Compact(h, items, keepEven) =>
                               if |items| % 2 == 0 then 0 else if keepEven then Scale(h, 1) else Scale(h, -1)
                             case Sample(absorbed, handed) => TrueRank(handed, Top) - TrueRank(absorbed, Top)
                             case Lost(_, w) => -(w as int)
  {
    if e.Compact? {
      CompactDrift(e.level, e.items, e.keepEven, Top);
      CountTop(e.items);
    }
  }

  /** Every sample handed over had the weight it stood for, and the log holds exactly the drops. */
  lemma {:induction false} LogOfTrace(t: seq<Action>)
    requires Replay(t).Some?
    ensures WholeSamples(Replay(t).value.log) && LostWeight(Replay(t).value.log) == TrueRank(Drops(t), Top)
  {
    hide Allowed, Apply, WholeSamples, LostWeight, Drops, SamplerBooked;
    if t == [] {
      NoLog();
    } else {
      var u, a := t[..|t| - 1], t[|t| - 1];
      assert t == u + [a];
      LogOfTrace(u);
      Booked(u);
      LogGrows(Replay(u).value, a);
      DropsNext(u, a);
    }
  }

  lemma NoLog()
    ensures WholeSamples([]) && LostWeight([]) == TrueRank(Drops([]), Top) == 0
  {
  }

  lemma {:induction false} DropsNext(t: seq<Action>, a: Action)
    ensures TrueRank(Drops(t + [a]), Top) == TrueRank(Drops(t), Top) + if a.Drop? then a.lost else 0
  {
    assert (t + [a])[..|t|] == t && Drops(t) + [] == Drops(t);
    if a.Drop? { TrueRankPush(Drops(t), Weighted(a.value, a.lost), Top); }
  }

  lemma {:induction false} LogGrows(s: Book, a: Action)
    requires Allowed(s, a) && SamplerBooked(s) && WholeSamples(s.log)
    ensures WholeSamples(Apply(s, a).log)
    ensures LostWeight(Apply(s, a).log) == LostWeight(s.log) + if a.Drop? then a.lost else 0
  {
    hide Halved, Push, Scale, TrueRank;
    var log := Apply(s, a).log;
    if log != s.log { assert log[..|log| - 1] == s.log; }
  }

  /** Weight ledger: on every trace the weight in the levels and the sampler is the weight taken
      in, off by 2^h for each odd-sized halving of level h and by the dropped weights. */
  lemma {:induction false} WeightLedger(t: seq<Action>)
    requires Replay(t).Some? && Replay(t).value.handed == []
    ensures var s := Replay(t).value;
            SketchRank(s.levels, s.sampler, Top) ==
            TrueRank(Taken(t), Top) + OddDrift(s.log) - TrueRank(Drops(t), Top)
  {
    hide Rank, TotalDrift, Taken, Drops, Replay, OddDrift, LostWeight, WholeSamples;
    Ledger(t, Top);
    Booked(t);
    LogOfTrace(t);
    WeightDrifts(Replay(t).value.log);
    TrueRankNone(Top);
  }

  class KllQuantile {
    const compactorStack: CompactorStack
    var min: int
    var max: int
    var numValues: int
    ghost var history: seq<Weighted>
    ghost var plain: bool  // every value was added by itself

    ghost predicate Valid()
      reads this, compactorStack
    {
      && compactorStack.Valid()
      && Accounts(compactorStack.trace, history)
      && numValues == TrueRank(history, Top)
      && (numValues == 0 <==> history == [])
      && (forall i :: 0 <= i < |history| ==> min <= history[i].value <= max)
      && (history != [] ==> Contains(history, min) && Contains(history, max))
      && (plain ==> LowEnough(compactorStack.k, compactorStack.Snapshot(), numValues))
    }

    constructor (k: nat)
      requires k >= 3
      ensures Valid() && fresh(compactorStack) && compactorStack.k == k && history == [] && plain
      ensures compactorStack.Snapshot() == View([[]], None, k, 0, [NewLevel(false)])
    {
      compactorStack := new CompactorStack(k);
      min, max, numValues := 0, 0, 0;
      history, plain := [], true;
      new;
      SingleTaken(NewLevel(false));
      StartLow(k);
    }

    method Reset()
      requires Valid()
      modifies this, compactorStack
      ensures Valid() && history == [] && plain
      ensures compactorStack.Snapshot() == View([[]], None, compactorStack.k, 0, [NewLevel(false)])
    {
      hide Accounts, LowEnough;
      numValues := 0;
      history, plain := [], true;
      compactorStack.Reset();
      StartLow(compactorStack.k);
      FreshAccounts();
    }

    /** Takes in the value once. */
    method Add(value: int)
      requires Valid()
      modifies this, compactorStack
      ensures Valid() && history == old(history) + [Weighted(value, 1)]
      ensures Did(old(compactorStack.Snapshot()), compactorStack.Snapshot(), [Weighted(value, 1)], [])
      ensures Added(compactorStack.k, old(compactorStack.Snapshot()), value, compactorStack.Snapshot())
      ensures plain == old(plain) && numValues == old(numValues) + 1
    {
      hide Accounts, Did, Contains, AllOf, TrueRank, Replay, ShapeBut, Handed, Added, LowEnough, FirstFull;
      ghost var before := compactorStack.Snapshot();
      compactorStack.Add(value);
      if plain { AddedLow(compactorStack.k, before, value, compactorStack.Snapshot(), numValues); }
      OneTaken(before, compactorStack.Snapshot(), value);
      AccountsMore(before.trace, Since(before, compactorStack.Snapshot()), history, value, 1);
      Record(value, 1);
    }

    /** Same as adding `value` `weight` times, but for the weight `lost` between the two reads of
        the sampler's capacity; does nothing if `weight` is not positive. */
    method AddWeighted(value: int, weight: int) returns (ghost mid: View, ghost lost: int)
      requires Valid()
      modifies this, compactorStack
      ensures Valid()
      ensures history == if weight > 0 then old(history) + [Weighted(value, weight)] else old(history)
      ensures weight <= 0 ==> compactorStack.Snapshot() == old(compactorStack.Snapshot()) && lost == 0
      ensures weight > 0 ==>
                && Rereads(old(compactorStack.Snapshot()), mid, value, weight, lost)
                && TookIn(old(compactorStack.Snapshot()), mid, compactorStack.Snapshot(), value, weight, lost)
      ensures weight > 0 ==> lost == Loss(compactorStack.k, old(compactorStack.Snapshot()), weight)
    {
      hide Accounts, Did, Contains, AllOf, TrueRank, Replay, ShapeBut, Handed, Loss, Rereads, LowEnough, Settled;
      mid, lost := compactorStack.Snapshot(), 0;
      if weight > 0 {
        ghost var before := compactorStack.Snapshot();
        mid, lost := compactorStack.AddWithWeight(value, weight, false);
        AccountsMore(before.trace, Since(before, compactorStack.Snapshot()), history, value, weight);
        assert before.trace + Since(before, compactorStack.Snapshot()) == compactorStack.trace;
        Record(value, weight);
        plain := false;
      }
    }

    /** UpdateMin, UpdateMax and the count. */
    method Record(value: int, weight: int)
      requires weight > 0 && numValues == TrueRank(history, Top)
      requires numValues == 0 <==> history == []
      requires forall i :: 0 <= i < |history| ==> min <= history[i].value <= max
      requires history != [] ==> Contains(history, min) && Contains(history, max)
      modifies `min, `max, `numValues, `history
      ensures history == old(history) + [Weighted(value, weight)]
      ensures numValues == TrueRank(history, Top) && numValues == old(numValues) + weight > 0
      ensures forall i :: 0 <= i < |history| ==> min <= history[i].value <= max
      ensures Contains(history, min) && Contains(history, max)
    {
      hide TrueRank;
      if numValues == 0 || min > value {
        min := value;
      }
      if numValues == 0 || max < value {
        max := value;
      }
      numValues := numValues + weight;
      TrueRankPush(history, Weighted(value, weight), Top);
      ghost var was := history;
      history := history + [Weighted(value, weight)];
      assert history[|was|].value == value;
      assert forall x :: Contains(was, x) ==> Contains(history, x) by {
        forall x | Contains(was, x) ensures Contains(history, x) {
          var i :| 0 <= i < |was| && was[i].value == x;
          assert history[i].value == x;
        }
      }
    }

    /** The log of the compactions, hand-overs and drops done so far. */
    ghost function Log(): seq<Entry>
      requires Valid()
      reads this, compactorStack
    {
      Replay(compactorStack.trace).value.log
    }

    /** On every run the rank of any value in the sketch is off by at most 2^level for each
        compaction of a level that was not empty, the weight of each sample handed over, each dropped weight, and the
        weight in the sampler. */
    lemma {:induction false} RankErrorNow(b: Bound)
      requires Valid()
      ensures var s := compactorStack.sampler;
              var slack := ErrorBound(Log()) + if s.Some? then s.value.itemWeight else 0;
              -slack <= SketchRank(compactorStack.compactors, s, b) - TrueRank(history, b) <= slack
    {
      hide Rank, ErrorBound, Taken, Replay;
      RankError(compactorStack.trace, b);
    }

    /** With the sampler off, the rank of any value is off by at most the number of values times
        the product of 1 + 1 / capacity over the levels below the top, less one. */
    lemma {:induction false} RankErrorSamplerOff(b: Bound)
      requires Valid() && compactorStack.sampler.None?
      ensures AllActive(compactorStack.k, |compactorStack.compactors|)
      ensures var n := |compactorStack.compactors|;
              var bound := Times(Growth(compactorStack.k, n, n - 1) - 1.0, numValues);
              -bound <= (Rank(compactorStack.compactors, b) - TrueRank(history, b)) as real <= bound
    {
      hide Rank, ErrorBound, Taken, Replay, Growth, Times, TargetCapacity, NumItems, CapacitySum, Upright, ShapeBut,
           TrueRank;
      UprightNow(compactorStack.k, compactorStack.Snapshot());
      TraceErrorSamplerOff(compactorStack.k, compactorStack.trace, b);
    }

    /** A sketch of n single values with h > 1 levels has k * 3^(h-2) <= n * 2^(h-2), so its height
        grows with the logarithm of n only, sampler or not. */
    lemma {:induction false} HeightBound()
      requires Valid() && plain && |compactorStack.compactors| >= 2
      ensures var h := |compactorStack.compactors| - 2; compactorStack.k * Pow(3, h) <= numValues * Pow(2, h)
    {
      hide Load, Measure, Pow, Accounts, ShapeBut;
      LoadInIntegers(compactorStack.k, |compactorStack.compactors| - 2, numValues);
    }

    /** On every run the weight in the levels and the sampler is num_values, off by 2^h for each
        odd-sized compaction of level h and by the dropped weights. */
    lemma {:induction false} WeightLedgerNow()
      requires Valid()
      ensures SketchRank(compactorStack.compactors, compactorStack.sampler, Top) ==
              numValues + OddDrift(Log()) - TrueRank(Drops(compactorStack.trace), Top)
    {
      hide Rank, Taken, Drops, Replay, OddDrift;
      WeightLedger(compactorStack.trace);
    }

    /** Everything the sketch stores is a value that was added, so it lies between
        min and max; and the stack stays within 3k plus its number of active levels. */
    lemma {:induction false} SketchBounds(x: int)
      requires Valid()
      ensures x in Items(compactorStack.compactors) ==> Contains(history, x) && min <= x <= max
      ensures var s := compactorStack.sampler;
              s.Some? && s.value.itemWeight > 0 && x == s.value.sampledItem ==> Contains(history, x) && min <= x <= max
      ensures compactorStack.numItems <
              3 * compactorStack.k + |compactorStack.compactors| - compactorStack.LowestActiveLevel()
    {
      hide Items, NumItems, CapacitySum, Taken, Replay;
      CapacityBound(compactorStack.k, |compactorStack.compactors| - compactorStack.LowestActiveLevel());
      if x in StoredIn(Replay(compactorStack.trace).value) { Provenance(compactorStack.trace, x); }
    }
  }

  lemma {:induction false} UprightNow(k: nat, v: View)
    requires ShapeBut(k, v, -1) && v.sampler.None? && |v.levels| > 0 && Handed(v) == []
    ensures Upright(k, v.trace) && AllActive(k, |v.levels|)
    ensures Replay(v.trace).value.levels == v.levels && Replay(v.trace).value.handed == []
  {
    hide NumItems, CapacitySum, Replay, TargetCapacity;
  }

  lemma {:induction false} TraceErrorSamplerOff(k: nat, t: seq<Action>, b: Bound)
    requires Upright(k, t) && Replay(t).value.handed == []
    ensures var bound := Times(Growth(k, Height(t), Height(t) - 1) - 1.0, TrueRank(Taken(t), Top));
            -bound <= (Rank(Replay(t).value.levels, b) - TrueRank(Taken(t), b)) as real <= bound
  {
    hide Rank, ErrorBound, Taken, Replay, Growth, Times, TargetCapacity, TrueRank, AllFull;
    RankError(t, b);
    ErrorSamplerOff(k, t);
    Within(Rank(Replay(t).value.levels, b) - TrueRank(Taken(t), b), ErrorBound(Replay(t).value.log),
           Times(Growth(k, Height(t), Height(t) - 1) - 1.0, TrueRank(Taken(t), Top)));
  }

  lemma {:induction false} Within(x: int, e: int, bound: real)
    requires -e <= x <= e && e as real <= bound
    ensures -bound <= x as real <= bound
  {
    assert (-e) as real == -(e as real);
  }

  lemma {:induction false} OneTaken(v: View, w: View, value: int)
    requires Did(v, w, [Weighted(value, 1)], [])
    ensures v.trace <= w.trace && AllOf(Taken(Since(v, w)), value, 1) && v.trace + Since(v, w) == w.trace
  {
    AllOfOne(value, 1);
  }

  lemma {:induction false} FreshAccounts()
    ensures Accounts([NewLevel(false)], [])
  {
    SingleTaken(NewLevel(false));
  }

  // ---------- weight is lost ----------

  /** Whenever one item more makes the topmost level, and no other, be compacted, and the sampler is
      one short of its capacity c, adding a value c + 1 times loses c of them, whatever the coins. */
  method LosesWeight(q: KllQuantile, value: int) returns (ghost mid: View, ghost lost: int)
    requires q.Valid() && Grows(q.compactorStack.k, q.compactorStack.Snapshot())
    requires q.compactorStack.sampler.Some?
    requires q.compactorStack.sampler.value.itemWeight + 1 == q.compactorStack.sampler.value.capacity
    modifies q, q.compactorStack
    ensures q.Valid() && lost == old(q.compactorStack.sampler).value.capacity
    ensures TrueRank(Drops(q.compactorStack.trace), Top) == old(TrueRank(Drops(q.compactorStack.trace), Top)) + lost
  {
    hide ShapeBut, Accounts, TrueRank, Drops, Handed, Grows, Scale, Rem, Quot, Rereads, TookIn, SamplerBelow, Contains,
         Unit;
    ghost var before := q.compactorStack.Snapshot();
    var c := q.compactorStack.sampler.value.capacity;
    FitsNow(q.compactorStack.k, before);
    RemOfNext(before.Lowest());
    mid, lost := q.AddWeighted(value, c + 1);
    LossNow(before, mid, q.compactorStack.Snapshot(), value, lost);
  }

  lemma {:induction false} LossNow(v: View, mid: View, w: View, value: int, lost: int)
    requires v.sampler.Some? && SamplerFits(v.sampler) && lost > 0
    requires TookIn(v, mid, w, value, v.sampler.value.capacity + 1, lost)
    ensures TrueRank(Drops(w.trace), Top) == TrueRank(Drops(v.trace), Top) + lost
  {
    hide TrueRank, Drops, Taken, Scale, Moved, AllOf, Worked, BitPlaces, Quot, Replay;
    DroppedNow(v, w, value, lost);
  }

  lemma {:induction false} FitsNow(k: nat, v: View)
    requires ShapeBut(k, v, -1)
    ensures SamplerFits(v.sampler)
  {
  }

  lemma {:induction false} RemOfNext(low: nat)
    requires low >= 1
    ensures Unit(low) >= 2 && Rem(Unit(low) + 1, Unit(low)) == 1 && Quot(Unit(low) + 1, Unit(low)) == 1
  {
    ScalePositive(low - 1, 1);
    Arith.ModUnique(Unit(low) + 1, Unit(low), 1, 1);
  }

  lemma {:induction false} DroppedNow(v: View, w: View, value: int, lost: nat)
    requires v.trace <= w.trace && Drops(Since(v, w)) == if lost > 0 then [Weighted(value, lost)] else []
    ensures TrueRank(Drops(w.trace), Top) == TrueRank(Drops(v.trace), Top) + lost
  {
    TakenConcat(v.trace, Since(v, w));
    assert v.trace + Since(v, w) == w.trace;
    TrueRankConcat(Drops(v.trace), Drops(Since(v, w)), Top);
    AllOfOne(value, lost);
    TrueRankNone(Top);
  }

  lemma {:induction false} ReplayStep(t: seq<Action>, s: Book, a: Action, u: seq<Action>, next: Book)
    requires Replay(t) == Some(s) && Allowed(s, a) && u == t + [a]
    requires next.levels == Apply(s, a).levels && next.sampler == Apply(s, a).sampler && next.log == Apply(s, a).log
    requires next.absorbed == Apply(s, a).absorbed && next.handed == Apply(s, a).handed
    ensures Replay(u) == Some(next)
  {
    ReplayNext(t, a);
  }

  lemma {:induction false} SortThree()
    ensures Sort([1, 2, 3]) == [1, 2, 3]
  {
    assert [3][1..] == [] && [2, 3][1..] == [3] && [1, 2, 3][1..] == [2, 3];
    assert Sort([3]) == [3];
    assert Sort([2, 3]) == Insert(2, [3]) == [2, 3];
    assert Sort([1, 2, 3]) == Insert(1, [2, 3]) == [1, 2, 3];
  }

  lemma {:induction false} KeepThree()
    ensures Keep([1, 2, 3], true) == [1, 3]
  {
    assert [3][1..] == [] && [2, 3][1..] == [3] && [1, 2, 3][1..] == [2, 3];
    assert Keep([3], true) == [3] + Keep([], false) == [3];
    assert Keep([2, 3], false) == Keep([3], true);
    assert Keep([1, 2, 3], true) == [1] + Keep([2, 3], false) == [1, 3];
  }

  lemma {:induction false} HalvedThree()
    ensures Halved([[1, 2, 3], []], 0, true) == [[], [1, 3]]
  {
    hide Sort, Keep;
    SortThree();
    KeepThree();
    assert [] + [1, 3] == [1, 3];
  }

  /** Such a state is reached, with k = 3: three values, of which the first halving keeps the even
      places and the second, of the level it emptied, keeps nothing whatever its coin, and one more. */
  lemma {:induction false} LosingStateIsReached(t: seq<Action>, coin: bool)
    requires t == [NewLevel(false), Place(0, 1, false), Place(0, 2, false), Place(0, 3, false),
                   NewLevel(false), Doubling, Halving(0, true), Halving(0, coin), Absorb(4, 1, true)]
    ensures var v := View([[], [1, 3]], Some(Sampler(4, 1, 2, 1)), 3, 2, t);
            && ShapeBut(3, v, -1) && SamplerBelow(v) && Handed(v) == [] && Grows(3, v)
            && v.numItems < v.overallCapacity && v.sampler.value.itemWeight + 1 == v.sampler.value.capacity
            && Taken(t) == [Weighted(1, 1), Weighted(2, 1), Weighted(3, 1), Weighted(4, 1)]
  {
    hide Replay, ShapeBut, Taken, Warrants;
    FirstHalving(t[..7]);
    LastSteps(t, coin);
    var v := View([[], [1, 3]], Some(Sampler(4, 1, 2, 1)), 3, 2, t);
    ShapeAt3(v);
    TakenHere(t, coin);
  }

  lemma NoneWarranted()
    ensures Warrants(3, [])
  {
  }

  lemma {:induction false} WarrantStep(t: seq<Action>, a: Action, u: seq<Action>)
    requires Warrants(3, t) && Warranted(3, t, a) && u == t + [a]
    ensures Warrants(3, u)
  {
    WarrantsNext(3, t, a);
  }

  lemma {:induction false} CapacitiesAt3()
    ensures TargetCapacity(3, 0) == 3 && TargetCapacity(3, 1) == 0 && CapacitySum(3, 1) == 3
    ensures NumItems([[1, 2, 3]]) == 3
  {
    assert Pow(2, 1) == 2 * Pow(2, 0) == 2 && Pow(3, 1) == 3 * Pow(3, 0) == 3;
    assert RawCapacity(3, 0) == 3 && RawCapacity(3, 1) == 2;
    assert [[1, 2, 3]][..0] == [] && NumItems([]) == 0;
    assert CapacitySum(3, 0) == 0;
  }

  lemma {:induction false} ThreePlaces(t: seq<Action>)
    requires t == [NewLevel(false), Place(0, 1, false), Place(0, 2, false), Place(0, 3, false)]
    ensures Replay(t) == Some(Book([[1, 2, 3]], None, [], [], [])) && Warrants(3, t)
  {
    hide Replay, Warrants;
    NoneWarranted();
    ReplayNone();
    var b0, b1, b2 := Book([], None, [], [], []), Book([[]], None, [], [], []), Book([[1]], None, [], [], []);
    var b3, b4 := Book([[1, 2]], None, [], [], []), Book([[1, 2, 3]], None, [], [], []);
    assert [] + [1] == [1] && [1] + [2] == [1, 2] && [1, 2] + [3] == [1, 2, 3];
    ReplayStep([], b0, NewLevel(false), t[..1], b1);
    WarrantStep([], NewLevel(false), t[..1]);
    ReplayStep(t[..1], b1, t[1], t[..2], b2);
    WarrantStep(t[..1], t[1], t[..2]);
    ReplayStep(t[..2], b2, t[2], t[..3], b3);
    WarrantStep(t[..2], t[2], t[..3]);
    ReplayStep(t[..3], b3, t[3], t, b4);
    WarrantStep(t[..3], t[3], t);
  }

  lemma {:induction false} FirstHalving(t: seq<Action>)
    requires t == [NewLevel(false), Place(0, 1, false), Place(0, 2, false), Place(0, 3, false),
                   NewLevel(false), Doubling, Halving(0, true)]
    ensures Replay(t) == Some(Book([[], [1, 3]], Some(Sampler(0, 0, 2, 1)), [Compact(0, [1, 2, 3], true)], [], []))
    ensures Warrants(3, t)
  {
    hide Replay, Halved, Warrants, TargetCapacity, CapacitySum, NumItems;
    CapacitiesAt3();
    var on := Some(Sampler(0, 0, 2, 1));
    var b4, b5 := Book([[1, 2, 3]], None, [], [], []), Book([[1, 2, 3], []], None, [], [], []);
    var b6 := Book([[1, 2, 3], []], on, [], [], []);
    ThreePlaces(t[..4]);
    WarrantStep(t[..4], t[4], t[..5]);
    ReplayStep(t[..4], b4, NewLevel(false), t[..5], b5);
    WarrantStep(t[..5], t[5], t[..6]);
    ReplayStep(t[..5], b5, Doubling, t[..6], b6);
    assert EndsWith(t[..6], [Doubling]);
    WarrantStep(t[..6], t[6], t);
    HalvedThree();
    ReplayStep(t[..6], b6, t[6], t, Book([[], [1, 3]], on, [Compact(0, [1, 2, 3], true)], [], []));
  }

  lemma {:induction false} LastSteps(t: seq<Action>, coin: bool)
    requires |t| == 9 && t[7] == Halving(0, coin) && t[8] == Absorb(4, 1, true)
    requires t[4..7] == [NewLevel(false), Doubling, Halving(0, true)] && Warrants(3, t[..7])
    requires Replay(t[..7]) ==
             Some(Book([[], [1, 3]], Some(Sampler(0, 0, 2, 1)), [Compact(0, [1, 2, 3], true)], [], []))
    ensures Replay(t).Some? && Replay(t).value.levels == [[], [1, 3]]
    ensures Replay(t).value.sampler == Some(Sampler(4, 1, 2, 1)) && Replay(t).value.handed == []
    ensures Warrants(3, t)
  {
    hide Replay, Halved, Warrants, TargetCapacity, CapacitySum, NumItems;
    var b7 := Book([[], [1, 3]], Some(Sampler(0, 0, 2, 1)), [Compact(0, [1, 2, 3], true)], [], []);
    var b8 := b7.(log := b7.log + [Compact(0, [], coin)]);
    HalvedNone(coin);
    assert EndsWith(t[..7], [NewLevel(false), Doubling, Halving(0, true)]) by { assert t[..7][4..] == t[4..7]; }
    WarrantStep(t[..7], t[7], t[..8]);
    ReplayStep(t[..7], b7, t[7], t[..8], b8);
    WarrantStep(t[..8], t[8], t);
    ReplayStep(t[..8], b8, t[8], t, b8.(sampler := Some(Sampler(4, 1, 2, 1)), absorbed := [Weighted(4, 1)]));
  }

  lemma {:induction false} HalvedNone(coin: bool)
    ensures Halved([[], [1, 3]], 0, coin) == [[], [1, 3]]
  {
    assert [1, 3] + [] == [1, 3];
  }

  lemma {:induction false} ShapeAt3(v: View)
    requires v.levels == [[], [1, 3]] && v.sampler == Some(Sampler(4, 1, 2, 1)) && v.overallCapacity == 3
             && v.numItems == 2
    requires Tied(v) && Warrants(3, v.trace)
    ensures ShapeBut(3, v, -1)
  {
    hide Replay, Warrants;
    assert Pow(2, 1) == 2 * Pow(2, 0) == 2 && Pow(3, 1) == 3 * Pow(3, 0) == 3;
    assert RawCapacity(3, 0) == 3 && RawCapacity(3, 1) == 2;
    assert Scale(1, 1) == 2;
    assert v.levels[..1] == [[]];
    assert NumItems([[]]) == 0 && NumItems(v.levels) == 2;
    assert CapacitySum(3, 1) == 3;
  }

  lemma {:induction false} TakenHere(t: seq<Action>, coin: bool)
    requires t == [NewLevel(false), Place(0, 1, false), Place(0, 2, false), Place(0, 3, false),
                   NewLevel(false), Doubling, Halving(0, true), Halving(0, coin), Absorb(4, 1, true)]
    ensures Taken(t) == [Weighted(1, 1), Weighted(2, 1), Weighted(3, 1), Weighted(4, 1)]
  {
    hide Taken;
    NothingTaken();
    forall i | 0 <= i < 9 ensures Taken(t[..i + 1]) == Taken(t[..i]) + TakenBy(t[i]) {
      TakenLast(t[..i + 1], t[..i], t[i]);
    }
    assert Unit(0) == 1 && t[..0] == [] && t[..9] == t;
    assert Taken(t[..1]) == [] && Taken(t[..2]) == [Weighted(1, 1)];
    assert Taken(t[..3]) == [Weighted(1, 1), Weighted(2, 1)];
    assert Taken(t[..4]) == [Weighted(1, 1), Weighted(2, 1), Weighted(3, 1)];
    assert Taken(t[..5]) == Taken(t[..4]) && Taken(t[..6]) == Taken(t[..5]);
    assert Taken(t[..7]) == Taken(t[..6]) && Taken(t[..8]) == Taken(t[..7]);
  }

  lemma ReplayNone()
    ensures Replay([]) == Some(Book([], None, [], [], []))
  {
  }
}
