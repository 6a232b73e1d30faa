/** The KLL compactor stack and its reservoir sampler (lib/libkll).

    Random draws are nondeterministic, so every result holds for every outcome. The ghost
    `trace` records what the code does, action by action; the invariant says that the fields
    are the state its replay leads to. */
module KllStack {
  import opened Arith
  import opened Options
  import opened KllCapacity
  import opened KllLedger
  import opened KllTrace

  /** Any value a generator may return for `n`. */
  method UnbiasedUniform(n: nat) returns (r: nat)
    requires n > 0
    ensures r < n
  {
    r :| 0 <= r < n;
  }

  /** The state of a stack as a value. */
  datatype View = View(levels: seq<seq<int>>, sampler: Option<Sampler>, overallCapacity: int, numItems: int,
                       trace: seq<Action>)
  {
    function Lowest(): nat { if sampler.Some? then sampler.value.numReplacedLevels else 0 }
  }

  // ---------- invariants ----------

  /** The fields are what the trace leads to. */
  ghost predicate Tied(v: View) {
    Replay(v.trace).Some? && Replay(v.trace).value.levels == v.levels && Replay(v.trace).value.sampler == v.sampler
  }

  /** The counters agree with the levels, the active levels are exactly those with
      a capacity, and the sampler stands for the replaced ones. Level `hole` may
      still hold items although it has been replaced. */
  ghost predicate ShapeBut(k: nat, v: View, hole: int) {
    && k >= 3 && Tied(v) && Wide(k, v) && Warrants(k, v.trace)
    && v.numItems == NumItems(v.levels)
    && SamplerFits(v.sampler)
    && ActiveLevels(k, |v.levels|, v.Lowest())
    && v.overallCapacity == CapacitySum(k, |v.levels| - v.Lowest())
    && (forall i :: 0 <= i < v.Lowest() && i != hole ==> v.levels[i] == [])
  }

  ghost predicate SamplerFits(s: Option<Sampler>) {
    s.Some? ==> s.value.numReplacedLevels >= 1 && s.value.capacity == Scale(s.value.numReplacedLevels, 1) > 0
  }

  ghost predicate ActiveLevels(k: nat, n: nat, low: nat) {
    && (if n == 0 then low == 0 else low < n && TargetCapacity(k, n - 1 - low) >= 3)
    && (low > 0 ==> TargetCapacity(k, n - low) == 0)
  }

  /** A halving of a level that was full even by the capacity it has at height `n`. */
  ghost predicate FullHalving(k: nat, n: nat, e: Entry) {
    e.Compact? && e.level + 1 < n && |e.items| >= TargetCapacity(k, n - 1 - e.level)
  }

  /** As long as the sampler is off, only full levels have been halved. */
  ghost predicate Wide(k: nat, v: View)
    requires Tied(v)
  {
    v.sampler.None? ==>
      var log := Replay(v.trace).value.log;
      forall i :: 0 <= i < |log| ==> FullHalving(k, |v.levels|, log[i])
  }

  // ---------- why levels are compacted and added ----------

  function LowestOf(sampler: Option<Sampler>): nat { if sampler.Some? then sampler.value.numReplacedLevels else 0 }

  /** The items reach the capacity of the active levels. */
  ghost predicate Crowded(k: nat, levels: seq<seq<int>>, low: nat) {
    low <= |levels| && NumItems(levels) >= CapacitySum(k, |levels| - low)
  }

  ghost predicate IsFull(k: nat, levels: seq<seq<int>>, h: int) {
    0 <= h < |levels| && levels[h] != [] && |levels[h]| >= TargetCapacity(k, |levels| - 1 - h)
  }

  ghost predicate EndsWith(t: seq<Action>, u: seq<Action>) { |u| <= |t| && t[|t| - |u|..] == u }

  /** The topmost level has just been found full: a level was added above it, and the lowest active
      one was handed to the sampler if it lost its capacity by that. */
  ghost predicate TopJustFull(t: seq<Action>) {
    || EndsWith(t, [NewLevel(false)])
    || exists h, c :: EndsWith(t, [NewLevel(false), Doubling, Halving(h, c)])
  }

  /** Whether the state after `t` is one in which the source would take the action. A full level is
      compacted when the stack is crowded, and a level added for it if it is the topmost; a level
      without capacity is handed to the sampler when one is added, and halved for that. */
  ghost predicate Warranted(k: nat, t: seq<Action>, a: Action) {
    Replay(t).Some? &&
    var levels, low := Replay(t).value.levels, LowestOf(Replay(t).value.sampler);
    match a
    case NewLevel(forItem) =>
      forItem || levels == [] || (Crowded(k, levels, low) && IsFull(k, levels, |levels| - 1))
    case Doubling =>
      t != [] && t[|t| - 1].NewLevel? && low < |levels| && TargetCapacity(k, |levels| - 1 - low) == 0
    case Halving(h, _) =>
      || (Crowded(k, levels, low) && IsFull(k, levels, h))
      || (TopJustFull(t) && h == |levels| - 2)
      || (EndsWith(t, [Doubling]) && h == low - 1)
    case _ => true
  }

  /** Every action of the trace was warranted when it was taken. */
  ghost predicate Warrants(k: nat, t: seq<Action>) {
    t == [] || (Warrants(k, t[..|t| - 1]) && Warranted(k, t[..|t| - 1], t[|t| - 1]))
  }

  lemma {:induction false} WarrantsNext(k: nat, t: seq<Action>, a: Action)
    requires Warrants(k, t) && Warranted(k, t, a)
    ensures Warrants(k, t + [a])
  {
    assert (t + [a])[..|t|] == t;
  }

  /** Nothing but compactions needs a warrant. */
  lemma {:induction false} WarrantsOther(k: nat, t: seq<Action>, a: Action)
    requires Warrants(k, t) && Replay(t).Some? && (a == NewLevel(true) || !IsCompaction(a))
    ensures Warrants(k, t + [a])
  {
    hide Replay, Warrants;
    WarrantsNext(k, t, a);
  }

  /** Every halving on a trace was of a full level of a crowded stack, of the topmost level for
      which one was just added, or of the level just handed to the sampler. */
  lemma {:induction false} HalvingsWarranted(k: nat, t: seq<Action>, i: nat)
    requires Warrants(k, t) && i < |t|
    ensures Warranted(k, t[..i], t[i])
  {
    if i < |t| - 1 {
      HalvingsWarranted(k, t[..|t| - 1], i);
      assert t[..|t| - 1][..i] == t[..i];
    }
  }

  ghost predicate SamplerBelow(v: View) {
    v.sampler.Some? ==> v.sampler.value.itemWeight < v.sampler.value.capacity
  }

  /** What the sampler has handed over and not yet struck off; nothing between calls. */
  ghost function Handed(v: View): seq<Weighted> {
    if Replay(v.trace).Some? then Replay(v.trace).value.handed else []
  }

  // ---------- what the operations do ----------

  ghost function Since(v: View, w: View): seq<Action>
    requires v.trace <= w.trace
  {
    w.trace[|v.trace|..]
  }

  /** Compaction may switch the sampler on or double it, but never touches its sample. */
  ghost predicate SamplerGrew(s: Option<Sampler>, t: Option<Sampler>) {
    match s
    case None => t.Some? ==> t.value.itemWeight == 0
    case Some(x) => t.Some? && t.value.sampledItem == x.sampledItem && t.value.itemWeight == x.itemWeight
                    && t.value.numReplacedLevels >= x.numReplacedLevels
  }

  /** Only halvings, new levels and doublings happened. */
  ghost predicate Compacted(v: View, w: View) {
    && v.trace <= w.trace && OnlyCompactions(Since(v, w))
    && SamplerGrew(v.sampler, w.sampler) && Handed(w) == Handed(v)
  }

  /** What happened dropped nothing and took in `weight` of `value` and nothing else; or, if
      the value is the sample, took in nothing and handed that over. */
  ghost predicate Moved(v: View, w: View, value: int, weight: int, sampled: bool) {
    && v.trace <= w.trace && Drops(Since(v, w)) == [] && Handed(v) <= Handed(w)
    && (if sampled then Taken(Since(v, w)) == [] && AllOf(Handed(w)[|Handed(v)|..], value, weight)
        else AllOf(Taken(Since(v, w)), value, weight) && Handed(w) == Handed(v))
  }

  /** What happened took in and dropped exactly these. */
  ghost predicate Did(v: View, w: View, taken: seq<Weighted>, drops: seq<Weighted>) {
    v.trace <= w.trace && Taken(Since(v, w)) == taken && Drops(Since(v, w)) == drops
  }

  /** Besides compactions, exactly this was done. */
  ghost predicate Worked(v: View, w: View, deeds: seq<Action>) { v.trace <= w.trace && Deeds(Since(v, w)) == deeds }

  lemma {:induction false} WorkedSteps(u: View, v: View, w: View, a: seq<Action>, b: seq<Action>)
    requires Worked(u, v, a) && Worked(v, w, b)
    ensures Worked(u, w, a + b)
  {
    SinceSteps(u, v, w);
    DeedsConcat(Since(u, v), Since(v, w));
  }

  lemma {:induction false} WorkedOnly(u: View, v: View, w: View, a: seq<Action>)
    requires Worked(u, v, a) && Compacted(v, w)
    ensures Worked(u, w, a)
  {
    CompactionsDoNothing(Since(v, w));
    WorkedSteps(u, v, w, a, []);
    assert a + [] == a;
  }

  lemma {:induction false} WorkedOne(v: View, w: View, a: Action)
    requires w.trace == v.trace + [a] && !IsCompaction(a)
    ensures Worked(v, w, [a])
  {
    assert Since(v, w) == [a] && [a][..0] == [];
  }

  /** What is done for one bit: the level if it is missing, and the item if the bit is set. */
  ghost function BitPlace(value: int, bit: nat, level: nat, sampled: bool, n: nat): seq<Action> {
    (if level >= n then [NewLevel(true)] else []) + if bit == 1 then [Place(level, value, sampled)] else []
  }

  lemma {:induction false} MorePlaces(deeds: seq<Action>, value: int, weight: nat, level: nat, sampled: bool, n: nat,
                                      all: seq<Action>)
    requires weight > 0 && deeds + BitPlaces(value, weight, level, sampled, n) == all
    ensures deeds + BitPlace(value, weight % 2, level, sampled, n)
            + BitPlaces(value, weight / 2, level + 1, sampled, n) == all
  {
    var here := BitPlace(value, weight % 2, level, sampled, n);
    var rest := BitPlaces(value, weight / 2, level + 1, sampled, n);
    assert BitPlaces(value, weight, level, sampled, n) == here + rest;
    assert deeds + (here + rest) == deeds + here + rest;
  }

  lemma {:induction false} NoPlaces(deeds: seq<Action>, value: int, level: nat, sampled: bool, n: nat)
    ensures deeds + BitPlaces(value, 0, level, sampled, n) == deeds
  {
  }

  lemma {:induction false} WorkedNone(v: View)
    ensures Worked(v, v, [])
  {
    SinceRefl(v);
  }

  lemma SinceSteps(u: View, v: View, w: View)
    requires u.trace <= v.trace && v.trace <= w.trace
    ensures u.trace <= w.trace && Since(u, w) == Since(u, v) + Since(v, w)
  {
  }

  lemma SinceRefl(v: View)
    ensures v.trace <= v.trace && Since(v, v) == []
  {
  }

  lemma {:induction false} CompactedSteps(u: View, v: View, w: View)
    requires Compacted(u, v) && Compacted(v, w)
    ensures Compacted(u, w)
  {
    SinceSteps(u, v, w);
  }

  lemma CompactedRefl(v: View)
    ensures Compacted(v, v)
  {
  }

  lemma {:induction false} DidSteps(u: View, v: View, w: View, taken: seq<Weighted>, drops: seq<Weighted>,
                                    taken': seq<Weighted>, drops': seq<Weighted>)
    requires Did(u, v, taken, drops) && Did(v, w, taken', drops')
    ensures Did(u, w, taken + taken', drops + drops')
  {
    SinceSteps(u, v, w);
    TakenConcat(Since(u, v), Since(v, w));
  }

  lemma {:induction false} DidOnly(u: View, v: View, w: View, taken: seq<Weighted>, drops: seq<Weighted>)
    requires Did(u, v, taken, drops) && Did(v, w, [], [])
    ensures Did(u, w, taken, drops)
  {
    DidSteps(u, v, w, taken, drops, [], []);
    assert taken + [] == taken && drops + [] == drops;
  }

  lemma {:induction false} AllOfSum(s: seq<Weighted>, t: seq<Weighted>, x: int, m: int, n: int)
    requires AllOf(s, x, m) && AllOf(t, x, n)
    ensures AllOf(s + t, x, m + n)
  {
    TrueRankConcat(s, t, Top);
  }

  lemma AllOfNone(x: int)
    ensures AllOf([], x, 0)
  {
  }

  lemma {:induction false} MovedSteps(u: View, v: View, w: View, value: int, m: int, n: int, sampled: bool)
    requires Moved(u, v, value, m, sampled) && Moved(v, w, value, n, sampled)
    ensures Moved(u, w, value, m + n, sampled)
  {
    hide AllOf, Taken, Drops, Handed;
    SinceSteps(u, v, w);
    TakenConcat(Since(u, v), Since(v, w));
    var a, b, c := Handed(u), Handed(v), Handed(w);
    if sampled {
      AllOfSum(b[|a|..], c[|b|..], value, m, n);
      assert c[|a|..] == b[|a|..] + c[|b|..];
    } else {
      AllOfSum(Taken(Since(u, v)), Taken(Since(v, w)), value, m, n);
    }
  }

  lemma {:induction false} CompactedMoves(v: View, w: View, value: int, sampled: bool)
    requires Compacted(v, w)
    ensures Moved(v, w, value, 0, sampled) && Did(v, w, [], [])
  {
    hide AllOf, Taken, Drops, Handed;
    CompactionsTakeNothing(Since(v, w));
    AllOfNone(value);
    assert Handed(w)[|Handed(v)|..] == [];
  }

  lemma {:induction false} MovedRefl(v: View, value: int, sampled: bool)
    ensures Moved(v, v, value, 0, sampled) && Did(v, v, [], [])
  {
    CompactedRefl(v);
    CompactedMoves(v, v, value, sampled);
  }

  lemma {:induction false} DidMovesAny(v: View, w: View, value: int, sampled: bool)
    requires Did(v, w, [], []) && Handed(w) == Handed(v)
    ensures Moved(v, w, value, 0, sampled)
  {
    hide Handed, Taken, Drops;
    AllOfNone(value);
    assert Handed(w)[|Handed(v)|..] == [];
  }

  lemma {:induction false} DidMoves(v: View, w: View, value: int)
    requires Did(v, w, [], []) && Handed(w) == Handed(v)
    ensures Moved(v, w, value, 0, false)
  {
    AllOfNone(value);
  }

  lemma CompactedSample(v: View, w: View)
    requires Compacted(v, w)
    ensures SamplerGrew(v.sampler, w.sampler) && Handed(w) == Handed(v) && v.trace <= w.trace
  {
  }

  /** Doubling the capacity keeps a sampler that was below it below it. */
  lemma {:induction false} GrewBelow(v: View, w: View)
    requires SamplerGrew(v.sampler, w.sampler)
    requires SamplerFits(v.sampler) && SamplerFits(w.sampler)
    ensures SamplerBelow(v) ==> SamplerBelow(w)
    ensures v.sampler.Some? ==> v.sampler.value.capacity <= w.sampler.value.capacity
  {
    if w.sampler.Some? { ScalePositive(w.sampler.value.numReplacedLevels, 1); }
    if v.sampler.Some? { ScaleGrows(v.sampler.value.numReplacedLevels, w.sampler.value.numReplacedLevels); }
  }

  // ---------- one action at a time ----------

  ghost predicate AllowedNow(v: View, a: Action) { Tied(v) && Allowed(Replay(v.trace).value, a) }

  /** The books after one more action. */
  ghost function Next(v: View, a: Action): Book
    requires AllowedNow(v, a)
  {
    Apply(Replay(v.trace).value, a)
  }

  lemma {:induction false} ActionTied(v: View, a: Action, w: View)
    requires AllowedNow(v, a) && w.trace == v.trace + [a]
    requires w.levels == Next(v, a).levels && w.sampler == Next(v, a).sampler
    ensures Tied(w) && Replay(w.trace) == Some(Next(v, a)) && Handed(w) == Next(v, a).handed
    ensures v.trace <= w.trace && Since(v, w) == [a]
  {
    hide Replay, Allowed, Apply;
    ReplayNext(v.trace, a);
  }

  lemma {:induction false} SingleTaken(a: Action)
    ensures Taken([a]) == match a
                          case Place(h, x, sampled) => if sampled then [] else [Weighted(x, Unit(h))]
                          case Absorb(x, w, _) => [Weighted(x, w)]
                          case Drop(x, lost) => [Weighted(x, lost)]
                          case _ => []
    ensures Drops([a]) == if a.Drop? then [Weighted(a.value, a.lost)] else []
  {
    assert [a][..0] == [];
  }

  lemma {:induction false} AllOfOne(x: int, w: nat)
    ensures AllOf([Weighted(x, w)], x, w)
  {
    TrueRankPush([], Weighted(x, w), Top);
    assert [] + [Weighted(x, w)] == [Weighted(x, w)];
  }

  ghost function AfterHalve(v: View, h: nat, keepEven: bool): View
    requires h + 1 < |v.levels|
  {
    v.(levels := Halved(v.levels, h, keepEven), trace := v.trace + [Halving(h, keepEven)],
       numItems := v.numItems - (|v.levels[h]| + if keepEven then 0 else 1) / 2)
  }

  lemma {:induction false} HalveKeeps(v: View, h: nat, keepEven: bool)
    requires h + 1 < |v.levels| && Tied(v)
    ensures Tied(AfterHalve(v, h, keepEven)) && Compacted(v, AfterHalve(v, h, keepEven))
    ensures Replay(AfterHalve(v, h, keepEven).trace).value.log ==
            Replay(v.trace).value.log + [Compact(h, v.levels[h], keepEven)]
  {
    hide Halved, Replay;
    ActionTied(v, Halving(h, keepEven), AfterHalve(v, h, keepEven));
  }

  lemma {:induction false} HalveShape(k: nat, v: View, h: nat, keepEven: bool)
    requires v.Lowest() <= h + 1 < |v.levels| && ShapeBut(k, v, h)
    requires v.sampler.None? ==> |v.levels[h]| >= TargetCapacity(k, |v.levels| - 1 - h)
    requires Warranted(k, v.trace, Halving(h, keepEven))
    ensures ShapeBut(k, AfterHalve(v, h, keepEven), -1)
  {
    hide NumItems, Rank, Drift, Items, CapacitySum, ActiveLevels, SamplerFits, Keep, Sort, Replay, TargetCapacity,
         Compacted, Warrants, Warranted;
    HalvedEffect(v.levels, h, keepEven);
    HalveKeeps(v, h, keepEven);
    WarrantsNext(k, v.trace, Halving(h, keepEven));
  }

  ghost function AfterGrow(v: View, capacity: int, forItem: bool): View {
    v.(levels := v.levels + [[]], overallCapacity := capacity, trace := v.trace + [NewLevel(forItem)])
  }

  /** A level may be added: for an item, or because the topmost is full. */
  ghost predicate MayGrow(k: nat, v: View, forItem: bool) {
    forItem || v.levels == [] || (Crowded(k, v.levels, v.Lowest()) && IsFull(k, v.levels, |v.levels| - 1))
  }

  lemma {:induction false} GrowKeeps(k: nat, v: View, capacity: int, forItem: bool)
    requires Tied(v)
    ensures Tied(AfterGrow(v, capacity, forItem))
    ensures Handed(AfterGrow(v, capacity, forItem)) == Handed(v)
    ensures v.trace <= AfterGrow(v, capacity, forItem).trace
    ensures Since(v, AfterGrow(v, capacity, forItem)) == [NewLevel(forItem)]
    ensures NumItems(v.levels + [[]]) == NumItems(v.levels)
    ensures Wide(k, v) ==> Wide(k, AfterGrow(v, capacity, forItem))
    ensures Warrants(k, v.trace) && MayGrow(k, v, forItem) ==> Warrants(k, AfterGrow(v, capacity, forItem).trace)
  {
    hide NumItems, Replay, TargetCapacity, Warrants, CapacitySum;
    var w := AfterGrow(v, capacity, forItem);
    ActionTied(v, NewLevel(forItem), w);
    AddEmptyLevel(v.levels);
    if Wide(k, v) && v.sampler.None? {
      var log := Replay(v.trace).value.log;
      forall i | 0 <= i < |log| ensures FullHalving(k, |w.levels|, log[i]) {
        TargetShrinks(k, |v.levels| - 1 - log[i].level);
      }
    }
    if Warrants(k, v.trace) && MayGrow(k, v, forItem) { WarrantsNext(k, v.trace, NewLevel(forItem)); }
  }

  ghost function AfterDouble(v: View): View { v.(sampler := Doubled(v.sampler), trace := v.trace + [Doubling]) }

  lemma {:induction false} DoubleKeeps(k: nat, v: View)
    requires ReadyToDouble(k, v)
    ensures Tied(AfterDouble(v)) && Compacted(v, AfterDouble(v)) && Wide(k, AfterDouble(v))
    ensures Warrants(k, AfterDouble(v).trace) && EndsWith(AfterDouble(v).trace, [Doubling])
    ensures SamplerFits(AfterDouble(v).sampler)
  {
    hide Replay, Warrants, NumItems, CapacitySum, TargetCapacity;
    ActionTied(v, Doubling, AfterDouble(v));
    WarrantsNext(k, v.trace, Doubling);
    assert Scale(1, 1) == 2;
  }

  ghost function AfterPlace(v: View, level: nat, value: int, sampled: bool): View
    requires level < |v.levels|
  {
    v.(levels := Push(v.levels, level, value), numItems := v.numItems + 1,
       trace := v.trace + [Place(level, value, sampled)])
  }

  /** The value is the sampler's sample. */
  ghost predicate IsSample(v: View, value: int) {
    v.sampler.Some? && v.sampler.value.itemWeight > 0 && value == v.sampler.value.sampledItem
  }

  lemma {:induction false} PlaceKeeps(k: nat, v: View, level: nat, value: int, sampled: bool)
    requires ShapeBut(k, v, -1) && v.Lowest() <= level < |v.levels| && (sampled ==> IsSample(v, value))
    ensures ShapeBut(k, AfterPlace(v, level, value, sampled), -1)
    ensures Moved(v, AfterPlace(v, level, value, sampled), value, Scale(level, 1), sampled)
    ensures !sampled ==> Did(v, AfterPlace(v, level, value, sampled), [Weighted(value, Unit(level))], [])
  {
    hide NumItems, CapacitySum, ActiveLevels, SamplerFits, Replay, Warrants, Scale, Taken, Drops, AllOf, FullHalving;
    var a, w := Place(level, value, sampled), AfterPlace(v, level, value, sampled);
    ActionTied(v, a, w);
    PushEffect(v.levels, level, value);
    SingleTaken(a);
    WarrantsOther(k, v.trace, a);
    AllOfOne(value, Unit(level));
    if sampled { assert Handed(w)[|Handed(v)|..] == [Weighted(value, Unit(level))]; }
  }

  ghost function AfterAbsorb(v: View, item: int, weight: nat, take: bool): View
    requires v.sampler.Some?
  {
    v.(sampler := Some(v.sampler.value.(
         itemWeight := v.sampler.value.itemWeight + weight,
         sampledItem := if take then item else v.sampler.value.sampledItem)),
       trace := v.trace + [Absorb(item, weight, take)])
  }

  lemma {:induction false} AbsorbKeeps(k: nat, v: View, item: int, weight: nat, take: bool)
    requires ShapeBut(k, v, -1) && v.sampler.Some? && (v.sampler.value.itemWeight == 0 ==> take)
    ensures ShapeBut(k, AfterAbsorb(v, item, weight, take), -1)
    ensures Moved(v, AfterAbsorb(v, item, weight, take), item, weight, false)
    ensures Did(v, AfterAbsorb(v, item, weight, take), [Weighted(item, weight)], [])
    ensures Handed(AfterAbsorb(v, item, weight, take)) == Handed(v)
  {
    hide NumItems, CapacitySum, ActiveLevels, Replay, Warrants, Scale, Taken, Drops, AllOf, FullHalving;
    var a, w := Absorb(item, weight, take), AfterAbsorb(v, item, weight, take);
    ActionTied(v, a, w);
    SingleTaken(a);
    AllOfOne(item, weight);
    WarrantsOther(k, v.trace, a);
  }

  ghost function AfterDrop(v: View, value: int, lost: nat): View { v.(trace := v.trace + [Drop(value, lost)]) }

  lemma {:induction false} DropKeeps(k: nat, v: View, value: int, lost: nat)
    requires ShapeBut(k, v, -1) && v.sampler.Some?
    ensures ShapeBut(k, AfterDrop(v, value, lost), -1)
    ensures Did(v, AfterDrop(v, value, lost), [Weighted(value, lost)], [Weighted(value, lost)])
    ensures Handed(AfterDrop(v, value, lost)) == Handed(v)
  {
    hide NumItems, CapacitySum, ActiveLevels, SamplerFits, Replay, Warrants, Scale, Taken, Drops, FullHalving;
    ActionTied(v, Drop(value, lost), AfterDrop(v, value, lost));
    SingleTaken(Drop(value, lost));
    WarrantsOther(k, v.trace, Drop(value, lost));
  }

  ghost function AfterRestart(v: View): View
    requires v.sampler.Some?
  {
    v.(sampler := Some(v.sampler.value.(itemWeight := 0, sampledItem := 0)), trace := v.trace + [Restart])
  }

  lemma {:induction false} RestartKeeps(k: nat, v: View)
    requires ShapeBut(k, v, -1) && v.sampler.Some? && TrueRank(Handed(v), Top) == v.sampler.value.itemWeight
    ensures ShapeBut(k, AfterRestart(v), -1) && Did(v, AfterRestart(v), [], []) && Handed(AfterRestart(v)) == []
  {
    hide NumItems, CapacitySum, ActiveLevels, Replay, Warrants, Scale, Taken, Drops, FullHalving, TrueRank;
    ActionTied(v, Restart, AfterRestart(v));
    SingleTaken(Restart);
    WarrantsOther(k, v.trace, Restart);
  }

  /** Some active level is full whenever the stack holds its overall capacity. */
  lemma {:induction false} FullLevel(k: nat, levels: seq<seq<int>>, low: nat) returns (h: nat)
    requires low < |levels|
    requires forall i :: 0 <= i < low ==> levels[i] == []
    requires NumItems(levels) >= CapacitySum(k, |levels| - low)
    ensures low <= h < |levels| && |levels[h]| >= TargetCapacity(k, |levels| - 1 - h)
    ensures forall i :: low <= i < h ==> |levels[i]| < TargetCapacity(k, |levels| - 1 - i)
  {
    assert levels[..|levels|] == levels;
    if forall i :: low <= i < |levels| ==> |levels[i]| < TargetCapacity(k, |levels| - 1 - i) {
      Pigeonhole(k, levels, low, |levels|);
    }
    h := low;
    while |levels[h]| < TargetCapacity(k, |levels| - 1 - h)
      invariant low <= h < |levels| && forall i :: low <= i < h ==> |levels[i]| < TargetCapacity(k, |levels| - 1 - i)
      decreases |levels| - h
    {
      h := h + 1;
    }
  }

  lemma {:induction false} Pigeonhole(k: nat, levels: seq<seq<int>>, low: nat, i: nat)
    requires low <= i <= |levels|
    requires forall j :: 0 <= j < low ==> levels[j] == []
    requires forall j :: low <= j < |levels| ==> |levels[j]| < TargetCapacity(k, |levels| - 1 - j)
    ensures NumItems(levels[..i]) + CapacitySum(k, |levels| - i) + (i - low) <= CapacitySum(k, |levels| - low)
  {
    if i == low {
      EmptyLevels(levels[..i]);
    } else {
      Pigeonhole(k, levels, low, i - 1);
      assert levels[..i][..i - 1] == levels[..i - 1];
    }
  }

  lemma {:induction false} EmptyLevels(levels: seq<seq<int>>)
    requires forall j :: 0 <= j < |levels| ==> levels[j] == []
    ensures NumItems(levels) == 0
  {
    if levels != [] { EmptyLevels(levels[..|levels| - 1]); }
  }

  /** The selecting loop of Halve: alternate items, the first one iff `keepEven`. */
  method EverySecond(down: seq<int>, keepEven: bool) returns (up: seq<int>)
    ensures up == Keep(down, keepEven)
  {
    up := [];
    var even := true;
    for i := 0 to |down|
      invariant up + Keep(down[i..], even == keepEven) == Keep(down, keepEven)
    {
      assert down[i..][1..] == down[i + 1..];
      if even == keepEven {
        up := up + [down[i]];
      }
      even := !even;
    }
    assert down[|down|..] == [] && up + [] == up;
  }

  lemma HalvedOthers(levels: seq<seq<int>>, h: nat, keepEven: bool)
    requires h + 1 < |levels|
    ensures |Halved(levels, h, keepEven)| == |levels|
    ensures forall t :: 0 <= t < |levels| && t != h ==> |Halved(levels, h, keepEven)[t]| >= |levels[t]|
  {
  }

  /** A level has been added and the lowest active one has no capacity any more. */
  ghost predicate ReadyToDouble(k: nat, v: View) {
    && k >= 3 && v.numItems == NumItems(v.levels) && SamplerFits(v.sampler) && Tied(v)
    && Warrants(k, v.trace) && v.trace != [] && v.trace[|v.trace| - 1].NewLevel?
    && v.Lowest() + 2 <= |v.levels|
    && TargetCapacity(k, |v.levels| - 1 - v.Lowest()) == 0
    && TargetCapacity(k, |v.levels| - 2 - v.Lowest()) >= 3
    && v.overallCapacity == CapacitySum(k, |v.levels| - v.Lowest())
    && forall i :: 0 <= i < v.Lowest() ==> v.levels[i] == []
  }

  lemma {:induction false} GrowShape(k: nat, v: View, forItem: bool)
    requires ShapeBut(k, v, -1) && MayGrow(k, v, forItem)
    ensures var cap := TargetCapacity(k, |v.levels| - v.Lowest());
            var w := AfterGrow(v, v.overallCapacity + cap, forItem);
            if cap == 0 then ReadyToDouble(k, w) else ShapeBut(k, w, -1) && v.Lowest() == 0
  {
    hide NumItems, Replay, Wide, Warrants, Compacted, SamplerFits, MayGrow;
    var cap := TargetCapacity(k, |v.levels| - v.Lowest());
    TopCapacity(k);
    GrowKeeps(k, v, v.overallCapacity + cap, forItem);
  }

  /** A level may be compacted: it is full in a crowded stack, or the sampler has just got it. */
  ghost predicate MayCompact(k: nat, v: View, level: nat) {
    || (Crowded(k, v.levels, v.Lowest()) && IsFull(k, v.levels, level))
    || (EndsWith(v.trace, [Doubling]) && level + 1 == v.Lowest() < |v.levels|)
  }

  lemma {:induction false} MayCompactMeans(k: nat, v: View, level: nat)
    requires MayCompact(k, v, level) && level < |v.levels|
    ensures v.sampler.None? ==> |v.levels[level]| >= TargetCapacity(k, |v.levels| - 1 - level)
    ensures level == |v.levels| - 1 ==> MayGrow(k, v, false) && |v.levels[level]| >= TargetCapacity(k, 0)
  {
    hide TargetCapacity, NumItems, CapacitySum;
  }

  /** After a level was added for a full one, that one's halving is warranted. */
  lemma {:induction false} GrewEnds(k: nat, v: View, w: View)
    requires v.Lowest() <= |v.levels| && Grew(k, false, v, w)
    ensures TopJustFull(w.trace) && |w.levels| == |v.levels| + 1
  {
    hide TargetCapacity;
    var cap := TargetCapacity(k, |v.levels| - v.Lowest());
    var g := AfterGrow(v, v.overallCapacity + cap, false);
    if cap > 0 {
      assert EndsWith(w.trace, [NewLevel(false)]);
    } else {
      var coin :| w == AfterHalve(AfterDouble(g), v.Lowest(), coin);
      var end := [NewLevel(false), Doubling, Halving(v.Lowest(), coin)];
      assert w.trace == v.trace + end;
      assert EndsWith(w.trace, end);
    }
  }

  /** A new level costs no items, and takes none off the level that was topmost unless it is the
      one handed to the sampler. */
  lemma {:induction false} GrewMeans(k: nat, forItem: bool, v: View, w: View)
    requires v.Lowest() <= |v.levels| && Grew(k, forItem, v, w)
    ensures |w.levels| == |v.levels| + 1 && w.numItems <= v.numItems
    ensures w.sampler.None? ==>
              w == AfterGrow(v, v.overallCapacity + TargetCapacity(k, |v.levels|), forItem)
    ensures v.levels != [] ==>
              var t := |v.levels| - 1;
              |w.levels[t]| >= |v.levels[t]| || w.numItems <= v.numItems - |v.levels[t]| / 2
  {
    hide TargetCapacity, Halved;
    var cap := TargetCapacity(k, |v.levels| - v.Lowest());
    if cap == 0 {
      var g := AfterGrow(v, v.overallCapacity + cap, forItem);
      var coin :| w == AfterHalve(AfterDouble(g), v.Lowest(), coin);
      HalvedOthers(g.levels, v.Lowest(), coin);
    }
  }

  lemma {:induction false} FirstLevel(k: nat, v: View, w: View)
    requires k >= 3 && v == View([], None, 0, 0, []) && Grew(k, false, v, w)
    ensures w == View([[]], None, k, 0, [NewLevel(false)])
  {
    TopCapacity(k);
  }

  lemma {:induction false} CompactWarranted(k: nat, first: View, v: View, level: nat)
    requires MayCompact(k, first, level) && Tied(v) && level + 1 < |v.levels|
    requires v == first || (TopJustFull(v.trace) && level == |v.levels| - 2)
    ensures forall coin :: Warranted(k, v.trace, Halving(level, coin))
  {
    hide TargetCapacity, NumItems, CapacitySum, Replay;
  }

  // ---------- what exactly compacting does ----------

  /** A level has been added: it takes the capacity that the levels give it, and if the lowest
      active level has none left, the sampler takes that level and its items move one up. */
  ghost predicate Grew(k: nat, forItem: bool, v: View, w: View)
    requires v.Lowest() <= |v.levels|
  {
    var cap := TargetCapacity(k, |v.levels| - v.Lowest());
    var g := AfterGrow(v, v.overallCapacity + cap, forItem);
    if cap > 0 then w == g
    else v.Lowest() < |v.levels| && exists coin :: w == AfterHalve(AfterDouble(g), v.Lowest(), coin)
  }

  /** A level has been halved into the next, the topmost one into a level added for it. */
  ghost predicate LevelCompacted(k: nat, v: View, level: nat, w: View)
    requires v.Lowest() <= |v.levels|
  {
    level < |v.levels| &&
    if level < |v.levels| - 1 then exists coin :: w == AfterHalve(v, level, coin)
    else exists g, coin :: Grew(k, false, v, g) && level + 1 < |g.levels| && w == AfterHalve(g, level, coin)
  }

  /** The lowest of the full active levels. */
  ghost predicate FirstFull(k: nat, v: View, h: nat) {
    && v.Lowest() <= h < |v.levels| && |v.levels[h]| >= TargetCapacity(k, |v.levels| - 1 - h)
    && forall i :: v.Lowest() <= i < h ==> |v.levels[i]| < TargetCapacity(k, |v.levels| - 1 - i)
  }

  /** Below its capacity a stack is left alone; when that is just reached, the first full level is
      compacted and nothing else happens. */
  ghost predicate Settled(k: nat, v: View, w: View)
    requires v.Lowest() <= |v.levels|
  {
    if v.numItems < v.overallCapacity then w == v
    else exists h :: FirstFull(k, v, h) && LevelCompacted(k, v, h, w)
  }

  /** The full sampler's sample has been placed on the lowest active level, the stack settled, and
      the sampler started anew. */
  ghost predicate HandedOn(k: nat, v: View, w: View) {
    && v.sampler.Some? && v.Lowest() < |v.levels|
    && exists q: View :: q.sampler.Some? && w == AfterRestart(q)
                   && Settled(k, AfterPlace(v, v.Lowest(), v.sampler.value.sampledItem, true), q)
  }

  /** One value has been added: on level 0 while the sampler is off, and otherwise to the sampler,
      which hands its sample on when that fills it. */
  ghost predicate Added(k: nat, v: View, value: int, w: View) {
    v.levels != [] &&
    if v.sampler.None? then Settled(k, AfterPlace(v, 0, value, false), w)
    else exists take ::
      var a := AfterAbsorb(v, value, 1, take);
      if a.sampler.value.itemWeight < a.sampler.value.capacity then w == a else HandedOn(k, a, w)
  }

  /** Where the active levels start once a level is added to `n`. */
  function NextLowest(k: nat, n: nat, low: nat): nat
    requires low <= n
  {
    if TargetCapacity(k, n - low) == 0 then low + 1 else low
  }

  /** No active level but the topmost is full, `extra` items more on the lowest counted in. */
  ghost predicate TopOnly(k: nat, v: View, extra: nat) {
    forall i :: v.Lowest() <= i < |v.levels| - 1 ==>
      |v.levels[i]| + (if i == v.Lowest() then extra else 0) < TargetCapacity(k, |v.levels| - 1 - i)
  }

  /** One item more on the lowest active level makes the topmost level, and no other, be compacted. */
  ghost predicate Grows(k: nat, v: View) { v.numItems + 1 >= v.overallCapacity && TopOnly(k, v, 1) }

  lemma {:induction false} FullMayCompact(k: nat, v: View, h: nat)
    requires ShapeBut(k, v, -1) && v.numItems >= v.overallCapacity && IsFull(k, v.levels, h)
    ensures MayCompact(k, v, h)
    ensures ShapeBut(k, v, h) && v.Lowest() <= h + 1
  {
    hide TargetCapacity, Replay, Wide, Warrants, NumItems, CapacitySum, Tied;
  }

  lemma {:induction false} HalveOnly(v: View, h: nat, coin: bool)
    requires h + 1 < |v.levels| && Tied(v)
    ensures Tied(AfterHalve(v, h, coin)) && Compacted(v, AfterHalve(v, h, coin))
  {
    HalveKeeps(v, h, coin);
  }

  lemma {:induction false} GrewOnly(k: nat, forItem: bool, v: View, w: View)
    requires Tied(v) && v.Lowest() <= |v.levels| && Grew(k, forItem, v, w)
    ensures Tied(w) && v.trace <= w.trace && SamplerGrew(v.sampler, w.sampler) && Handed(w) == Handed(v)
    ensures Compacted(AfterGrow(v, v.overallCapacity + TargetCapacity(k, |v.levels| - v.Lowest()), forItem), w)
    ensures !forItem ==> Compacted(v, w)
    ensures forItem ==> Worked(v, w, [NewLevel(true)]) && Did(v, w, [], [])
  {
    hide TargetCapacity, Replay, Compacted, Worked, Did, Halved, Wide, Warrants;
    var cap := TargetCapacity(k, |v.levels| - v.Lowest());
    var g := AfterGrow(v, v.overallCapacity + cap, forItem);
    GrowKeeps(k, v, v.overallCapacity + cap, forItem);
    GrowActs(v, g, forItem);
    if cap > 0 {
      CompactedRefl(g);
    } else {
      var coin :| w == AfterHalve(AfterDouble(g), v.Lowest(), coin);
      DoubleOnly(g);
      HalveOnly(AfterDouble(g), v.Lowest(), coin);
      CompactedSteps(g, AfterDouble(g), w);
    }
    CompactedSample(g, w);
    if forItem {
      WorkedOnly(v, g, w, [NewLevel(true)]);
      CompactedMoves(g, w, 0, false);
      DidOnly(v, g, w, [], []);
    } else {
      CompactedSteps(v, g, w);
    }
  }

  lemma {:induction false} DoubleOnly(v: View)
    requires Tied(v)
    ensures Tied(AfterDouble(v)) && Compacted(v, AfterDouble(v))
  {
    hide Replay;
    ActionTied(v, Doubling, AfterDouble(v));
  }

  lemma {:induction false} GrowActs(v: View, g: View, forItem: bool)
    requires v.trace <= g.trace && Since(v, g) == [NewLevel(forItem)]
    requires g.sampler == v.sampler && Handed(g) == Handed(v)
    ensures !forItem ==> Compacted(v, g)
    ensures forItem ==> Worked(v, g, [NewLevel(true)])
    ensures Did(v, g, [], [])
  {
    SingleTaken(NewLevel(forItem));
    assert [NewLevel(forItem)][..0] == [];
  }

  /** Compacting a level is a compaction. */
  lemma {:induction false} LevelCompactedOnly(k: nat, v: View, level: nat, w: View)
    requires Tied(v) && v.Lowest() <= |v.levels| && LevelCompacted(k, v, level, w)
    ensures Compacted(v, w)
  {
    hide TargetCapacity, Replay, Compacted, Halved, Grew;
    if level < |v.levels| - 1 {
      var coin :| w == AfterHalve(v, level, coin);
      HalveOnly(v, level, coin);
    } else {
      var g, coin :| Grew(k, false, v, g) && level + 1 < |g.levels| && w == AfterHalve(g, level, coin);
      GrewOnly(k, false, v, g);
      HalveOnly(g, level, coin);
      CompactedSteps(v, g, w);
    }
  }

  lemma {:induction false} SettledMeans(k: nat, v: View, w: View)
    requires v.Lowest() <= |v.levels| && Settled(k, v, w)
    ensures v.numItems < v.overallCapacity ==> w == v
    ensures v.numItems >= v.overallCapacity ==>
              exists h :: FirstFull(k, v, h) && |w.levels| == |v.levels| + if h == |v.levels| - 1 then 1 else 0
  {
    hide TargetCapacity, Grew, FirstFull;
    if v.numItems >= v.overallCapacity {
      var h: nat :| FirstFull(k, v, h) && LevelCompacted(k, v, h, w);
      if h == |v.levels| - 1 {
        var g, coin :| Grew(k, false, v, g) && h + 1 < |g.levels| && w == AfterHalve(g, h, coin);
        GrewEnds(k, v, g);
      }
      assert FirstFull(k, v, h) && |w.levels| == |v.levels| + if h == |v.levels| - 1 then 1 else 0;
    }
  }

  /** Up to the first full level nothing is to be compacted, and there something is. */
  lemma {:induction false} FirstFullMeans(k: nat, v: View, full: nat, i: nat)
    requires ShapeBut(k, v, -1) && FirstFull(k, v, full) && i <= full
    ensures full < |v.levels| && (IsFull(k, v.levels, i) <==> i == full)
  {
    hide TargetCapacity, NumItems, CapacitySum, Replay, Wide, Warrants, Tied;
    ActivePrefix(k, |v.levels| - 1 - full, |v.levels| - 1 - v.Lowest());
  }

  /** A full level holds at least three items. */
  lemma {:induction false} FullHolds(k: nat, v: View, i: nat)
    requires ShapeBut(k, v, -1) && IsFull(k, v.levels, i)
    ensures |v.levels[i]| >= 3
  {
    hide TargetCapacity, NumItems, CapacitySum, Replay, Wide, Warrants, Tied;
    ActivePrefix(k, |v.levels| - 1 - i, |v.levels| - 1 - v.Lowest());
  }

  lemma ShapeIsTied(k: nat, v: View)
    requires ShapeBut(k, v, -1)
    ensures Tied(v) && v.Lowest() <= |v.levels|
  {
  }

  lemma {:induction false} TopTarget(k: nat)
    requires k >= 3
    ensures TargetCapacity(k, 0) == k
  {
    TopCapacity(k);
  }

  lemma {:induction false} CapacityKept(k: nat, v: View, w: View)
    requires ShapeBut(k, v, -1) && ShapeBut(k, w, -1) && |v.levels| > 0
    requires || (|w.levels| == |v.levels| && w.Lowest() == v.Lowest())
             || (|w.levels| == |v.levels| + 1 && w.Lowest() == NextLowest(k, |v.levels|, v.Lowest()))
    ensures w.overallCapacity >= v.overallCapacity
  {
    hide TargetCapacity, Replay, Wide, Warrants, NumItems, Tied;
  }

  lemma {:induction false} PlacedTopOnly(k: nat, v: View, value: int, sampled: bool)
    requires v.Lowest() < |v.levels|
    ensures TopOnly(k, AfterPlace(v, v.Lowest(), value, sampled), 0) <==> TopOnly(k, v, 1)
  {
    hide TargetCapacity;
    var w := AfterPlace(v, v.Lowest(), value, sampled);
    forall i | v.Lowest() <= i < |v.levels| - 1
      ensures |w.levels[i]| == |v.levels[i]| + if i == v.Lowest() then 1 else 0
    {
    }
  }

  /** With the sampler on, a new level always passes the lowest one to it. */
  lemma {:induction false} SamplerOnGrows(k: nat, v: View)
    requires ShapeBut(k, v, -1) && v.sampler.Some? && |v.levels| > 0
    ensures v.Lowest() < |v.levels| && NextLowest(k, |v.levels|, v.Lowest()) == v.Lowest() + 1
  {
    hide TargetCapacity, Replay, Wide, Warrants, NumItems, CapacitySum, Tied;
  }

  class CompactorStack {
    const k: nat
    var compactors: seq<seq<int>>
    var overallCapacity: int
    var numItems: int
    var sampler: Option<Sampler>
    ghost var trace: seq<Action>

    ghost function Snapshot(): View
      reads this
    {
      View(compactors, sampler, overallCapacity, numItems, trace)
    }

    function LowestActiveLevel(): nat
      reads this`sampler
    {
      if sampler.Some? then sampler.value.numReplacedLevels else 0
    }

    function TargetCapacityAtLevel(h: nat): nat
      reads this`compactors
      requires h < |compactors|
    {
      TargetCapacity(k, |compactors| - 1 - h)
    }

    ghost predicate Shape()
      reads this
    {
      ShapeBut(k, Snapshot(), -1)
    }

    /** What holds between public calls. */
    ghost predicate Valid()
      reads this
    {
      && Shape() && SamplerBelow(Snapshot()) && Handed(Snapshot()) == []
      && |compactors| > 0 && numItems < overallCapacity
    }

    constructor (k: nat)
      requires k >= 3
      ensures Valid() && this.k == k
      ensures Snapshot() == View([[]], None, k, 0, [NewLevel(false)])
    {
      this.k := k;
      compactors, overallCapacity, numItems, sampler := [], 0, 0, None;
      trace := [];
      new;
      AddLevel(false);
      FirstLevel(k, View([], None, 0, 0, []), Snapshot());
    }

    method Reset()
      requires k >= 3
      modifies this
      ensures Valid()
      ensures Snapshot() == View([[]], None, k, 0, [NewLevel(false)])
    {
      overallCapacity, compactors, numItems, sampler := 0, [], 0, None;
      trace := [];
      AddLevel(false);
      FirstLevel(k, View([], None, 0, 0, []), Snapshot());
    }

    /** Adds a level on top; the lowest active level may pass to the sampler. */
    method AddLevel(ghost forItem: bool)
      requires Shape() && MayGrow(k, Snapshot(), forItem)
      modifies `compactors, `overallCapacity, `numItems, `sampler, `trace
      ensures Shape() && |compactors| == old(|compactors|) + 1
      ensures Grew(k, forItem, old(Snapshot()), Snapshot())
      ensures LowestActiveLevel() == NextLowest(k, old(|compactors|), old(LowestActiveLevel()))
      decreases 2
    {
      hide Compacted, NumItems, Replay, Wide, Warrants, Halved, SamplerFits, ActiveLevels, CapacitySum, TargetCapacity,
           MayGrow, Tied;
      ghost var before := Snapshot();
      GrowShape(k, before, forItem);
      compactors := compactors + [[]];
      trace := trace + [NewLevel(forItem)];
      var cap := TargetCapacityAtLevel(LowestActiveLevel());
      overallCapacity := overallCapacity + cap;
      if cap == 0 {
        ghost var coin := DoubleSamplerCapacity();
        HalvedOthers(before.levels + [[]], before.Lowest(), coin);
        assert Snapshot() == AfterHalve(AfterDouble(AfterGrow(before, before.overallCapacity + cap, forItem)),
                                        before.Lowest(), coin);
      }
    }

    /** The lowest active level passes to the sampler, and its items one level up. */
    method DoubleSamplerCapacity() returns (ghost coin: bool)
      requires ReadyToDouble(k, Snapshot())
      modifies `compactors, `numItems, `sampler, `trace, `overallCapacity
      ensures Shape() && sampler == Doubled(old(sampler))
      ensures Snapshot() == AfterHalve(AfterDouble(old(Snapshot())), old(LowestActiveLevel()), coin)
      ensures numItems <= old(numItems) - |old(compactors)[old(LowestActiveLevel())]| / 2
      decreases 1
    {
      hide Compacted, NumItems, Halved, TargetCapacity, Replay, Wide, Warrants;
      var prev := LowestActiveLevel();
      ghost var before := Snapshot();
      DoubleKeeps(k, before);
      if sampler.Some? {
        sampler := Some(sampler.value.(capacity := sampler.value.capacity * 2,
                                       numReplacedLevels := sampler.value.numReplacedLevels + 1));
      } else {
        sampler := Some(Sampler(0, 0, 2, 1));
      }
      trace := trace + [Doubling];
      ghost var doubled := Snapshot();
      CompactLevel(prev);
      coin :| Snapshot() == AfterHalve(doubled, prev, coin);
    }

    /** Halves one level into the next, adding a level first if it is the topmost. */
    method CompactLevel(level: nat)
      requires level < |compactors| && LowestActiveLevel() <= level + 1
      requires ShapeBut(k, Snapshot(), level) && MayCompact(k, Snapshot(), level)
      modifies `compactors, `overallCapacity, `numItems, `sampler, `trace
      ensures Shape() && LevelCompacted(k, old(Snapshot()), level, Snapshot())
      ensures level == old(|compactors|) - 1 ==>
        && |compactors| == old(|compactors|) + 1
        && LowestActiveLevel() == NextLowest(k, old(|compactors|), old(LowestActiveLevel()))
      ensures level < old(|compactors|) - 1 ==> |compactors| == old(|compactors|) && sampler == old(sampler)
      ensures numItems <= old(numItems) - old(|compactors[level]|) / 2
      decreases if level == |compactors| - 1 then 3 else 0
    {
      hide Compacted, NumItems, TargetCapacity, CapacitySum, Replay, Wide, Warrants, Grew, Warranted, MayCompact,
           Crowded;
      ghost var first := Snapshot();
      MayCompactMeans(k, first, level);
      if level == |compactors| - 1 {
        AddLevel(false);
        GrewEnds(k, first, Snapshot());
        GrewMeans(k, false, first, Snapshot());
        TargetShrinks(k, 0);
      }
      ghost var before := Snapshot();
      CompactWarranted(k, first, before, level);
      ghost var keepEven := Halve(level);
      HalveShape(k, before, level, keepEven);
      if level < |first.levels| - 1 {
        assert Snapshot() == AfterHalve(first, level, keepEven);
      } else {
        assert Grew(k, false, first, before) && Snapshot() == AfterHalve(before, level, keepEven);
      }
    }

    /** Moves every second item of the sorted level one level up, by a coin flip. */
    method Halve(level: nat) returns (ghost keepEven: bool)
      requires level + 1 < |compactors|
      modifies `compactors, `numItems, `trace
      ensures Snapshot() == AfterHalve(old(Snapshot()), level, keepEven)
    {
      var down := Sort(compactors[level]);
      var coin := UnbiasedUniform(2);
      var even := coin == 0;
      keepEven := even;
      var kept := EverySecond(down, even);
      SortSorts(compactors[level]);
      numItems := numItems - if even then |down| / 2 else (|down| + 1) / 2;
      trace := trace + [Halving(level, even)];
      compactors := compactors[level + 1 := compactors[level + 1] + kept][level := []];
    }

    /** Compacts a full level of a crowded stack. */
    method CompactFull(level: nat)
      requires Shape() && numItems >= overallCapacity && IsFull(k, compactors, level)
      modifies `compactors, `overallCapacity, `numItems, `sampler, `trace
      ensures Shape() && LevelCompacted(k, old(Snapshot()), level, Snapshot())
      ensures Compacted(old(Snapshot()), Snapshot())
      ensures numItems < old(numItems) && overallCapacity >= old(overallCapacity)
      ensures |compactors| == old(|compactors|) + if level == old(|compactors|) - 1 then 1 else 0
      ensures LowestActiveLevel() == if level == old(|compactors|) - 1
                then NextLowest(k, old(|compactors|), old(LowestActiveLevel())) else old(LowestActiveLevel())
    {
      hide Compacted, NumItems, TargetCapacity, CapacitySum, Halved, Replay, Wide, Warrants, LevelCompacted, MayCompact,
           ActiveLevels, SamplerFits, Tied;
      ghost var before := Snapshot();
      FullHolds(k, before, level);
      FullMayCompact(k, before, level);
      CompactLevel(level);
      ShapeIsTied(k, before);
      LevelCompactedOnly(k, before, level, Snapshot());
      CapacityKept(k, before, Snapshot());
    }

    /** One pass from the bottom level to the top over a crowded stack. Given the first full level,
        the pass reaches it and so removes items; if the capacity was just reached, nothing else
        happens. It stops short of the top only when the stack is below its capacity. */
    method CompactPass(ghost full: nat)
      requires Shape() && FirstFull(k, Snapshot(), full) && numItems >= overallCapacity
      modifies `compactors, `overallCapacity, `numItems, `sampler, `trace
      ensures Shape() && |compactors| > 0 && numItems < old(numItems)
      ensures Compacted(old(Snapshot()), Snapshot())
      ensures LowestActiveLevel() >= old(LowestActiveLevel())
      ensures numItems < overallCapacity || |compactors[|compactors| - 1]| < k
      ensures old(numItems) == old(overallCapacity) ==>
                && numItems < overallCapacity && LevelCompacted(k, old(Snapshot()), full, Snapshot())
                && LowestActiveLevel() == if full == old(|compactors|) - 1
                     then NextLowest(k, old(|compactors|), old(LowestActiveLevel())) else old(LowestActiveLevel())
    {
      hide Compacted, NumItems, TargetCapacity, CapacitySum, Halved, Replay, Wide, Warrants, LevelCompacted, MayCompact,
           FirstFull, ActiveLevels, SamplerFits, Tied;
      ghost var first := Snapshot();
      CompactedRefl(first);
      TopTarget(k);
      FirstFullMeans(k, first, full, 0);
      var i := 0;
      while i < |compactors|
        invariant Shape() && 0 <= i <= |compactors| && |compactors| > 0 && numItems >= overallCapacity
        invariant numItems < old(numItems) || (i <= full && Snapshot() == old(Snapshot()))
        invariant Compacted(first, Snapshot())
        invariant LowestActiveLevel() >= old(LowestActiveLevel())
        invariant i == |compactors| ==> |compactors[i - 1]| < TargetCapacity(k, 0)
        invariant old(numItems) == old(overallCapacity) ==> i <= full && Snapshot() == first
        decreases numItems, |compactors| - i
      {
        if Snapshot() == first { FirstFullMeans(k, first, full, i); }
        if compactors[i] != [] && |compactors[i]| >= TargetCapacityAtLevel(i) {
          ghost var before := Snapshot();
          CompactFull(i);
          CompactedSteps(first, before, Snapshot());
          if numItems < overallCapacity {
            break;
          }
        }
        i := i + 1;
      }
    }

    /** Compacts full levels until the stack is below its overall capacity. The
        branch in which a pass removed nothing is dead. */
    method CompactStack()
      requires Shape() && |compactors| > 0
      modifies `compactors, `overallCapacity, `numItems, `sampler, `trace
      ensures Shape() && |compactors| > 0 && numItems < overallCapacity
      ensures Compacted(old(Snapshot()), Snapshot())
      ensures LowestActiveLevel() >= old(LowestActiveLevel())
      ensures old(numItems) < old(overallCapacity) ==> Snapshot() == old(Snapshot())
      ensures old(numItems) <= old(overallCapacity) ==> Settled(k, old(Snapshot()), Snapshot())
      ensures old(numItems) == old(overallCapacity) ==>
                LowestActiveLevel() == if old(TopOnly(k, Snapshot(), 0))
                  then NextLowest(k, old(|compactors|), old(LowestActiveLevel())) else old(LowestActiveLevel())
    {
      hide Compacted, TargetCapacity, CapacitySum, Replay, Wide, Warrants, LevelCompacted;
      ghost var first := Snapshot();
      CompactedRefl(first);
      var initial := numItems;
      while numItems >= overallCapacity
        invariant Shape() && |compactors| > 0 && initial == numItems
        invariant Compacted(first, Snapshot())
        invariant LowestActiveLevel() >= old(LowestActiveLevel())
        invariant old(numItems) < old(overallCapacity) ==> Snapshot() == first
        invariant old(numItems) == old(overallCapacity) && Snapshot() != first ==>
                    && numItems < overallCapacity && Settled(k, first, Snapshot())
                    && LowestActiveLevel() == if TopOnly(k, first, 0)
                         then NextLowest(k, |first.levels|, first.Lowest()) else first.Lowest()
        decreases numItems
      {
        ghost var before := Snapshot();
        ghost var full := FullLevel(k, compactors, LowestActiveLevel());
        CompactPass(full);
        CompactedSteps(first, before, Snapshot());
        if numItems >= initial {
          assert false;  // the "Detected infinite loop" abort
        }
        initial := numItems;
      }
    }

    /** Takes in the value once and drops nothing. While the sampler is off the value goes on level
        0, and as long as that leaves the stack below its capacity nothing else happens; when the
        capacity is just reached the first full level is compacted, and a level is added exactly
        if that is the topmost. While the sampler is on it takes the value in, and hands its sample
        on in the same way once it is full. */
    method Add(value: int)
      requires Valid()
      modifies this
      ensures Valid() && Did(old(Snapshot()), Snapshot(), [Weighted(value, 1)], [])
      ensures Added(k, old(Snapshot()), value, Snapshot())
      ensures old(sampler).None? && old(numItems) + 1 < old(overallCapacity) ==>
                && compactors == old(compactors)[0 := old(compactors)[0] + [value]]
                && sampler.None? && overallCapacity == old(overallCapacity)
      ensures old(sampler).None? && old(numItems) + 1 >= old(overallCapacity) ==>
                exists h :: FirstFull(k, AfterPlace(old(Snapshot()), 0, value, false), h)
                            && |compactors| == old(|compactors|) + if h == old(|compactors|) - 1 then 1 else 0
      ensures old(sampler).Some? && old(sampler).value.itemWeight + 1 < old(sampler).value.capacity ==>
                && compactors == old(compactors) && overallCapacity == old(overallCapacity) && sampler.Some?
                && sampler.value.itemWeight == old(sampler).value.itemWeight + 1
                && sampler.value.capacity == old(sampler).value.capacity
                && sampler.value.sampledItem in {value, old(sampler).value.sampledItem}
    {
      hide Compacted, Moved, Did, NumItems, CapacitySum, ActiveLevels, Replay, Wide, Warrants, Handed, Settled,
           HandedOn, TargetCapacity;
      assert Scale(0, 1) == 1;
      ghost var first := Snapshot();
      if sampler.None? {
        PlaceKeeps(k, first, 0, value, false);
        compactors := Push(compactors, 0, value);
        numItems := numItems + 1;
        trace := trace + [Place(0, value, false)];
        ghost var pushed := Snapshot();
        SameHanded(first, pushed, value, 1);
        CompactStack();
        SettledMeans(k, pushed, Snapshot());
        CompactedSample(pushed, Snapshot());
        GrewBelow(pushed, Snapshot());
        CompactedMoves(pushed, Snapshot(), value, false);
        DidOnly(first, pushed, Snapshot(), [Weighted(value, 1)], []);
      } else {
        SamplerAdd(value);
      }
    }

    /** Adds `value` with multiplicity `weight`; does nothing if it is not positive. `mid` is
        the state in which the sampler's capacity is read again; the weight between the two
        remainders is `lost`. */
    method AddWithWeight(value: int, weight: int, ghost sampled: bool) returns (ghost mid: View, ghost lost: int)
      requires Shape() && |compactors| > 0 && Handed(Snapshot()) == [] && numItems < overallCapacity
      requires sampled ==>
                 IsSample(Snapshot(), value) && weight == sampler.value.itemWeight == sampler.value.capacity
      requires !sampled ==> SamplerBelow(Snapshot())
      modifies this
      ensures Shape() && |compactors| > 0 && numItems < overallCapacity
      ensures weight <= 0 ==> Snapshot() == old(Snapshot()) && lost == 0
      ensures weight > 0 ==> Rereads(old(Snapshot()), mid, value, weight, lost)
      ensures weight > 0 && sampled ==>
                && old(LowestActiveLevel()) < old(|compactors|)
                && Moved(old(Snapshot()), Snapshot(), value, weight, true) && lost == 0
                && SamplerGrew(old(sampler), sampler)
                && Settled(k, AfterPlace(old(Snapshot()), old(LowestActiveLevel()), value, true), Snapshot())
                && LowestActiveLevel() == old(LowestActiveLevel()) + if old(Grows(k, Snapshot())) then 1 else 0
      ensures weight > 0 && !sampled ==>
                && TookIn(old(Snapshot()), mid, Snapshot(), value, weight, lost)
                && SamplerBelow(Snapshot()) && Handed(Snapshot()) == []
      ensures weight > 0 ==> lost == Loss(k, old(Snapshot()), weight)
      decreases if sampler.Some? && weight > 0 then Rem(weight, sampler.value.capacity) else 0, 3
    {
      hide Moved, TookIn, Worked, BitPlaces, Quot, Rereads, Loss, Grows, NumItems, CapacitySum, ActiveLevels,
           TargetCapacity, Replay, Wide, Warrants, Handed, Scale, Settled;
      mid, lost := Snapshot(), 0;
      if weight > 0 {
        ghost var first := Snapshot();
        if sampler.Some? { SamplerOnGrows(k, first); }
        var remaining, level;
        remaining, level, mid, lost := FeedSampler(value, weight);
        ghost var fed := Snapshot();
        PlaceAndCompact(value, remaining, level, sampled);
        if !sampled {
          SameHanded(fed, Snapshot(), value, Scale(level, remaining));
          TakesAll(first, mid, fed, Snapshot(), value, weight - lost - Scale(level, remaining), lost,
                   Scale(level, remaining));
        }
      }
    }

    /** The remainder by its capacity goes to the sampler, if there is one; what remains, by
        the capacity as it is then, is for the stack from `level` on. */
    method FeedSampler(value: int, weight: nat) returns (remaining: nat, level: nat, ghost mid: View, ghost lost: int)
      requires Shape() && |compactors| > 0 && weight > 0 && Handed(Snapshot()) == [] && numItems < overallCapacity
      requires sampler.Some? && Rem(weight, sampler.value.capacity) != 0 ==> SamplerBelow(Snapshot())
      modifies this
      ensures Shape() && level == LowestActiveLevel() < |compactors| && Handed(Snapshot()) == []
      ensures numItems < overallCapacity
      ensures old(SamplerBelow(Snapshot())) ==> SamplerBelow(Snapshot())
      ensures Rereads(old(Snapshot()), mid, value, weight, lost) && lost >= 0
      ensures Snapshot() == if lost == 0 then mid else AfterDrop(mid, value, lost)
      ensures Moved(old(Snapshot()), mid, value, weight - lost - Scale(level, remaining), false)
      ensures remaining == Quot(weight, Unit(level)) && level == mid.Lowest() && SamplerFits(mid.sampler)
      ensures lost == Loss(k, old(Snapshot()), weight)
      ensures old(sampler).Some? && weight == old(sampler).value.capacity ==>
                mid == old(Snapshot()) && lost == 0 && remaining == 1 && Scale(level, 1) == weight
      decreases if sampler.Some? then Rem(weight, sampler.value.capacity) else 0, 2
    {
      hide Moved, NumItems, CapacitySum, TargetCapacity, Replay, Wide, Warrants, Handed, Scale, Rem, Quot, Grows;
      ghost var first := Snapshot();
      mid, lost, remaining, level := first, 0, weight, 0;
      if sampler.Some? {
        WholeCapacity(sampler.value.capacity);
        SamplerAddWithWeight(value, Rem(remaining, sampler.value.capacity));
        mid := Snapshot();
        remaining := Quot(remaining, sampler.value.capacity);
        level := sampler.value.numReplacedLevels;
        lost := NoteDropped(first, value, weight);
        LossIs(k, first, mid, weight, lost);
      } else {
        MovedRefl(first, value, false);
        ScaleBase(weight);
        WholeUnit(weight);
      }
    }

    method PlaceAndCompact(value: int, weight: nat, start: nat, ghost sampled: bool)
      requires Shape() && LowestActiveLevel() <= start < |compactors| && (sampled ==> IsSample(Snapshot(), value))
      modifies `compactors, `overallCapacity, `numItems, `sampler, `trace
      ensures Shape() && |compactors| > 0 && numItems < overallCapacity
      ensures old(SamplerBelow(Snapshot())) ==> SamplerBelow(Snapshot())
      ensures SamplerGrew(old(sampler), sampler)
      ensures Moved(old(Snapshot()), Snapshot(), value, Scale(start, weight), sampled)
      ensures Worked(old(Snapshot()), Snapshot(), BitPlaces(value, weight, start, sampled, old(|compactors|)))
      ensures weight == 1 && old(numItems) < old(overallCapacity) ==>
                Settled(k, AfterPlace(old(Snapshot()), start, value, sampled), Snapshot())
      ensures weight == 1 && start == old(LowestActiveLevel()) && old(numItems) < old(overallCapacity) ==>
                LowestActiveLevel() == if old(Grows(k, Snapshot()))
                  then NextLowest(k, old(|compactors|), start) else start
    {
      hide Compacted, Moved, Did, Worked, NumItems, CapacitySum, ActiveLevels, Replay, Wide, Warrants, Handed, Scale,
           TargetCapacity, BitPlaces, Settled;
      ghost var first := Snapshot();
      AddBits(value, weight, start, sampled);
      ghost var placed := Snapshot();
      if start == first.Lowest() { PlacedTopOnly(k, first, value, sampled); }
      CompactStack();
      WorkedOnly(first, placed, Snapshot(), BitPlaces(value, weight, start, sampled, |first.levels|));
      CompactedSample(placed, Snapshot());
      GrewBelow(first, Snapshot());
      CompactedMoves(placed, Snapshot(), value, sampled);
      MovedSteps(first, placed, Snapshot(), value, Scale(start, weight), 0, sampled);
    }

    /** The capacity is read again after the sampler ran, so weight between the two
        remainders is neither sampled nor placed; the trace takes note of it. */
    ghost method NoteDropped(first: View, value: int, weight: nat) returns (lost: int)
      requires Shape() && sampler.Some?
      requires first.sampler.Some? && SamplerFits(first.sampler)
      requires first.sampler.value.numReplacedLevels <= sampler.value.numReplacedLevels
      modifies `trace
      ensures Shape() && Handed(Snapshot()) == old(Handed(Snapshot()))
      ensures lost == Rem(weight, sampler.value.capacity) - Rem(weight, first.sampler.value.capacity) >= 0
      ensures weight == Rem(weight, first.sampler.value.capacity) + lost
                        + Scale(sampler.value.numReplacedLevels, Quot(weight, sampler.value.capacity))
      ensures weight < first.sampler.value.capacity ==> lost == 0
      ensures Snapshot() == if lost == 0 then old(Snapshot()) else AfterDrop(old(Snapshot()), value, lost)
    {
      hide NumItems, CapacitySum, ActiveLevels, Scale, Replay, Wide, Warrants, Handed, Rem, Quot;
      RemGrows(weight, first.sampler.value.numReplacedLevels, sampler.value.numReplacedLevels);
      lost := Rem(weight, sampler.value.capacity) - Rem(weight, first.sampler.value.capacity);
      if lost != 0 {
        DropKeeps(k, Snapshot(), value, lost);
        trace := trace + [Drop(value, lost)];
      }
    }

    /** The level for one bit, and an item on it if the bit is set. */
    method AddBit(value: int, bit: nat, level: nat, ghost sampled: bool)
      requires Shape() && LowestActiveLevel() <= level <= |compactors| && |compactors| > 0 && bit <= 1
      requires sampled ==> IsSample(Snapshot(), value)
      modifies `compactors, `overallCapacity, `numItems, `sampler, `trace
      ensures Shape() && LowestActiveLevel() <= level + 1 <= |compactors| && SamplerGrew(old(sampler), sampler)
      ensures |compactors| == if level < old(|compactors|) then old(|compactors|) else level + 1
      ensures Moved(old(Snapshot()), Snapshot(), value, Scale(level, bit), sampled)
      ensures Worked(old(Snapshot()), Snapshot(), BitPlace(value, bit, level, sampled, old(|compactors|)))
      ensures level < old(|compactors|) ==>
                Snapshot() == if bit == 1 then AfterPlace(old(Snapshot()), level, value, sampled) else old(Snapshot())
    {
      hide Compacted, Moved, Did, Worked, NumItems, CapacitySum, Replay, Wide, Warrants, Handed, Scale, TargetCapacity,
           Grew;
      ghost var first := Snapshot();
      ghost var deeds: seq<Action> := [];
      WorkedNone(first);
      MovedRefl(first, value, sampled);
      if level >= |compactors| {
        AddLevel(true);
        GrewOnly(k, true, first, Snapshot());
        DidMovesAny(first, Snapshot(), value, sampled);
        deeds := [NewLevel(true)];
      }
      ScaleAdd(level, 0, 0);
      if bit != 0 {
        ghost var before := Snapshot();
        PlaceKeeps(k, before, level, value, sampled);
        compactors := Push(compactors, level, value);
        numItems := numItems + 1;
        trace := trace + [Place(level, value, sampled)];
        MovedSteps(first, before, Snapshot(), value, 0, Scale(level, 1), sampled);
        WorkedOne(before, Snapshot(), Place(level, value, sampled));
        WorkedSteps(first, before, Snapshot(), deeds, [Place(level, value, sampled)]);
        deeds := deeds + [Place(level, value, sampled)];
      }
      assert deeds == BitPlace(value, bit, level, sampled, |first.levels|);
    }

    /** One item per set bit of `weight`, from level `start` upwards. */
    method AddBits(value: int, weight: nat, start: nat, ghost sampled: bool)
      requires Shape() && LowestActiveLevel() <= start < |compactors| && (sampled ==> IsSample(Snapshot(), value))
      modifies `compactors, `overallCapacity, `numItems, `sampler, `trace
      ensures Shape() && |compactors| > 0 && SamplerGrew(old(sampler), sampler)
      ensures Moved(old(Snapshot()), Snapshot(), value, Scale(start, weight), sampled)
      ensures Worked(old(Snapshot()), Snapshot(), BitPlaces(value, weight, start, sampled, old(|compactors|)))
      ensures weight == 1 ==> Snapshot() == AfterPlace(old(Snapshot()), start, value, sampled)
    {
      hide Compacted, Moved, Did, Worked, BitPlaces, NumItems, CapacitySum, Replay, Wide, Warrants, Handed, Scale,
           TargetCapacity;
      ghost var first, n := Snapshot(), |compactors|;
      ghost var deeds: seq<Action> := [];
      WorkedNone(first);
      ghost var all := BitPlaces(value, weight, start, sampled, n);
      assert deeds + all == all;
      MovedRefl(first, value, sampled);
      var remaining := weight;
      var level := start;
      while remaining != 0
        invariant Shape() && LowestActiveLevel() <= level <= |compactors| && |compactors| > 0
        invariant |compactors| == if level < n then n else level
        invariant SamplerGrew(old(sampler), sampler)
        invariant Moved(first, Snapshot(), value, Scale(start, weight) - Scale(level, remaining), sampled)
        invariant level >= start
        invariant Worked(first, Snapshot(), deeds)
        invariant deeds + BitPlaces(value, remaining, level, sampled, n) == all
        invariant level == start ==> remaining == weight && Snapshot() == first
        invariant weight == 1 && level != start ==>
                    remaining == 0 && Snapshot() == AfterPlace(first, start, value, sampled)
        decreases remaining
      {
        ghost var before := Snapshot();
        ghost var here := BitPlace(value, remaining % 2, level, sampled, n);
        assert here == BitPlace(value, remaining % 2, level, sampled, |compactors|);
        ScaleBit(level, remaining);
        MorePlaces(deeds, value, remaining, level, sampled, n, all);
        AddBit(value, remaining % 2, level, sampled);
        MovedSteps(first, before, Snapshot(), value, Scale(start, weight) - Scale(level, remaining),
                   Scale(level, remaining % 2), sampled);
        WorkedSteps(first, before, Snapshot(), deeds, here);
        deeds := deeds + here;
        remaining := remaining / 2;
        level := level + 1;
      }
      ScaleAdd(level, 0, 0);
      NoPlaces(deeds, value, level, sampled, n);
    }

    /** Reservoir sampling of one more item; a full sampler hands its sample over. */
    method SamplerAdd(item: int)
      requires Valid() && sampler.Some?
      modifies this
      ensures Valid() && sampler.Some? && Did(old(Snapshot()), Snapshot(), [Weighted(item, 1)], [])
      ensures exists take ::
                var a := AfterAbsorb(old(Snapshot()), item, 1, take);
                if a.sampler.value.itemWeight < a.sampler.value.capacity then Snapshot() == a
                else HandedOn(k, a, Snapshot())
    {
      hide Moved, Did, NumItems, CapacitySum, ActiveLevels, Replay, Wide, Warrants, Handed, Flushed, HandedOn;
      ghost var first := Snapshot();
      var r := UnbiasedUniform(sampler.value.itemWeight + 1);
      Absorb(item, 1, r == 0);
      if sampler.value.itemWeight >= sampler.value.capacity {
        ghost var full := Snapshot();
        AddSampleToCompactorStackAndRestart();
        DidOnly(first, full, Snapshot(), [Weighted(item, 1)], []);
      }
    }

    /** The sampler takes in `weight` copies of `item`, sampling it if `take`. */
    method Absorb(item: int, weight: nat, take: bool)
      requires Shape() && sampler.Some?
      requires sampler.value.itemWeight == 0 ==> take
      modifies `sampler, `trace
      ensures Shape() && Snapshot() == AfterAbsorb(old(Snapshot()), item, weight, take)
      ensures Moved(old(Snapshot()), Snapshot(), item, weight, false)
      ensures Did(old(Snapshot()), Snapshot(), [Weighted(item, weight)], [])
      ensures Handed(Snapshot()) == old(Handed(Snapshot()))
    {
      hide Moved, Did, NumItems, CapacitySum, ActiveLevels, Replay, Wide, Warrants, Handed;
      AbsorbKeeps(k, Snapshot(), item, weight, take);
      sampler := Some(sampler.value.(itemWeight := sampler.value.itemWeight + weight,
                        sampledItem := if take then item else sampler.value.sampledItem));
      trace := trace + [KllTrace.Absorb(item, weight, take)];
    }

    /** The sampler takes in the whole weight, over as many flushes as it takes. Its capacity
        is doubled exactly if it is flushed and the flushed item makes the topmost level be compacted. */
    method SamplerAddWithWeight(item: int, weight: int)
      requires Shape() && |compactors| > 0 && sampler.Some? && weight >= 0 && Handed(Snapshot()) == []
      requires numItems < overallCapacity
      requires weight > 0 ==> SamplerBelow(Snapshot())
      modifies this
      ensures Shape() && |compactors| > 0 && sampler.Some? && Handed(Snapshot()) == []
      ensures sampler.value.numReplacedLevels >= old(sampler).value.numReplacedLevels
      ensures old(SamplerBelow(Snapshot())) ==> SamplerBelow(Snapshot())
      ensures weight == 0 ==> Snapshot() == old(Snapshot())
      ensures numItems < overallCapacity
      ensures weight < old(sampler).value.capacity ==>
                LowestActiveLevel() == old(LowestActiveLevel()) + if old(Flushes(k, Snapshot(), weight)) then 1 else 0
      ensures Moved(old(Snapshot()), Snapshot(), item, weight, false)
      decreases weight, 1
    {
      hide Moved, Did, NumItems, CapacitySum, ActiveLevels, Replay, Wide, Warrants, Handed, Flushed, TargetCapacity,
           TopOnly, HandedOn;
      ghost var first := Snapshot();
      MovedRefl(first, item, false);
      if weight > 0 {
        if sampler.value.itemWeight + weight < sampler.value.capacity {
          var r := UnbiasedUniform(sampler.value.itemWeight + weight);
          Absorb(item, weight, r < weight);
        } else {
          var added := sampler.value.capacity - sampler.value.itemWeight;
          var r := UnbiasedUniform(sampler.value.capacity);
          Absorb(item, added, r < added);
          ghost var full := Snapshot();
          SameTopOnly(k, first, full);
          AddSampleToCompactorStackAndRestart();
          ghost var restarted := Snapshot();
          DidMoves(full, restarted, item);
          MovedSteps(first, full, restarted, item, added, 0, false);
          SamplerAddWithWeight(item, weight - added);
          MovedSteps(first, restarted, Snapshot(), item, added, weight - added, false);
        }
      }
    }

    /** The sample joins the stack with the whole weight absorbed so far, and the sampler
        starts anew. */
    method AddSampleToCompactorStackAndRestart()
      requires Shape() && |compactors| > 0 && sampler.Some? && Handed(Snapshot()) == []
      requires sampler.value.itemWeight == sampler.value.capacity && numItems < overallCapacity
      modifies this
      ensures Shape() && |compactors| > 0 && sampler.Some? && Handed(Snapshot()) == []
      ensures sampler.value.numReplacedLevels >= old(sampler).value.numReplacedLevels
      ensures numItems < overallCapacity && sampler.value.itemWeight == 0 && SamplerBelow(Snapshot())
      ensures Did(old(Snapshot()), Snapshot(), [], []) && Flushed(old(Snapshot()), Snapshot())
      ensures HandedOn(k, old(Snapshot()), Snapshot())
      ensures sampler.value.capacity >= old(sampler).value.capacity
      ensures LowestActiveLevel() == old(LowestActiveLevel()) + if old(Grows(k, Snapshot())) then 1 else 0
      decreases 0, 4
    {
      hide Moved, Did, NumItems, CapacitySum, ActiveLevels, Replay, Wide, Warrants, Handed, Rereads, TookIn, AllOf,
           Grows, Loss, TargetCapacity, Flushed, Settled;
      ghost var first := Snapshot();
      ScalePositive(sampler.value.numReplacedLevels, 1);
      ghost var mid, lost := AddWithWeight(sampler.value.sampledItem, sampler.value.itemWeight, true);
      ghost var handed := Snapshot();
      SampleHanded(first, handed, first.sampler.value.sampledItem, first.sampler.value.itemWeight);
      RestartKeeps(k, handed);
      sampler := Some(sampler.value.(itemWeight := 0, sampledItem := 0));
      trace := trace + [Restart];
      DidOnly(first, handed, Snapshot(), [], []);
      FlushedBy(first, handed, Snapshot());
      ScalePositive(sampler.value.numReplacedLevels, 1);
    }
  }

  lemma SameHanded(v: View, w: View, value: int, weight: int)
    requires Moved(v, w, value, weight, false)
    ensures Handed(w) == Handed(v)
  {
  }

  lemma SampleHanded(v: View, w: View, value: int, weight: int)
    requires Moved(v, w, value, weight, true) && Handed(v) == []
    ensures v.trace <= w.trace && Did(v, w, [], [])
    ensures AllOf(Handed(w), value, weight) && TrueRank(Handed(w), Top) == weight
  {
  }

  /** The last action is the restart, just before it exactly the sample with the sampler's
      whole weight has been handed over, and nothing was taken in or dropped. */
  ghost predicate Flushed(v: View, w: View) {
    && v.sampler.Some? && v.trace < w.trace && w.trace[|w.trace| - 1] == Restart
    && var t := Replay(w.trace[..|w.trace| - 1]);
       t.Some? && AllOf(t.value.handed, v.sampler.value.sampledItem, v.sampler.value.itemWeight)
  }

  lemma {:induction false} FlushedBy(v: View, handed: View, w: View)
    requires v.sampler.Some? && Tied(handed) && v.trace <= handed.trace && w.trace == handed.trace + [Restart]
    requires AllOf(Handed(handed), v.sampler.value.sampledItem, v.sampler.value.itemWeight)
    ensures Flushed(v, w)
  {
    assert w.trace[..|w.trace| - 1] == handed.trace;
  }

  /** Remainder and quotient of a weight by a capacity. */
  function Rem(w: int, c: nat): (r: nat)
    requires c > 0
    ensures r < c
  {
    w % c
  }

  function Quot(w: nat, c: nat): nat
    requires c > 0
  {
    w / c
  }

  lemma WholeCapacity(c: nat)
    requires c > 0
    ensures Quot(c, c) == 1 && Rem(c, c) == 0
  {
  }

  lemma {:induction false} WholeUnit(weight: nat)
    ensures Quot(weight, Unit(0)) == weight
  {
  }

  lemma {:induction false} RemGrows(weight: nat, low: nat, high: nat)
    requires low <= high
    ensures Rem(weight, Unit(high)) >= Rem(weight, Unit(low))
    ensures weight < Unit(low) ==> Rem(weight, Unit(high)) == Rem(weight, Unit(low))
    ensures weight == Scale(high, Quot(weight, Unit(high))) + Rem(weight, Unit(high))
  {
    SplitWeight(weight, low, high);
    SplitWeight(weight, low, low);
    WholeAndRest(weight, high);
  }

  /** The three parts of a weighted add: to the sampler, dropped, and to the stack. */
  lemma {:induction false} TakesAll(first: View, mid: View, taken: View, last: View, value: int, a: int, lost: int,
                                    b: int)
    requires Moved(first, mid, value, a, false) && Moved(taken, last, value, b, false)
    requires lost >= 0 && taken == (if lost == 0 then mid else AfterDrop(mid, value, lost))
    requires a + lost + b > 0 && SamplerFits(mid.sampler)
    requires Worked(taken, last,
                    BitPlaces(value, Quot(a + lost + b, Unit(mid.Lowest())), mid.Lowest(), false, |mid.levels|))
    ensures TookIn(first, mid, last, value, a + lost + b, lost)
  {
    hide AllOf, Taken, Drops, Handed, BitPlaces, Worked, Quot;
    var places := BitPlaces(value, Quot(a + lost + b, Unit(mid.Lowest())), mid.Lowest(), false, |mid.levels|);
    if lost > 0 {
      WorkedOne(mid, taken, Drop(value, lost));
    } else {
      WorkedNone(mid);
      assert [] + places == places;
    }
    WorkedSteps(mid, taken, last, if lost > 0 then [Drop(value, lost)] else [], places);
    SingleTaken(Drop(value, if lost > 0 then lost else 0));
    if lost > 0 {
      assert Since(mid, taken) == [Drop(value, lost)];
      AllOfOne(value, lost);
      SinceSteps(first, mid, taken);
      TakenConcat(Since(first, mid), Since(mid, taken));
      AllOfSum(Taken(Since(first, mid)), [Weighted(value, lost)], value, a, lost);
    }
    SinceSteps(first, taken, last);
    TakenConcat(Since(first, taken), Since(taken, last));
    AllOfSum(Taken(Since(first, taken)), Taken(Since(taken, last)), value, a + lost, b);
  }

  /** Between `v` and `mid` the sampler took in the remainder by its capacity; the weight is
      then divided by the capacity it has at `mid`. */
  ghost predicate Rereads(v: View, mid: View, value: int, weight: int, lost: int) {
    if v.sampler.None? then mid == v && lost == 0
    else
      && Tied(mid) && mid.sampler.Some? && SamplerFits(mid.sampler) && SamplerFits(v.sampler)
      && Moved(v, mid, value, Rem(weight, v.sampler.value.capacity), false)
      && lost == Rem(weight, mid.sampler.value.capacity) - Rem(weight, v.sampler.value.capacity) >= 0
  }

  /** All of the weight was taken in, `lost` of it only to be dropped, in one piece and right
      after `mid`; the rest went to the stack, one item for every bit of the quotient. */
  ghost predicate TookIn(v: View, mid: View, w: View, value: int, weight: int, lost: int) {
    && v.trace <= mid.trace && mid.trace <= w.trace && v.trace <= w.trace
    && AllOf(Taken(Since(v, w)), value, weight)
    && Drops(Since(v, w)) == (if lost > 0 then [Weighted(value, lost)] else [])
    && weight > 0 && SamplerFits(mid.sampler)
    && Worked(mid, w, (if lost > 0 then [Drop(value, lost)] else []) +
                      BitPlaces(value, Quot(weight, Unit(mid.Lowest())), mid.Lowest(), false, |mid.levels|))
  }

  /** The sampler is flushed, and the flushed item makes the topmost level be compacted. */
  ghost predicate Flushes(k: nat, v: View, weight: int) {
    && v.sampler.Some? && weight > 0 && v.sampler.value.itemWeight + weight >= v.sampler.value.capacity
    && Grows(k, v)
  }

  /** The weight that an add of `weight` drops: the sampler's capacity, if it is doubled on the way
      and goes an odd number of times into the weight, and otherwise nothing. */
  ghost function Loss(k: nat, v: View, weight: nat): nat {
    if v.sampler.Some? && v.sampler.value.capacity > 0
       && Flushes(k, v, Rem(weight, v.sampler.value.capacity)) && Quot(weight, v.sampler.value.capacity) % 2 == 1
    then v.sampler.value.capacity else 0
  }

  lemma {:induction false} LossIs(k: nat, v: View, mid: View, weight: nat, lost: int)
    requires v.sampler.Some? && mid.sampler.Some? && SamplerFits(v.sampler) && SamplerFits(mid.sampler)
    requires mid.Lowest() == v.Lowest() + if Flushes(k, v, Rem(weight, v.sampler.value.capacity)) then 1 else 0
    requires lost == Rem(weight, mid.sampler.value.capacity) - Rem(weight, v.sampler.value.capacity)
    ensures lost == Loss(k, v, weight)
  {
    hide Flushes;
    DoubledRemainder(weight, v.sampler.value.capacity);
  }

  /** Some weight loses something in a state if and only if the sampler holds something and one
      item more makes the topmost level be compacted. */
  lemma {:induction false} CanLoseIff(k: nat, v: View)
    requires SamplerFits(v.sampler)
    ensures (exists weight :: Loss(k, v, weight) > 0) <==>
            v.sampler.Some? && v.sampler.value.itemWeight >= 1 && Grows(k, v)
  {
    hide Grows;
    if v.sampler.Some? && v.sampler.value.itemWeight >= 1 && Grows(k, v) {
      var c := v.sampler.value.capacity;
      ScalePositive(v.sampler.value.numReplacedLevels - 1, 1);
      ModUnique(2 * c - 1, c, 1, c - 1);
      assert Loss(k, v, 2 * c - 1) == c;
    }
  }

  lemma {:induction false} SameTopOnly(k: nat, v: View, w: View)
    requires w.levels == v.levels && w.Lowest() == v.Lowest()
    ensures TopOnly(k, w, 1) <==> TopOnly(k, v, 1)
  {
  }

  ghost predicate RemainderGrows(weight: nat, c: nat, d: nat) {
    c > 0 && d > 0 && weight % d >= weight % c && (weight < c ==> weight % d == weight)
  }

  /** Remainders only grow when the divisor doubles. */
  lemma {:induction false} SplitWeight(weight: nat, low: nat, high: nat)
    requires low <= high
    ensures Scale(low, 1) > 0 && Scale(high, 1) > 0
    ensures RemainderGrows(weight, Scale(low, 1), Scale(high, 1))
    decreases high - low
  {
    hide RemainderGrows;
    ScalePositive(low, 1);
    ScalePositive(high, 1);
    if low < high {
      SplitWeight(weight, low, high - 1);
      SplitStep(weight, Scale(low, 1), Scale(high - 1, 1));
    } else {
      SplitBase(weight, Scale(low, 1));
    }
  }

  lemma {:induction false} SplitBase(weight: nat, c: nat)
    requires c > 0
    ensures RemainderGrows(weight, c, c)
  {
    if weight < c { ModUnique(weight, c, 0, weight); }
  }

  lemma {:induction false} SplitStep(weight: nat, c: nat, half: nat)
    requires RemainderGrows(weight, c, half)
    ensures RemainderGrows(weight, c, 2 * half)
  {
    DoubledRemainder(weight, half);
  }

  lemma {:induction false} WholeAndRest(weight: nat, h: nat)
    requires Scale(h, 1) > 0
    ensures weight == Scale(h, weight / Scale(h, 1)) + weight % Scale(h, 1)
  {
    hide Scale;
    ScaleTimes(h, weight / Scale(h, 1));
  }

  /** A capacity doubled by the nested flush drops one old capacity's worth of weight
      exactly when the quotient by the old capacity is odd. */
  lemma {:induction false} DoubledRemainder(weight: nat, cap: nat)
    requires cap > 0
    ensures weight % (2 * cap) - weight % cap == if (weight / cap) % 2 == 1 then cap else 0
    ensures weight < cap ==> weight % (2 * cap) == weight
  {
    var q, r := weight / cap, weight % cap;
    var t, bit := q / 2, q % 2;
    HalveQuotient(cap, q, t, bit);
    ModUnique(weight, 2 * cap, t, bit * cap + r);
  }

  lemma {:induction false} HalveQuotient(cap: nat, q: nat, t: nat, bit: nat)
    requires q == 2 * t + bit
    ensures q * cap == t * (2 * cap) + bit * cap
  {
    assert (2 * t + bit) * cap == (2 * t) * cap + bit * cap;
    assert (2 * t) * cap == t * (2 * cap);
  }
}
