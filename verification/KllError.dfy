/** How far a sketch can be off while its sampler is off, in terms of its height and the
    number of values alone. Items flow up the levels: what arrives on a level is what was
    placed there and what halvings raised to it, and every halving took a full level. */
module KllError {
  import opened Options
  import opened KllCapacity
  import opened KllLedger
  import opened KllTrace
  import opened KllStack

  // ---------- counting the flow ----------

  function IsHalvingAt(e: Entry, h: int): nat { if e.Compact? && e.level == h then 1 else 0 }

  /** How many items a halving moves up. */
  function KeptSize(e: Entry): nat
    requires e.Compact?
  {
    (|e.items| + if e.keepEven then 1 else 0) / 2
  }

  /** Halvings of level h. */
  function Halvings(log: seq<Entry>, h: int): nat {
    if log == [] then 0 else Halvings(log[..|log| - 1], h) + IsHalvingAt(log[|log| - 1], h)
  }

  /** Items that halvings took off level h. */
  function Lowered(log: seq<Entry>, h: int): nat {
    if log == [] then 0
    else Lowered(log[..|log| - 1], h) + if IsHalvingAt(log[|log| - 1], h) == 1 then |log[|log| - 1].items| else 0
  }

  /** Items that halvings of level h moved one level up. */
  function Raised(log: seq<Entry>, h: int): nat {
    if log == [] then 0
    else Raised(log[..|log| - 1], h) + if IsHalvingAt(log[|log| - 1], h) == 1 then KeptSize(log[|log| - 1]) else 0
  }

  /** Items placed on level h. */
  function Placed(t: seq<Action>, h: int): nat {
    if t == [] then 0 else Placed(t[..|t| - 1], h) + if t[|t| - 1].Place? && t[|t| - 1].level == h then 1 else 0
  }

  /** Everything that ever came to level h. */
  function Arrived(t: seq<Action>, log: seq<Entry>, h: nat): nat { Placed(t, h) + Raised(log, h - 1) }

  ghost predicate Flows(t: seq<Action>, s: Book, h: nat) {
    h < |s.levels| ==> Arrived(t, s.log, h) == Lowered(s.log, h) + |s.levels[h]|
  }

  /** Nothing has happened on levels that do not exist yet. */
  ghost predicate Untouched(t: seq<Action>, s: Book, h: nat) {
    h >= |s.levels| ==> Placed(t, h) == 0 && Raised(s.log, h - 1) == 0 && Lowered(s.log, h) == 0
  }

  lemma {:induction false} LogNext(log: seq<Entry>, e: Entry, h: int)
    ensures Lowered(log + [e], h) == Lowered(log, h) + if IsHalvingAt(e, h) == 1 then |e.items| else 0
    ensures Raised(log + [e], h) == Raised(log, h) + if IsHalvingAt(e, h) == 1 then KeptSize(e) else 0
  {
    assert (log + [e])[..|log|] == log;
  }

  lemma {:induction false} PlacedNext(t: seq<Action>, a: Action, h: int)
    ensures Placed(t + [a], h) == Placed(t, h) + if a.Place? && a.level == h then 1 else 0
  {
    assert (t + [a])[..|t|] == t;
  }

  lemma {:induction false} HalvedSizes(levels: seq<seq<int>>, h: nat, keepEven: bool, i: nat)
    requires h + 1 < |levels| && i < |levels|
    ensures |Halved(levels, h, keepEven)| == |levels|
    ensures |Halved(levels, h, keepEven)[i]| ==
            if i == h then 0 else |levels[i]| + if i == h + 1 then KeptSize(Compact(h, levels[h], keepEven)) else 0
  {
    SortSorts(levels[h]);
    KeepSize(Sort(levels[h]), keepEven);
  }

  lemma {:induction false} FlowNext(t: seq<Action>, s: Book, a: Action, h: nat)
    requires Allowed(s, a) && Flows(t, s, h) && Untouched(t, s, h)
    ensures Flows(t + [a], Apply(s, a), h) && Untouched(t + [a], Apply(s, a), h)
  {
    hide Lowered, Raised, Placed, KeptSize, Halved;
    PlacedNext(t, a, h);
    match a
    case Halving(l, keepEven) =>
      var e := Compact(l, s.levels[l], keepEven);
      LogNext(s.log, e, h);
      LogNext(s.log, e, h - 1);
      HalvedLength(s.levels, l, keepEven);
      if h < |s.levels| { HalvedSizes(s.levels, l, keepEven, h); }
    case Restart =>
      LogNext(s.log, Sample(s.absorbed, s.handed), h);
      LogNext(s.log, Sample(s.absorbed, s.handed), h - 1);
    case Drop(x, lost) =>
      LogNext(s.log, Lost(x, lost), h);
      LogNext(s.log, Lost(x, lost), h - 1);
    case _ =>
  }

  lemma HalvedLength(levels: seq<seq<int>>, h: nat, keepEven: bool)
    requires h + 1 < |levels|
    ensures |Halved(levels, h, keepEven)| == |levels|
  {
  }

  /** On every trace, what came to a level is what halvings took off it and what it holds. */
  lemma {:induction false} Flow(t: seq<Action>, h: nat)
    requires Replay(t).Some?
    ensures Flows(t, Replay(t).value, h) && Untouched(t, Replay(t).value, h)
  {
    hide Allowed, Apply, Flows, Untouched;
    if t == [] {
      FlowStart(h);
    } else {
      var u, a := t[..|t| - 1], t[|t| - 1];
      assert t == u + [a];
      Flow(u, h);
      FlowNext(u, Replay(u).value, a, h);
    }
  }

  lemma FlowStart(h: nat)
    ensures Flows([], Book([], None, [], [], []), h) && Untouched([], Book([], None, [], [], []), h)
  {
  }

  // ---------- what was placed weighs no more than what was taken in ----------

  /** The weight placed below level m. */
  function PlacedWeight(t: seq<Action>, m: nat): int {
    if m == 0 then 0 else PlacedWeight(t, m - 1) + Scale(m - 1, Placed(t, m - 1))
  }

  lemma {:induction false} PlacedWeightNext(t: seq<Action>, a: Action, m: nat)
    ensures PlacedWeight(t + [a], m) == PlacedWeight(t, m) + if a.Place? && a.level < m then Scale(a.level, 1) else 0
  {
    hide Placed, Scale;
    if m > 0 {
      PlacedWeightNext(t, a, m - 1);
      PlacedNext(t, a, m - 1);
      ScaleAdd(m - 1, Placed(t, m - 1), 1);
    }
  }

  lemma {:induction false} PlacedWeightNone(m: nat)
    ensures PlacedWeight([], m) == 0
  {
    if m > 0 {
      PlacedWeightNone(m - 1);
      ScaleAdd(m - 1, 0, 0);
    }
  }

  lemma {:induction false} PlacedIsTaken(t: seq<Action>, m: nat)
    requires Replay(t).Some? && Replay(t).value.sampler.None?
    ensures PlacedWeight(t, m) <= TrueRank(Taken(t), Top)
  {
    hide Taken, PlacedWeight, TrueRank, Scale;
    if t == [] {
      PlacedWeightNone(m);
    } else {
      var u, a := t[..|t| - 1], t[|t| - 1];
      assert t == u + [a];
      PlacedIsTaken(u, m);
      PlacedWeightNext(u, a, m);
      TakenNext(u, a, Top);
      if a.Place? { ScalePositive(a.level, 1); }
    }
  }

  // ---------- full halvings ----------

  ghost predicate AllFull(k: nat, n: nat, log: seq<Entry>) {
    forall i :: 0 <= i < |log| ==> FullHalving(k, n, log[i])
  }

  /** Full halvings took at least their capacity each, and moved up at most half of what they
      took and a half item each. */
  lemma {:induction false} FullFlow(k: nat, n: nat, log: seq<Entry>, h: nat)
    requires AllFull(k, n, log) && h < n
    ensures TargetCapacity(k, n - 1 - h) * Halvings(log, h) <= Lowered(log, h)
    ensures 2 * Raised(log, h) <= Lowered(log, h) + Halvings(log, h)
  {
    hide TargetCapacity;
    if log != [] {
      var init, e, c := log[..|log| - 1], log[|log| - 1], TargetCapacity(k, n - 1 - h);
      FullFlow(k, n, init, h);
      assert c * (Halvings(init, h) + 1) == c * Halvings(init, h) + c;
    }
  }

  /** The lowest of n levels has a capacity, and so all have. */
  ghost predicate AllActive(k: nat, n: nat) { n > 0 && TargetCapacity(k, n - 1) >= 3 }

  /** The capacity of level h at height n, when all levels are active. */
  ghost function Cap(k: nat, n: nat, h: nat): (c: nat)
    requires h < n && AllActive(k, n)
    ensures c >= 3
  {
    ActivePrefix(k, n - 1 - h, n - 1);
    TargetCapacity(k, n - 1 - h)
  }

  // ---------- the bound ----------

  /** The product of 1 + 1 / capacity over the levels below h. */
  ghost function Growth(k: nat, n: nat, h: nat): (g: real)
    requires h <= n && (h > 0 ==> AllActive(k, n))
    ensures g >= 1.0
  {
    if h == 0 then 1.0
    else
      var g, c := Growth(k, n, h - 1), Cap(k, n, h - 1);
      GrowsUp(g, c as real);
      Grown(g, c)
  }

  ghost function Grown(g: real, c: nat): real
    requires c > 0
  {
    g * (1.0 + 1.0 / (c as real))
  }

  ghost function Times(g: real, w: int): real { g * (w as real) }

  ghost function Share(g: real, w: int, c: nat): real
    requires c > 0
  {
    g * (w as real) * (1.0 / (c as real))
  }

  lemma {:induction false} GrowsUp(g: real, c: real)
    requires g >= 1.0 && c >= 3.0
    ensures g * (1.0 + 1.0 / c) >= g
  {
    var q := 1.0 / c;
    assert q >= 0.0;
    assert g * (1.0 + q) == g + g * q;
    assert g * q >= 0.0;
  }

  /** m of at most a / c, and a of at most g w: then m is at most g w / c. */
  lemma {:induction false} ShareOf(m: int, a: int, c: nat, g: real, w: int)
    requires c >= 3 && c * m <= a && a as real <= Times(g, w)
    ensures m as real <= Share(g, w, c)
    ensures (a + m) as real <= Times(Grown(g, c), w)
  {
    var q, cr, wr := 1.0 / (c as real), c as real, w as real;
    RealProduct(c, m, a);
    Inverse(cr, q, m as real);
    MulUp(q, cr * (m as real), g * wr);
    assert g * wr * q == q * (g * wr);
    Distribute(g, q, wr);
  }

  lemma {:induction false} Inverse(c: real, q: real, m: real)
    requires c >= 3.0 && q == 1.0 / c
    ensures q > 0.0 && q * (c * m) == m
  {
    assert q * c == 1.0;
    assert q * (c * m) == (q * c) * m;
  }

  lemma {:induction false} RealProduct(c: nat, m: int, a: int)
    requires c * m <= a
    ensures (c as real) * (m as real) <= a as real
  {
    assert (c as real) * (m as real) == (c * m) as real;
  }

  lemma {:induction false} MulUp(q: real, x: real, y: real)
    requires q >= 0.0 && x <= y
    ensures q * x <= q * y
  {
    assert q * (y - x) >= 0.0;
    assert q * (y - x) == q * y - q * x;
  }

  lemma {:induction false} Distribute(g: real, q: real, w: real)
    ensures g * (1.0 + q) * w == g * w + g * w * q
  {
    assert g * (1.0 + q) == g + g * q;
    assert (g + g * q) * w == g * w + (g * q) * w;
    assert (g * q) * w == g * w * q;
  }

  /** c halvings' worth of items, scaled to their weight. */
  lemma {:induction false} ScaledShare(h: nat, c: nat, m: nat, a: nat)
    requires c * m <= a
    ensures c * Scale(h, m) <= Scale(h, a)
  {
    if h > 0 { ScaledShare(h - 1, c, m, a); }
  }

  lemma {:induction false} ScaleMonotone(h: nat, m: int, n: int)
    requires m <= n
    ensures Scale(h, m) <= Scale(h, n)
  {
    if h > 0 { ScaleMonotone(h - 1, m, n); }
  }

  ghost predicate Upright(k: nat, t: seq<Action>) {
    && Replay(t).Some? && Replay(t).value.sampler.None?
    && AllFull(k, |Replay(t).value.levels|, Replay(t).value.log)
    && AllActive(k, |Replay(t).value.levels|)
  }

  ghost function Height(t: seq<Action>): nat
    requires Replay(t).Some?
  {
    |Replay(t).value.levels|
  }

  ghost function Log(t: seq<Action>): seq<Entry>
    requires Replay(t).Some?
  {
    Replay(t).value.log
  }

  /** What halvings of level h took off it came to it, so it carries at most a share. */
  lemma {:induction false} LevelShare(k: nat, t: seq<Action>, h: nat)
    requires Upright(k, t) && h < Height(t)
    ensures Cap(k, Height(t), h) * Scale(h, Halvings(Log(t), h)) <= Scale(h, Arrived(t, Log(t), h))
    ensures Scale(h, 2 * Raised(Log(t), h)) <= Scale(h, Arrived(t, Log(t), h)) + Scale(h, Halvings(Log(t), h))
  {
    hide Replay, Scale, Halvings, Lowered, Raised, Placed;
    var log, m, a := Log(t), Halvings(Log(t), h), Arrived(t, Log(t), h);
    FullFlow(k, Height(t), log, h);
    Flow(t, h);
    ScaledShare(h, Cap(k, Height(t), h), m, a);
    ScaleMonotone(h, 2 * Raised(log, h), a + m);
    ScaleAdd(h, a, m);
  }

  /** The weight that ever came to level h, against the weight placed up to it. */
  lemma {:induction false} ArrivalBound(k: nat, t: seq<Action>, h: nat)
    requires Upright(k, t) && h < Height(t)
    ensures Scale(h, Arrived(t, Log(t), h)) as real <= Times(Growth(k, Height(t), h), PlacedWeight(t, h + 1))
  {
    hide Replay, Scale, Halvings, Lowered, Raised, Placed, AllFull, TargetCapacity, AllActive, Cap, Times, Grown;
    var n, log := Height(t), Log(t);
    ScaleBase(Placed(t, 0));
    if h == 0 {
      NothingRaisedTo0(log);
      TimesUnit(PlacedWeight(t, 1));
    } else {
      ArrivalBound(k, t, h - 1);
      LevelShare(k, t, h - 1);
      var a, m := Scale(h - 1, Arrived(t, log, h - 1)), Scale(h - 1, Halvings(log, h - 1));
      var w, p := PlacedWeight(t, h), Scale(h, Placed(t, h));
      ScaleUp(h, Raised(log, h - 1));
      ScaleAdd(h, Placed(t, h), Raised(log, h - 1));
      ScaleMonotone(h, 0, Placed(t, h));
      ScaleAdd(h, 0, 0);
      ArrivalStep(Growth(k, n, h - 1), Cap(k, n, h - 1), a, m, w, p, Scale(h, Arrived(t, log, h)));
    }
  }

  lemma TimesUnit(w: int)
    ensures Times(1.0, w) == w as real && Times(1.0 - 1.0, w) == 0.0
  {
  }

  lemma {:induction false} ArrivalStep(g: real, c: nat, a: int, m: int, w: int, p: int, total: int)
    requires g >= 1.0 && c >= 3 && c * m <= a && p >= 0 && total <= p + a + m
    requires a as real <= Times(g, w)
    ensures total as real <= Times(Grown(g, c), w + p)
  {
    hide Times, Grown, Share;
    ShareOf(m, a, c, g, w);
    GrownUp(g, c);
    AtLeast(Grown(g, c), w, p);
    assert total as real <= (a + m) as real + p as real;
  }

  lemma {:induction false} GrownUp(g: real, c: nat)
    requires g >= 1.0 && c >= 3
    ensures Grown(g, c) >= 1.0
  {
    GrowsUp(g, c as real);
  }

  lemma {:induction false} AtLeast(g: real, w: int, p: int)
    requires g >= 1.0 && p >= 0
    ensures Times(g, w) + p as real <= Times(g, w + p)
  {
    var wr, pr := w as real, p as real;
    assert g * (wr + pr) == g * wr + g * pr;
    assert (g - 1.0) * pr >= 0.0;
    assert (g - 1.0) * pr == g * pr - pr;
  }

  lemma {:induction false} ScaleUp(h: nat, n: int)
    requires h > 0
    ensures Scale(h, n) == Scale(h - 1, 2 * n)
  {
    ScaleAdd(h - 1, n, n);
  }

  lemma {:induction false} NothingRaisedTo0(log: seq<Entry>)
    ensures Raised(log, -1) == 0
  {
    if log != [] { NothingRaisedTo0(log[..|log| - 1]); }
  }

  /** The sum of 2^level over the halvings of the levels below m. */
  ghost function HalvingWeight(log: seq<Entry>, m: nat): int {
    if m == 0 then 0 else HalvingWeight(log, m - 1) + Scale(m - 1, Halvings(log, m - 1))
  }

  /** The halvings weigh at most a share of what was taken in, and the shares telescope. */
  lemma {:induction false} HalvingBound(k: nat, t: seq<Action>, m: nat)
    requires Upright(k, t) && m < Height(t)
    ensures HalvingWeight(Log(t), m) as real <= Times(Growth(k, Height(t), m) - 1.0, TrueRank(Taken(t), Top))
  {
    hide Replay, Scale, Halvings, Lowered, Raised, Placed, AllFull, TargetCapacity, AllActive, Cap, Taken, TrueRank,
         PlacedWeight, Times, Grown;
    if m == 0 {
      TimesUnit(TrueRank(Taken(t), Top));
    } else {
      var h, n, log := m - 1, Height(t), Log(t);
      HalvingBound(k, t, h);
      ArrivalBound(k, t, h);
      LevelShare(k, t, h);
      UprightPlaced(k, t, h + 1);
      HalvingStep(Growth(k, n, h), Cap(k, n, h), Scale(h, Arrived(t, log, h)), Scale(h, Halvings(log, h)),
                  PlacedWeight(t, h + 1), TrueRank(Taken(t), Top), HalvingWeight(log, h));
    }
  }

  lemma {:induction false} HalvingStep(g: real, c: nat, a: int, m: int, w: int, n: int, before: int)
    requires g >= 1.0 && c >= 3 && c * m <= a && w <= n
    requires a as real <= Times(g, w) && before as real <= Times(g - 1.0, n)
    ensures (before + m) as real <= Times(Grown(g, c) - 1.0, n)
  {
    hide Times, Grown, Share;
    ShareOf(m, a, c, g, w);
    Telescope(g, c, w, n);
  }

  lemma {:induction false} UprightPlaced(k: nat, t: seq<Action>, m: nat)
    requires Upright(k, t)
    ensures PlacedWeight(t, m) <= TrueRank(Taken(t), Top)
  {
    PlacedIsTaken(t, m);
  }

  lemma {:induction false} Telescope(g: real, c: nat, w: int, n: int)
    requires g >= 1.0 && c >= 3 && w <= n
    ensures Times(g - 1.0, n) + Share(g, w, c) <= Times(Grown(g, c) - 1.0, n)
  {
    var q, wr, nr := 1.0 / (c as real), w as real, n as real;
    assert q > 0.0 && g * q >= 0.0;
    MulUp(g * q, wr, nr);
    assert g * wr * q == (g * q) * wr;
    assert g * (1.0 + q) == g + g * q;
    Distribute2(g - 1.0, g * q, nr);
  }

  lemma {:induction false} Distribute2(x: real, y: real, n: real)
    ensures (x + y) * n == x * n + y * n
  {
  }

  // ---------- the error of the log, level by level ----------

  lemma {:induction false} HalvingWeightNext(log: seq<Entry>, e: Entry, m: nat)
    requires e.Compact?
    ensures HalvingWeight(log + [e], m) == HalvingWeight(log, m) + if e.level < m then Scale(e.level, 1) else 0
  {
    hide Scale;
    if m > 0 {
      HalvingWeightNext(log, e, m - 1);
      assert (log + [e])[..|log|] == log;
      ScaleAdd(m - 1, Halvings(log, m - 1), 1);
    }
  }

  lemma {:induction false} HalvingWeightNone(m: nat)
    ensures HalvingWeight([], m) == 0
  {
    if m > 0 {
      HalvingWeightNone(m - 1);
      ScaleAdd(m - 1, 0, 0);
    }
  }

  lemma {:induction false} LogError(k: nat, n: nat, log: seq<Entry>)
    requires AllFull(k, n, log) && n > 0
    ensures ErrorBound(log) <= HalvingWeight(log, n - 1)
  {
    hide HalvingWeight, Scale;
    if log == [] {
      HalvingWeightNone(n - 1);
    } else {
      var init, e := log[..|log| - 1], log[|log| - 1];
      assert log == init + [e];
      LogError(k, n, init);
      HalvingWeightNext(init, e, n - 1);
      ScalePositive(e.level, 1);
    }
  }

  /** With the sampler off, the halvings of any trace shift a rank by at most the number of
      values times the product of 1 + 1 / capacity over the levels below the top, less one. */
  lemma {:induction false} ErrorSamplerOff(k: nat, t: seq<Action>)
    requires Upright(k, t)
    ensures ErrorBound(Log(t)) as real <= Times(Growth(k, Height(t), Height(t) - 1) - 1.0, TrueRank(Taken(t), Top))
  {
    hide Replay, HalvingWeight, Growth, ErrorBound, Taken, TrueRank;
    HalvingBound(k, t, Height(t) - 1);
    LogError(k, Height(t), Log(t));
  }
}
