/** How high a stack can grow by single values. An item on level h counts (3/2)^h: halving a full
    level does not increase the sum, because of three items at most two go up, and of more fewer.
    So the sum never exceeds the number of values, and a level is added only over one that holds
    k items. */
module KllHeight {
  import opened Options
  import opened KllCapacity
  import opened KllLedger
  import opened KllTrace
  import opened KllStack
  import opened KllError

  // ---------- the measure ----------

  /** (3/2)^h. */
  ghost function Weigh(h: nat): (w: real)
    ensures w >= 1.0 && (h == 0 ==> w == 1.0)
  {
    if h == 0 then 1.0 else 1.5 * Weigh(h - 1)
  }

  ghost function Mul(a: real, b: real): real { a * b }

  ghost function Load(n: nat, h: nat): real { Mul(n as real, Weigh(h)) }

  ghost function Total(levels: seq<seq<int>>): real {
    if levels == [] then 0.0 else Total(levels[..|levels| - 1]) + Load(|levels[|levels| - 1]|, |levels| - 1)
  }

  /** What is stored, and what the sampler holds. */
  ghost function Measure(v: View): real {
    Total(v.levels) + if v.sampler.Some? then v.sampler.value.itemWeight as real else 0.0
  }

  lemma {:induction false} LoadAdd(m: nat, n: nat, h: nat)
    ensures Load(m + n, h) == Load(m, h) + Load(n, h) && Load(0, h) == 0.0 && Load(1, h) == Weigh(h)
    ensures Load(n, h) >= 0.0
  {
    assert (m + n) as real == m as real + n as real;
  }

  lemma {:induction false} LoadGrows(m: nat, n: nat, h: nat)
    requires m <= n
    ensures Load(m, h) <= Load(n, h)
  {
    LoadAdd(m, n - m, h);
  }

  lemma {:induction false} WeighBelow(g: nat, h: nat)
    requires g <= h
    ensures Weigh(g) <= Weigh(h)
  {
    if g < h { WeighBelow(g, h - 1); }
  }

  /** An item counts no more than the values it stands for. */
  lemma {:induction false} WeighAtMostUnit(h: nat)
    ensures Weigh(h) <= Scale(h, 1) as real
  {
    if h > 0 { WeighAtMostUnit(h - 1); }
  }

  lemma {:induction false} TotalUpdate(levels: seq<seq<int>>, i: nat, items: seq<int>)
    requires i < |levels|
    ensures Total(levels[i := items]) == Total(levels) - Load(|levels[i]|, i) + Load(|items|, i)
  {
    var n := |levels| - 1;
    if i == n {
      assert levels[i := items][..n] == levels[..n];
    } else {
      TotalUpdate(levels[..n], i, items);
      assert levels[i := items][..n] == levels[..n][i := items];
    }
  }

  lemma {:induction false} TotalAtLeast(levels: seq<seq<int>>, i: nat)
    requires i < |levels|
    ensures Total(levels) >= Load(|levels[i]|, i) && Total(levels) >= 0.0
  {
    var n := |levels| - 1;
    LoadAdd(0, |levels[n]|, n);
    if i < n { TotalAtLeast(levels[..n], i); } else if n > 0 { TotalAtLeast(levels[..n], 0); }
  }

  lemma {:induction false} TotalEmptyTop(levels: seq<seq<int>>)
    ensures Total(levels + [[]]) == Total(levels)
  {
    assert (levels + [[]])[..|levels|] == levels;
    LoadAdd(0, 0, |levels|);
  }

  lemma {:induction false} TotalPush(levels: seq<seq<int>>, h: nat, x: int)
    requires h < |levels|
    ensures Total(Push(levels, h, x)) == Total(levels) + Weigh(h)
  {
    TotalUpdate(levels, h, levels[h] + [x]);
    LoadAdd(|levels[h]|, 1, h);
  }

  // ---------- one halving ----------

  /** What a halving of `m` items of level `h` adds: at most half an item's count if it is a single
      one, nothing for any other number, and for four or more it takes half a count off. */
  lemma {:induction false} HalvingLoad(m: nat, kept: nat, h: nat)
    requires kept <= (m + 1) / 2
    ensures Load(kept, h + 1) <= Load(m, h) + 0.5 * Weigh(h)
    ensures m != 1 ==> Load(kept, h + 1) <= Load(m, h)
    ensures m >= 4 ==> Load(kept, h + 1) <= Load(m, h) - 0.5 * Weigh(h)
  {
    hide Weigh, Load, Mul;
    var w, up := Weigh(h), (m + 1) / 2;
    LoadGrows(kept, up, h + 1);
    LoadUp(up, h);
    LoadShift(m, h);
    Thirds(m);
    Product(1.5 * up as real, m as real + 0.5, w);
    if m != 1 { Product(1.5 * up as real, m as real, w); }
    if m >= 4 { Product(1.5 * up as real, m as real - 0.5, w); }
  }

  lemma {:induction false} Thirds(m: nat)
    ensures var a, x := 1.5 * ((m + 1) / 2) as real, m as real;
            a <= x + 0.5 && (m != 1 ==> a <= x) && (m >= 4 ==> a <= x - 0.5)
  {
    var up := (m + 1) / 2;
    assert 3 * up <= 2 * m + 1 && (m != 1 ==> 3 * up <= 2 * m) && (m >= 4 ==> 3 * up <= 2 * m - 1);
  }

  lemma Product(a: real, b: real, w: real)
    requires a <= b && w >= 0.0
    ensures Mul(a, w) <= Mul(b, w)
  {
  }

  lemma {:induction false} LoadUp(n: nat, h: nat)
    ensures Load(n, h + 1) == Mul(1.5 * n as real, Weigh(h))
  {
  }

  lemma {:induction false} LoadShift(m: nat, h: nat)
    ensures Mul(m as real + 0.5, Weigh(h)) == Load(m, h) + 0.5 * Weigh(h)
    ensures Mul(m as real, Weigh(h)) == Load(m, h)
    ensures Mul(m as real - 0.5, Weigh(h)) == Load(m, h) - 0.5 * Weigh(h)
  {
  }

  lemma {:induction false} TotalHalved(levels: seq<seq<int>>, h: nat, coin: bool)
    requires h + 1 < |levels|
    ensures var m := |levels[h]|;
            && |Halved(levels, h, coin)| == |levels|
            && Total(Halved(levels, h, coin)) <= Total(levels) + 0.5 * Weigh(h)
            && (m != 1 ==> Total(Halved(levels, h, coin)) <= Total(levels))
            && (m >= 4 ==> Total(Halved(levels, h, coin)) <= Total(levels) - 0.5 * Weigh(h))
            && Halved(levels, h, coin)[h] == []
            && forall i :: 0 <= i < |levels| && i != h ==> |Halved(levels, h, coin)[i]| >= |levels[i]|
  {
    hide Weigh, Load, Total;
    var kept := Keep(Sort(levels[h]), coin);
    SortSorts(levels[h]);
    KeepSize(Sort(levels[h]), coin);
    var up := levels[h + 1 := levels[h + 1] + kept];
    TotalUpdate(levels, h + 1, levels[h + 1] + kept);
    TotalUpdate(up, h, []);
    LoadAdd(|levels[h + 1]|, |kept|, h + 1);
    LoadAdd(0, 0, h);
    HalvingLoad(|levels[h]|, |kept|, h);
  }

  // ---------- compacting a level ----------

  /** With more than one active level k is at least 4. */
  lemma {:induction false} SeveralActive(k: nat, j: nat)
    requires j >= 1 && TargetCapacity(k, j) > 0
    ensures k >= 4
  {
    ActivePrefix(k, 1, j);
    assert Pow(2, 1) == 2 * Pow(2, 0) == 2 && Pow(3, 1) == 3 * Pow(3, 0) == 3;
  }

  /** Adding a level over a full one and halving that does not increase the measure, although the
      level handed to the sampler may hold a single item. */
  lemma {:induction false} TopLoad(k: nat, v: View, g: View, coin: bool)
    requires k >= 3 && |v.levels| > 0 && ActiveLevels(k, |v.levels|, v.Lowest())
    requires |v.levels[|v.levels| - 1]| >= TargetCapacity(k, 0) && Grew(k, false, v, g)
    ensures |g.levels| == |v.levels| + 1
    ensures Total(Halved(g.levels, |v.levels| - 1, coin)) <= Total(v.levels)
  {
    hide Weigh, Total, Halved, TargetCapacity;
    TopCapacity(k);
    TopTarget(k);
    var n, low := |v.levels|, v.Lowest();
    var top := n - 1;
    var grown := v.levels + [[]];
    TotalEmptyTop(v.levels);
    if TargetCapacity(k, n - low) > 0 {
      TotalHalved(grown, top, coin);
    } else {
      var first :| g == AfterHalve(AfterDouble(AfterGrow(v, v.overallCapacity, false)), low, first);
      assert g.levels == Halved(grown, low, first);
      TotalHalved(grown, low, first);
      TotalHalved(g.levels, top, coin);
      if low < top {
        SeveralActive(k, top - low);
        WeighBelow(low, top);
      }
    }
  }

  /** Compacting the first full level does not increase the measure. */
  lemma {:induction false} CompactedLoad(k: nat, v: View, h: nat, w: View)
    requires k >= 3 && |v.levels| > 0 && ActiveLevels(k, |v.levels|, v.Lowest())
    requires FirstFull(k, v, h) && LevelCompacted(k, v, h, w)
    ensures Total(w.levels) <= Total(v.levels)
    ensures |w.levels| == |v.levels| + if h == |v.levels| - 1 then 1 else 0
    ensures h == |v.levels| - 1 ==> |v.levels[h]| >= k
    ensures SameHeld(v.sampler, w.sampler)
  {
    hide Weigh, Total, Halved, TargetCapacity;
    var n := |v.levels|;
    ActivePrefix(k, n - 1 - h, n - 1 - v.Lowest());
    if h < n - 1 {
      var coin :| w == AfterHalve(v, h, coin);
      TotalHalved(v.levels, h, coin);
    } else {
      var g, coin :| Grew(k, false, v, g) && h + 1 < |g.levels| && w == AfterHalve(g, h, coin);
      TopTarget(k);
      TopLoad(k, v, g, coin);
      TotalHalved(g.levels, h, coin);
    }
  }

  /** Compactions leave alone what the sampler holds. */
  ghost predicate SameHeld(s: Option<Sampler>, t: Option<Sampler>) { HeldBy(s) == HeldBy(t) }

  ghost function HeldBy(s: Option<Sampler>): nat { if s.Some? then s.value.itemWeight else 0 }

  lemma {:induction false} SettledLoad(k: nat, v: View, w: View)
    requires k >= 3 && |v.levels| > 0 && ActiveLevels(k, |v.levels|, v.Lowest()) && Settled(k, v, w)
    ensures Total(w.levels) <= Total(v.levels) && SameHeld(v.sampler, w.sampler)
    ensures |v.levels| <= |w.levels| <= |v.levels| + 1
    ensures |w.levels| > |v.levels| ==> Load(k, |v.levels| - 1) <= Total(v.levels)
  {
    hide Weigh, Load, Total, Halved, TargetCapacity, LevelCompacted;
    if v.numItems >= v.overallCapacity {
      var h: nat :| FirstFull(k, v, h) && LevelCompacted(k, v, h, w);
      CompactedLoad(k, v, h, w);
      if h == |v.levels| - 1 {
        TotalAtLeast(v.levels, h);
        LoadGrows(k, |v.levels[h]|, h);
      }
    }
  }

  // ---------- adding a value ----------

  /** The measure grows by at most one with every value, and a level is added only when it has
      reached what k items on the topmost level count. */
  lemma {:induction false} AddedLoad(k: nat, v: View, value: int, w: View)
    requires ShapeBut(k, v, -1) && SamplerBelow(v) && |v.levels| > 0 && Added(k, v, value, w)
    ensures Measure(w) <= Measure(v) + 1.0
    ensures |v.levels| <= |w.levels| <= |v.levels| + 1
    ensures |w.levels| > |v.levels| ==> Load(k, |v.levels| - 1) <= Measure(v) + 1.0
  {
    hide Weigh, Load, Total, Settled, Replay, Wide, Warrants, NumItems, CapacitySum, TargetCapacity, Scale, Tied,
         HandedOn, ActiveLevels;
    if v.sampler.None? {
      PlacedLoad(k, v, value, w);
    } else {
      var take :| var a := AfterAbsorb(v, value, 1, take);
                  if a.sampler.value.itemWeight < a.sampler.value.capacity then w == a else HandedOn(k, a, w);
      var a := AfterAbsorb(v, value, 1, take);
      if a.sampler.value.itemWeight >= a.sampler.value.capacity {
        HandedOnLoad(k, a, w);
      }
    }
  }

  lemma {:induction false} PlacedLoad(k: nat, v: View, value: int, w: View)
    requires k >= 3 && |v.levels| > 0 && ActiveLevels(k, |v.levels|, v.Lowest()) && v.sampler.None?
    requires Settled(k, AfterPlace(v, 0, value, false), w)
    ensures Measure(w) <= Measure(v) + 1.0
    ensures |v.levels| <= |w.levels| <= |v.levels| + 1
    ensures |w.levels| > |v.levels| ==> Load(k, |v.levels| - 1) <= Measure(v) + 1.0
  {
    hide Weigh, Load, Total, Settled, ActiveLevels;
    TotalPush(v.levels, 0, value);
    SettledLoad(k, AfterPlace(v, 0, value, false), w);
  }

  lemma {:induction false} HandedOnLoad(k: nat, a: View, w: View)
    requires k >= 3 && |a.levels| > 0 && ActiveLevels(k, |a.levels|, a.Lowest()) && SamplerFits(a.sampler)
    requires a.sampler.Some? && a.sampler.value.itemWeight == a.sampler.value.capacity && HandedOn(k, a, w)
    ensures Measure(w) <= Measure(a)
    ensures |a.levels| <= |w.levels| <= |a.levels| + 1
    ensures |w.levels| > |a.levels| ==> Load(k, |a.levels| - 1) <= Measure(a)
  {
    hide Weigh, Load, Total, Settled, TargetCapacity, Scale;
    var p := AfterPlace(a, a.Lowest(), a.sampler.value.sampledItem, true);
    var q: View :| q.sampler.Some? && w == AfterRestart(q) && Settled(k, p, q);
    TotalPush(a.levels, a.Lowest(), a.sampler.value.sampledItem);
    WeighAtMostUnit(a.Lowest());
    SettledLoad(k, p, q);
  }

  /** After `n` values: the measure is at most n, and k items on the level below the topmost would
      count no more than that. */
  ghost predicate LowEnough(k: nat, v: View, n: int) {
    && Measure(v) <= n as real
    && (|v.levels| >= 2 ==> Load(k, |v.levels| - 2) <= n as real)
  }

  lemma {:induction false} AddedLow(k: nat, v: View, value: int, w: View, n: int)
    requires ShapeBut(k, v, -1) && SamplerBelow(v) && |v.levels| > 0 && Added(k, v, value, w) && LowEnough(k, v, n)
    ensures LowEnough(k, w, n + 1)
  {
    hide Load, Measure, ShapeBut, Added;
    AddedLoad(k, v, value, w);
    assert (n + 1) as real == n as real + 1.0;
  }

  lemma {:induction false} StartLow(k: nat)
    ensures LowEnough(k, View([[]], None, k, 0, [NewLevel(false)]), 0)
  {
    var levels: seq<seq<int>> := [[]];
    assert levels[..0] == [];
    LoadAdd(0, 0, 0);
  }

  /** In integers: k times 3^(h-2) is at most n times 2^(h-2), for h levels. */
  lemma {:induction false} LoadInIntegers(k: nat, h: nat, n: int)
    requires Load(k, h) <= n as real
    ensures k * Pow(3, h) <= n * Pow(2, h)
  {
    hide Weigh, Pow;
    PowersWeigh(h);
    PowPositive(h);
    Scaled(k as real, Weigh(h), Pow(2, h) as real, Pow(3, h) as real, n as real);
    Cast(k, Pow(3, h));
    Cast(n, Pow(2, h));
  }

  lemma {:induction false} Scaled(k: real, w: real, p: real, q: real, n: real)
    requires w * p == q && k * w <= n && p >= 0.0
    ensures k * q <= n * p
  {
    Product(k * w, n, p);
    assert (k * w) * p == k * (w * p);
  }

  lemma {:induction false} Cast(a: int, b: int)
    ensures (a * b) as real == a as real * b as real
  {
  }

  lemma {:induction false} PowPositive(h: nat)
    ensures Pow(2, h) >= 1
  {
    if h > 0 { PowPositive(h - 1); }
  }

  lemma {:induction false} PowersWeigh(h: nat)
    ensures Weigh(h) * Pow(2, h) as real == Pow(3, h) as real
  {
    if h > 0 {
      PowersWeigh(h - 1);
      var w, p := Weigh(h - 1), Pow(2, h - 1) as real;
      assert Pow(2, h) as real == 2.0 * p && Pow(3, h) as real == 3.0 * Pow(3, h - 1) as real;
      assert (1.5 * w) * (2.0 * p) == 3.0 * (w * p);
    }
  }
}
