/** What a compactor stack stands for: weighted ranks, and a ledger of every step
    that moves them.

    A `Bound` is either a value (count the items at most that value) or `Top`
    (count all items), so rank and total weight are one notion. */
module KllLedger {

  /** n * 2^h. */
  function Scale(h: nat, n: int): int {
    if h == 0 then n else 2 * Scale(h - 1, n)
  }

  lemma {:induction false} ScaleAdd(h: nat, m: int, n: int)
    ensures Scale(h, m + n) == Scale(h, m) + Scale(h, n)
    ensures Scale(h, -n) == -Scale(h, n)
    ensures Scale(h, 0) == 0
  {
    if h > 0 { ScaleAdd(h - 1, m, n); }
  }

  lemma ScaleBase(n: int)
    ensures Scale(0, n) == n
  {
  }

  lemma {:induction false} ScaleTimes(h: nat, n: nat)
    ensures Scale(h, n) == n * Scale(h, 1)
  {
    if h > 0 { ScaleTimes(h - 1, n); }
  }

  /** The low bit of `n` weighs 2^h, the others move one level up. */
  lemma {:induction false} ScaleBit(h: nat, n: nat)
    ensures Scale(h, n) == Scale(h, n % 2) + Scale(h + 1, n / 2)
  {
    ScaleAdd(h, n % 2, 2 * (n / 2));
    ScaleAdd(h, n / 2, n / 2);
    assert n / 2 + n / 2 == 2 * (n / 2);
  }

  lemma {:induction false} ScaleGrows(g: nat, h: nat)
    requires g <= h
    ensures Scale(g, 1) <= Scale(h, 1)
    decreases h - g
  {
    if g < h {
      ScaleGrows(g, h - 1);
      ScalePositive(h - 1, 1);
    }
  }

  lemma {:induction false} ScalePositive(h: nat, n: int)
    ensures n > 0 ==> Scale(h, n) > 0
  {
    if h > 0 { ScalePositive(h - 1, n); }
  }

  datatype Bound = AtMost(value: int) | Top {
    predicate Covers(v: int) { Top? || v <= value }
    function One(v: int): nat { if Covers(v) then 1 else 0 }
    function Of(v: int, w: int): int { if Covers(v) then w else 0 }
  }

  /** Number of items of `s` within the bound. */
  function Count(s: seq<int>, b: Bound): nat {
    if s == [] then 0 else b.One(s[0]) + Count(s[1..], b)
  }

  lemma {:induction false} CountConcat(s: seq<int>, t: seq<int>, b: Bound)
    ensures Count(s + t, b) == Count(s, b) + Count(t, b)
  {
    if s == [] {
      assert s + t == t;
    } else {
      assert (s + t)[1..] == s[1..] + t;
      CountConcat(s[1..], t, b);
    }
  }

  lemma {:induction false} CountTop(s: seq<int>)
    ensures Count(s, Top) == |s|
  {
    if s != [] { CountTop(s[1..]); }
  }

  // ---------- sorting and halving ----------

  ghost predicate Sorted(s: seq<int>) {
    forall i, j :: 0 <= i < j < |s| ==> s[i] <= s[j]
  }

  function Insert(x: int, s: seq<int>): seq<int> {
    if s == [] || x <= s[0] then [x] + s else [s[0]] + Insert(x, s[1..])
  }

  function Sort(s: seq<int>): seq<int> {
    if s == [] then [] else Insert(s[0], Sort(s[1..]))
  }

  lemma SortedPrepend(v: int, r: seq<int>)
    requires Sorted(r) && (r == [] || v <= r[0])
    ensures Sorted([v] + r)
  {
  }

  lemma SortedTail(s: seq<int>)
    requires Sorted(s) && s != []
    ensures Sorted(s[1..]) && (s[1..] == [] || s[0] <= s[1..][0])
  {
  }

  lemma {:induction false} InsertSorts(x: int, s: seq<int>)
    requires Sorted(s)
    ensures Sorted(Insert(x, s))
    ensures Insert(x, s) != [] && (Insert(x, s)[0] == x || (s != [] && Insert(x, s)[0] == s[0]))
  {
    hide Sorted;
    if s == [] || x <= s[0] {
      SortedPrepend(x, s);
    } else {
      SortedTail(s);
      InsertSorts(x, s[1..]);
      SortedPrepend(s[0], Insert(x, s[1..]));
    }
  }

  lemma {:induction false} InsertPermutes(x: int, s: seq<int>)
    ensures multiset(Insert(x, s)) == multiset(s) + multiset{x}
  {
    if s != [] && x > s[0] {
      InsertPermutes(x, s[1..]);
      assert s == [s[0]] + s[1..];
    }
  }

  lemma {:induction false} SortSorts(s: seq<int>)
    ensures Sorted(Sort(s)) && multiset(Sort(s)) == multiset(s) && |Sort(s)| == |s|
  {
    hide Sorted, Insert;
    if s == [] {
      NoneSorted();
    } else {
      SortSorts(s[1..]);
      InsertSorts(s[0], Sort(s[1..]));
      InsertPermutes(s[0], Sort(s[1..]));
      InsertLength(s[0], Sort(s[1..]));
      assert s == [s[0]] + s[1..];
    }
  }

  lemma NoneSorted()
    ensures Sorted([])
  {
  }

  lemma {:induction false} InsertLength(x: int, s: seq<int>)
    ensures |Insert(x, s)| == |s| + 1
  {
    if s != [] && x > s[0] { InsertLength(x, s[1..]); }
  }

  lemma {:induction false} InsertCount(x: int, s: seq<int>, b: Bound)
    ensures Count(Insert(x, s), b) == b.One(x) + Count(s, b)
  {
    if s != [] && x > s[0] { InsertCount(x, s[1..], b); }
  }

  lemma {:induction false} SortCount(s: seq<int>, b: Bound)
    ensures Count(Sort(s), b) == Count(s, b)
  {
    if s != [] {
      SortCount(s[1..], b);
      InsertCount(s[0], Sort(s[1..]), b);
    }
  }

  /** Every second item, starting with the first one iff `keep`. */
  function Keep(s: seq<int>, keep: bool): seq<int> {
    if s == [] then [] else (if keep then [s[0]] else []) + Keep(s[1..], !keep)
  }

  lemma {:induction false} KeepWithin(s: seq<int>, keep: bool, v: int)
    requires v in Keep(s, keep)
    ensures v in s
  {
    if !(keep && v == s[0]) { KeepWithin(s[1..], !keep, v); }
  }

  /** Halving a sorted compactor halves the rank of every value, rounded up when
      the even items are kept and down otherwise. */
  lemma {:induction false} KeepCount(s: seq<int>, keep: bool, b: Bound)
    requires Sorted(s)
    ensures Count(Keep(s, keep), b) == (Count(s, b) + if keep then 1 else 0) / 2
  {
    if s != [] {
      KeepCount(s[1..], !keep, b);
      if !b.Covers(s[0]) { CountNone(s, b); }
      CountConcat(if keep then [s[0]] else [], Keep(s[1..], !keep), b);
      assert Count([s[0]], b) == b.One(s[0]) + Count([], b);
    }
  }

  lemma {:induction false} CountNone(s: seq<int>, b: Bound)
    requires forall i :: 0 <= i < |s| ==> !b.Covers(s[i])
    ensures Count(s, b) == 0
  {
    if s != [] { CountNone(s[1..], b); }
  }

  lemma {:induction false} KeepSize(s: seq<int>, keep: bool)
    requires Sorted(s)
    ensures |Keep(s, keep)| == (|s| + if keep then 1 else 0) / 2
  {
    KeepCount(s, keep, Top);
    CountTop(s);
    CountTop(Keep(s, keep));
  }

  // ---------- levels ----------

  function NumItems(levels: seq<seq<int>>): nat {
    if levels == [] then 0 else NumItems(levels[..|levels| - 1]) + |levels[|levels| - 1]|
  }

  /** Weighted rank: an item on level `i` counts 2^i times. */
  ghost function Rank(levels: seq<seq<int>>, b: Bound): int {
    if levels == [] then 0
    else Rank(levels[..|levels| - 1], b) + Scale(|levels| - 1, Count(levels[|levels| - 1], b))
  }

  ghost function Items(levels: seq<seq<int>>): set<int> {
    set i, v | 0 <= i < |levels| && v in levels[i] :: v
  }

  lemma {:induction false} NumItemsUpdate(levels: seq<seq<int>>, i: nat, s: seq<int>)
    requires i < |levels|
    ensures NumItems(levels[i := s]) == NumItems(levels) + |s| - |levels[i]|
  {
    var n := |levels| - 1;
    if i == n {
      assert levels[i := s][..n] == levels[..n];
    } else {
      assert levels[i := s][..n] == levels[..n][i := s];
      NumItemsUpdate(levels[..n], i, s);
    }
  }

  lemma {:induction false} RankUpdate(levels: seq<seq<int>>, i: nat, s: seq<int>, b: Bound)
    requires i < |levels|
    ensures Rank(levels[i := s], b) == Rank(levels, b) + Scale(i, Count(s, b) - Count(levels[i], b))
  {
    var n := |levels| - 1;
    if i == n {
      assert levels[i := s][..n] == levels[..n];
      ScaleAdd(n, Count(levels[n], b), Count(s, b) - Count(levels[n], b));
    } else {
      assert levels[i := s][..n] == levels[..n][i := s];
      RankUpdate(levels[..n], i, s, b);
    }
  }

  lemma {:induction false} AddEmptyLevel(levels: seq<seq<int>>)
    ensures NumItems(levels + [[]]) == NumItems(levels)
    ensures forall b :: Rank(levels + [[]], b) == Rank(levels, b)
    ensures Items(levels + [[]]) == Items(levels)
  {
    assert (levels + [[]])[..|levels|] == levels;
    forall b ensures Rank(levels + [[]], b) == Rank(levels, b) {
      ScaleAdd(|levels|, 0, 0);
    }
    assert forall i, v :: 0 <= i < |levels| && v in levels[i] ==> v in (levels + [[]])[i];
  }

  /** One value put on one level. */
  function Push(levels: seq<seq<int>>, i: nat, v: int): seq<seq<int>>
    requires i < |levels|
  {
    levels[i := levels[i] + [v]]
  }

  lemma {:induction false} PushEffect(levels: seq<seq<int>>, i: nat, v: int)
    requires i < |levels|
    ensures NumItems(Push(levels, i, v)) == NumItems(levels) + 1
    ensures forall b: Bound :: Rank(Push(levels, i, v), b) == Rank(levels, b) + Scale(i, b.One(v))
    ensures Items(Push(levels, i, v)) <= Items(levels) + {v}
  {
    NumItemsUpdate(levels, i, levels[i] + [v]);
    forall b: Bound ensures Rank(Push(levels, i, v), b) == Rank(levels, b) + Scale(i, b.One(v)) {
      CountConcat(levels[i], [v], b);
      assert Count([v], b) == b.One(v) + Count([], b);
      RankUpdate(levels, i, levels[i] + [v], b);
    }
  }

  /** Level `h` emptied, every second of its sorted items moved one level up. */
  function Halved(levels: seq<seq<int>>, h: nat, keepEven: bool): seq<seq<int>>
    requires h + 1 < |levels|
  {
    levels[h + 1 := levels[h + 1] + Keep(Sort(levels[h]), keepEven)][h := []]
  }

  lemma {:induction false} HalvedEffect(levels: seq<seq<int>>, h: nat, keepEven: bool)
    requires h + 1 < |levels|
    ensures NumItems(Halved(levels, h, keepEven)) ==
            NumItems(levels) - (|levels[h]| + if keepEven then 0 else 1) / 2
    ensures forall b :: Rank(Halved(levels, h, keepEven), b) ==
                        Rank(levels, b) + Drift(Compact(h, levels[h], keepEven), b)
    ensures Items(Halved(levels, h, keepEven)) <= Items(levels)
  {
    hide Keep, Sort, Count, Rank, NumItems, Items;
    var sorted := Sort(levels[h]);
    var up := levels[h + 1] + Keep(sorted, keepEven);
    SortSorts(levels[h]);
    KeepSize(sorted, keepEven);
    NumItemsUpdate(levels, h + 1, up);
    NumItemsUpdate(levels[h + 1 := up], h, []);
    forall b ensures Rank(Halved(levels, h, keepEven), b) ==
                     Rank(levels, b) + Drift(Compact(h, levels[h], keepEven), b)
    {
      HalvedRank(levels, h, Keep(sorted, keepEven), b);
    }
    HalvedItems(levels, h, keepEven);
  }

  lemma {:induction false} HalvedRank(levels: seq<seq<int>>, h: nat, kept: seq<int>, b: Bound)
    requires h + 1 < |levels|
    ensures Rank(levels[h + 1 := levels[h + 1] + kept][h := []], b) ==
            Rank(levels, b) + Scale(h, 2 * Count(kept, b) - Count(levels[h], b))
  {
    var up := levels[h + 1] + kept;
    CountConcat(levels[h + 1], kept, b);
    RankUpdate(levels, h + 1, up, b);
    RankUpdate(levels[h + 1 := up], h, [], b);
    var c: int, d: int := Count(kept, b), Count(levels[h], b);
    ScaleAdd(h, c, c);
    ScaleAdd(h, 2 * c, -d);
    assert Scale(h + 1, c) == Scale(h, c + c);
  }

  lemma {:induction false} HalvedItems(levels: seq<seq<int>>, h: nat, keepEven: bool)
    requires h + 1 < |levels|
    ensures Items(Halved(levels, h, keepEven)) <= Items(levels)
  {
    var sorted := Sort(levels[h]);
    SortSorts(levels[h]);
    forall v | v in Keep(sorted, keepEven) ensures v in levels[h] {
      KeepWithin(sorted, keepEven, v);
      assert v in multiset(sorted);
    }
  }

  // ---------- the ledger ----------

  /** A weighted value, as handed to the sketch or absorbed by the sampler. */
  datatype Weighted = Weighted(value: int, weight: nat)

  ghost function TrueRank(s: seq<Weighted>, b: Bound): nat {
    if s == [] then 0
    else TrueRank(s[..|s| - 1], b) + b.Of(s[|s| - 1].value, s[|s| - 1].weight)
  }

  lemma {:induction false} TrueRankPush(s: seq<Weighted>, w: Weighted, b: Bound)
    ensures TrueRank(s + [w], b) == TrueRank(s, b) + b.Of(w.value, w.weight)
  {
    assert (s + [w])[..|s|] == s;
  }

  /** The steps that move ranks: a halving, a hand-over of what stands for everything the
      sampler absorbed, and weight dropped by a weighted add. */
  datatype Entry =
    | Compact(level: nat, items: seq<int>, keepEven: bool)
    | Sample(absorbed: seq<Weighted>, handed: seq<Weighted>)
    | Lost(value: int, weight: nat)

  /** By how much one step changes the rank at `b`. */
  ghost function Drift(e: Entry, b: Bound): int {
    match e
    case Compact(h, items, keepEven) =>
      Scale(h, 2 * Count(Keep(Sort(items), keepEven), b) - Count(items, b))
    case Sample(absorbed, handed) => TrueRank(handed, b) - TrueRank(absorbed, b)
    case Lost(v, w) => -b.Of(v, w)
  }

  ghost function MaxDrift(e: Entry): (r: int)
    ensures r >= 0
  {
    match e
    case Compact(h, items, _) => ScalePositive(h, 1); if items == [] then 0 else Scale(h, 1)
    case Sample(absorbed, handed) =>
      if TrueRank(absorbed, Top) < TrueRank(handed, Top) then TrueRank(handed, Top) else TrueRank(absorbed, Top)
    case Lost(_, w) => w
  }

  lemma {:induction false} RoundingDrift(h: nat, d: int, c: int, up: bool)
    requires d >= 0 && c == (d + if up then 1 else 0) / 2
    ensures Scale(h, 2 * c - d) == if d % 2 == 0 then 0 else if up then Scale(h, 1) else Scale(h, -1)
  {
    ScaleAdd(h, 0, 0);
    assert 2 * c - d == if d % 2 == 0 then 0 else if up then 1 else -1;
  }

  /** One halving at level h moves a rank by exactly 0 or 2^h upwards (even items
      kept) or downwards (odd items kept), according to the parity of the rank. */
  lemma {:induction false} CompactDrift(h: nat, items: seq<int>, keepEven: bool, b: Bound)
    ensures Drift(Compact(h, items, keepEven), b) ==
            if Count(items, b) % 2 == 0 then 0 else if keepEven then Scale(h, 1) else Scale(h, -1)
  {
    var sorted := Sort(items);
    var d: int, c: int := Count(sorted, b), Count(Keep(sorted, keepEven), b);
    SortCount(items, b);
    assert c == (d + if keepEven then 1 else 0) / 2 by {
      SortSorts(items);
      KeepCount(sorted, keepEven, b);
    }
    RoundingDrift(h, d, c, keepEven);
  }

  lemma {:induction false} TrueRankBounded(s: seq<Weighted>, b: Bound)
    ensures TrueRank(s, b) <= TrueRank(s, Top)
  {
    if s != [] { TrueRankBounded(s[..|s| - 1], b); }
  }

  lemma {:induction false} DriftBounded(e: Entry, b: Bound)
    ensures -MaxDrift(e) <= Drift(e, b) <= MaxDrift(e)
  {
    match e
    case Compact(h, items, keepEven) => CompactDrift(h, items, keepEven, b); ScaleAdd(h, 0, 1); ScalePositive(h, 1);
    case Sample(absorbed, handed) => TrueRankBounded(absorbed, b); TrueRankBounded(handed, b);
    case Lost(_, _) =>
  }

  ghost function TotalDrift(log: seq<Entry>, b: Bound): int {
    if log == [] then 0 else TotalDrift(log[..|log| - 1], b) + Drift(log[|log| - 1], b)
  }

  ghost function ErrorBound(log: seq<Entry>): (r: int)
    ensures r >= 0
  {
    if log == [] then 0 else ErrorBound(log[..|log| - 1]) + MaxDrift(log[|log| - 1])
  }

  lemma {:induction false} TotalDriftPush(log: seq<Entry>, e: Entry, b: Bound)
    ensures TotalDrift(log + [e], b) == TotalDrift(log, b) + Drift(e, b)
  {
    assert (log + [e])[..|log|] == log;
  }

  lemma {:induction false} TotalDriftBounded(log: seq<Entry>, b: Bound)
    ensures -ErrorBound(log) <= TotalDrift(log, b) <= ErrorBound(log)
  {
    if log != [] {
      TotalDriftBounded(log[..|log| - 1], b);
      DriftBounded(log[|log| - 1], b);
    }
  }
}
