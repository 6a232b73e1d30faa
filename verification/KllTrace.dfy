/** Everything a compactor stack and its sampler can do, as a trace of actions, and what any
    trace does to the ranks. The replay of a trace is the state it leads to together with the
    books: the log of every step that moved a rank, and what the sampler has absorbed and
    handed over since its last restart. */
module KllTrace {
  import opened Options
  import opened KllLedger

  datatype Sampler = Sampler(sampledItem: int, itemWeight: nat, capacity: nat, numReplacedLevels: nat)

  datatype Action =
    | Halving(level: nat, keepEven: bool)            // a level, sorted and halved into the next
    | NewLevel(forItem: bool)                        // an empty level on top: for an item's bit, or a full level
    | Doubling                                       // the sampler is switched on, or its capacity doubled
    | Place(level: nat, value: int, sampled: bool)   // an item put on a level: added, or handed over by the sampler
    | Absorb(item: int, weight: nat, take: bool)     // the sampler takes in an item, and perhaps samples it
    | Restart                                        // the sampler has handed over its sample
    | Drop(value: int, lost: nat)                    // weight that is neither sampled nor placed

  predicate IsCompaction(a: Action) { a.Halving? || a == NewLevel(false) || a.Doubling? }

  datatype Book = Book(levels: seq<seq<int>>, sampler: Option<Sampler>,
                       log: seq<Entry>, absorbed: seq<Weighted>, handed: seq<Weighted>)

  /** The weight of an item of level `h`. */
  function Unit(h: nat): (w: nat)
    ensures w == Scale(h, 1) > 0
  {
    ScalePositive(h, 1);
    Scale(h, 1)
  }

  function Doubled(s: Option<Sampler>): Option<Sampler> {
    match s
    case None => Some(Sampler(0, 0, 2, 1))
    case Some(x) => Some(x.(capacity := x.capacity * 2, numReplacedLevels := x.numReplacedLevels + 1))
  }

  /** Whether the action makes sense in a state. */
  ghost predicate Allowed(s: Book, a: Action) {
    match a
    case Halving(h, _) => h + 1 < |s.levels|
    case NewLevel(_) => true
    case Doubling => true
    case Place(h, x, sampled) =>
      && h < |s.levels|
      && (sampled ==> s.sampler.Some? && s.sampler.value.itemWeight > 0 && x == s.sampler.value.sampledItem)
    case Absorb(_, _, take) => s.sampler.Some? && (s.sampler.value.itemWeight == 0 ==> take)
    case Restart => s.sampler.Some? && TrueRank(s.handed, Top) == s.sampler.value.itemWeight
    case Drop(_, _) => s.sampler.Some?
  }

  ghost function Apply(s: Book, a: Action): Book
    requires Allowed(s, a)
  {
    match a
    case Halving(h, keepEven) =>
      s.(levels := Halved(s.levels, h, keepEven), log := s.log + [Compact(h, s.levels[h], keepEven)])
    case NewLevel(_) => s.(levels := s.levels + [[]])
    case Doubling => s.(sampler := Doubled(s.sampler))
    case Place(h, x, sampled) =>
      s.(levels := Push(s.levels, h, x), handed := if sampled then s.handed + [Weighted(x, Unit(h))] else s.handed)
    case Absorb(x, w, take) =>
      s.(sampler := Some(s.sampler.value.(itemWeight := s.sampler.value.itemWeight + w,
                           sampledItem := if take then x else s.sampler.value.sampledItem)),
         absorbed := s.absorbed + [Weighted(x, w)])
    case Restart =>
      s.(sampler := Some(s.sampler.value.(itemWeight := 0, sampledItem := 0)),
         log := s.log + [Sample(s.absorbed, s.handed)], absorbed := [], handed := [])
    case Drop(x, lost) => s.(log := s.log + [Lost(x, lost)])
  }

  /** The state a trace leads to from the empty stack, if every action was allowed. */
  ghost function Replay(t: seq<Action>): Option<Book> {
    if t == [] then Some(Book([], None, [], [], []))
    else
      var s := Replay(t[..|t| - 1]);
      if s.Some? && Allowed(s.value, t[|t| - 1]) then Some(Apply(s.value, t[|t| - 1])) else None
  }

  lemma {:induction false} ReplayNext(t: seq<Action>, a: Action)
    ensures Replay(t).Some? && Allowed(Replay(t).value, a) ==> Replay(t + [a]) == Some(Apply(Replay(t).value, a))
  {
    assert (t + [a])[..|t|] == t;
  }

  // ---------- what a trace took in from outside, and what it dropped ----------

  function TakenBy(a: Action): seq<Weighted> {
    match a
    case Place(h, x, sampled) => if sampled then [] else [Weighted(x, Unit(h))]
    case Absorb(x, w, _) => [Weighted(x, w)]
    case Drop(x, lost) => [Weighted(x, lost)]
    case _ => []
  }

  function Taken(t: seq<Action>): seq<Weighted> {
    if t == [] then [] else Taken(t[..|t| - 1]) + TakenBy(t[|t| - 1])
  }

  function Drops(t: seq<Action>): seq<Weighted> {
    if t == [] then []
    else Drops(t[..|t| - 1]) + if t[|t| - 1].Drop? then [Weighted(t[|t| - 1].value, t[|t| - 1].lost)] else []
  }

  lemma {:induction false} TakenConcat(s: seq<Action>, t: seq<Action>)
    ensures Taken(s + t) == Taken(s) + Taken(t) && Drops(s + t) == Drops(s) + Drops(t)
  {
    hide TakenBy, Taken, Drops;
    if t == [] {
      assert s + t == s;
      NothingTaken();
      assert Taken(s) + [] == Taken(s) && Drops(s) + [] == Drops(s);
    } else {
      var init, a := t[..|t| - 1], t[|t| - 1];
      TakenConcat(s, init);
      assert t == init + [a] && s + t == (s + init) + [a];
      TakenLast(s + t, s + init, a);
      TakenLast(t, init, a);
      Reassociate(Taken(s), Taken(init), TakenBy(a));
      Reassociate(Drops(s), Drops(init), if a.Drop? then [Weighted(a.value, a.lost)] else []);
    }
  }

  lemma Reassociate(a: seq<Weighted>, b: seq<Weighted>, c: seq<Weighted>)
    ensures (a + b) + c == a + (b + c)
  {
  }

  lemma NothingTaken()
    ensures Taken([]) == [] && Drops([]) == []
  {
  }

  lemma {:induction false} TakenLast(t: seq<Action>, init: seq<Action>, a: Action)
    requires t == init + [a]
    ensures Taken(t) == Taken(init) + TakenBy(a)
    ensures Drops(t) == Drops(init) + if a.Drop? then [Weighted(a.value, a.lost)] else []
  {
    assert t[..|t| - 1] == init;
  }


  lemma {:induction false} TrueRankConcat(s: seq<Weighted>, t: seq<Weighted>, b: Bound)
    ensures TrueRank(s + t, b) == TrueRank(s, b) + TrueRank(t, b)
  {
    if t == [] {
      assert s + t == s;
    } else {
      assert (s + t)[..|s + t| - 1] == s + t[..|t| - 1];
      TrueRankConcat(s, t[..|t| - 1], b);
    }
  }

  /** All of it is `x`, `n` in total. */
  ghost predicate AllOf(s: seq<Weighted>, x: int, n: int) {
    (forall i :: 0 <= i < |s| ==> s[i].value == x) && TrueRank(s, Top) == n
  }

  lemma {:induction false} AllOfRank(s: seq<Weighted>, x: int, n: int, b: Bound)
    requires AllOf(s, x, n)
    ensures TrueRank(s, b) == b.Of(x, n)
  {
    if s != [] { AllOfRank(s[..|s| - 1], x, TrueRank(s[..|s| - 1], Top), b); }
  }

  // ---------- the ledger ----------

  /** Rank in the levels, with the logged drift taken out and what the sampler holds put in. */
  ghost function LedgerOf(s: Book, b: Bound): int {
    Rank(s.levels, b) - TotalDrift(s.log, b) + TrueRank(s.absorbed, b) - TrueRank(s.handed, b)
  }

  ghost predicate SamplerBooked(s: Book) {
    if s.sampler.Some? then s.sampler.value.itemWeight == TrueRank(s.absorbed, Top)
    else s.absorbed == [] && s.handed == []
  }

  ghost function RankTaken(a: Action, b: Bound): int {
    match a
    case Place(h, x, sampled) => if sampled then 0 else b.Of(x, Unit(h))
    case Absorb(x, w, _) => b.Of(x, w)
    case Drop(x, lost) => b.Of(x, lost)
    case _ => 0
  }

  lemma {:induction false} TakenNext(t: seq<Action>, a: Action, b: Bound)
    ensures TrueRank(Taken(t + [a]), b) == TrueRank(Taken(t), b) + RankTaken(a, b)
  {
    assert (t + [a])[..|t|] == t && Taken(t) + [] == Taken(t);
    match a
    case Place(h, x, sampled) => if !sampled { TrueRankPush(Taken(t), Weighted(x, Unit(h)), b); }
    case Absorb(x, w, _) => TrueRankPush(Taken(t), Weighted(x, w), b);
    case Drop(x, lost) => TrueRankPush(Taken(t), Weighted(x, lost), b);
    case _ =>
  }

  lemma {:induction false} PlaceLedger(s: Book, h: nat, x: int, sampled: bool, b: Bound)
    requires Allowed(s, Place(h, x, sampled))
    ensures LedgerOf(Apply(s, Place(h, x, sampled)), b) == LedgerOf(s, b) + RankTaken(Place(h, x, sampled), b)
  {
    hide Rank, TotalDrift, TrueRank, Scale, Push;
    PushEffect(s.levels, h, x);
    ScaleAdd(h, 0, 0);
    TrueRankPush(s.handed, Weighted(x, Unit(h)), b);
  }

  lemma {:induction false} ActionLedger(s: Book, a: Action, b: Bound)
    requires Allowed(s, a)
    ensures LedgerOf(Apply(s, a), b) == LedgerOf(s, b) + RankTaken(a, b)
  {
    hide Rank, TotalDrift, TrueRank, Drift, Halved;
    TrueRankNone(b);
    match a
    case Halving(h, keepEven) =>
      HalvedEffect(s.levels, h, keepEven);
      TotalDriftPush(s.log, Compact(h, s.levels[h], keepEven), b);
    case NewLevel(_) => AddEmptyLevel(s.levels);
    case Doubling =>
    case Place(h, x, sampled) => PlaceLedger(s, h, x, sampled, b);
    case Absorb(x, w, _) => TrueRankPush(s.absorbed, Weighted(x, w), b);
    case Restart =>
      TotalDriftPush(s.log, Sample(s.absorbed, s.handed), b);
      DriftOf(s.absorbed, s.handed, b);
    case Drop(x, lost) =>
      TotalDriftPush(s.log, Lost(x, lost), b);
      DriftOfLost(x, lost, b);
  }

  lemma TrueRankNone(b: Bound)
    ensures TrueRank([], b) == 0
  {
  }

  lemma DriftOf(absorbed: seq<Weighted>, handed: seq<Weighted>, b: Bound)
    ensures Drift(Sample(absorbed, handed), b) == TrueRank(handed, b) - TrueRank(absorbed, b)
  {
  }

  lemma DriftOfLost(x: int, lost: nat, b: Bound)
    ensures Drift(Lost(x, lost), b) == -b.Of(x, lost)
  {
  }

  /** The ledger of any trace is the true rank of what it took in, at every bound at once. */
  lemma {:induction false} Ledger(t: seq<Action>, b: Bound)
    requires Replay(t).Some?
    ensures LedgerOf(Replay(t).value, b) == TrueRank(Taken(t), b)
  {
    hide LedgerOf, Allowed, Apply, RankTaken, Taken;
    if t == [] {
      LedgerStart(b);
    } else {
      var u, a := t[..|t| - 1], t[|t| - 1];
      assert t == u + [a];
      Ledger(u, b);
      ActionLedger(Replay(u).value, a, b);
      TakenNext(u, a, b);
    }
  }

  lemma LedgerStart(b: Bound)
    ensures LedgerOf(Book([], None, [], [], []), b) == 0 && TrueRank(Taken([]), b) == 0
  {
  }

  lemma {:induction false} BookedNext(s: Book, a: Action)
    requires SamplerBooked(s) && Allowed(s, a)
    ensures SamplerBooked(Apply(s, a))
  {
    hide Halved;
    if a.Absorb? { TrueRankPush(s.absorbed, Weighted(a.item, a.weight), Top); }
  }

  lemma {:induction false} Booked(t: seq<Action>)
    requires Replay(t).Some?
    ensures SamplerBooked(Replay(t).value)
  {
    hide SamplerBooked, Allowed, Apply;
    if t == [] {
      BookedStart();
    } else {
      Booked(t[..|t| - 1]);
      BookedNext(Replay(t[..|t| - 1]).value, t[|t| - 1]);
    }
  }

  lemma BookedStart()
    ensures SamplerBooked(Book([], None, [], [], []))
  {
  }

  // ---------- nothing is stored that was not taken in ----------

  /** Values held by a level or by the sampler. */
  ghost function StoredIn(s: Book): set<int> {
    Items(s.levels) + if s.sampler.Some? && s.sampler.value.itemWeight > 0 then {s.sampler.value.sampledItem} else {}
  }

  ghost predicate Contains(s: seq<Weighted>, v: int) { exists i :: 0 <= i < |s| && s[i].value == v }

  ghost function NewValues(a: Action): set<int> {
    match a
    case Place(_, x, sampled) => if sampled then {} else {x}
    case Absorb(x, _, _) => {x}
    case _ => {}
  }

  lemma {:induction false} StoredNext(s: Book, a: Action)
    requires Allowed(s, a)
    ensures StoredIn(Apply(s, a)) <= StoredIn(s) + NewValues(a)
  {
    hide Items, Halved, Push;
    match a
    case Halving(h, keepEven) => HalvedEffect(s.levels, h, keepEven);
    case NewLevel(_) => AddEmptyLevel(s.levels);
    case Place(h, x, _) => PushEffect(s.levels, h, x);
    case _ =>
  }

  lemma {:induction false} ContainsNext(t: seq<Action>, a: Action, x: int)
    ensures Contains(Taken(t), x) || x in NewValues(a) ==> Contains(Taken(t + [a]), x)
  {
    assert (t + [a])[..|t|] == t;
    var all := Taken(t + [a]);
    assert Taken(t) <= all;
    if Contains(Taken(t), x) {
      var i :| 0 <= i < |Taken(t)| && Taken(t)[i].value == x;
      assert all[i].value == x;
    }
    if x in NewValues(a) { assert all[|all| - 1].value == x; }
  }

  lemma {:induction false} Provenance(t: seq<Action>, x: int)
    requires Replay(t).Some? && x in StoredIn(Replay(t).value)
    ensures Contains(Taken(t), x)
  {
    hide Items, Allowed, Apply, Taken, Contains, NewValues, StoredIn;
    if t == [] {
      StoredStart();
    } else {
      var u, a := t[..|t| - 1], t[|t| - 1];
      assert t == u + [a];
      StoredNext(Replay(u).value, a);
      ContainsNext(u, a, x);
      if x in StoredIn(Replay(u).value) { Provenance(u, x); }
    }
  }

  lemma StoredStart()
    ensures StoredIn(Book([], None, [], [], [])) == {}
  {
  }

  // ---------- compactions leave the sampler's books alone ----------

  ghost predicate OnlyCompactions(t: seq<Action>) { forall i :: 0 <= i < |t| ==> IsCompaction(t[i]) }

  lemma {:induction false} CompactionsTakeNothing(t: seq<Action>)
    requires OnlyCompactions(t)
    ensures Taken(t) == [] && Drops(t) == []
  {
    if t != [] { CompactionsTakeNothing(t[..|t| - 1]); }
  }

  // ---------- what was done besides compactions ----------

  function Deeds(t: seq<Action>): seq<Action> {
    if t == [] then [] else Deeds(t[..|t| - 1]) + if IsCompaction(t[|t| - 1]) then [] else [t[|t| - 1]]
  }

  lemma {:induction false} DeedsConcat(s: seq<Action>, t: seq<Action>)
    ensures Deeds(s + t) == Deeds(s) + Deeds(t)
  {
    if t == [] {
      assert s + t == s;
    } else {
      assert (s + t)[..|s + t| - 1] == s + t[..|t| - 1];
      DeedsConcat(s, t[..|t| - 1]);
    }
  }

  lemma {:induction false} CompactionsDoNothing(t: seq<Action>)
    requires OnlyCompactions(t)
    ensures Deeds(t) == []
  {
    if t != [] { CompactionsDoNothing(t[..|t| - 1]); }
  }

  /** One item for every set bit of the weight, from a level upwards, and the levels from `n` on
      that are missing for it. */
  function BitPlaces(value: int, weight: nat, level: nat, sampled: bool, n: nat): seq<Action> {
    if weight == 0 then []
    else (if level >= n then [NewLevel(true)] else [])
         + (if weight % 2 != 0 then [Place(level, value, sampled)] else [])
         + BitPlaces(value, weight / 2, level + 1, sampled, n)
  }
}
