/** The predicates of a config (initConditions in
    statsd/src/metrics/parsing_utils/metrics_manager_util.cpp): which of them are kept, what
    their trackers and the first cache look like, and the query on top. */
module ConditionConfig {
  import opened Options
  import opened ConditionStates
  import opened ConditionGraph

  /** A predicate as the config lists it; `creatable` says whether a tracker can be made of it. */
  datatype Declared = Declared(id: Id, contents: Predicate, creatable: bool)

  type Config = seq<Declared>

  // ---------- what is kept ----------

  /** The first usable copy of every predicate id. */
  function AllConditions(config: Config): Graph {
    if config == [] then map[] else
      var d, g := config[|config| - 1], AllConditions(config[..|config| - 1]);
      if d.id in g || !d.creatable then g else g[d.id := d.contents]
  }

  /** The ids that are refused while the list is read. */
  function Refused(config: Config): set<Id> {
    if config == [] then {} else
      var d, refused := config[|config| - 1], Refused(config[..|config| - 1]);
      if d.id in AllConditions(config[..|config| - 1]) || !d.creatable then refused + {d.id} else refused
  }

  ghost predicate Lists(config: Config, id: Id) { exists i :: 0 <= i < |config| && config[i].id == id }

  ghost predicate Repeated(config: Config, id: Id) {
    exists i, j :: 0 <= i < j < |config| && config[i].id == id && config[j].id == id
  }

  /** The valid predicates of a config, which are kept although others may not be. */
  ghost function Kept(config: Config): Graph {
    var g := AllConditions(config);
    map id | id in g && AllPathsGood(g, id, {}) && id !in Refused(config) :: g[id]
  }

  /** No kept predicate has a child whose id the config lists twice. */
  ghost predicate NoRepeatedChild(config: Config) {
    forall id, c :: id in Kept(config) && c in Children(Kept(config), id) ==> !Repeated(config, c)
  }

  lemma {:induction false} RepeatedSplit(config: Config, id: Id)
    requires config != []
    ensures var (init, last) := (config[..|config| - 1], config[|config| - 1].id);
            && (Repeated(config, id) <==> Repeated(init, id) || (id == last && Lists(init, id)))
            && (Lists(config, id) <==> Lists(init, id) || id == last)
  {
    var init, last := config[..|config| - 1], config[|config| - 1].id;
    assert forall i :: 0 <= i < |init| ==> init[i] == config[i];
    if id == last && Lists(init, id) {
      var i :| 0 <= i < |init| && init[i].id == id;
      assert config[i].id == id && config[|config| - 1].id == id;
    }
  }

  /** An id is listed if and only if some copy was taken or refused; of a taken id a copy was
      refused if and only if it is listed twice. */
  lemma {:induction false} RefusedIffRepeated(config: Config, id: Id)
    ensures Lists(config, id) <==> id in AllConditions(config) || id in Refused(config)
    ensures id in AllConditions(config) ==> (id in Refused(config) <==> Repeated(config, id))
  {
    if config != [] {
      RefusedIffRepeated(config[..|config| - 1], id);
      RepeatedSplit(config, id);
    }
  }

  /** The kept predicates form a valid graph if and only if none of them has a repeated id among
      its children: the check looks a child up among the first copies, where a repeated one is
      still found. */
  lemma {:induction false} KeptIsValidIff(config: Config)
    ensures (forall id :: id in Kept(config) ==> AllPathsGood(Kept(config), id, {})) <==> NoRepeatedChild(config)
  {
    var g, kept := AllConditions(config), Kept(config);
    if forall id :: id in kept ==> AllPathsGood(kept, id, {}) {
      forall id, c | id in kept && c in Children(kept, id) ensures !Repeated(config, c) {
        ChildIsValid(kept, id, c);
        RefusedIffRepeated(config, c);
      }
    }
    if NoRepeatedChild(config) {
      forall id, c | id in kept && c in Children(kept, id) ensures c in kept { KeptChild(config, id, c); }
      assert ClosedPart(kept, g);
      forall id | id in kept ensures AllPathsGood(kept, id, {}) { PartIsValid(kept, g, id); }
    }
  }

  /** A child of a kept predicate is kept if and only if its id is not repeated. */
  lemma {:induction false} KeptChild(config: Config, id: Id, c: Id)
    requires id in Kept(config) && c in Children(Kept(config), id)
    ensures c in Kept(config) <==> !Repeated(config, c)
  {
    ChildIsValid(AllConditions(config), id, c);
    RefusedIffRepeated(config, c);
  }

  /** Two copies of a simple predicate and a combination over it: the combination is kept, its
      child is not, so the child has no index. */
  lemma {:induction false} RepeatedChildIsDropped(c: Id, p: Id, state: Evaluated, config: Config)
    requires c != p
    requires config == [Declared(c, Simple(state), true), Declared(c, Simple(state), true),
                        Declared(p, Combination(And, [c]), true)]
    ensures p in Kept(config) && c in Children(Kept(config), p) && c !in Kept(config)
    ensures !NoRepeatedChild(config)
  {
    var one, two := config[..1], config[..2];
    assert one[..0] == [] && two[..1] == one && config[..2] == two;
    assert AllConditions(one[..0]) == map[] && Refused(one[..0]) == {};
    var g := AllConditions(config);
    assert AllConditions(one) == map[c := Simple(state)] && Refused(one) == {};
    assert AllConditions(two) == AllConditions(one) && Refused(two) == {c};
    assert g == map[c := Simple(state), p := Combination(And, [c])] && Refused(config) == {c};
    assert Checks(g, c, {p});
    assert Checks(g, p, {});
    ChecksIffGood(g, p, {});
    assert config[0].id == c && config[1].id == c && Repeated(config, c);
    assert p in Kept(config) && c in Children(Kept(config), p);
  }

  // ---------- the selection ----------

  /** First loop: the trackers by id, and the ids refused. */
  method ReadPredicates(config: Config) returns (g: Graph, invalid: set<Id>, allValid: bool)
    ensures g == AllConditions(config) && invalid == Refused(config) && allValid == (invalid == {})
  {
    g, invalid, allValid := map[], {}, true;
    for i := 0 to |config|
      invariant g == AllConditions(config[..i]) && invalid == Refused(config[..i]) && allValid == (invalid == {})
    {
      assert config[..i + 1][..i] == config[..i];
      var d := config[i];
      if d.id in g || !d.creatable {
        allValid := false;
        invalid := invalid + {d.id};
        assert d.id in invalid;
      } else {
        g := g[d.id := d.contents];
      }
    }
    assert config[..|config|] == config;
  }

  /** Second loop: the ids whose tracker is not valid are added, in whatever order. */
  method CheckAll(g: Graph, refused: set<Id>) returns (invalid: set<Id>, allValid: bool)
    ensures forall id :: id in invalid <==> id in refused || (id in g && !AllPathsGood(g, id, {}))
    ensures allValid <==> forall id :: id in g ==> AllPathsGood(g, id, {})
  {
    invalid, allValid := refused, true;
    var todo := g.Items;
    while todo != {}
      invariant todo <= g.Items
      invariant forall id :: id in invalid <==>
                  id in refused || (id in g && (id, g[id]) !in todo && !AllPathsGood(g, id, {}))
      invariant allValid <==> forall id :: id in g && (id, g[id]) !in todo ==> AllPathsGood(g, id, {})
      decreases |todo|
    {
      var item :| item in todo;
      var id := item.0;
      var reason, _ := IsTrackerValid(g, id, {});
      if reason.Some? {
        allValid := false;
        invalid := invalid + {id};
      }
      todo := todo - {item};
    }
  }

  /** The listed ids that are in `s`, in order. */
  function Chosen(config: Config, s: set<Id>): seq<Id> {
    if config == [] then [] else
      var id, rest := config[|config| - 1].id, Chosen(config[..|config| - 1], s);
      if id in s then rest + [id] else rest
  }

  lemma {:induction false} ChosenDistinct(config: Config, s: set<Id>)
    requires forall id :: id in s ==> !Repeated(config, id)
    ensures Distinct(Chosen(config, s))
    ensures forall id :: id in Chosen(config, s) <==> id in s && Lists(config, id)
  {
    if config != [] {
      var init := config[..|config| - 1];
      forall id ensures Repeated(init, id) ==> Repeated(config, id) { RepeatedSplit(config, id); }
      ChosenDistinct(init, s);
      forall id ensures id in Chosen(config, s) <==> id in s && Lists(config, id) { RepeatedSplit(config, id); }
      RepeatedSplit(config, config[|config| - 1].id);
    }
  }

  lemma {:induction false} KeptOnce(config: Config, id: Id)
    requires id in Kept(config)
    ensures Lists(config, id) && !Repeated(config, id)
  {
    RefusedIffRepeated(config, id);
  }

  /** `index` is the inverse of `ids`. */
  ghost predicate Indexed(ids: seq<Id>, index: map<Id, nat>) {
    && (forall i :: 0 <= i < |ids| ==> ids[i] in index && index[ids[i]] == i)
    && forall id :: id in index ==> index[id] < |ids| && ids[index[id]] == id
  }

  /** Third loop: the ids that are left, in the order of the config, and their indices. */
  method Select(config: Config, invalid: set<Id>, ghost s: set<Id>) returns (ids: seq<Id>, index: map<Id, nat>)
    requires forall d :: d in config ==> (d.id in s <==> d.id !in invalid)
    requires forall id :: id in s ==> !Repeated(config, id)
    ensures ids == Chosen(config, s) && Indexed(ids, index)
  {
    hide Repeated, Lists;
    ids, index := [], map[];
    for i := 0 to |config|
      invariant ids == Chosen(config[..i], s) && Indexed(ids, index)
    {
      assert config[..i + 1][..i] == config[..i];
      if config[i].id !in invalid {
        assert config[i] in config;
        ChosenSoFar(config, i, s);
        index := index[config[i].id := |ids|];
        ids := ids + [config[i].id];
      } else {
        assert config[i] in config;
      }
    }
    assert config[..|config|] == config;
  }

  lemma {:induction false} ChosenSoFar(config: Config, i: nat, s: set<Id>)
    requires i < |config| && config[i].id in s && forall id :: id in s ==> !Repeated(config, id)
    ensures config[i].id !in Chosen(config[..i], s)
  {
    assert forall a :: 0 <= a < i ==> config[..i][a] == config[a];
    ChosenDistinct(config[..i], s);
  }

  /** initConditions up to the vector of trackers: what is in it is exactly what is kept, in the
      order of the config; all is well if and only if nothing was dropped. */
  method SelectConditions(config: Config) returns (g: Graph, ids: seq<Id>, index: map<Id, nat>, allValid: bool)
    ensures g == AllConditions(config) && ids == Chosen(config, Kept(config).Keys)
    ensures Distinct(ids) && Indexed(ids, index) && forall id :: id in ids <==> id in Kept(config)
    ensures allValid <==> forall d :: d in config ==> d.id in Kept(config)
  {
    hide AllPathsGood, Repeated, Lists;
    var refused, read;
    g, refused, read := ReadPredicates(config);
    var invalid, checked := CheckAll(g, refused);
    ghost var kept := Kept(config);
    forall d | d in config ensures d.id in kept <==> d.id !in invalid { Listed(config, d); }
    forall id | id in kept ensures Lists(config, id) && !Repeated(config, id) { KeptOnce(config, id); }
    ids, index := Select(config, invalid, kept.Keys);
    ChosenDistinct(config, kept.Keys);
    allValid := read && checked;
    AllKept(config);
  }

  lemma {:induction false} Listed(config: Config, d: Declared)
    requires d in config
    ensures d.id in AllConditions(config) || d.id in Refused(config)
  {
    RefusedIffRepeated(config, d.id);
    var i :| 0 <= i < |config| && config[i] == d;
    assert Lists(config, d.id);
  }

  /** Every listed id is kept exactly if nothing was refused and every tracker is valid. */
  lemma {:induction false} AllKept(config: Config)
    ensures (forall d :: d in config ==> d.id in Kept(config)) <==>
            && Refused(config) == {}
            && forall id :: id in AllConditions(config) ==> AllPathsGood(AllConditions(config), id, {})
  {
    hide AllPathsGood;
    forall id | id in AllConditions(config) || id in Refused(config) ensures exists d :: d in config && d.id == id {
      RefusedIffRepeated(config, id);
      var i :| 0 <= i < |config| && config[i].id == id;
      assert config[i] in config;
    }
    forall d | d in config ensures d.id in AllConditions(config) || d.id in Refused(config) { Listed(config, d); }
  }

  // ---------- the trackers ----------

  /** The vector of ids lists the graph, and `index` finds their places. */
  ghost predicate Placed(kept: Graph, ids: seq<Id>, index: map<Id, nat>) {
    && Indexed(ids, index) && index.Keys == kept.Keys
    && forall i :: 0 <= i < |ids| ==> ids[i] in kept
  }

  /** `places` are the places of `cs`. */
  ghost predicate Resolved(cs: seq<Id>, places: seq<nat>, index: map<Id, nat>) {
    |places| == |cs| && forall k :: 0 <= k < |cs| ==> cs[k] in index && index[cs[k]] == places[k]
  }

  /** Trackers in `done` know the places of their children, others know none; those in `open`
      are being initialised. */
  ghost predicate Wired(kept: Graph, ids: seq<Id>, index: map<Id, nat>, children: seq<seq<nat>>, done: set<Id>,
                        open: set<nat>) {
    && |children| == |ids|
    && (forall i :: i in open ==> i < |ids| && ids[i] !in done)
    && forall i :: 0 <= i < |ids| && i !in open ==>
         if ids[i] in done then Resolved(Children(kept, ids[i]), children[i], index) else children[i] == []
  }

  /** The graph with its rank and its places, and the ancestors of what is initialised next. */
  ghost predicate Ready(kept: Graph, rank: map<Id, nat>, g: Graph, ids: seq<Id>, index: map<Id, nat>, open: set<nat>,
                        i: nat) {
    && Ranked(kept, rank) && Placed(kept, ids, index) && ClosedPart(kept, g) && i < |ids|
    && forall o :: o in open ==> o < |ids| && rank[ids[o]] > rank[ids[i]]
  }

  /** Evaluated entries stay. */
  ghost predicate Stays(was: seq<ConditionState>, cache: seq<ConditionState>) {
    |cache| == |was| && forall j :: 0 <= j < |was| && was[j] != NotEvaluated ==> cache[j] == was[j]
  }

  /** The first `k` places have their plain values in the cache. */
  ghost predicate Filled(kept: Graph, rank: map<Id, nat>, ids: seq<Id>, cache: seq<ConditionState>, places: seq<nat>,
                         k: nat)
    requires Ranked(kept, rank) && |cache| == |ids| && forall i :: 0 <= i < |ids| ==> ids[i] in kept
  {
    k <= |places| && forall j :: 0 <= j < k ==>
      places[j] < |ids| && cache[places[j]] == Eval(kept, rank, ids[places[j]]) != NotEvaluated
  }

  lemma {:induction false} PlaceOf(kept: Graph, rank: map<Id, nat>, g: Graph, ids: seq<Id>, index: map<Id, nat>,
                                   open: set<nat>, i: nat, c: Id)
    requires Ready(kept, rank, g, ids, index, open, i) && c in Children(kept, ids[i])
    ensures c in index && index[c] < |ids| && ids[index[c]] == c && index[c] != i && 0 <= rank[c] < rank[ids[i]]
    ensures Ready(kept, rank, g, ids, index, open, index[c]) && Ready(kept, rank, g, ids, index, open + {i}, index[c])
  {
  }

  lemma {:induction false} CombinePlaces(kept: Graph, rank: map<Id, nat>, g: Graph, ids: seq<Id>, index: map<Id, nat>,
                                         open: set<nat>, i: nat, places: seq<nat>, cache: seq<ConditionState>)
    requires Ready(kept, rank, g, ids, index, open, i) && kept[ids[i]].Combination? && |cache| == |ids|
    requires Resolved(kept[ids[i]].children, places, index) && Filled(kept, rank, ids, cache, places, |places|)
    ensures Combine(kept[ids[i]].op, States(places, cache)) == Eval(kept, rank, ids[i]) != NotEvaluated
  {
    hide Combine;
    var cs := kept[ids[i]].children;
    forall k | 0 <= k < |cs| ensures cache[places[k]] == Eval(kept, rank, cs[k]) {
      PlaceOf(kept, rank, g, ids, index, open, i, cs[k]);
    }
    assert States(places, cache) == EvalAll(kept, rank, ids[i], cs);
    CombineEvaluates(kept[ids[i]].op, States(places, cache));
  }

  lemma {:induction false} FilledStays(kept: Graph, rank: map<Id, nat>, ids: seq<Id>, was: seq<ConditionState>,
                                       cache: seq<ConditionState>, places: seq<nat>, k: nat)
    requires Ranked(kept, rank) && |was| == |ids| && (forall i :: 0 <= i < |ids| ==> ids[i] in kept)
    requires Filled(kept, rank, ids, was, places, k) && Stays(was, cache)
    ensures Filled(kept, rank, ids, cache, places, k)
  {
    hide Eval;
  }

  lemma {:induction false} FilledNone(kept: Graph, rank: map<Id, nat>, ids: seq<Id>, cache: seq<ConditionState>)
    requires Ranked(kept, rank) && |cache| == |ids| && forall i :: 0 <= i < |ids| ==> ids[i] in kept
    ensures Filled(kept, rank, ids, cache, [], 0)
  {
  }

  lemma {:induction false} FilledMore(kept: Graph, rank: map<Id, nat>, ids: seq<Id>, cache: seq<ConditionState>,
                                      places: seq<nat>, c: nat)
    requires Ranked(kept, rank) && |cache| == |ids| && (forall i :: 0 <= i < |ids| ==> ids[i] in kept)
    requires Filled(kept, rank, ids, cache, places, |places|)
    requires c < |ids| && cache[c] == Eval(kept, rank, ids[c]) != NotEvaluated
    ensures Filled(kept, rank, ids, cache, places + [c], |places| + 1)
  {
    hide Eval;
  }

  lemma {:induction false} ResolvedMore(cs: seq<Id>, places: seq<nat>, index: map<Id, nat>, k: nat)
    requires k < |cs| && Resolved(cs[..k], places, index) && cs[k] in index
    ensures Resolved(cs[..k + 1], places + [index[cs[k]]], index)
  {
    assert cs[..k + 1] == cs[..k] + [cs[k]];
  }

  lemma {:induction false} OpenWired(kept: Graph, rank: map<Id, nat>, g: Graph, ids: seq<Id>, index: map<Id, nat>,
                                     children: seq<seq<nat>>, done: set<Id>, open: set<nat>, i: nat)
    requires Ready(kept, rank, g, ids, index, open, i) && Wired(kept, ids, index, children, done, open)
             && ids[i] !in done
    ensures Wired(kept, ids, index, children, done, open + {i}) && |children| == |ids| && children[i] == []
    ensures Resolved([], [], index)
  {
  }

  lemma {:induction false} PushWired(kept: Graph, ids: seq<Id>, index: map<Id, nat>, children: seq<seq<nat>>,
                                     done: set<Id>, open: set<nat>, i: nat, places: seq<nat>)
    requires Wired(kept, ids, index, children, done, open) && i in open && i < |children|
    ensures Wired(kept, ids, index, children[i := places], done, open)
  {
  }

  lemma {:induction false} CloseWired(kept: Graph, rank: map<Id, nat>, g: Graph, ids: seq<Id>, index: map<Id, nat>,
                                      children: seq<seq<nat>>, done: set<Id>, open: set<nat>, i: nat)
    requires Ready(kept, rank, g, ids, index, open, i) && Wired(kept, ids, index, children, done, open + {i})
    requires i < |children| && Resolved(Children(kept, ids[i]), children[i], index)
    ensures Wired(kept, ids, index, children, done + {ids[i]}, open)
  {
    forall j | 0 <= j < |ids| && j != i ensures ids[j] != ids[i] { assert index[ids[j]] == j && index[ids[i]] == i; }
  }

  /** init of the tracker at `i`: descendants first, each wired once, and the cache filled with
      plain values. */
  method Init(i: nat, g: Graph, ids: seq<Id>, index: map<Id, nat>, children: array<seq<nat>>,
              initialized: set<Id>, cache: array<ConditionState>,
              ghost kept: Graph, ghost rank: map<Id, nat>, ghost open: set<nat>) returns (done: set<Id>)
    requires Ready(kept, rank, g, ids, index, open, i)
    requires Wired(kept, ids, index, children[..], initialized, open) && CacheOk(kept, rank, ids, cache[..])
    requires cache.Length == |ids|
    modifies children, cache
    ensures Wired(kept, ids, index, children[..], done, open) && CacheOk(kept, rank, ids, cache[..])
    ensures initialized + {ids[i]} <= done && cache[i] == Eval(kept, rank, ids[i]) != NotEvaluated
    ensures Stays(old(cache[..]), cache[..]) && forall o :: o in open ==> children[o] == old(children[o])
    decreases rank[ids[i]], 1
  {
    hide Eval, CacheOk, Combine, Ranked, States;
    var id := ids[i];
    assert i !in open;
    CacheEntry(kept, rank, ids, cache[..], i);
    if g[id].Simple? {
      done := initialized + {id};
      SimplePlain(kept, rank, id);
      if cache[i] == NotEvaluated {
        CacheStore(kept, rank, ids, cache[..], i);
        cache[i] := g[id].state;
      }
    } else {
      if id in initialized {
        done := InitAgain(i, g, ids, index, children, initialized, cache, kept, rank, open);
      } else {
        done := InitFirst(i, g, ids, index, children, initialized, cache, kept, rank, open);
      }
      CombinePlaces(kept, rank, g, ids, index, open, i, children[i], cache[..]);
      var r := EvaluateCombination(children[i], g[id].op, cache[..]);
      CacheEntry(kept, rank, ids, cache[..], i);
      CacheStore(kept, rank, ids, cache[..], i);
      cache[i] := r;
    }
  }

  /** The children that have no value yet. */
  method InitAgain(i: nat, g: Graph, ids: seq<Id>, index: map<Id, nat>, children: array<seq<nat>>,
                   initialized: set<Id>, cache: array<ConditionState>,
                   ghost kept: Graph, ghost rank: map<Id, nat>, ghost open: set<nat>) returns (done: set<Id>)
    requires Ready(kept, rank, g, ids, index, open, i) && ids[i] in initialized && kept[ids[i]].Combination?
    requires Wired(kept, ids, index, children[..], initialized, open) && CacheOk(kept, rank, ids, cache[..])
    requires cache.Length == |ids|
    modifies children, cache
    ensures Wired(kept, ids, index, children[..], done, open) && CacheOk(kept, rank, ids, cache[..])
    ensures initialized <= done && Filled(kept, rank, ids, cache[..], children[i], |children[i]|)
    ensures Stays(old(cache[..]), cache[..]) && forall o :: o in open ==> children[o] == old(children[o])
    decreases rank[ids[i]], 0
  {
    hide Eval, CacheOk, Ranked;
    done := initialized;
    var places := children[i];
    assert Resolved(kept[ids[i]].children, places, index);
    for k := 0 to |places|
      invariant children[i] == places && initialized <= done
      invariant Wired(kept, ids, index, children[..], done, open) && CacheOk(kept, rank, ids, cache[..])
      invariant Filled(kept, rank, ids, cache[..], places, k)
      invariant Stays(old(cache[..]), cache[..]) && forall o :: o in open ==> children[o] == old(children[o])
    {
      PlaceOf(kept, rank, g, ids, index, open, i, kept[ids[i]].children[k]);
      CacheEntry(kept, rank, ids, cache[..], places[k]);
      ghost var was := cache[..];
      if cache[places[k]] == NotEvaluated {
        done := Init(places[k], g, ids, index, children, done, cache, kept, rank, open);
      }
      FilledStays(kept, rank, ids, was, cache[..], places, k);
    }
  }

  /** All children, whose places become known. */
  method InitFirst(i: nat, g: Graph, ids: seq<Id>, index: map<Id, nat>, children: array<seq<nat>>,
                   initialized: set<Id>, cache: array<ConditionState>,
                   ghost kept: Graph, ghost rank: map<Id, nat>, ghost open: set<nat>) returns (done: set<Id>)
    requires Ready(kept, rank, g, ids, index, open, i) && ids[i] !in initialized && kept[ids[i]].Combination?
    requires Wired(kept, ids, index, children[..], initialized, open) && CacheOk(kept, rank, ids, cache[..])
    requires cache.Length == |ids|
    modifies children, cache
    ensures Wired(kept, ids, index, children[..], done, open) && CacheOk(kept, rank, ids, cache[..])
    ensures initialized + {ids[i]} <= done && Filled(kept, rank, ids, cache[..], children[i], |children[i]|)
    ensures Stays(old(cache[..]), cache[..]) && forall o :: o in open ==> children[o] == old(children[o])
    decreases rank[ids[i]], 0
  {
    hide Eval, CacheOk, Ranked, Wired, Filled, Resolved;
    done := initialized;
    OpenWired(kept, rank, g, ids, index, children[..], done, open, i);
    assert Filled(kept, rank, ids, cache[..], [], 0) by { FilledNone(kept, rank, ids, cache[..]); }
    InPart(kept, rank, g, ids, index, open, i);
    var cs := g[ids[i]].children;
    for k := 0 to |cs|
      invariant initialized <= done && i < children.Length && |children[i]| == k
                && Resolved(cs[..k], children[i], index)
      invariant Wired(kept, ids, index, children[..], done, open + {i}) && CacheOk(kept, rank, ids, cache[..])
      invariant Filled(kept, rank, ids, cache[..], children[i], k)
      invariant Stays(old(cache[..]), cache[..]) && forall o :: o in open ==> children[o] == old(children[o])
    {
      PlaceOf(kept, rank, g, ids, index, open, i, cs[k]);
      var c := index[cs[k]];
      ghost var was, places := cache[..], children[i];
      done := Init(c, g, ids, index, children, done, cache, kept, rank, open + {i});
      FilledStays(kept, rank, ids, was, cache[..], places, k);
      FilledMore(kept, rank, ids, cache[..], places, c);
      ResolvedMore(cs, places, index, k);
      label pushed:
      PushWired(kept, ids, index, children[..], done, open + {i}, i, places + [c]);
      children[i] := children[i] + [c];
      assert children[..] == old@pushed(children[..])[i := places + [c]];
    }
    assert cs[..|cs|] == cs;
    CloseWired(kept, rank, g, ids, index, children[..], done, open, i);
    done := done + {ids[i]};
  }

  lemma InPart(kept: Graph, rank: map<Id, nat>, g: Graph, ids: seq<Id>, index: map<Id, nat>, open: set<nat>, i: nat)
    requires Ready(kept, rank, g, ids, index, open, i)
    ensures ids[i] in kept && ids[i] in g && g[ids[i]] == kept[ids[i]]
  {
    var id := ids[i];
    assert id in kept;
    assert id in g && kept[id] == g[id];
  }

  lemma SimplePlain(kept: Graph, rank: map<Id, nat>, id: Id)
    requires Ranked(kept, rank) && id in kept && kept[id].Simple?
    ensures Eval(kept, rank, id) == kept[id].state
  {
  }

  // ---------- the whole, and the query ----------

  lemma {:induction false} SelectedArePlaced(config: Config, g: Graph, ids: seq<Id>, index: map<Id, nat>)
    requires Indexed(ids, index) && g == AllConditions(config) && forall id :: id in ids <==> id in Kept(config)
    requires NoRepeatedChild(config)
    ensures Placed(Kept(config), ids, index) && ClosedPart(Kept(config), g)
  {
    hide AllPathsGood, Repeated, Refused;
    var kept := Kept(config);
    forall id ensures id in index <==> id in kept { assert id in ids <==> id in kept; }
    forall id, c | id in kept && c in Children(kept, id) ensures c in kept { KeptChild(config, id, c); }
  }

  /** The first values of the trackers that are kept, and where their children are. */
  method InitTrackers(g: Graph, ids: seq<Id>, index: map<Id, nat>, ghost kept: Graph, ghost rank: map<Id, nat>)
    returns (ts: seq<Tracker>, initial: seq<ConditionState>)
    requires Ranked(kept, rank) && Placed(kept, ids, index) && ClosedPart(kept, g)
    ensures Built(kept, ids, ts)
    ensures |initial| == |ids| && forall i :: 0 <= i < |ids| ==> initial[i] == Eval(kept, rank, ids[i])
  {
    hide Eval, CacheOk, Ranked;
    var cache := new ConditionState[|ids|](_ => NotEvaluated);
    var children := new seq<nat>[|ids|](_ => []);
    FreshCache(kept, rank, ids, cache[..]);
    var done: set<Id> := {};
    for i := 0 to |ids|
      invariant Wired(kept, ids, index, children[..], done, {}) && CacheOk(kept, rank, ids, cache[..])
      invariant forall j :: 0 <= j < i ==> ids[j] in done && cache[j] == Eval(kept, rank, ids[j]) != NotEvaluated
    {
      ghost var was := cache[..];
      done := Init(i, g, ids, index, children, done, cache, kept, rank, {});
      assert forall j :: 0 <= j < i ==> was[j] != NotEvaluated;
    }
    initial := cache[..];
    ts := MakeTrackers(g, ids, index, children, done, kept);
  }

  lemma {:induction false} PlacesFound(kept: Graph, ids: seq<Id>, index: map<Id, nat>, id: Id, places: seq<nat>)
    requires Placed(kept, ids, index) && id in kept && Resolved(Children(kept, id), places, index)
    ensures forall k :: 0 <= k < |places| ==> places[k] < |ids| && ids[places[k]] == Children(kept, id)[k]
  {
    forall k | 0 <= k < |places| ensures places[k] < |ids| && ids[places[k]] == Children(kept, id)[k] {
      var c := Children(kept, id)[k];
      assert index[c] == places[k];
    }
  }

  method MakeTrackers(g: Graph, ids: seq<Id>, index: map<Id, nat>, children: array<seq<nat>>, ghost done: set<Id>,
                      ghost kept: Graph) returns (ts: seq<Tracker>)
    requires Placed(kept, ids, index) && ClosedPart(kept, g) && Wired(kept, ids, index, children[..], done, {})
    requires forall i :: 0 <= i < |ids| ==> ids[i] in done
    ensures Built(kept, ids, ts)
  {
    ts := [];
    for i := 0 to |ids|
      invariant |ts| == i && forall j :: 0 <= j < i ==> IsBuilt(kept, ids, ts[j], j)
    {
      assert ids[i] in kept;
      var t :=
        match g[ids[i]]
        case Simple(state) => SimpleTracker(state)
        case Combination(op, _) => CombinationTracker(op, children[i]);
      assert Resolved(Children(kept, ids[i]), children[i], index);
      PlacesFound(kept, ids, index, ids[i], children[i]);
      ts := ts + [t];
    }
  }

  /** initConditions: if no kept predicate has a repeated child, the trackers are those of the
      kept predicates, wired by their places, and the first cache holds their plain values. */
  method InitConditions(config: Config)
    returns (ids: seq<Id>, ts: seq<Tracker>, initial: seq<ConditionState>, allValid: bool)
    requires NoRepeatedChild(config)
    ensures ids == Chosen(config, Kept(config).Keys) && Built(Kept(config), ids, ts)
    ensures exists rank :: Ranked(Kept(config), rank) && |initial| == |ids|
              && forall i :: 0 <= i < |ids| ==> initial[i] == Eval(Kept(config), rank, ids[i])
    ensures allValid <==> forall d :: d in config ==> d.id in Kept(config)
  {
    hide Eval, AllPathsGood, Ranked, Kept, NoRepeatedChild, Chosen, AllConditions;
    var g, index;
    g, ids, index, allValid := SelectConditions(config);
    SelectedArePlaced(config, g, ids, index);
    KeptIsValidIff(config);
    ghost var rank := ValidGraphHasRank(Kept(config));
    ts, initial := InitTrackers(g, ids, index, Kept(config), rank);
  }

  /** ConditionWizard::query: with a fresh cache, the memoised evaluation of a kept predicate ends
      and gives the plain value, whatever else the config drops. */
  method Query(ts: seq<Tracker>, i: nat, ghost config: Config, ghost ids: seq<Id>) returns (r: ConditionState)
    requires NoRepeatedChild(config) && Built(Kept(config), ids, ts) && i < |ts|
    ensures exists rank :: Ranked(Kept(config), rank) && r == Eval(Kept(config), rank, ids[i])
  {
    hide Eval, AllPathsGood, Ranked, Kept, NoRepeatedChild;
    KeptIsValidIff(config);
    ghost var rank := ValidGraphHasRank(Kept(config));
    var cache := new ConditionState[|ts|](_ => NotEvaluated);
    FreshCache(Kept(config), rank, ids, cache[..]);
    IsConditionMet(ts, i, cache, Kept(config), ids, rank);
    r := cache[i];
  }
}
