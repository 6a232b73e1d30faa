/** Combination predicates (statsd/src/condition/CombinationConditionTracker.cpp,
    condition_util.cpp, ConditionWizard.cpp): the validity check of the predicate graph,
    and the memoised evaluation it makes safe. */
module ConditionGraph {
  import opened Options
  import opened ConditionStates

  type Id = int

  datatype Operation = And | Or | Not | Nand | Nor | Unspecified

  /** A predicate of the config; the state of a simple one is given. */
  datatype Predicate = Simple(state: Evaluated) | Combination(op: Operation, children: seq<Id>)

  type Graph = map<Id, Predicate>

  datatype Reason = ChildNotFound | Cycle
  datatype Invalid = Invalid(reason: Reason, conditionIds: seq<Id>)

  function Children(g: Graph, id: Id): seq<Id> {
    if id in g && g[id].Combination? then g[id].children else []
  }

  // ---------- what validity means ----------

  /** A walk along children, whose last node need not exist. */
  ghost predicate IsPath(g: Graph, p: seq<Id>) {
    p != [] && forall i :: 0 <= i < |p| - 1 ==> p[i + 1] in Children(g, p[i])
  }

  ghost predicate Distinct(p: seq<Id>) {
    forall i, j :: 0 <= i < j < |p| ==> p[i] != p[j]
  }

  ghost predicate GoodPath(g: Graph, p: seq<Id>, avoid: set<Id>) {
    (forall i :: 0 <= i < |p| ==> p[i] in g && p[i] !in avoid) && Distinct(p)
  }

  /** Every reachable child exists and no walk comes back to a node, also not to `avoid`. */
  ghost predicate AllPathsGood(g: Graph, id: Id, avoid: set<Id>) {
    forall p :: IsPath(g, p) && p[0] == id ==> GoodPath(g, p, avoid)
  }

  /** The check as a recursion over the graph. */
  ghost predicate Checks(g: Graph, id: Id, stack: set<Id>)
    requires id in g && stack <= g.Keys
    decreases g.Keys - stack
  {
    g[id].Simple? ||
    (id !in stack && forall c :: c in g[id].children ==> c in g && c !in stack + {id} && Checks(g, c, stack + {id}))
  }

  lemma {:induction false} ChecksGood(g: Graph, id: Id, stack: set<Id>, p: seq<Id>)
    requires id in g && stack <= g.Keys && id !in stack && Checks(g, id, stack)
    requires IsPath(g, p) && p[0] == id
    ensures GoodPath(g, p, stack)
    decreases |p|
  {
    if |p| > 1 {
      var q := p[1..];
      assert p[0 + 1] in Children(g, p[0]);
      assert forall i :: 0 <= i < |q| ==> q[i] == p[i + 1];
      assert IsPath(g, q);
      ChecksGood(g, q[0], stack + {id}, q);
    }
  }

  lemma {:induction false} BadPath(g: Graph, id: Id, stack: set<Id>) returns (p: seq<Id>)
    requires id in g && stack <= g.Keys && id !in stack && !Checks(g, id, stack)
    ensures IsPath(g, p) && p[0] == id && !GoodPath(g, p, stack)
    decreases g.Keys - stack
  {
    var more := stack + {id};
    var c :| c in g[id].children && !(c in g && c !in more && Checks(g, c, more));
    if c !in g || c in more {
      p := [id, c];
      assert p[1] == c;
    } else {
      var q := BadPath(g, c, more);
      p := [id] + q;
      assert forall i :: 0 <= i < |q| ==> p[i + 1] == q[i];
      if GoodPath(g, p, stack) {
        assert forall i :: 0 <= i < |q| ==> q[i] in g && q[i] !in stack && q[i] != p[0];
        assert GoodPath(g, q, more);
      }
    }
  }

  /** The recursive check decides exactly whether every reachable child exists and no
      cycle is reachable. */
  lemma {:induction false} ChecksIffGood(g: Graph, id: Id, stack: set<Id>)
    requires id in g && stack <= g.Keys && id !in stack
    ensures Checks(g, id, stack) <==> AllPathsGood(g, id, stack)
  {
    hide Checks, GoodPath;
    if Checks(g, id, stack) {
      forall p | IsPath(g, p) && p[0] == id ensures GoodPath(g, p, stack) {
        ChecksGood(g, id, stack, p);
      }
    } else {
      var p := BadPath(g, id, stack);
    }
  }

  // ---------- the check ----------

  /** The chain of predicates from the defect back to the one that was asked about. */
  function Chain(r: Invalid): seq<Id> {
    if r.conditionIds == [] then []
    else if r.reason == ChildNotFound && |r.conditionIds| >= 2 then [r.conditionIds[0]] + r.conditionIds[2..]
    else r.conditionIds
  }

  /** The reported ids lead from `id` to a predicate with a missing child, or with a child
      that is an ancestor. */
  ghost predicate Explains(g: Graph, id: Id, stack: set<Id>, r: Invalid) {
    var chain := Chain(r);
    && chain != [] && chain[|chain| - 1] == id
    && (forall i :: 0 <= i < |chain| - 1 ==> chain[i] in Children(g, chain[i + 1]))
    && match r.reason
       case ChildNotFound =>
         |r.conditionIds| >= 2 && r.conditionIds[1] in Children(g, chain[0]) && r.conditionIds[1] !in g
       case Cycle => exists c :: c in Children(g, chain[0]) && (c in stack || c in chain)
  }

  lemma {:induction false} ExplainsUp(g: Graph, id: Id, child: Id, stack: set<Id>, r: Invalid)
    requires Explains(g, child, stack + {id}, r) && child in Children(g, id)
    ensures Explains(g, id, stack, r.(conditionIds := r.conditionIds + [id]))
  {
    var up := r.(conditionIds := r.conditionIds + [id]);
    assert Chain(up) == Chain(r) + [id];
    if r.reason == Cycle {
      var c :| c in Children(g, Chain(r)[0]) && (c in stack + {id} || c in Chain(r));
      assert c in Children(g, Chain(up)[0]) && (c in stack || c in Chain(up));
    }
  }

  /** isTrackerValid: walks the children with the predicates being visited on `stack`,
      which is restored on success. */
  method IsTrackerValid(g: Graph, id: Id, stack: set<Id>) returns (r: Option<Invalid>, out: set<Id>)
    requires id in g && stack <= g.Keys && id !in stack
    ensures r.None? <==> AllPathsGood(g, id, stack)
    ensures r.None? ==> out == stack
    ensures r.Some? ==> Explains(g, id, stack, r.value)
    decreases g.Keys - stack
  {
    hide AllPathsGood, Explains;
    ChecksIffGood(g, id, stack);
    out := stack;
    if g[id].Simple? {
      return None, stack;
    }
    out := out + {id};
    var children := g[id].children;
    for i := 0 to |children|
      invariant out == stack + {id}
      invariant forall j :: 0 <= j < i ==>
        children[j] in g && children[j] !in stack + {id} && Checks(g, children[j], stack + {id})
    {
      var child := children[i];
      if child !in g {
        MissingChild(g, id, stack, child);
        return Some(Invalid(ChildNotFound, [id, child])), out;
      }
      if child in out {
        CycleFound(g, id, stack, child);
        return Some(Invalid(Cycle, [id])), out;
      }
      ChecksIffGood(g, child, stack + {id});
      r, out := IsTrackerValid(g, child, out);
      if r.Some? {
        ExplainsUp(g, id, child, stack, r.value);
        return Some(r.value.(conditionIds := r.value.conditionIds + [id])), out;
      }
    }
    out := out - {id};
    r := None;
  }

  lemma {:induction false} MissingChild(g: Graph, id: Id, stack: set<Id>, child: Id)
    requires child in Children(g, id) && child !in g
    ensures Explains(g, id, stack, Invalid(ChildNotFound, [id, child]))
  {
    assert Chain(Invalid(ChildNotFound, [id, child])) == [id];
  }

  lemma {:induction false} CycleFound(g: Graph, id: Id, stack: set<Id>, child: Id)
    requires child in Children(g, id) && child in stack + {id}
    ensures Explains(g, id, stack, Invalid(Cycle, [id]))
  {
    assert Chain(Invalid(Cycle, [id])) == [id];
  }

  // ---------- a valid graph has a rank ----------

  function MaxOf(a: nat, b: nat): nat { if a < b then b else a }

  /** Length of the longest walk from `id` that the check allows. */
  ghost function Height(g: Graph, id: Id, stack: set<Id>): nat
    requires id in g && stack <= g.Keys && Checks(g, id, stack)
    decreases g.Keys - stack, 1, 0
  {
    if g[id].Simple? then 0 else 1 + Tallest(g, id, g[id].children, stack)
  }

  ghost function Tallest(g: Graph, id: Id, cs: seq<Id>, stack: set<Id>): nat
    requires id in g && stack <= g.Keys && id !in stack
    requires forall c :: c in cs ==> c in g && c !in stack + {id} && Checks(g, c, stack + {id})
    decreases g.Keys - stack, 0, |cs|
  {
    if cs == [] then 0 else MaxOf(Height(g, cs[0], stack + {id}), Tallest(g, id, cs[1..], stack))
  }

  lemma {:induction false} TallestCovers(g: Graph, id: Id, cs: seq<Id>, stack: set<Id>, c: Id)
    requires id in g && stack <= g.Keys && id !in stack && c in cs
    requires forall c :: c in cs ==> c in g && c !in stack + {id} && Checks(g, c, stack + {id})
    ensures Height(g, c, stack + {id}) <= Tallest(g, id, cs, stack)
  {
    if cs[0] != c { TallestCovers(g, id, cs[1..], stack, c); }
  }

  /** The height does not depend on what is on the stack. */
  lemma {:induction false} HeightSame(g: Graph, id: Id, s: set<Id>, t: set<Id>)
    requires id in g && s <= g.Keys && t <= g.Keys && Checks(g, id, s) && Checks(g, id, t)
    ensures Height(g, id, s) == Height(g, id, t)
    decreases g.Keys - s, 1, 0
  {
    if g[id].Combination? { TallestSame(g, id, g[id].children, s, t); }
  }

  lemma {:induction false} TallestSame(g: Graph, id: Id, cs: seq<Id>, s: set<Id>, t: set<Id>)
    requires id in g && s <= g.Keys && t <= g.Keys && id !in s && id !in t
    requires forall c :: c in cs ==> c in g && c !in s + {id} && Checks(g, c, s + {id})
    requires forall c :: c in cs ==> c !in t + {id} && Checks(g, c, t + {id})
    ensures Tallest(g, id, cs, s) == Tallest(g, id, cs, t)
    decreases g.Keys - s, 0, |cs|
  {
    if cs != [] {
      HeightSame(g, cs[0], s + {id}, t + {id});
      TallestSame(g, id, cs[1..], s, t);
    }
  }

  /** A rank certifies that evaluation along children ends. */
  ghost predicate Ranked(g: Graph, rank: map<Id, nat>) {
    && rank.Keys == g.Keys
    && forall id, c :: id in g && c in Children(g, id) ==> c in g && rank[c] < rank[id]
  }

  /** If the check passes for every predicate, the graph has a rank. */
  lemma {:induction false} ValidGraphHasRank(g: Graph) returns (rank: map<Id, nat>)
    requires forall id :: id in g ==> AllPathsGood(g, id, {})
    ensures Ranked(g, rank)
  {
    hide AllPathsGood;
    forall id | id in g ensures Checks(g, id, {}) { ChecksIffGood(g, id, {}); }
    rank := map id | id in g :: Height(g, id, {});
    forall id, c | id in g && c in Children(g, id) ensures c in g && rank[c] < rank[id] {
      TallestCovers(g, id, g[id].children, {}, c);
      HeightSame(g, c, {}, {} + {id});
    }
  }

  // ---------- part of a graph ----------

  /** A child of a valid predicate is valid. */
  lemma {:induction false} ChildIsValid(g: Graph, id: Id, c: Id)
    requires AllPathsGood(g, id, {}) && c in Children(g, id)
    ensures c in g && AllPathsGood(g, c, {})
  {
    var step := [id, c];
    assert IsPath(g, step) && step[0] == id && step[1] == c;
    assert GoodPath(g, step, {});
    forall p | IsPath(g, p) && p[0] == c ensures GoodPath(g, p, {}) {
      var q := [id] + p;
      forall i | 0 <= i < |q| - 1 ensures q[i + 1] in Children(g, q[i]) {
        if i > 0 { assert q[i] == p[i - 1] && q[i + 1] == p[i]; }
      }
      assert IsPath(g, q) && GoodPath(g, q, {});
      assert forall i :: 0 <= i < |p| ==> p[i] == q[i + 1];
    }
  }

  /** A part of a graph with all the children of its predicates. */
  ghost predicate ClosedPart(part: Graph, g: Graph) {
    && (forall id :: id in part ==> id in g && part[id] == g[id])
    && forall id, c :: id in part && c in Children(part, id) ==> c in part
  }

  lemma {:induction false} PartPath(part: Graph, g: Graph, p: seq<Id>, i: nat)
    requires ClosedPart(part, g) && IsPath(part, p) && p[0] in part && i < |p|
    ensures p[i] in part
  {
    if i > 0 {
      PartPath(part, g, p, i - 1);
      var id, c := p[i - 1], p[i - 1 + 1];
      assert id in part && c in Children(part, id);
      assert c in part;
    }
  }

  lemma {:induction false} PartIsValid(part: Graph, g: Graph, id: Id)
    requires ClosedPart(part, g) && id in part && AllPathsGood(g, id, {})
    ensures AllPathsGood(part, id, {})
  {
    forall p | IsPath(part, p) && p[0] == id ensures GoodPath(part, p, {}) {
      forall i | 0 <= i < |p| ensures p[i] in part { PartPath(part, g, p, i); }
      forall i | 0 <= i < |p| - 1 ensures p[i + 1] in Children(g, p[i]) { assert p[i + 1] in Children(part, p[i]); }
      assert IsPath(g, p) && GoodPath(g, p, {});
    }
  }

  // ---------- three-valued evaluation ----------

  /** A combination of evaluated children, read as a formula: unknown if any child is. */
  function Combine(op: Operation, states: seq<ConditionState>): ConditionState {
    if Unknown in states then Unknown
    else
      match op
      case And => if False in states then False else True
      case Or => if True in states then True else False
      case Not => if states == [] then Unknown else if states[0] == False then True else False
      case Nand => if False in states then True else False
      case Nor => if True in states then False else True
      case Unspecified => False
  }

  /** What the operations mean for evaluated children. An unknown child makes all of them unknown;
      otherwise AND says that all are true, OR that one is, NAND and NOR that it is not so, and NOT
      that the first is false. */
  lemma {:induction false} CombineMeans(states: seq<ConditionState>)
    requires NotEvaluated !in states
    ensures Combine(And, states) == True <==> forall i :: 0 <= i < |states| ==> states[i] == True
    ensures Combine(Or, states) == True <==>
            && (exists i :: 0 <= i < |states| && states[i] == True)
            && forall i :: 0 <= i < |states| ==> states[i] != Unknown
    ensures forall op :: (exists i :: 0 <= i < |states| && states[i] == Unknown) ==> Combine(op, states) == Unknown
    ensures forall op :: Combine(op, states) == Unknown ==>
              (op == Not && states == []) || exists i :: 0 <= i < |states| && states[i] == Unknown
    ensures Combine(Nand, states) == True <==> Combine(And, states) == False
    ensures Combine(Nand, states) == False <==> Combine(And, states) == True
    ensures Combine(Nor, states) == True <==> Combine(Or, states) == False
    ensures Combine(Nor, states) == False <==> Combine(Or, states) == True
    ensures Combine(Not, states) == True <==> states != [] && states[0] == False && Unknown !in states
    ensures Combine(Unspecified, states) != True
  {
    if forall i :: 0 <= i < |states| ==> states[i] == True { assert Unknown !in states && False !in states; }
    if i :| 0 <= i < |states| && states[i] == Unknown { assert Unknown in states; }
    if i :| 0 <= i < |states| && states[i] != True { assert states[i] in states; }
  }

  lemma CombineEvaluates(op: Operation, states: seq<ConditionState>)
    ensures Combine(op, states) != NotEvaluated
  {
  }

  /** Plain recursive evaluation, without a cache. */
  ghost function Eval(g: Graph, rank: map<Id, nat>, id: Id): ConditionState
    requires Ranked(g, rank) && id in g
    decreases rank[id], 1
  {
    match g[id]
    case Simple(state) => state
    case Combination(op, cs) => Combine(op, EvalAll(g, rank, id, cs))
  }

  ghost function EvalAll(g: Graph, rank: map<Id, nat>, id: Id, cs: seq<Id>): (r: seq<ConditionState>)
    requires Ranked(g, rank) && id in g && forall i :: 0 <= i < |cs| ==> cs[i] in Children(g, id)
    ensures |r| == |cs| && forall i :: 0 <= i < |cs| ==> r[i] == Eval(g, rank, cs[i])
    decreases rank[id], 0, |cs|
  {
    if cs == [] then [] else
      assert cs[|cs| - 1] in Children(g, id);
      EvalAll(g, rank, id, cs[..|cs| - 1]) + [Eval(g, rank, cs[|cs| - 1])]
  }

  // ---------- trackers and the cache ----------

  /** A predicate with its children as indices into the vector of trackers. */
  datatype Tracker = SimpleTracker(state: ConditionState) | CombinationTracker(op: Operation, children: seq<nat>)

  /** `t` is the tracker of the predicate at place `i`. */
  ghost predicate IsBuilt(g: Graph, ids: seq<Id>, t: Tracker, i: nat) {
    && i < |ids| && ids[i] in g
    && match t
       case SimpleTracker(state) => g[ids[i]].Simple? && g[ids[i]].state == state
       case CombinationTracker(op, cs) =>
         && g[ids[i]].Combination? && g[ids[i]].op == op && |g[ids[i]].children| == |cs|
         && forall k :: 0 <= k < |cs| ==> cs[k] < |ids| && ids[cs[k]] == g[ids[i]].children[k]
  }

  /** The vector that init builds: position i is the predicate ids[i]. */
  ghost predicate Built(g: Graph, ids: seq<Id>, ts: seq<Tracker>) {
    && |ts| == |ids| && (forall i :: 0 <= i < |ids| ==> ids[i] in g)
    && forall i :: 0 <= i < |ts| ==> IsBuilt(g, ids, ts[i], i)
  }

  /** Cached entries are the plain values. */
  ghost predicate CacheOk(g: Graph, rank: map<Id, nat>, ids: seq<Id>, cache: seq<ConditionState>)
    requires Ranked(g, rank) && forall i :: 0 <= i < |ids| ==> ids[i] in g
  {
    |cache| == |ids| &&
    forall i :: 0 <= i < |cache| ==> cache[i] == NotEvaluated || cache[i] == Eval(g, rank, ids[i])
  }

  function States(children: seq<nat>, cache: seq<ConditionState>): seq<ConditionState>
    requires forall k :: 0 <= k < |children| ==> children[k] < |cache|
  {
    seq(|children|, k requires 0 <= k < |children| => cache[children[k]])
  }

  /** evaluateCombinationCondition: three flags and an early exit. */
  method EvaluateCombination(children: seq<nat>, op: Operation, cache: seq<ConditionState>)
    returns (r: ConditionState)
    requires forall k :: 0 <= k < |children| ==> children[k] < |cache|
    ensures r == Combine(op, States(children, cache))
  {
    ghost var states := States(children, cache);
    var hasFalse, hasTrue := false, false;
    for k := 0 to |children|
      invariant Unknown !in states[..k]
      invariant hasFalse == (False in states[..k]) && hasTrue == (True in states[..k])
    {
      assert states[..k + 1] == states[..k] + [states[k]];
      var state := cache[children[k]];
      if state == Unknown {
        assert states[k] == Unknown;
        return Unknown;
      }
      if state == False {
        hasFalse := true;
      }
      if state == True {
        hasTrue := true;
      }
    }
    assert states[..|children|] == states;
    match op
    case And => r := if hasFalse then False else True;
    case Or => r := if hasTrue then True else False;
    case Not => r := if children == [] then Unknown else if cache[children[0]] == False then True else False;
    case Nand => r := if hasFalse then True else False;
    case Nor => r := if hasTrue then False else True;
    case Unspecified => r := False;
  }

  lemma {:induction false} ChildOf(g: Graph, rank: map<Id, nat>, ids: seq<Id>, ts: seq<Tracker>, i: nat, k: nat)
    requires Ranked(g, rank) && Built(g, ids, ts) && i < |ts| && ts[i].CombinationTracker? && k < |ts[i].children|
    ensures ts[i].children[k] < |ts| && 0 <= rank[ids[ts[i].children[k]]] < rank[ids[i]]
  {
    assert g[ids[i]].children[k] in Children(g, ids[i]);
  }

  /** With the children's plain values in the cache, combining them is the plain value. */
  lemma {:induction false} CombineChildren(g: Graph, rank: map<Id, nat>, ids: seq<Id>, ts: seq<Tracker>, i: nat,
                        cache: seq<ConditionState>)
    requires Ranked(g, rank) && Built(g, ids, ts) && i < |ts| && ts[i].CombinationTracker? && |cache| == |ids|
    requires forall k :: 0 <= k < |ts[i].children| ==>
               ts[i].children[k] < |ts| && cache[ts[i].children[k]] == Eval(g, rank, ids[ts[i].children[k]])
    ensures Combine(ts[i].op, States(ts[i].children, cache)) == Eval(g, rank, ids[i]) != NotEvaluated
  {
    hide Combine;
    var cs := g[ids[i]].children;
    assert States(ts[i].children, cache) == EvalAll(g, rank, ids[i], cs);
    CombineEvaluates(ts[i].op, States(ts[i].children, cache));
  }

  lemma {:induction false} CacheStore(g: Graph, rank: map<Id, nat>, ids: seq<Id>, cache: seq<ConditionState>, i: nat)
    requires Ranked(g, rank) && (forall i :: 0 <= i < |ids| ==> ids[i] in g) && i < |ids|
    requires CacheOk(g, rank, ids, cache)
    ensures CacheOk(g, rank, ids, cache[i := Eval(g, rank, ids[i])])
  {
    hide Eval;
  }

  lemma SimpleValue(g: Graph, rank: map<Id, nat>, ids: seq<Id>, ts: seq<Tracker>, i: nat)
    requires Ranked(g, rank) && Built(g, ids, ts) && i < |ts| && ts[i].SimpleTracker?
    ensures ts[i].state == Eval(g, rank, ids[i]) != NotEvaluated
  {
  }

  lemma CacheEntry(g: Graph, rank: map<Id, nat>, ids: seq<Id>, cache: seq<ConditionState>, i: nat)
    requires Ranked(g, rank) && (forall i :: 0 <= i < |ids| ==> ids[i] in g) && i < |ids|
    requires CacheOk(g, rank, ids, cache)
    ensures |cache| == |ids| && (cache[i] == NotEvaluated || cache[i] == Eval(g, rank, ids[i]))
  {
  }

  /** isConditionMet: fills the cache for one tracker and the children it needs. */
  method IsConditionMet(ts: seq<Tracker>, index: nat, cache: array<ConditionState>,
                        ghost g: Graph, ghost ids: seq<Id>, ghost rank: map<Id, nat>)
    requires Ranked(g, rank) && Built(g, ids, ts) && index < |ts| && CacheOk(g, rank, ids, cache[..])
    modifies cache
    ensures CacheOk(g, rank, ids, cache[..]) && cache[index] == Eval(g, rank, ids[index]) != NotEvaluated
    ensures forall j :: 0 <= j < |ts| && old(cache[j]) != NotEvaluated ==> cache[j] == old(cache[j])
    decreases rank[ids[index]]
  {
    hide Eval, CacheOk, Combine, Ranked, States;
    CacheEntry(g, rank, ids, cache[..], index);
    match ts[index]
    case SimpleTracker(state) =>
      SimpleValue(g, rank, ids, ts, index);
      if cache[index] != NotEvaluated {
        return;
      }
      CacheStore(g, rank, ids, cache[..], index);
      cache[index] := state;
    case CombinationTracker(op, cs) =>
      for k := 0 to |cs|
        invariant CacheOk(g, rank, ids, cache[..])
        invariant forall j :: 0 <= j < k ==> cache[cs[j]] == Eval(g, rank, ids[cs[j]]) != NotEvaluated
        invariant forall j :: 0 <= j < |ts| && old(cache[j]) != NotEvaluated ==> cache[j] == old(cache[j])
      {
        ChildOf(g, rank, ids, ts, index, k);
        CacheEntry(g, rank, ids, cache[..], cs[k]);
        if cache[cs[k]] == NotEvaluated {
          IsConditionMet(ts, cs[k], cache, g, ids, rank);
        }
      }
      CombineChildren(g, rank, ids, ts, index, cache[..]);
      var r := EvaluateCombination(cs, op, cache[..]);
      CacheStore(g, rank, ids, cache[..], index);
      cache[index] := r;
  }

  lemma FreshCache(g: Graph, rank: map<Id, nat>, ids: seq<Id>, cache: seq<ConditionState>)
    requires Ranked(g, rank) && (forall i :: 0 <= i < |ids| ==> ids[i] in g) && |cache| == |ids|
    requires forall i :: 0 <= i < |cache| ==> cache[i] == NotEvaluated
    ensures CacheOk(g, rank, ids, cache)
  {
  }

  /** The plain value does not depend on the rank that certifies termination. */
  lemma {:induction false} EvalUnique(g: Graph, r: map<Id, nat>, t: map<Id, nat>, id: Id)
    requires Ranked(g, r) && Ranked(g, t) && id in g
    ensures Eval(g, r, id) == Eval(g, t, id)
    decreases r[id]
  {
    if g[id].Combination? {
      var cs := g[id].children;
      forall i | 0 <= i < |cs| ensures Eval(g, r, cs[i]) == Eval(g, t, cs[i]) {
        assert cs[i] in Children(g, id);
        EvalUnique(g, r, t, cs[i]);
      }
      assert EvalAll(g, r, id, cs) == EvalAll(g, t, id, cs);
    }
  }
}
