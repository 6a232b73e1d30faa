/** The indexed priority queue (statsd/src/anomaly/indexed_priority_queue.h): a 1-indexed
    binary heap with a map from each element to its position, so that interior elements
    can be removed. */
module IndexedHeap {
  type Uint32 = x: int | 0 <= x < 0x1_0000_0000

  /** A reference to an alarm: null, or an object identified by `id`. */
  datatype Alarm = Null | Alarm(id: nat, timestampSec: Uint32)

  function Time(a: Alarm): Uint32 { if a.Null? then 0 else a.timestampSec }

  /** SmallerTimestamp. */
  predicate Sooner(a: Alarm, b: Alarm) { Time(a) < Time(b) }

  // ---------- the invariants, as predicates of the two fields ----------

  /** `indices` is the exact inverse of `pq`; slot 0 holds null. */
  ghost predicate Inverse(pq: seq<Alarm>, indices: map<Alarm, nat>) {
    && |pq| >= 1 && pq[0] == Null
    && (forall i :: 0 <= i < |pq| ==> pq[i] in indices && indices[pq[i]] == i)
    && (forall a :: a in indices ==> indices[a] < |pq| && pq[indices[a]] == a)
  }

  ghost predicate InOrder(pq: seq<Alarm>, i: nat)
    requires i < |pq|
  {
    Time(pq[i / 2]) <= Time(pq[i])
  }

  ghost predicate Heap(pq: seq<Alarm>) {
    forall i :: 2 <= i < |pq| ==> InOrder(pq, i)
  }

  /** The children of `k` are not sooner than the parent of `k`. */
  ghost predicate Bridged(pq: seq<Alarm>, k: nat)
    requires 1 <= k < |pq|
  {
    forall i :: 2 <= i < |pq| && i / 2 == k && k >= 2 ==> Time(pq[k / 2]) <= Time(pq[i])
  }

  /** A heap but for the element at `k`, which may be out of order either way. */
  ghost predicate HeapBut(pq: seq<Alarm>, k: nat) {
    1 <= k < |pq| && (forall i :: 2 <= i < |pq| && i != k && i / 2 != k ==> InOrder(pq, i)) && Bridged(pq, k)
  }

  /** A heap but for the children of `k`. */
  ghost predicate HeapAbove(pq: seq<Alarm>, k: nat) {
    1 <= k < |pq| && (forall i :: 2 <= i < |pq| && i / 2 != k ==> InOrder(pq, i)) && Bridged(pq, k)
  }

  /** A heap but for `k` and its parent. */
  ghost predicate HeapBelow(pq: seq<Alarm>, k: nat) {
    1 <= k < |pq| && (forall i :: 2 <= i < |pq| && i != k ==> InOrder(pq, i)) && Bridged(pq, k)
  }

  function Swapped(pq: seq<Alarm>, i: nat, j: nat): seq<Alarm>
    requires i < |pq| && j < |pq|
  {
    pq[i := pq[j]][j := pq[i]]
  }

  lemma {:induction false} FirstSwapUp(pq: seq<Alarm>, k: nat)
    requires HeapBut(pq, k) && k >= 2 && Sooner(pq[k], pq[k / 2])
    ensures HeapBelow(Swapped(pq, k, k / 2), k / 2)
  {
    var q := Swapped(pq, k, k / 2);
    forall i | 2 <= i < |q| && i != k / 2 ensures InOrder(q, i) {
      if i != k && i / 2 != k { assert InOrder(pq, i); }
    }
    forall i | 2 <= i < |q| && i / 2 == k / 2 && k / 2 >= 2 ensures Time(q[k / 2 / 2]) <= Time(q[i]) {
      assert InOrder(pq, k / 2);
      if i != k { assert InOrder(pq, i); }
    }
  }

  lemma {:induction false} SwapUp(pq: seq<Alarm>, k: nat)
    requires HeapBelow(pq, k) && k >= 2 && Sooner(pq[k], pq[k / 2])
    ensures HeapBelow(Swapped(pq, k, k / 2), k / 2)
  {
    assert HeapBut(pq, k);
    FirstSwapUp(pq, k);
  }

  lemma {:induction false} SwapDown(pq: seq<Alarm>, k: nat, child: nat)
    requires HeapAbove(pq, k) && child < |pq| && child / 2 == k && Sooner(pq[child], pq[k])
    requires forall i :: 2 <= i < |pq| && i / 2 == k ==> Time(pq[child]) <= Time(pq[i])
    ensures HeapAbove(Swapped(pq, child, k), child)
  {
    var q := Swapped(pq, child, k);
    forall i | 2 <= i < |q| && i / 2 != child ensures InOrder(q, i) {
      if i != k && i != child && i / 2 != k { assert InOrder(pq, i); }
    }
    forall i | 2 <= i < |q| && i / 2 == child ensures Time(q[child / 2]) <= Time(q[i]) {
      assert InOrder(pq, i);
    }
  }

  /** The top of a heap is a minimum. */
  lemma {:induction false} TopIsMin(pq: seq<Alarm>, i: nat)
    requires Heap(pq) && 1 <= i < |pq|
    ensures Time(pq[1]) <= Time(pq[i])
    decreases i
  {
    if i >= 2 {
      TopIsMin(pq, i / 2);
      assert InOrder(pq, i);
    }
  }

  // ---------- what moving elements about does to the index ----------

  lemma SwapInverse(pq: seq<Alarm>, indices: map<Alarm, nat>, i: nat, j: nat)
    requires Inverse(pq, indices) && 1 <= i < |pq| && 1 <= j < |pq|
    ensures var m := indices[pq[i] := j][pq[j] := i];
            Inverse(Swapped(pq, i, j), m) && m.Keys == indices.Keys
  {
  }

  lemma {:induction false} Indexed(pq: seq<Alarm>, indices: map<Alarm, nat>, a: Alarm)
    requires Inverse(pq, indices) && a in indices && a != Null
    ensures 1 <= indices[a] < |pq| && pq[indices[a]] == a
  {
    assert pq[0] == Null;
  }

  lemma LastIsIndexed(pq: seq<Alarm>, indices: map<Alarm, nat>)
    requires Inverse(pq, indices)
    ensures pq[|pq| - 1] in indices
  {
  }

  lemma {:induction false} AppendInverse(pq: seq<Alarm>, indices: map<Alarm, nat>, a: Alarm)
    requires Inverse(pq, indices) && a !in indices
    ensures Inverse(pq + [a], indices[a := |pq|])
  {
    assert pq[0] in indices;
    var q, m := pq + [a], indices[a := |pq|];
    forall i | 0 <= i < |q| ensures q[i] in m && m[q[i]] == i {
      if i < |pq| { assert pq[i] in indices; }
    }
  }

  lemma {:induction false} DropInverse(pq: seq<Alarm>, indices: map<Alarm, nat>)
    requires Inverse(pq, indices) && |pq| >= 2
    ensures Inverse(pq[..|pq| - 1], indices - {pq[|pq| - 1]})
  {
    var q, m := pq[..|pq| - 1], indices - {pq[|pq| - 1]};
    forall i | 0 <= i < |q| ensures q[i] in m && m[q[i]] == i {
      assert indices[pq[i]] == i && indices[pq[|pq| - 1]] == |pq| - 1;
    }
  }

  /** Moving the last element over the one at `k`. */
  lemma {:induction false} ReplaceInverse(pq: seq<Alarm>, indices: map<Alarm, nat>, k: nat)
    requires Inverse(pq, indices) && 1 <= k < |pq| - 1
    ensures var last := pq[|pq| - 1];
            Inverse(pq[k := last][..|pq| - 1], indices[last := k] - {pq[k]})
  {
    var n := |pq| - 1;
    var q, m := pq[k := pq[n]][..n], indices[pq[n] := k] - {pq[k]};
    assert indices[pq[k]] == k && indices[pq[n]] == n;
    forall i | 0 <= i < |q| ensures q[i] in m && m[q[i]] == i {
      assert indices[pq[i]] == i;
    }
  }

  lemma {:induction false} ReplaceHeap(pq: seq<Alarm>, k: nat)
    requires Heap(pq) && 1 <= k < |pq| - 1
    ensures HeapBut(pq[k := pq[|pq| - 1]][..|pq| - 1], k)
    ensures k == 1 ==> HeapAbove(pq[k := pq[|pq| - 1]][..|pq| - 1], k)
  {
    var q := pq[k := pq[|pq| - 1]][..|pq| - 1];
    forall i | 2 <= i < |q| && i != k && i / 2 != k ensures InOrder(q, i) {
      assert InOrder(pq, i);
    }
    forall i | 2 <= i < |q| && i / 2 == k && k >= 2 ensures Time(q[k / 2]) <= Time(q[i]) {
      assert InOrder(pq, i) && InOrder(pq, k);
    }
  }

  lemma {:induction false} AppendHeap(pq: seq<Alarm>, a: Alarm)
    requires Heap(pq) && |pq| >= 1
    ensures HeapBut(pq + [a], |pq|)
  {
    var q := pq + [a];
    forall i | 2 <= i < |q| && i != |pq| ensures InOrder(q, i) {
      assert InOrder(pq, i);
    }
  }

  lemma {:induction false} PrefixHeap(pq: seq<Alarm>)
    requires Heap(pq) && |pq| >= 1
    ensures Heap(pq[..|pq| - 1])
  {
    var q := pq[..|pq| - 1];
    forall i | 2 <= i < |q| ensures InOrder(q, i) {
      assert InOrder(pq, i);
    }
  }

  /** In a heap but for `k`, an element at `k` in order with its parent leaves only the
      children of `k` in doubt. */
  lemma SettledAbove(pq: seq<Alarm>, k: nat)
    requires HeapBut(pq, k) && (k >= 2 ==> !Sooner(pq[k], pq[k / 2]))
    ensures HeapAbove(pq, k)
  {
  }

  lemma SettledBelow(pq: seq<Alarm>, k: nat)
    requires HeapBelow(pq, k) && (k >= 2 ==> !Sooner(pq[k], pq[k / 2]))
    ensures Heap(pq)
  {
  }

  lemma {:induction false} HeapIsAbove(pq: seq<Alarm>, k: nat)
    requires Heap(pq) && 1 <= k < |pq|
    ensures HeapAbove(pq, k)
  {
    forall i | 2 <= i < |pq| && i / 2 == k && k >= 2 ensures Time(pq[k / 2]) <= Time(pq[i]) {
      assert InOrder(pq, i) && InOrder(pq, k);
    }
  }

  lemma SettledDown(pq: seq<Alarm>, k: nat)
    requires HeapAbove(pq, k)
    requires forall i :: 2 <= i < |pq| && i / 2 == k ==> InOrder(pq, i)
    ensures Heap(pq)
  {
  }

  class IndexedPriorityQueue {
    var pq: seq<Alarm>
    var indices: map<Alarm, nat>

    ghost predicate Valid()
      reads this
    {
      Inverse(pq, indices) && Heap(pq)
    }

    /** The alarms in the queue; null is in neither. */
    ghost function Contents(): set<Alarm>
      reads this
    {
      indices.Keys - {Null}
    }

    constructor ()
      ensures Valid() && Contents() == {}
    {
      pq, indices := [Null], map[Null := 0];
    }

    function Size(): (n: int)
      reads this
    {
      |pq| - 1
    }

    predicate Contains(a: Alarm)
      reads this
    {
      a != Null && a in indices
    }

    /** The queue is empty exactly when it holds no alarm. */
    lemma {:induction false} EmptyIffNoContents()
      requires Valid()
      ensures Size() < 1 <==> Contents() == {}
    {
      if |pq| >= 2 {
        assert indices[pq[1]] == 1 && indices[pq[0]] == 0;
        assert pq[1] in Contents();
      }
    }

    /** The soonest alarm of the queue, or null exactly when there is none. */
    function Top(): (a: Alarm)
      requires Valid()
      reads this
      ensures a == Null <==> Contents() == {}
      ensures a != Null ==> a in Contents() && forall b :: b in Contents() ==> Time(a) <= Time(b)
    {
      EmptyIffNoContents();
      assert forall b :: b in Contents() ==> 1 <= indices[b] < |pq| && pq[indices[b]] == b by {
        assert pq[0] == Null;
      }
      assert |pq| >= 2 ==> pq[1] in Contents() by {
        if |pq| >= 2 { assert indices[pq[1]] == 1 && indices[pq[0]] == 0; }
      }
      assert forall i :: 1 <= i < |pq| ==> Time(pq[1]) <= Time(pq[i]) by {
        forall i | 1 <= i < |pq| ensures Time(pq[1]) <= Time(pq[i]) { TopIsMin(pq, i); }
      }
      if Size() < 1 then Null else pq[1]
    }

    method SwapIndices(i: nat, j: nat)
      requires Inverse(pq, indices) && 1 <= i < |pq| && 1 <= j < |pq|
      modifies this
      ensures Inverse(pq, indices) && indices.Keys == old(indices.Keys)
      ensures pq == Swapped(old(pq), i, j)
    {
      SwapInverse(pq, indices, i, j);
      var first, second := pq[i], pq[j];
      pq := pq[i := second][j := first];
      indices := indices[first := j][second := i];
    }

    predicate Higher(i: int, j: int)
      reads this
    {
      0 < i < |pq| && 0 < j < |pq| && Sooner(pq[i], pq[j])
    }

    /** Leaves a heap but for the children of the place it started from. */
    method SiftUp(start: nat)
      requires Inverse(pq, indices) && HeapBut(pq, start)
      modifies this
      ensures Inverse(pq, indices) && indices.Keys == old(indices.Keys) && |pq| == old(|pq|)
      ensures HeapAbove(pq, start)
    {
      var idx := start;
      while idx > 1
        invariant 1 <= idx <= start < |pq| && |pq| == old(|pq|)
        invariant Inverse(pq, indices) && indices.Keys == old(indices.Keys)
        invariant if idx == start then HeapBut(pq, start) else HeapBelow(pq, idx)
      {
        hide Inverse;
        var parent := idx / 2;
        if Higher(idx, parent) {
          if idx == start { FirstSwapUp(pq, idx); } else { SwapUp(pq, idx); }
          SwapIndices(idx, parent);
        } else {
          break;
        }
        idx := parent;
      }
      if idx == start {
        SettledAbove(pq, start);
      } else {
        SettledBelow(pq, idx);
        HeapIsAbove(pq, start);
      }
    }

    method SiftDown(start: nat)
      requires Inverse(pq, indices) && HeapAbove(pq, start)
      modifies this
      ensures Inverse(pq, indices) && indices.Keys == old(indices.Keys) && |pq| == old(|pq|)
      ensures Heap(pq)
    {
      var idx := start;
      while 2 * idx <= Size()
        invariant 1 <= idx < |pq| && |pq| == old(|pq|)
        invariant Inverse(pq, indices) && indices.Keys == old(indices.Keys)
        invariant HeapAbove(pq, idx)
        decreases |pq| - idx
      {
        hide Inverse;
        var child := 2 * idx;
        if child < Size() && Higher(child + 1, child) { child := child + 1; }
        if Higher(child, idx) {
          SwapDown(pq, idx, child);
          SwapIndices(child, idx);
        } else {
          break;
        }
        idx := child;
      }
      SettledDown(pq, idx);
    }

    method Push(a: Alarm)
      requires Valid()
      modifies this
      ensures Valid() && Contents() == old(Contents()) + (if a == Null then {} else {a})
    {
      if a == Null || Contains(a) { return; }
      AppendInverse(pq, indices, a);
      AppendHeap(pq, a);
      pq := pq + [a];
      var idx := Size();
      indices := indices[a := idx];
      SiftUp(idx);
      SettledDown(pq, idx);
    }

    /** Takes the last element off. */
    method DropLast()
      requires Valid() && |pq| >= 2
      modifies this
      ensures Valid() && indices.Keys == old(indices.Keys) - {old(pq[|pq| - 1])}
    {
      hide Inverse, Heap;
      DropInverse(pq, indices);
      PrefixHeap(pq);
      indices := indices - {pq[|pq| - 1]};
      pq := pq[..|pq| - 1];
    }

    /** Moves the last element over the one at `idx`. */
    method MoveLastTo(idx: nat)
      requires Valid() && 1 <= idx < |pq| - 1
      modifies this
      ensures Inverse(pq, indices) && HeapBut(pq, idx) && (idx == 1 ==> HeapAbove(pq, idx))
      ensures indices.Keys == old(indices.Keys) - {old(pq[idx])}
    {
      LastIsIndexed(pq, indices);
      hide Inverse, Heap, HeapBut, HeapAbove;
      ReplaceInverse(pq, indices, idx);
      ReplaceHeap(pq, idx);
      var a, last := pq[idx], pq[|pq| - 1];
      pq := pq[idx := last];
      pq := pq[..|pq| - 1];
      indices := indices[last := idx];
      indices := indices - {a};
    }

    /** Removes any element, wherever it stands in the heap. */
    method Remove(a: Alarm) returns (present: bool)
      requires Valid()
      modifies this
      ensures Valid() && Contents() == old(Contents()) - {a}
      ensures present == (a in old(Contents()))
    {
      hide Inverse, Heap, HeapBut, HeapAbove;
      if a == Null || !Contains(a) { return false; }
      Indexed(pq, indices, a);
      var idx := indices[a];
      if idx >= |pq| { return false; }
      if idx == Size() {
        DropLast();
        return true;
      }
      MoveLastTo(idx);
      SiftUp(idx);
      SiftDown(idx);
      return true;
    }

    /** Removes the soonest alarm. */
    method Pop()
      requires Valid()
      modifies this
      ensures Valid() && Contents() == old(Contents()) - {old(Top())}
    {
      hide Inverse, Heap, HeapBut, HeapAbove;
      var a := Top();
      if a == Null { return; }
      Indexed(pq, indices, a);
      var idx := 1;
      if idx == Size() {
        DropLast();
        return;
      }
      MoveLastTo(idx);
      SiftDown(idx);
    }

    method Clear()
      modifies this
      ensures Valid() && Contents() == {}
    {
      pq, indices := [Null], map[Null := 0];
    }
  }
}
