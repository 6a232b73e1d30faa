/** Merging pulled rows whose isolated uids have been mapped to host uids
    (statsd/src/external/puller_util.cpp): sort, then add each row onto its neighbour when
    they agree on everything but the additive fields. It refines GROUP BY with SUM. */
module PullerMerge {
  import Arith
  import opened Options
  import opened RowOrder

  // ---------- sorting ----------

  ghost predicate Sorted(rows: seq<Row>) {
    forall i, j :: 0 <= i < j < |rows| ==> !RowLess(rows[j], rows[i])
  }

  /** Inserting into sorted rows, by the comparator alone. */
  function Insert(x: Row, rows: seq<Row>): seq<Row> {
    if rows == [] then [x]
    else if RowLess(rows[0], x) then [rows[0]] + Insert(x, rows[1..])
    else [x] + rows
  }

  function SortRows(rows: seq<Row>): seq<Row> {
    if rows == [] then [] else Insert(rows[0], SortRows(rows[1..]))
  }

  lemma {:induction false} InsertMembers(x: Row, rows: seq<Row>, y: Row)
    ensures y in Insert(x, rows) <==> y == x || y in rows
  {
    if rows != [] {
      assert rows == [rows[0]] + rows[1..];
      if RowLess(rows[0], x) { InsertMembers(x, rows[1..], y); }
    }
  }

  lemma {:induction false} SortMembers(rows: seq<Row>, y: Row)
    ensures y in SortRows(rows) <==> y in rows
  {
    if rows != [] {
      assert rows == [rows[0]] + rows[1..];
      SortMembers(rows[1..], y);
      InsertMembers(rows[0], SortRows(rows[1..]), y);
    }
  }

  lemma {:induction false} HeadFirst(x: Row, rows: seq<Row>)
    requires Sorted(rows) && forall y :: y in rows ==> !RowLess(y, x)
    ensures Sorted([x] + rows)
  {
    hide RowLess;
    var all := [x] + rows;
    forall i, j | 0 <= i < j < |all| ensures !RowLess(all[j], all[i]) {
      assert all[j] == rows[j - 1] && rows[j - 1] in rows;
      if i > 0 { assert all[i] == rows[i - 1]; }
    }
  }

  lemma {:induction false} InsertSorted(x: Row, rows: seq<Row>)
    requires Sorted(rows)
    ensures Sorted(Insert(x, rows))
  {
    hide RowLess;
    if rows == [] {
    } else if RowLess(rows[0], x) {
      InsertSorted(x, rows[1..]);
      forall y | y in Insert(x, rows[1..]) ensures !RowLess(y, rows[0]) {
        InsertMembers(x, rows[1..], y);
        if y == x { RowsTotal(rows[0], x); }
      }
      HeadFirst(rows[0], Insert(x, rows[1..]));
    } else {
      forall y | y in rows ensures !RowLess(y, x) {
        NotSooner(x, rows, y);
      }
      HeadFirst(x, rows);
    }
  }

  /** If the first of sorted rows is not below `x`, none of them is. */
  lemma {:induction false} NotSooner(x: Row, rows: seq<Row>, y: Row)
    requires Sorted(rows) && rows != [] && y in rows && !RowLess(rows[0], x)
    ensures !RowLess(y, x)
  {
    hide RowLess;
    var j :| 0 <= j < |rows| && rows[j] == y;
    if RowLess(y, x) && j > 0 {
      assert !RowLess(rows[j], rows[0]);
      RowsTotal(rows[0], y);
      if rows[0] != y { RowsTransitive(rows[0], y, x); }
    }
  }

  /** The result is sorted and a permutation. */
  lemma {:induction false} SortSorted(rows: seq<Row>)
    ensures Sorted(SortRows(rows)) && |SortRows(rows)| == |rows| && multiset(SortRows(rows)) == multiset(rows)
  {
    hide RowLess, Sorted;
    if rows == [] {
      NoneSorted();
    } else {
      SortSorted(rows[1..]);
      InsertSorted(rows[0], SortRows(rows[1..]));
      InsertLength(rows[0], SortRows(rows[1..]));
      InsertPermutes(rows[0], SortRows(rows[1..]));
      assert rows == [rows[0]] + rows[1..];
    }
  }

  lemma NoneSorted()
    ensures Sorted([])
  {
  }

  lemma {:induction false} InsertPermutes(x: Row, rows: seq<Row>)
    ensures multiset(Insert(x, rows)) == multiset{x} + multiset(rows)
  {
    hide RowLess;
    if rows != [] {
      assert rows == [rows[0]] + rows[1..];
      if RowLess(rows[0], x) { InsertPermutes(x, rows[1..]); }
    }
  }

  lemma {:induction false} InsertLength(x: Row, rows: seq<Row>)
    ensures |Insert(x, rows)| == |rows| + 1
  {
    if rows != [] && RowLess(rows[0], x) { InsertLength(x, rows[1..]); }
  }

  // ---------- what GROUP BY and SUM mean ----------

  /** A row with its additive values struck out: what a group has in common. */
  function Key(row: Row, additive: set<int>): Row {
    seq(|row|, p requires 0 <= p < |row| =>
      if Adds(row[p].field, additive) then FieldValue(row[p].field, Unknown) else row[p])
  }

  function Amount(v: Value): real {
    match v
    case Int(i) => i as real
    case Long(l) => l as real
    case Float(f) => f
    case Double(d) => d
    case _ => 0.0
  }

  ghost predicate SameNumericType(a: Value, b: Value) { Type(a) == Type(b) && 1 <= Type(a) <= 4 }

  /** The sum at position p over the rows of the group `key`. */
  ghost function Total(rows: seq<Row>, key: Row, p: nat, additive: set<int>): real
    requires p < |key|
  {
    if rows == [] then 0.0
    else (if Key(rows[0], additive) == key then Amount(rows[0][p].value) else 0.0) + Total(rows[1..], key, p, additive)
  }

  ghost predicate HasGroup(rows: seq<Row>, key: Row, additive: set<int>) {
    exists x :: x in rows && Key(x, additive) == key
  }

  ghost predicate Alike(x: Row, y: Row, additive: set<int>) {
    && |x| == |y|
    && forall p :: 0 <= p < |x| && Adds(x[p].field, additive) ==> SameNumericType(x[p].value, y[p].value)
  }

  /** Rows of one group have the same numeric type at each additive position. */
  ghost predicate TypedAlike(rows: seq<Row>, additive: set<int>) {
    forall x, y :: x in rows && y in rows && Key(x, additive) == Key(y, additive) ==> Alike(x, y, additive)
  }

  // ---------- the merge ----------

  /** this += that: a mismatched or non-numeric addition is refused. */
  function Plus(this_: Value, that: Value): Value {
    if Type(this_) != Type(that) then this_
    else match this_
      case Int(i) => Int(i + that.i)
      case Long(l) => Long(l + that.l)
      case Float(f) => Float(f + that.f)
      case Double(d) => Double(d + that.d)
      case _ => this_
  }

  /** An addition is exact if and only if the types are one numeric type or there is nothing to add. */
  lemma PlusExact(a: Value, b: Value)
    ensures Type(Plus(a, b)) == Type(a)
    ensures Amount(Plus(a, b)) == Amount(a) + Amount(b) <==> SameNumericType(a, b) || Amount(b) == 0.0
  {
  }

  function AddInto(rhs: Row, lhs: Row, additive: set<int>): Row
    requires |rhs| == |lhs|
  {
    seq(|rhs|, p requires 0 <= p < |rhs| =>
      if Adds(lhs[p].field, additive) then FieldValue(rhs[p].field, Plus(rhs[p].value, lhs[p].value)) else rhs[p])
  }

  /** What the neighbour-merging loop leaves, with `cur` the row being merged onto the next. */
  function MergeFrom(cur: Row, rest: seq<Row>, additive: set<int>): seq<Row>
    decreases |rest|
  {
    if rest == [] then [cur]
    else if Key(cur, additive) == Key(rest[0], additive) then
      assert |cur| == |Key(cur, additive)|;
      MergeFrom(AddInto(rest[0], cur, additive), rest[1..], additive)
    else [cur] + MergeFrom(rest[0], rest[1..], additive)
  }

  /** The loop's test, position by position, is equality of keys. */
  ghost predicate Agree(lhs: Row, rhs: Row, additive: set<int>, n: nat)
    requires |lhs| == |rhs| && n <= |lhs|
  {
    forall p :: 0 <= p < n ==>
      lhs[p].field == rhs[p].field && (lhs[p].value == rhs[p].value || Adds(lhs[p].field, additive))
  }

  lemma {:induction false} AgreeIsSameKey(lhs: Row, rhs: Row, additive: set<int>)
    requires |lhs| == |rhs|
    ensures Agree(lhs, rhs, additive, |lhs|) <==> Key(lhs, additive) == Key(rhs, additive)
  {
    hide Adds;
    if Key(lhs, additive) == Key(rhs, additive) {
      forall p | 0 <= p < |lhs|
        ensures lhs[p].field == rhs[p].field && (lhs[p].value == rhs[p].value || Adds(lhs[p].field, additive))
      {
        assert Key(lhs, additive)[p] == Key(rhs, additive)[p];
      }
    }
  }

  method CanMerge(lhs: Row, rhs: Row, additive: set<int>) returns (needMerge: bool)
    ensures needMerge <==> Key(lhs, additive) == Key(rhs, additive)
  {
    hide Adds, Key;
    if |lhs| != |rhs| {
      KeyLength(lhs, additive);
      KeyLength(rhs, additive);
      return false;
    }
    AgreeIsSameKey(lhs, rhs, additive);
    needMerge := true;
    var p := 0;
    while p < |lhs|
      invariant 0 <= p <= |lhs| && needMerge && Agree(lhs, rhs, additive, p)
    {
      if lhs[p].field != rhs[p].field { return false; }
      if lhs[p].value != rhs[p].value && !Adds(lhs[p].field, additive) { return false; }
      p := p + 1;
    }
  }

  lemma KeyLength(row: Row, additive: set<int>)
    ensures |Key(row, additive)| == |row|
  {
  }

  method AddValues(lhs: Row, rhs: Row, additive: set<int>) returns (sum: Row)
    requires |lhs| == |rhs|
    ensures sum == AddInto(rhs, lhs, additive)
  {
    hide Adds, Plus;
    sum := rhs;
    var p := 0;
    while p < |lhs|
      invariant 0 <= p <= |lhs| == |sum|
      invariant forall q :: 0 <= q < p ==> sum[q] == AddInto(rhs, lhs, additive)[q]
      invariant forall q :: p <= q < |sum| ==> sum[q] == rhs[q]
    {
      if Adds(lhs[p].field, additive) {
        sum := sum[p := FieldValue(sum[p].field, Plus(sum[p].value, lhs[p].value))];
      }
      p := p + 1;
    }
  }

  /** The in-place loop over neighbours. */
  method MergeNeighbours(rows: seq<Row>, additive: set<int>) returns (merged: seq<Row>)
    requires rows != []
    ensures merged == MergeFrom(rows[0], rows[1..], additive)
  {
    hide Key, AddInto;
    var data := rows;
    merged := [];
    var i := 0;
    while i < |data| - 1
      invariant 0 <= i < |data| == |rows|
      invariant data[i + 1..] == rows[i + 1..]
      invariant merged + MergeFrom(data[i], data[i + 1..], additive) == MergeFrom(rows[0], rows[1..], additive)
    {
      var needMerge := CanMerge(data[i], data[i + 1], additive);
      assert data[i + 1..][0] == data[i + 1] && data[i + 1..][1..] == data[i + 2..];
      if !needMerge {
        merged := merged + [data[i]];
      } else {
        KeyLength(data[i], additive);
        KeyLength(data[i + 1], additive);
        var sum := AddValues(data[i], data[i + 1], additive);
        data := data[i + 1 := sum];
      }
      i := i + 1;
    }
    merged := merged + [data[i]];
  }

  // ---------- totals are preserved, whatever the layout and the order ----------

  lemma {:induction false} KeyOfSum(rhs: Row, lhs: Row, additive: set<int>)
    requires Key(lhs, additive) == Key(rhs, additive) && |rhs| == |lhs|
    ensures Key(AddInto(rhs, lhs, additive), additive) == Key(rhs, additive)
  {
    hide Adds, Plus;
    forall p | 0 <= p < |rhs|
      ensures Key(AddInto(rhs, lhs, additive), additive)[p] == Key(rhs, additive)[p]
    {
      assert Key(lhs, additive)[p] == Key(rhs, additive)[p];
    }
  }

  lemma {:induction false} SumAt(rhs: Row, lhs: Row, additive: set<int>, p: nat)
    requires Key(lhs, additive) == Key(rhs, additive) && Alike(lhs, rhs, additive)
    requires p < |rhs| && Adds(Key(rhs, additive)[p].field, additive)
    ensures Amount(AddInto(rhs, lhs, additive)[p].value) == Amount(lhs[p].value) + Amount(rhs[p].value)
  {
    assert Key(lhs, additive)[p] == Key(rhs, additive)[p];
    PlusExact(rhs[p].value, lhs[p].value);
  }

  lemma {:induction false} SumAlike(rhs: Row, lhs: Row, y: Row, additive: set<int>)
    requires Key(lhs, additive) == Key(rhs, additive) && |lhs| == |rhs|
    ensures Alike(rhs, y, additive) ==> Alike(AddInto(rhs, lhs, additive), y, additive)
    ensures Alike(y, rhs, additive) ==> Alike(y, AddInto(rhs, lhs, additive), additive)
  {
    hide Adds, Plus;
    var sum := AddInto(rhs, lhs, additive);
    forall p | 0 <= p < |rhs| ensures sum[p].field == rhs[p].field && Type(sum[p].value) == Type(rhs[p].value) {
      PlusExact(rhs[p].value, lhs[p].value);
    }
  }

  lemma {:induction false} TypedAfterMerge(cur: Row, rest: seq<Row>, additive: set<int>)
    requires rest != [] && TypedAlike([cur] + rest, additive)
    ensures TypedAlike(rest, additive)
    ensures Key(cur, additive) == Key(rest[0], additive) ==>
              |cur| == |rest[0]| && TypedAlike([AddInto(rest[0], cur, additive)] + rest[1..], additive)
  {
    hide Key, Alike, AddInto;
    var all := [cur] + rest;
    forall x | x in rest ensures x in all { }
    if Key(cur, additive) == Key(rest[0], additive) {
      KeyLength(cur, additive);
      KeyLength(rest[0], additive);
      var sum := AddInto(rest[0], cur, additive);
      KeyOfSum(rest[0], cur, additive);
      assert rest[0] in all;
      forall x, y | x in [sum] + rest[1..] && y in [sum] + rest[1..] && Key(x, additive) == Key(y, additive)
        ensures Alike(x, y, additive)
      {
        var x0 := if x == sum then rest[0] else x;
        var y0 := if y == sum then rest[0] else y;
        assert x0 in all && y0 in all && Alike(x0, y0, additive);
        SumAlike(rest[0], cur, y0, additive);
        SumAlike(rest[0], cur, x, additive);
      }
    }
  }

  /** The sum over any group, at any additive position, is what it was. */
  lemma {:induction false} TotalsPreserved(cur: Row, rest: seq<Row>, additive: set<int>, key: Row, p: nat)
    requires TypedAlike([cur] + rest, additive) && p < |key| && Adds(key[p].field, additive)
    ensures Total(MergeFrom(cur, rest, additive), key, p, additive) == Total([cur] + rest, key, p, additive)
    decreases |rest|
  {
    hide Key, Alike, AddInto, TypedAlike, Adds;
    assert ([cur] + rest)[1..] == rest;
    if rest == [] {
    } else {
      TypedAfterMerge(cur, rest, additive);
      var next, tail := rest[0], rest[1..];
      assert rest == [next] + tail;
      if Key(cur, additive) == Key(next, additive) {
        var sum := AddInto(next, cur, additive);
        TotalsPreserved(sum, tail, additive, key, p);
        assert ([sum] + tail)[1..] == tail;
        KeyOfSum(next, cur, additive);
        if Key(next, additive) == key {
          KeyLength(next, additive);
          HeadsAlike(cur, rest, additive);
          SumAt(next, cur, additive, p);
        }
      } else {
        TotalsPreserved(next, tail, additive, key, p);
        var merged := MergeFrom(next, tail, additive);
        assert ([cur] + merged)[1..] == merged;
      }
    }
  }

  lemma {:induction false} HeadsAlike(cur: Row, rest: seq<Row>, additive: set<int>)
    requires rest != [] && TypedAlike([cur] + rest, additive) && Key(cur, additive) == Key(rest[0], additive)
    ensures Alike(cur, rest[0], additive)
  {
    assert cur in [cur] + rest && rest[0] in [cur] + rest;
  }

  lemma {:induction false} InsertTotal(x: Row, rows: seq<Row>, key: Row, p: nat, additive: set<int>)
    requires p < |key|
    ensures Total(Insert(x, rows), key, p, additive) == Total([x] + rows, key, p, additive)
  {
    hide Key;
    assert ([x] + rows)[1..] == rows;
    if rows != [] && RowLess(rows[0], x) {
      InsertTotal(x, rows[1..], key, p, additive);
      assert ([x] + rows[1..])[1..] == rows[1..];
      var tail := Insert(x, rows[1..]);
      assert ([rows[0]] + tail)[1..] == tail;
    }
  }

  lemma {:induction false} SortTotal(rows: seq<Row>, key: Row, p: nat, additive: set<int>)
    requires p < |key|
    ensures Total(SortRows(rows), key, p, additive) == Total(rows, key, p, additive)
  {
    hide Key;
    if rows != [] {
      SortTotal(rows[1..], key, p, additive);
      var tail := SortRows(rows[1..]);
      InsertTotal(rows[0], tail, key, p, additive);
      assert ([rows[0]] + tail)[1..] == tail;
    }
  }

  // ---------- one row per group ----------

  /** Equal keys stand together. */
  ghost predicate Grouped(rows: seq<Row>, additive: set<int>) {
    forall i, j, k :: 0 <= i < j < k < |rows| && Key(rows[i], additive) == Key(rows[k], additive) ==>
      Key(rows[j], additive) == Key(rows[i], additive)
  }

  ghost predicate DistinctKeys(rows: seq<Row>, additive: set<int>) {
    forall i, j :: 0 <= i < j < |rows| ==> Key(rows[i], additive) != Key(rows[j], additive)
  }

  lemma {:induction false} GroupedAfterMerge(cur: Row, rest: seq<Row>, next: Row, additive: set<int>)
    requires rest != [] && Grouped([cur] + rest, additive) && Key(next, additive) == Key(rest[0], additive)
    ensures Grouped([next] + rest[1..], additive)
  {
    hide Key;
    var all, after := [cur] + rest, [next] + rest[1..];
    forall i | 0 <= i < |after| ensures Key(after[i], additive) == Key(all[i + 1], additive) {
      if i > 0 { assert after[i] == rest[i] == all[i + 1]; }
    }
  }

  /** The groups are those of the input. */
  lemma {:induction false} GroupsKept(cur: Row, rest: seq<Row>, additive: set<int>, key: Row)
    ensures HasGroup(MergeFrom(cur, rest, additive), key, additive) <==> HasGroup([cur] + rest, key, additive)
    decreases |rest|
  {
    hide Key, AddInto, HasGroup;
    HasGroupCons(cur, rest, additive, key);
    if rest == [] {
      assert [cur] + rest == [cur];
    } else {
      var next, tail := rest[0], rest[1..];
      assert rest == [next] + tail;
      HasGroupCons(next, tail, additive, key);
      if Key(cur, additive) == Key(next, additive) {
        KeyLength(cur, additive);
        KeyLength(next, additive);
        KeyOfSum(next, cur, additive);
        var sum := AddInto(next, cur, additive);
        HasGroupCons(sum, tail, additive, key);
        GroupsKept(sum, tail, additive, key);
      } else {
        GroupsKept(next, tail, additive, key);
        HasGroupCons(cur, MergeFrom(next, tail, additive), additive, key);
      }
    }
  }

  lemma {:induction false} HasGroupCons(x: Row, rows: seq<Row>, additive: set<int>, key: Row)
    ensures HasGroup([x] + rows, key, additive) <==> Key(x, additive) == key || HasGroup(rows, key, additive)
  {
    hide Key;
    if Key(x, additive) == key { assert x in [x] + rows; }
    if HasGroup(rows, key, additive) {
      var y :| y in rows && Key(y, additive) == key;
      assert y in [x] + rows;
    }
  }

  lemma {:induction false} OneRowPerGroup(cur: Row, rest: seq<Row>, additive: set<int>)
    requires Grouped([cur] + rest, additive)
    ensures DistinctKeys(MergeFrom(cur, rest, additive), additive)
    decreases |rest|
  {
    hide Key, AddInto, Grouped;
    if rest != [] {
      var next, tail := rest[0], rest[1..];
      assert rest == [next] + tail;
      if Key(cur, additive) == Key(next, additive) {
        KeyLength(cur, additive);
        KeyLength(next, additive);
        KeyOfSum(next, cur, additive);
        GroupedAfterMerge(cur, rest, AddInto(next, cur, additive), additive);
        OneRowPerGroup(AddInto(next, cur, additive), tail, additive);
      } else {
        GroupedAfterMerge(cur, rest, next, additive);
        OneRowPerGroup(next, tail, additive);
        NotAgain(cur, rest, additive);
        GroupsKept(next, tail, additive, Key(cur, additive));
        var merged := MergeFrom(next, tail, additive);
        forall i | 0 <= i < |merged| ensures Key(merged[i], additive) != Key(cur, additive) {
          assert merged[i] in merged;
        }
      }
    }
  }

  /** So the output has one row per group exactly when equal keys stand together. */
  lemma {:induction false} OneRowPerGroupIff(cur: Row, rest: seq<Row>, additive: set<int>)
    ensures DistinctKeys(MergeFrom(cur, rest, additive), additive) <==> Grouped([cur] + rest, additive)
  {
    hide Key, AddInto, Grouped, MergeFrom, DistinctKeys;
    if Grouped([cur] + rest, additive) { OneRowPerGroup(cur, rest, additive); }
    if DistinctKeys(MergeFrom(cur, rest, additive), additive) { DistinctMeansGrouped(cur, rest, additive); }
  }

  lemma {:induction false} DistinctMeansGrouped(cur: Row, rest: seq<Row>, additive: set<int>)
    requires DistinctKeys(MergeFrom(cur, rest, additive), additive)
    ensures Grouped([cur] + rest, additive)
    decreases |rest|
  {
    hide Key, AddInto, Grouped, HasGroup;
    if rest == [] {
      GroupedCons(cur, rest, additive);
    } else {
      var next, tail := rest[0], rest[1..];
      assert rest == [next] + tail;
      if Key(cur, additive) == Key(next, additive) {
        KeyLength(cur, additive);
        KeyLength(next, additive);
        KeyOfSum(next, cur, additive);
        var sum := AddInto(next, cur, additive);
        DistinctMeansGrouped(sum, tail, additive);
        assert ([sum] + tail)[1..] == tail;
        GroupedAfterMerge(sum, [sum] + tail, next, additive) by { GroupedAgain(sum, tail, additive); }
        GroupedCons(cur, rest, additive);
      } else {
        var merged := MergeFrom(next, tail, additive);
        var out := [cur] + merged;
        assert forall i :: 0 <= i < |merged| ==> merged[i] == out[i + 1];
        DistinctMeansGrouped(next, tail, additive);
        GroupsKept(next, tail, additive, Key(cur, additive));
        NotInMerged(cur, merged, additive);
        GroupedCons(cur, rest, additive);
      }
    }
  }

  lemma {:induction false} NotInMerged(cur: Row, merged: seq<Row>, additive: set<int>)
    requires DistinctKeys([cur] + merged, additive)
    ensures !HasGroup(merged, Key(cur, additive), additive)
  {
    hide Key;
    var out := [cur] + merged;
    forall x | x in merged ensures Key(x, additive) != Key(cur, additive) {
      var k :| 0 <= k < |merged| && merged[k] == x;
      assert out[k + 1] == x && out[0] == cur;
    }
  }

  lemma {:induction false} GroupedAgain(x: Row, rows: seq<Row>, additive: set<int>)
    requires Grouped([x] + rows, additive)
    ensures Grouped([x] + ([x] + rows), additive)
  {
    hide Key;
    var one, two := [x] + rows, [x] + ([x] + rows);
    forall i | 0 <= i < |two| ensures two[i] == one[if i == 0 then 0 else i - 1] { }
  }

  /** Putting a row in front of grouped rows, of the first one's group or of none of theirs. */
  lemma {:induction false} GroupedCons(x: Row, rows: seq<Row>, additive: set<int>)
    requires rows == [] || Grouped(rows, additive)
    requires rows == [] || Key(x, additive) == Key(rows[0], additive) || !HasGroup(rows, Key(x, additive), additive)
    ensures Grouped([x] + rows, additive)
  {
    hide Key;
    var all := [x] + rows;
    forall i, j, k | 0 <= i < j < k < |all| && Key(all[i], additive) == Key(all[k], additive)
      ensures Key(all[j], additive) == Key(all[i], additive)
    {
      assert all[j] == rows[j - 1] && all[k] == rows[k - 1];
      if i > 0 {
        assert all[i] == rows[i - 1];
      } else {
        assert rows[k - 1] in rows;
        assert Key(x, additive) == Key(rows[0], additive);
        if j > 1 { assert Key(rows[0], additive) == Key(rows[k - 1], additive); }
      }
    }
  }

  lemma {:induction false} NotAgain(cur: Row, rest: seq<Row>, additive: set<int>)
    requires rest != [] && Grouped([cur] + rest, additive) && Key(cur, additive) != Key(rest[0], additive)
    ensures !HasGroup(rest, Key(cur, additive), additive)
  {
    hide Key;
    var all := [cur] + rest;
    forall x | x in rest ensures Key(x, additive) != Key(cur, additive) {
      var k :| 0 <= k < |rest| && rest[k] == x;
      assert all[k + 1] == x && all[0] == cur && all[1] == rest[0];
    }
  }

  // ---------- sorting groups the rows when the additive fields come last ----------

  ghost predicate SameFieldList(x: Row, y: Row) {
    |x| == |y| && forall p :: 0 <= p < |x| ==> x[p].field == y[p].field
  }

  ghost predicate SameFields(rows: seq<Row>) {
    forall x, y :: x in rows && y in rows ==> SameFieldList(x, y)
  }

  ghost predicate AdditiveLast(row: Row, additive: set<int>) {
    forall p, q :: 0 <= p < q < |row| && Adds(row[p].field, additive) ==> Adds(row[q].field, additive)
  }

  /** From position `i` on, x and z agree on the fields that are not additive. */
  ghost predicate AgreeFrom(x: Row, z: Row, additive: set<int>, i: nat) {
    |x| == |z| && forall p :: i <= p < |x| && !Adds(x[p].field, additive) ==> x[p] == z[p]
  }

  /** A row between two rows of one group is of that group. */
  lemma {:induction false} Squeezed(x: Row, y: Row, z: Row, additive: set<int>, i: nat)
    requires SameFieldList(x, y) && SameFieldList(x, z) && AdditiveLast(x, additive) && i <= |x|
    requires !LessFrom(y, x, i) && !LessFrom(z, y, i) && AgreeFrom(x, z, additive, i)
    ensures AgreeFrom(x, y, additive, i)
    decreases |x| - i
  {
    hide Adds, FieldValueLess;
    if i < |x| && !Adds(x[i].field, additive) {
      FieldValuesTotal(x[i], y[i]);
      assert x[i] == z[i];
      if y[i] == x[i] { Squeezed(x, y, z, additive, i + 1); }
    }
  }

  lemma {:induction false} AgreeFromKeys(x: Row, z: Row, additive: set<int>)
    requires SameFieldList(x, z)
    ensures AgreeFrom(x, z, additive, 0) <==> Key(x, additive) == Key(z, additive)
  {
    hide Adds;
    AgreeIsSameKey(x, z, additive);
  }

  lemma {:induction false} SortedIsGrouped(rows: seq<Row>, additive: set<int>)
    requires Sorted(rows) && SameFields(rows) && (forall x :: x in rows ==> AdditiveLast(x, additive))
    ensures Grouped(rows, additive)
  {
    hide Key, AdditiveLast, SameFieldList, AgreeFrom, LessFrom;
    forall i, j, k | 0 <= i < j < k < |rows| && Key(rows[i], additive) == Key(rows[k], additive)
      ensures Key(rows[j], additive) == Key(rows[i], additive)
    {
      GroupBetween(rows[i], rows[j], rows[k], additive);
    }
  }

  lemma {:induction false} GroupBetween(x: Row, y: Row, z: Row, additive: set<int>)
    requires SameFieldList(x, y) && SameFieldList(x, z) && AdditiveLast(x, additive)
    requires !RowLess(y, x) && !RowLess(z, y) && Key(x, additive) == Key(z, additive)
    ensures Key(y, additive) == Key(x, additive)
  {
    AgreeFromKeys(x, z, additive);
    AgreeFromKeys(x, y, additive);
    hide Key, Adds, AdditiveLast, AgreeFrom, LessFrom;
    Squeezed(x, y, z, additive, 0);
  }

  /** GROUP BY with SUM: every group of the rows has its total, no group is new, and when the
      rows share a field list with the additive fields last each group has one row. */
  ghost predicate GroupedSums(data: seq<Row>, merged: seq<Row>, additive: set<int>) {
    && (forall key :: HasGroup(merged, key, additive) <==> HasGroup(data, key, additive))
    && (TypedAlike(data, additive) ==>
          forall key: Row, p: nat :: p < |key| && Adds(key[p].field, additive) ==>
            Total(merged, key, p, additive) == Total(data, key, p, additive))
    && (SameFields(data) && (forall x :: x in data ==> AdditiveLast(x, additive)) ==> DistinctKeys(merged, additive))
  }

  /** Sort and merge. */
  method SortAndMerge(data: seq<Row>, additive: set<int>) returns (merged: seq<Row>)
    requires data != []
    ensures merged == Merged(data, additive) && GroupedSums(data, merged, additive)
  {
    hide Key, Adds, AdditiveLast, SameFieldList, Alike, RowLess, Sorted, Grouped, HasGroup, DistinctKeys, Total,
         MergeFrom;
    var sorted := SortRows(data);
    SortSorted(data);
    forall y ensures y in sorted <==> y in data { SortMembers(data, y); }
    merged := MergeNeighbours(sorted, additive);
    assert [sorted[0]] + sorted[1..] == sorted;
    forall key ensures HasGroup(merged, key, additive) <==> HasGroup(data, key, additive) {
      GroupsKept(sorted[0], sorted[1..], additive, key);
      SameGroups(sorted, data, additive, key);
    }
    if TypedAlike(data, additive) {
      forall key: Row, p: nat | p < |key| && Adds(key[p].field, additive)
        ensures Total(merged, key, p, additive) == Total(data, key, p, additive)
      {
        TotalsPreserved(sorted[0], sorted[1..], additive, key, p);
        SortTotal(data, key, p, additive);
      }
    }
    if SameFields(data) && forall x :: x in data ==> AdditiveLast(x, additive) {
      SortedIsGrouped(sorted, additive);
      OneRowPerGroup(sorted[0], sorted[1..], additive);
    }
  }

  lemma {:induction false} SameGroups(a: seq<Row>, b: seq<Row>, additive: set<int>, key: Row)
    requires forall y :: y in a <==> y in b
    ensures HasGroup(a, key, additive) <==> HasGroup(b, key, additive)
  {
    hide Key;
  }

  /** With an additive field first, rows of one group can be kept apart by the sort: three
      rows in two groups stay three. */
  lemma {:induction false} AdditiveFirstCanSplitGroups(a: Row, b: Row, c: Row)
    requires a == [FieldValue(Field(10, 0x1_0000), Int(1)), FieldValue(Field(10, 0x2_0000), Int(1))]
    requires b == [FieldValue(Field(10, 0x1_0000), Int(2)), FieldValue(Field(10, 0x2_0000), Int(2))]
    requires c == [FieldValue(Field(10, 0x1_0000), Int(3)), FieldValue(Field(10, 0x2_0000), Int(1))]
    ensures Sorted([a, b, c]) && SameFields([a, b, c])
    ensures Key(a, {1}) == Key(c, {1}) && MergeFrom(a, [b, c], {1}) == [a, b, c]
  {
    hide Key, RowLess, MergeFrom, Sorted;
    SplitRows(a, b, c);
    InOrder(a, b, c);
    MergeThree(a, b, c, {1});
  }

  lemma {:induction false} SplitRows(a: Row, b: Row, c: Row)
    requires a == [FieldValue(Field(10, 0x1_0000), Int(1)), FieldValue(Field(10, 0x2_0000), Int(1))]
    requires b == [FieldValue(Field(10, 0x1_0000), Int(2)), FieldValue(Field(10, 0x2_0000), Int(2))]
    requires c == [FieldValue(Field(10, 0x1_0000), Int(3)), FieldValue(Field(10, 0x2_0000), Int(1))]
    ensures RowLess(a, b) && RowLess(b, c) && Key(a, {1}) == Key(c, {1}) != Key(b, {1})
  {
    assert a[0] != b[0] && b[0] != c[0];
    assert Key(a, {1})[1] == a[1] && Key(b, {1})[1] == b[1] && Key(c, {1})[1] == c[1];
  }

  lemma {:induction false} InOrder(a: Row, b: Row, c: Row)
    requires RowLess(a, b) && RowLess(b, c)
    ensures Sorted([a, b, c])
  {
    hide RowLess;
    RowsTransitive(a, b, c);
    RowsTotal(a, b);
    RowsTotal(b, c);
    RowsTotal(a, c);
  }

  lemma {:induction false} MergeThree(a: Row, b: Row, c: Row, additive: set<int>)
    requires Key(a, additive) != Key(b, additive) && Key(b, additive) != Key(c, additive)
    ensures MergeFrom(a, [b, c], additive) == [a, b, c]
  {
    hide Key, AddInto;
    assert [b, c][1..] == [c] && [c][1..] == [];
    assert MergeFrom(b, [c], additive) == [b] + MergeFrom(c, [], additive);
    assert MergeFrom(a, [b, c], additive) == [a] + MergeFrom(b, [c], additive);
  }

  // ---------- exactly which layouts are safe ----------

  /** What sort and merge leave of the rows. */
  function Merged(rows: seq<Row>, additive: set<int>): seq<Row> {
    if rows == [] then [] else SortedMerged(SortRows(rows), additive)
  }

  function SortedMerged(sorted: seq<Row>, additive: set<int>): seq<Row> {
    if sorted == [] then [] else MergeFrom(sorted[0], sorted[1..], additive)
  }

  /** Every row has exactly these fields. */
  ghost predicate AllHave(rows: seq<Row>, fields: seq<Field>) {
    forall x :: x in rows ==> HasFields(x, fields)
  }

  ghost predicate HasFields(x: Row, fields: seq<Field>) {
    |x| == |fields| && forall p :: 0 <= p < |x| ==> x[p].field == fields[p]
  }

  ghost predicate AdditiveFieldsLast(fields: seq<Field>, additive: set<int>) {
    forall p, q :: 0 <= p < q < |fields| && Adds(fields[p], additive) ==> Adds(fields[q], additive)
  }

  /** Rows that share a field list always merge to one row per key if and only if the additive
      fields come last in it. */
  lemma {:induction false} LayoutExactIff(fields: seq<Field>, additive: set<int>)
    ensures AdditiveFieldsLast(fields, additive) <==>
            forall rows :: AllHave(rows, fields) ==> DistinctKeys(Merged(rows, additive), additive)
  {
    hide Merged, DistinctKeys, AllHave;
    if AdditiveFieldsLast(fields, additive) {
      forall rows | AllHave(rows, fields) ensures DistinctKeys(Merged(rows, additive), additive) {
        LastIsSafe(fields, additive, rows);
      }
    } else {
      var p, q :| 0 <= p < q < |fields| && Adds(fields[p], additive) && !Adds(fields[q], additive);
      SplitGroup(fields, additive, p, q);
    }
  }

  lemma {:induction false} LastIsSafe(fields: seq<Field>, additive: set<int>, rows: seq<Row>)
    requires AdditiveFieldsLast(fields, additive) && AllHave(rows, fields)
    ensures DistinctKeys(Merged(rows, additive), additive)
  {
    hide Key, Adds, RowLess, Sorted, Grouped, MergeFrom, SortRows;
    if rows != [] {
      var sorted := SortRows(rows);
      SortSorted(rows);
      forall y ensures y in sorted <==> y in rows { SortMembers(rows, y); }
      forall x | x in sorted ensures HasFields(x, fields) && AdditiveLast(x, additive) { }
      SortedIsGrouped(sorted, additive);
      assert [sorted[0]] + sorted[1..] == sorted;
      hide DistinctKeys;
      OneRowPerGroup(sorted[0], sorted[1..], additive);
    }
  }

  /** The row of `fields` with two numbers, and 0 everywhere else. */
  function Row2(fields: seq<Field>, p: nat, a: int, q: nat, b: int): Row {
    seq(|fields|, i requires 0 <= i < |fields| =>
      FieldValue(fields[i], Int(if i == p then a else if i == q then b else 0)))
  }

  lemma {:induction false} Row2Less(fields: seq<Field>, p: nat, q: nat, a: int, b: int, a': int, b': int, i: nat)
    requires i <= p < q < |fields| && a < a'
    ensures LessFrom(Row2(fields, p, a, q, b), Row2(fields, p, a', q, b'), i)
    ensures !LessFrom(Row2(fields, p, a', q, b'), Row2(fields, p, a, q, b), i)
    decreases p - i
  {
    if i < p { Row2Less(fields, p, q, a, b, a', b', i + 1); }
  }

  lemma {:induction false} Row2Keys(fields: seq<Field>, additive: set<int>, p: nat, q: nat, a: int, b: int, a': int,
                                    b': int)
    requires p < q < |fields| && Adds(fields[p], additive) && !Adds(fields[q], additive)
    ensures Key(Row2(fields, p, a, q, b), additive) == Key(Row2(fields, p, a', q, b'), additive) <==> b == b'
  {
    hide Adds;
    var x, y := Row2(fields, p, a, q, b), Row2(fields, p, a', q, b');
    assert Key(x, additive)[q] == x[q] && Key(y, additive)[q] == y[q];
  }

  lemma {:induction false} InsertFirst(x: Row, rows: seq<Row>)
    requires rows == [] || !RowLess(rows[0], x)
    ensures Insert(x, rows) == [x] + rows
  {
  }

  /** With an additive field before one that is not, 1, 2, 3 there and 1, 2, 1 here keep the first
      and the last row, which are of one group, apart. */
  lemma {:induction false} SplitGroup(fields: seq<Field>, additive: set<int>, p: nat, q: nat)
    requires p < q < |fields| && Adds(fields[p], additive) && !Adds(fields[q], additive)
    ensures var rows := [Row2(fields, p, 1, q, 1), Row2(fields, p, 2, q, 2), Row2(fields, p, 3, q, 1)];
            AllHave(rows, fields) && !DistinctKeys(Merged(rows, additive), additive)
  {
    hide Adds, Key, Row2, RowLess, MergeFrom, Grouped, DistinctKeys;
    var x, y, z := Row2(fields, p, 1, q, 1), Row2(fields, p, 2, q, 2), Row2(fields, p, 3, q, 1);
    var rows := [x, y, z];
    Row2Fields(fields, p, q);
    RowsInOrder(fields, p, q);
    assert SortRows(rows) == rows by { SortedAlready(x, y, z); }
    Row2Keys(fields, additive, p, q, 1, 1, 2, 2);
    Row2Keys(fields, additive, p, q, 1, 1, 3, 1);
    NotGrouped(x, y, z, additive);
    assert rows[1..] == [y, z] && [x] + [y, z] == rows;
    OneRowPerGroupIff(x, [y, z], additive);
  }

  lemma {:induction false} NotGrouped(x: Row, y: Row, z: Row, additive: set<int>)
    requires Key(x, additive) == Key(z, additive) != Key(y, additive)
    ensures !Grouped([x, y, z], additive)
  {
    hide Key;
    var rows := [x, y, z];
    assert rows[0] == x && rows[1] == y && rows[2] == z;
  }

  lemma {:induction false} Row2Fields(fields: seq<Field>, p: nat, q: nat)
    ensures forall a, b :: HasFields(Row2(fields, p, a, q, b), fields)
  {
  }

  lemma {:induction false} RowsInOrder(fields: seq<Field>, p: nat, q: nat)
    requires p < q < |fields|
    ensures !RowLess(Row2(fields, p, 3, q, 1), Row2(fields, p, 2, q, 2))
    ensures !RowLess(Row2(fields, p, 2, q, 2), Row2(fields, p, 1, q, 1))
  {
    Row2Less(fields, p, q, 2, 2, 3, 1, 0);
    Row2Less(fields, p, q, 1, 1, 2, 2, 0);
  }

  lemma {:induction false} SortedAlready(x: Row, y: Row, z: Row)
    requires !RowLess(y, x) && !RowLess(z, y)
    ensures SortRows([x, y, z]) == [x, y, z]
  {
    hide RowLess;
    assert [z][1..] == [] && [y, z][1..] == [z] && [x, y, z][1..] == [y, z];
    assert SortRows([z]) == [z];
    InsertFirst(y, [z]);
    assert SortRows([y, z]) == [y, z];
    InsertFirst(x, [y, z]);
  }

  // ---------- the whole operation ----------

  /** A pulled event: its values, which of them are annotated as uids, and where its
      attribution chain stands. */
  datatype Event = Event(tagId: int, values: Row, isUid: seq<bool>, chain: Option<Range>)
  datatype Range = Range(first: nat, last: nat)

  /** The uid of a node of an attribution chain. */
  predicate IsAttributionUidField(v: FieldValue) {
    v.field.field / 0x1_0000 % 0x100 == 1 && v.field.field % 0x80 == 1 && v.value.Int?
  }

  /** That is an integer whose path starts with 1 and ends, with or without the last-bit, in 1,
      whichever node it is. */
  lemma {:induction false} AttributionUidIff(tag: int, depth: nat, a: nat, b: nat, c: nat, v: Value)
    requires a < 0x100 && b < 0x100 && c < 0x100
    ensures IsAttributionUidField(FieldValue(FieldAt(tag, depth, a, b, c), v)) <==>
            a == 1 && (c == 1 || c == 0x81) && v.Int?
  {
    PathParts(tag, depth, a, b, c);
    var f := FieldAt(tag, depth, a, b, c).field;
    Arith.ModUnique(depth * 0x100 + a, 0x100, depth, a);
    WithoutLastBit(f / 0x100, c);
  }

  /** Whether position p holds a uid; `chain` is the one of the first event. */
  predicate HoldsUid(e: Event, chain: Option<Range>, p: nat)
    requires p < |e.values|
  {
    if chain.Some? then chain.value.first <= p <= chain.value.last && IsAttributionUidField(e.values[p])
    else p < |e.isUid| && e.isUid[p]
  }

  /** What the event promises: a flag per value, and integers where there are uids. */
  ghost predicate WellFormed(e: Event, chain: Option<Range>) {
    && |e.isUid| == |e.values|
    && (forall p :: 0 <= p < |e.values| && e.isUid[p] ==> e.values[p].value.Int?)
    && (chain.Some? ==> chain.value.last < |e.values|)
  }

  /** The values with every uid replaced by its host's. */
  function HostRow(e: Event, chain: Option<Range>, host: int -> int): Row {
    seq(|e.values|, p requires 0 <= p < |e.values| =>
      if HoldsUid(e, chain, p) && e.values[p].value.Int? then
        FieldValue(e.values[p].field, Int(host(e.values[p].value.i)))
      else e.values[p])
  }

  /** Position by position: with a chain its uids and nothing else, without one the annotated values
      and nothing else. */
  lemma {:induction false} HostRowIs(e: Event, chain: Option<Range>, host: int -> int, p: nat)
    requires WellFormed(e, chain) && p < |e.values|
    ensures |HostRow(e, chain, host)| == |e.values|
    ensures HostRow(e, chain, host)[p].field == e.values[p].field
    ensures chain.Some? && chain.value.first <= p <= chain.value.last && IsAttributionUidField(e.values[p]) ==>
              HostRow(e, chain, host)[p].value == Int(host(e.values[p].value.i))
    ensures chain.Some? && (p < chain.value.first || p > chain.value.last || !IsAttributionUidField(e.values[p])) ==>
              HostRow(e, chain, host)[p] == e.values[p]
    ensures chain.None? && e.isUid[p] ==> HostRow(e, chain, host)[p].value == Int(host(e.values[p].value.i))
    ensures chain.None? && !e.isUid[p] ==> HostRow(e, chain, host)[p] == e.values[p]
  {
    if !HoldsUid(e, chain, p) { assert HostRow(e, chain, host)[p] == e.values[p]; }
  }

  function HostRows(data: seq<Event>, chain: Option<Range>, host: int -> int): seq<Row> {
    seq(|data|, i requires 0 <= i < |data| => HostRow(data[i], chain, host))
  }

  function Rows(data: seq<Event>): seq<Row> { seq(|data|, i requires 0 <= i < |data| => data[i].values) }

  /** The loop over the values of one event. */
  method MapUids(e: Event, chain: Option<Range>, host: int -> int) returns (row: Row)
    requires WellFormed(e, chain)
    ensures row == HostRow(e, chain, host)
  {
    row := e.values;
    var p := if chain.Some? then chain.value.first else 0;
    var last := if chain.Some? then chain.value.last else |e.values| - 1;
    ghost var start := p;
    while p <= last
      invariant start <= p && (p <= last + 1 || p == start)
      invariant |row| == |e.values|
      invariant forall q :: 0 <= q < |row| ==>
                  row[q] == if start <= q < p then HostRow(e, chain, host)[q] else e.values[q]
    {
      if HoldsUid(e, chain, p) {
        row := row[p := FieldValue(row[p].field, Int(host(row[p].value.i)))];
      }
      p := p + 1;
    }
    forall q | 0 <= q < |row| ensures row[q] == HostRow(e, chain, host)[q] {
      if !(start <= q < p) { assert !HoldsUid(e, chain, q); }
    }
  }

  /** mapAndMergeIsolatedUidsToHostUid. Nothing is done if the first event has no uid; an event of
      another atom stops everything, with the events before it mapped; otherwise the rows are
      those of the mapped events, grouped and summed. */
  method MapAndMerge(data: seq<Event>, host: int -> int, tagId: int, additive: set<int>) returns (rows: seq<Row>)
    requires data != [] && forall i :: 0 <= i < |data| ==> WellFormed(data[i], data[0].chain)
    ensures var chain := data[0].chain;
            if chain.None? && true !in data[0].isUid then rows == Rows(data)
            else if (forall e :: e in data ==> e.tagId == tagId) then
              GroupedSums(HostRows(data, chain, host), rows, additive)
            else exists j :: 0 <= j < |data| && data[j].tagId != tagId
                             && (forall i :: 0 <= i < j ==> data[i].tagId == tagId)
                             && rows == HostRows(data[..j], chain, host) + Rows(data[j..])
  {
    hide GroupedSums, HostRow;
    var chain := data[0].chain;
    rows := Rows(data);
    if chain.None? && true !in data[0].isUid { return; }
    var i := 0;
    while i < |data|
      invariant 0 <= i <= |data| && forall h :: 0 <= h < i ==> data[h].tagId == tagId
      invariant rows == HostRows(data[..i], chain, host) + Rows(data[i..])
    {
      if data[i].tagId != tagId {
        assert data[i] in data;
        return;
      }
      var row := MapUids(data[i], chain, host);
      rows := rows[i := row];
      i := i + 1;
    }
    assert rows == HostRows(data, chain, host);
    rows := SortAndMerge(rows, additive);
  }
}
