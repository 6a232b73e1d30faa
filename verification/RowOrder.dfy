/** Rows of field values and the order the merge sorts them by (statsd/src/FieldValue.h and
    statsd/src/external/puller_util.cpp). */
module RowOrder {
  import opened Arith

  // ---------- fields and values (statsd/src/FieldValue.h) ----------

  datatype Field = Field(tag: int, field: int)

  /** field >> 24. */
  function Depth(f: Field): int { f.field / 0x100_0000 }

  /** The position at depth 0, without its last-bit. */
  function PosAtDepth0(f: Field): int { f.field / 0x1_0000 % 0x80 }

  predicate IsPrimitiveRepeatedField(f: Field) { Depth(f) == 1 }

  /** The field with this depth and these path bytes. */
  function FieldAt(tag: int, depth: nat, a: nat, b: nat, c: nat): Field {
    Field(tag, depth * 0x100_0000 + a * 0x1_0000 + b * 0x100 + c)
  }

  /** The values of the field are added when rows merge. */
  predicate Adds(f: Field, additive: set<int>) { !IsPrimitiveRepeatedField(f) && PosAtDepth0(f) in additive }

  /** A field adds if and only if its first number, without the last-bit, is additive and the field
      is not a repeated primitive one. */
  lemma {:induction false} AddsIff(tag: int, depth: nat, a: nat, b: nat, c: nat, additive: set<int>)
    requires a < 0x100 && b < 0x100 && c < 0x100
    ensures Adds(FieldAt(tag, depth, a, b, c), additive) <==>
            depth != 1 && (if a < 0x80 then a else a - 0x80) in additive
  {
    PathParts(tag, depth, a, b, c);
    WithoutLastBit(depth, a);
  }

  lemma {:induction false} PathParts(tag: int, depth: nat, a: nat, b: nat, c: nat)
    requires a < 0x100 && b < 0x100 && c < 0x100
    ensures var f := FieldAt(tag, depth, a, b, c).field;
            f / 0x1_0000 == depth * 0x100 + a && f / 0x100_0000 == depth && f % 0x100 == c
  {
    var f := FieldAt(tag, depth, a, b, c).field;
    ModUnique(f, 0x1_0000, depth * 0x100 + a, b * 0x100 + c);
    ModUnique(f, 0x100_0000, depth, a * 0x1_0000 + b * 0x100 + c);
    ModUnique(f, 0x100, depth * 0x1_0000 + a * 0x100 + b, c);
  }

  lemma {:induction false} WithoutLastBit(depth: nat, a: nat)
    requires a < 0x100
    ensures (depth * 0x100 + a) % 0x80 == if a < 0x80 then a else a - 0x80
  {
    if a < 0x80 {
      ModUnique(depth * 0x100 + a, 0x80, 2 * depth, a);
    } else {
      ModUnique(depth * 0x100 + a, 0x80, 2 * depth + 1, a - 0x80);
    }
  }

  /** In the order of the variant's alternatives. Strings are their bytes. */
  datatype Value = Unknown | Int(i: int) | Long(l: int) | Float(f: real) | Double(d: real)
                 | String(s: seq<int>) | Storage(b: seq<int>)

  function Type(v: Value): nat {
    match v case Unknown => 0 case Int(_) => 1 case Long(_) => 2 case Float(_) => 3
            case Double(_) => 4 case String(_) => 5 case Storage(_) => 6
  }

  datatype FieldValue = FieldValue(field: Field, value: Value)
  type Row = seq<FieldValue>

  predicate BytesLess(a: seq<int>, b: seq<int>) {
    if b == [] then false
    else if a == [] then true
    else if a[0] != b[0] then a[0] < b[0]
    else BytesLess(a[1..], b[1..])
  }

  predicate ValueLess(a: Value, b: Value) {
    if Type(a) != Type(b) then Type(a) < Type(b)
    else match a
      case Unknown => false
      case Int(i) => i < b.i
      case Long(l) => l < b.l
      case Float(f) => f < b.f
      case Double(d) => d < b.d
      case String(s) => BytesLess(s, b.s)
      case Storage(s) => BytesLess(s, b.b)
  }

  predicate FieldLess(a: Field, b: Field) {
    if a.tag != b.tag then a.tag < b.tag else if a.field != b.field then a.field < b.field else false
  }

  predicate FieldValueLess(a: FieldValue, b: FieldValue) {
    if a.field != b.field then FieldLess(a.field, b.field)
    else if a.value != b.value then ValueLess(a.value, b.value)
    else false
  }

  /** The comparison from position `i` on. */
  predicate LessFrom(a: Row, b: Row, i: nat)
    requires |a| == |b| && i <= |a|
    decreases |a| - i
  {
    if i == |a| then false
    else if a[i] != b[i] then FieldValueLess(a[i], b[i])
    else LessFrom(a, b, i + 1)
  }

  /** The sort's comparator. */
  predicate RowLess(a: Row, b: Row) {
    if |a| != |b| then |a| < |b| else LessFrom(a, b, 0)
  }

  // ---------- the comparator is a strict total order, as std::sort demands ----------

  lemma {:induction false} BytesTotal(a: seq<int>, b: seq<int>)
    ensures (BytesLess(a, b) || BytesLess(b, a)) <==> a != b
    ensures !(BytesLess(a, b) && BytesLess(b, a))
  {
    if a != [] && b != [] && a[0] == b[0] {
      BytesTotal(a[1..], b[1..]);
      assert a == [a[0]] + a[1..] && b == [b[0]] + b[1..];
    }
  }

  lemma {:induction false} BytesTransitive(a: seq<int>, b: seq<int>, c: seq<int>)
    requires BytesLess(a, b) && BytesLess(b, c)
    ensures BytesLess(a, c)
  {
    if a != [] && a[0] == b[0] == c[0] { BytesTransitive(a[1..], b[1..], c[1..]); }
  }

  lemma {:induction false} ValuesTotal(a: Value, b: Value)
    ensures (ValueLess(a, b) || ValueLess(b, a)) <==> a != b
    ensures !(ValueLess(a, b) && ValueLess(b, a))
  {
    hide BytesLess;
    if a.String? && b.String? { BytesTotal(a.s, b.s); }
    if a.Storage? && b.Storage? { BytesTotal(a.b, b.b); }
  }

  lemma {:induction false} ValuesTransitive(a: Value, b: Value, c: Value)
    requires ValueLess(a, b) && ValueLess(b, c)
    ensures ValueLess(a, c)
  {
    hide BytesLess;
    if a.String? && b.String? && c.String? { BytesTransitive(a.s, b.s, c.s); }
    if a.Storage? && b.Storage? && c.Storage? { BytesTransitive(a.b, b.b, c.b); }
  }

  lemma {:induction false} FieldValuesTotal(a: FieldValue, b: FieldValue)
    ensures (FieldValueLess(a, b) || FieldValueLess(b, a)) <==> a != b
    ensures !(FieldValueLess(a, b) && FieldValueLess(b, a))
  {
    hide ValueLess;
    ValuesTotal(a.value, b.value);
  }

  lemma {:induction false} FieldValuesTransitive(a: FieldValue, b: FieldValue, c: FieldValue)
    requires FieldValueLess(a, b) && FieldValueLess(b, c)
    ensures FieldValueLess(a, c)
  {
    hide ValueLess;
    if a.field == b.field == c.field {
      ValuesTransitive(a.value, b.value, c.value);
      ValuesTotal(a.value, c.value);
      ValuesTotal(a.value, b.value);
      ValuesTotal(a.value, a.value);
      ValuesTotal(b.value, c.value);
    }
  }

  lemma {:induction false} LessFromTotal(a: Row, b: Row, i: nat)
    requires |a| == |b| && i <= |a|
    ensures (LessFrom(a, b, i) || LessFrom(b, a, i)) <==> a[i..] != b[i..]
    ensures !(LessFrom(a, b, i) && LessFrom(b, a, i))
    decreases |a| - i
  {
    hide FieldValueLess;
    if i < |a| {
      FieldValuesTotal(a[i], b[i]);
      LessFromTotal(a, b, i + 1);
      assert a[i..] == [a[i]] + a[i + 1..] && b[i..] == [b[i]] + b[i + 1..];
    }
  }

  lemma {:induction false} LessFromTransitive(a: Row, b: Row, c: Row, i: nat)
    requires |a| == |b| == |c| && i <= |a| && LessFrom(a, b, i) && LessFrom(b, c, i)
    ensures LessFrom(a, c, i)
    decreases |a| - i
  {
    hide FieldValueLess;
    if a[i] == b[i] == c[i] {
      LessFromTransitive(a, b, c, i + 1);
    } else if a[i] != b[i] && b[i] != c[i] {
      FieldValuesTransitive(a[i], b[i], c[i]);
      FieldValuesTotal(a[i], c[i]);
    }
  }

  /** Trichotomy and asymmetry. */
  lemma {:induction false} RowsTotal(a: Row, b: Row)
    ensures (RowLess(a, b) || RowLess(b, a)) <==> a != b
    ensures !(RowLess(a, b) && RowLess(b, a))
  {
    if |a| == |b| { LessFromTotal(a, b, 0); }
  }

  lemma {:induction false} RowsTransitive(a: Row, b: Row, c: Row)
    requires RowLess(a, b) && RowLess(b, c)
    ensures RowLess(a, c)
  {
    if |a| == |b| == |c| { LessFromTransitive(a, b, c, 0); }
  }
}
