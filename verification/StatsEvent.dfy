/** The event writer of lib/libstatssocket/stats_event.cpp: a growing buffer with sticky
    error flags. `buf` is the allocated memory, so every index is a bounds check. */
module StatsEvent {
  import Arith
  import opened Options
  import opened StatsEventCodec

  const MAX_PUSH_EVENT_PAYLOAD: nat := 4068 - 4
  const MAX_PULL_EVENT_PAYLOAD: nat := 50 * 1024
  const POS_NUM_ELEMENTS: nat := 1
  const POS_TIMESTAMP: nat := 2
  const POS_ATOM_ID: nat := 11

  /** The error bits; `errors` is the set of bits that are on. */
  datatype Error =
    | NoAtomId | Overflow | AttributionChainTooLong | AnnotationDoesNotFollowField | AnnotationIdTooLarge
    | TooManyAnnotations | TooManyFields | StringNotNullTerminated | AtomIdInvalidPosition | ListTooLong

  function Bit(on: bool, bit: nat): nat { if on then bit else 0 }

  function Mask(errors: set<Error>): u32 {
    Bit(NoAtomId in errors, 0x2) + Bit(Overflow in errors, 0x4) + Bit(AttributionChainTooLong in errors, 0x8)
    + Bit(AnnotationDoesNotFollowField in errors, 0x20) + Bit(AnnotationIdTooLarge in errors, 0x80)
    + Bit(TooManyAnnotations in errors, 0x100) + Bit(TooManyFields in errors, 0x200)
    + Bit(StringNotNullTerminated in errors, 0x800) + Bit(AtomIdInvalidPosition in errors, 0x2000)
    + Bit(ListTooLong in errors, 0x4000)
  }

  /** A size doubled, at least once, until it exceeds `needed`; no more than it has to be. */
  function Enlarged(size: nat, needed: nat): (r: nat)
    requires size > 0
    ensures r > needed && r % 2 == 0 && (r == 2 * size || r / 2 <= needed)
    decreases needed - size
  {
    if 2 * size > needed then 2 * size else Enlarged(2 * size, needed)
  }

  /** The two low bytes of the mask. */
  lemma {:induction false} MaskSplits(errors: set<Error>)
    ensures Mask(errors) % 0x100 ==
            Bit(NoAtomId in errors, 0x2) + Bit(Overflow in errors, 0x4) + Bit(AttributionChainTooLong in errors, 0x8)
            + Bit(AnnotationDoesNotFollowField in errors, 0x20) + Bit(AnnotationIdTooLarge in errors, 0x80)
    ensures Mask(errors) / 0x100 ==
            Bit(TooManyAnnotations in errors, 0x1) + Bit(TooManyFields in errors, 0x2)
            + Bit(StringNotNullTerminated in errors, 0x8) + Bit(AtomIdInvalidPosition in errors, 0x20)
            + Bit(ListTooLong in errors, 0x40)
  {
    var low := Bit(NoAtomId in errors, 0x2) + Bit(Overflow in errors, 0x4) + Bit(AttributionChainTooLong in errors, 0x8)
               + Bit(AnnotationDoesNotFollowField in errors, 0x20) + Bit(AnnotationIdTooLarge in errors, 0x80);
    var high := Bit(TooManyAnnotations in errors, 0x1) + Bit(TooManyFields in errors, 0x2)
                + Bit(StringNotNullTerminated in errors, 0x8) + Bit(AtomIdInvalidPosition in errors, 0x20)
                + Bit(ListTooLong in errors, 0x40);
    Arith.ModUnique(Mask(errors), 0x100, high, low);
  }

  predicate On(mask: nat, bit: nat)
    requires bit > 0
  {
    mask / bit % 2 == 1
  }

  lemma {:induction false} FiveBits(a: bool, b: bool, c: bool, d: bool, e: bool, low: nat)
    requires low == Bit(a, 0x2) + Bit(b, 0x4) + Bit(c, 0x8) + Bit(d, 0x20) + Bit(e, 0x80)
    ensures (On(low, 0x2) <==> a) && (On(low, 0x4) <==> b) && (On(low, 0x8) <==> c)
    ensures (On(low, 0x20) <==> d) && (On(low, 0x80) <==> e)
  {
  }

  lemma {:induction false} FiveHighBits(a: bool, b: bool, c: bool, d: bool, e: bool, high: nat)
    requires high == Bit(a, 0x1) + Bit(b, 0x2) + Bit(c, 0x8) + Bit(d, 0x20) + Bit(e, 0x40)
    ensures (On(high, 0x1) <==> a) && (On(high, 0x2) <==> b) && (On(high, 0x8) <==> c)
    ensures (On(high, 0x20) <==> d) && (On(high, 0x40) <==> e)
  {
  }

  /** Each error is in the set if and only if its bit is on in the bytes of the mask. */
  lemma {:induction false} MaskTells(errors: set<Error>)
    ensures var m := LE(Mask(errors), 4);
            && |m| == 4 && m[2] == 0 && m[3] == 0
            && (NoAtomId in errors <==> On(m[0], 0x2)) && (Overflow in errors <==> On(m[0], 0x4))
            && (AttributionChainTooLong in errors <==> On(m[0], 0x8))
            && (AnnotationDoesNotFollowField in errors <==> On(m[0], 0x20))
            && (AnnotationIdTooLarge in errors <==> On(m[0], 0x80))
            && (TooManyAnnotations in errors <==> On(m[1], 0x1)) && (TooManyFields in errors <==> On(m[1], 0x2))
            && (StringNotNullTerminated in errors <==> On(m[1], 0x8))
            && (AtomIdInvalidPosition in errors <==> On(m[1], 0x20)) && (ListTooLong in errors <==> On(m[1], 0x40))
  {
    hide On, Mask;
    var mask := Mask(errors);
    MaskSplits(errors);
    MaskBytes(mask);
    FiveBits(NoAtomId in errors, Overflow in errors, AttributionChainTooLong in errors,
             AnnotationDoesNotFollowField in errors, AnnotationIdTooLarge in errors, mask % 0x100);
    FiveHighBits(TooManyAnnotations in errors, TooManyFields in errors, StringNotNullTerminated in errors,
                 AtomIdInvalidPosition in errors, ListTooLong in errors, mask / 0x100);
  }

  lemma {:induction false} MaskBytes(mask: u32)
    requires mask / 0x100 < 0x100
    ensures var m := LE(mask, 4); |m| == 4 && m[0] == mask % 0x100 && m[1] == mask / 0x100 && m[2] == 0 && m[3] == 0
  {
    assert LE(mask / 0x100 / 0x100 / 0x100, 1) == [0];
    assert LE(mask / 0x100 / 0x100, 2) == [0, 0];
    assert LE(mask / 0x100, 3) == [mask / 0x100, 0, 0];
  }

  /** So the built error event says exactly which errors were raised. */
  lemma {:induction false} MaskUnique(a: set<Error>, b: set<Error>)
    requires Mask(a) == Mask(b)
    ensures a == b
  {
    hide On, Mask;
    MaskTells(a);
    MaskTells(b);
    forall e ensures e in a <==> e in b {
      match e case NoAtomId => case Overflow => case AttributionChainTooLong => case AnnotationDoesNotFollowField =>
              case AnnotationIdTooLarge => case TooManyAnnotations => case TooManyFields =>
              case StringNotNullTerminated => case AtomIdInvalidPosition => case ListTooLong =>
    }
  }

  /** Bytes appended to `w`: all of them if they fit in the maximal payload. Otherwise nothing
      written before is disturbed, and an error is raised: that a string is too long if one
      is, and an overflow if none is. */
  ghost predicate Wrote(w: seq<byte>, e: set<Error>, w': seq<byte>, e': set<Error>, bytes: seq<byte>, long: bool) {
    if |w| + |bytes| <= MAX_PULL_EVENT_PAYLOAD then !long && e' == e && w' == w + bytes
    else w <= w' && Raised(e, e', long)
  }

  ghost predicate Raised(e: set<Error>, e': set<Error>, long: bool) {
    && e <= e' <= e + {Overflow, StringNotNullTerminated}
    && (StringNotNullTerminated in e' <==> StringNotNullTerminated in e || long)
    && (!long ==> Overflow in e')
  }

  // A string this long raises an error before any of it is written.
  predicate LongString(s: seq<byte>) { |s| >= MAX_PULL_EVENT_PAYLOAD }
  predicate LongScalar(x: Scalar) { x.Str? && LongString(x.s) }
  predicate LongNodes(ns: seq<Node>) { exists n :: n in ns && LongString(n.tag) }
  predicate LongScalars(xs: seq<Scalar>) { exists x :: x in xs && LongScalar(x) }

  predicate LongValue(x: Value) {
    match x
    case One(y) => LongScalar(y)
    case Bytes(_) => false
    case Chain(nodes) => LongNodes(nodes)
    case List(_, elements) => LongScalars(elements)
  }

  lemma {:induction false} WroteBoth(w: seq<byte>, e: set<Error>, w': seq<byte>, e': set<Error>, w'': seq<byte>,
                                     e'': set<Error>, a: seq<byte>, b: seq<byte>, longA: bool, longB: bool)
    requires Wrote(w, e, w', e', a, longA) && Wrote(w', e', w'', e'', b, longB)
    ensures Wrote(w, e, w'', e'', a + b, longA || longB)
  {
    if |w| + |a| + |b| <= MAX_PULL_EVENT_PAYLOAD {
      assert w + a + b == w + (a + b);
    }
  }

  lemma WroteNothing(w: seq<byte>, e: set<Error>)
    requires |w| <= MAX_PULL_EVENT_PAYLOAD
    ensures Wrote(w, e, w, e, [], false)
  {
  }

  /** The built event when an error was raised: timestamp, atom id, error mask. */
  ghost function ErrorEvent(timestamp: u64, atomId: seq<byte>, errors: set<Error>): seq<byte> {
    [OBJECT_TYPE, 3, INT64_TYPE] + LE(timestamp, 8) + [INT32_TYPE] + atomId + [ERROR_TYPE] + LE(Mask(errors), 4)
  }

  /** The logical state of a writer. */
  datatype View = View(w: seq<byte>, errors: set<Error>, numElements: nat, lastFieldPos: nat, atomId: u32,
                       fields: seq<Field>, timestamp: u64)

  /** The fixed start of every event: OBJECT_TYPE, the timestamp, then the atom id. */
  ghost predicate Header(v: View) {
    && |v.w| >= POS_ATOM_ID && v.numElements >= 1
    && v.w[0] == OBJECT_TYPE && v.w[POS_TIMESTAMP] == INT64_TYPE
    && v.w[POS_TIMESTAMP + 1..POS_ATOM_ID] == LE(v.timestamp, 8)
    && (v.numElements == 1 ==> |v.w| == POS_ATOM_ID)
    && (v.numElements >= 2 ==> v.lastFieldPos >= POS_ATOM_ID)
    && (v.atomId != 0 ==>
          && v.numElements >= 2 && |v.w| >= POS_ATOM_ID + 5
          && v.w[POS_ATOM_ID + 1..POS_ATOM_ID + 5] == LE(v.atomId, 4)
          && (v.lastFieldPos == POS_ATOM_ID || v.lastFieldPos >= POS_ATOM_ID + 5))
  }

  /** The bytes after the two reserved ones encode the fields. */
  ghost predicate Encoded(v: View) {
    && |v.w| >= 2 && v.numElements == |v.fields| > 0
    && FieldsOk(v.fields) && v.w[2..] == FieldsBytes(v.fields)
    && v.lastFieldPos == 2 + |FieldsBytes(v.fields[..|v.fields| - 1])|
  }

  /** What every call keeps: as long as no error was raised, the buffer is the
      encoding of exactly the fields and annotations written so far. */
  ghost predicate Consistent(v: View) {
    Header(v) && (v.errors == {} ==> Encoded(v))
  }

  /** The element counts and types that a write accepts; strings may have any length. */
  ghost predicate ShapeOk(x: Value) {
    && (x.Chain? ==> |x.nodes| <= MAX_BYTE_VALUE)
    && (x.List? ==> |x.elements| <= MAX_BYTE_VALUE && IsScalarType(x.elementType)
                    && forall y :: y in x.elements ==> KindOf(y) == x.elementType)
  }

  ghost function FieldSize(x: Value): nat
    requires ShapeOk(x)
  {
    1 + |ValueBytes(x)|
  }

  /** One more field: without an error exactly if there was none and the field fits. */
  ghost predicate FieldWritten(v: View, v': View, x: Value)
    requires ShapeOk(x)
  {
    && v'.timestamp == v.timestamp && v'.numElements == v.numElements + 1
    && (if |v.w| + FieldSize(x) <= MAX_PULL_EVENT_PAYLOAD then v'.errors == v.errors
        else Raised(v.errors, v'.errors, LongValue(x)))
    && (v'.errors == {} <==> v.errors == {} && |v.w| + FieldSize(x) <= MAX_PULL_EVENT_PAYLOAD)
    && (v'.errors == {} ==> v'.fields == v.fields + [Field(x, [])])
  }

  ghost function AfterField(v: View, w: seq<byte>, e: set<Error>, x: Value): View {
    v.(w := w, errors := e, numElements := v.numElements + 1, lastFieldPos := |v.w|,
       fields := if e == {} then v.fields + [Field(x, [])] else v.fields)
  }

  lemma {:induction false} HeaderGrows(v: View, w: seq<byte>, e: set<Error>, x: Value)
    requires Header(v) && v.w <= w
    ensures Header(AfterField(v, w, e, x))
  {
    hide LE;
  }

  lemma {:induction false} AddField(v: View, w: seq<byte>, e: set<Error>, x: Value)
    requires Consistent(v) && ShapeOk(x) && Wrote(v.w, v.errors, w, e, [TypeOf(x)] + ValueBytes(x), LongValue(x))
    ensures Consistent(AfterField(v, w, e, x))
    ensures FieldWritten(v, AfterField(v, w, e, x), x)
  {
    hide Header, FieldsBytes, ValueBytes;
    HeaderGrows(v, w, e, x);
    if e == {} {
      FittingValue(x);
      PlainField(x);
      FieldsPush(v.fields, Field(x, []));
      assert w[2..] == v.w[2..] + ([TypeOf(x)] + ValueBytes(x));
      assert (v.fields + [Field(x, [])])[..|v.fields|] == v.fields;
    }
  }

  ghost function LastField(v: View): Field
    requires v.fields != []
  {
    v.fields[|v.fields| - 1]
  }

  ghost function AnnotationSize(a: Annotation): nat { |AnnotationBytes(a)| }

  /** When an annotation is accepted. */
  ghost predicate AnnotationFits(v: View, a: Annotation) {
    && v.errors == {} && v.numElements >= 2 && a.id <= MAX_BYTE_VALUE
    && |v.w| + AnnotationSize(a) <= MAX_PULL_EVENT_PAYLOAD
    && (v.fields != [] ==> |LastField(v).annotations| < MAX_ANNOTATION_COUNT)
  }

  /** The bits an annotation raises: it follows no field, its id is too large, there is no room,
      or the field has as many annotations as can be counted. */
  ghost predicate AnnotationErrors(v: View, e: set<Error>, a: Annotation) {
    if v.numElements < 2 then e == v.errors + {AnnotationDoesNotFollowField}
    else if a.id > MAX_BYTE_VALUE then e == v.errors + {AnnotationIdTooLarge}
    else
      && v.errors <= e <= v.errors + {Overflow, TooManyAnnotations}
      && (Overflow in e <==> Overflow in v.errors || |v.w| + AnnotationSize(a) > MAX_PULL_EVENT_PAYLOAD)
      && (v.errors == {} && v.fields != [] ==>
            (TooManyAnnotations in e <==> |LastField(v).annotations| >= MAX_ANNOTATION_COUNT))
  }

  /** One more annotation on the last field, or an error. */
  ghost predicate AnnotationAdded(v: View, v': View, a: Annotation) {
    && v'.timestamp == v.timestamp && v'.numElements == v.numElements && v'.atomId == v.atomId
    && AnnotationErrors(v, v'.errors, a)
    && (v'.errors == {} <==> AnnotationFits(v, a))
    && (v'.errors == {} && v.fields != [] ==>
          v'.fields == v.fields[..|v.fields| - 1] + [LastField(v).(annotations := LastField(v).annotations + [a])])
  }

  /** The bytes of the last field start at lastFieldPos, with its type and annotation count. */
  lemma {:induction false} LastFieldAt(v: View)
    requires Encoded(v)
    ensures FieldOk(LastField(v)) && FieldsOk(v.fields[..|v.fields| - 1]) && v.lastFieldPos < |v.w|
    ensures v.w == v.w[..v.lastFieldPos] + FieldBytes(LastField(v))
    ensures v.w[..v.lastFieldPos][2..] == FieldsBytes(v.fields[..|v.fields| - 1]) && v.lastFieldPos >= 2
    ensures v.w[v.lastFieldPos] == TypeInfo(LastField(v))
  {
    hide FieldsBytes, ValueBytes, AnnotationsBytes, FieldOk;
    var init, f := v.fields[..|v.fields| - 1], LastField(v);
    assert v.fields == init + [f];
    FieldsPush(init, f);
    assert v.w == v.w[..2] + v.w[2..];
    assert FieldBytes(f)[0] == TypeInfo(f);
  }

  /** Appending the annotation and bumping the count yields the longer field's encoding. */
  lemma {:induction false} AnnotatedField(f: Field, a: Annotation)
    requires FieldOk(f) && ScalarOk(a.value) && |f.annotations| < MAX_ANNOTATION_COUNT
    ensures var g := f.(annotations := f.annotations + [a]);
            FieldOk(g) && FieldBytes(g) == [TypeInfo(f) + 16] + FieldBytes(f)[1..] + AnnotationBytes(a)
  {
    hide ValueBytes, AnnotationsBytes, AnnotationBytes;
    AnnotationsPush(f.annotations, a);
    var g := f.(annotations := f.annotations + [a]);
    assert FieldBytes(f)[1..] == ValueBytes(f.value) + AnnotationsBytes(f.annotations);
    assert FieldBytes(g) ==
           [TypeInfo(g)] + (ValueBytes(f.value) + (AnnotationsBytes(f.annotations) + AnnotationBytes(a)));
  }

  ghost function AfterAnnotation(v: View, a: Annotation): View
    requires Encoded(v) && v.lastFieldPos < |v.w| && v.w[v.lastFieldPos] < 240
  {
    v.(w := (v.w + AnnotationBytes(a))[v.lastFieldPos := v.w[v.lastFieldPos] + 16],
       fields := v.fields[..|v.fields| - 1] + [LastField(v).(annotations := LastField(v).annotations + [a])])
  }

  lemma {:induction false} AddAnnotation(v: View, a: Annotation)
    requires Encoded(v) && ScalarOk(a.value) && |LastField(v).annotations| < MAX_ANNOTATION_COUNT
    ensures v.lastFieldPos < |v.w| && v.w[v.lastFieldPos] < 240
    ensures Encoded(AfterAnnotation(v, a))
  {
    hide FieldsBytes, FieldBytes, AnnotationBytes;
    LastFieldAt(v);
    var init, f := v.fields[..|v.fields| - 1], LastField(v);
    var g := f.(annotations := f.annotations + [a]);
    AnnotatedField(f, a);
    FieldsPush(init, g);
    var v' := AfterAnnotation(v, a);
    assert v'.fields[..|v'.fields| - 1] == init && v'.fields == init + [g];
    assert v.w[v.lastFieldPos..] == FieldBytes(f);
    assert v'.w == v.w[..v.lastFieldPos] + ([TypeInfo(f) + 16] + FieldBytes(f)[1..] + AnnotationBytes(a));
    assert v'.w[2..] == v.w[..v.lastFieldPos][2..] + FieldBytes(g);
  }

  /** What fits in the buffer has lengths that fit in their length fields. */
  lemma {:induction false} FittingValue(x: Value)
    requires ShapeOk(x) && |ValueBytes(x)| <= MAX_PULL_EVENT_PAYLOAD
    ensures ValueOk(x)
  {
    if x.Chain? {
      forall n | n in x.nodes ensures |n.tag| <= MAX_PULL_EVENT_PAYLOAD { NodeWithin(x.nodes, n); }
    } else if x.List? {
      forall y | y in x.elements ensures ScalarOk(y) { ScalarWithin(x.elements, y); }
    }
  }

  lemma {:induction false} NodeWithin(nodes: seq<Node>, n: Node)
    requires n in nodes
    ensures |n.tag| <= |NodesBytes(nodes)|
  {
    if nodes[0] != n { NodeWithin(nodes[1..], n); }
  }

  lemma {:induction false} ScalarWithin(xs: seq<Scalar>, x: Scalar)
    requires x in xs
    ensures |ScalarBytes(x)| <= |ScalarsBytes(xs)|
  {
    if xs[0] != x { ScalarWithin(xs[1..], x); }
  }

  lemma {:induction false} PlainField(x: Value)
    requires ValueOk(x)
    ensures FieldBytes(Field(x, [])) == [TypeOf(x)] + ValueBytes(x)
  {
    hide ValueBytes;
    assert AnnotationsBytes([]) == [];
  }

  class AStatsEvent {
    var buf: seq<byte>
    var bufSize: nat
    var numBytesWritten: nat
    var lastFieldPos: nat
    var numElements: nat
    var atomId: u32
    var errors: set<Error>
    var built: bool
    ghost var fields: seq<Field>
    ghost var timestamp: u64

    /** Memory safety. */
    ghost predicate Safe()
      reads this
    {
      && |buf| == bufSize && numBytesWritten <= bufSize
      && MAX_PUSH_EVENT_PAYLOAD <= bufSize <= MAX_PULL_EVENT_PAYLOAD
    }

    ghost function Written(): seq<byte>
      reads this
      requires Safe()
    {
      buf[..numBytesWritten]
    }

    /** The buffer is doubled until it is larger than what is needed, up to the maximum, and not
        touched if there is room. */
    method Overflows(size: nat) returns (r: bool)
      requires Safe()
      modifies `errors, `buf, `bufSize
      ensures Safe() && Written() == old(Written())
      ensures r == (numBytesWritten + size > MAX_PULL_EVENT_PAYLOAD)
      ensures errors == if r then old(errors) + {Overflow} else old(errors)
      ensures !r ==> numBytesWritten + size <= bufSize
      ensures r || numBytesWritten + size <= old(bufSize) ==> bufSize == old(bufSize) && buf == old(buf)
      ensures !r && numBytesWritten + size > old(bufSize) ==>
                var grown := Enlarged(old(bufSize), numBytesWritten + size);
                bufSize == if grown > MAX_PULL_EVENT_PAYLOAD then MAX_PULL_EVENT_PAYLOAD else grown
    {
      hide Enlarged;
      var needed := numBytesWritten + size;
      if needed > MAX_PULL_EVENT_PAYLOAD {
        errors := errors + {Overflow};
        return true;
      }
      if bufSize < MAX_PULL_EVENT_PAYLOAD && needed > bufSize {
        var size := Enlarge(bufSize, needed);
        bufSize := if size > MAX_PULL_EVENT_PAYLOAD then MAX_PULL_EVENT_PAYLOAD else size;
        buf := Realloc(buf, bufSize);
      }
      return false;
    }

    /** The doubling loop. */
    static method Enlarge(bufSize: nat, needed: nat) returns (size: nat)
      requires bufSize > 0
      ensures size == Enlarged(bufSize, needed)
    {
      size := bufSize * 2;
      while size <= needed
        invariant size >= 2 * bufSize
        invariant (if size > needed then size else Enlarged(size, needed)) == Enlarged(bufSize, needed)
        decreases needed - size
      {
        size := size * 2;
      }
    }

    /** Fresh memory keeps the old contents; nothing is promised about the rest. */
    static method Realloc(old_buf: seq<byte>, size: nat) returns (r: seq<byte>)
      requires |old_buf| <= size
      ensures |r| == size && old_buf <= r
    {
      r := old_buf + seq(size - |old_buf|, _ => 0);
    }

    /** append_byte, append_int32, append_int64, append_float and append_byte_array. */
    method Append(bytes: seq<byte>)
      requires Safe()
      modifies `errors, `buf, `bufSize, `numBytesWritten
      ensures Safe() && Wrote(old(Written()), old(errors), Written(), errors, bytes, false)
    {
      var full := Overflows(|bytes|);
      if !full {
        buf := buf[..numBytesWritten] + bytes + buf[numBytesWritten + |bytes|..];
        numBytesWritten := numBytesWritten + |bytes|;
      }
    }

    method AppendString(s: seq<byte>)
      requires Safe()
      modifies `errors, `buf, `bufSize, `numBytesWritten
      ensures Safe() && Wrote(old(Written()), old(errors), Written(), errors, StringBytes(s), LongString(s))
    {
      if |s| >= MAX_PULL_EVENT_PAYLOAD {
        errors := errors + {StringNotNullTerminated};
        return;
      }
      ghost var w, e := Written(), errors;
      Append(LE(|s|, 4));
      ghost var w', e' := Written(), errors;
      Append(s);
      WroteBoth(w, e, w', e', Written(), errors, LE(|s|, 4), s, false, false);
    }

    method StartField(typeId: byte)
      requires Safe()
      modifies `errors, `buf, `bufSize, `numBytesWritten, `lastFieldPos, `numElements
      ensures Safe() && Wrote(old(Written()), old(errors), Written(), errors, [typeId], false)
      ensures lastFieldPos == old(numBytesWritten) && numElements == old(numElements) + 1
    {
      lastFieldPos := numBytesWritten;
      Append([typeId]);
      numElements := numElements + 1;
    }

    ghost function Snapshot(): View
      reads this
      requires Safe()
    {
      View(Written(), errors, numElements, lastFieldPos, atomId, fields, timestamp)
    }

    ghost predicate Valid()
      reads this
    {
      Safe() && Consistent(Snapshot())
    }

    /** Takes note of a field whose bytes have been appended. */
    ghost method NoteField(v: View, x: Value)
      requires Safe() && Consistent(v) && ShapeOk(x)
      requires Wrote(v.w, v.errors, Written(), errors, [TypeOf(x)] + ValueBytes(x), LongValue(x))
      requires lastFieldPos == |v.w| && numElements == v.numElements + 1
      requires atomId == v.atomId && fields == v.fields && timestamp == v.timestamp
      modifies `fields
      ensures Valid() && FieldWritten(v, Snapshot(), x)
    {
      hide Consistent, FieldWritten, Wrote;
      AddField(v, Written(), errors, x);
      if errors == {} { fields := fields + [Field(x, [])]; }
    }

    /** AStatsEvent_writeInt32, writeInt64, writeFloat, writeBool and writeString. */
    method WriteScalar(x: Scalar)
      requires Valid()
      modifies `buf, `bufSize, `numBytesWritten, `lastFieldPos, `numElements, `errors, `fields
      ensures Valid() && FieldWritten(old(Snapshot()), Snapshot(), One(x)) && atomId == old(atomId)
      ensures Wrote(old(Written()), old(errors), Written(), errors, [KindOf(x)] + ScalarBytes(x), LongScalar(x))
      ensures lastFieldPos == old(numBytesWritten)
    {
      hide Consistent, FieldWritten, Wrote, ScalarBytes;
      ghost var v := Snapshot();
      StartField(KindOf(x));
      ghost var w, e := Written(), errors;
      AppendScalar(x);
      WroteBoth(v.w, v.errors, w, e, Written(), errors, [KindOf(x)], ScalarBytes(x), false, LongScalar(x));
      NoteField(v, One(x));
    }

    method AppendScalar(x: Scalar)
      requires Safe()
      modifies `errors, `buf, `bufSize, `numBytesWritten
      ensures Safe() && Wrote(old(Written()), old(errors), Written(), errors, ScalarBytes(x), LongScalar(x))
    {
      hide Wrote, StringBytes, LE;
      match x
      case Int32(v) => Append(LE(v, 4));
      case Int64(w) => Append(LE(w, 8));
      case Float(bits) => Append(LE(bits, 4));
      case Bool(b) => Append([if b then 1 else 0]);
      case Str(s) => AppendString(s);
    }

    /** A missing array is written as an empty one. */
    method WriteByteArray(data: Option<seq<byte>>)
      requires Valid()
      modifies `buf, `bufSize, `numBytesWritten, `lastFieldPos, `numElements, `errors, `fields
      ensures Valid() && atomId == old(atomId)
      ensures FieldWritten(old(Snapshot()), Snapshot(), Bytes(if data.Some? then data.value else []))
    {
      hide Consistent, FieldWritten, Wrote, LE;
      ghost var v := Snapshot();
      StartField(BYTE_ARRAY_TYPE);
      ghost var w, e := Written(), errors;
      var bytes := if data.Some? then data.value else [];
      Append(LE(|bytes|, 4));
      ghost var w', e' := Written(), errors;
      if |bytes| > 0 {
        Append(bytes);
      } else {
        WroteNothing(w', e');
      }
      WroteBoth(w, e, w', e', Written(), errors, LE(|bytes|, 4), bytes, false, false);
      WroteBoth(v.w, v.errors, w, e, Written(), errors, [BYTE_ARRAY_TYPE], StringBytes(bytes), false, false);
      NoteField(v, Bytes(bytes));
    }

    method WriteAttributionChain(nodes: seq<Node>)
      requires Valid()
      modifies `buf, `bufSize, `numBytesWritten, `lastFieldPos, `numElements, `errors, `fields
      ensures Valid() && atomId == old(atomId)
      ensures if |nodes| > MAX_BYTE_VALUE then
                Snapshot() == old(Snapshot()).(errors := old(errors) + {AttributionChainTooLong})
              else FieldWritten(old(Snapshot()), Snapshot(), Chain(nodes))
    {
      hide Consistent, FieldWritten, Wrote, NodesBytes, NodeBytes;
      ghost var v := Snapshot();
      if |nodes| > MAX_BYTE_VALUE {
        FlagError(v, AttributionChainTooLong);
        errors := errors + {AttributionChainTooLong};
        return;
      }
      StartField(ATTRIBUTION_CHAIN_TYPE);
      ghost var w, e := Written(), errors;
      Append([|nodes|]);
      ghost var w', e' := Written(), errors;
      AppendNodes(nodes);
      WroteBoth(w, e, w', e', Written(), errors, [|nodes|], NodesBytes(nodes), false, LongNodes(nodes));
      WroteBoth(v.w, v.errors, w, e, Written(), errors, [ATTRIBUTION_CHAIN_TYPE], [|nodes|] + NodesBytes(nodes),
                false, LongNodes(nodes));
      NoteField(v, Chain(nodes));
    }

    method AppendNodes(nodes: seq<Node>)
      requires Safe()
      modifies `errors, `buf, `bufSize, `numBytesWritten
      ensures Safe() && Wrote(old(Written()), old(errors), Written(), errors, NodesBytes(nodes), LongNodes(nodes))
    {
      hide Wrote, NodesBytes, StringBytes, LE;
      ghost var w, e := Written(), errors;
      WroteNothing(w, e);
      NoNodes();
      for i := 0 to |nodes|
        invariant Safe() && Wrote(w, e, Written(), errors, NodesBytes(nodes[..i]), LongNodes(nodes[..i]))
      {
        ghost var w1, e1 := Written(), errors;
        Append(LE(nodes[i].uid, 4));
        ghost var w2, e2 := Written(), errors;
        AppendString(nodes[i].tag);
        WroteBoth(w1, e1, w2, e2, Written(), errors, LE(nodes[i].uid, 4), StringBytes(nodes[i].tag),
                  false, LongString(nodes[i].tag));
        WroteBoth(w, e, w1, e1, Written(), errors, NodesBytes(nodes[..i]), NodeBytes(nodes[i]),
                  LongNodes(nodes[..i]), LongString(nodes[i].tag));
        NodesPush(nodes[..i], nodes[i]);
        assert nodes[..i + 1] == nodes[..i] + [nodes[i]];
      }
      assert nodes[..|nodes|] == nodes;
    }

    /** The five array writers: `t` is the element type. */
    method WriteArray(t: byte, elements: seq<Scalar>)
      requires Valid() && IsScalarType(t) && forall x :: x in elements ==> KindOf(x) == t
      modifies `buf, `bufSize, `numBytesWritten, `lastFieldPos, `numElements, `errors, `fields
      ensures Valid() && atomId == old(atomId)
      ensures if |elements| > MAX_BYTE_VALUE then
                Snapshot() == old(Snapshot()).(errors := old(errors) + {ListTooLong})
              else FieldWritten(old(Snapshot()), Snapshot(), List(t, elements))
    {
      hide Consistent, FieldWritten, Wrote, ScalarsBytes;
      ghost var v := Snapshot();
      if |elements| > MAX_BYTE_VALUE {
        FlagError(v, ListTooLong);
        errors := errors + {ListTooLong};
        return;
      }
      StartField(LIST_TYPE);
      ghost var w, e := Written(), errors;
      Append([|elements|]);
      ghost var w1, e1 := Written(), errors;
      Append([t]);
      ghost var w2, e2 := Written(), errors;
      AppendScalars(elements);
      WroteBoth(w, e, w1, e1, w2, e2, [|elements|], [t], false, false);
      WroteBoth(w, e, w2, e2, Written(), errors, [|elements|] + [t], ScalarsBytes(elements), false,
                LongScalars(elements));
      assert [|elements|] + [t] + ScalarsBytes(elements) == [|elements|, t] + ScalarsBytes(elements);
      WroteBoth(v.w, v.errors, w, e, Written(), errors, [LIST_TYPE], [|elements|, t] + ScalarsBytes(elements),
                false, LongScalars(elements));
      NoteField(v, List(t, elements));
    }

    method AppendScalars(xs: seq<Scalar>)
      requires Safe()
      modifies `errors, `buf, `bufSize, `numBytesWritten
      ensures Safe() && Wrote(old(Written()), old(errors), Written(), errors, ScalarsBytes(xs), LongScalars(xs))
    {
      hide Wrote, ScalarsBytes, ScalarBytes;
      ghost var w, e := Written(), errors;
      WroteNothing(w, e);
      NoScalars();
      for i := 0 to |xs|
        invariant Safe() && Wrote(w, e, Written(), errors, ScalarsBytes(xs[..i]), LongScalars(xs[..i]))
      {
        ghost var w1, e1 := Written(), errors;
        AppendScalar(xs[i]);
        WroteBoth(w, e, w1, e1, Written(), errors, ScalarsBytes(xs[..i]), ScalarBytes(xs[i]),
                  LongScalars(xs[..i]), LongScalar(xs[i]));
        ScalarsPush(xs[..i], xs[i]);
        assert xs[..i + 1] == xs[..i] + [xs[i]];
      }
      assert xs[..|xs|] == xs;
    }

    /** Bumps the count in the high nibble of the last field's type byte. */
    method IncrementAnnotationCount()
      requires Safe()
      modifies `errors, `buf
      ensures Safe()
      ensures lastFieldPos < numBytesWritten ==>
                && Written() == (if old(buf)[lastFieldPos] < 240
                                 then old(Written())[lastFieldPos := old(buf)[lastFieldPos] + 16] else old(Written()))
                && errors == (if old(buf)[lastFieldPos] < 240 then old(errors) else old(errors) + {TooManyAnnotations})
      ensures lastFieldPos >= numBytesWritten ==>
                Written() == old(Written()) && old(errors) <= errors <= old(errors) + {TooManyAnnotations}
    {
      if lastFieldPos >= bufSize {
        return;
      }
      var fieldType := buf[lastFieldPos] % 16;
      var newCount := buf[lastFieldPos] / 16 + 1;
      if newCount > MAX_ANNOTATION_COUNT {
        errors := errors + {TooManyAnnotations};
        return;
      }
      buf := buf[lastFieldPos := newCount * 16 + fieldType];
    }

    /** AStatsEvent_addBoolAnnotation and AStatsEvent_addInt32Annotation. */
    method AddScalarAnnotation(id: byte, x: Scalar)
      requires Valid() && (x.Bool? || x.Int32?)
      modifies `buf, `bufSize, `numBytesWritten, `lastFieldPos, `numElements, `errors, `fields
      ensures Valid() && AnnotationAdded(old(Snapshot()), Snapshot(), Annotation(id, x))
    {
      hide Header, Encoded, AnnotationAdded, Wrote, AnnotationFits, ScalarBytes, AnnotationBytes;
      ghost var v, a := Snapshot(), Annotation(id, x);
      if numElements < 2 {
        RejectAnnotation(v, a);
        errors := errors + {AnnotationDoesNotFollowField};
        return;
      } else if id > MAX_BYTE_VALUE {
        RejectAnnotation(v, a);
        errors := errors + {AnnotationIdTooLarge};
        return;
      }
      AppendAnnotation(id, x);
      ghost var w, e := Written(), errors;
      IncrementAnnotationCount();
      FinishAnnotation(v, w, e, Written(), errors, a);
      if errors == {} {
        fields := AfterAnnotation(v, a).fields;
      }
    }

    method AppendAnnotation(id: byte, x: Scalar)
      requires Safe()
      modifies `errors, `buf, `bufSize, `numBytesWritten
      ensures Safe()
      ensures Wrote(old(Written()), old(errors), Written(), errors, AnnotationBytes(Annotation(id, x)), LongScalar(x))
    {
      hide Wrote, ScalarBytes;
      ghost var w, e := Written(), errors;
      Append([id]);
      ghost var w1, e1 := Written(), errors;
      Append([KindOf(x)]);
      ghost var w2, e2 := Written(), errors;
      AppendScalar(x);
      WroteBoth(w, e, w1, e1, w2, e2, [id], [KindOf(x)], false, false);
      WroteBoth(w, e, w2, e2, Written(), errors, [id] + [KindOf(x)], ScalarBytes(x), false, LongScalar(x));
      assert [id] + [KindOf(x)] + ScalarBytes(x) == AnnotationBytes(Annotation(id, x));
    }

    /** Only the element after the timestamp may be the atom id, and only once. */
    method SetAtomId(id: u32)
      requires Valid()
      modifies `buf, `bufSize, `numBytesWritten, `lastFieldPos, `numElements, `errors, `fields, `atomId
      ensures Valid()
      ensures old(atomId) != 0 ==> Snapshot() == old(Snapshot())
      ensures old(atomId) == 0 && old(numElements) != 1 ==>
                Snapshot() == old(Snapshot()).(errors := old(errors) + {AtomIdInvalidPosition})
      ensures old(atomId) == 0 && old(numElements) == 1 ==>
                FieldWritten(old(Snapshot()), Snapshot(), One(Int32(id))) && atomId == id && errors == old(errors)
    {
      hide Encoded, LE;
      ghost var v := Snapshot();
      if atomId != 0 {
        return;
      }
      if numElements != 1 {
        FlagError(v, AtomIdInvalidPosition);
        errors := errors + {AtomIdInvalidPosition};
        return;
      }
      WriteScalar(Int32(id));
      AtomIdInPlace(Snapshot(), id);
      atomId := id;
    }

    /** AStatsEvent_obtain at elapsed time `now`. */
    constructor (now: u64)
      ensures Valid() && errors == {} && atomId == 0 && !built
      ensures timestamp == now && fields == [Field(One(Int64(now)), [])]
    {
      bufSize, numBytesWritten, lastFieldPos, numElements := MAX_PUSH_EVENT_PAYLOAD, 2, 0, 0;
      atomId, errors, built, timestamp := 0, {}, false, now;
      buf := [OBJECT_TYPE] + seq(MAX_PUSH_EVENT_PAYLOAD - 1, _ => 0);
      fields := [];
      new;
      ghost var w, e := Written(), errors;
      StartField(INT64_TYPE);
      ghost var w', e' := Written(), errors;
      Append(LE(now, 8));
      FirstField(w, Written(), now);
      fields := [Field(One(Int64(now)), [])];
    }

    method Build()
      requires Valid()
      modifies this
      ensures Valid() && built && timestamp == old(timestamp) && atomId == old(atomId)
      ensures old(built) ==> Snapshot() == old(Snapshot())
      ensures !old(built) && errors == {} ==> fields == old(fields) && ReadEvent(Written()) == Some(fields)
      ensures !old(built) && errors != {} ==>
                && |Written()| == 21 && Written() == ErrorEvent(timestamp, Written()[12..16], errors)
                && (atomId != 0 ==> Written()[12..16] == LE(atomId, 4))
    {
      hide LE, FieldsBytes, FieldOk, ReadEvent, ErrorEvent, Header, Encoded;
      if built {
        return;
      }
      BuildInternal(false);
      built := true;
    }

    /** Without errors the decoder recovers exactly what was written; with errors the
        event is the fixed timestamp, atom id and error mask. */
    method BuildInternal(push: bool)
      requires Valid()
      modifies this
      ensures Valid() && timestamp == old(timestamp) && atomId == old(atomId)
      ensures errors == old(errors) + (if old(numElements) > MAX_BYTE_VALUE then {TooManyFields} else {})
                        + (if atomId == 0 then {NoAtomId} else {})
                        + (if push && old(numBytesWritten) > MAX_PUSH_EVENT_PAYLOAD then {Overflow} else {})
      ensures errors == {} ==> fields == old(fields) && ReadEvent(Written()) == Some(fields)
      ensures errors != {} ==>
                && |Written()| == 21 && Written() == ErrorEvent(timestamp, Written()[12..16], errors)
                && (atomId != 0 ==> Written()[12..16] == LE(atomId, 4))
    {
      hide LE, FieldsBytes, FieldOk, ReadEvent, Mask;
      if numElements > MAX_BYTE_VALUE {
        errors := errors + {TooManyFields};
      }
      if atomId == 0 {
        errors := errors + {NoAtomId};
      }
      if push && numBytesWritten > MAX_PUSH_EVENT_PAYLOAD {
        errors := errors + {Overflow};
      }
      if errors != {} {
        RewriteAsError();
      } else {
        ghost var v := Snapshot();
        buf := buf[POS_NUM_ELEMENTS := numElements];
        CountPatched(v, Written());
      }
    }

    /** Drops everything after the atom id and writes the error mask instead. */
    method RewriteAsError()
      requires Safe() && Header(Snapshot()) && errors != {}
      modifies `numElements, `buf, `bufSize, `numBytesWritten, `lastFieldPos, `errors
      ensures Valid() && errors == old(errors)
      ensures |Written()| == 21 && Written() == ErrorEvent(timestamp, Written()[12..16], errors)
      ensures atomId != 0 ==> Written()[12..16] == LE(atomId, 4)
    {
      hide LE, FieldsBytes, FieldOk, Mask;
      ghost var v := Snapshot();
      numElements := 2;
      buf := buf[POS_ATOM_ID := INT32_TYPE];
      numBytesWritten := POS_ATOM_ID + 5;
      ghost var w := Written();
      assert forall i :: 0 <= i < 16 && i != 11 && i < |v.w| ==> w[i] == v.w[i];
      assert w[2..11] == v.w[2..11];
      assert v.atomId != 0 ==> w[12..16] == v.w[12..16];
      StartField(ERROR_TYPE);
      Append(LE(Mask(errors), 4));
      buf := buf[POS_NUM_ELEMENTS := numElements];
      assert Written() == (w + [ERROR_TYPE] + LE(Mask(errors), 4))[1 := 3];
      ErrorHeader(v, w, errors, Snapshot());
    }
  }

  lemma {:induction false} CountPatched(v: View, w: seq<byte>)
    requires Header(v) && Encoded(v) && v.errors == {} && v.numElements <= MAX_BYTE_VALUE
    requires w == v.w[1 := v.numElements]
    ensures Consistent(v.(w := w)) && ReadEvent(w) == Some(v.fields)
  {
    hide LE, FieldsBytes, FieldOk, ReadEvent;
    assert w[2..] == v.w[2..] && w[3..11] == v.w[3..11];
    assert v.atomId != 0 ==> w[12..16] == v.w[12..16];
    EventRoundTrip(v.fields);
    assert w == [OBJECT_TYPE, |v.fields|] + FieldsBytes(v.fields);
  }

  lemma {:induction false} ErrorHeader(v: View, w: seq<byte>, errors: set<Error>, v': View)
    requires Header(v) && errors != {}
    requires |w| == 16 && w[0] == v.w[0] && w[2..11] == v.w[2..11] && w[11] == INT32_TYPE
    requires v.atomId != 0 ==> w[12..16] == v.w[12..16]
    requires v'.w == (w + [ERROR_TYPE] + LE(Mask(errors), 4))[1 := 3]
    requires v'.errors == errors && v'.numElements == 3 && v'.lastFieldPos == 16
    requires v'.atomId == v.atomId && v'.timestamp == v.timestamp
    ensures Consistent(v') && |v'.w| == 21 && v'.w == ErrorEvent(v.timestamp, v'.w[12..16], errors)
    ensures v.atomId != 0 ==> v'.w[12..16] == LE(v.atomId, 4)
  {
    hide LE, Mask;
    assert v.w[3..11] == v.w[2..11][1..] == w[2..11][1..] == v'.w[3..11];
    assert v'.w[12..16] == w[12..16];
    assert v'.w[2] == w[2..11][0] == v.w[2..11][0];
    assert v'.w == v'.w[..3] + v'.w[3..11] + [v'.w[11]] + v'.w[12..16] + [v'.w[16]] + v'.w[17..];
    assert v'.w[17..] == LE(Mask(errors), 4);
  }

  lemma {:induction false} FirstField(w: seq<byte>, w': seq<byte>, now: u64)
    requires |w| == 2 && w[0] == OBJECT_TYPE && w' == w + [INT64_TYPE] + LE(now, 8)
    ensures Consistent(View(w', {}, 1, 2, 0, [Field(One(Int64(now)), [])], now))
  {
    hide LE, FieldBytes;
    var f := Field(One(Int64(now)), []);
    PlainField(One(Int64(now)));
    assert [f][1..] == [] && [f][..0] == [];
    assert FieldsBytes([]) == [] && FieldsBytes([f]) == FieldBytes(f) + [];
    assert w'[2..] == [INT64_TYPE] + LE(now, 8) == FieldBytes(f);
    assert w'[3..11] == LE(now, 8);
  }

  lemma {:induction false} AtomIdInPlace(v: View, id: u32)
    requires Consistent(v) && |v.w| == POS_ATOM_ID + 5 && v.w[POS_ATOM_ID..] == [INT32_TYPE] + LE(id, 4)
    requires v.numElements == 2 && v.lastFieldPos == POS_ATOM_ID
    ensures Consistent(v.(atomId := id))
  {
    hide LE, FieldsBytes, FieldOk;
    assert v.w[POS_ATOM_ID + 1..POS_ATOM_ID + 5] == v.w[POS_ATOM_ID..][1..] == LE(id, 4);
  }

  /** The state after the count byte has been looked at. */
  ghost predicate Counted(v: View, w: seq<byte>, e: set<Error>, w': seq<byte>, e': set<Error>) {
    if v.lastFieldPos < |w| then
      if w[v.lastFieldPos] < 240 then w' == w[v.lastFieldPos := w[v.lastFieldPos] + 16] && e' == e
      else w' == w && e' == e + {TooManyAnnotations}
    else w' == w && e <= e' <= e + {TooManyAnnotations}
  }

  lemma {:induction false} HeaderPatched(v: View, w: seq<byte>, e: set<Error>, w': seq<byte>, e': set<Error>)
    requires Header(v) && v.numElements >= 2 && v.w <= w && Counted(v, w, e, w', e')
    ensures Header(v.(w := w'))
  {
    hide LE;
    assert w'[POS_TIMESTAMP + 1..POS_ATOM_ID] == v.w[POS_TIMESTAMP + 1..POS_ATOM_ID];
    if v.atomId != 0 {
      assert w'[POS_ATOM_ID + 1..POS_ATOM_ID + 5] == v.w[POS_ATOM_ID + 1..POS_ATOM_ID + 5];
    }
  }

  lemma {:induction false} AnnotationBits(v: View, w: seq<byte>, e: set<Error>, w': seq<byte>, e': set<Error>,
                                          a: Annotation)
    requires Consistent(v) && v.numElements >= 2 && a.id <= MAX_BYTE_VALUE
    requires Wrote(v.w, v.errors, w, e, AnnotationBytes(a), false) && Counted(v, w, e, w', e')
    ensures AnnotationErrors(v, e', a)
  {
    hide Header, AnnotationBytes, FieldsBytes, FieldBytes, Encoded;
    if v.errors == {} { LastFieldAt(v); }
  }

  lemma {:induction false} FitsIffNoBits(v: View, e: set<Error>, a: Annotation)
    requires Consistent(v) && v.numElements >= 2 && a.id <= MAX_BYTE_VALUE && AnnotationErrors(v, e, a)
    ensures e == {} <==> AnnotationFits(v, a)
  {
    hide Header, FieldsBytes;
  }

  lemma {:induction false} AnnotationPlaced(v: View, w: seq<byte>, e: set<Error>, w': seq<byte>, e': set<Error>,
                                            a: Annotation)
    requires Encoded(v) && AnnotationFits(v, a) && ScalarOk(a.value)
    requires Wrote(v.w, v.errors, w, e, AnnotationBytes(a), false) && Counted(v, w, e, w', e')
    ensures v.lastFieldPos < |v.w| && v.w[v.lastFieldPos] < 240
    ensures AfterAnnotation(v, a).w == w' && Encoded(AfterAnnotation(v, a))
  {
    hide AnnotationBytes, FieldsBytes, FieldBytes;
    AddAnnotation(v, a);
  }

  lemma {:induction false} FinishAnnotation(v: View, w: seq<byte>, e: set<Error>, w': seq<byte>, e': set<Error>,
                                            a: Annotation)
    requires Consistent(v) && v.numElements >= 2 && a.id <= MAX_BYTE_VALUE && ScalarOk(a.value)
    requires Wrote(v.w, v.errors, w, e, AnnotationBytes(a), false) && Counted(v, w, e, w', e')
    ensures e' == {} ==> Encoded(v) && v.lastFieldPos < |v.w| && v.w[v.lastFieldPos] < 240
    ensures var v' := v.(w := w', errors := e', fields := if e' == {} then AfterAnnotation(v, a).fields else v.fields);
            Consistent(v') && AnnotationAdded(v, v', a)
  {
    hide Header, AnnotationBytes, FieldsBytes, FieldBytes, AnnotationErrors, Counted;
    AnnotationBits(v, w, e, w', e', a);
    FitsIffNoBits(v, e', a);
    HeaderPatched(v, w, e, w', e');
    if e' == {} { AnnotationPlaced(v, w, e, w', e', a); }
    HeaderFields(v.(w := w'), e', if e' == {} then AfterAnnotation(v, a).fields else v.fields);
  }

  lemma HeaderFields(v: View, e: set<Error>, fields: seq<Field>)
    requires Header(v)
    ensures Header(v.(errors := e, fields := fields))
  {
  }

  lemma RejectAnnotation(v: View, a: Annotation)
    requires Consistent(v) && (v.numElements < 2 || a.id > MAX_BYTE_VALUE)
    ensures var err := if v.numElements < 2 then AnnotationDoesNotFollowField else AnnotationIdTooLarge;
            Consistent(v.(errors := v.errors + {err})) && AnnotationAdded(v, v.(errors := v.errors + {err}), a)
  {
  }

  lemma NoNodes()
    ensures NodesBytes([]) == []
  {
  }

  lemma NoScalars()
    ensures ScalarsBytes([]) == []
  {
  }

  /** Raising an error keeps everything else. */
  lemma FlagError(v: View, err: Error)
    requires Consistent(v)
    ensures Consistent(v.(errors := v.errors + {err}))
  {
  }
}
