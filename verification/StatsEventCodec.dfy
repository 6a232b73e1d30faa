/** The self-describing byte layout of an event, as lib/libstatssocket/stats_event.cpp
    writes it and statsd/src/logd/LogEvent.cpp reads it: an encoder of whole fields as the
    reference, a decoder, and the round trip between the two. */
module StatsEventCodec {
  import opened Options

  type byte = x: int | 0 <= x < 256
  type u32 = x: int | 0 <= x < 0x1_0000_0000
  type u64 = x: int | 0 <= x < 0x1_0000_0000_0000_0000

  const INT32_TYPE: byte := 0x00
  const INT64_TYPE: byte := 0x01
  const STRING_TYPE: byte := 0x02
  const LIST_TYPE: byte := 0x03
  const FLOAT_TYPE: byte := 0x04
  const BOOL_TYPE: byte := 0x05
  const BYTE_ARRAY_TYPE: byte := 0x06
  const OBJECT_TYPE: byte := 0x07
  const ATTRIBUTION_CHAIN_TYPE: byte := 0x09
  const ERROR_TYPE: byte := 0x0F

  const MAX_BYTE_VALUE := 127
  const MAX_ANNOTATION_COUNT := 15

  /** Numbers are bit patterns; a float is the four bytes of its representation. */
  datatype Scalar = Int32(v: u32) | Int64(w: u64) | Float(bits: u32) | Bool(b: bool) | Str(s: seq<byte>)

  datatype Node = Node(uid: u32, tag: seq<byte>)

  datatype Value =
    | One(x: Scalar)
    | Bytes(data: seq<byte>)
    | Chain(nodes: seq<Node>)
    | List(elementType: byte, elements: seq<Scalar>)

  datatype Annotation = Annotation(id: byte, value: Scalar)

  datatype Field = Field(value: Value, annotations: seq<Annotation>)

  // ---------- little endian ----------

  function LE(v: nat, n: nat): (r: seq<byte>)
    ensures |r| == n
  {
    if n == 0 then [] else [v % 256] + LE(v / 256, n - 1)
  }

  function FromLE(bs: seq<byte>): nat {
    if bs == [] then 0 else bs[0] + 256 * FromLE(bs[1..])
  }

  function Limit(n: nat): nat {
    if n == 0 then 1 else 256 * Limit(n - 1)
  }

  lemma {:induction false} LimitGrows(n: nat)
    ensures Limit(n) >= 1
    ensures Limit(4) == 0x1_0000_0000 && Limit(8) == 0x1_0000_0000_0000_0000
  {
    if n > 0 { LimitGrows(n - 1); }
    assert Limit(4) == 256 * Limit(3) && Limit(8) == 256 * Limit(7);
    assert Limit(6) == 256 * Limit(5) && Limit(2) == 256 * Limit(1);
  }

  lemma {:induction false} LERoundTrip(v: nat, n: nat)
    requires v < Limit(n)
    ensures FromLE(LE(v, n)) == v
  {
    if n > 0 {
      LERoundTrip(v / 256, n - 1);
      assert LE(v, n)[1..] == LE(v / 256, n - 1);
    }
  }

  // ---------- encoder ----------

  function KindOf(x: Scalar): byte {
    match x
    case Int32(_) => INT32_TYPE
    case Int64(_) => INT64_TYPE
    case Float(_) => FLOAT_TYPE
    case Bool(_) => BOOL_TYPE
    case Str(_) => STRING_TYPE
  }

  function StringBytes(s: seq<byte>): seq<byte> { LE(|s|, 4) + s }

  function ScalarBytes(x: Scalar): seq<byte> {
    match x
    case Int32(v) => LE(v, 4)
    case Int64(w) => LE(w, 8)
    case Float(bits) => LE(bits, 4)
    case Bool(b) => [if b then 1 else 0]
    case Str(s) => StringBytes(s)
  }

  function ScalarsBytes(xs: seq<Scalar>): seq<byte> {
    if xs == [] then [] else ScalarBytes(xs[0]) + ScalarsBytes(xs[1..])
  }

  function NodeBytes(n: Node): seq<byte> { LE(n.uid, 4) + StringBytes(n.tag) }

  function NodesBytes(ns: seq<Node>): seq<byte> {
    if ns == [] then [] else NodeBytes(ns[0]) + NodesBytes(ns[1..])
  }

  /** Lengths and types that the layout can express. */
  ghost predicate ScalarOk(x: Scalar) { x.Str? ==> |x.s| < 0x1_0000_0000 }

  ghost predicate ValueOk(v: Value) {
    match v
    case One(x) => ScalarOk(x)
    case Bytes(data) => |data| < 0x1_0000_0000
    case Chain(nodes) => |nodes| <= MAX_BYTE_VALUE && forall n :: n in nodes ==> |n.tag| < 0x1_0000_0000
    case List(t, xs) =>
      |xs| <= MAX_BYTE_VALUE && IsScalarType(t) && forall x :: x in xs ==> KindOf(x) == t && ScalarOk(x)
  }

  ghost predicate FieldOk(f: Field) {
    && ValueOk(f.value)
    && |f.annotations| <= MAX_ANNOTATION_COUNT
    && forall a :: a in f.annotations ==> ScalarOk(a.value)
  }

  predicate IsScalarType(t: byte) { t in {INT32_TYPE, INT64_TYPE, FLOAT_TYPE, BOOL_TYPE, STRING_TYPE} }

  function TypeOf(v: Value): byte {
    match v
    case One(x) => KindOf(x)
    case Bytes(_) => BYTE_ARRAY_TYPE
    case Chain(_) => ATTRIBUTION_CHAIN_TYPE
    case List(_, _) => LIST_TYPE
  }

  function ValueBytes(v: Value): seq<byte>
    requires v.Chain? ==> |v.nodes| <= MAX_BYTE_VALUE
    requires v.List? ==> |v.elements| <= MAX_BYTE_VALUE
  {
    match v
    case One(x) => ScalarBytes(x)
    case Bytes(data) => StringBytes(data)
    case Chain(nodes) => [|nodes|] + NodesBytes(nodes)
    case List(t, xs) => [|xs|, t] + ScalarsBytes(xs)
  }

  function AnnotationBytes(a: Annotation): seq<byte> { [a.id, KindOf(a.value)] + ScalarBytes(a.value) }

  function AnnotationsBytes(xs: seq<Annotation>): seq<byte> {
    if xs == [] then [] else AnnotationBytes(xs[0]) + AnnotationsBytes(xs[1..])
  }

  /** Type in the low nibble, number of annotations in the high one. */
  function TypeInfo(f: Field): byte
    requires |f.annotations| <= MAX_ANNOTATION_COUNT
  {
    16 * |f.annotations| + TypeOf(f.value)
  }

  ghost function FieldBytes(f: Field): seq<byte>
    requires FieldOk(f)
  {
    [TypeInfo(f)] + ValueBytes(f.value) + AnnotationsBytes(f.annotations)
  }

  ghost predicate FieldsOk(fs: seq<Field>) { forall i :: 0 <= i < |fs| ==> FieldOk(fs[i]) }

  ghost function FieldsBytes(fs: seq<Field>): seq<byte>
    requires FieldsOk(fs)
  {
    if fs == [] then [] else FieldBytes(fs[0]) + FieldsBytes(fs[1..])
  }

  /** The first byte of a field on the wire: the number of its annotations in the high four bits,
      and in the low four 0 for int32, 1 for int64, 2 for a string, 3 for a list, 4 for a float, 5 for
      a bool, 6 for bytes and 9 for an attribution chain. */
  lemma {:induction false} WireType(f: Field)
    requires FieldOk(f)
    ensures FieldBytes(f) != [] && FieldBytes(f)[0] / 16 == |f.annotations|
    ensures FieldBytes(f)[0] % 16 ==
            match f.value
            case One(Int32(_)) => 0 case One(Int64(_)) => 1 case One(Str(_)) => 2 case List(_, _) => 3
            case One(Float(_)) => 4 case One(Bool(_)) => 5 case Bytes(_) => 6 case Chain(_) => 9
  {
  }

  /** What follows it: 4 or 8 bytes from the lowest up, one byte for a bool, and a string behind its
      length. */
  lemma {:induction false} WireValue(x: Scalar)
    ensures x.Int32? ==> |ScalarBytes(x)| == 4 && FromLE(ScalarBytes(x)) == x.v
    ensures x.Int64? ==> |ScalarBytes(x)| == 8 && FromLE(ScalarBytes(x)) == x.w
    ensures x.Float? ==> |ScalarBytes(x)| == 4 && FromLE(ScalarBytes(x)) == x.bits
    ensures x.Bool? ==> ScalarBytes(x) == [if x.b then 1 else 0]
    ensures x.Str? && |x.s| < 0x1_0000_0000 ==>
              |ScalarBytes(x)| == 4 + |x.s| && ScalarBytes(x)[4..] == x.s && FromLE(ScalarBytes(x)[..4]) == |x.s|
  {
    LimitGrows(0);
    match x
    case Int32(v) => LERoundTrip(v, 4);
    case Int64(w) => LERoundTrip(w, 8);
    case Float(bits) => LERoundTrip(bits, 4);
    case Bool(_) =>
    case Str(s) => if |s| < 0x1_0000_0000 { LERoundTrip(|s|, 4); assert ScalarBytes(x)[..4] == LE(|s|, 4); }
  }

  // ---------- growing at the end ----------

  lemma {:induction false} ScalarsPush(xs: seq<Scalar>, x: Scalar)
    ensures ScalarsBytes(xs + [x]) == ScalarsBytes(xs) + ScalarBytes(x)
  {
    if xs == [] {
      assert [x][1..] == [] && xs + [x] == [x];
    } else {
      assert (xs + [x])[1..] == xs[1..] + [x];
      ScalarsPush(xs[1..], x);
    }
  }

  lemma {:induction false} NodesPush(ns: seq<Node>, n: Node)
    ensures NodesBytes(ns + [n]) == NodesBytes(ns) + NodeBytes(n)
  {
    if ns == [] {
      assert [n][1..] == [] && ns + [n] == [n];
    } else {
      assert (ns + [n])[1..] == ns[1..] + [n];
      NodesPush(ns[1..], n);
    }
  }

  lemma {:induction false} AnnotationsPush(xs: seq<Annotation>, a: Annotation)
    ensures AnnotationsBytes(xs + [a]) == AnnotationsBytes(xs) + AnnotationBytes(a)
  {
    if xs == [] {
      assert [a][1..] == [] && xs + [a] == [a];
    } else {
      assert (xs + [a])[1..] == xs[1..] + [a];
      AnnotationsPush(xs[1..], a);
    }
  }

  lemma {:induction false} FieldsPush(fs: seq<Field>, f: Field)
    requires FieldsOk(fs) && FieldOk(f)
    ensures FieldsBytes(fs + [f]) == FieldsBytes(fs) + FieldBytes(f)
  {
    hide FieldOk, FieldBytes;
    if fs == [] {
      assert [f][1..] == [] && fs + [f] == [f];
    } else {
      assert (fs + [f])[1..] == fs[1..] + [f];
      FieldsPush(fs[1..], f);
    }
  }

  // ---------- decoder ----------

  type Parsed<T> = Option<(T, seq<byte>)>

  function ReadNumber(n: nat, bs: seq<byte>): Parsed<nat> {
    if |bs| < n then None else Some((FromLE(bs[..n]), bs[n..]))
  }

  function ReadByte(bs: seq<byte>): Parsed<byte> {
    if bs == [] then None else Some((bs[0], bs[1..]))
  }

  function ReadString(bs: seq<byte>): Parsed<seq<byte>> {
    var (n, rest) :- ReadNumber(4, bs);
    if |rest| < n then None else Some((rest[..n], rest[n..]))
  }

  function ReadScalar(t: byte, bs: seq<byte>): Parsed<Scalar> {
    if t == INT32_TYPE then
      var (v, rest) :- ReadNumber(4, bs); if v < 0x1_0000_0000 then Some((Int32(v), rest)) else None
    else if t == INT64_TYPE then
      var (v, rest) :- ReadNumber(8, bs); if v < 0x1_0000_0000_0000_0000 then Some((Int64(v), rest)) else None
    else if t == FLOAT_TYPE then
      var (v, rest) :- ReadNumber(4, bs); if v < 0x1_0000_0000 then Some((Float(v), rest)) else None
    else if t == BOOL_TYPE then
      var (v, rest) :- ReadByte(bs); Some((Bool(v != 0), rest))
    else if t == STRING_TYPE then
      var (s, rest) :- ReadString(bs); Some((Str(s), rest))
    else None
  }

  function ReadScalars(n: nat, t: byte, bs: seq<byte>): Parsed<seq<Scalar>> {
    if n == 0 then Some(([], bs))
    else
      var (x, rest) :- ReadScalar(t, bs);
      var (xs, rest') :- ReadScalars(n - 1, t, rest);
      Some(([x] + xs, rest'))
  }

  function ReadNodes(n: nat, bs: seq<byte>): Parsed<seq<Node>> {
    if n == 0 then Some(([], bs))
    else
      var (uid, rest) :- ReadNumber(4, bs);
      var (tag, rest') :- ReadString(rest);
      var (ns, rest'') :- ReadNodes(n - 1, rest');
      if uid < 0x1_0000_0000 then Some(([Node(uid, tag)] + ns, rest'')) else None
  }

  function ReadValue(t: byte, bs: seq<byte>): Parsed<Value> {
    if t == BYTE_ARRAY_TYPE then
      var (data, rest) :- ReadString(bs); Some((Bytes(data), rest))
    else if t == ATTRIBUTION_CHAIN_TYPE then
      var (n, rest) :- ReadByte(bs);
      var (nodes, rest') :- ReadNodes(n, rest); Some((Chain(nodes), rest'))
    else if t == LIST_TYPE then
      var (n, rest) :- ReadByte(bs);
      var (k, rest') :- ReadByte(rest);
      var (xs, rest'') :- ReadScalars(n, k, rest'); Some((List(k, xs), rest''))
    else
      var (x, rest) :- ReadScalar(t, bs); Some((One(x), rest))
  }

  function ReadAnnotation(bs: seq<byte>): Parsed<Annotation> {
    var (id, rest) :- ReadByte(bs);
    var (t, rest1) :- ReadByte(rest);
    var (x, rest2) :- ReadScalar(t, rest1);
    Some((Annotation(id, x), rest2))
  }

  function ReadAnnotations(n: nat, bs: seq<byte>): Parsed<seq<Annotation>> {
    if n == 0 then Some(([], bs))
    else
      var (a, rest) :- ReadAnnotation(bs);
      var (xs, rest') :- ReadAnnotations(n - 1, rest);
      Some(([a] + xs, rest'))
  }

  function ReadField(bs: seq<byte>): Parsed<Field> {
    var (info, rest) :- ReadByte(bs);
    var (v, rest1) :- ReadValue(info % 16, rest);
    var (xs, rest2) :- ReadAnnotations(info / 16, rest1);
    Some((Field(v, xs), rest2))
  }

  function ReadFields(n: nat, bs: seq<byte>): Parsed<seq<Field>> {
    if n == 0 then Some(([], bs))
    else
      var (f, rest) :- ReadField(bs);
      var (fs, rest') :- ReadFields(n - 1, rest);
      Some(([f] + fs, rest'))
  }

  /** The whole buffer: OBJECT_TYPE, number of elements, the elements, nothing else. */
  function ReadEvent(bs: seq<byte>): Option<seq<Field>> {
    if |bs| < 2 || bs[0] != OBJECT_TYPE || bs[1] > MAX_BYTE_VALUE then None
    else
      var (fs, rest) :- ReadFields(bs[1], bs[2..]);
      if rest == [] then Some(fs) else None
  }

  // ---------- round trip ----------

  lemma {:induction false} ReadNumberBack(v: nat, n: nat, rest: seq<byte>)
    requires v < Limit(n)
    ensures ReadNumber(n, LE(v, n) + rest) == Some((v, rest))
  {
    LERoundTrip(v, n);
    assert (LE(v, n) + rest)[..n] == LE(v, n) && (LE(v, n) + rest)[n..] == rest;
  }

  lemma {:induction false} ReadStringBack(s: seq<byte>, rest: seq<byte>)
    requires |s| < 0x1_0000_0000
    ensures ReadString(StringBytes(s) + rest) == Some((s, rest))
  {
    hide LE, FromLE, Limit, ReadNumber;
    LimitGrows(4);
    ReadNumberBack(|s|, 4, s + rest);
    assert StringBytes(s) + rest == LE(|s|, 4) + (s + rest);
  }

  lemma {:induction false} ReadScalarBack(x: Scalar, rest: seq<byte>)
    requires ScalarOk(x)
    ensures ReadScalar(KindOf(x), ScalarBytes(x) + rest) == Some((x, rest))
  {
    hide LE, FromLE, Limit, ReadNumber, ReadString, StringBytes;
    LimitGrows(0);
    match x
    case Int32(v) => ReadNumberBack(v, 4, rest);
    case Int64(w) => ReadNumberBack(w, 8, rest);
    case Float(bits) => ReadNumberBack(bits, 4, rest);
    case Bool(b) => assert ([if b then 1 else 0] + rest)[1..] == rest;
    case Str(s) => ReadStringBack(s, rest);
  }

  lemma {:induction false} ReadScalarsBack(t: byte, xs: seq<Scalar>, rest: seq<byte>)
    requires forall x :: x in xs ==> KindOf(x) == t && ScalarOk(x)
    ensures ReadScalars(|xs|, t, ScalarsBytes(xs) + rest) == Some((xs, rest))
  {
    hide ScalarBytes, ReadScalar, KindOf, ScalarsBytes, ScalarOk;
    ScalarsCons(xs);
    if xs == [] {
      assert ScalarsBytes(xs) + rest == rest;
    } else {
      var x, tail := xs[0], ScalarsBytes(xs[1..]) + rest;
      assert x in xs;
      ReadScalarBack(x, tail);
      assert ScalarsBytes(xs) + rest == ScalarBytes(x) + tail;
      ReadScalarsBack(t, xs[1..], rest);
      assert xs == [x] + xs[1..];
    }
  }

  lemma {:induction false} ScalarsCons(xs: seq<Scalar>)
    ensures ScalarsBytes(xs) == if xs == [] then [] else ScalarBytes(xs[0]) + ScalarsBytes(xs[1..])
  {
  }

  lemma {:induction false} ReadNodesBack(ns: seq<Node>, rest: seq<byte>)
    requires forall n :: n in ns ==> |n.tag| < 0x1_0000_0000
    ensures ReadNodes(|ns|, NodesBytes(ns) + rest) == Some((ns, rest))
  {
    hide LE, Limit, ReadNumber, ReadString, StringBytes;
    if ns == [] {
      assert NodesBytes(ns) + rest == rest;
    } else {
      var tail := NodesBytes(ns[1..]) + rest;
      LimitGrows(0);
      ReadNumberBack(ns[0].uid, 4, StringBytes(ns[0].tag) + tail);
      ReadStringBack(ns[0].tag, tail);
      assert NodesBytes(ns) + rest == LE(ns[0].uid, 4) + (StringBytes(ns[0].tag) + tail);
      ReadNodesBack(ns[1..], rest);
      assert ns == [ns[0]] + ns[1..];
    }
  }

  lemma {:induction false} ReadValueBack(v: Value, rest: seq<byte>)
    requires ValueOk(v)
    ensures ReadValue(TypeOf(v), ValueBytes(v) + rest) == Some((v, rest))
  {
    hide ScalarBytes, ScalarsBytes, NodesBytes, StringBytes, ReadScalar, ReadScalars, ReadNodes, ReadString;
    match v
    case One(x) => ReadScalarBack(x, rest);
    case Bytes(data) => ReadStringBack(data, rest);
    case Chain(nodes) =>
      assert (ValueBytes(v) + rest)[1..] == NodesBytes(nodes) + rest;
      ReadNodesBack(nodes, rest);
    case List(t, xs) =>
      assert (ValueBytes(v) + rest)[1..][1..] == ScalarsBytes(xs) + rest;
      ReadScalarsBack(t, xs, rest);
  }

  lemma {:induction false} ReadAnnotationBack(a: Annotation, rest: seq<byte>)
    requires ScalarOk(a.value)
    ensures ReadAnnotation(AnnotationBytes(a) + rest) == Some((a, rest))
  {
    hide ScalarBytes, ReadScalar, KindOf;
    ReadScalarBack(a.value, rest);
    assert (AnnotationBytes(a) + rest)[1..][1..] == ScalarBytes(a.value) + rest;
  }

  lemma {:induction false} ReadAnnotationsBack(xs: seq<Annotation>, rest: seq<byte>)
    requires forall a :: a in xs ==> ScalarOk(a.value)
    ensures ReadAnnotations(|xs|, AnnotationsBytes(xs) + rest) == Some((xs, rest))
  {
    hide AnnotationBytes, ReadAnnotation;
    if xs == [] {
      assert AnnotationsBytes(xs) + rest == rest;
    } else {
      ReadAnnotationBack(xs[0], AnnotationsBytes(xs[1..]) + rest);
      assert AnnotationsBytes(xs) + rest == AnnotationBytes(xs[0]) + (AnnotationsBytes(xs[1..]) + rest);
      ReadAnnotationsBack(xs[1..], rest);
      assert xs == [xs[0]] + xs[1..];
    }
  }

  lemma {:induction false} ReadFieldBack(f: Field, rest: seq<byte>)
    requires FieldOk(f)
    ensures ReadField(FieldBytes(f) + rest) == Some((f, rest))
  {
    hide ValueBytes, AnnotationsBytes, ReadValue, ReadAnnotations;
    var tail := AnnotationsBytes(f.annotations) + rest;
    assert (FieldBytes(f) + rest)[1..] == ValueBytes(f.value) + tail;
    ReadValueBack(f.value, tail);
    ReadAnnotationsBack(f.annotations, rest);
  }

  lemma {:induction false} ReadFieldsBack(fs: seq<Field>, rest: seq<byte>)
    requires FieldsOk(fs)
    ensures ReadFields(|fs|, FieldsBytes(fs) + rest) == Some((fs, rest))
  {
    hide FieldBytes, ReadField, FieldOk;
    if fs == [] {
      assert FieldsBytes(fs) + rest == rest;
    } else {
      ReadFieldBack(fs[0], FieldsBytes(fs[1..]) + rest);
      assert FieldsBytes(fs) + rest == FieldBytes(fs[0]) + (FieldsBytes(fs[1..]) + rest);
      ReadFieldsBack(fs[1..], rest);
      assert fs == [fs[0]] + fs[1..];
    }
  }

  /** Decoding an encoded event gives back its fields and annotations, in order. */
  lemma {:induction false} EventRoundTrip(fs: seq<Field>)
    requires FieldsOk(fs) && |fs| <= MAX_BYTE_VALUE
    ensures ReadEvent([OBJECT_TYPE, |fs|] + FieldsBytes(fs)) == Some(fs)
  {
    hide FieldsBytes, ReadFields, FieldOk;
    ReadFieldsBack(fs, []);
    assert FieldsBytes(fs) + [] == FieldsBytes(fs) == ([OBJECT_TYPE, |fs|] + FieldsBytes(fs))[2..];
  }
}
