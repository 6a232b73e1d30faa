/** Writing varints into a buffer and packing a sequence of them
    (lib/libkll/encoding/varint.cpp, varint.h and encoder.cpp). An int64 is its 64-bit
    pattern. */
module VarintEncoder {
  import opened Varint

  const MAX_LENGTH: nat := 10

  /** `s2` is `s` with `bytes` written over it from `p` on, and nothing else. */
  ghost predicate Written(s: seq<bv64>, s2: seq<bv64>, p: nat, bytes: seq<bv64>) {
    && |s2| == |s| && p + |bytes| <= |s|
    && (forall k :: 0 <= k < |bytes| ==> s2[p + k] == bytes[k])
    && (forall i :: 0 <= i < |s| && !(p <= i < p + |bytes|) ==> s2[i] == s[i])
  }

  /** Writes bytes one after another from `start` on. */
  method Put(buf: array<bv64>, start: nat, bytes: seq<bv64>) returns (p: nat)
    requires start + |bytes| <= buf.Length
    modifies buf
    ensures p == start + |bytes| && Written(old(buf[..]), buf[..], start, bytes)
  {
    p := start;
    while p < start + |bytes|
      invariant start <= p <= start + |bytes|
      invariant Written(old(buf[..]), buf[..], start, bytes[..p - start])
    {
      buf[p] := bytes[p - start];
      p := p + 1;
    }
    assert bytes[..|bytes|] == bytes;
  }

  // ---------- Encode32Inline ----------

  predicate Less(a: bv64, b: bv64) { a < b }

  function Or80(x: bv64): bv64 { x | 0x80 }

  /** The bytes that the unrolled encoder writes, range by range. */
  function Unrolled32(v: bv64): seq<bv64> {
    if Less(v, 0x80) then [Byte(v)]
    else if Less(v, 0x4000) then [Byte(Or80(v)), Byte(Shr(v, 7))]
    else if Less(v, 0x20_0000) then [Byte(Or80(v)), Byte(Or80(Shr(v, 7))), Byte(Shr(v, 14))]
    else if Less(v, 0x1000_0000) then
      [Byte(Or80(v)), Byte(Or80(Shr(v, 7))), Byte(Or80(Shr(v, 14))), Byte(Shr(v, 21))]
    else [Byte(Or80(v)), Byte(Or80(Shr(v, 7))), Byte(Or80(Shr(v, 14))), Byte(Or80(Shr(v, 21))), Byte(Shr(v, 28))]
  }

  lemma {:induction false} Or80IsMore(x: bv64)
    ensures Byte(Or80(x)) == More(x)
  {
  }

  lemma {:induction false} LastByte(v: bv64)
    ensures v < 0x80 ==> Byte(v) == v
    ensures v < 0x4000 ==> Byte(Shr(v, 7)) == Shr(v, 7)
    ensures v < 0x20_0000 ==> Byte(Shr(v, 14)) == Shr(v, 14)
    ensures v < 0x1000_0000 ==> Byte(Shr(v, 21)) == Shr(v, 21)
    ensures v < 0x1_0000_0000 ==> Byte(Shr(v, 28)) == Shr(v, 28)
  {
  }

  lemma {:induction false} Unrolled32IsEncoded(v: bv64)
    requires v < 0x1_0000_0000
    ensures Unrolled32(v) == Encoded(v)
  {
    hide Encoded, More, Shr, Byte, Or80;
    Or80IsMore(v);
    Or80IsMore(Shr(v, 7));
    LastByte(v);
    if v < 0x80 {
      EncodedUnfolds(v);
    } else {
      Encoded2(v);
      if v >= 0x4000 {
        Or80IsMore(Shr(v, 14));
        Or80IsMore(Shr(v, 21));
        Encoded4(v);
        if v >= 0x1000_0000 { Encoded5(v); }
      }
    }
  }

  method Encode32(buf: array<bv64>, start: nat, v: bv64) returns (p: nat)
    requires v < 0x1_0000_0000 && start + |Encoded(v)| <= buf.Length
    modifies buf
    ensures p == start + |Encoded(v)| && Written(old(buf[..]), buf[..], start, Encoded(v))
  {
    hide Encoded, Unrolled32, Written;
    Unrolled32IsEncoded(v);
    p := Put(buf, start, Unrolled32(v));
  }

  // ---------- two ors for four bytes ----------

  function X32(v: bv64): bv64 { (v | 0x80 | 0x20_0000) & 0xffff_ffff }
  function Y32(v: bv64): bv64 { (v | 0x4000 | 0x1000_0000) & 0xffff_ffff }

  lemma X32First(v: bv64)
    ensures Byte(X32(v)) == More(v)
  {
  }

  lemma Y32Second(v: bv64)
    ensures Byte(Shr(Y32(v), 7)) == More(Shr(v, 7))
  {
  }

  lemma X32Third(v: bv64)
    ensures Byte(Shr(X32(v), 14)) == More(Shr(v, 14))
  {
  }

  lemma Y32Fourth(v: bv64)
    ensures Byte(Shr(Y32(v), 21)) == More(Shr(v, 21))
  {
  }

  /** The first four bytes of a value of more than 28 bits. */
  function Unrolled4(v: bv64): seq<bv64> {
    var x32, y32 := X32(v), Y32(v);
    [Byte(x32), Byte(Shr(y32, 7)), Byte(Shr(x32, 14)), Byte(Shr(y32, 21))]
  }

  lemma {:induction false} Unrolled4IsEncoded(v: bv64)
    requires v >= 0x1000_0000
    ensures |Unrolled4(v)| == 4 && Encoded(v) == Unrolled4(v) + Encoded(Shr(v, 28))
    ensures Less(v, 0x8_0000_0000) ==> Encoded(Shr(v, 28)) == [Byte(Shr(v, 28))]
    ensures !Less(v, 0x8_0000_0000) ==> Encoded(Shr(v, 28)) == [Byte(Or80(Shr(v, 28)))] + Encoded(Shr(v, 35))
    ensures Shr(v, 35) < 0x1_0000_0000
  {
    hide Encoded, More, Shr, Byte, X32, Y32;
    Encoded5(v);
    X32First(v);
    Y32Second(v);
    X32Third(v);
    Y32Fourth(v);
    OrIsMore(Shr(v, 28));
    ShrRanges(v);
  }

  lemma LessMeans(v: bv64)
    ensures Less(v, 0x1000_0000) ==> v < 0x1_0000_0000
    ensures !Less(v, 0x1000_0000) ==> v >= 0x1000_0000
  {
  }

  /** Encode64 writes the base-128 encoding at `start`, and nothing else. */
  method Encode64(buf: array<bv64>, start: nat, v: bv64) returns (p: nat)
    requires start + |Encoded(v)| <= buf.Length
    modifies buf
    ensures p == start + |Encoded(v)| && Written(old(buf[..]), buf[..], start, Encoded(v))
  {
    hide Encoded, More, Shr, Byte, Or80, Less, Unrolled4, Written;
    LessMeans(v);
    if Less(v, 0x1000_0000) {
      p := Encode32(buf, start, v);
    } else {
      Unrolled4IsEncoded(v);
      NotEmpty(Shr(v, 28));
      ghost var s := buf[..];
      p := Put(buf, start, Unrolled4(v));
      ghost var s1 := buf[..];
      if Less(v, 0x8_0000_0000) {
        p := Put(buf, p, [Byte(Shr(v, 28))]);
        WrittenTwice(s, s1, buf[..], start, Unrolled4(v), [Byte(Shr(v, 28))]);
      } else {
        p := Put(buf, p, [Byte(Or80(Shr(v, 28)))]);
        WrittenTwice(s, s1, buf[..], start, Unrolled4(v), [Byte(Or80(Shr(v, 28)))]);
        ghost var s2 := buf[..];
        p := Encode32(buf, p, Shr(v, 35));
        WrittenTwice(s, s2, buf[..], start, Unrolled4(v) + [Byte(Or80(Shr(v, 28)))], Encoded(Shr(v, 35)));
        assert Unrolled4(v) + [Byte(Or80(Shr(v, 28)))] + Encoded(Shr(v, 35)) == Encoded(v);
      }
    }
  }

  lemma WrittenTwice(s: seq<bv64>, s1: seq<bv64>, s2: seq<bv64>, p: nat, a: seq<bv64>, b: seq<bv64>)
    requires Written(s, s1, p, a) && Written(s1, s2, p + |a|, b)
    ensures Written(s, s2, p, a + b)
  {
    forall k | 0 <= k < |a + b| ensures s2[p + k] == (a + b)[k] {
      if k >= |a| { assert s2[p + |a| + (k - |a|)] == b[k - |a|]; }
    }
  }

  lemma NotEmpty(v: bv64)
    ensures |Encoded(v)| >= 1
  {
  }

  // ---------- packed strings ----------

  /** The encodings one after another. */
  function Packed(values: seq<bv64>): seq<bv64> {
    if values == [] then [] else Packed(values[..|values| - 1]) + Encoded(values[|values| - 1])
  }

  /** Appends one value, through a buffer that is always long enough. */
  method AppendToString(src: bv64, dst: seq<bv64>) returns (r: seq<bv64>)
    ensures r == dst + Encoded(src)
  {
    hide Encoded;
    var buf := new bv64[MAX_LENGTH];
    AtMostTen(src);
    var length := Encode64(buf, 0, src);
    r := dst + buf[..length];
  }

  lemma {:induction false} AtMostTen(v: bv64)
    ensures 1 <= |Encoded(v)| <= MAX_LENGTH
  {
    hide Encoded, Groups;
    LengthIsGroups(v);
    GroupsOne(v);
  }

  method SerializeToPackedStringAll(values: seq<bv64>) returns (dst: seq<bv64>)
    ensures dst == Packed(values)
  {
    hide Encoded;
    dst := [];
    var i := 0;
    while i < |values|
      invariant 0 <= i <= |values| && dst == Packed(values[..i])
    {
      assert values[..i + 1][..i] == values[..i];
      dst := AppendToString(values[i], dst);
      i := i + 1;
    }
    assert values[..i] == values;
  }

  datatype Unpacking = Malformed | Unpacked(values: seq<bv64>)

  /** Reads varints until the string is used up. */
  function Unpack(s: seq<bv64>): Unpacking
    decreases |s|
  {
    if s == [] then Unpacked([])
    else match Decode(s)
      case Failed => Malformed
      case Decoded(v, rest) =>
        if |rest| < |s| then
          match Unpack(rest)
          case Malformed => Malformed
          case Unpacked(vs) => Unpacked([v] + vs)
        else Malformed
  }

  lemma {:induction false} PackedFirst(values: seq<bv64>)
    requires values != []
    ensures Packed(values) == Encoded(values[0]) + Packed(values[1..])
    decreases |values|
  {
    hide Encoded;
    var n := |values| - 1;
    if n == 0 {
      assert values[..0] == [] && values[1..] == [];
    } else {
      var first, last := values[..n], values[n];
      PackedFirst(first);
      assert first[1..] == values[1..][..n - 1] && values[1..][n - 1] == last;
      PackedLast(values[1..]);
      PackedLast(values);
      hide Packed;
      assert Packed(values) == Encoded(values[0]) + Packed(first[1..]) + Encoded(last);
    }
  }

  lemma {:induction false} PackedLast(values: seq<bv64>)
    requires values != []
    ensures Packed(values) == Packed(values[..|values| - 1]) + Encoded(values[|values| - 1])
  {
  }

  /** What was packed comes back, all of it and in order. */
  lemma {:induction false} PackedRoundTrip(values: seq<bv64>)
    ensures Unpack(Packed(values)) == Unpacked(values)
    decreases |values|
  {
    hide Encoded, Decode;
    if values != [] {
      PackedFirst(values);
      PackedRoundTrip(values[1..]);
      NotEmpty(values[0]);
      RoundTrip(values[0], Packed(values[1..]));
      assert [values[0]] + values[1..] == values;
    }
  }

  /** So no two sequences have the same packing. */
  lemma {:induction false} PackedUnique(a: seq<bv64>, b: seq<bv64>)
    requires Packed(a) == Packed(b)
    ensures a == b
  {
    PackedRoundTrip(a);
    PackedRoundTrip(b);
  }
}
