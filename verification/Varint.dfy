/** Base-128 varints (lib/libkll/encoding/varint.cpp, varint.h, bits_util.h, encoder.cpp):
    the unrolled encoder, its length formula and the string serializer, against the
    definition in the "Base 128 Varints" section of the Protocol Buffers encoding guide. */
module Varint {
  // ---------- the definition ----------

  /** static_cast<uint8_t>. */
  function Byte(x: bv64): bv64 { x & 0xff }

  /** Seven bits with the continuation bit set. */
  function More(v: bv64): bv64 { (v & 0x7f) | 0x80 }

  function Rest(v: bv64): bv64 { v >> 7 }

  /** How many groups of seven bits a value takes. */
  function Groups(v: bv64): nat {
    if v < 0x80 then 1
    else if v < 0x4000 then 2
    else if v < 0x20_0000 then 3
    else if v < 0x1000_0000 then 4
    else if v < 0x8_0000_0000 then 5
    else if v < 0x400_0000_0000 then 6
    else if v < 0x2_0000_0000_0000 then 7
    else if v < 0x100_0000_0000_0000 then 8
    else if v < 0x8000_0000_0000_0000 then 9
    else 10
  }

  lemma GroupsRest(v: bv64)
    requires v >= 0x80
    ensures Groups(v) == 1 + Groups(Rest(v))
  {
  }

  /** Least significant seven bits first; every byte but the last has its top bit set. */
  function Encoded(v: bv64): seq<bv64>
    decreases Groups(v)
  {
    if v < 0x80 then [v]
    else
      GroupsRest(v);
      [More(v)] + Encoded(Rest(v))
  }

  lemma {:induction false} EncodedUnfolds(v: bv64)
    ensures v < 0x80 ==> Encoded(v) == [v]
    ensures v >= 0x80 ==> Encoded(v) == [More(v)] + Encoded(Rest(v))
  {
  }

  datatype Decoding = Failed | Decoded(value: bv64, rest: seq<bv64>)

  function Joined(b: bv64, high: bv64): bv64 { (b & 0x7f) | (high << 7) }

  /** Reads one varint off the front of a byte string. */
  function Decode(s: seq<bv64>): Decoding {
    if s == [] then Failed
    else if s[0] < 0x80 then Decoded(s[0], s[1..])
    else match Decode(s[1..])
      case Failed => Failed
      case Decoded(high, rest) => Decoded(Joined(s[0], high), rest)
  }

  lemma JoinedBack(v: bv64)
    ensures Joined(More(v), Rest(v)) == v
  {
  }

  lemma MoreIsMore(v: bv64)
    ensures 0x80 <= More(v) < 0x100
  {
  }

  lemma {:induction false} RoundTrip(v: bv64, tail: seq<bv64>)
    ensures Decode(Encoded(v) + tail) == Decoded(v, tail)
    decreases Groups(v)
  {
    hide More, Rest, Joined, Encoded, Groups;
    EncodedUnfolds(v);
    if v < 0x80 {
      assert ([v] + tail)[1..] == tail;
    } else {
      GroupsRest(v);
      RoundTrip(Rest(v), tail);
      MoreIsMore(v);
      JoinedBack(v);
      assert (Encoded(v) + tail)[1..] == Encoded(Rest(v)) + tail;
    }
  }

  // ---------- the length ----------

  /** CountLeadingZeros64: halving, then a table for the last four bits. */
  function Nibble(x: bv64): bv64 {
    if x == 0 then 4 else if x == 1 then 3 else if x < 4 then 2 else if x < 8 then 1 else 0
  }

  /** x >> s. */
  function Shr(x: bv64, s: bv64): bv64
    requires s < 64
  {
    x >> s
  }

  lemma {:induction false} ShrThen16(x: bv64, s: bv64)
    requires s < 48
    ensures Shr(Shr(x, s), 16) == Shr(x, s + 16)
  {
  }

  lemma {:induction false} ShrThen8(x: bv64, s: bv64)
    requires s < 56
    ensures Shr(Shr(x, s), 8) == Shr(x, s + 8)
  {
  }

  lemma {:induction false} ShrThen4(x: bv64, s: bv64)
    requires s < 60
    ensures Shr(Shr(x, s), 4) == Shr(x, s + 4)
  {
  }

  lemma {:induction false} ShrThen3(x: bv64, s: bv64)
    requires s <= 60 && s & 3 == 0
    ensures Shr(Shr(x, s), 3) == Shr(x, s + 3)
  {
  }

  lemma {:induction false} ShrThen2(x: bv64, s: bv64)
    requires s <= 60 && s & 3 == 0
    ensures Shr(Shr(x, s), 2) == Shr(x, s + 2)
  {
  }

  lemma {:induction false} ShrThen1(x: bv64, s: bv64)
    requires s <= 60 && s & 3 == 0
    ensures Shr(Shr(x, s), 1) == Shr(x, s + 1)
  {
  }

  lemma {:induction false} ShrNone(x: bv64)
    ensures Shr(x, 0) == x
  {
  }

  /** A shift by a multiple of four, then by less than four. */
  lemma {:induction false} ShrThenFew(x: bv64, s: bv64, k: bv64)
    requires s <= 60 && s & 3 == 0 && k <= 3
    ensures Shr(Shr(x, s), k) == Shr(x, s + k)
  {
    hide Shr;
    if k == 0 { ShrNone(Shr(x, s)); }
    if k == 1 { ShrThen1(x, s); }
    if k == 2 { ShrThen2(x, s); }
    if k == 3 { ShrThen3(x, s); }
  }

  lemma {:induction false} NibbleTop(x: bv64)
    requires 0 < x < 16
    ensures Nibble(x) < 4 && Shr(x, 3 - Nibble(x)) == 1
  {
  }

  lemma {:induction false} ShrBelow(x: bv64)
    ensures Shr(x, 0) == x
    ensures Shr(x, 32) < 0x1_0000_0000
    ensures Shr(x, 32) == 0 ==> x < 0x1_0000_0000
    ensures x < 0x1_0000_0000 ==> Shr(x, 16) < 0x1_0000
    ensures Shr(x, 16) == 0 ==> x < 0x1_0000
    ensures x < 0x1_0000 ==> Shr(x, 8) < 0x100
    ensures Shr(x, 8) == 0 ==> x < 0x100
    ensures x < 0x100 ==> Shr(x, 4) < 0x10
    ensures Shr(x, 4) == 0 ==> x < 0x10
  {
  }

  lemma ShrZero()
    ensures Shr(0, 32) == 0 && Shr(0, 16) == 0 && Shr(0, 8) == 0 && Shr(0, 4) == 0
  {
  }

  lemma NibbleNone()
    ensures Nibble(0) == 4
  {
  }

  method CountLeadingZeros64(n: bv64) returns (zeroes: bv64)
    ensures n != 0 ==> zeroes < 64 && Shr(n, 63 - zeroes) == 1
    ensures n == 0 ==> zeroes == 64
  {
    hide Shr, Nibble;
    var x := n;
    zeroes := 60;
    ShrBelow(n);
    ShrZero();
    if Shr(x, 32) != 0 { zeroes := zeroes - 32; x := Shr(x, 32); }
    assert x == Shr(n, 60 - zeroes) && x < 0x1_0000_0000 && (zeroes == 60 || zeroes == 28);
    assert (n != 0 ==> x != 0) && (n == 0 ==> x == 0 && zeroes == 60);
    ShrBelow(x);
    ShrThen16(n, 60 - zeroes);
    if Shr(x, 16) != 0 { zeroes := zeroes - 16; x := Shr(x, 16); }
    assert x == Shr(n, 60 - zeroes) && x < 0x1_0000 && 12 <= zeroes <= 60 && zeroes & 3 == 0;
    assert (n != 0 ==> x != 0) && (n == 0 ==> x == 0 && zeroes == 60);
    ShrBelow(x);
    ShrThen8(n, 60 - zeroes);
    if Shr(x, 8) != 0 { zeroes := zeroes - 8; x := Shr(x, 8); }
    assert x == Shr(n, 60 - zeroes) && x < 0x100 && 4 <= zeroes <= 60 && zeroes & 3 == 0;
    assert (n != 0 ==> x != 0) && (n == 0 ==> x == 0 && zeroes == 60);
    ShrBelow(x);
    ShrThen4(n, 60 - zeroes);
    if Shr(x, 4) != 0 { zeroes := zeroes - 4; x := Shr(x, 4); }
    assert x == Shr(n, 60 - zeroes) && x < 0x10 && zeroes <= 60 && (60 - zeroes) & 3 == 0;
    assert (n != 0 ==> x != 0) && (n == 0 ==> x == 0 && zeroes == 60);
    if n != 0 {
      NibbleTop(x);
      ShrThenFew(n, 60 - zeroes, 3 - Nibble(x));
    }
    NibbleNone();
    zeroes := Nibble(x) + zeroes;
  }

  lemma {:induction false} LengthIsGroups(v: bv64)
    ensures |Encoded(v)| == Groups(v)
    decreases Groups(v)
  {
    hide Groups, More, Rest, Encoded;
    EncodedUnfolds(v);
    if v >= 0x80 {
      GroupsRest(v);
      LengthIsGroups(Rest(v));
    } else {
      GroupsOne(v);
    }
  }

  lemma {:induction false} GroupsOne(v: bv64)
    ensures v < 0x80 ==> Groups(v) == 1
    ensures 1 <= Groups(v) <= 10
  {
  }

  lemma {:induction false} LogRange1(n: bv64, l: bv64)
    requires l < 64 && Shr(n, l) == 1
    ensures l < 7 <==> n < 0x80
    ensures l < 14 <==> n < 0x4000
    ensures l < 21 <==> n < 0x20_0000
  {
  }

  lemma {:induction false} LogRange2(n: bv64, l: bv64)
    requires l < 64 && Shr(n, l) == 1
    ensures l < 28 <==> n < 0x1000_0000
    ensures l < 35 <==> n < 0x8_0000_0000
    ensures l < 42 <==> n < 0x400_0000_0000
  {
  }

  lemma {:induction false} LogRange3(n: bv64, l: bv64)
    requires l < 64 && Shr(n, l) == 1
    ensures l < 49 <==> n < 0x2_0000_0000_0000
    ensures l < 56 <==> n < 0x100_0000_0000_0000
    ensures l < 63 <==> n < 0x8000_0000_0000_0000
  {
  }

  /** The multiplication that stands for a division by seven. */
  function Seventh(l: bv64): bv64 { (l * 9 + 73) >> 6 }

  lemma {:induction false} SeventhIs(l: bv64)
    requires l < 64
    ensures Seventh(l) == if l < 7 then 1 else if l < 14 then 2 else if l < 21 then 3 else if l < 28 then 4
                          else if l < 35 then 5 else if l < 42 then 6 else if l < 49 then 7 else if l < 56 then 8
                          else if l < 63 then 9 else 10
  {
  }

  /** The length formula gives the number of bytes, at most ten. */
  method Length64(v: bv64) returns (length: bv64)
    ensures 1 <= length <= 10 && length as int == |Encoded(v)|
  {
    hide Shr, Seventh, Encoded, Groups;
    LowBitLeavesGroups(v);
    var zeroes := CountLeadingZeros64(v | 1);
    var log2value := 63 - zeroes;
    LengthFormula(v, log2value);
    length := Seventh(log2value);
  }

  lemma {:induction false} LowBitLeavesGroups(v: bv64)
    ensures v | 1 != 0 && Groups(v | 1) == Groups(v)
  {
  }

  lemma {:induction false} SmallAsInt(x: bv64)
    ensures x == 1 ==> x as int == 1
    ensures x == 2 ==> x as int == 2
    ensures x == 3 ==> x as int == 3
    ensures x == 4 ==> x as int == 4
    ensures x == 5 ==> x as int == 5
    ensures x == 6 ==> x as int == 6
    ensures x == 7 ==> x as int == 7
    ensures x == 8 ==> x as int == 8
    ensures x == 9 ==> x as int == 9
    ensures x == 10 ==> x as int == 10
  {
  }

  function GroupsOfLog(l: bv64): nat {
    if l < 7 then 1 else if l < 14 then 2 else if l < 21 then 3 else if l < 28 then 4 else if l < 35 then 5
    else if l < 42 then 6 else if l < 49 then 7 else if l < 56 then 8 else if l < 63 then 9 else 10
  }

  lemma {:induction false} LogGivesGroups(n: bv64, l: bv64)
    requires l < 64 && Shr(n, l) == 1
    ensures GroupsOfLog(l) == Groups(n)
  {
    hide Shr;
    LogRange1(n, l);
    LogRange2(n, l);
    LogRange3(n, l);
  }

  lemma {:induction false} SeventhAsInt(l: bv64)
    requires l < 64
    ensures 1 <= Seventh(l) <= 10 && Seventh(l) as int == GroupsOfLog(l)
  {
    hide Seventh;
    SeventhIs(l);
    SmallAsInt(Seventh(l));
  }

  lemma {:induction false} LengthFormula(v: bv64, l: bv64)
    requires l < 64 && Shr(v | 1, l) == 1
    ensures 1 <= Seventh(l) <= 10 && Seventh(l) as int == |Encoded(v)|
  {
    hide Shr, Seventh, Encoded, Groups, GroupsOfLog;
    SeventhAsInt(l);
    LogGivesGroups(v | 1, l);
    LowBitLeavesGroups(v);
    LengthIsGroups(v);
  }

  // ---------- the unrolled encoder ----------

  lemma {:induction false} RestShr7(v: bv64)
    ensures Rest(Shr(v, 7)) == Shr(v, 14)
  {
  }

  lemma {:induction false} RestShr14(v: bv64)
    ensures Rest(Shr(v, 14)) == Shr(v, 21)
  {
  }

  lemma {:induction false} RestShr21(v: bv64)
    ensures Rest(Shr(v, 21)) == Shr(v, 28)
  {
  }

  lemma {:induction false} RestShr28(v: bv64)
    ensures Rest(Shr(v, 28)) == Shr(v, 35)
  {
  }

  lemma {:induction false} RestShr(v: bv64)
    ensures Rest(v) == Shr(v, 7) && Rest(Shr(v, 7)) == Shr(v, 14) && Rest(Shr(v, 14)) == Shr(v, 21)
    ensures Rest(Shr(v, 21)) == Shr(v, 28) && Rest(Shr(v, 28)) == Shr(v, 35)
  {
    hide Rest, Shr;
    RestShr0(v);
    RestShr7(v);
    RestShr14(v);
    RestShr21(v);
    RestShr28(v);
  }

  lemma {:induction false} RestShr0(v: bv64)
    ensures Rest(v) == Shr(v, 7)
  {
  }

  lemma {:induction false} ShrRanges(v: bv64)
    ensures v < 0x4000 <==> Shr(v, 7) < 0x80
    ensures v < 0x20_0000 <==> Shr(v, 14) < 0x80
    ensures v < 0x1000_0000 <==> Shr(v, 21) < 0x80
    ensures v < 0x8_0000_0000 <==> Shr(v, 28) < 0x80
    ensures Shr(v, 35) < 0x1_0000_0000
  {
  }

  lemma {:induction false} OrIsMore(x: bv64)
    ensures Byte(x | 0x80) == More(x)
    ensures x < 0x80 ==> Byte(x) == x
  {
  }

  lemma {:induction false} Encoded2(v: bv64)
    requires 0x80 <= v
    ensures v < 0x4000 ==> Encoded(v) == [More(v), Shr(v, 7)]
    ensures v >= 0x4000 ==> Encoded(v) == [More(v), More(Shr(v, 7))] + Encoded(Shr(v, 14))
  {
    hide More, Rest, Shr, Encoded;
    RestShr(v);
    ShrRanges(v);
    EncodedUnfolds(v);
    EncodedUnfolds(Shr(v, 7));
  }

  lemma {:induction false} Encoded4(v: bv64)
    requires 0x4000 <= v
    ensures v < 0x20_0000 ==> Encoded(Shr(v, 14)) == [Shr(v, 14)]
    ensures 0x20_0000 <= v < 0x1000_0000 ==> Encoded(Shr(v, 14)) == [More(Shr(v, 14)), Shr(v, 21)]
    ensures v >= 0x1000_0000 ==> Encoded(Shr(v, 14)) == [More(Shr(v, 14)), More(Shr(v, 21))] + Encoded(Shr(v, 28))
  {
    hide More, Rest, Shr, Encoded;
    RestShr(v);
    ShrRanges(v);
    EncodedUnfolds(Shr(v, 14));
    EncodedUnfolds(Shr(v, 21));
  }

  lemma {:induction false} Encoded5(v: bv64)
    requires 0x1000_0000 <= v
    ensures Encoded(v) == [More(v), More(Shr(v, 7)), More(Shr(v, 14)), More(Shr(v, 21))] + Encoded(Shr(v, 28))
    ensures v < 0x8_0000_0000 ==> Encoded(Shr(v, 28)) == [Shr(v, 28)]
    ensures v >= 0x8_0000_0000 ==> Encoded(Shr(v, 28)) == [More(Shr(v, 28))] + Encoded(Shr(v, 35))
  {
    hide More, Rest, Shr, Encoded;
    Encoded2(v);
    Encoded4(v);
    RestShr(v);
    ShrRanges(v);
    EncodedUnfolds(Shr(v, 28));
  }
}
