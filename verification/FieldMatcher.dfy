/** Field matchers (statsd/src/FieldValue.cpp, statsd/src/FieldValue.h): a tree of field
    selectors is compiled to (field, mask) pairs, and a log field is then matched with an
    AND and a compare. The theorem is that compilation preserves meaning. */
module FieldMatcher {
  import opened Options

  const MAX_LOG_DEPTH: nat := 2

  datatype Position = First | Last | Any | All | Unknown

  /** One node of a FieldMatcher proto. */
  datatype Tree = Tree(field: bv32, position: Option<Position>, child: seq<Tree>)

  datatype Field = Field(tag: bv32, field: bv32)
  datatype Matcher = Matcher(matcher: Field, mask: bv32)

  // ---------- encoding ----------

  /** x << 8 * (MAX_LOG_DEPTH - i). */
  function Shifted(x: bv32, i: nat): bv32 {
    if i == 0 then x << 16 else if i == 1 then x << 8 else x
  }

  /** (n - 1) << 24, for a path of n bytes. */
  function DepthBits(n: nat): bv32 {
    if n <= 1 then 0 else if n == 2 then 0x0100_0000 else 0x0200_0000
  }

  /** Three position bytes below a top byte that is already in place. */
  function Word(d: bv32, a: bv32, b: bv32, c: bv32): bv32 { ((a << 16) | (b << 8) | c) | d }

  function At(p: seq<bv32>, i: nat): bv32 { if i < |p| then p[i] else 0 }

  function Packed(p: seq<bv32>, top: bv32): bv32 { Word(top, At(p, 0), At(p, 1), At(p, 2)) }

  function FieldOf(p: seq<bv32>): bv32 { Packed(p, DepthBits(|p|)) }

  function MaskOf(p: seq<bv32>): bv32 { Packed(p, 0xff00_0000) }

  function Or(a: bv32, b: bv32): bv32 { a | b }

  /** The encoding loop over the position array. */
  method GetEncodedField(pos: array<bv32>, depth: nat, includeDepth: bool) returns (field: bv32)
    requires depth <= MAX_LOG_DEPTH && pos.Length == 3
    ensures field == if includeDepth then FieldOf(pos[..depth + 1]) else Packed(pos[..depth + 1], 0)
  {
    hide Packed, Shifted, DepthBits, Or;
    field := 0;
    var i := 0;
    PackedNone();
    while i <= depth
      invariant 0 <= i <= depth + 1
      invariant field == Packed(pos[..i], 0)
    {
      PackedPush(pos[..i], pos[i]);
      assert pos[..i + 1] == pos[..i] + [pos[i]];
      field := Or(field, Shifted(pos[i], i));
      i := i + 1;
    }
    if includeDepth {
      PackedTop(pos[..depth + 1], DepthBits(depth + 1));
      field := Or(field, DepthBits(depth + 1));
    }
  }

  method EncodeMatcherMask(mask: array<bv32>, depth: nat) returns (r: bv32)
    requires depth <= MAX_LOG_DEPTH && mask.Length == 3
    ensures r == MaskOf(mask[..depth + 1])
  {
    hide Packed, Or;
    r := GetEncodedField(mask, depth, false);
    PackedTop(mask[..depth + 1], 0xff00_0000);
    r := Or(r, 0xff00_0000);
  }

  lemma PackedNone()
    ensures Packed([], 0) == 0
  {
  }

  lemma {:induction false} PackedTop(p: seq<bv32>, top: bv32)
    ensures Packed(p, top) == Or(Packed(p, 0), top)
  {
    hide Word, Or;
    OrTop(top, At(p, 0), At(p, 1), At(p, 2));
  }

  lemma {:induction false} OrTop(d: bv32, a: bv32, b: bv32, c: bv32)
    ensures Word(d, a, b, c) == Or(Word(0, a, b, c), d)
  {
    hide Word;
    OrZeroTop(d, a, b, c);
  }

  lemma OrZeroTop(d: bv32, a: bv32, b: bv32, c: bv32)
    ensures Word(d, a, b, c) == Word(0, a, b, c) | d
  {
  }

  lemma {:induction false} PackedPush(p: seq<bv32>, x: bv32)
    requires |p| <= 2
    ensures Packed(p + [x], 0) == Or(Packed(p, 0), Shifted(x, |p|))
  {
    hide Word, Shifted, Or;
    if |p| == 0 { OrFirst(x); } else if |p| == 1 { OrSecond(p[0], x); } else { OrThird(p[0], p[1], x); }
  }

  lemma OrFirst(x: bv32)
    ensures Word(0, x, 0, 0) == Or(Word(0, 0, 0, 0), Shifted(x, 0))
  {
  }

  lemma OrSecond(a: bv32, x: bv32)
    ensures Word(0, a, x, 0) == Or(Word(0, a, 0, 0), Shifted(x, 1))
  {
  }

  lemma OrThird(a: bv32, b: bv32, x: bv32)
    ensures Word(0, a, b, x) == Or(Word(0, a, b, 0), Shifted(x, 2))
  {
  }

  // ---------- matching ----------

  function And(a: bv32, b: bv32): bv32 { a & b }

  /** getRawPosAtDepth(1) and getRawMaskAtDepth(1). */
  function TopByteOf(x: bv32): bv32 { x >> 24 }

  function SecondByte(x: bv32): bv32 { (x & 0x0000_ff00) >> 8 }

  predicate HasAllPositionMatcher(m: Matcher) {
    TopByteOf(m.matcher.field) >= 1 && SecondByte(m.matcher.field) == 0 && SecondByte(m.mask) == 0x7f
  }

  predicate Matches(f: Field, m: Matcher) {
    f.tag == m.matcher.tag &&
    (And(f.field, m.mask) == m.matcher.field ||
     (HasAllPositionMatcher(m) && And(f.field, And(m.mask, 0xffff_00ff)) == m.matcher.field))
  }

  // ---------- compilation ----------

  /** A level of a compiled path: a field number or a position selector. */
  datatype Step = Number(field: bv32) | Select(position: Position)

  function StepPos(s: Step): bv32 {
    match s
    case Number(f) => f
    case Select(All) => 0x00
    case Select(Any) => 0
    case Select(First) => 1
    case Select(Last) => 0x80
    case Select(Unknown) => 0
  }

  function StepMask(s: Step): bv32 {
    match s
    case Number(_) => 0x7f
    case Select(All) => 0x7f
    case Select(Any) => 0
    case Select(First) => 0x7f
    case Select(Last) => 0x80
    case Select(Unknown) => 0
  }

  function Poses(steps: seq<Step>): seq<bv32> { seq(|steps|, i requires 0 <= i < |steps| => StepPos(steps[i])) }

  function Masks(steps: seq<Step>): seq<bv32> { seq(|steps|, i requires 0 <= i < |steps| => StepMask(steps[i])) }

  function MatcherOf(tag: bv32, steps: seq<Step>): Matcher {
    Matcher(Field(tag, FieldOf(Poses(steps))), MaskOf(Masks(steps)))
  }

  /** The selector paths from the root to the leaves that stay within the depth limit. */
  function Leaves(m: Tree, steps: seq<Step>): seq<seq<Step>>
    decreases m, 1
  {
    if |steps| > MAX_LOG_DEPTH then []
    else
      var here := steps + [Number(m.field)];
      if m.position.Some? && |here| > MAX_LOG_DEPTH then []
      else
        var all := if m.position.Some? then here + [Select(m.position.value)] else here;
        if m.child == [] then [all] else LeavesOfAll(m, m.child, all)
  }

  function LeavesOfAll(ghost parent: Tree, ms: seq<Tree>, steps: seq<Step>): seq<seq<Step>>
    requires forall i :: 0 <= i < |ms| ==> ms[i] in parent.child
    decreases parent, 0, |ms|
  {
    if ms == [] then [] else
      assert ms[|ms| - 1] in parent.child;
      LeavesOfAll(parent, ms[..|ms| - 1], steps) + Leaves(ms[|ms| - 1], steps)
  }

  function Compiled(tag: bv32, leaves: seq<seq<Step>>): seq<Matcher> {
    seq(|leaves|, i requires 0 <= i < |leaves| => MatcherOf(tag, leaves[i]))
  }

  ghost predicate Holds(pos: array<bv32>, mask: array<bv32>, steps: seq<Step>)
    reads pos, mask
  {
    && |steps| <= pos.Length && |steps| <= mask.Length
    && pos[..|steps|] == Poses(steps) && mask[..|steps|] == Masks(steps)
  }

  /** Writes one level into both arrays. */
  method PutLevel(pos: array<bv32>, mask: array<bv32>, depth: nat, s: Step, ghost steps: seq<Step>)
    requires pos.Length == 3 && mask.Length == 3 && pos != mask
    requires depth <= MAX_LOG_DEPTH && depth == |steps| && Holds(pos, mask, steps)
    modifies pos, mask
    ensures Holds(pos, mask, steps + [s])
  {
    hide StepPos, StepMask;
    LevelPushed(steps, s);
    pos[depth] := StepPos(s);
    mask[depth] := StepMask(s);
    assert pos[..depth + 1] == pos[..depth] + [pos[depth]] && mask[..depth + 1] == mask[..depth] + [mask[depth]];
  }

  lemma {:induction false} HoldsPrefix(pos: array<bv32>, mask: array<bv32>, steps: seq<Step>, n: nat)
    requires Holds(pos, mask, steps) && n <= |steps|
    ensures Holds(pos, mask, steps[..n])
  {
    hide StepPos, StepMask;
    assert pos[..n] == pos[..|steps|][..n] && mask[..n] == mask[..|steps|][..n];
  }

  /** The matcher for what the arrays hold. */
  method EncodeLeaf(tag: bv32, pos: array<bv32>, mask: array<bv32>, depth: nat, ghost steps: seq<Step>)
    returns (m: Matcher)
    requires pos.Length == 3 && mask.Length == 3 && depth <= MAX_LOG_DEPTH
    requires |steps| == depth + 1 && Holds(pos, mask, steps)
    ensures m == MatcherOf(tag, steps)
  {
    hide FieldOf, MaskOf, StepPos, StepMask;
    var f := GetEncodedField(pos, depth, true);
    var k := EncodeMatcherMask(mask, depth);
    m := Matcher(Field(tag, f), k);
  }

  /** The recursive translation over the shared position and mask arrays. Entries above
      the starting depth are left alone; entries below are stale after a sibling. */
  method Translate(tag: bv32, m: Tree, startDepth: nat, pos: array<bv32>, mask: array<bv32>,
                   output: seq<Matcher>, ghost steps: seq<Step>) returns (r: seq<Matcher>)
    requires pos.Length == 3 && mask.Length == 3 && pos != mask
    requires |steps| == startDepth <= 3 && Holds(pos, mask, steps)
    modifies pos, mask
    ensures r == output + Compiled(tag, Leaves(m, steps))
    ensures Holds(pos, mask, steps)
    decreases m
  {
    hide FieldOf, MaskOf, StepPos, StepMask, Compiled, Holds, MatcherOf;
    r := output;
    CompiledNone(tag, output);
    var depth := startDepth;
    if depth > MAX_LOG_DEPTH {
      return;
    }
    ghost var all := steps + [Number(m.field)];
    PutLevel(pos, mask, depth, Number(m.field), steps);
    if m.position.Some? {
      depth := depth + 1;
      if depth > MAX_LOG_DEPTH {
        HoldsPrefix(pos, mask, all, startDepth);
        assert all[..startDepth] == steps;
        return;
      }
      var selector := Select(m.position.value);
      PutLevel(pos, mask, depth, selector, all);
      all := all + [selector];
    }
    if m.child == [] {
      var leaf := EncodeLeaf(tag, pos, mask, depth, all);
      CompiledOne(tag, output, all);
      r := r + [leaf];
    } else {
      for i := 0 to |m.child|
        invariant Holds(pos, mask, all)
        invariant r == output + Compiled(tag, LeavesOfAll(m, m.child[..i], all))
      {
        assert m.child[..i + 1][..i] == m.child[..i];
        CompiledMore(tag, output, LeavesOfAll(m, m.child[..i], all), Leaves(m.child[i], all));
        r := Translate(tag, m.child[i], depth + 1, pos, mask, r, all);
      }
      assert m.child[..|m.child|] == m.child;
    }
    HoldsPrefix(pos, mask, all, startDepth);
    assert all[..startDepth] == steps;
  }

  lemma CompiledNone(tag: bv32, output: seq<Matcher>)
    ensures output + Compiled(tag, []) == output
  {
  }

  lemma {:induction false} CompiledOne(tag: bv32, output: seq<Matcher>, steps: seq<Step>)
    ensures output + Compiled(tag, [steps]) == output + [MatcherOf(tag, steps)]
  {
    hide MatcherOf;
  }

  lemma {:induction false} CompiledMore(tag: bv32, output: seq<Matcher>, a: seq<seq<Step>>, b: seq<seq<Step>>)
    ensures output + Compiled(tag, a + b) == output + Compiled(tag, a) + Compiled(tag, b)
  {
    hide MatcherOf;
  }

  lemma {:induction false} LevelPushed(steps: seq<Step>, s: Step)
    ensures Poses(steps + [s]) == Poses(steps) + [StepPos(s)]
    ensures Masks(steps + [s]) == Masks(steps) + [StepMask(s)]
  {
    hide StepPos, StepMask;
  }

  /** The entry point: the root's field number is the atom id. */
  method TranslateFieldMatcher(m: Tree) returns (output: seq<Matcher>)
    ensures output == Compiled(m.field, LeavesOfAll(m, m.child, []))
  {
    hide MatcherOf, Leaves;
    var pos := new bv32[3](_ => 1);
    var mask := new bv32[3](_ => 0x7f);
    output := [];
    assert Compiled(m.field, []) == [];
    for i := 0 to |m.child|
      invariant output == Compiled(m.field, LeavesOfAll(m, m.child[..i], []))
    {
      assert m.child[..i + 1][..i] == m.child[..i];
      CompiledMore(m.field, [], LeavesOfAll(m, m.child[..i], []), Leaves(m.child[i], []));
      output := Translate(m.field, m.child[i], 0, pos, mask, output, []);
    }
    assert m.child[..|m.child|] == m.child;
  }

  // ---------- meaning ----------

  /** A level of a logged field: its position and whether it is the last at its level. */
  datatype Item = Item(pos: bv32, last: bool)

  ghost predicate LogPath(log: seq<Item>) {
    1 <= |log| <= MAX_LOG_DEPTH + 1 && forall i :: 0 <= i < |log| ==> log[i].pos < 0x80
  }

  function ItemByte(x: Item): bv32 { if x.last then x.pos | 0x80 else x.pos }

  function ItemBytes(log: seq<Item>): seq<bv32> { seq(|log|, i requires 0 <= i < |log| => ItemByte(log[i])) }

  function LogField(tag: bv32, log: seq<Item>): Field { Field(tag, FieldOf(ItemBytes(log))) }

  predicate StepSelects(s: Step, x: Item) {
    match s
    case Number(f) => x.pos == f
    case Select(First) => x.pos == 1
    case Select(Last) => x.last
    case Select(_) => true
  }

  ghost predicate LeafSelects(steps: seq<Step>, log: seq<Item>) {
    |steps| == |log| && forall i :: 0 <= i < |log| ==> StepSelects(steps[i], log[i])
  }

  /** The tree, read structurally: the node's number, then its position, then its children. */
  ghost predicate TreeSelects(m: Tree, log: seq<Item>, i: nat)
    decreases m
  {
    && i < |log| && log[i].pos == m.field
    && (m.position.Some? ==> i + 1 < |log| && StepSelects(Select(m.position.value), log[i + 1]))
    && var j := if m.position.Some? then i + 2 else i + 1;
       if m.child == [] then j == |log| else exists c :: c in m.child && TreeSelects(c, log, j)
  }

  // ---------- one leaf ----------

  /** Field numbers that fit in a byte. */
  ghost predicate NumbersFit(steps: seq<Step>) {
    1 <= |steps| <= 3 && forall i :: 0 <= i < |steps| && steps[i].Number? ==> steps[i].field < 0x100
  }

  ghost predicate Bytes(a: bv32, b: bv32, c: bv32) { a < 0x100 && b < 0x100 && c < 0x100 }

  ghost predicate TopByte(d: bv32) { d & 0x00ff_ffff == 0 }

  function Low(w: bv32): bv32 { w & 0xff }
  function High(w: bv32): bv32 { (w >> 16) & 0xff }
  function Top(w: bv32): bv32 { w & 0xff00_0000 }

  lemma WordLow(d: bv32, a: bv32, b: bv32, c: bv32)
    requires TopByte(d) && Bytes(a, b, c)
    ensures Low(Word(d, a, b, c)) == c
  {
  }

  lemma WordSecond(d: bv32, a: bv32, b: bv32, c: bv32)
    requires TopByte(d) && Bytes(a, b, c)
    ensures SecondByte(Word(d, a, b, c)) == b
  {
  }

  lemma WordHigh(d: bv32, a: bv32, b: bv32, c: bv32)
    requires TopByte(d) && Bytes(a, b, c)
    ensures High(Word(d, a, b, c)) == a
  {
  }

  lemma WordTop(d: bv32, a: bv32, b: bv32, c: bv32)
    requires TopByte(d) && Bytes(a, b, c)
    ensures Top(Word(d, a, b, c)) == d
  {
  }

  lemma AndBytes(a: bv32, b: bv32)
    requires b < 0x100
    ensures a & b < 0x100
  {
  }

  lemma AndWords(d: bv32, e: bv32, b0: bv32, b1: bv32, b2: bv32, m0: bv32, m1: bv32, m2: bv32)
    requires TopByte(d) && TopByte(e) && Bytes(b0, b1, b2) && Bytes(m0, m1, m2)
    ensures Word(d, b0, b1, b2) & Word(e, m0, m1, m2) == Word(d & e, b0 & m0, b1 & m1, b2 & m2)
  {
  }

  /** A word is determined by its bytes. */
  lemma {:induction false} SameWords(d: bv32, a: bv32, b: bv32, c: bv32, d': bv32, a': bv32, b': bv32, c': bv32)
    requires TopByte(d) && Bytes(a, b, c) && TopByte(d') && Bytes(a', b', c')
    ensures Word(d, a, b, c) == Word(d', a', b', c') <==> d == d' && a == a' && b == b' && c == c'
  {
    hide *;
    WordLow(d, a, b, c);
    WordLow(d', a', b', c');
    WordSecond(d, a, b, c);
    WordSecond(d', a', b', c');
    WordHigh(d, a, b, c);
    WordHigh(d', a', b', c');
    WordTop(d, a, b, c);
    WordTop(d', a', b', c');
  }

  lemma {:induction false} AndPacked(d: bv32, b0: bv32, b1: bv32, b2: bv32, m0: bv32, m1: bv32, m2: bv32)
    requires TopByte(d) && Bytes(b0, b1, b2) && Bytes(m0, m1, m2)
    ensures And(Word(d, b0, b1, b2), Word(0xff00_0000, m0, m1, m2)) == Word(d, And(b0, m0), And(b1, m1), And(b2, m2))
  {
    hide Word, Bytes, TopByte, And;
    TopFull();
    TopMasked(d);
    AndEach(d, 0xff00_0000, b0, b1, b2, m0, m1, m2);
  }

  lemma TopMasked(d: bv32)
    requires TopByte(d)
    ensures And(d, 0xff00_0000) == d
  {
  }

  lemma {:induction false} AndEach(d: bv32, e: bv32, b0: bv32, b1: bv32, b2: bv32, m0: bv32, m1: bv32, m2: bv32)
    requires TopByte(d) && TopByte(e) && Bytes(b0, b1, b2) && Bytes(m0, m1, m2)
    ensures And(Word(d, b0, b1, b2), Word(e, m0, m1, m2)) == Word(And(d, e), And(b0, m0), And(b1, m1), And(b2, m2))
  {
    hide Word, Bytes, TopByte;
    AndWords(d, e, b0, b1, b2, m0, m1, m2);
  }

  lemma {:induction false} AndAllBytes(b0: bv32, b1: bv32, b2: bv32, m0: bv32, m1: bv32, m2: bv32)
    requires Bytes(m0, m1, m2)
    ensures Bytes(And(b0, m0), And(b1, m1), And(b2, m2))
  {
    AndBytes(b0, m0);
    AndBytes(b1, m1);
    AndBytes(b2, m2);
  }

  /** A byte under its mask is what the matcher asks for. */
  predicate Reads(b: bv32, m: bv32, p: bv32) { And(b, m) == p }

  /** One AND and one compare look at the depth and at each byte under its mask. */
  lemma {:induction false} WordMatch(d: bv32, e: bv32, b0: bv32, b1: bv32, b2: bv32, p0: bv32, p1: bv32, p2: bv32,
                  m0: bv32, m1: bv32, m2: bv32)
    requires TopByte(d) && TopByte(e) && Bytes(b0, b1, b2) && Bytes(p0, p1, p2) && Bytes(m0, m1, m2)
    ensures And(Word(d, b0, b1, b2), Word(0xff00_0000, m0, m1, m2)) == Word(e, p0, p1, p2)
            <==> d == e && Reads(b0, m0, p0) && Reads(b1, m1, p1) && Reads(b2, m2, p2)
  {
    hide Word, TopByte, And, Bytes;
    AndPacked(d, b0, b1, b2, m0, m1, m2);
    AndAllBytes(b0, b1, b2, m0, m1, m2);
    SameWords(d, And(b0, m0), And(b1, m1), And(b2, m2), e, p0, p1, p2);
  }

  lemma TopFull()
    ensures TopByte(0xff00_0000)
  {
  }

  /** Clearing the second byte of a mask. */
  lemma ClearSecond(m0: bv32, m1: bv32, m2: bv32)
    requires Bytes(m0, m1, m2)
    ensures And(Word(0xff00_0000, m0, m1, m2), 0xffff_00ff) == Word(0xff00_0000, m0, 0, m2)
  {
  }

  lemma NumberByte(p: bv32, f: bv32)
    requires p < 0x80 && f < 0x100
    ensures p & 0x7f == f <==> p == f
  {
  }

  lemma NumberLastByte(p: bv32, f: bv32)
    requires p < 0x80 && f < 0x100
    ensures (p | 0x80) & 0x7f == f <==> p == f
  {
  }

  lemma LastByte(p: bv32)
    requires p < 0x80
    ensures p & 0x80 != 0x80 && (p | 0x80) & 0x80 == 0x80
  {
  }

  lemma {:induction false} ItemNumber(x: Item, f: bv32)
    requires x.pos < 0x80 && f < 0x100
    ensures And(ItemByte(x), 0x7f) == f <==> x.pos == f
  {
    if x.last { NumberLastByte(x.pos, f); } else { NumberByte(x.pos, f); }
  }

  lemma {:induction false} ItemLast(x: Item)
    requires x.pos < 0x80
    ensures And(ItemByte(x), 0x80) == 0x80 <==> x.last
  {
    LastByte(x.pos);
  }

  /** A byte under its mask says what the selector says, except that the first compare
      reads ALL as position 0. */
  lemma {:induction false} StepByte(s: Step, x: Item)
    requires x.pos < 0x80 && (s.Number? ==> s.field < 0x100)
    ensures s != Select(All) ==> (And(ItemByte(x), StepMask(s)) == StepPos(s) <==> StepSelects(s, x))
    ensures IsZero(s) ==> (And(ItemByte(x), StepMask(s)) == StepPos(s) <==> x.pos == 0)
  {
    hide And, ItemByte;
    match s
    case Number(f) => ItemNumber(x, f);
    case Select(First) => ItemNumber(x, 1);
    case Select(All) => ItemNumber(x, 0);
    case Select(Last) => ItemLast(x);
    case Select(_) => AndZero(ItemByte(x));
  }

  lemma AndZero(p: bv32)
    ensures And(p, 0) == 0
  {
  }

  lemma LastIsByte(p: bv32)
    requires p < 0x80
    ensures p | 0x80 < 0x100
  {
  }

  /** Position byte 0 under a full mask, which the second level takes for ALL. */
  predicate IsZero(s: Step) { s == Select(All) || s == Number(0) }

  /** What the two compares read off a leaf: every step as it is meant, but ALL as position 0
      off the second level, and field number 0 as ALL on it. */
  ghost predicate LeafReads(steps: seq<Step>, log: seq<Item>) {
    |steps| == |log| &&
    forall i :: 0 <= i < |log| ==>
      if IsZero(steps[i]) then i == 1 || log[i].pos == 0 else StepSelects(steps[i], log[i])
  }

  ghost predicate ByteReads(steps: seq<Step>, log: seq<Item>, i: nat) {
    Reads(At(ItemBytes(log), i), At(Masks(steps), i), At(Poses(steps), i))
  }

  lemma DepthIsTop(n: nat)
    ensures TopByte(DepthBits(n))
  {
  }

  lemma DepthTells(m: nat, n: nat)
    requires 1 <= m <= 3 && 1 <= n <= 3
    ensures DepthBits(m) == DepthBits(n) <==> m == n
    ensures TopByteOf(DepthBits(n)) >= 1 <==> n >= 2
  {
  }

  lemma WordDepth(d: bv32, a: bv32, b: bv32, c: bv32)
    requires TopByte(d) && Bytes(a, b, c)
    ensures TopByteOf(Word(d, a, b, c)) == TopByteOf(d)
  {
  }

  predicate IsByte(x: bv32) { x < 0x100 }

  ghost predicate AllAreBytes(p: seq<bv32>) { forall i :: 0 <= i < |p| ==> IsByte(p[i]) }

  lemma BytesAt(p: seq<bv32>, i: nat)
    requires AllAreBytes(p)
    ensures IsByte(At(p, i))
  {
  }

  lemma BytesFrom(a: bv32, b: bv32, c: bv32)
    requires IsByte(a) && IsByte(b) && IsByte(c)
    ensures Bytes(a, b, c)
  {
  }

  lemma {:induction false} ThreeBytes(p: seq<bv32>)
    requires AllAreBytes(p)
    ensures Bytes(At(p, 0), At(p, 1), At(p, 2))
  {
    hide At, Bytes, IsByte;
    BytesAt(p, 0);
    BytesAt(p, 1);
    BytesAt(p, 2);
    BytesFrom(At(p, 0), At(p, 1), At(p, 2));
  }

  lemma StepBytes(s: Step)
    requires s.Number? ==> s.field < 0x100
    ensures IsByte(StepPos(s)) && IsByte(StepMask(s))
  {
  }

  lemma {:induction false} ItemIsByte(x: Item)
    requires x.pos < 0x80
    ensures IsByte(ItemByte(x))
  {
    LastIsByte(x.pos);
  }

  lemma {:induction false} StepsAreBytes(steps: seq<Step>)
    requires NumbersFit(steps)
    ensures AllAreBytes(Poses(steps)) && AllAreBytes(Masks(steps))
  {
    hide StepPos, StepMask, IsByte;
    forall i | 0 <= i < |steps| ensures IsByte(StepPos(steps[i])) && IsByte(StepMask(steps[i])) {
      StepBytes(steps[i]);
    }
  }

  lemma {:induction false} ItemsAreBytes(log: seq<Item>)
    requires LogPath(log)
    ensures AllAreBytes(ItemBytes(log))
  {
    hide ItemByte, IsByte;
    forall i | 0 <= i < |log| ensures IsByte(ItemByte(log[i])) {
      ItemIsByte(log[i]);
    }
  }

  lemma {:induction false} AllBytes(steps: seq<Step>, log: seq<Item>)
    requires NumbersFit(steps) && LogPath(log)
    ensures Bytes(At(Poses(steps), 0), At(Poses(steps), 1), At(Poses(steps), 2))
    ensures Bytes(At(Masks(steps), 0), At(Masks(steps), 1), At(Masks(steps), 2))
    ensures Bytes(At(ItemBytes(log), 0), At(ItemBytes(log), 1), At(ItemBytes(log), 2))
  {
    hide Poses, Masks, ItemBytes, At, Bytes, AllAreBytes;
    StepsAreBytes(steps);
    ItemsAreBytes(log);
    ThreeBytes(Poses(steps));
    ThreeBytes(Masks(steps));
    ThreeBytes(ItemBytes(log));
  }

  /** The four bytes of a word, from the highest down. */
  ghost predicate HasBytes(w: bv32, top: bv32, a: bv32, b: bv32, c: bv32) {
    w >> 24 == top && (w >> 16) & 0xff == a && (w >> 8) & 0xff == b && w & 0xff == c
  }

  /** What a packed field holds: one less than the number of levels in the top byte, and below it
      the levels' bytes, 0 where there is no level. */
  lemma {:induction false} FieldReads(p: seq<bv32>)
    requires 1 <= |p| <= 3 && AllAreBytes(p)
    ensures HasBytes(FieldOf(p), if |p| == 1 then 0 else if |p| == 2 then 1 else 2,
                     p[0], if |p| >= 2 then p[1] else 0, if |p| >= 3 then p[2] else 0)
  {
    hide Word, Bytes, TopByte, IsByte, HasBytes, DepthBits;
    ThreeBytes(p);
    DepthIsTop(|p|);
    WordReads(DepthBits(|p|), DepthOf(|p|), At(p, 0), At(p, 1), At(p, 2));
  }

  function DepthOf(n: nat): (d: bv32)
    ensures d == if n <= 1 then 0 else if n == 2 then 1 else 2
    ensures DepthBits(n) >> 24 == d
  {
    DepthBits(n) >> 24
  }

  lemma WordReads(d: bv32, top: bv32, a: bv32, b: bv32, c: bv32)
    requires TopByte(d) && Bytes(a, b, c) && d >> 24 == top
    ensures HasBytes(Word(d, a, b, c), top, a, b, c)
  {
  }

  /** The same for a mask, whose top byte is full. */
  lemma {:induction false} MaskReads(p: seq<bv32>)
    requires 1 <= |p| <= 3 && AllAreBytes(p)
    ensures HasBytes(MaskOf(p), 0xff, p[0], if |p| >= 2 then p[1] else 0, if |p| >= 3 then p[2] else 0)
  {
    hide Word, Bytes, TopByte, IsByte, HasBytes;
    ThreeBytes(p);
    TopFull();
    WordReads(0xff00_0000, 0xff, At(p, 0), At(p, 1), At(p, 2));
  }

  lemma {:induction false} HasAllIff(tag: bv32, steps: seq<Step>, log: seq<Item>)
    requires NumbersFit(steps) && LogPath(log)
    ensures HasAllPositionMatcher(MatcherOf(tag, steps)) <==> |steps| >= 2 && IsZero(steps[1])
  {
    hide Word, TopByteOf, SecondByte, Bytes, TopByte, DepthBits, ItemBytes, At, Poses, Masks, IsZero,
         NumbersFit, LogPath;
    AllBytes(steps, log);
    PathLengths(steps, log);
    DepthIsTop(|steps|);
    TopFull();
    DepthTells(1, |steps|);
    var p, m := Poses(steps), Masks(steps);
    WordDepth(DepthBits(|steps|), At(p, 0), At(p, 1), At(p, 2));
    WordSecond(DepthBits(|steps|), At(p, 0), At(p, 1), At(p, 2));
    WordSecond(0xff00_0000, At(m, 0), At(m, 1), At(m, 2));
    SecondStep(steps);
  }

  lemma {:induction false} SecondStep(steps: seq<Step>)
    ensures |steps| >= 2 ==> (At(Poses(steps), 1) == 0 && At(Masks(steps), 1) == 0x7f <==> IsZero(steps[1]))
  {
  }

  lemma {:induction false} FirstCompare(tag: bv32, steps: seq<Step>, log: seq<Item>)
    requires NumbersFit(steps) && LogPath(log)
    ensures var m := MatcherOf(tag, steps);
            And(LogField(tag, log).field, m.mask) == m.matcher.field
            <==> |steps| == |log| && ByteReads(steps, log, 0) && ByteReads(steps, log, 1) && ByteReads(steps, log, 2)
  {
    hide Word, And, Bytes, TopByte, DepthBits, ItemBytes, Poses, Masks, At, Reads, NumbersFit, LogPath;
    AllBytes(steps, log);
    DepthIsTop(|steps|);
    DepthIsTop(|log|);
    PathLengths(steps, log);
    DepthTells(|steps|, |log|);
    var p, m, b := Poses(steps), Masks(steps), ItemBytes(log);
    WordMatch(DepthBits(|log|), DepthBits(|steps|), At(b, 0), At(b, 1), At(b, 2), At(p, 0), At(p, 1), At(p, 2),
              At(m, 0), At(m, 1), At(m, 2));
  }

  lemma {:induction false} SecondCompare(tag: bv32, steps: seq<Step>, log: seq<Item>)
    requires NumbersFit(steps) && LogPath(log) && At(Poses(steps), 1) == 0
    ensures var m := MatcherOf(tag, steps);
            And(LogField(tag, log).field, And(m.mask, 0xffff_00ff)) == m.matcher.field
            <==> |steps| == |log| && ByteReads(steps, log, 0) && ByteReads(steps, log, 2)
  {
    hide Word, And, Bytes, TopByte, DepthBits, ItemBytes, Poses, Masks, At, Reads, NumbersFit, LogPath;
    AllBytes(steps, log);
    DepthIsTop(|steps|);
    DepthIsTop(|log|);
    PathLengths(steps, log);
    DepthTells(|steps|, |log|);
    var p, m, b := Poses(steps), Masks(steps), ItemBytes(log);
    ClearSecond(At(m, 0), At(m, 1), At(m, 2));
    ZeroBytes(At(m, 0), At(m, 1), At(m, 2));
    ReadsZero(At(b, 1));
    WordMatch(DepthBits(|log|), DepthBits(|steps|), At(b, 0), At(b, 1), At(b, 2), At(p, 0), At(p, 1), At(p, 2),
              At(m, 0), 0, At(m, 2));
  }

  lemma {:induction false} ReadsZero(b: bv32)
    ensures Reads(b, 0, 0)
  {
    AndZero(b);
  }

  lemma ZeroBytes(a: bv32, b: bv32, c: bv32)
    requires Bytes(a, b, c)
    ensures Bytes(a, 0, c)
  {
  }

  lemma PathLengths(steps: seq<Step>, log: seq<Item>)
    requires NumbersFit(steps) && LogPath(log)
    ensures 1 <= |steps| <= 3 && 1 <= |log| <= 3
    ensures |Poses(steps)| == |steps| && |Masks(steps)| == |steps| && |ItemBytes(log)| == |log|
  {
  }

  /** Byte by byte, for the bytes that exist; the others are zero on both sides. */
  lemma {:induction false} ByteMeans(steps: seq<Step>, log: seq<Item>, i: nat)
    requires NumbersFit(steps) && LogPath(log) && |steps| == |log| && i < 3
    ensures ByteReads(steps, log, i) <==>
            (i >= |steps| || if IsZero(steps[i]) then log[i].pos == 0 else StepSelects(steps[i], log[i]))
  {
    hide And, StepPos, StepMask, ItemByte, StepSelects;
    if i < |steps| {
      StepByte(steps[i], log[i]);
    } else {
      AndZero(0);
    }
  }

  lemma {:induction false} LeafMatch(tag: bv32, steps: seq<Step>, log: seq<Item>)
    requires NumbersFit(steps) && LogPath(log)
    ensures Matches(LogField(tag, log), MatcherOf(tag, steps)) <==> LeafReads(steps, log)
  {
    hide And, HasAllPositionMatcher, StepSelects, ByteReads, FieldOf, MaskOf, ItemBytes;
    FirstCompare(tag, steps, log);
    HasAllIff(tag, steps, log);
    if |steps| == |log| {
      ByteMeans(steps, log, 0);
      ByteMeans(steps, log, 1);
      ByteMeans(steps, log, 2);
    }
    if |steps| >= 2 && IsZero(steps[1]) {
      SecondCompare(tag, steps, log);
    }
  }

  // ---------- exactly when a leaf means what it says ----------

  ghost predicate AllOnSecondLevel(steps: seq<Step>) {
    forall i :: 0 <= i < |steps| && steps[i] == Select(All) ==> i == 1
  }

  /** A field number that no logged field has. */
  ghost predicate Unmatchable(steps: seq<Step>) {
    exists i :: 0 <= i < |steps| && steps[i].Number? && steps[i].field >= 0x80
  }

  ghost predicate NoZeroOnSecondLevel(steps: seq<Step>) { |steps| >= 2 ==> steps[1] != Number(0) }

  /** A logged field that the selector accepts, at no position 0 unless that is its number. */
  function Accepted(s: Step): Item { Item(if s.Number? then s.field else 1, true) }

  function AllAccepted(steps: seq<Step>): seq<Item> { seq(|steps|, i requires 0 <= i < |steps| => Accepted(steps[i])) }

  /** With field numbers of one byte, a compiled leaf matches what its selectors say on every log
      field if and only if ALL is used on the second level only and number 0 is not used there, or
      a number above 127 keeps it from matching anything at all. */
  lemma {:induction false} LeafExact(tag: bv32, steps: seq<Step>)
    requires NumbersFit(steps)
    ensures Unmatchable(steps) || (AllOnSecondLevel(steps) && NoZeroOnSecondLevel(steps)) <==>
            forall log :: LogPath(log) ==>
              (Matches(LogField(tag, log), MatcherOf(tag, steps)) <==> LeafSelects(steps, log))
  {
    hide Matches, LogField, MatcherOf;
    forall log | LogPath(log)
      ensures Matches(LogField(tag, log), MatcherOf(tag, steps)) <==> LeafReads(steps, log)
    {
      LeafMatch(tag, steps, log);
    }
    if Unmatchable(steps) {
      forall log | LogPath(log) ensures !LeafReads(steps, log) && !LeafSelects(steps, log) { NeverRead(steps, log); }
    } else if !AllOnSecondLevel(steps) {
      var log := AllAccepted(steps);
      assert LogPath(log) && LeafSelects(steps, log) && !LeafReads(steps, log);
    } else if !NoZeroOnSecondLevel(steps) {
      ZeroReadAsAll(steps);
    }
  }

  lemma {:induction false} NeverRead(steps: seq<Step>, log: seq<Item>)
    requires Unmatchable(steps) && LogPath(log)
    ensures !LeafReads(steps, log) && !LeafSelects(steps, log)
  {
    var i :| 0 <= i < |steps| && steps[i].Number? && steps[i].field >= 0x80;
    if |steps| == |log| { assert !StepSelects(steps[i], log[i]); }
  }

  /** A field number 0 on the second level is taken for ALL. */
  lemma {:induction false} ZeroReadAsAll(steps: seq<Step>)
    requires NumbersFit(steps) && !Unmatchable(steps) && AllOnSecondLevel(steps) && !NoZeroOnSecondLevel(steps)
    ensures var log := AllAccepted(steps)[1 := Item(5, true)];
            LogPath(log) && LeafReads(steps, log) && !LeafSelects(steps, log)
  {
    var log := AllAccepted(steps)[1 := Item(5, true)];
    assert !StepSelects(steps[1], log[1]);
  }

  /** The smallest such leaf. */
  lemma {:induction false} NumberZeroMatchesAnything(tag: bv32)
    ensures var steps := [Number(1), Number(0)];
            var log := [Item(1, false), Item(5, false)];
            LogPath(log) && !LeafSelects(steps, log) && Matches(LogField(tag, log), MatcherOf(tag, steps))
  {
    var steps := [Number(1), Number(0)];
    var log := [Item(1, false), Item(5, false)];
    assert Poses(steps) == [1, 0] && Masks(steps) == [0x7f, 0x7f] && ItemBytes(log) == [1, 5];
    assert !StepSelects(steps[1], log[1]);
  }

  // ---------- the tree ----------

  /** Field numbers of one byte, not 0 on the second level, and ALL only on a node of the first. */
  ghost predicate TreeOk(m: Tree, depth: nat)
    decreases m
  {
    && m.field < 0x100 && (m.field == 0 ==> depth != 1)
    && (m.position == Some(All) ==> depth == 0)
    && forall c :: c in m.child ==> TreeOk(c, depth + if m.position.Some? then 2 else 1)
  }

  ghost predicate PrefixSelects(steps: seq<Step>, log: seq<Item>) {
    |steps| <= |log| && forall i :: 0 <= i < |steps| ==> StepSelects(steps[i], log[i])
  }

  ghost predicate AnyLeafSelects(leaves: seq<seq<Step>>, log: seq<Item>) {
    exists l :: l in leaves && LeafSelects(l, log)
  }

  ghost predicate AnyChildSelects(ms: seq<Tree>, log: seq<Item>, i: nat) {
    exists c :: c in ms && TreeSelects(c, log, i)
  }

  /** The leaves of a tree select what the tree selects. */
  lemma {:induction false} LeavesMeaning(m: Tree, steps: seq<Step>, log: seq<Item>)
    requires LogPath(log)
    ensures AnyLeafSelects(Leaves(m, steps), log) <==> PrefixSelects(steps, log) && TreeSelects(m, log, |steps|)
    decreases m, 1
  {
    hide StepSelects, PrefixSelects, LeafSelects;
    if |steps| <= MAX_LOG_DEPTH && !(m.position.Some? && |steps| + 1 > MAX_LOG_DEPTH) {
      var here := steps + [Number(m.field)];
      var all := if m.position.Some? then here + [Select(m.position.value)] else here;
      NodeSelects(m, steps, log);
      if m.child == [] {
        assert Leaves(m, steps) == [all];
        LeafIsPrefix(all, log);
      } else {
        LeavesOfAllMeaning(m, m.child, all, log);
        assert Leaves(m, steps) == LeavesOfAll(m, m.child, all);
      }
    } else {
      TooDeep(m, steps, log);
    }
  }

  lemma TooDeep(m: Tree, steps: seq<Step>, log: seq<Item>)
    requires LogPath(log) && (|steps| > MAX_LOG_DEPTH || (m.position.Some? && |steps| + 1 > MAX_LOG_DEPTH))
    ensures !TreeSelects(m, log, |steps|) && Leaves(m, steps) == []
  {
  }

  lemma LeafIsPrefix(steps: seq<Step>, log: seq<Item>)
    ensures LeafSelects(steps, log) <==> PrefixSelects(steps, log) && |steps| == |log|
  {
  }

  /** The node's own levels, appended to the path that leads to it. */
  lemma {:induction false} NodeSelects(m: Tree, steps: seq<Step>, log: seq<Item>)
    ensures var here := steps + [Number(m.field)];
            var all := if m.position.Some? then here + [Select(m.position.value)] else here;
            PrefixSelects(all, log) <==>
            PrefixSelects(steps, log) && |steps| < |log| && log[|steps|].pos == m.field
            && (m.position.Some? ==> |steps| + 1 < |log| && StepSelects(Select(m.position.value), log[|steps| + 1]))
  {
    hide StepSelects;
    NumberSelects(m.field, log);
    var here := steps + [Number(m.field)];
    PrefixPush(steps, Number(m.field), log);
    if m.position.Some? { PrefixPush(here, Select(m.position.value), log); }
  }

  lemma {:induction false} PrefixPush(steps: seq<Step>, s: Step, log: seq<Item>)
    ensures PrefixSelects(steps + [s], log) <==>
            PrefixSelects(steps, log) && |steps| < |log| && StepSelects(s, log[|steps|])
  {
    hide StepSelects;
    var more := steps + [s];
    if PrefixSelects(more, log) {
      assert more[|steps|] == s;
      assert forall i :: 0 <= i < |steps| ==> steps[i] == more[i];
    }
  }

  lemma NumberSelects(f: bv32, log: seq<Item>)
    ensures forall i :: 0 <= i < |log| ==> (StepSelects(Number(f), log[i]) <==> log[i].pos == f)
  {
  }

  lemma {:induction false} LeavesOfAllMeaning(parent: Tree, ms: seq<Tree>, steps: seq<Step>, log: seq<Item>)
    requires LogPath(log) && forall i :: 0 <= i < |ms| ==> ms[i] in parent.child
    ensures AnyLeafSelects(LeavesOfAll(parent, ms, steps), log) <==>
            PrefixSelects(steps, log) && AnyChildSelects(ms, log, |steps|)
    decreases parent, 0, |ms|
  {
    hide StepSelects, PrefixSelects, LeafSelects, TreeSelects, Leaves;
    if ms != [] {
      var init, m := ms[..|ms| - 1], ms[|ms| - 1];
      assert m in parent.child;
      LeavesOfAllMeaning(parent, init, steps, log);
      LeavesMeaning(m, steps, log);
      assert AnyLeafSelects(LeavesOfAll(parent, ms, steps), log) <==>
             AnyLeafSelects(LeavesOfAll(parent, init, steps), log) || AnyLeafSelects(Leaves(m, steps), log);
      assert AnyChildSelects(ms, log, |steps|) <==> AnyChildSelects(init, log, |steps|) || TreeSelects(m, log, |steps|);
    }
  }

  /** The leaves of such a tree use ALL on the second level only, and number 0 not there. */
  lemma {:induction false} LeavesOk(m: Tree, steps: seq<Step>, l: seq<Step>)
    requires TreeOk(m, |steps|) && l in Leaves(m, steps)
    requires (steps == [] || NumbersFit(steps)) && AllOnSecondLevel(steps) && NoZeroOnSecondLevel(steps)
    ensures NumbersFit(l) && AllOnSecondLevel(l) && NoZeroOnSecondLevel(l)
    decreases m, 1
  {
    var here := steps + [Number(m.field)];
    var all := if m.position.Some? then here + [Select(m.position.value)] else here;
    assert NumbersFit(all) && AllOnSecondLevel(all) && NoZeroOnSecondLevel(all);
    if m.child == [] {
      assert Leaves(m, steps) == [all];
    } else {
      forall i | 0 <= i < |m.child| ensures TreeOk(m.child[i], |all|) {
        assert m.child[i] in m.child;
      }
      LeavesOfAllOk(m, m.child, all, l);
    }
  }

  lemma {:induction false} LeavesOfAllOk(parent: Tree, ms: seq<Tree>, steps: seq<Step>, l: seq<Step>)
    requires forall i :: 0 <= i < |ms| ==> ms[i] in parent.child && TreeOk(ms[i], |steps|)
    requires l in LeavesOfAll(parent, ms, steps)
    requires (steps == [] || NumbersFit(steps)) && AllOnSecondLevel(steps) && NoZeroOnSecondLevel(steps)
    ensures NumbersFit(l) && AllOnSecondLevel(l) && NoZeroOnSecondLevel(l)
    decreases parent, 0, |ms|
  {
    hide NumbersFit, AllOnSecondLevel, NoZeroOnSecondLevel, TreeOk, Leaves;
    var m := ms[|ms| - 1];
    assert m in parent.child;
    if l in Leaves(m, steps) {
      LeavesOk(m, steps, l);
    } else {
      LeavesOfAllOk(parent, ms[..|ms| - 1], steps, l);
    }
  }

  /** Compilation preserves meaning: a log field matches some emitted matcher exactly if
      the tree selects its path. */
  lemma {:induction false} CompilationPreservesMeaning(m: Tree, log: seq<Item>)
    requires LogPath(log) && forall c :: c in m.child ==> TreeOk(c, 0)
    ensures var output := Compiled(m.field, LeavesOfAll(m, m.child, []));
            (exists k :: 0 <= k < |output| && Matches(LogField(m.field, log), output[k]))
            <==> exists c :: c in m.child && TreeSelects(c, log, 0)
  {
    hide Matches, LogField, MatcherOf, TreeOk, TreeSelects, NumbersFit, AllOnSecondLevel, NoZeroOnSecondLevel;
    var leaves := LeavesOfAll(m, m.child, []);
    var output := Compiled(m.field, leaves);
    LeavesOfAllMeaning(m, m.child, [], log);
    NothingYet(log);
    forall k | 0 <= k < |leaves|
      ensures Matches(LogField(m.field, log), output[k]) <==> LeafSelects(leaves[k], log)
    {
      LeavesOfAllOk(m, m.child, [], leaves[k]);
      LeafExact(m.field, leaves[k]);
    }
    if AnyLeafSelects(leaves, log) {
      var l :| l in leaves && LeafSelects(l, log);
      var k :| 0 <= k < |leaves| && leaves[k] == l;
      assert Matches(LogField(m.field, log), output[k]);
    }
    if k :| 0 <= k < |output| && Matches(LogField(m.field, log), output[k]) {
      assert leaves[k] in leaves;
    }
  }

  lemma NothingYet(log: seq<Item>)
    ensures PrefixSelects([], log) && AllOnSecondLevel([]) && NoZeroOnSecondLevel([])
  {
  }
}
