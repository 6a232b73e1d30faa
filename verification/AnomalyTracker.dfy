/** The anomaly tracker (statsd/src/anomaly/AnomalyTracker.cpp): a ring of the last N
    buckets with a cached sum per dimension key, shown to refine an unbounded history of
    what was last written to each bucket. Values are exact reals. */
module AnomalyTrackerModel {
  import Arith
  import opened Options

  /** A metric dimension key; only its identity matters. */
  datatype Key = MetricDimensionKey(dimensionKeyInWhat: string, stateValuesKey: string)
  type Bucket = map<Key, real>
  type History = map<int, Bucket>

  // ---------- the reference: a history and the sum of a window of it ----------

  ghost function Get(m: Bucket, key: Key): real { if key in m then m[key] else 0.0 }

  ghost function Value(h: History, b: int, key: Key): real {
    if b in h then Get(h[b], key) else 0.0
  }

  /** The sum of the values of `key` in the `n` buckets from `lo` on. */
  ghost function WindowSum(h: History, key: Key, lo: int, n: nat): real {
    if n == 0 then 0.0 else WindowSum(h, key, lo, n - 1) + Value(h, lo + n - 1, key)
  }

  /** The sum over the `n` buckets up to `m`. */
  ghost function Window(h: History, key: Key, m: int, n: nat): real { WindowSum(h, key, m - n + 1, n) }

  /** The cached sums are those of the `n` buckets up to `m`. */
  ghost predicate SumsHold(n: nat, sums: Bucket, h: History, m: int) {
    forall k :: Get(sums, k) == Window(h, k, m, n)
  }

  ghost predicate NonNegative(m: Bucket) { forall k :: k in m ==> m[k] >= 0.0 }

  ghost predicate NonNegativeHistory(h: History) { forall b :: b in h ==> NonNegative(h[b]) }

  lemma {:induction false} WindowSplit(h: History, key: Key, lo: int, n: nat)
    requires n > 0
    ensures WindowSum(h, key, lo, n) == Value(h, lo, key) + WindowSum(h, key, lo + 1, n - 1)
  {
    if n > 1 { WindowSplit(h, key, lo, n - 1); }
  }

  /** Moving the window on by one drops its first bucket and takes in the next. */
  lemma {:induction false} WindowSlides(h: History, key: Key, lo: int, n: nat)
    ensures WindowSum(h, key, lo + 1, n) == WindowSum(h, key, lo, n) - Value(h, lo, key) + Value(h, lo + n, key)
  {
    WindowSplit(h, key, lo, n + 1);
  }

  lemma {:induction false} WindowUntouched(h: History, h2: History, key: Key, lo: int, n: nat)
    requires forall b :: lo <= b < lo + n ==> Value(h2, b, key) == Value(h, b, key)
    ensures WindowSum(h2, key, lo, n) == WindowSum(h, key, lo, n)
  {
    if n > 0 { WindowUntouched(h, h2, key, lo, n - 1); }
  }

  lemma {:induction false} WindowWritten(h: History, h2: History, key: Key, lo: int, n: nat, at: int)
    requires lo <= at < lo + n
    requires forall b :: b != at ==> Value(h2, b, key) == Value(h, b, key)
    ensures WindowSum(h2, key, lo, n) == WindowSum(h, key, lo, n) - Value(h, at, key) + Value(h2, at, key)
  {
    if at == lo + n - 1 {
      WindowUntouched(h, h2, key, lo, n - 1);
    } else {
      WindowWritten(h, h2, key, lo, n - 1, at);
    }
  }

  lemma {:induction false} WindowEmpty(h: History, key: Key, lo: int, n: nat)
    requires forall b :: b in h ==> b < lo
    ensures WindowSum(h, key, lo, n) == 0.0
  {
    if n > 0 { WindowEmpty(h, key, lo, n - 1); }
  }

  lemma {:induction false} ValueInWindow(h: History, key: Key, lo: int, n: nat, at: int)
    requires NonNegativeHistory(h) && lo <= at < lo + n
    ensures 0.0 <= Value(h, at, key) <= WindowSum(h, key, lo, n)
  {
    WindowNonNegative(h, key, lo, n - 1);
    if at < lo + n - 1 { ValueInWindow(h, key, lo, n - 1, at); }
  }

  lemma {:induction false} WindowNonNegative(h: History, key: Key, lo: int, n: nat)
    requires NonNegativeHistory(h)
    ensures WindowSum(h, key, lo, n) >= 0.0
  {
    if n > 0 { WindowNonNegative(h, key, lo, n - 1); }
  }

  // ---------- the ring ----------

  /** The slot of a bucket. (The code reaches it only for buckets from 0 on.) */
  function Index(b: int, n: nat): (i: nat)
    requires n > 0
    ensures i < n
  {
    b % n
  }

  /** Two buckets of one window never share a slot. */
  lemma {:induction false} IndexInjective(b: int, c: int, n: nat)
    requires n > 0 && b - c < n && c - b < n && Index(b, n) == Index(c, n)
    ensures b == c
  {
    var q, p := b / n, c / n;
    assert b == q * n + b % n && c == p * n + c % n;
    assert (p + 1) * n == p * n + n && (q + 1) * n == q * n + n;
    if q > p { Arith.MulMonotone(p + 1, q, n); }
    if q < p { Arith.MulMonotone(q + 1, p, n); }
  }

  lemma {:induction false} IndexPeriodic(b: int, n: nat)
    requires n > 0
    ensures Index(b + n, n) == Index(b, n)
  {
    assert (b / n + 1) * n == b / n * n + n;
    Arith.ModUnique(b + n, n, b / n + 1, b % n);
  }

  ghost function Lookup(h: History, b: int): Option<Bucket> {
    if b in h then Some(h[b]) else None
  }

  /** The ring holds the history of the N buckets up to `m`. */
  ghost predicate RingHolds(ring: seq<Option<Bucket>>, h: History, m: int) {
    forall b :: m - |ring| < b <= m ==> ring[Index(b, |ring|)] == Lookup(h, b)
  }

  /** The ring is that of the history. */
  ghost predicate Represents(n: nat, ring: seq<Option<Bucket>>, h: History, m: int) {
    |ring| == n && (n > 0 ==> forall b :: b in h ==> b <= m) && RingHolds(ring, h, m)
  }

  /** The slot that bucket m + 1 will take holds the bucket that falls out of the window. */
  lemma {:induction false} NextSlot(n: nat, ring: seq<Option<Bucket>>, h: History, m: int)
    requires n > 0 && |ring| == n && RingHolds(ring, h, m)
    ensures ring[Index(m + 1, n)] == Lookup(h, m + 1 - n)
  {
    IndexPeriodic(m + 1 - n, n);
  }

  /** Emptying the next slot moves the window by one. */
  lemma {:induction false} Slide(n: nat, ring: seq<Option<Bucket>>, h: History, m: int)
    requires Represents(n, ring, h, m) && n > 0
    ensures Represents(n, ring[Index(m + 1, n) := None], h, m + 1)
  {
    var ring2 := ring[Index(m + 1, n) := None];
    forall b | m + 1 - n < b <= m + 1 ensures ring2[Index(b, n)] == Lookup(h, b) {
      if b <= m && Index(b, n) == Index(m + 1, n) { IndexInjective(b, m + 1, n); }
    }
  }

  /** Nothing of the window at `m` is left in the window at `b`. */
  lemma {:induction false} Forget(n: nat, ring: seq<Option<Bucket>>, h: History, m: int, b: int)
    requires Represents(n, ring, h, m) && n > 0 && b >= m + n
    ensures Represents(n, seq(n, _ => None), h, b) && SumsHold(n, map[], h, b)
  {
    forall k ensures Get(map[], k) == Window(h, k, b, n) { WindowEmpty(h, k, b - n + 1, n); }
  }

  /** Replacing a bucket of the window. */
  lemma {:induction false} Write(n: nat, ring: seq<Option<Bucket>>, h: History, m: int, b: int, bucket: Bucket)
    requires Represents(n, ring, h, m) && m - n < b <= m
    ensures Represents(n, ring[Index(b, n) := Some(bucket)], h[b := bucket], m)
  {
    var ring2, h2 := ring[Index(b, n) := Some(bucket)], h[b := bucket];
    forall c | m - n < c <= m ensures ring2[Index(c, n)] == Lookup(h2, c) {
      if c != b && Index(c, n) == Index(b, n) { IndexInjective(c, b, n); }
    }
  }

  /** A write to a bucket before the window, or with no past buckets at all, changes nothing kept. */
  lemma {:induction false} WriteIgnored(n: nat, ring: seq<Option<Bucket>>, sums: Bucket, h: History, m: int, b: int,
                                        bucket: Bucket)
    requires Represents(n, ring, h, m) && (n == 0 || b <= m - n)
    ensures Represents(n, ring, h[b := bucket], m)
    ensures SumsHold(n, sums, h[b := bucket], m) <==> SumsHold(n, sums, h, m)
  {
    forall k ensures Window(h[b := bucket], k, m, n) == Window(h, k, m, n) {
      WindowUntouched(h, h[b := bucket], k, m - n + 1, n);
    }
  }

  lemma {:induction false} NoneLater(n: nat, ring: seq<Option<Bucket>>, h: History, m: int)
    requires Represents(n, ring, h, m) && n > 0
    ensures forall b :: b in h ==> b <= m
  {
  }

  /** The slot of a bucket of the window holds what was written to it. */
  lemma {:induction false} SlotIs(n: nat, ring: seq<Option<Bucket>>, h: History, m: int, b: int)
    requires Represents(n, ring, h, m) && n > 0
    ensures |ring| == n
    ensures m - n < b <= m ==> ring[Index(b, n)] == Lookup(h, b)
    ensures b > m ==> b !in h
  {
  }

  // ---------- one value taken off the sums ----------

  function Subtracted(sums: Bucket, key: Key, value: real): Bucket {
    if key !in sums then sums
    else if sums[key] - value == 0.0 then sums - {key}
    else sums[key := sums[key] - value]
  }

  /** Taking a value off is exact if and only if the key is there or the value is zero:
      a key whose sum reached zero is erased, and nothing is taken off a missing key. */
  lemma {:induction false} SubtractedExact(sums: Bucket, key: Key, value: real)
    ensures Get(Subtracted(sums, key, value), key) == Get(sums, key) - value <==> key in sums || value == 0.0
    ensures forall k :: k != key ==> Get(Subtracted(sums, key, value), k) == Get(sums, k)
  {
  }

  ghost function Entry(m: Bucket, key: Key): Option<real> { if key in m then Some(m[key]) else None }

  /** The sums with every value of a bucket taken off, key by key. */
  ghost predicate SubtractedAll(sums: Bucket, bucket: Bucket, after: Bucket) {
    forall k :: Entry(after, k) == if k in bucket then Entry(Subtracted(sums, k, bucket[k]), k) else Entry(sums, k)
  }

  function Advanced(n: nat, m: int, b: int): int { if n > 0 && b > m then b else m }

  ghost function BucketOf(h: History, b: int): Bucket { if b in h then h[b] else map[] }

  /** Taking off a value touches its key only, and depends on it only. */
  lemma {:induction false} SubtractedAlone(was: Bucket, sums: Bucket, key: Key, value: real)
    requires Entry(sums, key) == Entry(was, key)
    ensures Entry(Subtracted(sums, key, value), key) == Entry(Subtracted(was, key, value), key)
    ensures forall k :: k != key ==> Entry(Subtracted(sums, key, value), k) == Entry(sums, k)
  {
  }

  // ---------- when the sums stay right: writing ----------

  /** Every value of a bucket can be taken off: it has a cached sum, or it is 0. */
  ghost predicate Covered(sums: Bucket, bucket: Bucket) {
    forall k :: k in bucket ==> k in sums || bucket[k] == 0.0
  }

  lemma {:induction false} SubtractedAllExact(sums: Bucket, bucket: Bucket, after: Bucket)
    requires SubtractedAll(sums, bucket, after)
    ensures (forall k :: Get(after, k) == Get(sums, k) - Get(bucket, k)) <==> Covered(sums, bucket)
  {
    forall k ensures Get(after, k) == Get(sums, k) - Get(bucket, k) <==>
                     (k in bucket ==> k in sums || bucket[k] == 0.0)
    {
      assert Entry(after, k) == if k in bucket then Entry(Subtracted(sums, k, bucket[k]), k) else Entry(sums, k);
      if k in bucket { SubtractedExact(sums, k, bucket[k]); }
    }
  }

  /** Replacing a bucket keeps the sums right if and only if the old one is covered. */
  lemma {:induction false} WriteExactIff(n: nat, sums: Bucket, mid: Bucket, after: Bucket, h: History, m: int, b: int,
                                         bucket: Bucket)
    requires SumsHold(n, sums, h, m) && m - n < b <= m
    requires SubtractedAll(sums, BucketOf(h, b), mid) && forall k :: Get(after, k) == Get(mid, k) + Get(bucket, k)
    ensures SumsHold(n, after, h[b := bucket], m) <==> Covered(sums, BucketOf(h, b))
  {
    hide WindowSum, SubtractedAll, Covered;
    SubtractedAllExact(sums, BucketOf(h, b), mid);
    forall k ensures Get(after, k) == Window(h[b := bucket], k, m, n) <==>
                     Get(mid, k) == Get(sums, k) - Get(BucketOf(h, b), k)
    {
      WindowWritten(h, h[b := bucket], k, m - n + 1, n, b);
    }
  }

  /** Writing a bucket that was not there keeps right sums right and wrong ones wrong. */
  lemma {:induction false} WriteFreshIff(n: nat, sums: Bucket, after: Bucket, h: History, m: int, b: int,
                                         bucket: Bucket)
    requires m - n < b <= m && b !in h && forall k :: Get(after, k) == Get(sums, k) + Get(bucket, k)
    ensures SumsHold(n, after, h[b := bucket], m) <==> SumsHold(n, sums, h, m)
  {
    hide WindowSum;
    forall k ensures Get(after, k) == Window(h[b := bucket], k, m, n) <==> Get(sums, k) == Window(h, k, m, n) {
      WindowWritten(h, h[b := bucket], k, m - n + 1, n, b);
    }
  }

  /** Replacing one entry keeps them right if and only if the old value can be taken off. */
  lemma {:induction false} EntryExactIff(n: nat, sums: Bucket, h: History, m: int, b: int, key: Key, value: real)
    requires SumsHold(n, sums, h, m) && m - n < b <= m && b in h
    ensures var mid := if key in h[b] then Subtracted(sums, key, h[b][key]) else sums;
            SumsHold(n, mid[key := Get(mid, key) + value], h[b := h[b][key := value]], m) <==>
            (key in h[b] ==> key in sums || h[b][key] == 0.0)
  {
    hide WindowSum;
    var mid := if key in h[b] then Subtracted(sums, key, h[b][key]) else sums;
    var after, h2 := mid[key := Get(mid, key) + value], h[b := h[b][key := value]];
    if key in h[b] { SubtractedExact(sums, key, h[b][key]); }
    forall k ensures Get(after, k) == Window(h2, k, m, n) <==>
                     (k == key && key in h[b] ==> key in sums || h[b][key] == 0.0)
    {
      WindowWritten(h, h2, k, m - n + 1, n, b);
      assert Get(sums, k) == Window(h, k, m, n);
      assert Value(h2, b, k) == Get(h[b][key := value], k) && Value(h, b, k) == Get(h[b], k);
      if k != key { assert Get(after, k) == Get(mid, k) == Get(sums, k); }
    }
    assert Get(after, key) == Window(h2, key, m, n) <==> (key in h[b] ==> key in sums || h[b][key] == 0.0);
  }

  // ---------- when the sums stay right: sliding ----------

  /** As the window comes to end at `b`, the bucket that falls out has the key and brings its sum
      to 0, so that the key is erased. */
  ghost predicate UsedUp(n: nat, h: History, k: Key, b: int) {
    k in BucketOf(h, b - n) && Window(h, k, b, n) == 0.0
  }

  /** There is no cached sum of the key after sliding from `m` to `till`. */
  ghost predicate Spent(n: nat, sums: Bucket, h: History, m: int, till: int, k: Key) {
    k !in sums || exists b :: m < b <= till && UsedUp(n, h, k, b)
  }

  /** Every key that is spent on the way has a sum of 0 at the end. */
  ghost predicate Safe(n: nat, sums: Bucket, h: History, m: int, till: int) {
    forall k :: Spent(n, sums, h, m, till, k) ==> Window(h, k, till, n) == 0.0
  }

  /** What sliding from `m` to `till` makes of sums that were right: spent keys are gone, and all
      others still right. */
  ghost predicate Tracks(n: nat, was: Bucket, sums: Bucket, h: History, m: int, till: int) {
    forall k :: Entry(sums, k) == if Spent(n, was, h, m, till, k) then None else Some(Window(h, k, till, n))
  }

  lemma {:induction false} TracksStart(n: nat, sums: Bucket, h: History, m: int)
    requires SumsHold(n, sums, h, m)
    ensures Tracks(n, sums, sums, h, m, m)
  {
    hide WindowSum;
    forall k ensures Entry(sums, k) == if Spent(n, sums, h, m, m, k) then None else Some(Window(h, k, m, n)) {
      assert Get(sums, k) == Window(h, k, m, n);
    }
  }

  lemma {:induction false} SpentStep(n: nat, sums: Bucket, h: History, m: int, till: int, k: Key)
    requires m <= till
    ensures Spent(n, sums, h, m, till + 1, k) <==> Spent(n, sums, h, m, till, k) || UsedUp(n, h, k, till + 1)
  {
    hide UsedUp;
  }

  lemma {:induction false} TracksStep(n: nat, was: Bucket, sums: Bucket, after: Bucket, h: History, m: int, till: int)
    requires n > 0 && m <= till && till + 1 !in h && Tracks(n, was, sums, h, m, till)
    requires SubtractedAll(sums, BucketOf(h, till + 1 - n), after)
    ensures Tracks(n, was, after, h, m, till + 1)
  {
    hide WindowSum;
    var bucket := BucketOf(h, till + 1 - n);
    forall k
      ensures Entry(after, k) == if Spent(n, was, h, m, till + 1, k) then None else Some(Window(h, k, till + 1, n))
    {
      hide Spent;
      SpentStep(n, was, h, m, till, k);
      WindowSlides(h, k, till - n + 1, n);
      assert Entry(sums, k) == if Spent(n, was, h, m, till, k) then None else Some(Window(h, k, till, n));
      assert Entry(after, k) == if k in bucket then Entry(Subtracted(sums, k, bucket[k]), k) else Entry(sums, k);
    }
  }

  /** So sums that were right are right after the slide if and only if it was safe. */
  lemma {:induction false} SlideExactIff(n: nat, was: Bucket, sums: Bucket, h: History, m: int, till: int)
    requires Tracks(n, was, sums, h, m, till)
    ensures SumsHold(n, sums, h, till) <==> Safe(n, was, h, m, till)
  {
    hide WindowSum, Spent;
    forall k ensures Get(sums, k) == Window(h, k, till, n) <==>
                     (Spent(n, was, h, m, till, k) ==> Window(h, k, till, n) == 0.0)
    {
      assert Entry(sums, k) == if Spent(n, was, h, m, till, k) then None else Some(Window(h, k, till, n));
    }
  }

  // ---------- without negative values they always do ----------

  /** The window only loses values as it moves on past the last bucket written. */
  lemma {:induction false} WindowShrinks(n: nat, h: History, k: Key, m: int, till: int)
    requires NonNegativeHistory(h) && m <= till && forall b :: b in h ==> b <= m
    ensures 0.0 <= Window(h, k, till, n) <= Window(h, k, m, n)
    decreases till - m
  {
    WindowNonNegative(h, k, till - n + 1, n);
    if m < till {
      WindowSlides(h, k, m - n + 1, n);
      WindowShrinks(n, h, k, m + 1, till);
    }
  }

  lemma {:induction false} NonNegativeSafe(n: nat, sums: Bucket, h: History, m: int, till: int)
    requires SumsHold(n, sums, h, m) && NonNegativeHistory(h) && m <= till && forall b :: b in h ==> b <= m
    ensures Safe(n, sums, h, m, till)
  {
    forall k | Spent(n, sums, h, m, till, k) ensures Window(h, k, till, n) == 0.0 {
      if k !in sums {
        assert Get(sums, k) == Window(h, k, m, n);
        WindowShrinks(n, h, k, m, till);
      } else {
        var b :| m < b <= till && UsedUp(n, h, k, b);
        WindowShrinks(n, h, k, b, till);
      }
    }
  }

  lemma {:induction false} NonNegativeCovered(n: nat, sums: Bucket, h: History, m: int, b: int)
    requires SumsHold(n, sums, h, m) && NonNegativeHistory(h) && m - n < b <= m
    ensures Covered(sums, BucketOf(h, b))
  {
    forall k | k in BucketOf(h, b) ensures k in sums || BucketOf(h, b)[k] == 0.0 {
      ValueInWindow(h, k, m - n + 1, n, b);
      assert Get(sums, k) == Window(h, k, m, n);
    }
  }

  /** Beyond the window every slide is safe. */
  lemma {:induction false} FarIsSafe(n: nat, sums: Bucket, h: History, m: int, till: int)
    requires till >= m + n && forall b :: b in h ==> b <= m
    ensures Safe(n, sums, h, m, till)
  {
    forall k ensures Window(h, k, till, n) == 0.0 { WindowEmpty(h, k, till - n + 1, n); }
  }

  // ---------- with negative values they need not ----------

  lemma {:induction false} WindowOfThree(h: History, key: Key, m: int)
    ensures Window(h, key, m, 3) == Value(h, m - 2, key) + Value(h, m - 1, key) + Value(h, m, key)
  {
    assert WindowSum(h, key, m - 2, 0) == 0.0;
    assert WindowSum(h, key, m - 2, 1) == WindowSum(h, key, m - 2, 0) + Value(h, m - 2, key);
    assert WindowSum(h, key, m - 2, 2) == WindowSum(h, key, m - 2, 1) + Value(h, m - 1, key);
  }

  /** Three buckets hold 1, 2 and -2, and the cached sum 1 is right. Once the first two have fallen
      out of the window it is 0, and the window holds -2. */
  lemma {:induction false} NegativeValuesLoseTrack(key: Key, h: History)
    requires h == map[0 := map[key := 1.0], 1 := map[key := 2.0], 2 := map[key := -2.0]]
    ensures SumsHold(3, map[key := 1.0], h, 2) && !Safe(3, map[key := 1.0], h, 2, 4)
    ensures Subtracted(Subtracted(map[key := 1.0], key, 1.0), key, 2.0) == map[] && Window(h, key, 4, 3) == -2.0
  {
    forall k ensures Get(map[key := 1.0], k) == Window(h, k, 2, 3) { WindowOfThree(h, k, 2); }
    WindowOfThree(h, key, 3);
    WindowOfThree(h, key, 4);
    assert UsedUp(3, h, key, 3);
    assert Spent(3, map[key := 1.0], h, 2, 4, key);
    assert Subtracted(map[key := 1.0], key, 1.0) == map[];
  }

  /** Without any slide: emptying the first bucket brings the cached sum to 0, which is right; then
      the second is not covered, and emptying it leaves 0 while the window holds -2. */
  lemma {:induction false} OverwritingLosesTrack(key: Key, h: History)
    requires h == map[0 := map[], 1 := map[key := 2.0], 2 := map[key := -2.0]]
    ensures SumsHold(3, map[], h, 2) && !Covered(map[], h[1])
    ensures Subtracted(map[], key, 2.0) == map[] && Window(h[1 := map[]], key, 2, 3) == -2.0
  {
    forall k ensures Get(map[], k) == Window(h, k, 2, 3) { WindowOfThree(h, k, 2); }
    WindowOfThree(h[1 := map[]], key, 2);
    assert key in h[1];
  }

  class AnomalyTracker {
    const n: nat
    const threshold: Option<real>
    var ring: seq<Option<Bucket>>
    var sums: Bucket
    var mostRecent: int
    ghost var history: History

    ghost predicate Valid()
      reads this
    {
      && mostRecent >= -1 && (forall b :: b in history ==> b >= 0)
      && Represents(n, ring, history, mostRecent)
    }

    /** The cached sums are those of the last N buckets. */
    ghost predicate SumsRight()
      reads this
    {
      SumsHold(n, sums, history, mostRecent)
    }

    /** The alert has a threshold and `total` is over it. */
    predicate Exceeds(total: real) { threshold.Some? && total > threshold.value }

    constructor (numBuckets: nat, triggerIfSumGt: Option<real>)
      requires numBuckets >= 1
      ensures Valid() && n == numBuckets - 1 && threshold == triggerIfSumGt
      ensures history == map[] && mostRecent == -1 && SumsRight()
    {
      n, threshold := numBuckets - 1, triggerIfSumGt;
      ring, sums, mostRecent := seq(numBuckets - 1, _ => None), map[], -1;
      history := map[];
      new;
      forall k ensures Get(sums, k) == Window(history, k, mostRecent, n) {
        WindowEmpty(history, k, mostRecent - n + 1, n);
      }
    }

    method ResetStorage()
      modifies this`ring, this`sums
      ensures ring == seq(n, _ => None) && sums == map[]
    {
      ring := seq(n, _ => None);
      sums := map[];
    }

    /** Takes every value of a bucket off the sums. */
    method SubtractBucketFromSum(bucket: Option<Bucket>)
      modifies this`sums
      ensures SubtractedAll(old(sums), if bucket.Some? then bucket.value else map[], sums)
    {
      if bucket.None? { return; }
      var todo := bucket.value.Keys;
      ghost var was := sums;
      while todo != {}
        invariant todo <= bucket.value.Keys
        invariant forall k :: k in todo ==> Entry(sums, k) == Entry(was, k)
        invariant forall k :: k !in todo ==>
                    Entry(sums, k) ==
                    if k in bucket.value then Entry(Subtracted(was, k, bucket.value[k]), k) else Entry(was, k)
        decreases |todo|
      {
        var key :| key in todo;
        SubtractedAlone(was, sums, key, bucket.value[key]);
        sums := Subtracted(sums, key, bucket.value[key]);
        todo := todo - {key};
      }
    }

    method AddBucketToSum(bucket: Bucket)
      modifies this`sums
      ensures forall k :: Get(sums, k) == old(Get(sums, k)) + Get(bucket, k)
    {
      var todo := bucket.Keys;
      ghost var was := sums;
      while todo != {}
        invariant todo <= bucket.Keys
        invariant forall k :: k in todo ==> Get(sums, k) == Get(was, k)
        invariant forall k :: k !in todo ==> Get(sums, k) == Get(was, k) + Get(bucket, k)
        decreases |todo|
      {
        var key :| key in todo;
        sums := sums[key := (if key in sums then sums[key] else 0.0) + bucket[key]];
        todo := todo - {key};
      }
    }

    /** Moves the window on; sums that were right stay so if and only if the slide is safe. */
    method AdvanceMostRecentBucketTo(bucketNum: int)
      requires Valid()
      modifies this`ring, this`sums, this`mostRecent
      ensures Valid() && mostRecent == Advanced(n, old(mostRecent), bucketNum)
      ensures old(SumsRight()) ==> (SumsRight() <==> Safe(n, old(sums), history, old(mostRecent), mostRecent))
      ensures n > 0 && bucketNum >= old(mostRecent) + n ==> SumsRight()
      ensures old(SumsRight()) && NonNegativeHistory(history) ==> SumsRight()
    {
      hide Represents, WindowSum, Get, Index, Tracks, Safe, SumsHold, SubtractedAll, NonNegativeHistory;
      if n <= 0 || bucketNum <= mostRecent {
        if SumsRight() {
          TracksStart(n, sums, history, mostRecent);
          SlideExactIff(n, sums, sums, history, mostRecent, mostRecent);
        }
        return;
      }
      NoneLater(n, ring, history, mostRecent);
      if SumsRight() && NonNegativeHistory(history) { NonNegativeSafe(n, sums, history, mostRecent, bucketNum); }
      if bucketNum >= mostRecent + n {
        Forget(n, ring, history, mostRecent, bucketNum);
        FarIsSafe(n, sums, history, mostRecent, bucketNum);
        ResetStorage();
        mostRecent := bucketNum;
        return;
      }
      if SumsRight() { TracksStart(n, sums, history, mostRecent); }
      var i := mostRecent + 1;
      while i <= bucketNum
        invariant mostRecent < i <= bucketNum + 1 && mostRecent == old(mostRecent)
        invariant Represents(n, ring, history, i - 1)
        invariant old(SumsRight()) ==> Tracks(n, old(sums), sums, history, old(mostRecent), i - 1)
      {
        ghost var before := sums;
        ClearNext(i);
        if old(SumsRight()) { TracksStep(n, old(sums), before, sums, history, old(mostRecent), i - 1); }
        i := i + 1;
      }
      mostRecent := bucketNum;
      if old(SumsRight()) { SlideExactIff(n, old(sums), sums, history, old(mostRecent), bucketNum); }
    }

    /** One step of the clearing loop. */
    method ClearNext(i: int)
      requires n > 0 && Represents(n, ring, history, i - 1)
      modifies this`ring, this`sums
      ensures Represents(n, ring, history, i) && SubtractedAll(old(sums), BucketOf(history, i - n), sums)
    {
      hide SubtractedAll;
      var idx := Index(i, n);
      NextSlot(n, ring, history, i - 1);
      SubtractBucketFromSum(ring[idx]);
      Slide(n, ring, history, i - 1);
      ring := ring[idx := None];
    }

    /** Sums that were right before a write are right after it if and only if: nothing kept is
        written, or the bucket replaced is covered, or the slide to a new bucket is safe. */
    ghost predicate WriteIsExact(b: int, replaced: Bucket)
      reads this
    {
      if b <= mostRecent then b <= mostRecent - n || Covered(sums, replaced)
      else n == 0 || Safe(n, sums, history, mostRecent, b)
    }

    lemma {:induction false} NonNegativeWriteIsExact(b: int, replaced: Bucket)
      requires Valid() && SumsRight() && NonNegativeHistory(history) && replaced.Items <= BucketOf(history, b).Items
      ensures WriteIsExact(b, replaced)
    {
      if n > 0 && b > mostRecent {
        NonNegativeSafe(n, sums, history, mostRecent, b);
      } else if mostRecent - n < b <= mostRecent {
        NonNegativeCovered(n, sums, history, mostRecent, b);
        forall k | k in replaced ensures k in sums || replaced[k] == 0.0 {
          assert (k, replaced[k]) in BucketOf(history, b).Items;
        }
      }
    }

    /** Replaces a whole bucket; what the tracker keeps is the history with it written. */
    method AddPastBucket(bucket: Bucket, bucketNum: int)
      requires Valid()
      modifies this
      ensures Valid()
      ensures mostRecent == if bucketNum < 0 then old(mostRecent) else Advanced(n, old(mostRecent), bucketNum)
      ensures history == if bucketNum < 0 then old(history) else old(history)[bucketNum := bucket]
      ensures bucketNum < 0 ==> SumsRight() == old(SumsRight())
      ensures bucketNum >= 0 && old(SumsRight()) ==>
                (SumsRight() <==> old(WriteIsExact(bucketNum, BucketOf(history, bucketNum))))
      ensures n > 0 && bucketNum >= 0 && bucketNum >= old(mostRecent) + n ==> SumsRight()
      ensures old(SumsRight() && NonNegativeHistory(history)) ==> SumsRight()
    {
      hide Represents, WindowSum, Index, Safe, Covered, SubtractedAll, NonNegativeHistory, SumsHold;
      if SumsRight() && NonNegativeHistory(history) {
        NonNegativeWriteIsExact(bucketNum, BucketOf(history, bucketNum));
      }
      if n == 0 || bucketNum < 0 || bucketNum <= mostRecent - n {
        if bucketNum >= 0 {
          WriteIgnored(n, ring, sums, history, mostRecent, bucketNum, bucket);
          history := history[bucketNum := bucket];
        }
        return;
      }
      SlotIs(n, ring, history, mostRecent, bucketNum);
      ghost var right, was := SumsRight(), sums;
      ghost var mid;
      if bucketNum <= mostRecent {
        SubtractBucketFromSum(ring[Index(bucketNum, n)]);
        mid := sums;
      } else {
        AdvanceMostRecentBucketTo(bucketNum);
        mid := sums;
      }
      SlotIs(n, ring, history, mostRecent, bucketNum);
      Write(n, ring, history, mostRecent, bucketNum, bucket);
      ring := ring[Index(bucketNum, n) := Some(bucket)];
      AddBucketToSum(bucket);
      if bucketNum <= old(mostRecent) {
        if right { WriteExactIff(n, was, mid, sums, history, mostRecent, bucketNum, bucket); }
      } else {
        WriteFreshIff(n, mid, sums, history, mostRecent, bucketNum, bucket);
      }
      history := history[bucketNum := bucket];
    }

    /** The entry that a single value replaces. */
    ghost function EntryOf(key: Key, b: int): Bucket
      reads this
    {
      if key in BucketOf(history, b) then map[key := BucketOf(history, b)[key]] else map[]
    }

    /** Inserts or replaces one entry of a bucket. */
    method AddPastValue(key: Key, value: real, bucketNum: int)
      requires Valid()
      modifies this
      ensures Valid()
      ensures mostRecent == if bucketNum < 0 then old(mostRecent) else Advanced(n, old(mostRecent), bucketNum)
      ensures history ==
              if bucketNum < 0 then old(history)
              else old(history)[bucketNum := BucketOf(old(history), bucketNum)[key := value]]
      ensures bucketNum < 0 ==> SumsRight() == old(SumsRight())
      ensures bucketNum >= 0 && old(SumsRight()) ==>
                (SumsRight() <==> old(WriteIsExact(bucketNum, EntryOf(key, bucketNum))))
      ensures n > 0 && bucketNum >= 0 && bucketNum >= old(mostRecent) + n ==> SumsRight()
      ensures old(SumsRight() && NonNegativeHistory(history)) ==> SumsRight()
    {
      hide Represents, NonNegativeHistory, Index, WindowSum, SumsHold, Safe;
      if SumsRight() && NonNegativeHistory(history) {
        NonNegativeWriteIsExact(bucketNum, EntryOf(key, bucketNum));
      }
      if n == 0 || bucketNum < 0 || bucketNum <= mostRecent - n {
        if bucketNum >= 0 {
          WriteIgnored(n, ring, sums, history, mostRecent, bucketNum, BucketOf(history, bucketNum)[key := value]);
          history := history[bucketNum := BucketOf(history, bucketNum)[key := value]];
        }
        return;
      }
      var idx := Index(bucketNum, n);
      SlotIs(n, ring, history, mostRecent, bucketNum);
      if bucketNum <= mostRecent && ring[idx].Some? {
        UpdateEntry(key, value, bucketNum);
      } else {
        AddPastBucket(map[key := value], bucketNum);
      }
    }

    /** One entry of a bucket that is there. */
    method UpdateEntry(key: Key, value: real, bucketNum: int)
      requires Valid() && mostRecent - n < bucketNum <= mostRecent && bucketNum in history
      modifies this`ring, this`sums, this`history
      ensures Valid() && history == old(history)[bucketNum := old(history)[bucketNum][key := value]]
      ensures old(SumsRight()) ==>
                (SumsRight() <==> old(key in history[bucketNum] ==> key in sums || history[bucketNum][key] == 0.0))
    {
      hide Represents, Index, WindowSum, SumsHold;
      var idx := Index(bucketNum, n);
      SlotIs(n, ring, history, mostRecent, bucketNum);
      var bucket := ring[idx].value;
      if SumsRight() { EntryExactIff(n, sums, history, mostRecent, bucketNum, key, value); }
      if key in bucket {
        sums := Subtracted(sums, key, bucket[key]);
      }
      sums := sums[key := (if key in sums then sums[key] else 0.0) + value];
      Write(n, ring, history, mostRecent, bucketNum, bucket[key := value]);
      ring := ring[idx := Some(bucket[key := value])];
      history := history[bucketNum := bucket[key := value]];
    }

    /** The value last written to a bucket of the window, 0 outside it. */
    function GetPastBucketValue(key: Key, bucketNum: int): (v: real)
      requires Valid()
      reads this
      ensures v == if mostRecent - n < bucketNum <= mostRecent then Value(history, bucketNum, key) else 0.0
    {
      if bucketNum < 0 || mostRecent < 0 || bucketNum <= mostRecent - n || bucketNum > mostRecent then 0.0
      else
        var bucket := ring[Index(bucketNum, n)];
        if bucket.None? then 0.0 else if key in bucket.value then bucket.value[key] else 0.0
    }

    /** The sum of the last-written values of the N buckets up to the most recent. */
    function GetSumOverPastBuckets(key: Key): (s: real)
      requires Valid()
      reads this
      ensures SumsRight() ==> s == Window(history, key, mostRecent, n)
    {
      assert SumsRight() ==> Get(sums, key) == Window(history, key, mostRecent, n);
      if key in sums then sums[key] else 0.0
    }

    /** For a bucket past the most recent, decides exactly whether the N buckets before it and
        the current value together exceed the threshold. */
    method DetectAnomaly(currentBucketNum: int, key: Key, currentBucketValue: real) returns (anomaly: bool)
      requires Valid()
      modifies this`ring, this`sums, this`mostRecent
      ensures Valid() && mostRecent == Advanced(n, old(mostRecent), currentBucketNum - 1)
      ensures old(SumsRight()) ==> (SumsRight() <==> Safe(n, old(sums), history, old(mostRecent), mostRecent))
      ensures n > 0 && currentBucketNum > old(mostRecent) + n ==> SumsRight()
      ensures old(SumsRight()) && NonNegativeHistory(history) ==> SumsRight()
      ensures SumsRight() && (n == 0 || currentBucketNum > old(mostRecent)) ==>
                (anomaly <==>
                   (threshold.Some?
                    && Window(history, key, currentBucketNum - 1, n) + currentBucketValue > threshold.value))
      ensures SumsRight() ==>
                (anomaly <==>
                   (threshold.Some? && Window(history, key, mostRecent, n) + currentBucketValue > threshold.value))
    {
      hide Represents, WindowSum, Safe, SumsHold, NonNegativeHistory;
      if currentBucketNum > mostRecent + 1 {
        AdvanceMostRecentBucketTo(currentBucketNum - 1);
      } else if SumsRight() {
        TracksStart(n, sums, history, mostRecent);
        SlideExactIff(n, sums, sums, history, mostRecent, mostRecent);
      }
      if n == 0 { EmptyWindow(history, key, mostRecent + 1, currentBucketNum); }
      anomaly := Exceeds(GetSumOverPastBuckets(key) + currentBucketValue);
    }
  }

  lemma EmptyWindow(h: History, key: Key, lo: int, lo2: int)
    ensures WindowSum(h, key, lo, 0) == WindowSum(h, key, lo2, 0)
  {
  }
}
