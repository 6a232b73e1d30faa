/** Pull scheduling (statsd/src/external/StatsPullerManager.cpp): when receivers are
    due, and what an alarm does to their next pull times.

    A `Ref` stands for the address of a ReceiverInfo; `info` maps it to the record there.
    Registered receivers are alive. `isPullNeeded` and the puller lookup are parameters. */
module PullSchedule {
  import opened Arith

  type Ref = nat
  type Key = nat

  const NS_PER_SEC: int := 1_000_000_000
  const MIN_INTERVAL_NS: int := 60 * NS_PER_SEC
  const NO_ALARM_UPDATE: int := 0x7fff_ffff_ffff_ffff

  datatype ReceiverInfo = ReceiverInfo(nextPullTimeNs: int, intervalNs: int, receiver: nat)
  /** Receivers of one key: all of them in the registry, the ones to serve in a pull. */
  datatype Group = Group(key: Key, refs: seq<Ref>)

  datatype PullResult = Success | Fail | NotNeeded
  datatype Call = Call(ref: Ref, result: PullResult)

  type Table = map<Ref, ReceiverInfo>

  // ---------- one receiver ----------

  function NumBucketsAhead(r: ReceiverInfo, now: int): int
    requires r.intervalNs > 0
  {
    (now - r.nextPullTimeNs) / r.intervalNs
  }

  /** The next pull time after an alarm at `now` for a receiver that was due. */
  function Bump(r: ReceiverInfo, now: int): ReceiverInfo
    requires r.intervalNs > 0
  {
    r.(nextPullTimeNs := r.nextPullTimeNs + (NumBucketsAhead(r, now) + 1) * r.intervalNs)
  }

  predicate Due(r: ReceiverInfo, now: int) { r.nextPullTimeNs <= now }

  ghost predicate Int64(x: int) { -0x8000_0000_0000_0000 <= x <= 0x7fff_ffff_ffff_ffff }

  /** A due receiver moves into (now, now + interval], keeps its phase, its interval and its
      receiver, and the number of skipped buckets fits in a 32-bit int. */
  lemma {:induction false} BumpLands(r: ReceiverInfo, now: int)
    requires r.intervalNs >= MIN_INTERVAL_NS && Due(r, now)
    ensures now < Bump(r, now).nextPullTimeNs <= now + r.intervalNs
    ensures (Bump(r, now).nextPullTimeNs - r.nextPullTimeNs) % r.intervalNs == 0
    ensures Bump(r, now).intervalNs == r.intervalNs && Bump(r, now).receiver == r.receiver
    ensures NumBucketsAhead(r, now) >= 0
    ensures Int64(now) && Int64(r.nextPullTimeNs) ==> NumBucketsAhead(r, now) < 0x7fff_ffff
  {
    var d, i := now - r.nextPullTimeNs, r.intervalNs;
    var q, m := d / i, d % i;
    assert d == q * i + m && 0 <= m < i;
    assert (q + 1) * i == q * i + i;
    ModUnique((q + 1) * i, i, q + 1, 0);
    if q >= 0x7fff_ffff {
      assert q * i >= 0x7fff_ffff * MIN_INTERVAL_NS by { ProductGrows(0x7fff_ffff, q, MIN_INTERVAL_NS, i); }
    }
  }

  lemma {:induction false} ProductGrows(a: nat, b: nat, c: nat, d: nat)
    requires a <= b && c <= d
    ensures a * c <= b * d
  {
    assert a * c <= b * c <= b * d;
  }

  function TruncDiv(a: int, b: int): int
    requires b > 0
  {
    if a >= 0 then a / b else -((-a) / b)
  }

  /** Whole minutes, and at least one. */
  function RoundInterval(intervalNs: int): (r: int)
    ensures r >= MIN_INTERVAL_NS && r % MIN_INTERVAL_NS == 0
    ensures intervalNs >= MIN_INTERVAL_NS ==> intervalNs - MIN_INTERVAL_NS < r <= intervalNs
    ensures intervalNs < MIN_INTERVAL_NS ==> r == MIN_INTERVAL_NS
  {
    var rounded := TruncDiv(TruncDiv(intervalNs, NS_PER_SEC), 60) * NS_PER_SEC * 60;
    if rounded < MIN_INTERVAL_NS then MIN_INTERVAL_NS else rounded
  }

  // ---------- the whole table ----------

  ghost predicate WellTimed(info: Table) {
    forall r :: r in info ==> info[r].intervalNs >= MIN_INTERVAL_NS
  }

  /** What an alarm at `now` does to every receiver, whatever the pulls return. */
  ghost function Scheduled(info: Table, now: int): Table
    requires WellTimed(info)
  {
    map r | r in info :: if Due(info[r], now) then Bump(info[r], now) else info[r]
  }

  /** A receiver that is due at `now` moves by whole intervals to its first time after `now`, and
      nothing else changes. */
  ghost predicate Moved(before: ReceiverInfo, after: ReceiverInfo, now: int)
    requires before.intervalNs > 0
  {
    && after.intervalNs == before.intervalNs && after.receiver == before.receiver
    && (before.nextPullTimeNs > now ==> after.nextPullTimeNs == before.nextPullTimeNs)
    && (before.nextPullTimeNs <= now ==>
          && now < after.nextPullTimeNs <= now + before.intervalNs
          && (after.nextPullTimeNs - before.nextPullTimeNs) % before.intervalNs == 0)
  }

  ghost predicate Rescheduled(before: Table, after: Table, now: int)
    requires WellTimed(before)
  {
    after.Keys == before.Keys && forall r :: r in before ==> Moved(before[r], after[r], now)
  }

  /** Two times of one phase in one interval are equal. */
  lemma {:induction false} PhaseUnique(s: int, a: int, b: int, now: int, i: int)
    requires i > 0 && now < a <= now + i && now < b <= now + i && (a - s) % i == 0 && (b - s) % i == 0
    ensures a == b
  {
    var p, q := (a - s) / i, (b - s) / i;
    assert a - s == p * i && b - s == q * i;
    assert (p + 1) * i == p * i + i && (q + 1) * i == q * i + i;
    if p < q { MulMonotone(p + 1, q, i); }
    if q < p { MulMonotone(q + 1, p, i); }
  }

  lemma {:induction false} MovedIff(r: ReceiverInfo, after: ReceiverInfo, now: int)
    requires r.intervalNs >= MIN_INTERVAL_NS
    ensures Moved(r, after, now) <==> after == if Due(r, now) then Bump(r, now) else r
  {
    if Due(r, now) {
      hide Bump, NumBucketsAhead;
      BumpLands(r, now);
      if Moved(r, after, now) {
        PhaseUnique(r.nextPullTimeNs, after.nextPullTimeNs, Bump(r, now).nextPullTimeNs, now, r.intervalNs);
      }
    }
  }

  /** That determines the table. */
  lemma {:induction false} ScheduledIff(before: Table, after: Table, now: int)
    requires WellTimed(before)
    ensures Rescheduled(before, after, now) <==> after == Scheduled(before, now)
  {
    hide Bump, Moved;
    forall r | r in before && r in after
      ensures Moved(before[r], after[r], now) <==> after[r] == Scheduled(before, now)[r]
    {
      MovedIff(before[r], after[r], now);
    }
  }

  /** `m` is the least next pull time of `refs`, or NO_ALARM_UPDATE if all lie beyond it. */
  ghost predicate IsMin(m: int, info: Table, refs: set<Ref>)
    requires refs <= info.Keys
  {
    && m <= NO_ALARM_UPDATE
    && (forall r :: r in refs ==> m <= info[r].nextPullTimeNs)
    && (m == NO_ALARM_UPDATE || exists r :: r in refs && m == info[r].nextPullTimeNs)
  }

  /** The minimum is unique, so paths that end in the same table agree on the alarm. */
  lemma MinUnique(m: int, n: int, info: Table, refs: set<Ref>)
    requires refs <= info.Keys && IsMin(m, info, refs) && IsMin(n, info, refs)
    ensures m == n
  {
  }

  function Least(m: int, n: int): int { if m < n then m else n }

  lemma {:induction false} MinExtend(m: int, info: Table, refs: set<Ref>, r: Ref)
    requires refs <= info.Keys && r in info && IsMin(m, info, refs)
    ensures IsMin(Least(info[r].nextPullTimeNs, m), info, refs + {r})
  {
    var n := Least(info[r].nextPullTimeNs, m);
    if n != NO_ALARM_UPDATE {
      if n == m {
        if m != NO_ALARM_UPDATE {
          var s :| s in refs && m == info[s].nextPullTimeNs;
          assert s in refs + {r};
        }
      } else {
        assert r in refs + {r};
      }
    }
  }

  /** Changing receivers outside `refs` does not matter. */
  lemma {:induction false} MinFrame(m: int, info: Table, info': Table, refs: set<Ref>)
    requires refs <= info.Keys && refs <= info'.Keys && IsMin(m, info, refs)
    requires forall r :: r in refs ==> info'[r] == info[r]
    ensures IsMin(m, info', refs)
  {
    if m != NO_ALARM_UPDATE {
      var s :| s in refs && m == info[s].nextPullTimeNs;
      assert info'[s].nextPullTimeNs == m;
    }
  }

  // ---------- delivering pulled data ----------

  ghost predicate Distinct(refs: seq<Ref>) {
    forall i, j :: 0 <= i < j < |refs| ==> refs[i] != refs[j]
  }

  function Elements(refs: seq<Ref>): set<Ref> { set r | r in refs }

  /** The table and the running minimum after the receivers got their data in this order. */
  function Deliver(info: Table, m: int, refs: seq<Ref>, now: int): (Table, int)
  {
    if refs == [] then (info, m)
    else
      var (info1, m1) := Deliver(info, m, refs[..|refs| - 1], now);
      var r := refs[|refs| - 1];
      if r in info1 && info1[r].intervalNs > 0 then
        var bumped := Bump(info1[r], now);
        (info1[r := bumped], Least(bumped.nextPullTimeNs, m1))
      else (info1, m1)
  }

  /** Exactly the delivered receivers move, and the minimum takes them in. */
  lemma {:induction false} DeliverEach(info: Table, m: int, refs: seq<Ref>, others: set<Ref>, now: int)
    requires WellTimed(info) && Distinct(refs) && Elements(refs) <= info.Keys
    requires others <= info.Keys && others !! Elements(refs) && IsMin(m, info, others)
    ensures var (info', m') := Deliver(info, m, refs, now);
            && info'.Keys == info.Keys
            && (forall r :: r in info ==> info'[r] == if r in refs then Bump(info[r], now) else info[r])
            && IsMin(m', info', others + Elements(refs))
  {
    if refs == [] {
      assert others + Elements(refs) == others;
    } else {
      var init, r := refs[..|refs| - 1], refs[|refs| - 1];
      assert refs == init + [r];
      assert Elements(refs) == Elements(init) + {r} && r !in init;
      DeliverEach(info, m, init, others, now);
      var (info1, m1) := Deliver(info, m, init, now);
      var (info', m') := Deliver(info, m, refs, now);
      assert info1[r] == info[r] && info' == info1[r := Bump(info[r], now)];
      assert m' == Least(info'[r].nextPullTimeNs, m1);
      hide IsMin, Deliver, Bump, Least;
      MinFrame(m1, info1, info', others + Elements(init));
      MinExtend(m1, info', others + Elements(init), r);
      assert others + Elements(init) + {r} == others + Elements(refs);
    }
  }

  /** Delivering in two batches is delivering them one after the other. */
  lemma {:induction false} DeliverBatches(info: Table, m: int, a: seq<Ref>, b: seq<Ref>, now: int)
    ensures Deliver(info, m, a + b, now) == var (i, n) := Deliver(info, m, a, now); Deliver(i, n, b, now)
  {
    if b == [] {
      assert a + b == a;
    } else {
      assert (a + b)[..|a + b| - 1] == a + b[..|b| - 1];
      DeliverBatches(info, m, a, b[..|b| - 1], now);
    }
  }

  function RefsOf(jobs: seq<Group>): seq<Ref> {
    if jobs == [] then [] else RefsOf(jobs[..|jobs| - 1]) + jobs[|jobs| - 1].refs
  }

  lemma {:induction false} RefsOfPush(jobs: seq<Group>, j: Group)
    ensures RefsOf(jobs + [j]) == RefsOf(jobs) + j.refs
  {
    assert (jobs + [j])[..|jobs|] == jobs;
  }

  lemma {:induction false} RefsOfConcat(a: seq<Group>, b: seq<Group>)
    ensures RefsOf(a + b) == RefsOf(a) + RefsOf(b)
  {
    if b == [] {
      assert a + b == a;
    } else {
      assert (a + b)[..|a + b| - 1] == a + b[..|b| - 1];
      RefsOfConcat(a, b[..|b| - 1]);
    }
  }

  /** Groups done in another order serve the same receivers equally often. */
  lemma {:induction false} RefsOfPermuted(a: seq<Group>, b: seq<Group>)
    requires multiset(a) == multiset(b)
    ensures multiset(RefsOf(a)) == multiset(RefsOf(b))
  {
    if a == [] {
      assert |multiset(b)| == |b|;
    } else {
      hide RefsOf;
      var j, rest := a[|a| - 1], a[..|a| - 1];
      assert a == rest + [j];
      assert j in multiset(b);
      var i :| 0 <= i < |b| && b[i] == j;
      var c := b[..i] + b[i + 1..];
      RefsOfWithout(b, i);
      assert multiset(rest) == multiset(a) - multiset{j};
      RefsOfPermuted(rest, c);
      RefsOfPush(rest, j);
    }
  }

  lemma {:induction false} RefsOfWithout(b: seq<Group>, i: nat)
    requires i < |b|
    ensures multiset(b[..i] + b[i + 1..]) == multiset(b) - multiset{b[i]}
    ensures multiset(RefsOf(b)) == multiset(RefsOf(b[..i] + b[i + 1..])) + multiset(b[i].refs)
  {
    hide RefsOf;
    assert b == b[..i] + [b[i]] + b[i + 1..];
    RefsOfConcat(b[..i], b[i + 1..]);
    RefsOfConcat(b[..i] + [b[i]], b[i + 1..]);
    RefsOfPush(b[..i], b[i]);
  }

  lemma {:induction false} DistinctIsMultiset(a: seq<Ref>, b: seq<Ref>)
    requires Distinct(a) && multiset(a) == multiset(b)
    ensures Distinct(b) && Elements(a) == Elements(b)
  {
    forall r ensures r in a <==> r in b {
      assert r in multiset(a) <==> r in multiset(b);
    }
    forall i, j | 0 <= i < j < |b| ensures b[i] != b[j] {
      if b[i] == b[j] {
        OccursTwice(b, i, j);
        OccursOnce(a, b[i]);
      }
    }
  }

  lemma {:induction false} DistinctConcat(a: seq<Ref>, b: seq<Ref>)
    requires Distinct(a) && Distinct(b) && Elements(a) !! Elements(b)
    ensures Distinct(a + b) && Elements(a + b) == Elements(a) + Elements(b)
  {
    forall i, j | 0 <= i < |a| && 0 <= j < |b| ensures a[i] != b[j] {
      assert a[i] in Elements(a) && b[j] in Elements(b);
    }
  }

  lemma {:induction false} OccursTwice(b: seq<Ref>, i: nat, j: nat)
    requires i < j < |b| && b[i] == b[j]
    ensures multiset(b)[b[i]] >= 2
  {
    assert b == b[..i] + [b[i]] + b[i + 1..j] + [b[j]] + b[j + 1..];
  }

  lemma {:induction false} OccursOnce(a: seq<Ref>, r: Ref)
    requires Distinct(a)
    ensures multiset(a)[r] <= 1
  {
    if a != [] {
      var rest := a[..|a| - 1];
      assert a == rest + [a[|a| - 1]];
      OccursOnce(rest, r);
      if a[|a| - 1] == r { assert r !in rest; }
    }
  }

  // ---------- choosing the receivers to serve ----------

  /** The receivers of `refs` that lie in `wanted`, in order. */
  ghost function Pick(refs: seq<Ref>, wanted: set<Ref>): seq<Ref> {
    if refs == [] then []
    else Pick(refs[..|refs| - 1], wanted) + if refs[|refs| - 1] in wanted then [refs[|refs| - 1]] else []
  }

  lemma {:induction false} PickPush(refs: seq<Ref>, r: Ref, wanted: set<Ref>)
    ensures Pick(refs + [r], wanted) == Pick(refs, wanted) + if r in wanted then [r] else []
  {
    assert (refs + [r])[..|refs|] == refs;
  }

  lemma {:induction false} PickElements(refs: seq<Ref>, wanted: set<Ref>, r: Ref)
    ensures r in Pick(refs, wanted) <==> r in refs && r in wanted
  {
    if refs != [] { PickElements(refs[..|refs| - 1], wanted, r); }
  }

  lemma {:induction false} PickDistinct(refs: seq<Ref>, wanted: set<Ref>)
    requires Distinct(refs)
    ensures Distinct(Pick(refs, wanted))
  {
    if refs != [] {
      var init := refs[..|refs| - 1];
      PickDistinct(init, wanted);
      PickElements(init, wanted, refs[|refs| - 1]);
    }
  }

  lemma {:induction false} PickIsFilter(refs: seq<Ref>, wanted: set<Ref>)
    ensures Elements(Pick(refs, wanted)) == Elements(refs) * wanted
    ensures Distinct(refs) ==> Distinct(Pick(refs, wanted))
  {
    hide Pick, Distinct;
    forall r ensures r in Pick(refs, wanted) <==> r in refs && r in wanted {
      PickElements(refs, wanted, r);
    }
    if Distinct(refs) { PickDistinct(refs, wanted); }
  }
}
