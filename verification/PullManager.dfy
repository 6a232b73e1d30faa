/** The registry of pull receivers and the synchronous alarm path
    (statsd/src/external/StatsPullerManager.cpp). */
module PullManager {
  import opened PullSchedule

  /** Registered receivers that are due at `now`, and those of them that want data. */
  ghost function DueRefs(info: Table, now: int): set<Ref> {
    set r | r in info && Due(info[r], now)
  }

  ghost function Wanted(info: Table, now: int, needed: nat -> bool): set<Ref> {
    set r | r in info && Due(info[r], now) && needed(info[r].receiver)
  }

  /** After the first pass over `done`: due receivers that want no data have moved on. */
  ghost predicate Skipped(before: Table, after: Table, done: seq<Ref>, now: int, needed: nat -> bool) {
    && after.Keys == before.Keys && WellTimed(before)
    && forall r :: r in before ==>
         after[r] == if r in done && Due(before[r], now) && !needed(before[r].receiver)
                     then Bump(before[r], now) else before[r]
  }

  ghost function CallRefs(calls: seq<Call>): seq<Ref> {
    if calls == [] then [] else CallRefs(calls[..|calls| - 1]) + [calls[|calls| - 1].ref]
  }

  lemma {:induction false} CallRefsPush(calls: seq<Call>, c: Call)
    ensures CallRefs(calls + [c]) == CallRefs(calls) + [c.ref]
  {
    assert (calls + [c])[..|calls|] == calls;
  }

  /** Each due receiver is called exactly once, the others never. */
  ghost predicate CalledOnce(calls: seq<Call>, due: set<Ref>) {
    Distinct(CallRefs(calls)) && Elements(CallRefs(calls)) == due
  }

  /** What the first pass has achieved once it has seen `done`. */
  ghost predicate PassState(before: Table, info: Table, done: seq<Ref>, jobs: seq<Ref>, m: int, calls: seq<Call>,
                            now: int, needed: nat -> bool)
  {
    var wanted := Wanted(before, now, needed);
    && Skipped(before, info, done, now, needed)
    && jobs == Pick(done, wanted)
    && Elements(done) <= info.Keys && IsMin(m, info, Elements(done) - wanted)
    && CallRefs(calls) == Pick(done, DueRefs(before, now) - wanted)
    && forall c :: c in calls ==> c.result == NotNeeded
  }

  lemma PassStart(before: Table, now: int, needed: nat -> bool)
    requires WellTimed(before)
    ensures PassState(before, before, [], [], NO_ALARM_UPDATE, [], now, needed)
  {
  }

  /** One receiver: collected, or settled at once. */
  lemma {:induction false} PassStep(before: Table, info: Table, done: seq<Ref>, jobs: seq<Ref>, m: int,
                                    calls: seq<Call>, r: Ref, now: int, needed: nat -> bool)
    requires PassState(before, info, done, jobs, m, calls, now, needed) && r in before && r !in done
    ensures r in info && info[r] == before[r] && info[r].intervalNs > 0
    ensures if Due(info[r], now) && needed(info[r].receiver) then
              PassState(before, info, done + [r], jobs + [r], m, calls, now, needed)
            else if Due(info[r], now) then
              var moved := info[r := Bump(info[r], now)];
              PassState(before, moved, done + [r], jobs, Least(moved[r].nextPullTimeNs, m),
                        calls + [Call(r, NotNeeded)], now, needed)
            else
              PassState(before, info, done + [r], jobs, Least(info[r].nextPullTimeNs, m), calls, now, needed)
  {
    hide IsMin, Pick, CallRefs, Bump, Least;
    var wanted, due := Wanted(before, now, needed), DueRefs(before, now);
    PickPush(done, r, wanted);
    PickPush(done, r, due - wanted);
    CallRefsPush(calls, Call(r, NotNeeded));
    var rest := Elements(done) - wanted;
    assert Elements(done + [r]) == Elements(done) + {r};
    if r in wanted {
      assert Elements(done + [r]) - wanted == rest;
    } else {
      assert Elements(done + [r]) - wanted == rest + {r};
      var info' := if Due(info[r], now) then info[r := Bump(info[r], now)] else info;
      assert r !in rest;
      MinFrame(m, info, info', rest);
      MinExtend(m, info', rest, r);
    }
  }

  lemma {:induction false} PassDone(before: Table, info: Table, done: seq<Ref>, jobs: seq<Ref>, m: int,
                                    calls: seq<Call>, now: int, needed: nat -> bool)
    requires PassState(before, info, done, jobs, m, calls, now, needed)
    requires Distinct(done) && Elements(done) == before.Keys
    ensures Skipped(before, info, done, now, needed)
    ensures Distinct(jobs) && Elements(jobs) == Wanted(before, now, needed)
    ensures IsMin(m, info, info.Keys - Wanted(before, now, needed))
    ensures CalledOnce(calls, DueRefs(before, now) - Wanted(before, now, needed))
    ensures forall c :: c in calls ==> c.result == NotNeeded
  {
    hide IsMin, Pick, CallRefs;
    var wanted, due := Wanted(before, now, needed), DueRefs(before, now);
    PickIsFilter(done, wanted);
    PickIsFilter(done, due - wanted);
    assert before.Keys * wanted == wanted && before.Keys * (due - wanted) == due - wanted;
  }

  /** The first pass and the deliveries together move exactly the due receivers. */
  lemma {:induction false} PassesSchedule(before: Table, after: Table, m: int, all: seq<Ref>, jobs: seq<Ref>,
                                          now: int, needed: nat -> bool)
    requires Elements(all) == before.Keys && Skipped(before, after, all, now, needed)
    requires Distinct(jobs) && Elements(jobs) == Wanted(before, now, needed)
    requires IsMin(m, after, before.Keys - Wanted(before, now, needed))
    ensures var (info, n) := Deliver(after, m, jobs, now);
            info == Scheduled(before, now) && IsMin(n, info, info.Keys)
  {
    hide Deliver, IsMin, Bump;
    var wanted := Wanted(before, now, needed);
    assert WellTimed(after) by { SkippedTimed(before, after, all, now, needed); }
    DeliverEach(after, m, jobs, before.Keys - wanted, now);
    var (info, n) := Deliver(after, m, jobs, now);
    assert before.Keys - wanted + wanted == before.Keys;
    forall r | r in before ensures info[r] == Scheduled(before, now)[r] {
      assert r in jobs <==> r in Elements(jobs);
      assert r in all <==> r in Elements(all);
    }
    assert info == Scheduled(before, now);
  }

  lemma ScheduledTimed(info: Table, now: int)
    requires WellTimed(info)
    ensures WellTimed(Scheduled(info, now)) && Scheduled(info, now).Keys == info.Keys
  {
  }

  lemma SkippedTimed(before: Table, after: Table, done: seq<Ref>, now: int, needed: nat -> bool)
    requires Skipped(before, after, done, now, needed)
    ensures WellTimed(before) && WellTimed(after) && after.Keys == before.Keys
  {
  }

  function CallAll(refs: seq<Ref>, result: PullResult): seq<Call> {
    seq(|refs|, i requires 0 <= i < |refs| => Call(refs[i], result))
  }

  lemma {:induction false} CallRefsBatch(calls: seq<Call>, refs: seq<Ref>, result: PullResult)
    ensures CallRefs(calls + CallAll(refs, result)) == CallRefs(calls) + refs
  {
    if refs == [] {
      assert calls + CallAll(refs, result) == calls;
    } else {
      var init, r := refs[..|refs| - 1], refs[|refs| - 1];
      assert calls + CallAll(refs, result) == (calls + CallAll(init, result)) + [Call(r, result)];
      CallRefsPush(calls + CallAll(init, result), Call(r, result));
      CallRefsBatch(calls, init, result);
    }
  }

  lemma {:induction false} CallListed(calls: seq<Call>, c: Call)
    requires c in calls
    ensures c.ref in CallRefs(calls)
  {
    if calls[|calls| - 1] != c { CallListed(calls[..|calls| - 1], c); }
  }

  lemma {:induction false} SettledNotWanted(calls: seq<Call>, due: set<Ref>, wanted: set<Ref>)
    requires CalledOnce(calls, due - wanted)
    ensures forall c :: c in calls ==> c.ref !in wanted
  {
    forall c | c in calls ensures c.ref !in wanted {
      CallListed(calls, c);
      assert c.ref in Elements(CallRefs(calls));
    }
  }

  lemma ServeNone(info: Table, m: int, now: int)
    ensures Deliver(info, m, RefsOf([]), now) == (info, m) && RefsOf([]) == []
  {
  }

  /** How the parallel path starts: receivers that want no data have been told so and moved on,
      every other due receiver is in exactly one job, and the jobs of keys without a puller have
      failed already. */
  ghost predicate Queued(groups: seq<Group>, before: Table, after: Table, queue: seq<Group>, failed: seq<Group>,
                         minNext: int, calls: seq<Call>, now: int, needed: nat -> bool, hasPuller: Key -> bool)
  {
    && Skipped(before, after, RefsOf(groups), now, needed) && Elements(RefsOf(groups)) == before.Keys
    && Distinct(RefsOf(queue + failed)) && Elements(RefsOf(queue + failed)) == Wanted(before, now, needed)
    && IsMin(minNext, after, before.Keys - Wanted(before, now, needed))
    && CalledOnce(calls, DueRefs(before, now) - Wanted(before, now, needed))
    && (forall c :: c in calls ==> c.result == NotNeeded)
    && (forall j :: j in queue ==> hasPuller(j.key)) && (forall j :: j in failed ==> !hasPuller(j.key))
    && (forall j :: j in queue + failed ==> FromGroup(groups, j))
  }

  /** A job's receivers are some of those registered for its key. */
  ghost predicate FromGroup(groups: seq<Group>, job: Group) {
    exists g :: 0 <= g < |groups| && groups[g].key == job.key && forall r :: r in job.refs ==> r in groups[g].refs
  }

  /** A call reports the outcome of the pull for the key its receiver is registered for. */
  ghost predicate Answered(groups: seq<Group>, c: Call, pulled: Key -> bool) {
    exists g :: 0 <= g < |groups| && c.ref in groups[g].refs &&
      c.result == if pulled(groups[g].key) then Success else Fail
  }

  lemma {:induction false} JobAnswered(groups: seq<Group>, job: Group, pulled: Key -> bool, c: Call)
    requires FromGroup(groups, job)
    requires c in CallAll(job.refs, if pulled(job.key) then Success else Fail)
    ensures Answered(groups, c, pulled)
  {
    var g :| 0 <= g < |groups| && groups[g].key == job.key && forall r :: r in job.refs ==> r in groups[g].refs;
    assert c.ref in groups[g].refs;
  }

  lemma {:induction false} GroupListed(groups: seq<Group>, g: nat, refs: seq<Ref>)
    requires g < |groups| && forall r :: r in refs ==> r in groups[g].refs
    ensures FromGroup(groups, Group(groups[g].key, refs))
  {
  }

  ghost predicate UniqueKeys(groups: seq<Group>) {
    forall g, h :: 0 <= g < h < |groups| ==> groups[g].key != groups[h].key
  }

  /** A list has no two records of one receiver. */
  ghost predicate Once(refs: seq<Ref>, info: Table) {
    forall i, j :: 0 <= i < j < |refs| && refs[i] in info && refs[j] in info ==>
      info[refs[i]].receiver != info[refs[j]].receiver
  }

  ghost predicate OncePerKey(groups: seq<Group>, info: Table) {
    forall g :: 0 <= g < |groups| ==> Once(groups[g].refs, info)
  }

  /** Other records, or other times, do not matter. */
  lemma {:induction false} OnceSame(refs: seq<Ref>, info: Table, info': Table)
    requires Once(refs, info)
    requires forall r :: r in refs && r in info' ==> r in info && info[r].receiver == info'[r].receiver
    ensures Once(refs, info')
  {
    forall i, j | 0 <= i < j < |refs| && refs[i] in info' && refs[j] in info'
      ensures info'[refs[i]].receiver != info'[refs[j]].receiver
    {
      assert refs[i] in refs && refs[j] in refs;
    }
  }

  lemma {:induction false} OnceScheduled(groups: seq<Group>, info: Table, now: int)
    requires WellTimed(info) && OncePerKey(groups, info)
    ensures OncePerKey(groups, Scheduled(info, now))
  {
    hide Once;
    forall g | 0 <= g < |groups| ensures Once(groups[g].refs, Scheduled(info, now)) {
      OnceSame(groups[g].refs, info, Scheduled(info, now));
    }
  }

  lemma {:induction false} OnceJoined(groups: seq<Group>, info: Table, g: nat, r: Ref, record: ReceiverInfo)
    requires OncePerKey(groups, info) && g < |groups| && r !in RefsOf(groups)
    requires forall j :: 0 <= j < |groups[g].refs| && groups[g].refs[j] in info ==>
               info[groups[g].refs[j]].receiver != record.receiver
    ensures OncePerKey(groups[g := Group(groups[g].key, groups[g].refs + [r])], info[r := record])
  {
    var more := groups[g := Group(groups[g].key, groups[g].refs + [r])];
    forall h | 0 <= h < |groups| ensures Once(more[h].refs, info[r := record]) {
      ListWithin(groups, h);
      assert r !in Elements(groups[h].refs);
      OnceSame(groups[h].refs, info, info[r := record]);
    }
  }

  lemma {:induction false} OnceDropped(groups: seq<Group>, info: Table, g: nat, i: nat)
    requires OncePerKey(groups, info) && g < |groups| && i < |groups[g].refs|
    ensures var refs := groups[g].refs;
            OncePerKey(groups[g := Group(groups[g].key, refs[..i] + refs[i + 1..])], info - {refs[i]})
  {
    hide RefsOf;
    var refs := groups[g].refs;
    var less := groups[g := Group(groups[g].key, refs[..i] + refs[i + 1..])];
    forall h | 0 <= h < |groups| ensures Once(less[h].refs, info - {refs[i]}) {
      if h != g {
        OnceSame(groups[h].refs, info, info - {refs[i]});
      } else {
        assert forall k :: 0 <= k < |less[g].refs| ==> less[g].refs[k] == refs[if k < i then k else k + 1];
      }
    }
  }

  /** The record has joined the list of its key, a new last list if there was none. */
  ghost predicate Joined(before: seq<Group>, after: seq<Group>, key: Key, r: Ref) {
    || (exists g :: 0 <= g < |before| && before[g].key == key && after == before[g := Group(key, before[g].refs + [r])])
    || ((forall h :: 0 <= h < |before| ==> before[h].key != key) && after == before + [Group(key, [r])])
  }

  lemma {:induction false} ListAdded(groups: seq<Group>, info: Table, key: Key)
    requires UniqueKeys(groups) && OncePerKey(groups, info)
    requires forall h :: 0 <= h < |groups| ==> groups[h].key != key
    ensures var more := groups + [Group(key, [])];
            RefsOf(more) == RefsOf(groups) && UniqueKeys(more) && OncePerKey(more, info)
  {
    RefsOfPush(groups, Group(key, []));
  }

  lemma {:induction false} OneList(groups: seq<Group>, g: nat)
    requires UniqueKeys(groups) && g < |groups|
    ensures forall h :: 0 <= h < |groups| && groups[h].key == groups[g].key ==> h == g
  {
  }

  /** With the empty list already there if it was missing. */
  lemma {:induction false} JoinedAt(before: seq<Group>, groups: seq<Group>, key: Key, g: nat, r: Ref)
    requires UniqueKeys(groups) && g < |groups| && groups[g].key == key
    requires groups == before
          || (groups == before + [Group(key, [])] && g == |before|
              && forall h :: 0 <= h < |before| ==> before[h].key != key)
    ensures var more := groups[g := Group(key, groups[g].refs + [r])]; UniqueKeys(more) && Joined(before, more, key, r)
  {
    var more := groups[g := Group(key, groups[g].refs + [r])];
    if groups != before {
      assert [] + [r] == [r] && more == before + [Group(key, [r])];
    }
  }

  lemma {:induction false} ListWithin(groups: seq<Group>, g: nat)
    requires g < |groups|
    ensures Elements(groups[g].refs) <= Elements(RefsOf(groups))
  {
    hide RefsOf;
    assert groups == groups[..g] + [groups[g]] + groups[g + 1..];
    RefsOfPush(groups[..g], groups[g]);
    RefsOfConcat(groups[..g] + [groups[g]], groups[g + 1..]);
  }

  /** A record not seen before joins one of the lists. */
  lemma {:induction false} AddRef(groups: seq<Group>, g: nat, r: Ref)
    requires g < |groups| && r !in RefsOf(groups) && Distinct(RefsOf(groups))
    ensures var more := groups[g := Group(groups[g].key, groups[g].refs + [r])];
            Distinct(RefsOf(more)) && Elements(RefsOf(more)) == Elements(RefsOf(groups)) + {r}
  {
    hide RefsOf;
    var more := groups[g := Group(groups[g].key, groups[g].refs + [r])];
    var a, b := RefsOf(groups[..g]) + groups[g].refs, RefsOf(groups[g + 1..]);
    ListSplit(groups, g);
    ListSplit(more, g);
    assert more[..g] == groups[..g] && more[g + 1..] == groups[g + 1..];
    assert RefsOf(more) == a + [r] + b && RefsOf(groups) == a + b;
    WithOrWithout(a, b, r);
  }

  /** The i-th record of the list for `key`, which is the receiver's, has gone, and all else
      is as it was. */
  ghost predicate Dropped(before: seq<Group>, after: seq<Group>, info: Table, info': Table, key: Key, receiver: nat,
                          g: nat, i: nat)
  {
    && g < |before| && i < |before[g].refs| && before[g].key == key
    && after == before[g := Group(key, before[g].refs[..i] + before[g].refs[i + 1..])]
    && var r := before[g].refs[i];
       r in info && info[r].receiver == receiver && info' == info - {r}
  }

  ghost predicate NoneOf(refs: seq<Ref>, info: Table, receiver: nat) {
    forall i :: 0 <= i < |refs| && refs[i] in info ==> info[refs[i]].receiver != receiver
  }

  /** What joined is what is dropped. */
  lemma {:induction false} JoinedDropped(before: seq<Group>, joined: seq<Group>, after: seq<Group>, info: Table,
                                         info': Table, key: Key, record: ReceiverInfo, r: Ref, g: nat, i: nat)
    requires UniqueKeys(joined) && Joined(before, joined, key, r) && r !in info
    requires Dropped(joined, after, info[r := record], info', key, record.receiver, g, i)
    requires forall h :: 0 <= h < |before| ==> r !in before[h].refs
    requires forall h :: 0 <= h < |before| && before[h].key == key ==> NoneOf(before[h].refs, info, record.receiver)
    ensures info' == info && (after == before || after == before + [Group(key, [])])
  {
    if h :| 0 <= h < |before| && before[h].key == key && joined == before[h := Group(key, before[h].refs + [r])] {
      assert joined[h].key == key && g == h;
      var refs := before[h].refs;
      assert i == |refs| && (refs + [r])[..i] + (refs + [r])[i + 1..] == refs;
      assert before[h] == Group(key, refs) && after == before;
    } else {
      assert joined[|before|].key == key && g == |before|;
      assert [r][..0] + [r][1..] == [];
      assert after == before + [Group(key, [])];
    }
  }

  /** The record at one position of one list leaves it. */
  lemma {:induction false} DropRef(groups: seq<Group>, g: nat, i: nat)
    requires g < |groups| && i < |groups[g].refs| && Distinct(RefsOf(groups))
    ensures var refs := groups[g].refs;
            var less := groups[g := Group(groups[g].key, refs[..i] + refs[i + 1..])];
            Distinct(RefsOf(less)) && Elements(RefsOf(less)) == Elements(RefsOf(groups)) - {refs[i]}
  {
    hide RefsOf;
    var refs := groups[g].refs;
    var less := groups[g := Group(groups[g].key, refs[..i] + refs[i + 1..])];
    var a, b := RefsOf(groups[..g]) + refs[..i], refs[i + 1..] + RefsOf(groups[g + 1..]);
    ListSplit(groups, g);
    ListSplit(less, g);
    assert less[..g] == groups[..g] && less[g + 1..] == groups[g + 1..];
    assert refs == refs[..i] + [refs[i]] + refs[i + 1..];
    assert RefsOf(groups) == a + [refs[i]] + b && RefsOf(less) == a + b;
    WithOrWithout(a, b, refs[i]);
  }

  lemma {:induction false} WithOrWithout(a: seq<Ref>, b: seq<Ref>, r: Ref)
    ensures Distinct(a + [r] + b) <==> Distinct(a + b) && r !in a + b
    ensures Elements(a + [r] + b) == Elements(a + b) + {r}
  {
    var s, t := a + [r] + b, a + b;
    assert forall i :: 0 <= i < |t| ==> t[i] == s[if i < |a| then i else i + 1];
    assert s[|a|] == r;
    if Distinct(s) {
      forall i, j | 0 <= i < j < |t| ensures t[i] != t[j] {
        assert s[if i < |a| then i else i + 1] != s[if j < |a| then j else j + 1];
      }
      forall i | 0 <= i < |t| ensures t[i] != r {
        assert s[if i < |a| then i else i + 1] != s[|a|];
      }
    }
    if Distinct(t) && r !in t {
      assert forall i :: 0 <= i < |s| && i != |a| ==> s[i] == t[if i < |a| then i else i - 1];
    }
  }

  lemma {:induction false} ListSplit(groups: seq<Group>, g: nat)
    requires g < |groups|
    ensures RefsOf(groups) == RefsOf(groups[..g]) + groups[g].refs + RefsOf(groups[g + 1..])
  {
    hide RefsOf;
    assert groups == groups[..g] + [groups[g]] + groups[g + 1..];
    RefsOfPush(groups[..g], groups[g]);
    RefsOfConcat(groups[..g] + [groups[g]], groups[g + 1..]);
  }

  class StatsPullerManager {
    var groups: seq<Group>
    var info: Table
    var nextPullTimeNs: int
    var freshRef: Ref

    /** Every record is reachable from exactly one list, there is one list for a key and one record
        of a receiver in it, and the alarm is never late. */
    ghost predicate Valid()
      reads this
    {
      && WellTimed(info) && Distinct(RefsOf(groups)) && Elements(RefsOf(groups)) == info.Keys
      && UniqueKeys(groups) && OncePerKey(groups, info)
      && (forall r :: r in info ==> r < freshRef)
      && nextPullTimeNs <= NO_ALARM_UPDATE
      && (forall r :: r in info ==> nextPullTimeNs <= info[r].nextPullTimeNs)
    }

    constructor ()
      ensures Valid() && groups == [] && info == map[] && nextPullTimeNs == NO_ALARM_UPDATE
    {
      groups, info, nextPullTimeNs, freshRef := [], map[], NO_ALARM_UPDATE, 0;
    }

    ghost predicate Registered(key: Key, receiver: nat)
      reads this
    {
      exists g, i :: 0 <= g < |groups| && groups[g].key == key && 0 <= i < |groups[g].refs|
                     && groups[g].refs[i] in info && info[groups[g].refs[i]].receiver == receiver
    }

    /** Index of the list for `key`, or the number of lists. */
    method Find(key: Key) returns (g: nat)
      ensures g <= |groups|
      ensures g < |groups| ==> groups[g].key == key
      ensures g == |groups| ==> forall h :: 0 <= h < |groups| ==> groups[h].key != key
    {
      g := 0;
      while g < |groups| && groups[g].key != key
        invariant g <= |groups| && forall h :: 0 <= h < g ==> groups[h].key != key
      {
        g := g + 1;
      }
    }

    /** Position of `receiver` in a list, or its length. */
    method Position(refs: seq<Ref>, receiver: nat) returns (i: nat)
      requires Elements(refs) <= info.Keys
      ensures i <= |refs|
      ensures forall j :: 0 <= j < |refs| ==> refs[j] in info
      ensures i < |refs| ==> info[refs[i]].receiver == receiver
      ensures forall j :: 0 <= j < i ==> info[refs[j]].receiver != receiver
    {
      assert forall j :: 0 <= j < |refs| ==> refs[j] in Elements(refs);
      i := 0;
      while i < |refs| && info[refs[i]].receiver != receiver
        invariant i <= |refs| && forall j :: 0 <= j < i ==> info[refs[j]].receiver != receiver
      {
        i := i + 1;
      }
    }

    /** Adds a receiver unless it is registered for the key already; the alarm is moved
        forward if the new receiver needs it. */
    method RegisterReceiver(key: Key, receiver: nat, nextPullTime: int, interval: int) returns (added: bool)
      requires Valid()
      modifies this
      ensures Valid() && Registered(key, receiver)
      ensures added == !old(Registered(key, receiver))
      ensures !added ==> groups == old(groups) && info == old(info) && nextPullTimeNs == old(nextPullTimeNs)
      ensures added ==>
        && old(freshRef) !in old(info) && Joined(old(groups), groups, key, old(freshRef))
        && info == old(info)[old(freshRef) := ReceiverInfo(nextPullTime, RoundInterval(interval), receiver)]
        && nextPullTimeNs == Least(nextPullTime, old(nextPullTimeNs))
    {
      hide Distinct, RefsOf, OncePerKey, UniqueKeys, Joined;
      var g := Find(key);
      ghost var before := groups;
      if g == |groups| {
        ListAdded(groups, info, key);
        groups := groups + [Group(key, [])];
      }
      ListWithin(groups, g);
      var i := Position(groups[g].refs, receiver);
      added := i == |groups[g].refs|;
      OneList(groups, g);
      if !added {
        assert groups[g].refs[i] in info;
        return;
      }
      JoinedAt(before, groups, key, g, freshRef);
      AddRecord(g, ReceiverInfo(nextPullTime, RoundInterval(interval), receiver));
      assert groups[g].refs[|groups[g].refs| - 1] in info;
    }

    /** Appends a record of a new receiver to a list. */
    method AddRecord(g: nat, record: ReceiverInfo)
      requires Valid() && g < |groups| && record.intervalNs >= MIN_INTERVAL_NS
               && NoneOf(groups[g].refs, info, record.receiver)
      modifies this
      ensures Valid() && old(freshRef) !in old(info) && info == old(info)[old(freshRef) := record]
      ensures groups == old(groups)[g := Group(old(groups)[g].key, old(groups)[g].refs + [old(freshRef)])]
      ensures nextPullTimeNs == Least(record.nextPullTimeNs, old(nextPullTimeNs))
    {
      hide Distinct, RefsOf, OncePerKey;
      var r := freshRef;
      assert r !in Elements(RefsOf(groups));
      AddRef(groups, g, r);
      OnceJoined(groups, info, g, r, record);
      freshRef := freshRef + 1;
      info := info[r := record];
      groups := groups[g := Group(groups[g].key, groups[g].refs + [r])];
      if record.nextPullTimeNs < nextPullTimeNs {
        nextPullTimeNs := record.nextPullTimeNs;
      }
    }

    method UnRegisterReceiver(key: Key, receiver: nat) returns (removed: bool)
      requires Valid()
      modifies this
      ensures Valid() && !Registered(key, receiver) && nextPullTimeNs == old(nextPullTimeNs)
      ensures removed == old(Registered(key, receiver))
      ensures !removed ==> groups == old(groups) && info == old(info)
      ensures removed ==> exists g, i :: Dropped(old(groups), groups, old(info), info, key, receiver, g, i)
    {
      hide Distinct, RefsOf;
      var g := Find(key);
      if g == |groups| {
        return false;
      }
      ListWithin(groups, g);
      var refs := groups[g].refs;
      var i := Position(refs, receiver);
      removed := i < |refs|;
      if removed {
        assert refs[i] in info;
        DropRef(groups, g, i);
        OnceDropped(groups, info, g, i);
        groups := groups[g := Group(key, refs[..i] + refs[i + 1..])];
        info := info - {refs[i]};
        assert Dropped(old(groups), groups, old(info), info, key, receiver, g, i);
      }
    }

    /** Unregistering right after registering leaves the records as they were, and at most an empty
        list more. */
    method RegisterUndone(key: Key, receiver: nat, nextPullTime: int, interval: int)
      requires Valid() && !Registered(key, receiver)
      modifies this
      ensures Valid() && info == old(info)
      ensures groups == old(groups) || groups == old(groups) + [Group(key, [])]
    {
      hide Distinct, RefsOf, Once;
      ghost var before, table, r := groups, info, freshRef;
      ghost var record := ReceiverInfo(nextPullTime, RoundInterval(interval), receiver);
      forall g | 0 <= g < |groups| && groups[g].key == key ensures NoneOf(groups[g].refs, info, receiver) {
        forall i | 0 <= i < |groups[g].refs| && groups[g].refs[i] in info
          ensures info[groups[g].refs[i]].receiver != receiver
        {
          assert Registered(key, receiver) || info[groups[g].refs[i]].receiver != receiver;
        }
      }
      forall g | 0 <= g < |groups| ensures r !in groups[g].refs {
        ListWithin(groups, g);
        assert r !in Elements(groups[g].refs);
      }
      var _ := RegisterReceiver(key, receiver, nextPullTime, interval);
      ghost var joined := groups;
      var _ := UnRegisterReceiver(key, receiver);
      ghost var g: nat, i: nat :| Dropped(joined, groups, table[r := record], info, key, receiver, g, i);
      JoinedDropped(before, joined, groups, table, info, key, record, r, g, i);
    }

    /** First pass over all receivers: those not due or not wanting data are settled at
        once, the others are collected by key. */
    method CollectDue(now: int, needed: nat -> bool)
      returns (needToPull: seq<Group>, minNext: int, calls: seq<Call>)
      requires Valid()
      modifies `info
      ensures Skipped(old(info), info, RefsOf(groups), now, needed)
      ensures Distinct(RefsOf(needToPull)) && Elements(RefsOf(needToPull)) == Wanted(old(info), now, needed)
      ensures IsMin(minNext, info, info.Keys - Wanted(old(info), now, needed))
      ensures CalledOnce(calls, DueRefs(old(info), now) - Wanted(old(info), now, needed))
      ensures forall c :: c in calls ==> c.result == NotNeeded
      ensures forall j :: j in needToPull ==> FromGroup(groups, j)
    {
      hide PassState, RefsOf, Bump, Least, FromGroup;
      ghost var before := info;
      needToPull, minNext, calls := [], NO_ALARM_UPDATE, [];
      PassStart(before, now, needed);
      RefsOfNone();
      for g := 0 to |groups|
        invariant PassState(before, info, RefsOf(groups[..g]), RefsOf(needToPull), minNext, calls, now, needed)
        invariant forall j :: j in needToPull ==> FromGroup(groups, j)
      {
        GroupSplit(groups, g);
        ghost var base, picked := RefsOf(groups[..g]), RefsOf(needToPull);
        var refs := groups[g].refs;
        var receivers: seq<Ref> := [];
        assert base + refs[..0] == base && picked + receivers == picked;
        for i := 0 to |refs|
          invariant PassState(before, info, base + refs[..i], picked + receivers, minNext, calls, now, needed)
          invariant forall r :: r in receivers ==> r in refs
        {
          var r := refs[i];
          PassStep(before, info, base + refs[..i], picked + receivers, minNext, calls, r, now, needed);
          assert base + refs[..i] + [r] == base + refs[..i + 1];
          if Due(info[r], now) && needed(info[r].receiver) {
            receivers := receivers + [r];
            assert picked + receivers[..|receivers| - 1] + [r] == picked + receivers;
          } else {
            if Due(info[r], now) {
              calls := calls + [Call(r, NotNeeded)];
              info := info[r := Bump(info[r], now)];
            }
            minNext := Least(info[r].nextPullTimeNs, minNext);
          }
        }
        assert refs[..|refs|] == refs;
        RefsOfPush(needToPull, Group(groups[g].key, receivers));
        if receivers != [] {
          GroupListed(groups, g, receivers);
          needToPull := needToPull + [Group(groups[g].key, receivers)];
        } else {
          assert picked + receivers == picked;
        }
      }
      assert groups[..|groups|] == groups;
      PassDone(before, info, RefsOf(groups), RefsOf(needToPull), minNext, calls, now, needed);
    }

    /** Serves one pull's receivers in order. */
    method DeliverTo(refs: seq<Ref>, minNext: int, now: int) returns (m: int)
      requires WellTimed(info) && Elements(refs) <= info.Keys
      modifies `info
      ensures (info, m) == Deliver(old(info), minNext, refs, now)
      ensures info.Keys == old(info.Keys) && WellTimed(info)
    {
      m := minNext;
      for i := 0 to |refs|
        invariant info.Keys == old(info.Keys) && WellTimed(info)
        invariant (info, m) == Deliver(old(info), minNext, refs[..i], now)
      {
        var r := refs[i];
        assert r in Elements(refs);
        assert refs[..i + 1][..i] == refs[..i];
        info := info[r := Bump(info[r], now)];
        m := Least(info[r].nextPullTimeNs, m);
      }
      assert refs[..|refs|] == refs;
    }

    /** The synchronous path: collect, then pull and deliver key by key. `pulled` says
        which pulls succeed. */
    method OnAlarmFiredSynchronous(now: int, needed: nat -> bool, pulled: Key -> bool)
      returns (minNext: int, calls: seq<Call>)
      requires Valid()
      modifies `info
      ensures info == Scheduled(old(info), now) && Rescheduled(old(info), info, now)
      ensures IsMin(minNext, info, info.Keys)
      ensures CalledOnce(calls, DueRefs(old(info), now))
      ensures forall c :: c in calls ==> (c.result == NotNeeded <==> c.ref !in Wanted(old(info), now, needed))
      ensures forall c :: c in calls && c.result != NotNeeded ==> Answered(groups, c, pulled)
    {
      hide FromGroup, Answered, Deliver, IsMin, Skipped, Scheduled, RefsOf, CallRefs, Distinct, WellTimed;
      ghost var before := info;
      ghost var wanted := Wanted(before, now, needed);
      var needToPull;
      needToPull, minNext, calls := CollectDue(now, needed);
      ghost var info1, min1, calls1 := info, minNext, calls;
      SkippedTimed(before, info, RefsOf(groups), now, needed);
      SettledNotWanted(calls, DueRefs(before, now), wanted);
      ServeNone(info1, min1, now);
      assert CallRefs(calls1) + [] == CallRefs(calls1);
      for j := 0 to |needToPull|
        invariant WellTimed(info) && info.Keys == before.Keys
        invariant (info, minNext) == Deliver(info1, min1, RefsOf(needToPull[..j]), now)
        invariant CallRefs(calls) == CallRefs(calls1) + RefsOf(needToPull[..j])
        invariant forall c :: c in calls ==> (c.result == NotNeeded <==> c.ref !in wanted)
        invariant forall c :: c in calls && c.result != NotNeeded ==> Answered(groups, c, pulled)
      {
        var job := needToPull[j];
        GroupSplit(needToPull, j);
        DeliverBatches(info1, min1, RefsOf(needToPull[..j]), job.refs, now);
        minNext := DeliverTo(job.refs, minNext, now);
        var result := if pulled(job.key) then Success else Fail;
        CallRefsBatch(calls, job.refs, result);
        forall c | c in CallAll(job.refs, result) ensures Answered(groups, c, pulled) {
          JobAnswered(groups, job, pulled, c);
        }
        calls := calls + CallAll(job.refs, result);
      }
      assert needToPull[..|needToPull|] == needToPull;
      PassesSchedule(before, info1, min1, RefsOf(groups), RefsOf(needToPull), now, needed);
      ScheduledIff(before, info, now);
      DistinctConcat(CallRefs(calls1), RefsOf(needToPull));
      assert DueRefs(before, now) - wanted + wanted == DueRefs(before, now);
    }

    /** With the parallel path off: an alarm reschedules exactly the due receivers and
        sets the next alarm to the exact minimum. */
    method OnAlarmFired(now: int, needed: nat -> bool, pulled: Key -> bool) returns (calls: seq<Call>)
      requires Valid()
      modifies this
      ensures Valid() && info == Scheduled(old(info), now) && Rescheduled(old(info), info, now)
      ensures IsMin(nextPullTimeNs, info, info.Keys)
      ensures groups == old(groups) && CalledOnce(calls, DueRefs(old(info), now))
      ensures forall c :: c in calls ==> (c.result == NotNeeded <==> c.ref !in Wanted(old(info), now, needed))
      ensures forall c :: c in calls && c.result != NotNeeded ==> Answered(groups, c, pulled)
    {
      hide Distinct, RefsOf, Scheduled;
      var minNext;
      ScheduledTimed(info, now);
      OnceScheduled(groups, info, now);
      minNext, calls := OnAlarmFiredSynchronous(now, needed, pulled);
      nextPullTimeNs := minNext;
      ScheduledIff(old(info), info, now);
    }

    /** The parallel path's start: keys with a puller are queued, the others have failed. */
    method InitPullerQueue(now: int, needed: nat -> bool, hasPuller: Key -> bool)
      returns (queue: seq<Group>, failed: seq<Group>, minNext: int, calls: seq<Call>)
      requires Valid()
      modifies `info
      ensures Queued(groups, old(info), info, queue, failed, minNext, calls, now, needed, hasPuller)
    {
      hide Skipped, Distinct, RefsOf, IsMin, CalledOnce, FromGroup, Wanted, DueRefs;
      ghost var before := info;
      var needToPull;
      needToPull, minNext, calls := CollectDue(now, needed);
      SkippedTimed(before, info, RefsOf(groups), now, needed);
      queue, failed := [], [];
      for j := 0 to |needToPull|
        invariant multiset(queue + failed) == multiset(needToPull[..j])
        invariant (forall j :: j in queue ==> hasPuller(j.key)) && (forall j :: j in failed ==> !hasPuller(j.key))
        invariant forall j :: j in queue ==> FromGroup(groups, j)
        invariant forall j :: j in failed ==> FromGroup(groups, j)
      {
        assert needToPull[..j + 1] == needToPull[..j] + [needToPull[j]];
        if hasPuller(needToPull[j].key) {
          queue := queue + [needToPull[j]];
        } else {
          failed := failed + [needToPull[j]];
        }
      }
      assert needToPull[..|needToPull|] == needToPull;
      RefsOfPermuted(needToPull, queue + failed);
      DistinctIsMultiset(RefsOf(needToPull), RefsOf(queue + failed));
    }

    /** The next record of a distinct registry has not been seen before. */
    lemma {:induction false} GroupSplit(gs: seq<Group>, g: nat)
      requires g < |gs|
      ensures RefsOf(gs[..g + 1]) == RefsOf(gs[..g]) + gs[g].refs
      ensures forall i :: 0 <= i < |gs[g].refs| ==> gs[g].refs[i] in Elements(RefsOf(gs))
      ensures Distinct(RefsOf(gs)) ==>
                forall i :: 0 <= i < |gs[g].refs| ==> gs[g].refs[i] !in RefsOf(gs[..g]) + gs[g].refs[..i]
    {
      hide RefsOf;
      assert gs[..g + 1] == gs[..g] + [gs[g]] && gs == gs[..g + 1] + gs[g + 1..];
      RefsOfPush(gs[..g], gs[g]);
      RefsOfConcat(gs[..g + 1], gs[g + 1..]);
      var all, k := RefsOf(gs), |RefsOf(gs[..g])|;
      assert forall i :: 0 <= i < k ==> all[i] == RefsOf(gs[..g])[i];
      assert forall i :: 0 <= i < |gs[g].refs| ==> all[k + i] == gs[g].refs[i];
    }
  }

  lemma RefsOfNone()
    ensures RefsOf([]) == []
  {
  }
}
