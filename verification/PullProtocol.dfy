/** The parallel pull protocol (processPullerQueue and the main loop of OnAlarmFired in
    statsd/src/external/StatsPullerManager.cpp) as a state machine whose steps are the
    critical sections of the source: every interleaving is a run.

    A worker releases the lock before it notifies, so pushing and notifying are separate
    steps. The condition variable may also wake the main thread for no reason. */
module PullProtocol {
  import opened PullSchedule
  import opened PullManager

  datatype Worker =
    | Popping              // about to pop the puller queue
    | Pulling(job: Group)  // pulling outside any lock
    | Notifying            // result pushed, notify_one pending
    | Leaving              // saw an empty queue, about to decrement pendingThreads
    | LastNotify           // decremented, notify_one pending
    | Finished

  datatype Main = Checking | Waiting | Exited

  datatype Result = Result(job: Group, succeeded: bool)

  datatype State = State(
    queue: seq<Group>, workers: seq<Worker>, results: seq<Result>, pendingThreads: int, main: Main,
    delivered: seq<Result>, info: Table, minNext: int, pushed: seq<Result>)

  function Awake(m: Main): Main { if m == Waiting then Checking else m }

  // ---------- steps ----------

  ghost predicate WorkerStep(s: State, t: State, i: nat) {
    i < |s.workers| &&
    match s.workers[i]
    case Popping =>
      t == if s.queue == [] then s.(workers := s.workers[i := Leaving])
           else s.(queue := s.queue[1..], workers := s.workers[i := Pulling(s.queue[0])])
    case Pulling(job) =>
      exists ok :: t == s.(workers := s.workers[i := Notifying], results := s.results + [Result(job, ok)],
                           pushed := s.pushed + [Result(job, ok)])
    case Notifying => t == s.(workers := s.workers[i := Popping], main := Awake(s.main))
    case Leaving => t == s.(workers := s.workers[i := LastNotify], pendingThreads := s.pendingThreads - 1)
    case LastNotify => t == s.(workers := s.workers[i := Finished], main := Awake(s.main))
    case Finished => false
  }

  ghost function Delivery(s: State, now: int): State
    requires s.results != []
  {
    var (info, m) := Deliver(s.info, s.minNext, s.results[0].job.refs, now);
    s.(results := s.results[1..], delivered := s.delivered + [s.results[0]], info := info, minNext := m)
  }

  ghost predicate MainStep(s: State, t: State, now: int) {
    s.main == Checking &&
    t == if s.results != [] then Delivery(s, now)
         else if s.pendingThreads == 0 then s.(main := Exited)
         else s.(main := Waiting)
  }

  /** A step that makes progress. */
  ghost predicate Step(s: State, t: State, now: int) {
    MainStep(s, t, now) || exists i: nat :: WorkerStep(s, t, i)
  }

  ghost predicate SpuriousWakeup(s: State, t: State) {
    s.main == Waiting && t == s.(main := Checking)
  }

  ghost predicate Next(s: State, t: State, now: int) {
    Step(s, t, now) || SpuriousWakeup(s, t)
  }

  const PULLER_THREAD_COUNT: nat := 3

  /** The state in which the threads start. */
  ghost predicate Init(s: State, queue: seq<Group>, failed: seq<Group>, info: Table, minNext: int) {
    && s.queue == queue
    && |s.workers| == (if |queue| < PULLER_THREAD_COUNT then |queue| else PULLER_THREAD_COUNT)
    && (forall i :: 0 <= i < |s.workers| ==> s.workers[i] == Popping)
    && s.pendingThreads == |s.workers|
    && JobsOf(s.results) == failed && (forall i :: 0 <= i < |s.results| ==> !s.results[i].succeeded)
    && s.main == Checking && s.delivered == [] && s.info == info && s.minNext == minNext && s.pushed == []
  }

  /** What the threads may do next, whatever the others do: a worker takes the first job or finds
      the queue empty, its pull may succeed or fail, a notification wakes the main thread if it
      waits, a worker that leaves counts itself off; the main thread delivers the first result,
      waits or exits; and a wait may end for no reason. */
  lemma {:induction false} WorkerMoves(s: State, i: nat, now: int)
    requires i < |s.workers|
    ensures s.workers[i] == Popping && s.queue != [] ==>
              Next(s, s.(queue := s.queue[1..], workers := s.workers[i := Pulling(s.queue[0])]), now)
    ensures s.workers[i] == Popping && s.queue == [] ==> Next(s, s.(workers := s.workers[i := Leaving]), now)
    ensures s.workers[i].Pulling? ==>
              forall ok :: Next(s, s.(workers := s.workers[i := Notifying],
                                      results := s.results + [Result(s.workers[i].job, ok)],
                                      pushed := s.pushed + [Result(s.workers[i].job, ok)]), now)
    ensures s.workers[i] == Notifying ==>
              Next(s, s.(workers := s.workers[i := Popping],
                         main := if s.main == Waiting then Checking else s.main), now)
    ensures s.workers[i] == Leaving ==>
              Next(s, s.(workers := s.workers[i := LastNotify], pendingThreads := s.pendingThreads - 1), now)
    ensures s.workers[i] == LastNotify ==>
              Next(s, s.(workers := s.workers[i := Finished],
                         main := if s.main == Waiting then Checking else s.main), now)
  {
    var main := if s.main == Waiting then Checking else s.main;
    var t := match s.workers[i]
      case Popping =>
        if s.queue != [] then s.(queue := s.queue[1..], workers := s.workers[i := Pulling(s.queue[0])])
        else s.(workers := s.workers[i := Leaving])
      case Pulling(job) => s
      case Notifying => s.(workers := s.workers[i := Popping], main := main)
      case Leaving => s.(workers := s.workers[i := LastNotify], pendingThreads := s.pendingThreads - 1)
      case LastNotify => s.(workers := s.workers[i := Finished], main := main)
      case Finished => s;
    if s.workers[i].Pulling? {
      forall ok ensures Next(s, s.(workers := s.workers[i := Notifying],
                                   results := s.results + [Result(s.workers[i].job, ok)],
                                   pushed := s.pushed + [Result(s.workers[i].job, ok)]), now)
      {
        PullEnds(s, i, ok, now);
      }
    } else if !s.workers[i].Finished? {
      assert WorkerStep(s, t, i);
    }
  }

  lemma {:induction false} PullEnds(s: State, i: nat, ok: bool, now: int)
    requires i < |s.workers| && s.workers[i].Pulling?
    ensures Next(s, s.(workers := s.workers[i := Notifying], results := s.results + [Result(s.workers[i].job, ok)],
                       pushed := s.pushed + [Result(s.workers[i].job, ok)]), now)
  {
    var r := Result(s.workers[i].job, ok);
    var t := s.(workers := s.workers[i := Notifying], results := s.results + [r], pushed := s.pushed + [r]);
    assert WorkerStep(s, t, i);
  }

  lemma {:induction false} MainMoves(s: State, now: int)
    ensures s.main == Checking && s.results != [] ==>
              var (info, m) := Deliver(s.info, s.minNext, s.results[0].job.refs, now);
              Next(s, s.(results := s.results[1..], delivered := s.delivered + [s.results[0]], info := info,
                         minNext := m), now)
    ensures s.main == Checking && s.results == [] && s.pendingThreads == 0 ==> Next(s, s.(main := Exited), now)
    ensures s.main == Checking && s.results == [] && s.pendingThreads != 0 ==> Next(s, s.(main := Waiting), now)
    ensures s.main == Waiting ==> Next(s, s.(main := Checking), now)
  {
  }

  // ---------- bookkeeping over workers and results ----------

  function JobsOf(rs: seq<Result>): seq<Group> {
    if rs == [] then [] else JobsOf(rs[..|rs| - 1]) + [rs[|rs| - 1].job]
  }

  lemma {:induction false} JobsOfPush(rs: seq<Result>, r: Result)
    ensures JobsOf(rs + [r]) == JobsOf(rs) + [r.job]
  {
    assert (rs + [r])[..|rs|] == rs;
  }

  lemma {:induction false} JobsOfFirst(rs: seq<Result>)
    requires rs != []
    ensures JobsOf(rs) == [rs[0].job] + JobsOf(rs[1..])
  {
    if |rs| == 1 {
      assert rs[..0] == [];
    } else {
      JobsOfFirst(rs[..|rs| - 1]);
      assert rs[1..][..|rs| - 2] == rs[..|rs| - 1][1..];
    }
  }

  predicate Pending(w: Worker) { !w.LastNotify? && !w.Finished? }

  /** Steps a worker has left, counting the wake-ups it may cause. */
  function Left(w: Worker): nat {
    match w
    case Pulling(_) => 8
    case Notifying => 6
    case Popping => 4
    case Leaving => 3
    case LastNotify => 2
    case Finished => 0
  }

  ghost function Total(ws: seq<Worker>, f: Worker -> int): int {
    if ws == [] then 0 else Total(ws[..|ws| - 1], f) + f(ws[|ws| - 1])
  }

  lemma {:induction false} TotalUpdate(ws: seq<Worker>, i: nat, w: Worker, f: Worker -> int)
    requires i < |ws|
    ensures Total(ws[i := w], f) == Total(ws, f) + f(w) - f(ws[i])
  {
    var n := |ws| - 1;
    if i == n {
      assert ws[i := w][..n] == ws[..n];
    } else {
      assert ws[i := w][..n] == ws[..n][i := w];
      TotalUpdate(ws[..n], i, w, f);
    }
  }

  lemma {:induction false} TotalBounds(ws: seq<Worker>, f: Worker -> int)
    requires forall w :: f(w) >= 0
    ensures Total(ws, f) >= 0
    ensures Total(ws, f) == 0 <==> forall i :: 0 <= i < |ws| ==> f(ws[i]) == 0
  {
    if ws != [] { TotalBounds(ws[..|ws| - 1], f); }
  }

  function PendingOne(w: Worker): int { if Pending(w) then 1 else 0 }

  function StepsLeft(w: Worker): int { Left(w) }

  /** Whether a worker is pulling `job`. */
  function Holds(job: Group): Worker -> int { w => if w == Pulling(job) then 1 else 0 }

  /** Every job is queued, held by one worker, waiting to be delivered, or delivered. */
  ghost function Copies(s: State, job: Group): int {
    multiset(s.queue)[job] + Total(s.workers, Holds(job))
    + multiset(JobsOf(s.results))[job] + multiset(JobsOf(s.delivered))[job]
  }

  // ---------- the invariant ----------

  predicate WillNotify(w: Worker) { w.Notifying? || w.LastNotify? }

  ghost predicate NotifyPending(ws: seq<Worker>) {
    exists i :: 0 <= i < |ws| && WillNotify(ws[i])
  }

  /** Workers leave only after the queue ran dry, and the main thread never sleeps
      through its condition unless a wake-up is on the way. */
  ghost predicate Synchronised(s: State) {
    && s.pendingThreads == Total(s.workers, PendingOne)
    && (forall i :: 0 <= i < |s.workers| && (s.workers[i].Leaving? || !Pending(s.workers[i])) ==> s.queue == [])
    && (s.workers == [] ==> s.queue == [])
    && (s.main == Waiting ==> (s.results == [] && s.pendingThreads > 0) || NotifyPending(s.workers))
    && (s.main == Exited ==> s.results == [] && s.pendingThreads == 0)
  }

  /** No job is lost or done twice, and the table reflects the deliveries so far. */
  ghost predicate Inv(s: State, jobs: multiset<Group>, info: Table, minNext: int, now: int) {
    && Synchronised(s)
    && (forall job :: Copies(s, job) == jobs[job])
    && (s.info, s.minNext) == Deliver(info, minNext, RefsOf(JobsOf(s.delivered)), now)
  }

  lemma {:induction false} AllPopping(ws: seq<Worker>)
    requires forall i :: 0 <= i < |ws| ==> ws[i] == Popping
    ensures Total(ws, PendingOne) == |ws| && forall job :: Total(ws, Holds(job)) == 0
  {
    if ws != [] { AllPopping(ws[..|ws| - 1]); }
  }

  lemma {:induction false} InitInv(s: State, queue: seq<Group>, failed: seq<Group>, info: Table, minNext: int, now: int)
    requires Init(s, queue, failed, info, minNext)
    ensures Inv(s, multiset(queue + failed), info, minNext, now)
  {
    AllPopping(s.workers);
    assert JobsOf([]) == [] && RefsOf([]) == [];
    assert multiset(queue + failed) == multiset(queue) + multiset(failed);
  }

  lemma {:induction false} WorkerKeepsJobs(s: State, t: State, i: nat, job: Group)
    requires WorkerStep(s, t, i)
    ensures Copies(t, job) == Copies(s, job)
    ensures t.delivered == s.delivered && t.info == s.info && t.minNext == s.minNext
  {
    hide Total, JobsOf;
    assert t.workers == s.workers[i := t.workers[i]];
    TotalUpdate(s.workers, i, t.workers[i], Holds(job));
    match s.workers[i]
    case Popping =>
      if s.queue != [] { assert s.queue == [s.queue[0]] + s.queue[1..]; }
    case Pulling(j) =>
      var r := t.results[|s.results|];
      JobsOfPush(s.results, r);
      assert t.results == s.results + [r] && r.job == j;
    case _ =>
  }

  lemma {:induction false} WorkerKeepsSync(s: State, t: State, i: nat)
    requires WorkerStep(s, t, i) && Synchronised(s)
    ensures Synchronised(t)
  {
    hide Total;
    TotalUpdate(s.workers, i, t.workers[i], PendingOne);
    NonNegative(s.workers);
    NonNegative(t.workers);
    if t.main == Waiting && NotifyPending(s.workers) {
      var j :| 0 <= j < |s.workers| && WillNotify(s.workers[j]);
      assert j != i && WillNotify(t.workers[j]);
    }
    if s.workers[i].Pulling? || s.workers[i].Leaving? { assert WillNotify(t.workers[i]); }
  }

  lemma {:induction false} NonNegative(ws: seq<Worker>)
    ensures Total(ws, PendingOne) >= 0
    ensures Total(ws, PendingOne) == 0 <==> forall i :: 0 <= i < |ws| ==> !Pending(ws[i])
  {
    TotalBounds(ws, PendingOne);
  }

  lemma {:induction false} MainKeepsInv(s: State, t: State, jobs: multiset<Group>, info: Table, minNext: int, now: int)
    requires Inv(s, jobs, info, minNext, now) && MainStep(s, t, now)
    ensures Inv(t, jobs, info, minNext, now)
  {
    hide Total, JobsOf, RefsOf, Deliver;
    NonNegative(s.workers);
    if s.results != [] {
      var r := s.results[0];
      JobsOfFirst(s.results);
      JobsOfPush(s.delivered, r);
      RefsOfPush(JobsOf(s.delivered), r.job);
      DeliverBatches(info, minNext, RefsOf(JobsOf(s.delivered)), r.job.refs, now);
    }
  }

  lemma {:induction false} NextKeepsInv(s: State, t: State, jobs: multiset<Group>, info: Table, minNext: int, now: int)
    requires Inv(s, jobs, info, minNext, now) && Next(s, t, now)
    ensures Inv(t, jobs, info, minNext, now)
  {
    hide Total, JobsOf, RefsOf, Deliver, WorkerStep, Synchronised, Copies;
    if MainStep(s, t, now) {
      MainKeepsInv(s, t, jobs, info, minNext, now);
    } else if exists i: nat :: WorkerStep(s, t, i) {
      var i: nat :| WorkerStep(s, t, i);
      WorkerKeepsSync(s, t, i);
      forall job ensures Copies(t, job) == Copies(s, job) { WorkerKeepsJobs(s, t, i, job); }
      WorkerKeepsJobs(s, t, i, Group(0, []));
    } else {
      WakeupKeepsSync(s, t);
    }
  }

  lemma WakeupKeepsSync(s: State, t: State)
    requires Synchronised(s) && SpuriousWakeup(s, t)
    ensures Synchronised(t) && forall job :: Copies(t, job) == Copies(s, job)
  {
  }

  // ---------- results ----------

  /** When the main loop exits, every worker is past its last pull, both queues are
      empty, and every job has been delivered exactly once. */
  lemma {:induction false} ExitMeansDone(s: State, jobs: multiset<Group>, info: Table, minNext: int, now: int)
    requires Inv(s, jobs, info, minNext, now) && s.main == Exited
    ensures s.queue == [] && s.results == []
    ensures forall i :: 0 <= i < |s.workers| ==> !Pending(s.workers[i])
    ensures multiset(JobsOf(s.delivered)) == jobs
  {
    hide Total;
    NonNegative(s.workers);
    if s.workers != [] { assert !Pending(s.workers[0]); }
    forall job ensures multiset(JobsOf(s.delivered))[job] == jobs[job] {
      assert Copies(s, job) == jobs[job];
      TotalBounds(s.workers, Holds(job));
    }
  }

  ghost predicate Final(s: State) {
    s.main == Exited && forall i :: 0 <= i < |s.workers| ==> s.workers[i] == Finished
  }

  /** No reachable state is stuck: until the main loop has exited and all workers have
      finished, some step is enabled. */
  lemma {:induction false} NeverStuck(s: State, now: int)
    requires Synchronised(s) && !Final(s)
    ensures exists t :: Step(s, t, now)
  {
    if i :| 0 <= i < |s.workers| && s.workers[i] != Finished {
      var t := WorkerMove(s, i);
      assert Step(s, t, now);
    } else {
      NonNegative(s.workers);
      if s.main == Waiting {
        assert false;
      }
      var t := if s.results != [] then Delivery(s, now) else s.(main := Exited);
      assert Step(s, t, now);
    }
  }

  /** A move of worker `i`. */
  ghost function WorkerMove(s: State, i: nat): (t: State)
    requires i < |s.workers| && s.workers[i] != Finished
    ensures WorkerStep(s, t, i)
  {
    match s.workers[i]
    case Popping =>
      if s.queue == [] then s.(workers := s.workers[i := Leaving])
      else s.(queue := s.queue[1..], workers := s.workers[i := Pulling(s.queue[0])])
    case Pulling(job) =>
      var t := s.(workers := s.workers[i := Notifying], results := s.results + [Result(job, true)],
                  pushed := s.pushed + [Result(job, true)]);
      t
    case Notifying => s.(workers := s.workers[i := Popping], main := Awake(s.main))
    case Leaving => s.(workers := s.workers[i := LastNotify], pendingThreads := s.pendingThreads - 1)
    case LastNotify => s.(workers := s.workers[i := Finished], main := Awake(s.main))
  }

  ghost function Measure(s: State): int {
    5 * |s.queue| + Total(s.workers, StepsLeft) + |s.results| + if s.main == Checking then 1 else 0
  }

  /** Every step but a spurious wake-up decreases the measure, so every run that does
      not wake up spuriously for ever reaches a final state. */
  lemma {:induction false} StepDecreases(s: State, t: State, now: int)
    requires Step(s, t, now)
    ensures 0 <= Measure(t) < Measure(s)
  {
    hide Total, Deliver, WorkerStep;
    TotalBounds(t.workers, StepsLeft);
    if !MainStep(s, t, now) {
      var i: nat :| WorkerStep(s, t, i);
      WorkerDecreases(s, t, i);
    }
  }

  lemma {:induction false} WorkerDecreases(s: State, t: State, i: nat)
    requires WorkerStep(s, t, i)
    ensures Measure(t) < Measure(s)
  {
    hide Total;
    assert t.workers == s.workers[i := t.workers[i]];
    TotalUpdate(s.workers, i, t.workers[i], StepsLeft);
  }

  // ---------- runs ----------

  ghost predicate Run(states: seq<State>, now: int) {
    states != [] && forall i :: 0 <= i < |states| - 1 ==> Next(states[i], states[i + 1], now)
  }

  lemma {:induction false} RunKeepsInv(states: seq<State>, jobs: multiset<Group>, info: Table, minNext: int,
                                       now: int, i: nat)
    requires Run(states, now) && i < |states| && Inv(states[0], jobs, info, minNext, now)
    ensures Inv(states[i], jobs, info, minNext, now)
  {
    hide Inv, Next;
    if i > 0 {
      RunKeepsInv(states, jobs, info, minNext, now, i - 1);
      assert Next(states[i - 1], states[i - 1 + 1], now);
      NextKeepsInv(states[i - 1], states[i], jobs, info, minNext, now);
    }
  }

  /** The parallel path under every interleaving: once the main loop has exited, each
      receiver that is due and wants data got it exactly once, and the table and the
      next alarm are those of the synchronous path, whatever the pulls returned. */
  lemma {:induction false} ParallelSchedules(states: seq<State>, queue: seq<Group>, failed: seq<Group>,
                                             before: Table, after: Table, all: seq<Ref>, minNext: int, now: int,
                                             needed: nat -> bool)
    requires Elements(all) == before.Keys && Skipped(before, after, all, now, needed)
    requires Distinct(RefsOf(queue + failed)) && Elements(RefsOf(queue + failed)) == Wanted(before, now, needed)
    requires IsMin(minNext, after, before.Keys - Wanted(before, now, needed))
    requires Run(states, now) && Init(states[0], queue, failed, after, minNext)
    requires states[|states| - 1].main == Exited
    ensures var s := states[|states| - 1];
            && Distinct(RefsOf(JobsOf(s.delivered)))
            && Elements(RefsOf(JobsOf(s.delivered))) == Wanted(before, now, needed)
            && s.info == Scheduled(before, now) && IsMin(s.minNext, s.info, s.info.Keys)
  {
    hide Synchronised, Deliver, RefsOf, JobsOf, Copies, Skipped, Distinct, IsMin, Scheduled, Init, Next;
    var s := states[|states| - 1];
    var jobs := multiset(queue + failed);
    InitInv(states[0], queue, failed, after, minNext, now);
    RunKeepsInv(states, jobs, after, minNext, now, |states| - 1);
    ExitMeansDone(s, jobs, after, minNext, now);
    RefsOfPermuted(queue + failed, JobsOf(s.delivered));
    DistinctIsMultiset(RefsOf(queue + failed), RefsOf(JobsOf(s.delivered)));
    PassesSchedule(before, after, minNext, all, RefsOf(JobsOf(s.delivered)), now, needed);
  }

  // ---------- outcomes ----------

  /** The results of jobs that have no puller. */
  function Failures(failed: seq<Group>): seq<Result> {
    seq(|failed|, i requires 0 <= i < |failed| => Result(failed[i], false))
  }

  /** Results are delivered in the order they were pushed, failures first. */
  ghost predicate Carried(s: State, failed: seq<Group>) { s.delivered + s.results == Failures(failed) + s.pushed }

  lemma {:induction false} InitCarried(s: State, queue: seq<Group>, failed: seq<Group>, info: Table, minNext: int)
    requires Init(s, queue, failed, info, minNext)
    ensures Carried(s, failed)
  {
    hide JobsOf;
    JobsOfEach(s.results);
    forall i | 0 <= i < |failed| ensures s.results[i] == Failures(failed)[i] {
      assert JobsOf(s.results)[i] == s.results[i].job;
    }
    assert s.results == Failures(failed);
    assert s.delivered + s.results == s.results && Failures(failed) + s.pushed == Failures(failed);
  }

  lemma {:induction false} JobsOfEach(rs: seq<Result>)
    ensures |JobsOf(rs)| == |rs| && forall i :: 0 <= i < |rs| ==> JobsOf(rs)[i] == rs[i].job
  {
    if rs != [] {
      JobsOfEach(rs[..|rs| - 1]);
      JobsOfPush(rs[..|rs| - 1], rs[|rs| - 1]);
      assert rs == rs[..|rs| - 1] + [rs[|rs| - 1]];
    }
  }

  lemma {:induction false} NextCarries(s: State, t: State, failed: seq<Group>, now: int)
    requires Carried(s, failed) && Next(s, t, now)
    ensures Carried(t, failed)
  {
    hide Deliver, Failures;
    if MainStep(s, t, now) {
      if s.results != [] {
        assert s.results == [s.results[0]] + s.results[1..];
        assert s.delivered + s.results == t.delivered + t.results;
      }
    } else if exists i: nat :: WorkerStep(s, t, i) {
      var i: nat :| WorkerStep(s, t, i);
      if s.workers[i].Pulling? {
        var r := t.pushed[|s.pushed|];
        assert s.delivered + (s.results + [r]) == s.delivered + s.results + [r];
        assert Failures(failed) + (s.pushed + [r]) == Failures(failed) + s.pushed + [r];
      }
    }
  }

  lemma {:induction false} RunCarries(states: seq<State>, failed: seq<Group>, now: int, i: nat)
    requires Run(states, now) && i < |states| && Carried(states[0], failed)
    ensures Carried(states[i], failed)
  {
    hide Carried, Next;
    if i > 0 {
      RunCarries(states, failed, now, i - 1);
      assert Next(states[i - 1], states[i - 1 + 1], now);
      NextCarries(states[i - 1], states[i], failed, now);
    }
  }

  function Outcome(r: Result): PullResult { if r.succeeded then Success else Fail }

  /** The calls that deliver a sequence of results. */
  function CallsOf(rs: seq<Result>): seq<Call> {
    if rs == [] then [] else CallsOf(rs[..|rs| - 1]) + CallAll(rs[|rs| - 1].job.refs, Outcome(rs[|rs| - 1]))
  }

  lemma {:induction false} CallsOfRefs(calls: seq<Call>, rs: seq<Result>)
    ensures CallRefs(calls + CallsOf(rs)) == CallRefs(calls) + RefsOf(JobsOf(rs))
  {
    hide RefsOf, JobsOf, CallRefs;
    if rs == [] {
      assert calls + CallsOf(rs) == calls;
      NoJobs();
    } else {
      var init, r := rs[..|rs| - 1], rs[|rs| - 1];
      assert rs == init + [r];
      CallsOfRefs(calls, init);
      JobsOfPush(init, r);
      RefsOfPush(JobsOf(init), r.job);
      assert calls + CallsOf(rs) == calls + CallsOf(init) + CallAll(r.job.refs, Outcome(r));
      CallRefsBatch(calls + CallsOf(init), r.job.refs, Outcome(r));
    }
  }

  /** A call that delivers `r`: one of the job's receivers is told whether the pull succeeded. */
  ghost predicate Tells(c: Call, r: Result) {
    c.ref in r.job.refs && c.result != NotNeeded && (c.result == Success <==> r.succeeded)
  }

  /** Every call tells its receiver what came of its job. */
  lemma {:induction false} CallsTell(rs: seq<Result>)
    ensures forall c :: c in CallsOf(rs) ==> exists r :: r in rs && Tells(c, r)
  {
    if rs != [] {
      var init, last := rs[..|rs| - 1], rs[|rs| - 1];
      CallsTell(init);
      forall c | c in CallsOf(rs) ensures exists r :: r in rs && Tells(c, r) {
        if c in CallsOf(init) {
          var r :| r in init && Tells(c, r);
          assert r in rs;
        } else {
          assert last in rs && Tells(c, last);
        }
      }
    }
  }

  /** The results are those of the keys' pulls. */
  ghost predicate Truthful(rs: seq<Result>, pulled: Key -> bool) {
    forall r :: r in rs ==> r.succeeded == pulled(r.job.key)
  }

  /** Then the calls answer as on the synchronous path. */
  lemma {:induction false} CallsAnswer(groups: seq<Group>, rs: seq<Result>, pulled: Key -> bool)
    requires Truthful(rs, pulled) && forall r :: r in rs ==> FromGroup(groups, r.job)
    ensures forall c :: c in CallsOf(rs) ==> Answered(groups, c, pulled)
  {
    CallsTell(rs);
    forall c | c in CallsOf(rs) ensures Answered(groups, c, pulled) {
      var r :| r in rs && Tells(c, r);
      var g :| 0 <= g < |groups| && groups[g].key == r.job.key && forall x :: x in r.job.refs ==> x in groups[g].refs;
      assert c.ref in groups[g].refs;
    }
  }

  /** Jobs without a puller count as pulled in vain. */
  lemma {:induction false} DeliveredAnswer(groups: seq<Group>, queue: seq<Group>, failed: seq<Group>,
                                           pushed: seq<Result>, hasPuller: Key -> bool, pulled: Key -> bool)
    requires multiset(JobsOf(pushed)) == multiset(queue) && Truthful(pushed, pulled)
    requires forall j :: j in failed ==> !hasPuller(j.key)
    requires forall key :: !hasPuller(key) ==> !pulled(key)
    requires forall j :: j in queue + failed ==> FromGroup(groups, j)
    ensures forall c :: c in CallsOf(Failures(failed) + pushed) ==> Answered(groups, c, pulled)
  {
    hide FromGroup, Answered, CallsOf;
    var all := Failures(failed) + pushed;
    JobsOfEach(pushed);
    forall r | r in all ensures r.succeeded == pulled(r.job.key) && FromGroup(groups, r.job) {
      if r in pushed {
        assert r.job in JobsOf(pushed);
        assert r.job in multiset(queue);
      } else {
        var i :| 0 <= i < |failed| && r == Failures(failed)[i];
        assert failed[i] in failed;
      }
    }
    CallsAnswer(groups, all, pulled);
  }

  lemma NoJobs()
    ensures RefsOf(JobsOf([])) == []
  {
  }

  lemma {:induction false} JobsOfConcat(a: seq<Result>, b: seq<Result>)
    ensures JobsOf(a + b) == JobsOf(a) + JobsOf(b)
  {
    JobsOfEach(a);
    JobsOfEach(b);
    JobsOfEach(a + b);
  }

  /** The parallel alarm as a whole, from the start that InitPullerQueue makes and under every
      interleaving: once the main loop has exited, each due receiver has been called exactly
      once; jobs without a puller were delivered as failures, and each queued job once, with the
      result its worker pushed, and every call says which; if the results pushed are those of the
      keys' pulls, the calls answer as on the synchronous path; and the table and the next alarm are
      those of the synchronous path. */
  lemma {:induction false} ParallelAlarm(states: seq<State>, groups: seq<Group>, queue: seq<Group>, failed: seq<Group>,
                                         before: Table, after: Table, minNext: int, calls: seq<Call>, now: int,
                                         needed: nat -> bool, hasPuller: Key -> bool)
    requires Queued(groups, before, after, queue, failed, minNext, calls, now, needed, hasPuller)
    requires Run(states, now) && Init(states[0], queue, failed, after, minNext) && states[|states| - 1].main == Exited
    ensures var s := states[|states| - 1];
            && CalledOnce(calls + CallsOf(s.delivered), DueRefs(before, now))
            && s.delivered == Failures(failed) + s.pushed && multiset(JobsOf(s.pushed)) == multiset(queue)
            && (forall c :: c in CallsOf(s.delivered) ==> exists r :: r in s.delivered && Tells(c, r))
            && s.info == Scheduled(before, now) && Rescheduled(before, s.info, now)
            && IsMin(s.minNext, s.info, s.info.Keys)
    ensures var s := states[|states| - 1];
            forall pulled: Key -> bool ::
              Truthful(s.pushed, pulled) && (forall key :: !hasPuller(key) ==> !pulled(key)) ==>
              forall c :: c in CallsOf(s.delivered) ==> Answered(groups, c, pulled)
  {
    hide Synchronised, Deliver, RefsOf, JobsOf, Copies, Skipped, Distinct, IsMin, Scheduled, Next, Failures,
         FromGroup, CallRefs, CallsOf, Inv, Truthful, Answered, Tells, Rescheduled;
    var s := states[|states| - 1];
    ParallelSchedules(states, queue, failed, before, after, RefsOf(groups), minNext, now, needed);
    CallsOfRefs(calls, s.delivered);
    DistinctConcat(CallRefs(calls), RefsOf(JobsOf(s.delivered)));
    assert DueRefs(before, now) - Wanted(before, now, needed) + Wanted(before, now, needed) == DueRefs(before, now);
    InitCarried(states[0], queue, failed, after, minNext);
    RunCarries(states, failed, now, |states| - 1);
    InitInv(states[0], queue, failed, after, minNext, now);
    RunKeepsInv(states, multiset(queue + failed), after, minNext, now, |states| - 1);
    ExitMeansDone(s, multiset(queue + failed), after, minNext, now);
    assert s.delivered + [] == s.delivered;
    FailedJobs(failed);
    JobsOfConcat(Failures(failed), s.pushed);
    Cancel(failed, JobsOf(s.pushed), queue);
    CallsTell(s.delivered);
    SkippedTimed(before, after, RefsOf(groups), now, needed);
    ScheduledIff(before, s.info, now);
    forall pulled: Key -> bool | Truthful(s.pushed, pulled) && forall key :: !hasPuller(key) ==> !pulled(key)
      ensures forall c :: c in CallsOf(s.delivered) ==> Answered(groups, c, pulled)
    {
      DeliveredAnswer(groups, queue, failed, s.pushed, hasPuller, pulled);
    }
  }

  lemma {:induction false} Cancel(a: seq<Group>, b: seq<Group>, c: seq<Group>)
    requires multiset(a + b) == multiset(c + a)
    ensures multiset(b) == multiset(c)
  {
    forall j ensures multiset(b)[j] == multiset(c)[j] {
      assert multiset(a + b)[j] == multiset(a)[j] + multiset(b)[j];
      assert multiset(c + a)[j] == multiset(c)[j] + multiset(a)[j];
    }
  }

  lemma {:induction false} FailedJobs(failed: seq<Group>)
    ensures JobsOf(Failures(failed)) == failed
  {
    JobsOfEach(Failures(failed));
  }
}
