/** The retrying writer queue (lib/libstatssocket/stats_buffer_writer_queue.cpp): producers
    push commands under a lock, one worker thread writes them, and terminate() raises a flag
    and pushes a null marker. A state machine whose steps are the atomic sections; a write to
    the socket may succeed or fail. */
module WriterQueue {
  const QUEUE_MAX_SIZE: nat := 4800
  const QUEUE_RETRY_COUNT: nat := 10

  datatype Cmd = Marker | Buffer(id: int)

  /** One call of handleCommand: whether it was told to note a drop, and whether it succeeded. */
  datatype Attempt = Attempt(cmd: Cmd, noteDrop: bool, success: bool)

  /** A command that has left the queue: how often it was tried, and whether it was written. */
  datatype Departure = Departure(cmd: Cmd, attempts: nat, written: bool)

  /** Where the worker is in its loop. */
  datatype Worker =
    | NotStarted
    | Top
    | Peeked(cmd: Cmd)
    | Handled(cmd: Cmd, success: bool, final: bool)
    | Check
    | Exited

  datatype Terminator = Idle | FlagSet | Marked | Joined

  datatype State = State(
    queue: seq<Cmd>,
    doTerminate: bool,
    worker: Worker,
    retryCount: nat,
    terminator: Terminator,
    accepted: seq<Cmd>,
    departures: seq<Departure>,
    drained: seq<Cmd>,
    log: seq<Attempt>)

  datatype Action =
    | Start | Push(id: int)
    | RaiseFlag | PushMarker | Join | Drain
    | Peek | Handle(success: bool) | Settle | CheckTerminate

  predicate IsWorker(a: Action) { a.Peek? || a.Handle? || a.Settle? || a.CheckTerminate? }
  predicate IsTerminator(a: Action) { a.RaiseFlag? || a.PushMarker? || a.Join? || a.Drain? }

  const Init := State([], false, NotStarted, 0, Idle, [], [], [], [])

  predicate Enabled(s: State, a: Action) {
    match a
    case Start => s.worker.NotStarted?
    case Push(_) => !s.worker.NotStarted? && !s.terminator.Joined?
    case RaiseFlag => s.terminator.Idle? && !s.worker.NotStarted?
    case PushMarker => s.terminator.FlagSet?
    case Join => s.terminator.Marked? && s.worker.Exited?
    case Drain => s.terminator.Joined? && s.queue != []
    case Peek => s.worker.Top? && s.queue != []
    case Handle(_) => s.worker.Peeked?
    case Settle => s.worker.Handled? && s.queue != []
    case CheckTerminate => s.worker.Check?
  }

  /** pushToQueue under the lock. */
  function Pushed(s: State, c: Cmd): State {
    if |s.queue| >= QUEUE_MAX_SIZE then s else s.(queue := s.queue + [c], accepted := s.accepted + [c])
  }

  function Apply(s: State, a: Action): State
    requires Enabled(s, a)
  {
    match a
    case Start => s.(worker := Top)
    case Push(id) => Pushed(s, Buffer(id))
    case RaiseFlag => s.(doTerminate := true, terminator := FlagSet)
    case PushMarker => Pushed(s, Marker).(terminator := Marked)
    case Join => s.(terminator := Joined)
    case Drain => s.(queue := s.queue[1..], drained := s.drained + [s.queue[0]])
    case Peek => s.(worker := Peeked(s.queue[0]))
    case Handle(success) =>
      if s.worker.cmd.Marker? then s.(worker := Exited)
      else
        var final := s.retryCount + 1 >= QUEUE_RETRY_COUNT;
        s.(retryCount := s.retryCount + 1,
           worker := Handled(s.worker.cmd, success, final),
           log := s.log + [Attempt(s.worker.cmd, final, success)])
    case Settle =>
      if s.worker.success || s.worker.final then
        s.(worker := Check, retryCount := 0, queue := s.queue[1..],
           departures := s.departures + [Departure(s.worker.cmd, s.retryCount, s.worker.success)])
      else s.(worker := Check)
    case CheckTerminate => s.(worker := if s.doTerminate then Exited else Top)
  }

  // ---------- what the attempts of a departed command look like ----------

  /** `n` tries of a command, all failed but possibly the last; a try is told to note a drop
      exactly when it is the tenth. */
  function Tries(c: Cmd, n: nat, written: bool): seq<Attempt> {
    if n == 0 then [] else Tries(c, n - 1, false) + [Attempt(c, n == QUEUE_RETRY_COUNT, written)]
  }

  function Attempts(d: Departure): seq<Attempt> { Tries(d.cmd, d.attempts, d.written) }

  function AllAttempts(ds: seq<Departure>): seq<Attempt> {
    if ds == [] then [] else AllAttempts(ds[..|ds| - 1]) + Attempts(ds[|ds| - 1])
  }

  /** A command leaves after its first success or its tenth failure. */
  ghost predicate Proper(d: Departure) {
    d.cmd.Buffer? && 1 <= d.attempts <= QUEUE_RETRY_COUNT && (d.written || d.attempts == QUEUE_RETRY_COUNT)
  }

  function Cmds(ds: seq<Departure>): seq<Cmd> {
    if ds == [] then [] else Cmds(ds[..|ds| - 1]) + [ds[|ds| - 1].cmd]
  }

  /** The accepted commands that the worker has not finished with. */
  ghost function Unfinished(s: State): seq<Cmd> { s.drained + s.queue }

  /** The attempts made so far on the first of them. */
  ghost function Pending(s: State): seq<Attempt> {
    if Unfinished(s) == [] then []
    else Tries(Unfinished(s)[0], s.retryCount, s.worker.Handled? && s.worker.success)
  }

  // ---------- the invariant ----------

  ghost predicate Shape(s: State) {
    && |s.queue| <= QUEUE_MAX_SIZE
    && (s.worker.NotStarted? ==> s.queue == [] && !s.doTerminate)
    && (s.worker.Peeked? || s.worker.Handled? ==> s.queue != [] && s.queue[0] == s.worker.cmd)
    && (s.worker.Handled? ==> s.worker.cmd.Buffer? && s.retryCount >= 1
                              && s.worker.final == (s.retryCount == QUEUE_RETRY_COUNT))
    && s.retryCount <= QUEUE_RETRY_COUNT
    && (s.retryCount == QUEUE_RETRY_COUNT ==> s.worker.Handled?)
    && (s.retryCount > 0 ==> Unfinished(s) != [])
    && (s.doTerminate <==> !s.terminator.Idle?)
    && (s.terminator.Joined? ==> s.worker.Exited?)
    && (s.drained != [] ==> s.terminator.Joined?)
  }

  ghost predicate MarkersMeanTermination(s: State) {
    && (Marker in s.queue ==> s.doTerminate)
    && (s.worker.Exited? ==> s.doTerminate)
    && (s.terminator.Marked? && s.worker.Top? ==> s.queue != [])
  }

  /** First in, first out: what was accepted is what left, then what was drained, then what
      is still queued, in that order. */
  ghost predicate Conserved(s: State) {
    s.accepted == Cmds(s.departures) + s.drained + s.queue
  }

  ghost predicate Accounted(s: State) {
    && (forall i :: 0 <= i < |s.departures| ==> Proper(s.departures[i]))
    && s.log == AllAttempts(s.departures) + Pending(s)
  }

  ghost predicate Inv(s: State) {
    Shape(s) && MarkersMeanTermination(s) && Conserved(s) && Accounted(s)
  }

  lemma InitInv()
    ensures Inv(Init)
  {
  }

  lemma ShapeKept(s: State, a: Action)
    requires Shape(s) && MarkersMeanTermination(s) && Enabled(s, a)
    ensures Shape(Apply(s, a)) && MarkersMeanTermination(Apply(s, a))
  {
  }

  lemma {:induction false} CmdsSnoc(ds: seq<Departure>, d: Departure)
    ensures Cmds(ds + [d]) == Cmds(ds) + [d.cmd] && AllAttempts(ds + [d]) == AllAttempts(ds) + Attempts(d)
  {
    assert (ds + [d])[..|ds|] == ds;
  }

  lemma {:induction false} PushConserves(accepted: seq<Cmd>, left: seq<Cmd>, drained: seq<Cmd>, queue: seq<Cmd>, c: Cmd)
    requires accepted == left + drained + queue
    ensures accepted + [c] == left + drained + (queue + [c])
  {
  }

  lemma {:induction false} DepartConserves(accepted: seq<Cmd>, left: seq<Cmd>, queue: seq<Cmd>)
    requires accepted == left + [] + queue && queue != []
    ensures accepted == left + [queue[0]] + [] + queue[1..]
  {
    assert queue == [queue[0]] + queue[1..];
  }

  lemma {:induction false} DrainConserves(accepted: seq<Cmd>, left: seq<Cmd>, drained: seq<Cmd>, queue: seq<Cmd>)
    requires accepted == left + drained + queue && queue != []
    ensures accepted == left + (drained + [queue[0]]) + queue[1..]
  {
    assert queue == [queue[0]] + queue[1..];
  }

  lemma {:induction false} ConservedKept(s: State, a: Action)
    requires Shape(s) && Conserved(s) && Enabled(s, a)
    ensures Conserved(Apply(s, a))
  {
    hide Cmds;
    var left := Cmds(s.departures);
    match a
    case Push(id) => PushConserves(s.accepted, left, s.drained, s.queue, Buffer(id));
    case PushMarker => PushConserves(s.accepted, left, s.drained, s.queue, Marker);
    case Drain => DrainConserves(s.accepted, left, s.drained, s.queue);
    case Settle =>
      if s.worker.success || s.worker.final {
        CmdsSnoc(s.departures, Departure(s.worker.cmd, s.retryCount, s.worker.success));
        DepartConserves(s.accepted, left, s.queue);
      }
    case _ =>
  }

  lemma {:induction false} AccountedKept(s: State, a: Action)
    requires Shape(s) && Accounted(s) && Enabled(s, a)
    ensures Accounted(Apply(s, a))
  {
    hide AllAttempts, Tries, Proper;
    TriesNone();
    match a
    case Push(id) => PushKeepsPending(s, Buffer(id));
    case PushMarker => PushKeepsPending(s, Marker);
    case Handle(success) =>
      if s.worker.cmd.Buffer? { TriesOneMore(s.worker.cmd, s.retryCount, success); }
    case Settle => SettleAccounts(s);
    case Drain => assert Unfinished(Apply(s, a)) == Unfinished(s);
    case _ =>
  }

  lemma {:induction false} TriesNone()
    ensures forall c, w :: Tries(c, 0, w) == []
  {
  }

  lemma {:induction false} TriesOneMore(c: Cmd, n: nat, written: bool)
    ensures Tries(c, n + 1, written) == Tries(c, n, false) + [Attempt(c, n + 1 == QUEUE_RETRY_COUNT, written)]
  {
  }

  lemma {:induction false} PushKeepsPending(s: State, c: Cmd)
    requires Shape(s) && !s.terminator.Joined?
    ensures Pending(Pushed(s, c)) == Pending(s)
  {
  }

  lemma {:induction false} SettleAccounts(s: State)
    requires Shape(s) && Accounted(s) && Enabled(s, Settle)
    ensures Accounted(Apply(s, Settle))
  {
    hide AllAttempts;
    var t := Apply(s, Settle);
    if s.worker.success || s.worker.final {
      var d := Departure(s.worker.cmd, s.retryCount, s.worker.success);
      CmdsSnoc(s.departures, d);
      assert Attempts(d) == Pending(s);
    }
  }

  /** Every step keeps the invariant. */
  lemma {:induction false} StepKeepsInv(s: State, a: Action)
    requires Inv(s) && Enabled(s, a)
    ensures Inv(Apply(s, a))
  {
    hide Shape, MarkersMeanTermination, Conserved, Accounted, Apply, Enabled;
    ShapeKept(s, a);
    ConservedKept(s, a);
    AccountedKept(s, a);
  }

  // ---------- what a step does ----------

  /** Once the worker has started and until the join, a push can always be made; it is accepted
      if and only if fewer than 4800 commands are queued, and then joins the end of the queue. */
  lemma PushExact(s: State, id: int)
    requires !s.worker.NotStarted? && !s.terminator.Joined?
    ensures Enabled(s, Push(id))
    ensures |s.queue| < 4800 ==>
              Apply(s, Push(id)) == s.(queue := s.queue + [Buffer(id)], accepted := s.accepted + [Buffer(id)])
    ensures |s.queue| >= 4800 ==> Apply(s, Push(id)) == s
  {
  }

  /** The first push starts the worker and changes nothing else. */
  lemma StartExact(s: State)
    requires s.worker.NotStarted?
    ensures Enabled(s, Start) && Apply(s, Start) == s.(worker := Top)
  {
  }

  /** Only pushes that find room add to what was accepted. */
  lemma {:induction false} OnlyPushesAccept(s: State, a: Action)
    requires Enabled(s, a)
    ensures Apply(s, a).accepted == s.accepted + Admitted(s, a)
  {
  }

  /** What a step puts in the queue. */
  function Admitted(s: State, a: Action): seq<Cmd> {
    if |s.queue| >= 4800 then []
    else if a.Push? then [Buffer(a.id)]
    else if a.PushMarker? then [Marker]
    else []
  }

  // ---------- whole runs ----------

  ghost predicate Run(states: seq<State>, actions: seq<Action>) {
    && |states| == |actions| + 1
    && forall i :: 0 <= i < |actions| ==>
      Enabled(states[i], actions[i]) && states[i + 1] == Apply(states[i], actions[i])
  }

  lemma {:induction false} RunKeepsInv(states: seq<State>, actions: seq<Action>, i: nat)
    requires Run(states, actions) && states[0] == Init && i < |states|
    ensures Inv(states[i])
  {
    hide Inv, Apply, Enabled;
    if i == 0 { InitInv(); } else {
      RunKeepsInv(states, actions, i - 1);
      StepKeepsInv(states[i - 1], actions[i - 1]);
    }
  }

  /** The ids of the pushes that met fewer than 4800 commands, in order. */
  ghost function AdmittedIds(states: seq<State>, actions: seq<Action>): seq<int>
    requires |states| == |actions| + 1
  {
    if actions == [] then []
    else
      var n := |actions| - 1;
      AdmittedIds(states[..n + 1], actions[..n]) +
      if actions[n].Push? && |states[n].queue| < 4800 then [actions[n].id] else []
  }

  /** The ids of the buffers among some commands. */
  function Ids(cmds: seq<Cmd>): seq<int> {
    if cmds == [] then []
    else Ids(cmds[..|cmds| - 1]) + if cmds[|cmds| - 1].Buffer? then [cmds[|cmds| - 1].id] else []
  }

  lemma {:induction false} IdsPush(cmds: seq<Cmd>, more: seq<Cmd>)
    requires |more| <= 1
    ensures Ids(cmds + more) == Ids(cmds) + if more != [] && more[0].Buffer? then [more[0].id] else []
  {
    if more == [] {
      assert cmds + more == cmds;
    } else {
      assert (cmds + more)[..|cmds + more| - 1] == cmds;
    }
  }

  /** On every run the buffers accepted are exactly those pushed while fewer than 4800 commands
      were queued, in the order of the pushes. */
  lemma {:induction false} AcceptedAreAdmitted(states: seq<State>, actions: seq<Action>)
    requires Run(states, actions) && states[0] == Init
    ensures Ids(states[|actions|].accepted) == AdmittedIds(states, actions)
  {
    hide Apply, Enabled, Ids;
    if actions == [] {
      NoIds();
    } else {
      var n := |actions| - 1;
      AcceptedAreAdmitted(states[..n + 1], actions[..n]);
      OnlyPushesAccept(states[n], actions[n]);
      IdsPush(states[n].accepted, Admitted(states[n], actions[n]));
    }
  }

  lemma NoIds()
    ensures Ids([]) == []
  {
  }

  /** And they have left, first to last, or are drained or queued still. */
  lemma {:induction false} AdmittedLeaveInOrder(states: seq<State>, actions: seq<Action>)
    requires Run(states, actions) && states[0] == Init
    ensures var s := states[|actions|];
            AdmittedIds(states, actions) == Ids(Cmds(s.departures) + s.drained + s.queue)
  {
    hide Apply, Enabled, Cmds, Ids, AdmittedIds;
    AcceptedAreAdmitted(states, actions);
    RunKeepsInv(states, actions, |actions|);
  }

  // ---------- nothing gets stuck, and terminate() ends the worker ----------

  /** While a command is queued, the worker can move unless it has exited. */
  lemma {:induction false} WorkerCanMove(s: State)
    requires Inv(s) && !s.worker.NotStarted? && !s.worker.Exited? && s.queue != []
    ensures exists a :: IsWorker(a) && Enabled(s, a)
  {
    var a := match s.worker case Top => Peek case Peeked(_) => Handle(true) case Handled(_, _, _) => Settle
                            case _ => CheckTerminate;
    assert IsWorker(a) && Enabled(s, a);
  }

  /** Steps of the worker until the front command leaves, if the worker stays. */
  ghost function UntilDeparture(s: State): int {
    4 * (QUEUE_RETRY_COUNT - s.retryCount) +
    match s.worker case Top => 0 case Peeked(_) => -1 case Handled(_, _, _) => 2 case Check => 1 case _ => 0
  }

  /** Every step of the worker makes the front command leave, or the worker exit, or brings that
      nearer; so it happens within 42 steps of the worker, however the writes turn out. */
  lemma {:induction false} FrontLeavesSoon(s: State, a: Action)
    requires Inv(s) && IsWorker(a) && Enabled(s, a)
    ensures 0 <= UntilDeparture(s) <= 41
    ensures var t := Apply(s, a);
            || t.worker.Exited?
            || (|t.departures| == |s.departures| + 1 && t.queue == s.queue[1..])
            || (t.departures == s.departures && t.queue == s.queue && UntilDeparture(t) < UntilDeparture(s))
  {
  }

  /** Once the flag is up, the worker or the terminating thread can always move until the
      join, whether or not the marker found room. */
  lemma {:induction false} TerminationNotStuck(s: State)
    requires Inv(s) && s.doTerminate && !s.terminator.Joined?
    ensures exists a :: (IsWorker(a) || IsTerminator(a)) && Enabled(s, a)
  {
    var a := if s.terminator.FlagSet? then PushMarker
             else match s.worker case Top => Peek case Peeked(_) => Handle(true) case Handled(_, _, _) => Settle
                                 case Check => CheckTerminate case _ => Join;
    assert (IsWorker(a) || IsTerminator(a)) && Enabled(s, a);
  }

  /** Steps left until the join once the flag is up. */
  ghost function Remaining(s: State): int {
    (match s.worker case Top => 4 case Peeked(_) => 3 case Handled(_, _, _) => 2 case Check => 1 case _ => 0) +
    (match s.terminator case Idle => 3 case FlagSet => 2 case Marked => 1 case Joined => 0)
  }

  ghost function Steps(actions: seq<Action>): nat {
    if actions == [] then 0
    else Steps(actions[..|actions| - 1]) + (if IsWorker(actions[|actions| - 1]) || actions[|actions| - 1].PushMarker?
                                               || actions[|actions| - 1].Join? then 1 else 0)
  }

  /** From the flag on, each step of the worker or of terminate() brings the join nearer and
      a push changes nothing; so there are at most six, however many pushes come between. */
  lemma {:induction false} TerminationIsBounded(states: seq<State>, actions: seq<Action>)
    requires Run(states, actions) && Inv(states[0]) && states[0].doTerminate
    ensures Inv(states[|actions|]) && states[|actions|].doTerminate
    ensures Steps(actions) <= Remaining(states[0]) - Remaining(states[|actions|]) <= 6
  {
    hide Inv;
    if actions == [] {
      RemainingBounds(states[0]);
    } else {
      var n := |actions| - 1;
      TerminationIsBounded(states[..n + 1], actions[..n]);
      StepKeepsInv(states[n], actions[n]);
      RemainingFalls(states[n], actions[n]);
      RemainingBounds(states[0]);
      RemainingBounds(states[n + 1]);
    }
  }

  lemma {:induction false} RemainingBounds(s: State)
    requires Inv(s) && s.doTerminate
    ensures 0 <= Remaining(s) <= 6
  {
  }

  lemma {:induction false} RemainingFalls(s: State, a: Action)
    requires Inv(s) && s.doTerminate && Enabled(s, a)
    ensures Apply(s, a).doTerminate
    ensures Remaining(Apply(s, a)) <= Remaining(s) - (if IsWorker(a) || a.PushMarker? || a.Join? then 1 else 0)
  {
  }

  /** After the join and the drain, every accepted command has left the queue exactly once. */
  lemma {:induction false} JoinedMeansAllAccounted(s: State)
    requires Inv(s) && s.terminator.Joined? && s.queue == []
    ensures s.accepted == Cmds(s.departures) + s.drained && s.worker.Exited?
  {
    assert s.accepted == Cmds(s.departures) + s.drained + [];
  }
}
