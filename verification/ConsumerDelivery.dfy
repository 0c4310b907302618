// Delivery to one Consumer (runtime/runtime.go, enqueue, deliver, stop and
// close) as a transition system: admissions, the delivery goroutine, the
// goroutine that waits for the process, and the owner interleave freely.
module ConsumerDelivery {
  import opened Envelopes
  import opened FanOut

  const PROCESS_EXITED := "process-exited"
  const WRITE_FAILED := "write-failed"

  // Where the delivery goroutine stands: at the top of its loop, in the select,
  // holding an event before each of its two checks, writing it, past a failed write,
  // or between choosing a reason to stop and stopping.
  datatype Phase =
    | Top | Selecting | Received | Checked | Writing | WriteFailed | Stopping(reason: string) | Ended

  // Where the goroutine that waits for the process stands: waiting, past the exit, or
  // between choosing a reason and stopping.
  datatype Waiter = Waiting | Exited | Leaving(reason: string) | Gone

  // `held` is the event taken from the queue and not yet written; it stays when
  // the goroutine ends without writing it. `unreported` is the reason of the
  // stop that published the dead state and has yet to report it. `admitted`,
  // `written` and `reports` are histories.
  datatype State = State(
    queue: seq<EventValue>,
    dead: bool,
    contextDone: bool,
    phase: Phase,
    waiter: Waiter,
    held: seq<EventValue>,
    unreported: seq<string>,
    admitted: seq<EventValue>,
    written: seq<EventValue>,
    reports: seq<string>)

  // A worker whose process started, or one that is dead from the start.
  predicate Initial(s: State) {
    && s.queue == [] && s.held == [] && s.unreported == [] && s.admitted == [] && s.written == [] && s.reports == []
    && (s.dead ==> s.phase == Ended && s.waiter == Gone)
    && (!s.dead ==> s.phase == Top && s.waiter == Waiting)
  }

  // Each test of the context and the stop it leads to are two events, since stop takes
  // the state's lock only when it is called.
  datatype Event =
    | Enqueue(event: EventValue)
    | LoopTop
    | Receive
    | SeeContext
    | SeeDead
    | CheckContext
    | CheckDead
    | WriteDone(ok: bool)
    | CheckFailure
    | DeliveryStops
    | ProcessExits
    | CheckExit
    | WaiterStops
    | Close
    | ContextEnds
    | Report

  // stop: publish the dead state once; only the publisher goes on to report.
  function Stop(s: State, reason: string): State {
    if s.dead then s else s.(dead := true, unreported := if reason != "" then [reason] else [])
  }

  // What a goroutine decides to say, from one look at the context.
  function StopReason(s: State, reason: string): string {
    if s.contextDone then "" else reason
  }

  function Step(s: State, e: Event): State {
    match e
    case Enqueue(event) =>
      var offered := Admit(View({}, "", s.dead, s.queue), event);
      s.(queue := offered.queue, admitted := if offered.fault == None then s.admitted + [event] else s.admitted)
    case LoopTop =>
      if s.phase != Top then s
      else s.(phase := if s.contextDone then Stopping("") else Selecting)
    case Receive =>
      if s.phase == Selecting && s.queue != [] then
        s.(phase := Received, held := [s.queue[0]], queue := s.queue[1..])
      else s
    case SeeContext =>
      if s.phase == Selecting && s.contextDone then s.(phase := Stopping("")) else s
    case SeeDead =>
      if s.phase == Selecting && s.dead then s.(phase := Ended) else s
    case CheckContext =>
      if s.phase != Received then s
      else s.(phase := if s.contextDone then Stopping("") else Checked)
    case CheckDead =>
      if s.phase != Checked then s
      else s.(phase := if s.dead then Ended else Writing)
    case WriteDone(ok) =>
      if s.phase != Writing then s
      else if ok then s.(phase := Top, written := s.written + s.held, held := [])
      else s.(phase := WriteFailed)
    case CheckFailure =>
      if s.phase != WriteFailed then s else s.(phase := Stopping(StopReason(s, WRITE_FAILED)))
    case DeliveryStops =>
      if !s.phase.Stopping? then s else Stop(s, s.phase.reason).(phase := Ended)
    case ProcessExits =>
      if s.waiter != Waiting then s else s.(waiter := Exited)
    case CheckExit =>
      if s.waiter != Exited then s else s.(waiter := Leaving(StopReason(s, PROCESS_EXITED)))
    case WaiterStops =>
      if !s.waiter.Leaving? then s else Stop(s, s.waiter.reason).(waiter := Gone)
    case Close => Stop(s, "")
    case ContextEnds => s.(contextDone := true)
    case Report => s.(reports := s.reports + s.unreported, unreported := [])
  }

  function Run(s: State, events: seq<Event>): State
    decreases |events|
  {
    if events == [] then s else Run(Step(s, events[0]), events[1..])
  }

  // Nothing admitted is lost, reordered or written twice.
  ghost predicate Accounted(s: State) {
    && s.admitted == s.written + s.held + s.queue
    && |s.queue| <= QUEUE_SIZE
    && |s.held| <= 1
    && (s.phase == Top || s.phase == Selecting ==> s.held == [])
  }

  ghost predicate ReportedOnce(s: State) {
    |s.reports| + |s.unreported| <= (if s.dead then 1 else 0)
  }

  ghost predicate Inv(s: State) {
    Accounted(s) && ReportedOnce(s)
  }

  lemma ReceiveKeepsAccount(s: State)
    requires Accounted(s) && s.phase == Selecting && s.queue != []
    ensures Accounted(Step(s, Receive))
  {
    assert s.queue == [s.queue[0]] + s.queue[1..];
    assert s.written + s.held == s.written;
  }

  lemma EnqueueKeepsAccount(s: State, event: EventValue)
    requires Accounted(s)
    ensures Accounted(Step(s, Enqueue(event)))
  {
    assert s.written + s.held + (s.queue + [event]) == s.written + s.held + s.queue + [event];
  }

  lemma WriteKeepsAccount(s: State, ok: bool)
    requires Accounted(s)
    ensures Accounted(Step(s, WriteDone(ok)))
  {
    assert s.written + s.held + [] == s.written + s.held;
  }

  lemma StepKeepsInv(s: State, e: Event)
    requires Inv(s)
    ensures Inv(Step(s, e))
  {
    match e {
      case Enqueue(event) => EnqueueKeepsAccount(s, event);
      case Receive =>
        if s.phase == Selecting && s.queue != [] {
          ReceiveKeepsAccount(s);
        }
      case WriteDone(ok) => WriteKeepsAccount(s, ok);
      case _ =>
    }
  }

  lemma {:induction false} RunKeepsInv(s: State, events: seq<Event>)
    requires Inv(s)
    ensures Inv(Run(s, events))
    decreases |events|
  {
    if events != [] {
      StepKeepsInv(s, events[0]);
      RunKeepsInv(Step(s, events[0]), events[1..]);
    }
  }

  // In every interleaving the events written are an in-order prefix of those
  // admitted, the rest is in the queue except for at most one event in hand, at
  // most 128 are queued, and at most one fault is ever reported.
  lemma DeliveryIsPrefix(start: State, events: seq<Event>)
    requires Initial(start)
    ensures var s := Run(start, events);
            && s.written <= s.admitted
            && |s.queue| <= 128
            && |s.queue| <= |s.admitted| <= |s.written| + 1 + |s.queue|
            && s.queue == s.admitted[|s.admitted| - |s.queue|..]
            && |s.reports| <= 1
            && (s.reports != [] ==> s.dead)
  {
    RunKeepsInv(start, events);
  }

  lemma DeadStep(s: State, e: Event)
    requires Inv(s) && s.dead
    ensures var t := Step(s, e);
            && t.dead && t.admitted == s.admitted
            && ((t.written == s.written && (t.phase == Writing ==> s.phase == Writing && t.held == s.held))
                || (s.phase == Writing && t.phase != Writing && t.written == s.written + s.held))
            && (s.unreported == [] ==> t.unreported == [] && t.reports == s.reports)
  {
  }

  // Once the dead state is published nothing is admitted, and of what was
  // admitted at most the event already in hand is still written.
  lemma {:induction false} DeadAdmitsNothing(s: State, events: seq<Event>)
    requires Inv(s) && s.dead
    ensures var t := Run(s, events);
            && t.dead && t.admitted == s.admitted
            && (t.written == s.written || (s.phase == Writing && t.written == s.written + s.held))
            && (s.unreported == [] ==> t.reports == s.reports)
    decreases |events|
  {
    if events != [] {
      hide Step, Inv;
      StepKeepsInv(s, events[0]);
      DeadStep(s, events[0]);
      DeadAdmitsNothing(Step(s, events[0]), events[1..]);
    }
  }

  // ----- Reports after the end of the context -----

  // A goroutine has seen the context alive, chosen a reason, and not yet stopped.
  predicate Armed(s: State) {
    || (s.phase.Stopping? && s.phase.reason != "")
    || (s.waiter.Leaving? && s.waiter.reason != "")
  }

  // Nothing is left to report, and no goroutine can still publish a reason.
  predicate Quiet(s: State) {
    s.unreported == [] && (s.dead || !Armed(s))
  }

  lemma QuietStep(s: State, e: Event)
    requires s.contextDone && Quiet(s)
    ensures var t := Step(s, e); t.contextDone && Quiet(t) && t.reports == s.reports
  {
  }

  lemma {:induction false} QuietStop(s: State, events: seq<Event>)
    requires s.contextDone && Quiet(s)
    ensures Run(s, events).reports == s.reports
    decreases |events|
  {
    if events != [] {
      hide Step, Quiet;
      QuietStep(s, events[0]);
      QuietStop(Step(s, events[0]), events[1..]);
    }
  }

  // The steps by which a worker that is not quiet reports once more.
  function LastWords(s: State): seq<Event> {
    if s.unreported != [] then [Report]
    else if s.phase.Stopping? && s.phase.reason != "" then [DeliveryStops, Report]
    else [WaiterStops, Report]
  }

  lemma LoudReports(s: State)
    requires !Quiet(s)
    ensures |Run(s, LastWords(s)).reports| > |s.reports|
  {
    var events := LastWords(s);
    if s.unreported == [] {
      assert events[1..] == [Report] && [Report][1..] == [];
      assert Run(s, events) == Run(Step(s, events[0]), [Report]) == Step(Step(s, events[0]), Report);
    } else {
      assert Run(s, events) == Step(s, Report);
    }
  }

  // A worker whose context has ended reports nothing more, in any continuation, exactly
  // when nothing is left to report and either the dead state is already published or no
  // goroutine stands between its check and its stop with a reason.
  lemma QuietExactly(s: State)
    requires s.contextDone
    ensures Quiet(s) <==> forall events :: Run(s, events).reports == s.reports
  {
    if Quiet(s) {
      forall events ensures Run(s, events).reports == s.reports {
        QuietStop(s, events);
      }
    } else {
      LoudReports(s);
      assert Run(s, LastWords(s)).reports != s.reports;
    }
  }

  // It need not be quiet: the waiting goroutine finds the context alive, the context
  // ends, and only then is the exit published and reported.
  lemma ReportAfterContextEnded(start: State)
    requires Initial(start) && !start.dead && !start.contextDone
    ensures var s := Run(start, [ProcessExits, CheckExit, ContextEnds]);
            && s.contextDone && s.reports == [] && s.unreported == [] && !Quiet(s)
            && Run(s, [WaiterStops, Report]).reports == [PROCESS_EXITED]
  {
    var s1 := Step(start, ProcessExits);
    var s2 := Step(s1, CheckExit);
    var s := Step(s2, ContextEnds);
    RunThree(start, ProcessExits, CheckExit, ContextEnds);
    RunTwo(s, WaiterStops, Report);
    assert [] + [PROCESS_EXITED] == [PROCESS_EXITED];
  }

  lemma RunTwo(s: State, a: Event, b: Event)
    ensures Run(s, [a, b]) == Step(Step(s, a), b)
  {
    assert [a, b][1..] == [b] && [b][1..] == [];
    assert Run(Step(Step(s, a), b), []) == Step(Step(s, a), b);
  }

  lemma RunThree(s: State, a: Event, b: Event, c: Event)
    ensures Run(s, [a, b, c]) == Step(Step(Step(s, a), b), c)
  {
    assert [a, b, c][1..] == [b, c];
    RunTwo(Step(s, a), b, c);
  }

  // ----- What a report means -----

  // At k a goroutine looked at the context, found it alive and chose this reason: the
  // delivery goroutine past a failed write, the other past the exit of the process.
  ghost predicate ChosenAt(start: State, events: seq<Event>, k: nat, reason: string) {
    && k < |events|
    && var s := Run(start, events[..k]);
    && !s.contextDone
    && (|| (events[k] == CheckFailure && s.phase == WriteFailed && reason == WRITE_FAILED)
        || (events[k] == CheckExit && s.waiter == Exited && reason == PROCESS_EXITED))
  }

  // The reason is reported, waits to be, or is held by a goroutine about to stop.
  predicate Pending(s: State, reason: string) {
    || reason in s.reports || reason in s.unreported
    || (reason != "" && (s.phase == Stopping(reason) || s.waiter == Leaving(reason)))
  }

  lemma PendingStep(s: State, e: Event, reason: string)
    requires Pending(Step(s, e), reason)
    ensures || Pending(s, reason)
            || (!s.contextDone && e == CheckFailure && s.phase == WriteFailed && reason == WRITE_FAILED)
            || (!s.contextDone && e == CheckExit && s.waiter == Exited && reason == PROCESS_EXITED)
  {
  }

  lemma {:induction false} RunLast(s: State, events: seq<Event>)
    requires events != []
    ensures Run(s, events) == Step(Run(s, events[..|events| - 1]), events[|events| - 1])
    decreases |events|
  {
    if |events| > 1 {
      RunLast(Step(s, events[0]), events[1..]);
      assert events[1..][..|events| - 2] == events[..|events| - 1][1..];
    }
  }

  lemma {:induction false} PendingWasChosen(start: State, events: seq<Event>, reason: string) returns (k: nat)
    requires Initial(start) && Pending(Run(start, events), reason)
    ensures ChosenAt(start, events, k, reason)
    decreases |events|
  {
    hide Step;
    var n := |events| - 1;
    assert events != [] by { NothingPending(start, reason); }
    RunLast(start, events);
    var prefix := events[..n];
    PendingStep(Run(start, prefix), events[n], reason);
    if Pending(Run(start, prefix), reason) {
      k := PendingWasChosen(start, prefix, reason);
      assert prefix[..k] == events[..k];
    } else {
      k := n;
    }
  }

  lemma NothingPending(start: State, reason: string)
    requires Initial(start)
    ensures !Pending(start, reason)
  {
  }

  // Every report names a failed write or an exited process that was found while the
  // context was still alive.
  lemma ReportsWereChosenAlive(start: State, events: seq<Event>, reason: string) returns (k: nat)
    requires Initial(start) && reason in Run(start, events).reports
    ensures ChosenAt(start, events, k, reason)
  {
    k := PendingWasChosen(start, events, reason);
  }

  // ----- Progress -----

  // Which way the delivery goroutine goes, and why; nothing else moves it.
  lemma PhaseMovesOnly(s: State, e: Event)
    ensures var p, q := s.phase, Step(s, e).phase;
            p != q ==>
              || (e == LoopTop && p == Top && q == (if s.contextDone then Stopping("") else Selecting))
              || (e == Receive && p == Selecting && s.queue != [] && q == Received)
              || (e == SeeContext && p == Selecting && s.contextDone && q == Stopping(""))
              || (e == SeeDead && p == Selecting && s.dead && q == Ended)
              || (e == CheckContext && p == Received && q == (if s.contextDone then Stopping("") else Checked))
              || (e == CheckDead && p == Checked && q == (if s.dead then Ended else Writing))
              || (e == WriteDone(true) && p == Writing && q == Top)
              || (e == WriteDone(false) && p == Writing && q == WriteFailed)
              || (e == CheckFailure && p == WriteFailed
                  && q == Stopping(if s.contextDone then "" else "write-failed"))
              || (e == DeliveryStops && p.Stopping? && q == Ended)
  {
  }

  // The way of one event from the queue through the loop to its write.
  function DeliverOne(): seq<Event> {
    [LoopTop, Receive, CheckContext] + [CheckDead, WriteDone(true)]
  }

  // The goroutine is at the top of its loop, and nobody has ended anything.
  predicate Delivering(s: State) {
    s.phase == Top && s.held == [] && !s.contextDone && !s.dead
  }

  lemma OneIsDelivered(s: State)
    requires Delivering(s) && s.queue != []
    ensures var t := Run(s, DeliverOne());
            Delivering(t) && t.written == s.written + [s.queue[0]] && t.queue == s.queue[1..]
            && t.admitted == s.admitted && t.reports == s.reports
  {
    RunThree(s, LoopTop, Receive, CheckContext);
    var t := Run(s, [LoopTop, Receive, CheckContext]);
    RunTwo(t, CheckDead, WriteDone(true));
    RunJoins(s, [LoopTop, Receive, CheckContext], [CheckDead, WriteDone(true)]);
  }

  lemma {:induction false} RunJoins(s: State, a: seq<Event>, b: seq<Event>)
    ensures Run(s, a + b) == Run(Run(s, a), b)
    decreases |a|
  {
    if a == [] {
      assert a + b == b;
    } else {
      hide Step;
      assert (a + b)[1..] == a[1..] + b;
      RunJoins(Step(s, a[0]), a[1..], b);
    }
  }

  // While nobody ends the context or the worker, all that is queued can be written, in order.
  lemma {:induction false} QueueIsWritten(s: State) returns (events: seq<Event>)
    requires Delivering(s)
    ensures var t := Run(s, events);
            Delivering(t) && t.queue == [] && t.written == s.written + s.queue && t.reports == s.reports
    decreases |s.queue|
  {
    if s.queue == [] {
      events := [];
    } else {
      OneIsDelivered(s);
      hide Run, Delivering, DeliverOne;
      var more := QueueIsWritten(Run(s, DeliverOne()));
      RunJoins(s, DeliverOne(), more);
      events := DeliverOne() + more;
      OneAfterAnother(s.written, s.queue);
    }
  }

  lemma OneAfterAnother(written: seq<EventValue>, queue: seq<EventValue>)
    requires queue != []
    ensures written + [queue[0]] + queue[1..] == written + queue
  {
  }

  // A failed write that finds the context alive, in a worker not yet dead, publishes the
  // dead state and reports; so does an exit of the process. With the context ended both
  // are silent.
  lemma FaultIsReported(s: State)
    requires !s.dead && s.reports == [] && s.unreported == []
    ensures s.phase == Writing ==>
              var t := Run(s, [WriteDone(false), CheckFailure, DeliveryStops] + [Report]);
              t.dead && t.phase == Ended && t.reports == (if s.contextDone then [] else ["write-failed"])
    ensures s.waiter == Waiting ==>
              var t := Run(s, [ProcessExits, CheckExit, WaiterStops] + [Report]);
              t.dead && t.waiter == Gone && t.reports == (if s.contextDone then [] else ["process-exited"])
  {
    FourSteps(s, WriteDone(false), CheckFailure, DeliveryStops, Report);
    FourSteps(s, ProcessExits, CheckExit, WaiterStops, Report);
    hide Run;
  }

  lemma FourSteps(s: State, a: Event, b: Event, c: Event, d: Event)
    ensures Run(s, [a, b, c] + [d]) == Step(Step(Step(Step(s, a), b), c), d)
  {
    hide Step;
    RunThree(s, a, b, c);
    RunJoins(s, [a, b, c], [d]);
    RunOnce(Run(s, [a, b, c]), d);
  }

  lemma RunOnce(s: State, e: Event)
    ensures Run(s, [e]) == Step(s, e)
  {
    assert [e][1..] == [];
    assert Run(Step(s, e), []) == Step(s, e);
  }
}
