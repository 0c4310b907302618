// The controller worker of runtime/runtime.go as a transition system: any
// number of callers share one child process through a pending map, a slot for
// one request at a time, a deadline that starts at admission, an interruptible
// pipe write and a reply loop that skips stale replies.
module ControllerProtocol {
  import opened Envelopes
  import opened Bridge
  import opened ReplyMemory

  type Caller = nat
  type Frame = seq<byte>

  // The reader goroutine hands at most this many undelivered child results over.
  const RESPONSE_BUFFER: nat := 16

  datatype Fault =
    | CallerContext | WorkerContext | StartFailed | WriteFailed | BadReply | ControllerExited
    | FromRouter(error: Bridge.Error) | ExplicitReplyRequired

  datatype Result = Result(response: ControlResponse, faults: seq<Fault>)

  datatype Cause = DeadlineCause | CallerCause | WorkerCause

  // Where a call to resolveMode stands. The phases from Sending to Selecting
  // follow the start of the pipe write.
  datatype Phase =
    | Arrived
    | TryingSlot
    | WaitingSlot
    | CheckingCaller
    | CheckingExpiry
    | CheckingTransport
    | CheckingWorker
    | Sending(outcome: Option<bool>)
    | Interrupting(cause: Cause, outcome: Option<bool>)
    | PollingCaller
    | PollingExpiry
    | Selecting
    | Releasing(result: Result)
    | Retiring(result: Result)
    | Finished(result: Result)

  // `sent` counts the bytes of the call's frame the pipe has accepted.
  datatype Call = Call(
    request: ControlRequested, frame: Frame, explicit: bool, expires: nat, cancelled: bool, sent: nat, phase: Phase)

  // Exited: the exit status waits in the `done` channel; Reaped: it was taken.
  datatype Child = Running | Exited | Reaped

  datatype ChildResult = Reply(response: ControlResponse) | Unreadable

  // `starts`, `wire`, `heard`, `markers` and `answered` are history variables: the
  // callers whose write was started, every byte the child's pipe accepted, the replies
  // each caller took from the child, the caller behind each mark of the Router, and the
  // callers remembered as answered, oldest first.
  datatype State = State(
    now: nat,
    deadlineMS: nat,
    contextDone: bool,
    pipeOpen: bool,
    startErr: bool,
    slot: Option<Caller>,
    pending: set<string>,
    calls: map<Caller, Call>,
    responses: seq<ChildResult>,
    readerUp: bool,
    child: Child,
    memory: Memory,
    router: RouterState,
    starts: seq<Caller>,
    wire: Frame,
    heard: set<(Caller, ControlResponse)>,
    markers: seq<Caller>,
    answered: seq<Caller>)

  datatype Event =
    | Arrive(c: Caller, request: ControlRequested, frame: Frame, explicit: bool)
    | CheckArrival(c: Caller)
    | TrySlot(c: Caller)
    | TakeSlot(c: Caller)
    | SlotDeadline(c: Caller)
    | SlotCancelled(c: Caller)
    | SlotWorkerDone(c: Caller)
    | CheckCaller(c: Caller)
    | CheckExpiry(c: Caller)
    | CheckTransport(c: Caller)
    | CheckWorker(c: Caller)
    | WriteBytes(c: Caller, n: nat)
    | WriteReturns(c: Caller, ok: bool)
    | TakeWritten(c: Caller)
    | WriteDeadline(c: Caller)
    | WriteCancelled(c: Caller)
    | WriteWorkerDone(c: Caller)
    | JoinWriter(c: Caller)
    | PollCaller(c: Caller)
    | PollExpiry(c: Caller)
    | TakeReply(c: Caller)
    | TakeExit(c: Caller)
    | ReplyDeadline(c: Caller)
    | ReplyCancelled(c: Caller)
    | ReplyWorkerDone(c: Caller)
    | ReleaseSlot(c: Caller)
    | Retire(c: Caller)
    | Cancel(c: Caller)
    | Tick(ms: nat)
    | ChildSends(item: ChildResult)
    | ReaderStops
    | ChildExits
    | ContextEnds
    | CloseWorker

  // A worker whose process started, or one that failed to start.
  predicate Initial(s: State) {
    && s.calls == map[] && s.slot == None && s.pending == {}
    && s.responses == []
    && s.memory == EMPTY_MEMORY
    && s.router.marks == [] && s.router.resolved == {} && s.router.resolvedOrder == []
    && s.starts == [] && s.wire == [] && s.heard == {} && s.markers == [] && s.answered == []
    && (if s.startErr then s.contextDone && !s.pipeOpen && !s.readerUp && s.child == Reaped
        else s.pipeOpen && s.readerUp && s.child == Running)
    && (forall kind :: kind in s.router.registrations ==>
          ValidRegistration(s.router.registrations[kind]) && s.router.registrations[kind].kind == kind)
  }

  // ----- What a caller decides -----

  // How a call obtains its resolution from the Router.
  datatype Source = Timeout | Unavailable | Candidate(response: ControlResponse)

  // What the returning branch took from the child's channels.
  datatype Taken = Nothing | ReplyTaken | ExitTaken

  // The effect of one branch of resolveMode. `retire` says that the branch
  // records a start error and closes the worker.
  datatype Effect =
    | Stay
    | Go(phase: Phase)
    | Acquire
    | Begin
    | Emit(n: nat)
    | Interrupt(why: Cause)
    | SkipStale(stale: ControlResponse)
    | Answer(source: Source, faults: seq<Fault>, retire: bool, taken: Taken)
    | Release
    | Leave

  predicate HoldsSlot(phase: Phase) {
    || phase.CheckingCaller? || phase.CheckingExpiry? || phase.CheckingTransport? || phase.CheckingWorker?
    || OnWire(phase) || phase.Releasing?
  }

  predicate OnWire(phase: Phase) {
    phase.Sending? || phase.Interrupting? || phase.PollingCaller? || phase.PollingExpiry? || phase.Selecting?
  }

  predicate HasResult(phase: Phase) {
    phase.Releasing? || phase.Retiring? || phase.Finished?
  }

  // On the way to the slot: an entry check, a non-blocking attempt, then a wait.
  function WaitBranch(s: State, call: Call, e: Event): Effect {
    var cancelled := Answer(Timeout, [CallerContext], false, Nothing);
    match call.phase
    case Arrived =>
      if !e.CheckArrival? then Stay
      else if call.cancelled then cancelled
      else Go(TryingSlot)
    case TryingSlot =>
      if !e.TrySlot? then Stay
      else if s.slot == None then Acquire
      else Go(WaitingSlot)
    case WaitingSlot =>
      if e.TakeSlot? && s.slot == None then Acquire
      else if e.SlotDeadline? && s.now >= call.expires then Answer(Timeout, [], false, Nothing)
      else if e.SlotCancelled? && call.cancelled then cancelled
      else if e.SlotWorkerDone? && s.contextDone then Answer(Unavailable, [WorkerContext], false, Nothing)
      else Stay
    case _ => Stay
  }

  // The checks made with the slot held, before the first byte is written.
  function CheckBranch(s: State, call: Call, e: Event): Effect {
    match call.phase
    case CheckingCaller =>
      if !e.CheckCaller? then Stay
      else if call.cancelled then Answer(Timeout, [CallerContext], false, Nothing)
      else Go(CheckingExpiry)
    case CheckingExpiry =>
      if !e.CheckExpiry? then Stay
      else if s.now >= call.expires then Answer(Timeout, [], false, Nothing)
      else Go(CheckingTransport)
    case CheckingTransport =>
      if !e.CheckTransport? then Stay
      else if s.startErr then Answer(Unavailable, [StartFailed], false, Nothing)
      else Go(CheckingWorker)
    case CheckingWorker =>
      if !e.CheckWorker? then Stay
      else if s.contextDone then Answer(Unavailable, [WorkerContext], false, Nothing)
      else Begin
    case _ => Stay
  }

  // The writer goroutine, the select that waits for it, and the interruption
  // that closes the pipe and joins it.
  function WriteBranch(s: State, call: Call, e: Event): Effect {
    match call.phase
    case Sending(outcome) =>
      if e.WriteBytes? && outcome == None && s.pipeOpen && call.sent + e.n <= |call.frame| then Emit(e.n)
      else if e.WriteReturns? && outcome == None && (e.ok ==> call.sent == |call.frame|) then Go(Sending(Some(e.ok)))
      else if e.TakeWritten? && outcome == Some(true) then Go(PollingCaller)
      else if e.TakeWritten? && outcome == Some(false) then Answer(Unavailable, [WriteFailed], true, Nothing)
      else if e.WriteDeadline? && s.now >= call.expires then Interrupt(DeadlineCause)
      else if e.WriteCancelled? && call.cancelled then Interrupt(CallerCause)
      else if e.WriteWorkerDone? && s.contextDone then Interrupt(WorkerCause)
      else Stay
    case Interrupting(cause, outcome) =>
      if e.WriteReturns? && outcome == None && (e.ok ==> call.sent == |call.frame|) then
        Go(Interrupting(cause, Some(e.ok)))
      else if e.JoinWriter? && outcome.Some? then (
        match cause
        case DeadlineCause => Answer(Timeout, [], false, Nothing)
        case CallerCause => Answer(Timeout, [CallerContext], false, Nothing)
        case WorkerCause => Answer(Unavailable, [WorkerContext], false, Nothing))
      else Stay
    case _ => Stay
  }

  // One pass of the reply loop.
  function ReplyBranch(s: State, call: Call, e: Event): Effect {
    match call.phase
    case PollingCaller =>
      if !e.PollCaller? then Stay
      else if call.cancelled then Answer(Timeout, [CallerContext], false, Nothing)
      else Go(PollingExpiry)
    case PollingExpiry =>
      if !e.PollExpiry? then Stay
      else if s.now >= call.expires then Answer(Timeout, [], false, Nothing)
      else Go(Selecting)
    case Selecting =>
      if e.TakeReply? && |s.responses| > 0 then (
        match s.responses[0]
        case Unreadable => Answer(Unavailable, [BadReply], true, ReplyTaken)
        case Reply(response) =>
          if response.actionID != call.request.actionID && response.actionID in s.memory.resolved
          then SkipStale(response)
          else Answer(Candidate(response), [], false, ReplyTaken))
      else if e.TakeExit? && s.child == Exited then Answer(Unavailable, [ControllerExited], true, ExitTaken)
      else if e.ReplyDeadline? && s.now >= call.expires then Answer(Timeout, [], false, Nothing)
      else if e.ReplyCancelled? && call.cancelled then Answer(Timeout, [CallerContext], false, Nothing)
      else if e.ReplyWorkerDone? && s.contextDone then Answer(Unavailable, [WorkerContext], false, Nothing)
      else Stay
    case _ => Stay
  }

  // The deferred releases: first the slot, then the pending entry.
  function LeaveBranch(call: Call, e: Event): Effect {
    if call.phase.Releasing? && e.ReleaseSlot? then Release
    else if call.phase.Retiring? && e.Retire? then Leave
    else Stay
  }

  function Decide(s: State, call: Call, e: Event): Effect {
    if !HoldsSlot(call.phase) && !HasResult(call.phase) then WaitBranch(s, call, e)
    else if HasResult(call.phase) then LeaveBranch(call, e)
    else if call.phase.Sending? || call.phase.Interrupting? then WriteBranch(s, call, e)
    else if OnWire(call.phase) then ReplyBranch(s, call, e)
    else CheckBranch(s, call, e)
  }

  // ----- What the effect does -----

  function SetPhase(s: State, c: Caller, phase: Phase): State
    requires c in s.calls
  {
    s.(calls := s.calls[c := s.calls[c].(phase := phase)])
  }

  function RetireWorker(s: State): State {
    s.(startErr := true, contextDone := true, pipeOpen := false)
  }

  function Rest(responses: seq<ChildResult>): seq<ChildResult> {
    if responses == [] then [] else responses[1..]
  }

  function FromSource(r: RouterState, request: ControlRequested, source: Source): Resolution {
    match source
    case Timeout => TimeoutResponse(r, request)
    case Unavailable => Resolve(r, request, None)
    case Candidate(response) => Resolve(r, request, Some(response))
  }

  // The deferred check of explicit mode joins its fault to the call's own; only
  // a reply naming the action and accepted by the Router satisfies it.
  function ResultOf(call: Call, res: Resolution, source: Source, faults: seq<Fault>): Result {
    var all := faults + (if res.error.Some? then [FromRouter(res.error.value)] else []);
    var explicitReply :=
      source.Candidate? && source.response.actionID == call.request.actionID && res.error.None?;
    Result(res.response, if call.explicit && !explicitReply then all + [ExplicitReplyRequired] else all)
  }

  // Record a start error and close the worker if the branch retires it, resolve
  // with the Router, remember the action if its write was started, and begin to return.
  function DoAnswer(s: State, c: Caller, source: Source, faults: seq<Fault>, retire: bool, taken: Taken): State
    requires c in s.calls
  {
    var call := s.calls[c];
    var res := FromSource(s.router, call.request, source);
    var result := ResultOf(call, res, source, faults);
    s.(startErr := s.startErr || retire,
       contextDone := s.contextDone || retire,
       pipeOpen := s.pipeOpen && !retire,
       responses := if taken == ReplyTaken then Rest(s.responses) else s.responses,
       child := if taken == ExitTaken then Reaped else s.child,
       router := res.router,
       markers := if |res.router.marks| > |s.router.marks| then s.markers + [c] else s.markers,
       memory := if OnWire(call.phase) then Remember(s.memory, call.request.actionID) else s.memory,
       answered := if OnWire(call.phase) then s.answered + [c] else s.answered,
       heard := if source.Candidate? then s.heard + {(c, source.response)} else s.heard,
       calls := s.calls[c := call.(phase := if HoldsSlot(call.phase) then Releasing(result) else Retiring(result))])
  }

  function DoEmit(s: State, c: Caller, n: nat): State
    requires c in s.calls
  {
    var call := s.calls[c];
    if call.sent + n <= |call.frame| then
      s.(wire := s.wire + call.frame[call.sent..call.sent + n],
         calls := s.calls[c := call.(sent := call.sent + n)])
    else s
  }

  function Apply(s: State, c: Caller, effect: Effect): State
    requires c in s.calls
  {
    match effect
    case Stay => s
    case Go(phase) => SetPhase(s, c, phase)
    case Acquire => SetPhase(s.(slot := Some(c)), c, CheckingCaller)
    case Begin => SetPhase(s.(starts := s.starts + [c]), c, Sending(None))
    case Emit(n) => DoEmit(s, c, n)
    case Interrupt(why) =>
      var outcome := if s.calls[c].phase.Sending? then s.calls[c].phase.outcome else None;
      SetPhase(RetireWorker(s), c, Interrupting(why, outcome))
    case SkipStale(stale) =>
      SetPhase(s.(responses := Rest(s.responses), heard := s.heard + {(c, stale)}), c, PollingCaller)
    case Answer(source, faults, retire, taken) =>
      DoAnswer(s, c, source, faults, retire, taken)
    case Release =>
      if s.calls[c].phase.Releasing? then SetPhase(s.(slot := None), c, Retiring(s.calls[c].phase.result)) else s
    case Leave =>
      if s.calls[c].phase.Retiring? then
        SetPhase(s.(pending := s.pending - {s.calls[c].request.actionID}), c, Finished(s.calls[c].phase.result))
      else s
  }

  // LoadOrStore: a caller whose action is already pending returns at once.
  function DoArrive(s: State, c: Caller, request: ControlRequested, frame: Frame, explicit: bool): State {
    if c in s.calls then s
    else
      var call := Call(request, frame, explicit, s.now + s.deadlineMS, false, 0, Arrived);
      if request.actionID in s.pending then
        var faults := [FromRouter(Duplicate)] + (if explicit then [ExplicitReplyRequired] else []);
        var duplicate := Result(ZERO_RESPONSE, faults);
        s.(calls := s.calls[c := call.(phase := Finished(duplicate))])
      else
        s.(calls := s.calls[c := call], pending := s.pending + {request.actionID})
  }

  // Callers' contexts, the clock, the child and the owner of the worker.
  function EnvironmentStep(s: State, e: Event): State {
    match e
    case Cancel(c) =>
      if c in s.calls then s.(calls := s.calls[c := s.calls[c].(cancelled := true)]) else s
    case Tick(ms) => s.(now := s.now + ms)
    case ChildSends(item) =>
      if s.readerUp && |s.responses| < RESPONSE_BUFFER then
        s.(responses := s.responses + [item], readerUp := item.Reply?)
      else s
    case ReaderStops => s.(readerUp := false)
    case ChildExits => if s.child == Running then s.(child := Exited) else s
    case ContextEnds => s.(contextDone := true)
    case CloseWorker => s.(contextDone := true, pipeOpen := false)
    case _ => s
  }

  predicate FromEnvironment(e: Event) {
    || e.Cancel? || e.Tick? || e.ChildSends? || e.ReaderStops? || e.ChildExits? || e.ContextEnds? || e.CloseWorker?
  }

  function Step(s: State, e: Event): State {
    if FromEnvironment(e) then EnvironmentStep(s, e)
    else if e.Arrive? then DoArrive(s, e.c, e.request, e.frame, e.explicit)
    else if e.c in s.calls then Apply(s, e.c, Decide(s, s.calls[e.c], e))
    else s
  }

  // The state after a run of events, in any interleaving. An event that is not
  // enabled changes nothing.
  function Run(s: State, events: seq<Event>): State
    decreases |events|
  {
    if events == [] then s else Run(Step(s, events[0]), events[1..])
  }
}
