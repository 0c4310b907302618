// What holds in every run of the controller worker, whatever the interleaving
// of callers, cancellations, deadlines, child replies and child exit.
module ControllerSafety {
  import opened Envelopes
  import opened Bridge
  import opened ReplyMemory
  import opened ControllerProtocol

  // ----- Invariants -----

  // One caller at a time is between taking the slot and releasing it.
  ghost predicate SlotInv(s: State) {
    && (s.slot.Some? ==> s.slot.value in s.calls)
    && forall c :: c in s.calls ==> (HoldsSlot(s.calls[c].phase) <==> s.slot == Some(c))
  }

  // Callers that have not returned have distinct action IDs, and those are the
  // IDs in the pending map.
  ghost predicate PendingInv(s: State) {
    && (forall c :: c in s.calls && !s.calls[c].phase.Finished? ==> s.calls[c].request.actionID in s.pending)
    && (forall c, d :: c in s.calls && d in s.calls && c != d
          && !s.calls[c].phase.Finished? && !s.calls[d].phase.Finished?
          ==> s.calls[c].request.actionID != s.calls[d].request.actionID)
  }

  // Each pending ID is that of a caller that has not returned.
  ghost predicate HeldInv(s: State) {
    forall id :: id in s.pending ==> exists c :: c in s.calls && Pends(s.calls[c], id)
  }

  predicate Pends(call: Call, id: string) {
    !call.phase.Finished? && call.request.actionID == id
  }

  predicate Complete(call: Call) {
    call.sent == |call.frame|
  }

  // The part of each started frame that the pipe accepted, in slot order.
  function Bytes(starts: seq<Caller>, calls: map<Caller, Call>): Frame
    requires forall c :: c in starts ==> c in calls && calls[c].sent <= |calls[c].frame|
  {
    if starts == [] then []
    else
      var last := starts[|starts| - 1];
      Bytes(starts[..|starts| - 1], calls) + calls[last].frame[..calls[last].sent]
  }

  // A write was interrupted for cause.
  predicate InterruptOk(s: State, call: Call) {
    call.phase.Interrupting? ==>
      && s.contextDone
      && (call.phase.cause == DeadlineCause ==> s.now >= call.expires)
      && (call.phase.cause == CallerCause ==> call.cancelled)
  }

  ghost predicate CallWireInv(s: State, c: Caller)
    requires c in s.calls
  {
    var call := s.calls[c];
    && call.sent <= |call.frame|
    && (call.sent > 0 ==> c in s.starts)
    && (OnWire(call.phase) ==> |s.starts| > 0 && s.starts[|s.starts| - 1] == c)
    && (!OnWire(call.phase) && !HasResult(call.phase) ==> c !in s.starts)
    && (call.phase.CheckingWorker? ==> !s.startErr)
    && (call.phase.Interrupting? ==> s.startErr)
    && InterruptOk(s, call)
    && (call.phase == Sending(Some(true)) ==> Complete(call))
    && (OnWire(call.phase) && !call.phase.Sending? && !call.phase.Interrupting? ==> Complete(call))
  }

  // Started frames are complete, except that the last may still be on its way,
  // or cut short for good.
  ghost predicate StartsInv(s: State) {
    && (forall i, j :: 0 <= i < j < |s.starts| ==> s.starts[i] != s.starts[j])
    && (forall c :: c in s.starts ==> c in s.calls)
    && (forall i :: 0 <= i < |s.starts| - 1 ==> Complete(s.calls[s.starts[i]]))
    && (|s.starts| > 0 ==>
          var last := s.calls[s.starts[|s.starts| - 1]];
          Complete(last) || last.phase.Sending? || s.startErr)
    && (s.startErr ==> !s.pipeOpen && s.contextDone)
  }

  ghost predicate WireInv(s: State) {
    && (forall c :: c in s.calls ==> CallWireInv(s, c))
    && StartsInv(s)
    && s.wire == Bytes(s.starts, s.calls)
  }

  // Every mark of the Router is the single resolution of one call.
  ghost predicate MarkInv(s: State) {
    && RouterInv(s.router)
    && |s.markers| == |s.router.marks|
    && (forall i, j :: 0 <= i < j < |s.markers| ==> s.markers[i] != s.markers[j])
    && (forall i :: 0 <= i < |s.markers| ==>
          && s.markers[i] in s.calls
          && HasResult(s.calls[s.markers[i]].phase)
          && s.calls[s.markers[i]].request.actionID == s.router.marks[i])
  }

  // A fault that makes the Controller unavailable, or a reply the Router rejected.
  predicate IsUnavailability(f: Fault) {
    !f.CallerContext? && !f.ExplicitReplyRequired?
  }

  // The on_timeout default, for a call whose caller cancelled, as a fault says, or else
  // whose deadline passed; or the on_unavailable default beside a fault that says why.
  predicate IsDefault(s: State, call: Call, result: Result) {
    && call.request.kind in s.router.registrations
    && var reg := s.router.registrations[call.request.kind];
    && (|| (&& result.response == DefaultResponse(reg, call.request, reg.onTimeout)
            && (if CallerContext in result.faults then call.cancelled else s.now >= call.expires)
            && (forall f :: f in result.faults ==> !IsUnavailability(f)))
        || (&& result.response == DefaultResponse(reg, call.request, reg.onUnavailable)
            && (exists f :: f in result.faults && IsUnavailability(f))))
  }

  // A reply this caller took from the child, naming its own action and the
  // Controller registered for its kind, after its whole frame was written.
  predicate IsOwnReply(s: State, c: Caller, request: ControlRequested, response: ControlResponse) {
    && (c, response) in s.heard
    && c in s.calls && c in s.starts && Complete(s.calls[c])
    && ValidResponse(response)
    && response.actionID == request.actionID
    && request.kind in s.router.registrations
    && response.controllerID == s.router.registrations[request.kind].controllerID
  }

  predicate ResultOk(s: State, c: Caller, call: Call, result: Result) {
    && (|| (result.response == ZERO_RESPONSE && result.faults != [])
        || IsDefault(s, call, result)
        || (IsOwnReply(s, c, call.request, result.response) && result.faults == []))
    && (call.explicit && result.faults == [] ==> IsOwnReply(s, c, call.request, result.response))
  }

  ghost predicate ReplyInv(s: State) {
    forall c :: c in s.calls && HasResult(s.calls[c].phase) ==>
      ResultOk(s, c, s.calls[c], s.calls[c].phase.result)
  }

  // Another caller's request has the same action ID.
  ghost predicate AnotherCall(s: State, c: Caller, id: string) {
    exists d :: d in s.calls && d != c && s.calls[d].request.actionID == id
  }

  // The zero response: the action is another caller's, or the Router refused the
  // request as invalid or for want of a Controller.
  ghost predicate Refused(s: State, c: Caller, request: ControlRequested, result: Result) {
    && result.response == ZERO_RESPONSE
    && (|| (FromRouter(Duplicate) in result.faults && AnotherCall(s, c, request.actionID))
        || (FromRouter(InvalidRequest) in result.faults && !ValidRequest(request))
        || (FromRouter(NoController) in result.faults && ValidRequest(request)
            && request.kind !in s.router.registrations))
  }

  // What is wrong with a reply to the request, as the error says.
  predicate IsWrong(reg: Registration, request: ControlRequested, reply: ControlResponse, error: Error) {
    var valid := reply.pitotVersion == "1" && reply.typ == "control.response" && reply.controllerID != ""
                 && reply.actionID != "" && (reply.outcome == "allow" || reply.outcome == "deny");
    match error
    case InvalidResponse => !valid
    case ControllerMismatch => valid && reply.controllerID != reg.controllerID
    case ActionMismatch =>
      valid && reply.controllerID == reg.controllerID && reply.actionID != request.actionID
    case _ => false
  }

  // A reply the caller took is wrong in this way.
  ghost predicate RepliedWrongly(s: State, c: Caller, request: ControlRequested, error: Error) {
    && request.kind in s.router.registrations
    && exists reply :: (c, reply) in s.heard
         && IsWrong(s.router.registrations[request.kind], request, reply, error)
  }

  // What each fault in an answer says about the run.
  ghost predicate HasCause(s: State, c: Caller, call: Call, f: Fault) {
    match f
    case CallerContext => call.cancelled
    case WorkerContext => s.contextDone
    case StartFailed => s.startErr
    case WriteFailed => s.startErr && c in s.starts
    case BadReply => s.startErr && c in s.starts && Complete(call)
    case ControllerExited => s.startErr && c in s.starts && Complete(call) && s.child == Reaped
    case ExplicitReplyRequired => call.explicit
    case FromRouter(error) =>
      match error
      case Duplicate => AnotherCall(s, c, call.request.actionID)
      case InvalidRequest => !ValidRequest(call.request)
      case NoController => ValidRequest(call.request) && call.request.kind !in s.router.registrations
      case _ => RepliedWrongly(s, c, call.request, error)
  }

  ghost predicate Excused(s: State, c: Caller, call: Call, result: Result) {
    && (if result.response == ZERO_RESPONSE then Refused(s, c, call.request, result) else ValidRequest(call.request))
    && forall f :: f in result.faults ==> HasCause(s, c, call, f)
  }

  ghost predicate FaultInv(s: State) {
    forall c :: c in s.calls && HasResult(s.calls[c].phase) ==>
      Excused(s, c, s.calls[c], s.calls[c].phase.result)
  }

  ghost predicate Inv(s: State) {
    SlotInv(s) && PendingInv(s) && HeldInv(s) && WireInv(s) && MarkInv(s) && ReplyInv(s) && FaultInv(s)
  }

  // ----- The bytes on the wire depend only on what was sent -----

  lemma {:induction false} BytesUnchanged(starts: seq<Caller>, calls: map<Caller, Call>, calls': map<Caller, Call>)
    requires forall c :: c in starts ==> c in calls && calls[c].sent <= |calls[c].frame|
    requires forall c :: c in starts ==>
               c in calls' && calls'[c].sent == calls[c].sent && calls'[c].frame == calls[c].frame
    ensures Bytes(starts, calls') == Bytes(starts, calls)
  {
    if starts != [] {
      BytesUnchanged(starts[..|starts| - 1], calls, calls');
    }
  }

  // ----- When each effect is decided -----

  predicate GoOk(s: State, call: Call, phase: Phase) {
    && !HasResult(call.phase) && !HasResult(phase)
    && (HoldsSlot(call.phase) <==> HoldsSlot(phase))
    && (OnWire(call.phase) <==> OnWire(phase))
    && (phase.CheckingWorker? ==> !s.startErr)
    && (phase == Sending(Some(true)) ==> Complete(call))
    && (phase.Sending? ==> call.phase.Sending?)
    && (phase.Interrupting? ==> call.phase.Interrupting? && phase.cause == call.phase.cause)
    && (phase.PollingCaller? ==> call.phase == Sending(Some(true)))
    && (phase.PollingExpiry? ==> call.phase.PollingCaller?)
    && (phase.Selecting? ==> call.phase.PollingExpiry?)
  }

  // The fault that makes the Controller unavailable is what this branch saw.
  predicate UnavailableOk(s: State, call: Call, f: Fault, retire: bool, taken: Taken) {
    match f
    case WorkerContext => s.contextDone
    case StartFailed => s.startErr
    case WriteFailed => retire
    case BadReply => retire && call.phase.Selecting?
    case ControllerExited => retire && call.phase.Selecting? && taken == ExitTaken
    case _ => false
  }

  predicate EffectOk(s: State, call: Call, effect: Effect) {
    match effect
    case Stay => true
    case Go(phase) => GoOk(s, call, phase)
    case Acquire => s.slot == None && (call.phase.TryingSlot? || call.phase.WaitingSlot?)
    case Begin => call.phase.CheckingWorker? && !s.contextDone
    case Emit(n) => call.phase == Sending(None) && s.pipeOpen && call.sent + n <= |call.frame|
    case Interrupt(why) =>
      && call.phase.Sending?
      && (why == DeadlineCause ==> s.now >= call.expires)
      && (why == CallerCause ==> call.cancelled)
    case SkipStale(_) => call.phase.Selecting?
    case Answer(source, faults, retire, taken) =>
      && !HasResult(call.phase)
      && (retire ==> OnWire(call.phase))
      && (call.phase.Sending? ==> retire)
      && (source.Candidate? ==> call.phase.Selecting? && faults == [])
      && (source.Unavailable? ==> |faults| == 1 && UnavailableOk(s, call, faults[0], retire, taken))
      && (source.Timeout? ==>
            || (faults == [] && s.now >= call.expires)
            || (faults == [CallerContext] && call.cancelled))
    case Release => call.phase.Releasing?
    case Leave => call.phase.Retiring?
  }

  lemma WaitBranchIsOk(s: State, call: Call, e: Event)
    requires !FromEnvironment(e)
    ensures EffectOk(s, call, WaitBranch(s, call, e))
  {
  }

  lemma CheckBranchIsOk(s: State, call: Call, e: Event)
    requires !FromEnvironment(e)
    ensures EffectOk(s, call, CheckBranch(s, call, e))
  {
  }

  lemma WriteBranchIsOk(s: State, call: Call, e: Event)
    requires !FromEnvironment(e) && InterruptOk(s, call)
    ensures EffectOk(s, call, WriteBranch(s, call, e))
  {
  }

  lemma ReplyBranchIsOk(s: State, call: Call, e: Event)
    requires !FromEnvironment(e)
    ensures EffectOk(s, call, ReplyBranch(s, call, e))
  {
  }

  lemma LeaveBranchIsOk(s: State, call: Call, e: Event)
    requires !FromEnvironment(e)
    ensures EffectOk(s, call, LeaveBranch(call, e))
  {
  }

  lemma DecideIsOk(s: State, call: Call, e: Event)
    requires !FromEnvironment(e) && InterruptOk(s, call)
    ensures EffectOk(s, call, Decide(s, call, e))
  {
    hide WaitBranch, CheckBranch, WriteBranch, ReplyBranch, LeaveBranch, EffectOk;
    WaitBranchIsOk(s, call, e);
    CheckBranchIsOk(s, call, e);
    WriteBranchIsOk(s, call, e);
    ReplyBranchIsOk(s, call, e);
    LeaveBranchIsOk(s, call, e);
  }

  // ----- One caller's turn, as seen by each invariant -----

  // Only c's call changes, and of it only the phase and the bytes sent.
  ghost predicate Touched(s: State, t: State, c: Caller) {
    && c in s.calls && c in t.calls
    && t.calls == s.calls[c := s.calls[c].(phase := t.calls[c].phase, sent := t.calls[c].sent)]
    && t.router.registrations == s.router.registrations
    && t.now == s.now
  }

  ghost predicate SlotTurn(s: State, t: State, c: Caller)
    requires Touched(s, t, c)
  {
    || (t.slot == s.slot && (HoldsSlot(t.calls[c].phase) <==> HoldsSlot(s.calls[c].phase)))
    || (s.slot == None && t.slot == Some(c) && HoldsSlot(t.calls[c].phase))
    || (t.slot == None && HoldsSlot(s.calls[c].phase) && !HoldsSlot(t.calls[c].phase))
  }

  ghost predicate PendingTurn(s: State, t: State, c: Caller)
    requires Touched(s, t, c)
  {
    || (t.pending == s.pending && !s.calls[c].phase.Finished? && !t.calls[c].phase.Finished?)
    || (t.pending == s.pending - {s.calls[c].request.actionID}
        && !s.calls[c].phase.Finished? && t.calls[c].phase.Finished?)
  }

  // The transport flags: unchanged, or retired by a caller on the wire.
  ghost predicate TransportTurn(s: State, t: State, c: Caller)
    requires Touched(s, t, c)
  {
    || (t.startErr == s.startErr && t.pipeOpen == s.pipeOpen && t.contextDone == s.contextDone)
    || (t.startErr && !t.pipeOpen && t.contextDone && OnWire(s.calls[c].phase))
  }

  ghost predicate WireTurn(s: State, t: State, c: Caller)
    requires Touched(s, t, c)
  {
    && t.starts == s.starts && t.wire == s.wire
    && t.calls[c].sent == s.calls[c].sent
    && TransportTurn(s, t, c)
    && (CallWireInv(s, c) && StartsInv(s) ==>
          && CallWireInv(t, c)
          && (c in s.starts && c == s.starts[|s.starts| - 1] ==>
                Complete(t.calls[c]) || t.calls[c].phase.Sending? || t.startErr))
  }

  ghost predicate MarkTurn(s: State, t: State, c: Caller)
    requires Touched(s, t, c)
  {
    && (HasResult(s.calls[c].phase) ==> HasResult(t.calls[c].phase))
    && (|| (t.router == s.router && t.markers == s.markers)
        || (&& !HasResult(s.calls[c].phase) && HasResult(t.calls[c].phase)
            && t.router.marks == s.router.marks + [s.calls[c].request.actionID]
            && t.markers == s.markers + [c]
            && (RouterInv(s.router) ==> RouterInv(t.router))))
  }

  ghost predicate ReplyTurn(s: State, t: State, c: Caller)
    requires Touched(s, t, c)
  {
    && s.heard <= t.heard
    && (forall d :: d in s.starts ==> d in t.starts)
    && (HasResult(t.calls[c].phase) ==>
          || (HasResult(s.calls[c].phase) && t.calls[c].phase.result == s.calls[c].phase.result
              && t.calls[c].sent == s.calls[c].sent)
          || (RouterInv(s.router) && CallWireInv(s, c) ==> ResultOk(t, c, t.calls[c], t.calls[c].phase.result)))
  }

  // What an answer's faults speak of never ceases to hold.
  ghost predicate FaultTurn(s: State, t: State, c: Caller)
    requires Touched(s, t, c)
  {
    && s.heard <= t.heard
    && (forall d :: d in s.starts ==> d in t.starts)
    && (s.startErr ==> t.startErr) && (s.contextDone ==> t.contextDone) && (s.child == Reaped ==> t.child == Reaped)
    && (HasResult(t.calls[c].phase) ==>
          || (HasResult(s.calls[c].phase) && t.calls[c].phase.result == s.calls[c].phase.result
              && t.calls[c].sent == s.calls[c].sent)
          || (MarkInv(s) && CallWireInv(s, c) ==> Excused(t, c, t.calls[c], t.calls[c].phase.result)))
  }

  lemma SlotKept(s: State, t: State, c: Caller)
    requires Touched(s, t, c) && SlotTurn(s, t, c) && SlotInv(s)
    ensures SlotInv(t)
  {
  }

  lemma PendingKept(s: State, t: State, c: Caller)
    requires Touched(s, t, c) && PendingTurn(s, t, c) && PendingInv(s)
    ensures PendingInv(t)
  {
  }

  lemma HeldKept(s: State, t: State, c: Caller)
    requires Touched(s, t, c) && PendingTurn(s, t, c) && HeldInv(s)
    ensures HeldInv(t)
  {
    forall id | id in t.pending ensures exists d :: d in t.calls && Pends(t.calls[d], id) {
      var d :| d in s.calls && Pends(s.calls[d], id);
      assert d in t.calls && Pends(t.calls[d], id);
    }
  }

  lemma StartsKept(s: State, t: State, c: Caller)
    requires Touched(s, t, c) && WireTurn(s, t, c) && WireInv(s)
    ensures StartsInv(t)
  {
    assert CallWireInv(s, c);
  }

  lemma CallsKept(s: State, t: State, c: Caller, d: Caller)
    requires Touched(s, t, c) && WireTurn(s, t, c) && WireInv(s) && SlotInv(s) && d in t.calls
    ensures CallWireInv(t, d)
  {
    assert CallWireInv(s, c) && CallWireInv(s, d);
    hide StartsInv;
  }

  lemma WireKept(s: State, t: State, c: Caller)
    requires Touched(s, t, c) && WireTurn(s, t, c) && WireInv(s) && SlotInv(s)
    ensures WireInv(t)
  {
    StartsKept(s, t, c);
    forall d | d in t.calls ensures CallWireInv(t, d) {
      CallsKept(s, t, c, d);
    }
    BytesUnchanged(s.starts, s.calls, t.calls);
    hide StartsInv, CallWireInv;
  }

  lemma MarkKept(s: State, t: State, c: Caller)
    requires Touched(s, t, c) && MarkTurn(s, t, c) && MarkInv(s)
    ensures MarkInv(t)
  {
  }

  lemma ReplyKept(s: State, t: State, c: Caller)
    requires Touched(s, t, c) && ReplyTurn(s, t, c) && ReplyInv(s) && RouterInv(s.router) && CallWireInv(s, c)
    ensures ReplyInv(t)
  {
  }

  // A cause in s is one in t, for a call that t has with the same request and bytes sent.
  lemma CauseKept(s: State, t: State, c: Caller, call: Call, call': Call, f: Fault)
    requires s.heard <= t.heard && (forall d :: d in s.starts ==> d in t.starts)
    requires (s.startErr ==> t.startErr) && (s.contextDone ==> t.contextDone)
    requires s.child == Reaped ==> t.child == Reaped
    requires forall d :: d in s.calls ==> d in t.calls && t.calls[d].request == s.calls[d].request
    requires t.router.registrations == s.router.registrations
    requires call'.request == call.request && call'.explicit == call.explicit && call'.frame == call.frame
    requires call'.sent == call.sent && (call.cancelled ==> call'.cancelled)
    requires HasCause(s, c, call, f)
    ensures HasCause(t, c, call', f)
  {
    hide IsWrong, ValidRequest;
  }

  lemma ExcuseKept(s: State, t: State, c: Caller, call: Call, call': Call, result: Result)
    requires s.heard <= t.heard && (forall d :: d in s.starts ==> d in t.starts)
    requires (s.startErr ==> t.startErr) && (s.contextDone ==> t.contextDone)
    requires s.child == Reaped ==> t.child == Reaped
    requires forall d :: d in s.calls ==> d in t.calls && t.calls[d].request == s.calls[d].request
    requires t.router.registrations == s.router.registrations
    requires call'.request == call.request && call'.explicit == call.explicit && call'.frame == call.frame
    requires call'.sent == call.sent && (call.cancelled ==> call'.cancelled)
    requires Excused(s, c, call, result)
    ensures Excused(t, c, call', result)
  {
    hide HasCause, ValidRequest;
    forall f | f in result.faults ensures HasCause(t, c, call', f) {
      CauseKept(s, t, c, call, call', f);
    }
  }

  lemma FaultsKept(s: State, t: State, c: Caller)
    requires Touched(s, t, c) && FaultTurn(s, t, c) && FaultInv(s) && MarkInv(s) && CallWireInv(s, c)
    ensures FaultInv(t)
  {
    hide Excused, MarkInv, CallWireInv;
    forall d | d in t.calls && HasResult(t.calls[d].phase) ensures Excused(t, d, t.calls[d], t.calls[d].phase.result) {
      if HasResult(s.calls[d].phase) && t.calls[d].phase.result == s.calls[d].phase.result
         && t.calls[d].sent == s.calls[d].sent {
        ExcuseKept(s, t, d, s.calls[d], t.calls[d], t.calls[d].phase.result);
      }
    }
  }

  // ----- Each effect is such a turn -----

  ghost predicate Turn(s: State, t: State, c: Caller) {
    && Touched(s, t, c) && SlotTurn(s, t, c) && PendingTurn(s, t, c) && MarkTurn(s, t, c) && ReplyTurn(s, t, c)
    && FaultTurn(s, t, c)
  }

  lemma GoIsTurn(s: State, c: Caller, effect: Effect)
    requires effect.Go? && c in s.calls && EffectOk(s, s.calls[c], effect)
    ensures Turn(s, Apply(s, c, effect), c) && WireTurn(s, Apply(s, c, effect), c)
  {
  }

  lemma AcquireIsTurn(s: State, c: Caller, effect: Effect)
    requires effect.Acquire? && c in s.calls && EffectOk(s, s.calls[c], effect)
    ensures Turn(s, Apply(s, c, effect), c) && WireTurn(s, Apply(s, c, effect), c)
  {
  }

  lemma InterruptIsTurn(s: State, c: Caller, effect: Effect)
    requires effect.Interrupt? && c in s.calls && EffectOk(s, s.calls[c], effect)
    ensures Turn(s, Apply(s, c, effect), c) && WireTurn(s, Apply(s, c, effect), c)
  {
  }

  lemma SkipStaleIsTurn(s: State, c: Caller, effect: Effect)
    requires effect.SkipStale? && c in s.calls && EffectOk(s, s.calls[c], effect)
    ensures Turn(s, Apply(s, c, effect), c) && WireTurn(s, Apply(s, c, effect), c)
  {
  }

  lemma ReleaseIsTurn(s: State, c: Caller, effect: Effect)
    requires effect.Release? && c in s.calls && EffectOk(s, s.calls[c], effect)
    ensures Turn(s, Apply(s, c, effect), c) && WireTurn(s, Apply(s, c, effect), c)
  {
  }

  lemma LeaveIsTurn(s: State, c: Caller, effect: Effect)
    requires effect.Leave? && c in s.calls && EffectOk(s, s.calls[c], effect)
    ensures Turn(s, Apply(s, c, effect), c) && WireTurn(s, Apply(s, c, effect), c)
  {
  }

  lemma BeginIsTurn(s: State, c: Caller, effect: Effect)
    requires effect.Begin? && c in s.calls && EffectOk(s, s.calls[c], effect)
    ensures Turn(s, Apply(s, c, effect), c)
  {
  }

  lemma EmitIsTurn(s: State, c: Caller, effect: Effect)
    requires effect.Emit? && c in s.calls && EffectOk(s, s.calls[c], effect)
    ensures Turn(s, Apply(s, c, effect), c)
  {
  }

  // The first byte is written with no earlier frame incomplete.
  lemma BeginKeepsStarts(s: State, c: Caller, effect: Effect)
    requires effect.Begin? && c in s.calls && EffectOk(s, s.calls[c], effect)
    requires WireInv(s) && SlotInv(s)
    ensures StartsInv(Apply(s, c, effect))
  {
    assert CallWireInv(s, c);
  }

  lemma BeginKeepsWire(s: State, c: Caller, effect: Effect)
    requires effect.Begin? && c in s.calls && EffectOk(s, s.calls[c], effect)
    requires WireInv(s) && SlotInv(s)
    ensures WireInv(Apply(s, c, effect))
  {
    var t := Apply(s, c, effect);
    BeginKeepsStarts(s, c, effect);
    assert CallWireInv(s, c);
    forall d | d in t.calls ensures CallWireInv(t, d) {
      assert CallWireInv(s, d);
    }
    BytesUnchanged(s.starts, s.calls, t.calls);
    assert t.starts[..|t.starts| - 1] == s.starts;
    assert t.calls[c].frame[..t.calls[c].sent] == [];
  }

  lemma EmitKeepsStarts(s: State, c: Caller, effect: Effect)
    requires effect.Emit? && c in s.calls && EffectOk(s, s.calls[c], effect)
    requires WireInv(s) && SlotInv(s)
    ensures StartsInv(Apply(s, c, effect))
  {
    assert CallWireInv(s, c);
  }

  lemma EmitKeepsCalls(s: State, c: Caller, effect: Effect)
    requires effect.Emit? && c in s.calls && EffectOk(s, s.calls[c], effect)
    requires WireInv(s)
    ensures forall d :: d in Apply(s, c, effect).calls ==> CallWireInv(Apply(s, c, effect), d)
  {
    assert CallWireInv(s, c);
  }

  lemma LastFrameGrows(s: State, t: State, c: Caller, more: Frame)
    requires |s.starts| > 0 && s.starts[|s.starts| - 1] == c && t.starts == s.starts
    requires StartsInv(s) && (forall d :: d in s.calls ==> s.calls[d].sent <= |s.calls[d].frame|)
    requires c in t.calls && t.calls == s.calls[c := s.calls[c].(sent := t.calls[c].sent)]
    requires t.calls[c].sent == s.calls[c].sent + |more| <= |s.calls[c].frame|
    requires more == s.calls[c].frame[s.calls[c].sent..t.calls[c].sent]
    ensures forall d :: d in t.starts ==> d in t.calls && t.calls[d].sent <= |t.calls[d].frame|
    ensures Bytes(t.starts, t.calls) == Bytes(s.starts, s.calls) + more
  {
    BytesUnchanged(s.starts[..|s.starts| - 1], s.calls, t.calls);
    var frame := s.calls[c].frame;
    assert frame[..t.calls[c].sent] == frame[..s.calls[c].sent] + more;
  }

  lemma EmitKeepsWire(s: State, c: Caller, effect: Effect)
    requires effect.Emit? && c in s.calls && EffectOk(s, s.calls[c], effect)
    requires WireInv(s) && SlotInv(s)
    ensures WireInv(Apply(s, c, effect))
  {
    var t := Apply(s, c, effect);
    EmitKeepsStarts(s, c, effect);
    EmitKeepsCalls(s, c, effect);
    assert CallWireInv(s, c);
    var frame := s.calls[c].frame;
    var more := frame[s.calls[c].sent..t.calls[c].sent];
    LastFrameGrows(s, t, c, more);
    assert t.wire == s.wire + more;
  }

  // The Router is asked once: it either refuses and stays as it is, or marks
  // the request's own ID.
  lemma SourceMarksOnce(r: RouterState, request: ControlRequested, source: Source)
    requires RouterInv(r)
    ensures var res := FromSource(r, request, source);
            && RouterInv(res.router)
            && res.router.registrations == r.registrations
            && (res.router == r || res.router.marks == r.marks + [request.actionID])
  {
    if Refusal(r, request).None? {
      MarkKeepsInv(r, request.actionID);
    }
  }

  // What a source can yield: a refusal with no response, the default that
  // belongs to it, or the candidate itself.
  lemma SourceOutcome(r: RouterState, request: ControlRequested, source: Source)
    requires RouterInv(r)
    ensures var res := FromSource(r, request, source);
            || (res.response == ZERO_RESPONSE && res.error.Some?)
            || (&& request.kind in r.registrations
                && var reg := r.registrations[request.kind];
                && res.response
                   == DefaultResponse(reg, request, if source.Timeout? then reg.onTimeout else reg.onUnavailable)
                && (res.error.Some? <==> source.Candidate?))
            || (&& source.Candidate? && res.response == source.response && res.error.None?
                && ValidResponse(source.response)
                && source.response.actionID == request.actionID
                && request.kind in r.registrations
                && source.response.controllerID == r.registrations[request.kind].controllerID)
  {
  }

  lemma ResultFaults(call: Call, res: Resolution, source: Source, faults: seq<Fault>)
    ensures var result := ResultOf(call, res, source, faults);
            && result.response == res.response
            && (forall f :: f in faults ==> f in result.faults)
            && (res.error.Some? ==> FromRouter(res.error.value) in result.faults)
            && (forall f :: f in result.faults ==>
                  || f in faults || (f == ExplicitReplyRequired && call.explicit)
                  || (res.error.Some? && f == FromRouter(res.error.value)))
            && (res.error.None? && source.Candidate? && source.response.actionID == call.request.actionID
                ==> result.faults == faults)
            && (call.explicit && result.faults == [] ==> source.Candidate? && res.error.None?)
  {
    var all := faults + (if res.error.Some? then [FromRouter(res.error.value)] else []);
    if res.error.Some? {
      assert all[|faults|] == FromRouter(res.error.value);
    }
  }

  // What the caller's own answer leaves in the state.
  ghost predicate Answered(s: State, t: State, c: Caller, effect: Effect)
    requires effect.Answer? && c in s.calls
  {
    var call := s.calls[c];
    && c in t.calls && t.calls[c] == call.(phase := t.calls[c].phase)
    && HasResult(t.calls[c].phase)
    && t.calls[c].phase.result
       == ResultOf(call, FromSource(s.router, call.request, effect.source), effect.source, effect.faults)
    && t.now == s.now && t.starts == s.starts
    && t.router.registrations == s.router.registrations
    && (effect.source.Candidate? ==> (c, effect.source.response) in t.heard)
    && t.calls.Keys == s.calls.Keys && (forall d :: d in s.calls ==> t.calls[d].request == s.calls[d].request)
    && (s.startErr || effect.retire ==> t.startErr) && (s.contextDone ==> t.contextDone)
    && (effect.taken == ExitTaken ==> t.child == Reaped)
  }

  lemma AnswerShape(s: State, c: Caller, effect: Effect)
    requires effect.Answer? && c in s.calls && RouterInv(s.router)
    ensures Answered(s, Apply(s, c, effect), c, effect)
  {
    hide FromSource, ResultOf, RouterInv;
    SourceMarksOnce(s.router, s.calls[c].request, effect.source);
  }

  lemma AnsweredIsOk(s: State, t: State, c: Caller, effect: Effect)
    requires effect.Answer? && c in s.calls && EffectOk(s, s.calls[c], effect)
    requires RouterInv(s.router) && CallWireInv(s, c) && Answered(s, t, c, effect)
    ensures ResultOk(t, c, t.calls[c], t.calls[c].phase.result)
  {
    hide FromSource, ResultOf, RouterInv;
    var call := s.calls[c];
    var res := FromSource(s.router, call.request, effect.source);
    SourceOutcome(s.router, call.request, effect.source);
    ResultFaults(call, res, effect.source, effect.faults);
    if effect.source.Unavailable? {
      assert effect.faults[0] in effect.faults;
    }
  }

  lemma AnswerResultIsOk(s: State, c: Caller, effect: Effect)
    requires effect.Answer? && c in s.calls && EffectOk(s, s.calls[c], effect)
    requires RouterInv(s.router) && CallWireInv(s, c)
    ensures var t := Apply(s, c, effect);
            c in t.calls && HasResult(t.calls[c].phase) && ResultOk(t, c, t.calls[c], t.calls[c].phase.result)
  {
    hide Apply, EffectOk, RouterInv, CallWireInv, ResultOk;
    AnswerShape(s, c, effect);
    AnsweredIsOk(s, Apply(s, c, effect), c, effect);
  }

  // An ID in the Router's map was marked for another caller's request.
  lemma ResolvedForAnother(s: State, c: Caller)
    requires MarkInv(s) && c in s.calls && !HasResult(s.calls[c].phase)
    requires s.calls[c].request.actionID in s.router.resolved
    ensures AnotherCall(s, c, s.calls[c].request.actionID)
  {
    var id := s.calls[c].request.actionID;
    var k :| 0 <= k < |s.router.resolvedOrder| && s.router.resolvedOrder[k] == id;
    var i := k + |s.router.marks| - |Recent(s.router.marks)|;
    assert s.router.marks[i] == id;
    var d := s.markers[i];
    assert d in s.calls && d != c && s.calls[d].request.actionID == id;
  }

  // The Router's error is a refusal, or tells how the candidate is wrong.
  lemma SourceError(r: RouterState, request: ControlRequested, source: Source)
    ensures var res := FromSource(r, request, source);
            match res.error
            case None => ValidRequest(request) && res.response != ZERO_RESPONSE
            case Some(error) =>
              match error
              case Duplicate => request.actionID in r.resolved && res.response == ZERO_RESPONSE
              case InvalidRequest => !ValidRequest(request) && res.response == ZERO_RESPONSE
              case NoController =>
                ValidRequest(request) && request.kind !in r.registrations && res.response == ZERO_RESPONSE
              case _ =>
                && ValidRequest(request) && res.response != ZERO_RESPONSE
                && source.Candidate? && request.kind in r.registrations
                && IsWrong(r.registrations[request.kind], request, source.response, error)
  {
  }

  lemma AnsweredIsExcused(s: State, t: State, c: Caller, effect: Effect)
    requires effect.Answer? && c in s.calls && EffectOk(s, s.calls[c], effect)
    requires MarkInv(s) && CallWireInv(s, c) && Answered(s, t, c, effect)
    ensures Excused(t, c, t.calls[c], t.calls[c].phase.result)
  {
    hide FromSource, ResultOf, RouterInv, IsWrong, MarkInv, ValidRequest, IsUnavailability;
    var call := s.calls[c];
    var res := FromSource(s.router, call.request, effect.source);
    SourceError(s.router, call.request, effect.source);
    ResultFaults(call, res, effect.source, effect.faults);
    if call.request.actionID in s.router.resolved {
      ResolvedForAnother(s, c);
    }
  }

  lemma AnswerFaultsAreExcused(s: State, c: Caller, effect: Effect)
    requires effect.Answer? && c in s.calls && EffectOk(s, s.calls[c], effect)
    requires MarkInv(s) && CallWireInv(s, c)
    ensures var t := Apply(s, c, effect);
            c in t.calls && HasResult(t.calls[c].phase) && Excused(t, c, t.calls[c], t.calls[c].phase.result)
  {
    assert RouterInv(s.router);
    hide Apply, EffectOk, RouterInv, CallWireInv, Excused, MarkInv;
    AnswerShape(s, c, effect);
    AnsweredIsExcused(s, Apply(s, c, effect), c, effect);
  }

  lemma AnswerIsFaultTurn(s: State, c: Caller, effect: Effect)
    requires effect.Answer? && c in s.calls && EffectOk(s, s.calls[c], effect)
    requires MarkInv(s) && CallWireInv(s, c)
    ensures Touched(s, Apply(s, c, effect), c) && FaultTurn(s, Apply(s, c, effect), c)
  {
    AnswerFaultsAreExcused(s, c, effect);
    assert RouterInv(s.router);
    SourceMarksOnce(s.router, s.calls[c].request, effect.source);
    hide FromSource, ResultOf, Excused, RouterInv, MarkInv, CallWireInv, EffectOk;
  }

  lemma AnswerIsReplyTurn(s: State, c: Caller, effect: Effect)
    requires effect.Answer? && c in s.calls && EffectOk(s, s.calls[c], effect)
    requires RouterInv(s.router) && CallWireInv(s, c)
    ensures Touched(s, Apply(s, c, effect), c) && ReplyTurn(s, Apply(s, c, effect), c)
  {
    AnswerResultIsOk(s, c, effect);
    SourceMarksOnce(s.router, s.calls[c].request, effect.source);
    hide FromSource, ResultOf, ResultOk, RouterInv, CallWireInv, EffectOk;
  }

  lemma AnswerIsMarkTurn(s: State, c: Caller, effect: Effect)
    requires effect.Answer? && c in s.calls && EffectOk(s, s.calls[c], effect)
    requires RouterInv(s.router)
    ensures Touched(s, Apply(s, c, effect), c) && MarkTurn(s, Apply(s, c, effect), c)
  {
    SourceMarksOnce(s.router, s.calls[c].request, effect.source);
    hide FromSource, ResultOf, RouterInv;
  }

  lemma AnswerIsWireTurn(s: State, c: Caller, effect: Effect)
    requires effect.Answer? && c in s.calls && EffectOk(s, s.calls[c], effect)
    requires RouterInv(s.router)
    ensures Touched(s, Apply(s, c, effect), c) && WireTurn(s, Apply(s, c, effect), c)
  {
    SourceMarksOnce(s.router, s.calls[c].request, effect.source);
    hide FromSource, ResultOf, RouterInv;
  }

  lemma AnswerIsTurn(s: State, c: Caller, effect: Effect)
    requires effect.Answer? && c in s.calls && EffectOk(s, s.calls[c], effect)
    requires MarkInv(s) && CallWireInv(s, c)
    ensures Turn(s, Apply(s, c, effect), c) && WireTurn(s, Apply(s, c, effect), c)
  {
    AnswerIsMarkTurn(s, c, effect);
    AnswerIsWireTurn(s, c, effect);
    AnswerIsReplyTurn(s, c, effect);
    AnswerIsFaultTurn(s, c, effect);
    hide FromSource, ResultOf, MarkInv, CallWireInv, MarkTurn, ReplyTurn, FaultTurn, WireTurn, Touched;
  }

  lemma ApplyKeepsInv(s: State, c: Caller, effect: Effect)
    requires c in s.calls && EffectOk(s, s.calls[c], effect) && Inv(s)
    ensures Inv(Apply(s, c, effect))
  {
    hide Apply, EffectOk, SlotInv, PendingInv, HeldInv, MarkInv, ReplyInv, FaultInv, CallWireInv, StartsInv;
    hide SlotTurn, PendingTurn, MarkTurn, ReplyTurn, FaultTurn, WireTurn, Touched;
    if effect.Stay? {
      StayIsStill(s, c, effect);
    } else {
      var t := Apply(s, c, effect);
      InvFacts(s, c);
      match effect {
        case Go(_) => GoIsTurn(s, c, effect);
        case Acquire => AcquireIsTurn(s, c, effect);
        case Begin => BeginIsTurn(s, c, effect); BeginKeepsWire(s, c, effect);
        case Emit(_) => EmitIsTurn(s, c, effect); EmitKeepsWire(s, c, effect);
        case Interrupt(_) => InterruptIsTurn(s, c, effect);
        case SkipStale(_) => SkipStaleIsTurn(s, c, effect);
        case Answer(_, _, _, _) => AnswerIsTurn(s, c, effect);
        case Release => ReleaseIsTurn(s, c, effect);
        case Leave => LeaveIsTurn(s, c, effect);
      }
      SlotKept(s, t, c);
      PendingKept(s, t, c);
      HeldKept(s, t, c);
      FaultsKept(s, t, c);
      MarkKept(s, t, c);
      ReplyKept(s, t, c);
      if !effect.Begin? && !effect.Emit? {
        WireKept(s, t, c);
      }
    }
  }

  lemma StayIsStill(s: State, c: Caller, effect: Effect)
    requires effect.Stay? && c in s.calls
    ensures Apply(s, c, effect) == s
  {
  }

  lemma InvFacts(s: State, c: Caller)
    requires Inv(s) && c in s.calls
    ensures RouterInv(s.router) && MarkInv(s) && CallWireInv(s, c) && InterruptOk(s, s.calls[c])
  {
  }

  // ----- Arrivals and the environment -----

  // A new call is in phase Arrived under a fresh ID, or has already returned.
  ghost predicate Arrival(s: State, t: State, c: Caller) {
    && c !in s.calls && c in t.calls && t.calls == s.calls[c := t.calls[c]]
    && t == s.(calls := t.calls, pending := t.pending)
    && t.calls[c].sent == 0
    && (|| (&& t.calls[c].phase.Arrived? && t.calls[c].request.actionID !in s.pending
            && t.pending == s.pending + {t.calls[c].request.actionID})
        || (&& t.calls[c].phase.Finished? && t.pending == s.pending
            && t.calls[c].request.actionID in s.pending
            && t.calls[c].phase.result
               == Result(ZERO_RESPONSE,
                         [FromRouter(Duplicate)] + (if t.calls[c].explicit then [ExplicitReplyRequired] else []))))
  }

  lemma ArriveIsArrival(s: State, c: Caller, request: ControlRequested, frame: Frame, explicit: bool)
    requires c !in s.calls
    ensures Arrival(s, DoArrive(s, c, request, frame, explicit), c)
  {
  }

  lemma ArrivalKeepsSlotAndPending(s: State, t: State, c: Caller)
    requires Arrival(s, t, c) && SlotInv(s) && PendingInv(s)
    ensures SlotInv(t) && PendingInv(t)
  {
  }

  lemma ArrivalKeepsHeld(s: State, t: State, c: Caller)
    requires Arrival(s, t, c) && HeldInv(s)
    ensures HeldInv(t)
  {
    forall id | id in t.pending ensures exists d :: d in t.calls && Pends(t.calls[d], id) {
      if id in s.pending {
        var d :| d in s.calls && Pends(s.calls[d], id);
        assert d in t.calls && Pends(t.calls[d], id);
      } else {
        assert Pends(t.calls[c], id);
      }
    }
  }

  lemma ArrivalIsExcused(s: State, t: State, c: Caller)
    requires Arrival(s, t, c) && HeldInv(s) && HasResult(t.calls[c].phase)
    ensures Excused(t, c, t.calls[c], t.calls[c].phase.result)
  {
    var call := t.calls[c];
    var d :| d in s.calls && Pends(s.calls[d], call.request.actionID);
    assert d in t.calls && d != c && t.calls[d].request.actionID == call.request.actionID;
    assert AnotherCall(t, c, call.request.actionID);
    assert call.phase.result.faults[0] == FromRouter(Duplicate);
  }

  lemma ArrivalKeepsFaults(s: State, t: State, c: Caller)
    requires Arrival(s, t, c) && HeldInv(s) && FaultInv(s)
    ensures FaultInv(t)
  {
    hide Excused, HeldInv;
    forall d | d in t.calls && HasResult(t.calls[d].phase) ensures Excused(t, d, t.calls[d], t.calls[d].phase.result) {
      if d == c {
        ArrivalIsExcused(s, t, c);
      } else {
        ExcuseKept(s, t, d, s.calls[d], t.calls[d], t.calls[d].phase.result);
      }
    }
  }

  lemma ArrivalKeepsWire(s: State, t: State, c: Caller)
    requires Arrival(s, t, c) && WireInv(s)
    ensures WireInv(t)
  {
    BytesUnchanged(s.starts, s.calls, t.calls);
    forall d | d in t.calls ensures CallWireInv(t, d) {
      assert d != c ==> CallWireInv(s, d);
    }
  }

  lemma ArrivalKeepsMarksAndReplies(s: State, t: State, c: Caller)
    requires Arrival(s, t, c) && MarkInv(s) && ReplyInv(s)
    ensures MarkInv(t) && ReplyInv(t)
  {
  }

  // The environment can set cancellation flags, end the worker's context and
  // close the pipe; it touches no other state that the invariants read.
  ghost predicate Outside(s: State, t: State) {
    && t.slot == s.slot && t.pending == s.pending && t.startErr == s.startErr
    && (t.pipeOpen ==> s.pipeOpen) && (s.contextDone ==> t.contextDone) && (s.child == Reaped ==> t.child == Reaped)
    && t.router == s.router && t.starts == s.starts && t.wire == s.wire && t.heard == s.heard && t.markers == s.markers
    && t.calls.Keys == s.calls.Keys
    && s.now <= t.now
    && (forall c :: c in s.calls ==>
          && t.calls[c] == s.calls[c].(cancelled := t.calls[c].cancelled)
          && (s.calls[c].cancelled ==> t.calls[c].cancelled))
  }

  lemma EnvironmentIsOutside(s: State, e: Event)
    ensures Outside(s, EnvironmentStep(s, e))
  {
  }

  lemma OutsideKeepsSlotAndPending(s: State, t: State)
    requires Outside(s, t) && SlotInv(s) && PendingInv(s)
    ensures SlotInv(t) && PendingInv(t)
  {
  }

  lemma OutsideKeepsHeld(s: State, t: State)
    requires Outside(s, t) && HeldInv(s)
    ensures HeldInv(t)
  {
    forall id | id in t.pending ensures exists d :: d in t.calls && Pends(t.calls[d], id) {
      var d :| d in s.calls && Pends(s.calls[d], id);
      assert Pends(t.calls[d], id);
    }
  }

  lemma OutsideKeepsFaults(s: State, t: State)
    requires Outside(s, t) && FaultInv(s)
    ensures FaultInv(t)
  {
    hide Excused;
    forall d | d in t.calls && HasResult(t.calls[d].phase) ensures Excused(t, d, t.calls[d], t.calls[d].phase.result) {
      ExcuseKept(s, t, d, s.calls[d], t.calls[d], t.calls[d].phase.result);
    }
  }

  lemma OutsideKeepsCalls(s: State, t: State)
    requires Outside(s, t) && WireInv(s)
    ensures forall c :: c in t.calls ==> CallWireInv(t, c)
  {
    forall c | c in t.calls ensures CallWireInv(t, c) {
      assert CallWireInv(s, c);
    }
  }

  lemma OutsideKeepsStarts(s: State, t: State)
    requires Outside(s, t) && StartsInv(s)
    ensures StartsInv(t)
  {
  }

  lemma OutsideKeepsBytes(s: State, t: State)
    requires Outside(s, t) && WireInv(s)
    ensures forall c :: c in s.starts ==> c in t.calls && t.calls[c].sent <= |t.calls[c].frame|
    ensures Bytes(t.starts, t.calls) == t.wire
  {
    assert forall c :: c in s.calls ==> CallWireInv(s, c);
    BytesUnchanged(s.starts, s.calls, t.calls);
  }

  lemma OutsideKeepsWire(s: State, t: State)
    requires Outside(s, t) && WireInv(s)
    ensures WireInv(t)
  {
    OutsideKeepsCalls(s, t);
    OutsideKeepsStarts(s, t);
    hide CallWireInv, StartsInv;
    OutsideKeepsBytes(s, t);
  }

  lemma OutsideKeepsMarksAndReplies(s: State, t: State)
    requires Outside(s, t) && MarkInv(s) && ReplyInv(s)
    ensures MarkInv(t) && ReplyInv(t)
  {
  }

  // ----- Every step, every run -----

  lemma StepKeepsInv(s: State, e: Event)
    requires Inv(s)
    ensures Inv(Step(s, e))
  {
    hide Apply, Decide, DoArrive, EnvironmentStep, EffectOk, Arrival, Outside;
    hide SlotInv, PendingInv, HeldInv, WireInv, MarkInv, ReplyInv, FaultInv;
    if FromEnvironment(e) {
      var t := EnvironmentStep(s, e);
      EnvironmentIsOutside(s, e);
      OutsideKeepsSlotAndPending(s, t);
      OutsideKeepsHeld(s, t);
      OutsideKeepsFaults(s, t);
      OutsideKeepsWire(s, t);
      OutsideKeepsMarksAndReplies(s, t);
    } else if e.Arrive? {
      var t := DoArrive(s, e.c, e.request, e.frame, e.explicit);
      if e.c in s.calls {
        ArriveTwiceIsStill(s, e.c, e.request, e.frame, e.explicit);
      } else {
        ArriveIsArrival(s, e.c, e.request, e.frame, e.explicit);
        ArrivalKeepsSlotAndPending(s, t, e.c);
        ArrivalKeepsHeld(s, t, e.c);
        ArrivalKeepsFaults(s, t, e.c);
        ArrivalKeepsWire(s, t, e.c);
        ArrivalKeepsMarksAndReplies(s, t, e.c);
      }
    } else if e.c in s.calls {
      InvFacts(s, e.c);
      DecideIsOk(s, s.calls[e.c], e);
      ApplyKeepsInv(s, e.c, Decide(s, s.calls[e.c], e));
    }
  }

  lemma ArriveTwiceIsStill(s: State, c: Caller, request: ControlRequested, frame: Frame, explicit: bool)
    requires c in s.calls
    ensures DoArrive(s, c, request, frame, explicit) == s
  {
  }

  lemma {:induction false} RunKeepsInv(s: State, events: seq<Event>)
    requires Inv(s)
    ensures Inv(Run(s, events))
    decreases |events|
  {
    if events != [] {
      StepKeepsInv(s, events[0]);
      RunKeepsInv(Step(s, events[0]), events[1..]);
    }
  }

  lemma InitialInv(s: State)
    requires Initial(s)
    ensures Inv(s)
  {
  }

  // ----- Main results, for every run from a fresh worker -----

  // Each entry of the Router's history is the one resolution of a call that
  // has been answered, and equal IDs are more than 4096 resolutions apart.
  lemma ResolvedOnceWithinWindow(start: State, events: seq<Event>)
    requires Initial(start)
    ensures var s := Run(start, events);
            && Spaced(s.router.marks)
            && |s.markers| == |s.router.marks|
            && (forall i, j :: 0 <= i < j < |s.markers| ==> s.markers[i] != s.markers[j])
            && (forall i :: 0 <= i < |s.markers| ==>
                  && s.markers[i] in s.calls && HasResult(s.calls[s.markers[i]].phase)
                  && s.calls[s.markers[i]].request.actionID == s.router.marks[i])
  {
    InitialInv(start);
    RunKeepsInv(start, events);
  }

  // A caller whose action is pending elsewhere is refused at once, leaves the
  // Router alone, and takes no further step.
  lemma ConcurrentDuplicateNeverTouchesRouter(s: State, c: Caller, request: ControlRequested, frame: Frame,
                                              explicit: bool)
    requires c !in s.calls && request.actionID in s.pending
    ensures var t := Step(s, Arrive(c, request, frame, explicit));
            && t == s.(calls := t.calls)
            && t.calls[c].phase.Finished? && t.calls[c].phase.result.response == ZERO_RESPONSE
            && FromRouter(Duplicate) in t.calls[c].phase.result.faults
    ensures var t := Step(s, Arrive(c, request, frame, explicit));
            forall e :: !FromEnvironment(e) && e.c == c ==> Step(t, e) == t
  {
    var t := Step(s, Arrive(c, request, frame, explicit));
    forall e | !FromEnvironment(e) && e.c == c ensures Step(t, e) == t {
      if e.Arrive? {
        ArriveTwiceIsStill(t, c, e.request, e.frame, e.explicit);
      } else {
        assert Decide(t, t.calls[c], e) == Stay;
      }
    }
  }

  // The whole frames of these callers, in order.
  function Frames(starts: seq<Caller>, calls: map<Caller, Call>): Frame
    requires forall c :: c in starts ==> c in calls
  {
    if starts == [] then []
    else Frames(starts[..|starts| - 1], calls) + calls[starts[|starts| - 1]].frame
  }

  lemma {:induction false} CompleteBytesAreFrames(starts: seq<Caller>, calls: map<Caller, Call>)
    requires forall c :: c in starts ==> c in calls && calls[c].sent == |calls[c].frame|
    ensures Bytes(starts, calls) == Frames(starts, calls)
  {
    if starts != [] {
      var last := calls[starts[|starts| - 1]];
      CompleteBytesAreFrames(starts[..|starts| - 1], calls);
      assert last.frame[..last.sent] == last.frame;
    }
  }

  // The child's input is a sequence of whole request frames in slot order, then
  // at most one frame in part; only its caller can be writing or waiting.
  lemma WireIsFramesInSlotOrder(start: State, events: seq<Event>)
    requires Initial(start)
    ensures var s := Run(start, events);
            && (forall c :: c in s.starts ==> c in s.calls)
            && (s.starts == [] ==> s.wire == [])
            && (s.starts != [] ==>
                  var last := s.calls[s.starts[|s.starts| - 1]];
                  && last.sent <= |last.frame|
                  && s.wire == Frames(s.starts[..|s.starts| - 1], s.calls) + last.frame[..last.sent])
            && (forall c :: c in s.calls && OnWire(s.calls[c].phase) ==>
                  s.starts != [] && s.starts[|s.starts| - 1] == c)
            && (forall c, d :: c in s.calls && d in s.calls && OnWire(s.calls[c].phase) && OnWire(s.calls[d].phase)
                  ==> c == d)
  {
    InitialInv(start);
    RunKeepsInv(start, events);
    var s := Run(start, events);
    assert forall c :: c in s.calls ==> CallWireInv(s, c);
    if s.starts != [] {
      var init := s.starts[..|s.starts| - 1];
      forall c | c in init ensures Complete(s.calls[c]) {
        var i :| 0 <= i < |init| && init[i] == c;
        assert Complete(s.calls[s.starts[i]]);
      }
      CompleteBytesAreFrames(init, s.calls);
    }
  }

  // The last frame was cut short and its writer is gone.
  ghost predicate Cut(s: State) {
    && s.starts != []
    && s.starts[|s.starts| - 1] in s.calls
    && var last := s.calls[s.starts[|s.starts| - 1]];
    !Complete(last) && !last.phase.Sending?
  }

  ghost predicate Silent(s: State) {
    s.startErr && !s.pipeOpen && forall c :: c in s.calls ==> !s.calls[c].phase.Sending?
  }

  lemma SilentStep(s: State, e: Event)
    requires Inv(s) && Silent(s)
    ensures Silent(Step(s, e)) && Step(s, e).wire == s.wire && Step(s, e).starts == s.starts
  {
    hide Decide, Inv, RouterInv;
    if FromEnvironment(e) {
      EnvironmentIsOutside(s, e);
    } else if e.Arrive? {
      assert Silent(Step(s, e));
    } else if e.c in s.calls {
      InvFacts(s, e.c);
      DecideIsOk(s, s.calls[e.c], e);
      SilentApply(s, e.c, Decide(s, s.calls[e.c], e));
    }
  }

  lemma SilentApply(s: State, c: Caller, effect: Effect)
    requires c in s.calls && EffectOk(s, s.calls[c], effect) && Silent(s) && !s.calls[c].phase.CheckingWorker?
    ensures var t := Apply(s, c, effect);
            Silent(t) && t.wire == s.wire && t.starts == s.starts
  {
    hide FromSource, ResultOf, RouterInv;
  }

  // After a partial frame no byte ever follows.
  lemma {:induction false} NothingFollowsACutFrame(s: State, events: seq<Event>)
    requires Inv(s) && Silent(s)
    ensures Run(s, events).wire == s.wire && Run(s, events).starts == s.starts
    decreases |events|
  {
    if events != [] {
      SilentStep(s, events[0]);
      StepKeepsInv(s, events[0]);
      NothingFollowsACutFrame(Step(s, events[0]), events[1..]);
    }
  }

  lemma CutIsSilent(s: State)
    requires Inv(s) && Cut(s)
    ensures Silent(s)
  {
    assert forall c :: c in s.calls ==> CallWireInv(s, c);
  }

  lemma CutFrameEndsTheStream(start: State, before: seq<Event>, after: seq<Event>)
    requires Initial(start) && Cut(Run(start, before))
    ensures Run(Run(start, before), after).wire == Run(start, before).wire
  {
    InitialInv(start);
    RunKeepsInv(start, before);
    CutIsSilent(Run(start, before));
    NothingFollowsACutFrame(Run(start, before), after);
  }

  // Expiry or cancellation is visible before the check that tests for it, or the
  // call has already returned, without its write being started.
  ghost predicate Doomed(s: State, c: Caller) {
    && c in s.calls && c !in s.starts
    && var call := s.calls[c];
    var early := call.phase.Arrived? || call.phase.TryingSlot? || call.phase.WaitingSlot? || call.phase.CheckingCaller?;
    || (call.cancelled && early)
    || (s.now >= call.expires && (early || call.phase.CheckingExpiry?))
    || HasResult(call.phase)
  }

  // A doomed call moves towards its failing check, or returns.
  ghost predicate DoomedEffect(s: State, c: Caller, effect: Effect)
    requires c in s.calls
  {
    match effect
    case Stay => true
    case Go(phase) => Doomed(SetPhase(s, c, phase), c)
    case Acquire => Doomed(SetPhase(s, c, CheckingCaller), c)
    case Answer(_, _, _, _) => !HasResult(s.calls[c].phase)
    case Release => s.calls[c].phase.Releasing?
    case Leave => s.calls[c].phase.Retiring?
    case _ => false
  }

  lemma DoomedWaits(s: State, c: Caller, e: Event)
    requires Doomed(s, c) && !FromEnvironment(e) && !e.Arrive?
    requires !HoldsSlot(s.calls[c].phase) && !HasResult(s.calls[c].phase)
    ensures DoomedEffect(s, c, WaitBranch(s, s.calls[c], e))
  {
  }

  lemma DoomedChecks(s: State, c: Caller, e: Event)
    requires Doomed(s, c) && !FromEnvironment(e) && !e.Arrive?
    requires s.calls[c].phase.CheckingCaller? || s.calls[c].phase.CheckingExpiry?
    ensures DoomedEffect(s, c, CheckBranch(s, s.calls[c], e))
  {
  }

  lemma DoomedDecision(s: State, c: Caller, e: Event)
    requires Doomed(s, c) && !FromEnvironment(e) && !e.Arrive?
    ensures DoomedEffect(s, c, Decide(s, s.calls[c], e))
  {
    hide WaitBranch, CheckBranch, WriteBranch, ReplyBranch;
    var phase := s.calls[c].phase;
    if !HoldsSlot(phase) && !HasResult(phase) {
      DoomedWaits(s, c, e);
    } else if !HasResult(phase) {
      DoomedChecks(s, c, e);
    }
  }

  lemma DoomedTurn(s: State, c: Caller, effect: Effect)
    requires Doomed(s, c) && DoomedEffect(s, c, effect)
    ensures Doomed(Apply(s, c, effect), c)
  {
    hide FromSource, ResultOf;
  }

  lemma DoomedElsewhere(s: State, c: Caller, d: Caller, effect: Effect)
    requires Doomed(s, c) && d in s.calls && d != c
    ensures Doomed(Apply(s, d, effect), c)
  {
    hide FromSource, ResultOf;
  }

  lemma DoomedStep(s: State, c: Caller, e: Event)
    requires Doomed(s, c)
    ensures Doomed(Step(s, e), c)
  {
    hide Apply, Decide;
    if !FromEnvironment(e) && !e.Arrive? && e.c in s.calls {
      if e.c == c {
        DoomedDecision(s, c, e);
        DoomedTurn(s, c, Decide(s, s.calls[c], e));
      } else {
        DoomedElsewhere(s, c, e.c, Decide(s, s.calls[e.c], e));
      }
    }
  }

  // A request already cancelled or expired at its pre-write checks is never
  // started, in any continuation of the run.
  lemma {:induction false} VisibleExpiryIsNeverStarted(s: State, c: Caller, events: seq<Event>)
    requires Doomed(s, c)
    ensures c !in Run(s, events).starts
    decreases |events|
  {
    if events != [] {
      DoomedStep(s, c, events[0]);
      VisibleExpiryIsNeverStarted(Step(s, events[0]), c, events[1..]);
    }
  }

  // Every answer is a refusal for its reason, the declared default for its cause, or
  // a reply that this caller took from the child after its whole frame was written,
  // naming its own action and its kind's registered Controller. Without a fault in
  // explicit mode it is such a reply; and every fault in an answer tells the truth.
  lemma AnswersAreCorrelated(start: State, events: seq<Event>, c: Caller)
    requires Initial(start)
    requires c in Run(start, events).calls && HasResult(Run(start, events).calls[c].phase)
    ensures var s := Run(start, events);
            var call := s.calls[c];
            var result := call.phase.result;
            && (|| Refused(s, c, call.request, result)
                || (ValidRequest(call.request) && IsDefault(s, call, result))
                || (ValidRequest(call.request) && IsOwnReply(s, c, call.request, result.response)
                    && result.faults == []))
            && (call.explicit && result.faults == [] ==> IsOwnReply(s, c, call.request, result.response))
            && (forall f :: f in result.faults ==> HasCause(s, c, call, f))
  {
    hide HasCause, Refused, IsDefault, IsOwnReply, ValidRequest, SlotInv, PendingInv, HeldInv, WireInv, MarkInv;
    InitialInv(start);
    RunKeepsInv(start, events);
  }
}

