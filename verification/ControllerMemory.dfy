// What the worker remembers of answered actions in every run, and what that does to late
// replies; and that any history of actions, repeats included, is one that some run has.
module ControllerMemory {
  import opened Envelopes
  import opened Bridge
  import opened ReplyMemory
  import opened ControllerProtocol
  import opened ControllerSafety

  // The action IDs of these callers' requests.
  function IDs(callers: seq<Caller>, calls: map<Caller, Call>): seq<string>
    requires forall c :: c in callers ==> c in calls
  {
    if callers == [] then []
    else IDs(callers[..|callers| - 1], calls) + [calls[callers[|callers| - 1]].request.actionID]
  }

  // The memory is that of the answered callers, which are those that were started and
  // have their result, each once.
  ghost predicate MemoryInv(s: State) {
    && (forall c :: c in s.answered ==> c in s.calls)
    && s.memory == RememberAll(IDs(s.answered, s.calls))
    && (forall c :: c in s.answered <==> c in s.starts && c in s.calls && HasResult(s.calls[c].phase))
    && (forall i, j :: 0 <= i < j < |s.answered| ==> s.answered[i] != s.answered[j])
  }

  lemma {:induction false} IDsUnchanged(callers: seq<Caller>, calls: map<Caller, Call>, calls': map<Caller, Call>)
    requires forall c :: c in callers ==> c in calls && c in calls' && calls'[c].request == calls[c].request
    ensures IDs(callers, calls') == IDs(callers, calls)
  {
    if callers != [] {
      IDsUnchanged(callers[..|callers| - 1], calls, calls');
    }
  }

  lemma IDsOneMore(callers: seq<Caller>, c: Caller, calls: map<Caller, Call>)
    requires c in calls && forall d :: d in callers ==> d in calls
    ensures forall d :: d in callers + [c] ==> d in calls
    ensures IDs(callers + [c], calls) == IDs(callers, calls) + [calls[c].request.actionID]
  {
    assert (callers + [c])[..|callers|] == callers;
  }

  // Only an answer to a started caller touches the memory.
  ghost predicate MemoryTurn(s: State, t: State, c: Caller)
    requires c in s.calls && c in t.calls
  {
    && (t.starts == s.starts || (t.starts == s.starts + [c] && !HasResult(t.calls[c].phase)))
    && (HasResult(s.calls[c].phase) ==> HasResult(t.calls[c].phase))
    && (|| (t.memory == s.memory && t.answered == s.answered
            && (HasResult(t.calls[c].phase) ==> HasResult(s.calls[c].phase) || !OnWire(s.calls[c].phase)))
        || (t.memory == Remember(s.memory, s.calls[c].request.actionID) && t.answered == s.answered + [c]
            && OnWire(s.calls[c].phase) && HasResult(t.calls[c].phase)))
  }

  lemma OtherIsMemoryTurn(s: State, c: Caller, effect: Effect)
    requires c in s.calls && EffectOk(s, s.calls[c], effect) && !effect.Answer?
    ensures c in Apply(s, c, effect).calls && MemoryTurn(s, Apply(s, c, effect), c)
  {
    hide DoAnswer, UnavailableOk;
    if effect.Go? {
      GoIsMemoryTurn(s, c, effect);
    } else {
      hide GoOk;
    }
  }

  lemma GoIsMemoryTurn(s: State, c: Caller, effect: Effect)
    requires c in s.calls && EffectOk(s, s.calls[c], effect) && effect.Go?
    ensures c in Apply(s, c, effect).calls && MemoryTurn(s, Apply(s, c, effect), c)
  {
    hide DoAnswer, UnavailableOk;
  }

  lemma AnswerIsMemoryTurn(s: State, c: Caller, effect: Effect)
    requires c in s.calls && EffectOk(s, s.calls[c], effect) && effect.Answer?
    ensures c in Apply(s, c, effect).calls && MemoryTurn(s, Apply(s, c, effect), c)
  {
    hide FromSource, ResultOf, Remember;
  }

  // Only c's call changes, and its request stays.
  ghost predicate OneCall(s: State, t: State, c: Caller) {
    && c in s.calls && t.calls.Keys == s.calls.Keys
    && (forall d :: d in s.calls && d != c ==> t.calls[d] == s.calls[d])
    && t.calls[c].request == s.calls[c].request
  }

  lemma ApplyIsOneCall(s: State, c: Caller, effect: Effect)
    requires c in s.calls
    ensures OneCall(s, Apply(s, c, effect), c)
  {
    hide FromSource, ResultOf, Remember;
  }

  lemma MemoryKept(s: State, t: State, c: Caller)
    requires Inv(s) && MemoryInv(s) && OneCall(s, t, c) && MemoryTurn(s, t, c)
    ensures MemoryInv(t)
  {
    InvFacts(s, c);
    hide Inv, RememberAll, Remember, RouterInv, MarkInv, InterruptOk;
    if t.answered == s.answered {
      MemoryStays(s, t, c);
    } else {
      MemoryGrows(s, t, c);
    }
  }

  lemma MemoryStays(s: State, t: State, c: Caller)
    requires OneCall(s, t, c) && MemoryTurn(s, t, c) && CallWireInv(s, c) && MemoryInv(s)
    requires t.answered == s.answered
    ensures MemoryInv(t)
  {
    hide RememberAll, Remember, InterruptOk, Complete;
    IDsUnchanged(s.answered, s.calls, t.calls);
    forall d ensures d in t.answered <==> d in t.starts && d in t.calls && HasResult(t.calls[d].phase) {
      assert d in t.starts <==> d in s.starts || (d == c && t.starts != s.starts);
    }
  }

  lemma MemoryGrows(s: State, t: State, c: Caller)
    requires OneCall(s, t, c) && MemoryTurn(s, t, c) && CallWireInv(s, c) && MemoryInv(s)
    requires t.answered != s.answered
    ensures MemoryInv(t)
  {
    hide IDs, RememberAll, Remember, InterruptOk, Complete;
    IDsUnchanged(s.answered, s.calls, t.calls);
    IDsOneMore(s.answered, c, t.calls);
    Remembered(IDs(s.answered, s.calls), s.calls[c].request.actionID);
    assert c !in s.answered && c in s.starts;
    forall d ensures d in t.answered <==> d in t.starts && d in t.calls && HasResult(t.calls[d].phase) {
      assert d in t.answered <==> d in s.answered || d == c;
    }
  }

  lemma Remembered(ids: seq<string>, id: string)
    ensures RememberAll(ids + [id]) == Remember(RememberAll(ids), id)
  {
    assert (ids + [id])[..|ids|] == ids;
  }

  lemma EnvironmentLeavesMemory(s: State, e: Event)
    ensures EnvironmentStep(s, e).memory == s.memory && EnvironmentStep(s, e).answered == s.answered
  {
  }

  lemma EnvironmentKeepsMemory(s: State, e: Event)
    requires MemoryInv(s)
    ensures MemoryInv(EnvironmentStep(s, e))
  {
    hide EnvironmentStep, RememberAll;
    var t := EnvironmentStep(s, e);
    EnvironmentLeavesMemory(s, e);
    EnvironmentIsOutside(s, e);
    IDsUnchanged(s.answered, s.calls, t.calls);
  }

  lemma ArrivalKeepsMemory(s: State, t: State, c: Caller)
    requires Inv(s) && MemoryInv(s) && Arrival(s, t, c)
    ensures MemoryInv(t)
  {
    hide *;
    StartsHold(s);
    NewCallerIsFresh(s, t, c);
    NewCallerKeepsMemory(s, t, c);
  }

  lemma NewCallerKeepsMemory(s: State, t: State, c: Caller)
    requires MemoryInv(s) && c !in s.starts && c !in s.calls && c in t.calls && t.calls == s.calls[c := t.calls[c]]
    requires t.memory == s.memory && t.answered == s.answered && t.starts == s.starts
    ensures MemoryInv(t)
  {
    hide RememberAll;
    IDsUnchanged(s.answered, s.calls, t.calls);
    forall d ensures d in t.answered <==> d in t.starts && d in t.calls && HasResult(t.calls[d].phase) {
      assert d != c ==> (d in t.calls <==> d in s.calls);
    }
  }

  lemma StartsHold(s: State)
    requires Inv(s)
    ensures StartsInv(s)
  {
  }

  lemma NewCallerIsFresh(s: State, t: State, c: Caller)
    requires StartsInv(s) && Arrival(s, t, c)
    ensures c !in s.starts && t.memory == s.memory && t.answered == s.answered && t.starts == s.starts
    ensures c !in s.calls && c in t.calls && t.calls == s.calls[c := t.calls[c]]
  {
  }

  lemma StepKeepsMemory(s: State, e: Event)
    requires Inv(s) && MemoryInv(s)
    ensures MemoryInv(Step(s, e))
  {
    hide Apply, Decide, DoArrive, EnvironmentStep, EffectOk, Arrival, Inv, MemoryInv, MemoryTurn, OneCall;
    if FromEnvironment(e) {
      EnvironmentKeepsMemory(s, e);
    } else if e.Arrive? {
      if e.c in s.calls {
        ArriveTwiceIsStill(s, e.c, e.request, e.frame, e.explicit);
      } else {
        ArriveIsArrival(s, e.c, e.request, e.frame, e.explicit);
        ArrivalKeepsMemory(s, DoArrive(s, e.c, e.request, e.frame, e.explicit), e.c);
      }
    } else if e.c in s.calls {
      var effect := Decide(s, s.calls[e.c], e);
      InvFacts(s, e.c);
      DecideIsOk(s, s.calls[e.c], e);
      ApplyIsOneCall(s, e.c, effect);
      if effect.Answer? {
        AnswerIsMemoryTurn(s, e.c, effect);
      } else {
        OtherIsMemoryTurn(s, e.c, effect);
      }
      MemoryKept(s, Apply(s, e.c, effect), e.c);
    }
  }

  lemma {:induction false} RunKeepsMemory(s: State, events: seq<Event>)
    requires Inv(s) && MemoryInv(s)
    ensures MemoryInv(Run(s, events))
    decreases |events|
  {
    if events != [] {
      hide Step, Inv, MemoryInv;
      StepKeepsInv(s, events[0]);
      StepKeepsMemory(s, events[0]);
      RunKeepsMemory(Step(s, events[0]), events[1..]);
    }
  }

  // ----- Main results -----

  // In every run the memory is what remembering the IDs of the started and answered
  // callers, in the order of their answers, leaves.
  lemma MemoryIsHistory(start: State, events: seq<Event>)
    requires Initial(start)
    ensures MemoryInv(Run(start, events))
  {
    assert MemoryInv(start);
    InitialInv(start);
    hide Inv, MemoryInv;
    RunKeepsMemory(start, events);
  }

  // A caller in its reply loop takes a reply: it ends the call exactly when it names the
  // call's own action or one that the history no longer vouches for. Otherwise it is
  // dropped, the caller polls again, and nothing else changes.
  lemma LateReply(start: State, events: seq<Event>, c: Caller, reply: ControlResponse)
    requires Initial(start)
    requires var s := Run(start, events);
             && c in s.calls && s.calls[c].phase == Selecting
             && s.responses != [] && s.responses[0] == Reply(reply)
    ensures var s := Run(start, events);
            var t := Step(s, TakeReply(c));
            && (forall d :: d in s.answered ==> d in s.calls)
            && c in t.calls
            && (HasResult(t.calls[c].phase) <==>
                  reply.actionID == s.calls[c].request.actionID || !Known(IDs(s.answered, s.calls), reply.actionID))
            && (!HasResult(t.calls[c].phase) ==>
                  t == SetPhase(s.(responses := s.responses[1..], heard := s.heard + {(c, reply)}), c, PollingCaller))
  {
    hide RememberAll, Known, Run, Step, SetPhase;
    var s := Run(start, events);
    MemoryIsHistory(start, events);
    RememberedIffKnown(IDs(s.answered, s.calls), reply.actionID);
    ReplyTakenOrDropped(s, c, reply);
  }

  lemma ReplyTakenOrDropped(s: State, c: Caller, reply: ControlResponse)
    requires c in s.calls && s.calls[c].phase == Selecting && s.responses != [] && s.responses[0] == Reply(reply)
    ensures var t := Step(s, TakeReply(c));
            && c in t.calls
            && (HasResult(t.calls[c].phase) <==>
                  reply.actionID == s.calls[c].request.actionID || reply.actionID !in s.memory.resolved)
            && (!HasResult(t.calls[c].phase) ==>
                  t == SetPhase(s.(responses := s.responses[1..], heard := s.heard + {(c, reply)}), c, PollingCaller))
  {
    hide FromSource, ResultOf, Remember, WaitBranch, CheckBranch, WriteBranch, LeaveBranch;
    var effect := Decide(s, s.calls[c], TakeReply(c));
    assert effect == ReplyBranch(s, s.calls[c], TakeReply(c));
  }

  // ----- Every history is one that some run has -----

  // Nobody is being served by a healthy worker.
  predicate Idle(s: State) {
    s.slot == None && s.pending == {} && !s.startErr && !s.contextDone && s.pipeOpen && s.deadlineMS > 0
  }

  // The one caller on its way, served by a healthy worker with the memory m at first: it
  // writes its frame, is cancelled while it waits for a reply, and leaves.
  predicate Served(m: Memory, s: State, c: Caller) {
    && c in s.calls && !s.startErr && !s.contextDone && s.pipeOpen && s.deadlineMS > 0
    && var call := s.calls[c];
    && s.slot == (if HoldsSlot(call.phase) then Some(c) else None)
    && s.pending == (if call.phase.Finished? then {} else {call.request.actionID})
    && call.sent <= |call.frame|
    && (call.cancelled ==> call.phase.PollingCaller? || HasResult(call.phase))
    && (!HasResult(call.phase) ==> s.now < call.expires)
    && s.memory == (if HasResult(call.phase) then Remember(m, call.request.actionID) else m)
    && match call.phase
       case Sending(outcome) => outcome == None || outcome == Some(true)
       case WaitingSlot => false
       case Interrupting(_, _) => false
       case PollingExpiry => false
       case Selecting => false
       case _ => true
  }

  // The next thing to happen to it.
  function NextFor(call: Call, c: Caller): Event {
    match call.phase
    case Arrived => CheckArrival(c)
    case TryingSlot => TrySlot(c)
    case CheckingCaller => CheckCaller(c)
    case CheckingExpiry => CheckExpiry(c)
    case CheckingTransport => CheckTransport(c)
    case CheckingWorker => CheckWorker(c)
    case Sending(outcome) =>
      if outcome.Some? then TakeWritten(c)
      else if call.sent < |call.frame| then WriteBytes(c, |call.frame| - call.sent)
      else WriteReturns(c, true)
    case PollingCaller => if call.cancelled then PollCaller(c) else Cancel(c)
    case Releasing(_) => ReleaseSlot(c)
    case _ => Retire(c)
  }

  // How many such steps are left.
  function Left(call: Call): nat {
    match call.phase
    case Arrived => 13
    case TryingSlot => 12
    case CheckingCaller => 11
    case CheckingExpiry => 10
    case CheckingTransport => 9
    case CheckingWorker => 8
    case Sending(outcome) => if outcome.Some? then 5 else if call.sent < |call.frame| then 7 else 6
    case PollingCaller => if call.cancelled then 3 else 4
    case Releasing(_) => 2
    case Finished(_) => 0
    case _ => 1
  }

  // The step leaves it served, nearer its end, and nobody else involved.
  ghost predicate Advances(m: Memory, s: State, c: Caller) {
    && c in s.calls
    && var t := Step(s, NextFor(s.calls[c], c));
    && Served(m, t, c) && Left(t.calls[c]) < Left(s.calls[c])
    && t.calls.Keys == s.calls.Keys && t.calls[c].request == s.calls[c].request
  }

  lemma AdvanceToSlot(m: Memory, s: State, c: Caller)
    requires Served(m, s, c) && !HasResult(s.calls[c].phase) && !HoldsSlot(s.calls[c].phase)
    ensures Advances(m, s, c)
  {
    hide DoAnswer, Remember;
  }

  lemma AdvanceToChecked(m: Memory, s: State, c: Caller)
    requires Served(m, s, c)
    requires var p := s.calls[c].phase; p.CheckingCaller? || p.CheckingExpiry? || p.CheckingTransport?
    ensures Advances(m, s, c)
  {
    hide DoAnswer, Remember, WaitBranch, WriteBranch, ReplyBranch, LeaveBranch;
  }

  lemma AdvanceToWrite(m: Memory, s: State, c: Caller)
    requires Served(m, s, c) && s.calls[c].phase.CheckingWorker?
    ensures Advances(m, s, c)
  {
    hide DoAnswer, Remember, WaitBranch, WriteBranch, ReplyBranch, LeaveBranch;
  }

  lemma AdvanceWrite(m: Memory, s: State, c: Caller)
    requires Served(m, s, c) && s.calls[c].phase.Sending?
    ensures Advances(m, s, c)
  {
    hide DoAnswer, Remember, WaitBranch, CheckBranch, ReplyBranch, LeaveBranch;
  }

  lemma AdvanceToCancel(m: Memory, s: State, c: Caller)
    requires Served(m, s, c) && s.calls[c].phase.PollingCaller? && !s.calls[c].cancelled
    ensures Advances(m, s, c)
  {
    hide DoAnswer, Remember, Decide;
  }

  lemma AdvanceToAnswer(m: Memory, s: State, c: Caller)
    requires Served(m, s, c) && s.calls[c].phase.PollingCaller? && s.calls[c].cancelled
    ensures Advances(m, s, c)
  {
    hide FromSource, ResultOf, Remember, WaitBranch, CheckBranch, WriteBranch, LeaveBranch;
  }

  lemma AdvanceToRelease(m: Memory, s: State, c: Caller)
    requires Served(m, s, c) && s.calls[c].phase.Releasing?
    ensures Advances(m, s, c)
  {
    hide DoAnswer, Remember, WaitBranch, CheckBranch, WriteBranch, ReplyBranch;
  }

  lemma AdvanceToLeave(m: Memory, s: State, c: Caller)
    requires Served(m, s, c) && s.calls[c].phase.Retiring?
    ensures Advances(m, s, c)
  {
    hide DoAnswer, Remember, WaitBranch, CheckBranch, WriteBranch, ReplyBranch;
  }

  lemma {:induction false} ServedToTheEnd(m: Memory, s: State, c: Caller) returns (events: seq<Event>)
    requires Served(m, s, c)
    ensures var t := Run(s, events);
            && c in t.calls && t.calls.Keys == s.calls.Keys
            && Idle(t) && t.memory == Remember(m, s.calls[c].request.actionID)
    decreases Left(s.calls[c])
  {
    if s.calls[c].phase.Finished? {
      events := [];
    } else {
      if s.calls[c].phase.Releasing? {
        AdvanceToRelease(m, s, c);
      } else if s.calls[c].phase.Retiring? {
        AdvanceToLeave(m, s, c);
      } else if s.calls[c].phase.Sending? {
        AdvanceWrite(m, s, c);
      } else if s.calls[c].phase.PollingCaller? && s.calls[c].cancelled {
        AdvanceToAnswer(m, s, c);
      } else if s.calls[c].phase.PollingCaller? {
        AdvanceToCancel(m, s, c);
      } else if s.calls[c].phase.CheckingWorker? {
        AdvanceToWrite(m, s, c);
      } else if HoldsSlot(s.calls[c].phase) {
        AdvanceToChecked(m, s, c);
      } else {
        AdvanceToSlot(m, s, c);
      }
      hide Step, Served, Idle, Left, NextFor, Remember;
      var e := NextFor(s.calls[c], c);
      var rest := ServedToTheEnd(m, Step(s, e), c);
      events := [e] + rest;
      assert events[1..] == rest;
    }
  }

  lemma {:induction false} RunJoins(s: State, a: seq<Event>, b: seq<Event>)
    ensures Run(s, a + b) == Run(Run(s, a), b)
    decreases |a|
  {
    if a == [] {
      assert a + b == b;
    } else {
      hide Step;
      assert (a + b)[1..] == a[1..] + b;
      RunJoins(Step(s, a[0]), a[1..], b);
    }
  }

  lemma ArrivesToBeServed(s: State, c: Caller, request: ControlRequested, frame: Frame)
    requires Idle(s) && c !in s.calls
    ensures var t := Step(s, Arrive(c, request, frame, false));
            Served(s.memory, t, c) && t.calls.Keys == s.calls.Keys + {c} && t.calls[c].request == request
  {
  }

  function FirstCallers(n: nat): (callers: set<Caller>)
    ensures forall c :: c in callers ==> c < n
  {
    if n == 0 then {} else FirstCallers(n - 1) + {n - 1}
  }

  // Any list of action IDs, in any order and with any repeats, is what a run from a
  // healthy worker remembers: the Router refuses the repeats, the worker remembers them.
  lemma {:induction false} AnyHistoryIsReached(start: State, requests: seq<ControlRequested>, frame: Frame)
    returns (events: seq<Event>)
    requires Initial(start) && Idle(start)
    ensures var s := Run(start, events);
            && Idle(s) && s.calls.Keys == FirstCallers(|requests|)
            && s.memory == RememberAll(seq(|requests|, i requires 0 <= i < |requests| => requests[i].actionID))
    decreases |requests|
  {
    hide Step, Idle, Remember, Served;
    var ids := seq(|requests|, i requires 0 <= i < |requests| => requests[i].actionID);
    if requests == [] {
      events := [];
    } else {
      var n := |requests| - 1;
      var before := AnyHistoryIsReached(start, requests[..n], frame);
      var s := Run(start, before);
      var e := Arrive(n, requests[n], frame, false);
      ArrivesToBeServed(s, n, requests[n], frame);
      var rest := ServedToTheEnd(s.memory, Step(s, e), n);
      events := before + ([e] + rest);
      RunJoins(start, before, [e] + rest);
      assert ([e] + rest)[1..] == rest;
      assert ids[..n] == seq(n, i requires 0 <= i < n => requests[..n][i].actionID);
    }
  }

  // So the worker can come to hold in its FIFO an action that it no longer knows: one
  // answered twice in a row, and 1023 others after it.
  lemma ForgottenInARun(start: State, twice: ControlRequested, others: seq<ControlRequested>, frame: Frame)
    returns (events: seq<Event>)
    requires Initial(start) && Idle(start)
    requires |others| == MEMORY_LIMIT - 1 && forall i :: 0 <= i < |others| ==> others[i].actionID != twice.actionID
    ensures var memory := Run(start, events).memory;
            twice.actionID in memory.fifo && twice.actionID !in memory.resolved
  {
    hide RememberAll, Run, Idle, Initial;
    var requests := [twice, twice] + others;
    events := AnyHistoryIsReached(start, requests, frame);
    var tail := seq(|others|, i requires 0 <= i < |others| => others[i].actionID);
    RepeatedIDIsForgotten(twice.actionID, tail);
    assert seq(|requests|, i requires 0 <= i < |requests| => requests[i].actionID)
        == [twice.actionID, twice.actionID] + tail;
  }
}
