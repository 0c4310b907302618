// The budget of a call starts at its arrival: no default for want of time comes before the
// deadline has passed since then, and a correct reply that arrives in time is the answer.
module ControllerDeadlines {
  import opened Envelopes
  import opened Bridge
  import opened ControllerProtocol
  import opened ControllerSafety
  import opened ControllerMemory
  import opened ReplyMemory

  // What an event cannot change about a call that has arrived.
  ghost predicate SameTerms(s: State, t: State, c: Caller) {
    && c in s.calls && c in t.calls
    && t.calls[c].request == s.calls[c].request && t.calls[c].explicit == s.calls[c].explicit
    && t.calls[c].expires == s.calls[c].expires
  }

  lemma ApplyKeepsOwnTerms(s: State, c: Caller, effect: Effect)
    requires c in s.calls
    ensures SameTerms(s, Apply(s, c, effect), c)
  {
    hide FromSource, ResultOf, Remember;
  }

  lemma ApplyKeepsTerms(s: State, d: Caller, effect: Effect, c: Caller)
    requires d in s.calls && c in s.calls
    ensures SameTerms(s, Apply(s, d, effect), c)
  {
    hide Apply;
    if d == c {
      ApplyKeepsOwnTerms(s, c, effect);
    } else {
      ApplyIsOneCall(s, d, effect);
    }
  }

  lemma ApplyKeepsSettings(s: State, d: Caller, effect: Effect)
    requires d in s.calls
    ensures Apply(s, d, effect).deadlineMS == s.deadlineMS
  {
    hide FromSource, ResultOf, Remember;
  }

  lemma EnvironmentKeepsTerms(s: State, e: Event, c: Caller)
    ensures c in s.calls ==> SameTerms(s, EnvironmentStep(s, e), c)
    ensures EnvironmentStep(s, e).deadlineMS == s.deadlineMS
  {
  }

  // A call that arrives has its terms from then on.
  lemma ArriveSetsTerms(s: State, c: Caller, request: ControlRequested, frame: Frame, explicit: bool)
    requires c !in s.calls
    ensures var t := DoArrive(s, c, request, frame, explicit);
            && c in t.calls && t.calls[c].request == request && t.calls[c].explicit == explicit
            && t.calls[c].expires == s.now + s.deadlineMS
  {
  }

  lemma ArriveKeepsTerms(s: State, d: Caller, request: ControlRequested, frame: Frame, explicit: bool, c: Caller)
    ensures var t := DoArrive(s, d, request, frame, explicit);
            t.deadlineMS == s.deadlineMS && (c in s.calls ==> SameTerms(s, t, c))
  {
    if d in s.calls {
      ArriveTwiceIsStill(s, d, request, frame, explicit);
    } else {
      ArriveIsArrival(s, d, request, frame, explicit);
      hide DoArrive;
    }
  }

  lemma StillHasTerms(s: State, c: Caller)
    ensures c in s.calls ==> SameTerms(s, s, c)
  {
  }

  lemma StepKeepsTerms(s: State, e: Event, c: Caller)
    ensures c in s.calls ==> SameTerms(s, Step(s, e), c)
    ensures Step(s, e).deadlineMS == s.deadlineMS
  {
    hide Apply, Decide, EnvironmentStep, DoArrive, SameTerms;
    if FromEnvironment(e) {
      EnvironmentKeepsTerms(s, e, c);
    } else if e.Arrive? {
      ArriveKeepsTerms(s, e.c, e.request, e.frame, e.explicit, c);
    } else if e.c !in s.calls {
      StillHasTerms(s, c);
    } else {
      var effect := Decide(s, s.calls[e.c], e);
      ApplyKeepsSettings(s, e.c, effect);
      if c in s.calls {
        ApplyKeepsTerms(s, e.c, effect, c);
      }
    }
  }

  lemma {:induction false} RunKeepsTerms(s: State, events: seq<Event>, c: Caller)
    ensures c in s.calls ==> SameTerms(s, Run(s, events), c)
    ensures Run(s, events).deadlineMS == s.deadlineMS
    decreases |events|
  {
    if events != [] {
      hide Step;
      StepKeepsTerms(s, events[0], c);
      RunKeepsTerms(Step(s, events[0]), events[1..], c);
    }
  }

  // A run in which the caller arrives after `before`.
  function Whole(before: seq<Event>, c: Caller, request: ControlRequested, frame: Frame, explicit: bool,
                 after: seq<Event>): seq<Event>
  {
    before + ([Arrive(c, request, frame, explicit)] + after)
  }

  // Its deadline counts from its arrival.
  lemma DeadlineFromArrival(start: State, before: seq<Event>, c: Caller, request: ControlRequested, frame: Frame,
                            explicit: bool, after: seq<Event>)
    requires c !in Run(start, before).calls
    ensures var s := Run(start, Whole(before, c, request, frame, explicit, after));
            && c in s.calls && s.calls[c].request == request && s.calls[c].explicit == explicit
            && s.calls[c].expires == Run(start, before).now + start.deadlineMS
  {
    var e := Arrive(c, request, frame, explicit);
    var s := Run(start, before);
    RunJoins(start, before, [e] + after);
    assert ([e] + after)[1..] == after;
    ArriveSetsTerms(s, c, request, frame, explicit);
    RunKeepsTerms(start, before, c);
    RunKeepsTerms(Step(s, e), after, c);
    hide Run, DoArrive;
  }

  // An answer that neither a fault nor a reply of the child accounts for is the on_timeout
  // default, and the whole deadline has passed since the call's arrival.
  lemma TimeoutTakesTheDeadline(start: State, before: seq<Event>, c: Caller, request: ControlRequested, frame: Frame,
                                explicit: bool, after: seq<Event>)
    requires Initial(start) && c !in Run(start, before).calls
    ensures var s := Run(start, Whole(before, c, request, frame, explicit, after));
            && c in s.calls
            && (HasResult(s.calls[c].phase) ==>
                  var result := s.calls[c].phase.result;
                  && (forall f :: f in result.faults ==> f == ExplicitReplyRequired)
                  && (c, result.response) !in s.heard ==>
                    && request.kind in s.router.registrations
                    && var reg := s.router.registrations[request.kind];
                    && result.response == ControlResponse("1", "control.response", reg.controllerID, request.actionID,
                                                          reg.onTimeout, "")
                    && s.now >= Run(start, before).now + start.deadlineMS)
  {
    hide Run, Initial, HasCause;
    DeadlineFromArrival(start, before, c, request, frame, explicit, after);
    var all := Whole(before, c, request, frame, explicit, after);
    if HasResult(Run(start, all).calls[c].phase) {
      AnswersAreCorrelated(start, all, c);
    }
  }

  // The caller is waiting for its reply, and the reply is a right one.
  predicate RightReplyAhead(s: State, c: Caller, reply: ControlResponse) {
    && c in s.calls && !s.calls[c].cancelled
    && (s.calls[c].phase.PollingCaller? || s.calls[c].phase.PollingExpiry? || s.calls[c].phase.Selecting?)
    && s.responses != [] && s.responses[0] == Reply(reply)
    && var request := s.calls[c].request;
    && ValidRequest(request) && request.actionID !in s.router.resolved && request.kind in s.router.registrations
    && ValidResponse(reply) && reply.actionID == request.actionID
    && reply.controllerID == s.router.registrations[request.kind].controllerID
  }

  predicate NoOtherAnswer(s: State, c: Caller, reply: ControlResponse) {
    && c in s.calls
    && (HasResult(s.calls[c].phase) ==> s.calls[c].phase == Releasing(Result(reply, [])))
  }

  lemma PollsOn(s: State, c: Caller, reply: ControlResponse)
    requires RightReplyAhead(s, c, reply) && s.now < s.calls[c].expires
    ensures var t := Step(s, PollCaller(c));
            && RightReplyAhead(t, c, reply) && t.now < t.calls[c].expires && !t.calls[c].phase.PollingCaller?
  {
    hide ValidRequest, ValidResponse, FromSource, ResultOf;
  }

  lemma ExpiryPasses(s: State, c: Caller, reply: ControlResponse)
    requires RightReplyAhead(s, c, reply) && s.now < s.calls[c].expires && !s.calls[c].phase.PollingCaller?
    ensures var t := Step(s, PollExpiry(c)); RightReplyAhead(t, c, reply) && t.calls[c].phase == Selecting
  {
    hide ValidRequest, ValidResponse, FromSource, ResultOf;
  }

  lemma TakesReply(s: State, c: Caller, reply: ControlResponse)
    requires RightReplyAhead(s, c, reply) && s.calls[c].phase == Selecting
    ensures var t := Step(s, TakeReply(c)); c in t.calls && t.calls[c].phase == Releasing(Result(reply, []))
  {
    ReplyAcceptedExactly(s.router, s.calls[c].request, reply);
    hide Resolve, ValidRequest, WaitBranch, CheckBranch, WriteBranch, LeaveBranch;
  }

  lemma ReplyIsTaken(s: State, c: Caller, reply: ControlResponse)
    requires RightReplyAhead(s, c, reply) && s.now < s.calls[c].expires
    ensures var t := Run(s, [PollCaller(c), PollExpiry(c), TakeReply(c)]);
            c in t.calls && t.calls[c].phase == Releasing(Result(reply, []))
  {
    hide Step;
    var s1 := Step(s, PollCaller(c));
    PollsOn(s, c, reply);
    var s2 := Step(s1, PollExpiry(c));
    ExpiryPasses(s1, c, reply);
    TakesReply(s2, c, reply);
    var events := [PollCaller(c), PollExpiry(c), TakeReply(c)];
    assert events[1..] == [PollExpiry(c), TakeReply(c)] && [PollExpiry(c), TakeReply(c)][1..] == [TakeReply(c)];
    assert [TakeReply(c)][1..] == [];
    assert Run(s2, [TakeReply(c)]) == Run(Step(s2, TakeReply(c)), []);
  }

  lemma OnlyTheReply(s: State, c: Caller, reply: ControlResponse, e: Event)
    requires RightReplyAhead(s, c, reply) && s.now < s.calls[c].expires && !FromEnvironment(e) && e.c == c
    requires !s.contextDone && s.child != Exited
    ensures NoOtherAnswer(Step(s, e), c, reply)
  {
    if s.calls[c].phase == Selecting && e == TakeReply(c) {
      TakesReply(s, c, reply);
    } else if e.Arrive? {
      ArriveTwiceIsStill(s, c, e.request, e.frame, e.explicit);
    } else {
      StaysOrMovesOn(s, c, reply, e);
    }
  }

  lemma StaysOrMovesOn(s: State, c: Caller, reply: ControlResponse, e: Event)
    requires RightReplyAhead(s, c, reply) && s.now < s.calls[c].expires && !FromEnvironment(e) && e.c == c
    requires !s.contextDone && s.child != Exited && !e.Arrive? && !(s.calls[c].phase == Selecting && e == TakeReply(c))
    ensures NoOtherAnswer(Step(s, e), c, reply)
  {
    hide DoAnswer, ValidRequest, ValidResponse, WaitBranch, CheckBranch, WriteBranch, LeaveBranch;
    var effect := Decide(s, s.calls[c], e);
    assert effect == ReplyBranch(s, s.calls[c], e);
    assert effect.Stay? || effect == Go(PollingExpiry) || effect == Go(Selecting);
    hide ReplyBranch, Decide, RightReplyAhead;
  }

  // A right reply that is ahead of a waiting caller before the deadline has passed since
  // its arrival is its answer, without a fault, once it takes it; and unless the worker has
  // ended or the child has exited, none of its steps gives it any other answer.
  lemma ReplyInTimeIsTheAnswer(start: State, before: seq<Event>, c: Caller, request: ControlRequested, frame: Frame,
                               explicit: bool, after: seq<Event>, reply: ControlResponse)
    requires c !in Run(start, before).calls
    requires var s := Run(start, Whole(before, c, request, frame, explicit, after));
             RightReplyAhead(s, c, reply) && s.now < Run(start, before).now + start.deadlineMS
    ensures var s := Run(start, Whole(before, c, request, frame, explicit, after));
            var t := Run(s, [PollCaller(c), PollExpiry(c), TakeReply(c)]);
            c in t.calls && t.calls[c].phase == Releasing(Result(reply, []))
    ensures var s := Run(start, Whole(before, c, request, frame, explicit, after));
            !s.contextDone && s.child != Exited ==>
              forall e :: !FromEnvironment(e) && e.c == c ==> NoOtherAnswer(Step(s, e), c, reply)
  {
    hide Run, RightReplyAhead, Step;
    DeadlineFromArrival(start, before, c, request, frame, explicit, after);
    var s := Run(start, Whole(before, c, request, frame, explicit, after));
    ReplyIsTaken(s, c, reply);
    if !s.contextDone && s.child != Exited {
      forall e | !FromEnvironment(e) && e.c == c ensures NoOtherAnswer(Step(s, e), c, reply) {
        OnlyTheReply(s, c, reply, e);
      }
    }
  }
}
