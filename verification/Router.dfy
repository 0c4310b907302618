// The Router of bridge/bridge.go: one Controller registration per request
// kind, and a bounded window of resolved action IDs in which a second
// resolution is refused.
module Bridge {
  import opened Envelopes

  const RESOLVED_WINDOW: nat := 4096

  datatype Registration = Registration(
    kind: string, controllerID: string, deadlineMS: int, onTimeout: string, onUnavailable: string)

  datatype Error =
    | InvalidRegistration
    | AlreadyRegistered
    | InvalidRequest
    | Duplicate
    | NoController
    | InvalidResponse
    | ControllerMismatch
    | ActionMismatch

  // The Router's fields as a value. `marks` is a history variable: every action
  // ID that was ever marked resolved, oldest first.
  datatype RouterState = RouterState(
    registrations: map<string, Registration>,
    resolved: set<string>,
    resolvedOrder: seq<string>,
    marks: seq<string>)

  const EMPTY_ROUTER := RouterState(map[], {}, [], [])

  datatype Resolution = Resolution(router: RouterState, response: ControlResponse, error: Option<Error>)

  predicate ValidRegistration(reg: Registration) {
    && reg.kind != ""
    && reg.controllerID != ""
    && reg.deadlineMS > 0
    && ValidOutcome(reg.onTimeout)
    && ValidOutcome(reg.onUnavailable)
  }

  function MarkResolved(r: RouterState, actionID: string): RouterState {
    var resolved := r.resolved + {actionID};
    var order := r.resolvedOrder + [actionID];
    var marks := r.marks + [actionID];
    if |order| > RESOLVED_WINDOW then
      r.(resolved := resolved - {order[0]}, resolvedOrder := order[1..], marks := marks)
    else
      r.(resolved := resolved, resolvedOrder := order, marks := marks)
  }

  function DefaultResponse(reg: Registration, request: ControlRequested, outcome: string): ControlResponse {
    ControlResponse(VERSION, TYPE_CONTROL_RESPONSE, reg.controllerID, request.actionID, outcome, "")
  }

  function CheckResponse(reg: Registration, request: ControlRequested, response: ControlResponse): Option<Error> {
    if !ValidResponse(response) then Some(InvalidResponse)
    else if response.controllerID != reg.controllerID then Some(ControllerMismatch)
    else if response.actionID != request.actionID then Some(ActionMismatch)
    else None
  }

  // The refusals common to Resolve and TimeoutResponse, in the order the code tests them.
  function Refusal(r: RouterState, request: ControlRequested): Option<Error> {
    if !ValidRequest(request) then Some(InvalidRequest)
    else if request.actionID in r.resolved then Some(Duplicate)
    else if request.kind !in r.registrations then Some(NoController)
    else None
  }

  function Resolve(r: RouterState, request: ControlRequested, candidate: Option<ControlResponse>): Resolution {
    var refusal := Refusal(r, request);
    if refusal.Some? then Resolution(r, ZERO_RESPONSE, refusal)
    else
      var reg := r.registrations[request.kind];
      var marked := MarkResolved(r, request.actionID);
      match candidate
      case None => Resolution(marked, DefaultResponse(reg, request, reg.onUnavailable), None)
      case Some(response) =>
        var mismatch := CheckResponse(reg, request, response);
        if mismatch.Some? then Resolution(marked, DefaultResponse(reg, request, reg.onUnavailable), mismatch)
        else Resolution(marked,
                        ControlResponse(VERSION, TYPE_CONTROL_RESPONSE, reg.controllerID, request.actionID,
                                        response.outcome, response.message), None)
  }

  function TimeoutResponse(r: RouterState, request: ControlRequested): Resolution {
    var refusal := Refusal(r, request);
    if refusal.Some? then Resolution(r, ZERO_RESPONSE, refusal)
    else
      var reg := r.registrations[request.kind];
      Resolution(MarkResolved(r, request.actionID), DefaultResponse(reg, request, reg.onTimeout), None)
  }

  // ----- What the window guarantees -----

  // Equal IDs in the history have at least 4096 other resolutions between them.
  ghost predicate Spaced(marks: seq<string>) {
    forall i, j :: 0 <= i < j < |marks| && marks[i] == marks[j] ==> j - i > RESOLVED_WINDOW
  }

  // The most recent RESOLVED_WINDOW marks.
  function Recent(marks: seq<string>): (recent: seq<string>)
    ensures |recent| <= RESOLVED_WINDOW
  {
    if |marks| <= RESOLVED_WINDOW then marks else marks[|marks| - RESOLVED_WINDOW..]
  }

  ghost predicate RegistrationsValid(regs: map<string, Registration>) {
    forall kind :: kind in regs ==> ValidRegistration(regs[kind]) && regs[kind].kind == kind
  }

  // The map and the order hold exactly the recent marks, and the history is spaced.
  ghost predicate RouterInv(r: RouterState) {
    && r.resolvedOrder == Recent(r.marks)
    && (forall id :: id in r.resolved <==> id in r.resolvedOrder)
    && Spaced(r.marks)
    && RegistrationsValid(r.registrations)
  }

  lemma SpacedExtends(marks: seq<string>, id: string)
    requires Spaced(marks) && id !in Recent(marks)
    ensures Spaced(marks + [id])
  {
    var start := |marks| - |Recent(marks)|;
    forall i | start <= i < |marks| ensures marks[i] != id {
      assert marks[i] == Recent(marks)[i - start];
    }
  }

  lemma RecentHasNoRepeats(marks: seq<string>)
    requires Spaced(marks)
    ensures forall i, j :: 0 <= i < j < |Recent(marks)| ==> Recent(marks)[i] != Recent(marks)[j]
  {
    var recent := Recent(marks);
    var start := |marks| - |recent|;
    assert forall i :: 0 <= i < |recent| ==> recent[i] == marks[start + i];
    forall i, j | 0 <= i < j < |recent| ensures recent[i] != recent[j] {
      SpacedApart(marks, start + i, start + j);
    }
  }

  lemma SpacedApart(marks: seq<string>, i: nat, j: nat)
    requires Spaced(marks) && i < j < |marks| && j - i <= RESOLVED_WINDOW
    ensures marks[i] != marks[j]
  {
  }

  // The window after one mark more.
  lemma WindowMoves(marks: seq<string>, id: string)
    ensures Recent(marks + [id])
         == if |marks| < RESOLVED_WINDOW then Recent(marks) + [id] else (Recent(marks) + [id])[1..]
  {
  }

  lemma DropFirst(s: seq<string>)
    requires |s| > 0
    requires forall i, j :: 0 <= i < j < |s| ==> s[i] != s[j]
    ensures forall id :: id in s[1..] <==> id in s && id != s[0]
  {
    assert s == [s[0]] + s[1..];
  }

  // The map keeps holding just what the order holds.
  lemma MapFollowsOrder(r: RouterState, actionID: string)
    requires forall id :: id in r.resolved <==> id in r.resolvedOrder
    requires forall i, j :: 0 <= i < j < |r.resolvedOrder| ==> r.resolvedOrder[i] != r.resolvedOrder[j]
    requires actionID !in r.resolved
    ensures var t := MarkResolved(r, actionID);
            forall id :: id in t.resolved <==> id in t.resolvedOrder
  {
    var order := r.resolvedOrder + [actionID];
    assert forall id :: id in order <==> id in r.resolved || id == actionID;
    if |order| > RESOLVED_WINDOW {
      DropFirst(order);
    }
  }

  lemma RecentLength(marks: seq<string>)
    ensures |Recent(marks)| == if |marks| < RESOLVED_WINDOW then |marks| else RESOLVED_WINDOW
  {
  }

  // Marking an ID that is not in the map keeps the map equal to the window.
  lemma MarkKeepsInv(r: RouterState, actionID: string)
    requires RouterInv(r) && actionID !in r.resolved
    ensures RouterInv(MarkResolved(r, actionID))
    ensures MarkResolved(r, actionID).marks == r.marks + [actionID]
  {
    hide Recent, Spaced, RegistrationsValid;
    SpacedExtends(r.marks, actionID);
    RecentHasNoRepeats(r.marks);
    RecentLength(r.marks);
    WindowMoves(r.marks, actionID);
    MapFollowsOrder(r, actionID);
  }

  // Every operation keeps the invariant, and changes the history by at most
  // one mark, of the request's own ID.
  lemma ResolveKeepsInv(r: RouterState, request: ControlRequested, candidate: Option<ControlResponse>)
    requires RouterInv(r)
    ensures RouterInv(Resolve(r, request, candidate).router)
    ensures RouterInv(TimeoutResponse(r, request).router)
  {
    if Refusal(r, request).None? {
      MarkKeepsInv(r, request.actionID);
    }
  }

  // A valid request for a registered kind is refused as a duplicate exactly
  // when its ID is among the last 4096 resolutions; the window is tight.
  lemma DuplicateIffRecent(r: RouterState, request: ControlRequested, candidate: Option<ControlResponse>)
    requires RouterInv(r) && ValidRequest(request) && request.kind in r.registrations
    ensures Resolve(r, request, candidate).error == Some(Duplicate) <==> request.actionID in Recent(r.marks)
    ensures TimeoutResponse(r, request).error == Some(Duplicate) <==> request.actionID in Recent(r.marks)
    ensures request.actionID in Recent(r.marks) <==>
              exists i :: 0 <= i < |r.marks| && i >= |r.marks| - 4096 && r.marks[i] == request.actionID
    ensures request.actionID in Recent(r.marks) ==> Resolve(r, request, candidate).router == r
    ensures request.actionID !in Recent(r.marks) ==>
              Resolve(r, request, candidate).router.marks == r.marks + [request.actionID]
  {
    if request.actionID !in r.resolved {
      MarkKeepsInv(r, request.actionID);
    }
  }

  // The reply carries the candidate's outcome only if the candidate is a valid
  // response naming this action and the registered Controller; any other
  // candidate, or none, yields at most the declared default.
  lemma OutcomeIsCorrelated(r: RouterState, request: ControlRequested, candidate: Option<ControlResponse>)
    requires RouterInv(r)
    ensures var res := Resolve(r, request, candidate);
            match res.error
            case None =>
              && request.kind in r.registrations
              && var reg := r.registrations[request.kind];
              && ValidResponse(res.response)
              && res.response.actionID == request.actionID
              && res.response.controllerID == reg.controllerID
              && (candidate.None? ==> res.response.outcome == reg.onUnavailable && res.response.message == "")
              && (candidate.Some? ==>
                    && ValidResponse(candidate.value)
                    && candidate.value.actionID == request.actionID
                    && candidate.value.controllerID == reg.controllerID
                    && res.response == candidate.value)
            case Some(e) =>
              || (res.router == r && res.response == ZERO_RESPONSE)
              || (&& request.kind in r.registrations
                  && candidate.Some?
                  && res.response == DefaultResponse(r.registrations[request.kind], request,
                                                     r.registrations[request.kind].onUnavailable))
  {
  }

  // ----- What is asked of a request and of a reply, spelled out -----

  // The refusals, each by its own reason: an invalid request, an action resolved before,
  // and a kind for which no Controller is registered.
  lemma RefusedExactly(r: RouterState, request: ControlRequested, candidate: Option<ControlResponse>)
    ensures var valid := request.pitotVersion == "1" && request.typ == "control.requested"
                         && request.kind != "" && request.actionID != "" && !request.data.NotJson?;
            var known, registered := request.actionID in r.resolved, request.kind in r.registrations;
            var res, timeout := Resolve(r, request, candidate), TimeoutResponse(r, request);
            && (res.error == Some(InvalidRequest) <==> !valid)
            && (res.error == Some(Duplicate) <==> valid && known)
            && (res.error == Some(NoController) <==> valid && !known && !registered)
            && (valid && !known && registered <==> timeout.error == None)
            && (timeout.error.Some? ==> timeout == Resolution(r, ZERO_RESPONSE, res.error) == res)
            && (timeout.error == None ==>
                  var reg := r.registrations[request.kind];
                  timeout.response == ControlResponse("1", "control.response", reg.controllerID, request.actionID,
                                                      reg.onTimeout, ""))
  {
  }

  // A reply to a request that is not refused is accepted exactly when it is a valid
  // response of the registered Controller to this action, and then it is the answer.
  // Otherwise the answer is the on_unavailable default, and the error says what is wrong:
  // the response, the Controller it names, or the action, looked at in this order.
  lemma ReplyAcceptedExactly(r: RouterState, request: ControlRequested, reply: ControlResponse)
    requires ValidRequest(request) && request.actionID !in r.resolved && request.kind in r.registrations
    ensures var reg := r.registrations[request.kind];
            var valid := reply.pitotVersion == "1" && reply.typ == "control.response" && reply.controllerID != ""
                         && reply.actionID != "" && (reply.outcome == "allow" || reply.outcome == "deny");
            var res := Resolve(r, request, Some(reply));
            && (res.error == None <==>
                  valid && reply.controllerID == reg.controllerID && reply.actionID == request.actionID)
            && (res.error == None ==> res.response == reply)
            && (res.error == Some(InvalidResponse) <==> !valid)
            && (res.error == Some(ControllerMismatch) <==> valid && reply.controllerID != reg.controllerID)
            && (res.error == Some(ActionMismatch) <==>
                  valid && reply.controllerID == reg.controllerID && reply.actionID != request.actionID)
            && (res.error.Some? ==>
                  res.response == ControlResponse("1", "control.response", reg.controllerID, request.actionID,
                                                  reg.onUnavailable, ""))
  {
  }

  // Without a reply the answer is the same default, with no error.
  lemma NoReplyIsUnavailable(r: RouterState, request: ControlRequested)
    requires ValidRequest(request) && request.actionID !in r.resolved && request.kind in r.registrations
    ensures var reg := r.registrations[request.kind];
            var res := Resolve(r, request, None);
            res.error == None
            && res.response == ControlResponse("1", "control.response", reg.controllerID, request.actionID,
                                               reg.onUnavailable, "")
  {
  }

  // ----- The class -----

  class Router {
    var registrations: map<string, Registration>
    var resolved: set<string>
    var resolvedOrder: seq<string>
    ghost var marks: seq<string>

    ghost function State(): RouterState
      reads this
    {
      RouterState(registrations, resolved, resolvedOrder, marks)
    }

    ghost predicate Valid()
      reads this
    {
      RouterInv(State())
    }

    constructor ()
      ensures Valid() && State() == EMPTY_ROUTER
    {
      registrations, resolved, resolvedOrder, marks := map[], {}, [], [];
    }

    method Register(reg: Registration) returns (error: Option<Error>)
      requires Valid()
      modifies this`registrations
      ensures Valid()
      ensures error == Some(InvalidRegistration) <==>
                || reg.kind == "" || reg.controllerID == "" || reg.deadlineMS <= 0
                || reg.onTimeout !in {"allow", "deny"} || reg.onUnavailable !in {"allow", "deny"}
      ensures error == Some(AlreadyRegistered) <==> ValidRegistration(reg) && reg.kind in old(registrations)
      ensures error.None? <==> ValidRegistration(reg) && reg.kind !in old(registrations)
      ensures registrations == if error.None? then old(registrations)[reg.kind := reg] else old(registrations)
    {
      if !ValidRegistration(reg) {
        return Some(InvalidRegistration);
      }
      if reg.kind in registrations {
        return Some(AlreadyRegistered);
      }
      registrations := registrations[reg.kind := reg];
      return None;
    }

    method Mark(actionID: string)
      requires Valid() && actionID !in resolved
      modifies this`resolved, this`resolvedOrder, this`marks
      ensures Valid() && State() == MarkResolved(old(State()), actionID)
    {
      MarkKeepsInv(State(), actionID);
      resolved := resolved + {actionID};
      resolvedOrder := resolvedOrder + [actionID];
      marks := marks + [actionID];
      if |resolvedOrder| > RESOLVED_WINDOW {
        var evict := resolvedOrder[0];
        resolvedOrder := resolvedOrder[1..];
        resolved := resolved - {evict};
      }
    }

    method ResolveRequest(request: ControlRequested, candidate: Option<ControlResponse>)
      returns (response: ControlResponse, error: Option<Error>)
      requires Valid()
      modifies this`resolved, this`resolvedOrder, this`marks
      ensures Valid()
      ensures Resolution(State(), response, error) == Resolve(old(State()), request, candidate)
    {
      if !ValidRequest(request) {
        return ZERO_RESPONSE, Some(InvalidRequest);
      }
      if request.actionID in resolved {
        return ZERO_RESPONSE, Some(Duplicate);
      }
      if request.kind !in registrations {
        return ZERO_RESPONSE, Some(NoController);
      }
      var reg := registrations[request.kind];
      Mark(request.actionID);
      if candidate.None? {
        return DefaultResponse(reg, request, reg.onUnavailable), None;
      }
      var mismatch := CheckResponse(reg, request, candidate.value);
      if mismatch.Some? {
        return DefaultResponse(reg, request, reg.onUnavailable), mismatch;
      }
      return ControlResponse(VERSION, TYPE_CONTROL_RESPONSE, reg.controllerID, request.actionID,
                             candidate.value.outcome, candidate.value.message), None;
    }

    method ResolveTimeout(request: ControlRequested) returns (response: ControlResponse, error: Option<Error>)
      requires Valid()
      modifies this`resolved, this`resolvedOrder, this`marks
      ensures Valid()
      ensures Resolution(State(), response, error) == TimeoutResponse(old(State()), request)
    {
      if !ValidRequest(request) {
        return ZERO_RESPONSE, Some(InvalidRequest);
      }
      if request.actionID in resolved {
        return ZERO_RESPONSE, Some(Duplicate);
      }
      if request.kind !in registrations {
        return ZERO_RESPONSE, Some(NoController);
      }
      var reg := registrations[request.kind];
      Mark(request.actionID);
      return DefaultResponse(reg, request, reg.onTimeout), None;
    }
  }
}
