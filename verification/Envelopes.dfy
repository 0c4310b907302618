// The control envelopes shared by the bridge and the controller worker
// (schema/schema.go, schema/validate.go).
module Envelopes {

  datatype Option<+T> = None | Some(value: T)

  newtype byte = x: int | 0 <= x < 256

  const VERSION := "1"
  const TYPE_CONTROL_REQUESTED := "control.requested"
  const TYPE_CONTROL_RESPONSE := "control.response"
  const OUTCOME_ALLOW := "allow"
  const OUTCOME_DENY := "deny"

  // Controller-owned request data: absent, or raw JSON that the JSON decoder
  // accepts or refuses.
  datatype RequestData = Absent | Json(raw: string) | NotJson(raw: string)

  datatype ControlRequested = ControlRequested(
    pitotVersion: string, typ: string, kind: string, actionID: string, data: RequestData)

  datatype ControlResponse = ControlResponse(
    pitotVersion: string, typ: string, controllerID: string, actionID: string, outcome: string, message: string)

  // The zero value a Go function returns beside an error.
  const ZERO_RESPONSE := ControlResponse("", "", "", "", "", "")

  predicate ValidOutcome(outcome: string) {
    outcome == OUTCOME_ALLOW || outcome == OUTCOME_DENY
  }

  predicate ValidRequest(request: ControlRequested) {
    && request.pitotVersion == VERSION
    && request.typ == TYPE_CONTROL_REQUESTED
    && request.kind != ""
    && request.actionID != ""
    && !request.data.NotJson?
  }

  predicate ValidResponse(response: ControlResponse) {
    && response.pitotVersion == VERSION
    && response.typ == TYPE_CONTROL_RESPONSE
    && response.controllerID != ""
    && response.actionID != ""
    && ValidOutcome(response.outcome)
  }
}
