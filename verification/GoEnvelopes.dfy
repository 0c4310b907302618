// schema/wire.go and schema/validate.go: the wire validators of the Go SDK, each
// proved to accept exactly what the rules describe, and the typed validators that
// what the wire admits then passes.
module GoEnvelopes {
  import opened Envelopes
  import opened JsonGrammar
  import opened Accounting
  import opened EnvelopeRules
  import FanOut

  method GoObject(m: map<string, Data>, required: seq<string>, optional: seq<string>) returns (ok: bool)
    ensures ok <==> Shape(Obj(m), Keys(required), Keys(optional))
  {
    var keys: set<string> := {};
    for i := 0 to |required|
      invariant keys == Keys(required[..i])
      invariant forall j :: 0 <= j < i ==> required[j] in m
    {
      if required[i] !in m {
        return false;
      }
      keys := keys + {required[i]};
    }
    assert required[..|required|] == required;
    for i := 0 to |optional|
      invariant keys == Keys(required) + Keys(optional[..i])
    {
      keys := keys + {optional[i]};
    }
    assert optional[..|optional|] == optional;
    var left := m.Keys;
    while left != {}
      invariant left <= m.Keys && forall k :: k in m.Keys && k !in left ==> k in keys
    {
      var k :| k in left;
      if k !in keys {
        return false;
      }
      left := left - {k};
    }
    return true;
  }

  predicate GoText(m: map<string, Data>, k: string, nonempty: bool) {
    k in m && m[k].Str? && (!nonempty || m[k].text != "")
  }

  predicate GoOptionalText(m: map<string, Data>, k: string) {
    k !in m || GoText(m, k, false)
  }

  predicate GoEqual(m: map<string, Data>, k: string, wanted: string) {
    k in m && m[k].Str? && m[k].text == wanted
  }

  method GoOneOf(m: map<string, Data>, k: string, values: seq<string>) returns (ok: bool)
    ensures ok <==> OneOf(m, k, Keys(values))
  {
    for i := 0 to |values|
      invariant forall j :: 0 <= j < i ==> !GoEqual(m, k, values[j])
    {
      if GoEqual(m, k, values[i]) {
        return true;
      }
    }
    return false;
  }

  predicate GoCount(m: map<string, Data>, k: string) {
    k in m && m[k].Num? && GoCounter(RenderNumeral(m[k].numeral))
  }

  method GoContent(c: map<string, Data>) returns (ok: bool)
    ensures ok <==> ContentRule(Obj(c))
  {
    if "mode" in c && c["mode"] == Str("full") {
      ok := GoObject(c, ["mode", "full"], []);
      ok := ok && GoText(c, "full", false);
    } else if "mode" in c && c["mode"] == Str("omit") {
      ok := GoObject(c, ["mode"], []);
    } else if "mode" in c && c["mode"] == Str("sha256") {
      var shape := GoObject(c, ["mode", "sha256"], []);
      if !shape || !c["sha256"].Str? || |c["sha256"].text| != 64 {
        return false;
      }
      var s := c["sha256"].text;
      ok := forall i :: 0 <= i < |s| ==> IsHexChar(s[i]);
    } else {
      ok := false;
    }
  }

  method GoHost(h: map<string, Data>) returns (ok: bool)
    ensures ok <==> HostRule(Obj(h))
  {
    ok := GoObject(h, ["name"], ["adapter_version"]);
    ok := ok && GoText(h, "name", true) && GoOptionalText(h, "adapter_version");
  }

  method GoObservation(o: map<string, Data>) returns (ok: bool)
    ensures ok <==> ObservationRule(Obj(o))
  {
    ok := GoObject(o, ["source", "fidelity"], []);
    var source := GoOneOf(o, "source", ["host_hook", "host_event"]);
    var fidelity := GoOneOf(o, "fidelity", ["direct", "estimated"]);
    ok := ok && source && fidelity;
  }

  method GoAction(a: map<string, Data>) returns (ok: bool)
    ensures ok <==> ActionRule(Obj(a))
  {
    ok := GoObject(a, ["id", "kind"], []);
    ok := ok && GoText(a, "id", true) && GoText(a, "kind", true);
  }

  method GoUsage(u: map<string, Data>) returns (ok: bool)
    ensures ok <==> UsageRule(Obj(u))
  {
    hide IsCount, GoCounter, RenderNumeral;
    ok := GoObject(u, ["input_tokens", "output_tokens"], []);
    ok := ok && GoCount(u, "input_tokens") && GoCount(u, "output_tokens");
    if "input_tokens" in u && u["input_tokens"].Num? {
      CountersAgree(u, "input_tokens");
    }
    if "output_tokens" in u && u["output_tokens"].Num? {
      CountersAgree(u, "output_tokens");
    }
  }

  method GoEventTop(m: map<string, Data>) returns (ok: bool)
    ensures ok <==> EventTop(Obj(m))
  {
    hide Keys;
    ok := GoObject(m, ["pitot_version", "type", "host", "observation"],
                   ["id", "time", "session_id", "action", "content", "usage"]);
    KeysOfFour("pitot_version", "type", "host", "observation");
    KeysOfSix("id", "time", "session_id", "action", "content", "usage");
    KeysOfTwo("action.requested", "model.usage");
    if !ok || !GoEqual(m, "pitot_version", "1") {
      return false;
    }
    ok := GoOneOf(m, "type", ["action.requested", "model.usage"]);
    if !ok {
      return false;
    }
    var names := ["id", "time", "session_id"];
    for i := 0 to 3
      invariant forall j :: 0 <= j < i ==> TextIfAt(m, names[j])
    {
      if !GoOptionalText(m, names[i]) {
        return false;
      }
    }
    assert TextIfAt(m, names[0]) && TextIfAt(m, names[1]) && TextIfAt(m, names[2]);
  }

  // eventWire, on a decoded value: DecodeEnvelope refuses any but an object first.
  method GoEvent(v: Data) returns (ok: bool)
    ensures ok <==> EventRule(v)
  {
    hide HostRule, ObservationRule, ActionRule, UsageRuleBy, ContentRule, Keys;
    if !v.Obj? {
      return false;
    }
    var m := v.members;
    ok := GoEventTop(m);
    if !ok {
      return;
    }
    NestedIsObject(m["host"]);
    NestedIsObject(m["observation"]);
    if !m["host"].Obj? || !m["observation"].Obj? {
      return false;
    }
    var host := GoHost(m["host"].members);
    var observation := GoObservation(m["observation"].members);
    var action := !GoEqual(m, "type", "action.requested");
    if "action" in m {
      NestedIsObject(m["action"]);
      action := false;
      if m["action"].Obj? {
        action := GoAction(m["action"].members);
      }
    }
    var usage := !GoEqual(m, "type", "model.usage");
    if "usage" in m {
      NestedIsObject(m["usage"]);
      usage := false;
      if m["usage"].Obj? {
        usage := GoUsage(m["usage"].members);
      }
    }
    var content := true;
    if "content" in m {
      NestedIsObject(m["content"]);
      content := false;
      if m["content"].Obj? {
        content := GoContent(m["content"].members);
      }
    }
    ok := host && observation && action && usage && content;
  }

  method GoRequest(v: Data) returns (ok: bool)
    ensures ok <==> RequestRule(v)
  {
    hide Keys;
    KeysOfFour("pitot_version", "type", "kind", "action_id");
    KeysOfOne("data");
    if !v.Obj? {
      return false;
    }
    var m := v.members;
    ok := GoObject(m, ["pitot_version", "type", "kind", "action_id"], ["data"]);
    ok := ok && GoEqual(m, "pitot_version", "1") && GoEqual(m, "type", "control.requested")
            && GoText(m, "kind", true) && GoText(m, "action_id", true);
  }

  method GoResponse(v: Data) returns (ok: bool)
    ensures ok <==> ResponseRule(v)
  {
    hide Keys;
    KeysOfFive("pitot_version", "type", "controller_id", "action_id", "outcome");
    KeysOfOne("message");
    KeysOfTwo("allow", "deny");
    if !v.Obj? {
      return false;
    }
    var m := v.members;
    ok := GoObject(m, ["pitot_version", "type", "controller_id", "action_id", "outcome"], ["message"]);
    var outcome := GoOneOf(m, "outcome", ["allow", "deny"]);
    ok := ok && GoEqual(m, "pitot_version", "1") && GoEqual(m, "type", "control.response")
            && GoText(m, "controller_id", true) && GoText(m, "action_id", true) && outcome
            && GoOptionalText(m, "message");
  }

  method GoFault(v: Data) returns (ok: bool)
    ensures ok <==> FaultRule(v)
  {
    hide Keys;
    KeysOfFour("pitot_version", "type", "host", "reason");
    KeysOfOne("action_id");
    KeysOfThree("empty-command", "malformed-event", "unsupported-host");
    if !v.Obj? {
      return false;
    }
    var m := v.members;
    ok := GoObject(m, ["pitot_version", "type", "host", "reason"], ["action_id"]);
    var reason := GoOneOf(m, "reason", ["empty-command", "malformed-event", "unsupported-host"]);
    ok := ok && GoEqual(m, "pitot_version", "1") && GoEqual(m, "type", "boundary.fault")
            && GoText(m, "host", true) && GoOptionalText(m, "action_id") && reason;
  }

  // ----- Typed values -----

  datatype Action = Action(id: string, kind: string)
  datatype Usage = Usage(inputTokens: int, outputTokens: int)
  datatype Event = Event(
    pitotVersion: string, id: string, typ: string, time: string, hostName: string, adapterVersion: string,
    sessionID: string, action: Option<Action>, content: Option<FanOut.ContentValue>, usage: Option<Usage>,
    source: string, fidelity: string)
  datatype BoundaryFault = BoundaryFault(
    pitotVersion: string, typ: string, host: string, actionID: string, reason: string)

  // schema/validate.go, ValidateEvent
  predicate ValidEvent(codec: FanOut.Codec, e: Event) {
    && e.pitotVersion == VERSION && e.hostName != ""
    && (e.source == "host_hook" || e.source == "host_event")
    && (e.fidelity == "direct" || e.fidelity == "estimated")
    && (e.action.Some? ==> e.action.value.id != "" && e.action.value.kind != "")
    && (e.usage.Some? ==> 0 <= e.usage.value.inputTokens <= MAX_COUNT && 0 <= e.usage.value.outputTokens <= MAX_COUNT)
    && ((e.typ == "action.requested" && e.action.Some?) || (e.typ == "model.usage" && e.usage.Some?))
    && (e.content.Some? ==> FanOut.ValidContent(codec, e.content.value))
  }

  // schema/validate.go, ValidateFault
  predicate ValidFault(f: BoundaryFault) {
    && f.pitotVersion == VERSION && f.typ == "boundary.fault" && f.host != ""
    && (f.reason == "empty-command" || f.reason == "malformed-event" || f.reason == "unsupported-host")
  }

  // json.Unmarshal into a typed struct, of an object whose members are exactly
  // spelled: an absent member leaves the zero value.
  function TextOf(m: map<string, Data>, k: string): string {
    if k in m && m[k].Str? then m[k].text else ""
  }

  function IntOf(m: map<string, Data>, k: string): int {
    if k in m && m[k].Num? then
      var n := m[k].numeral;
      if n.minus then -(NatOf(n.whole) as int) else NatOf(n.whole)
    else 0
  }

  function MembersOf(m: map<string, Data>, k: string): map<string, Data> {
    if k in m && m[k].Obj? then m[k].members else map[]
  }

  // `raw` is the JSON text of a string as the line spells it.
  function TypedContent(raw: string -> seq<byte>, c: map<string, Data>): FanOut.ContentValue {
    FanOut.ContentValue(TextOf(c, "mode"), TextOf(c, "sha256"), if "full" in c then raw(TextOf(c, "full")) else [])
  }

  function TypedEvent(raw: string -> seq<byte>, m: map<string, Data>): Event {
    var host, observation := MembersOf(m, "host"), MembersOf(m, "observation");
    var action, usage := MembersOf(m, "action"), MembersOf(m, "usage");
    Event(TextOf(m, "pitot_version"), TextOf(m, "id"), TextOf(m, "type"), TextOf(m, "time"),
          TextOf(host, "name"), TextOf(host, "adapter_version"), TextOf(m, "session_id"),
          if "action" in m then Some(Action(TextOf(action, "id"), TextOf(action, "kind"))) else None,
          if "content" in m then Some(TypedContent(raw, MembersOf(m, "content"))) else None,
          if "usage" in m then Some(Usage(IntOf(usage, "input_tokens"), IntOf(usage, "output_tokens"))) else None,
          TextOf(observation, "source"), TextOf(observation, "fidelity"))
  }

  function TypedRequest(m: map<string, Data>, raw: Data -> string): ControlRequested {
    ControlRequested(TextOf(m, "pitot_version"), TextOf(m, "type"), TextOf(m, "kind"), TextOf(m, "action_id"),
                     if "data" in m then Json(raw(m["data"])) else Absent)
  }

  function TypedResponse(m: map<string, Data>): ControlResponse {
    ControlResponse(TextOf(m, "pitot_version"), TextOf(m, "type"), TextOf(m, "controller_id"), TextOf(m, "action_id"),
                    TextOf(m, "outcome"), TextOf(m, "message"))
  }

  function TypedFault(m: map<string, Data>): BoundaryFault {
    BoundaryFault(TextOf(m, "pitot_version"), TextOf(m, "type"), TextOf(m, "host"), TextOf(m, "action_id"),
                  TextOf(m, "reason"))
  }

  // A codec that reads back the JSON strings it is given and knows hexadecimal text.
  ghost predicate Faithful(codec: FanOut.Codec, raw: string -> seq<byte>) {
    && (forall s :: codec.decode(raw(s)).Some?)
    && (forall s :: IsDigest(s) ==> codec.isHex(s))
  }

  lemma ContentPassesTyped(codec: FanOut.Codec, raw: string -> seq<byte>, m: map<string, Data>)
    requires Faithful(codec, raw) && "content" in m && ContentRule(m["content"])
    ensures FanOut.ValidContent(codec, TypedContent(raw, MembersOf(m, "content")))
  {
  }

  lemma CountsPassTyped(m: map<string, Data>)
    requires "usage" in m && UsageRule(m["usage"])
    ensures 0 <= IntOf(MembersOf(m, "usage"), "input_tokens") <= MAX_COUNT
    ensures 0 <= IntOf(MembersOf(m, "usage"), "output_tokens") <= MAX_COUNT
  {
  }

  lemma PartsPassTyped(v: Data)
    requires EventRule(v)
    ensures var m := v.members;
            && TextOf(MembersOf(m, "host"), "name") != ""
            && TextOf(MembersOf(m, "observation"), "source") in {"host_hook", "host_event"}
            && TextOf(MembersOf(m, "observation"), "fidelity") in {"direct", "estimated"}
            && ("action" in m ==>
                  TextOf(MembersOf(m, "action"), "id") != "" && TextOf(MembersOf(m, "action"), "kind") != "")
  {
    hide ContentRule, UsageRule;
  }

  // Whatever DecodeEnvelope admits passes the typed validator of its envelope.
  lemma WireEventPassesTyped(codec: FanOut.Codec, raw: string -> seq<byte>, v: Data)
    requires Faithful(codec, raw) && EventRule(v)
    ensures ValidEvent(codec, TypedEvent(raw, v.members))
  {
    hide ContentRule, UsageRule, HostRule, ObservationRule, ActionRule, FanOut.ValidContent, TypedContent, IntOf;
    hide Faithful, MembersOf;
    var m := v.members;
    PartsPassTyped(v);
    if "content" in m {
      ContentPassesTyped(codec, raw, m);
    }
    if "usage" in m {
      CountsPassTyped(m);
    }
  }

  lemma WireControlPassesTyped(v: Data, raw: Data -> string)
    ensures RequestRule(v) ==> ValidRequest(TypedRequest(v.members, raw))
    ensures ResponseRule(v) ==> ValidResponse(TypedResponse(v.members))
    ensures FaultRule(v) ==> ValidFault(TypedFault(v.members))
  {
  }
}
