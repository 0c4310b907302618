// The Devin ACP client (internal/devinacp/client.go): what each inbound message does,
// as functions on a value, and the class whose methods do it in place. What the
// client cannot decide itself - decoding, identities, the runtime's decision, a
// broken pipe - arrives beside each message.
module Acp {
  import opened Envelopes

  const SESSION_UPDATE := "session/update"
  const REQUEST_PERMISSION := "session/request_permission"
  const ALLOW_ONCE := "allow_once"
  const REJECT_ONCE := "reject_once"

  datatype PermissionOption = PermissionOption(optionID: string, kind: string)

  // A tool_call update names the tool and its command; absent ones are empty.
  datatype Update =
    | BadUpdate
    | ToolCall(sessionID: string, toolCallID: string, tool: string, command: string)
    | MessageChunk(contentType: string, text: string)
    | BadChunk
    | OtherUpdate

  // A request whose parameters do not decode may still yield its options.
  datatype Permission =
    | BadPermission(options: seq<PermissionOption>)
    | Permission(sessionID: string, toolCallID: string, options: seq<PermissionOption>)

  datatype Params = UpdateParams(update: Update) | PermissionParams(permission: Permission) | OtherParams

  // What the runtime said of a delivered action.
  datatype Delivery = DeliveryFailed | Delivered(response: Option<ControlResponse>)

  // The outside answers to one message. `warned` is whether the diagnostic could be printed.
  datatype Outside = Outside(
    decodes: bool, actionID: Option<string>, delivery: Delivery, writes: bool, prints: bool)

  // `name` is the method; an absent id is empty.
  datatype Message = Message(id: string, name: string, params: Params, outside: Outside)

  datatype Outcome = Cancelled | Selected(optionID: string)

  datatype Frame =
    | Request(number: nat, name: string)
    | Answer(id: string, outcome: Outcome)
    | Unsupported(id: string)

  // The event handed to the runtime.
  datatype ActionEvent = ActionEvent(command: string, actionID: string, sessionID: string)

  datatype Client = Client(
    commands: map<string, string>, nextID: nat, metaAbsenceReported: bool,
    sent: seq<Frame>, delivered: seq<ActionEvent>, output: string, warnings: nat)

  datatype Handled = Handled(client: Client, ok: bool)

  function CommandKey(sessionID: string, toolCallID: string): string {
    sessionID + [0 as char] + toolCallID
  }

  // The first option of the kind; empty when there is none.
  function OptionFor(options: seq<PermissionOption>, kind: string): string {
    if options == [] then ""
    else if options[0].kind == kind then options[0].optionID
    else OptionFor(options[1..], kind)
  }

  function Write(c: Client, f: Frame, writes: bool): Handled {
    if writes then Handled(c.(sent := c.sent + [f]), true) else Handled(c, false)
  }

  // ----- Updates -----

  predicate Caches(u: Update) {
    u.ToolCall? && u.sessionID != "" && u.toolCallID != "" && u.tool == "exec" && u.command != ""
  }

  function HandleUpdate(c: Client, p: Params, prints: bool): Handled {
    if !p.UpdateParams? || p.update.BadUpdate? || p.update.BadChunk? then Handled(c, false)
    else
      match p.update
      case ToolCall(sessionID, toolCallID, tool, command) =>
        if Caches(p.update) then
          Handled(c.(commands := c.commands[CommandKey(sessionID, toolCallID) := command]), true)
        else if tool == "" && command != "" && !c.metaAbsenceReported then
          Handled(c.(metaAbsenceReported := true, warnings := c.warnings + 1), true)
        else Handled(c, true)
      case MessageChunk(contentType, text) =>
        if contentType != "text" || text == "" then Handled(c, true)
        else if prints then Handled(c.(output := c.output + text), true)
        else Handled(c, false)
      case _ => Handled(c, true)
  }

  // ----- Permissions -----

  function CachedCommand(c: Client, p: Permission): string
    requires p.Permission?
  {
    var key := CommandKey(p.sessionID, p.toolCallID);
    if key in c.commands then c.commands[key] else ""
  }

  // No Controller, or one that allowed this very action.
  predicate Allowed(d: Delivery, actionID: string) {
    d.Delivered?
    && (d.response.Some? ==> d.response.value.outcome == OUTCOME_ALLOW && d.response.value.actionID == actionID)
  }

  // The request reaches the runtime.
  predicate Delivers(c: Client, p: Permission, o: Outside) {
    && p.Permission? && OptionFor(p.options, REJECT_ONCE) != "" && CachedCommand(c, p) != ""
    && o.decodes && o.actionID.Some?
  }

  // The request is answered with allow_once.
  predicate Grants(c: Client, p: Permission, o: Outside) {
    Delivers(c, p, o) && Allowed(o.delivery, o.actionID.value) && OptionFor(p.options, ALLOW_ONCE) != ""
  }

  function HandlePermission(c: Client, id: string, p: Permission, o: Outside): Handled {
    var reject := OptionFor(p.options, REJECT_ONCE);
    if p.BadPermission? then
      if reject != "" then Write(c, Answer(id, Selected(reject)), o.writes).(ok := false) else Handled(c, false)
    else if reject == "" then Write(c, Answer(id, Cancelled), o.writes).(ok := false)
    else if !Delivers(c, p, o) then Write(c, Answer(id, Selected(reject)), o.writes)
    else
      var event := ActionEvent(CachedCommand(c, p), o.actionID.value, p.sessionID);
      var used := c.(commands := c.commands - {CommandKey(p.sessionID, p.toolCallID)},
                     delivered := c.delivered + [event]);
      Write(used, Answer(id, Selected(if Grants(c, p, o) then OptionFor(p.options, ALLOW_ONCE) else reject)), o.writes)
  }

  function HandleInbound(c: Client, m: Message): Handled {
    if m.name == SESSION_UPDATE then HandleUpdate(c, m.params, m.outside.prints)
    else if m.name == REQUEST_PERMISSION then
      if m.id == "" then Handled(c, false) else HandlePermission(c, m.id, PermissionOf(m.params), m.outside)
    else if m.id == "" then Handled(c, true)
    else Write(c, Unsupported(m.id), m.outside.writes)
  }

  function PermissionOf(p: Params): Permission {
    if p.PermissionParams? then p.permission else BadPermission([])
  }

  // ----- The client in place -----

  class Transport {
    var commands: map<string, string>
    var nextID: nat
    var metaAbsenceReported: bool
    // What has gone to the child, to the runtime and to the user.
    var sent: seq<Frame>
    var delivered: seq<ActionEvent>
    var output: string
    var warnings: nat

    function State(): Client
      reads this
    {
      Client(commands, nextID, metaAbsenceReported, sent, delivered, output, warnings)
    }

    constructor ()
      ensures State() == Client(map[], 0, false, [], [], "", 0)
    {
      commands, nextID, metaAbsenceReported := map[], 0, false;
      sent, delivered, output, warnings := [], [], "", 0;
    }

    method Emit(f: Frame, writes: bool) returns (ok: bool)
      modifies this
      ensures Handled(State(), ok) == Write(old(State()), f, writes)
    {
      if writes {
        sent := sent + [f];
      }
      return writes;
    }

    method Update(p: Params, prints: bool) returns (ok: bool)
      modifies this
      ensures Handled(State(), ok) == HandleUpdate(old(State()), p, prints)
    {
      if !p.UpdateParams? || p.update.BadUpdate? {
        return false;
      }
      match p.update {
        case ToolCall(sessionID, toolCallID, tool, command) =>
          if sessionID != "" && toolCallID != "" && tool == "exec" && command != "" {
            commands := commands[CommandKey(sessionID, toolCallID) := command];
          } else if tool == "" && command != "" && !metaAbsenceReported {
            metaAbsenceReported := true;
            warnings := warnings + 1;
          }
          return true;
        case BadChunk => return false;
        case MessageChunk(contentType, text) =>
          if contentType == "text" && text != "" {
            if !prints {
              return false;
            }
            output := output + text;
          }
          return true;
        case _ => return true;
      }
    }

    method FindOption(options: seq<PermissionOption>, kind: string) returns (optionID: string)
      ensures optionID == OptionFor(options, kind)
    {
      for i := 0 to |options|
        invariant OptionFor(options, kind) == OptionFor(options[i..], kind)
      {
        if options[i].kind == kind {
          return options[i].optionID;
        }
      }
      return "";
    }

    method RequestPermission(id: string, p: Permission, o: Outside) returns (ok: bool)
      modifies this
      ensures Handled(State(), ok) == HandlePermission(old(State()), id, p, o)
    {
      hide OptionFor, CommandKey;
      var reject := FindOption(p.options, REJECT_ONCE);
      if p.BadPermission? {
        if reject != "" {
          var _ := Emit(Answer(id, Selected(reject)), o.writes);
        }
        return false;
      }
      if reject == "" {
        var _ := Emit(Answer(id, Cancelled), o.writes);
        return false;
      }
      var key := CommandKey(p.sessionID, p.toolCallID);
      var command := if key in commands then commands[key] else "";
      if command == "" || !o.decodes || o.actionID.None? {
        ok := Emit(Answer(id, Selected(reject)), o.writes);
        return;
      }
      ok := Decide(id, p, o, command, reject);
    }

    // The action is delivered once, and its command is used up whatever the answer.
    method Decide(id: string, p: Permission, o: Outside, command: string, reject: string) returns (ok: bool)
      requires Delivers(State(), p, o) && command == CachedCommand(State(), p)
      requires reject == OptionFor(p.options, REJECT_ONCE)
      modifies this
      ensures Handled(State(), ok) == HandlePermission(old(State()), id, p, o)
    {
      hide OptionFor, CommandKey;
      var actionID := o.actionID.value;
      delivered := delivered + [ActionEvent(command, actionID, p.sessionID)];
      var allow := o.delivery.Delivered?
        && (o.delivery.response.None? || o.delivery.response.value.outcome == OUTCOME_ALLOW);
      if o.delivery.Delivered? && o.delivery.response.Some? && o.delivery.response.value.actionID != actionID {
        allow := false;
      }
      var key := CommandKey(p.sessionID, p.toolCallID);
      if allow {
        var option := FindOption(p.options, ALLOW_ONCE);
        if option != "" {
          commands := commands - {key};
          ok := Emit(Answer(id, Selected(option)), o.writes);
          return;
        }
      }
      commands := commands - {key};
      ok := Emit(Answer(id, Selected(reject)), o.writes);
    }

    method Inbound(m: Message) returns (ok: bool)
      modifies this
      ensures Handled(State(), ok) == HandleInbound(old(State()), m)
    {
      hide HandleUpdate, HandlePermission, Write;
      if m.name == SESSION_UPDATE {
        ok := Update(m.params, m.outside.prints);
      } else if m.name == REQUEST_PERMISSION {
        if m.id == "" {
          return false;
        }
        ok := RequestPermission(m.id, PermissionOf(m.params), m.outside);
      } else if m.id == "" {
        return true;
      } else {
        ok := Emit(Unsupported(m.id), m.outside.writes);
      }
    }

    // Sends a request, then serves inbound messages until its response arrives. The
    // number of messages read, and whether the call succeeded.
    method Call(name: string, inbox: seq<Incoming>, writes: bool) returns (ok: bool, read: nat)
      modifies this
      ensures read <= |inbox| && nextID == old(nextID) + 1
      ensures var c := old(State());
              Exchanged(State(), ok, read) == Exchange(c, name, inbox, writes)
    {
      hide HandleInbound;
      nextID := nextID + 1;
      var id := nextID;
      ghost var c := State();
      ok := Emit(Request(id, name), writes);
      if !ok {
        return false, 0;
      }
      read := 0;
      ghost var started := State();
      while read < |inbox|
        invariant read <= |inbox| && nextID == old(nextID) + 1
        invariant Serve(started, id, inbox) == Serve(State(), id, inbox[read..]).Later(read)
      {
        assert inbox[read..][1..] == inbox[read + 1..];
        ghost var here := State();
        var incoming := inbox[read];
        read := read + 1;
        if incoming.Malformed? {
          return false, read;
        }
        if incoming.Response? {
          return incoming.number == Some(id) && !incoming.failed, read;
        }
        ok := Inbound(incoming.message);
        HandlersKeepID(here, incoming.message);
        if !ok {
          return false, read;
        }
      }
      assert inbox[read..] == [];
      return false, read;
    }
  }

  // ----- One call -----

  // A line from the child: not JSON-RPC 2.0, a response with its id and whether it
  // failed or did not decode, or a message to handle.
  datatype Incoming = Malformed | Response(number: Option<nat>, failed: bool) | Inbound(message: Message)

  datatype Exchanged = Exchanged(client: Client, ok: bool, read: nat) {
    function Later(n: nat): Exchanged {
      this.(read := read + n)
    }
  }

  function Serve(c: Client, id: nat, inbox: seq<Incoming>): (r: Exchanged)
    ensures r.read <= |inbox|
    decreases |inbox|
  {
    if inbox == [] then Exchanged(c, false, 0)
    else if inbox[0].Malformed? then Exchanged(c, false, 1)
    else if inbox[0].Response? then Exchanged(c, inbox[0].number == Some(id) && !inbox[0].failed, 1)
    else
      var h := HandleInbound(c, inbox[0].message);
      if h.ok then Serve(h.client, id, inbox[1..]).Later(1) else Exchanged(h.client, false, 1)
  }

  function Exchange(c: Client, name: string, inbox: seq<Incoming>, writes: bool): Exchanged {
    var numbered := c.(nextID := c.nextID + 1);
    var h := Write(numbered, Request(numbered.nextID, name), writes);
    if h.ok then Serve(h.client, numbered.nextID, inbox) else Exchanged(h.client, false, 0)
  }

  lemma HandlersKeepID(c: Client, m: Message)
    ensures HandleInbound(c, m).client.nextID == c.nextID
  {
  }
}
