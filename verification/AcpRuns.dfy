// Runs of the ACP client: the requests it sends and every message it handles.
module AcpRuns {
  import opened Envelopes
  import opened Acp

  datatype Event = Begin(name: string, writes: bool) | Got(message: Message)

  function Step(c: Client, e: Event): Handled {
    match e
    case Begin(name, writes) => Write(c.(nextID := c.nextID + 1), Request(c.nextID + 1, name), writes)
    case Got(m) => HandleInbound(c, m)
  }

  // clients[i] is the client before events[i].
  ghost predicate IsRun(clients: seq<Client>, events: seq<Event>) {
    && |clients| == |events| + 1
    && clients[0].commands == map[] && clients[0].sent == []
    && forall i :: 0 <= i < |events| ==> clients[i + 1] == Step(clients[i], events[i]).client
  }

  // The first n events were handled without error. An error ends the client.
  ghost predicate Healthy(clients: seq<Client>, events: seq<Event>, n: nat)
    requires |clients| == |events| + 1 && n <= |events|
  {
    forall i :: 0 <= i < n ==> Step(clients[i], events[i]).ok
  }

  // ----- One answer for each request -----

  predicate IsPermission(e: Event) {
    e.Got? && e.message.name == REQUEST_PERMISSION && e.message.id != ""
  }

  predicate IsUnknown(e: Event) {
    e.Got? && e.message.name != REQUEST_PERMISSION && e.message.name != SESSION_UPDATE && e.message.id != ""
  }

  datatype Reply = ToPermission(id: string) | ToUnknown(id: string)

  // What the handled events call for, and what was sent.
  function Due(events: seq<Event>): seq<Reply> {
    if events == [] then []
    else
      var e := events[|events| - 1];
      Due(events[..|events| - 1])
      + if IsPermission(e) then [ToPermission(e.message.id)] else if IsUnknown(e) then [ToUnknown(e.message.id)] else []
  }

  function Replies(sent: seq<Frame>): seq<Reply> {
    if sent == [] then []
    else
      Replies(sent[..|sent| - 1])
      + match sent[|sent| - 1] {
          case Request(_, _) => []
          case Answer(id, _) => [ToPermission(id)]
          case Unsupported(id) => [ToUnknown(id)]
        }
  }

  lemma RepliesGrow(sent: seq<Frame>, f: Frame)
    ensures Replies(sent + [f])
         == Replies(sent) + if f.Request? then [] else if f.Answer? then [ToPermission(f.id)] else [ToUnknown(f.id)]
  {
    assert (sent + [f])[..|sent|] == sent;
  }

  // A step sends at most one frame, and the reply that is due if it reports no error.
  lemma ReplyStep(c: Client, e: Event)
    ensures var h := Step(c, e);
            && (h.ok ==> Replies(h.client.sent) == Replies(c.sent) + Due([e]))
            && (Replies(h.client.sent) == Replies(c.sent) || Replies(h.client.sent) == Replies(c.sent) + Due([e]))
  {
    assert [e][..0] == [];
    if e.Begin? {
      RepliesGrow(c.sent, Request(c.nextID + 1, e.name));
    } else if IsPermission(e) {
      hide Due;
      AnswerStep(c, e.message.id, PermissionOf(e.message.params), e.message.outside);
      DueOne(e);
    } else {
      hide HandlePermission;
      RepliesGrow(c.sent, Unsupported(e.message.id));
      UpdateSendsNothing(c, e.message.params, e.message.outside.prints);
      hide HandleUpdate;
    }
  }

  lemma DueOne(e: Event)
    requires IsPermission(e)
    ensures Due([e]) == [ToPermission(e.message.id)]
  {
    assert [e][..0] == [];
  }

  lemma UpdateSendsNothing(c: Client, p: Params, prints: bool)
    ensures HandleUpdate(c, p, prints).client.sent == c.sent
  {
  }

  lemma AnswerStep(c: Client, id: string, p: Permission, o: Outside)
    ensures var h := HandlePermission(c, id, p, o);
            && (h.ok ==> Replies(h.client.sent) == Replies(c.sent) + [ToPermission(id)])
            && (|| Replies(h.client.sent) == Replies(c.sent)
                || Replies(h.client.sent) == Replies(c.sent) + [ToPermission(id)])
  {
    hide OptionFor, Delivers, Grants, CachedCommand, CommandKey;
    var h := HandlePermission(c, id, p, o);
    if h.client.sent != c.sent {
      RepliesGrow(c.sent, h.client.sent[|c.sent|]);
    }
    hide Replies;
  }

  // Handled without error, every permission request has been answered exactly once,
  // with its own id and in order; so has every unknown request.
  lemma {:induction false} EachRequestAnsweredOnce(clients: seq<Client>, events: seq<Event>, n: nat)
    requires IsRun(clients, events) && n <= |events| && Healthy(clients, events, n)
    ensures Replies(clients[n].sent) == Due(events[..n])
  {
    if n > 0 {
      hide Step;
      EachRequestAnsweredOnce(clients, events, n - 1);
      ReplyStep(clients[n - 1], events[n - 1]);
      DueGrows(events[..n - 1], events[n - 1]);
      assert events[..n - 1] + [events[n - 1]] == events[..n];
    }
  }

  lemma DueGrows(events: seq<Event>, e: Event)
    ensures Due(events + [e]) == Due(events) + Due([e])
  {
    assert (events + [e])[..|events|] == events;
    assert [e][..0] == [];
  }

  // ----- What an allow takes -----

  predicate CachesKey(e: Event, key: string) {
    && e.Got? && e.message.name == SESSION_UPDATE && e.message.params.UpdateParams?
    && Caches(e.message.params.update)
    && CommandKey(e.message.params.update.sessionID, e.message.params.update.toolCallID) == key
  }

  function KeyOf(p: Permission): string
    requires p.Permission?
  {
    CommandKey(p.sessionID, p.toolCallID)
  }

  // The event answers a permission request with allow_once.
  predicate AllowsAt(c: Client, e: Event) {
    IsPermission(e) && Grants(c, PermissionOf(e.message.params), e.message.outside)
  }

  lemma CommandStep(c: Client, e: Event, key: string)
    requires key in Step(c, e).client.commands
    ensures CachesKey(e, key) ==> Step(c, e).client.commands[key] == e.message.params.update.command
    ensures !CachesKey(e, key) ==> key in c.commands && Step(c, e).client.commands[key] == c.commands[key]
    ensures IsPermission(e) && PermissionOf(e.message.params).Permission?
            && KeyOf(PermissionOf(e.message.params)) == key
        ==> !Delivers(c, PermissionOf(e.message.params), e.message.outside)
  {
    hide OptionFor, CommandKey, Grants, CachedCommand;
  }

  // A cached command is the one the last exec tool_call of its key brought.
  ghost predicate CachedAt(clients: seq<Client>, events: seq<Event>, key: string, j: nat, n: nat)
    requires |clients| == |events| + 1 && n <= |events|
  {
    && j < n && CachesKey(events[j], key)
    && (forall i :: j < i < n ==> !CachesKey(events[i], key))
    && key in clients[n].commands && clients[n].commands[key] == events[j].message.params.update.command
  }

  lemma {:induction false} CommandHasOrigin(clients: seq<Client>, events: seq<Event>, key: string, n: nat)
    returns (j: nat)
    requires IsRun(clients, events) && n <= |events| && key in clients[n].commands
    ensures CachedAt(clients, events, key, j, n)
  {
    hide Step, CachesKey;
    CommandStep(clients[n - 1], events[n - 1], key);
    if CachesKey(events[n - 1], key) {
      j := n - 1;
    } else {
      j := CommandHasOrigin(clients, events, key, n - 1);
    }
  }

  // The first option offered of the kind.
  predicate FirstOption(options: seq<PermissionOption>, kind: string, i: nat) {
    i < |options| && options[i].kind == kind && forall j :: 0 <= j < i ==> options[j].kind != kind
  }

  // The client picks the first option of the kind, and none if none is offered.
  lemma {:induction false} PicksFirst(options: seq<PermissionOption>, kind: string)
    ensures forall i: nat :: FirstOption(options, kind, i) ==> OptionFor(options, kind) == options[i].optionID
    ensures (exists i: nat :: FirstOption(options, kind, i))
         || ((forall i :: 0 <= i < |options| ==> options[i].kind != kind) && OptionFor(options, kind) == "")
  {
    if options != [] {
      var rest := options[1..];
      PicksFirst(rest, kind);
      assert forall i :: 1 <= i < |options| ==> options[i] == rest[i - 1];
      if options[0].kind == kind {
        assert FirstOption(options, kind, 0);
      } else {
        forall i: nat | FirstOption(options, kind, i) ensures OptionFor(options, kind) == options[i].optionID {
          assert FirstOption(rest, kind, i - 1);
        }
        if i: nat :| FirstOption(rest, kind, i) {
          assert FirstOption(options, kind, i + 1);
        }
      }
    }
  }

  // Keys tell sessions and tool calls apart, as long as the session's name has no NUL.
  lemma KeysApart(s: string, t: string, s': string, t': string)
    requires (0 as char) !in s && (0 as char) !in s'
    ensures CommandKey(s, t) == CommandKey(s', t') <==> s == s' && t == t'
  {
    var a, b := CommandKey(s, t), CommandKey(s', t');
    assert a[..|s|] == s && a[|s|] == 0 as char && a[|s| + 1..] == t;
    assert b[..|s'|] == s' && b[|s'|] == 0 as char && b[|s'| + 1..] == t';
    assert |s| < |s'| ==> b[|s|] == s'[|s|];
    assert |s'| < |s| ==> a[|s'|] == s[|s'|];
  }

  // The request reached the runtime, which has no Controller or one that allowed this
  // very action: its command is cached, decodes and got an identity.
  predicate Earned(c: Client, p: Permission, o: Outside) {
    && p.Permission?
    && CommandKey(p.sessionID, p.toolCallID) in c.commands && c.commands[CommandKey(p.sessionID, p.toolCallID)] != ""
    && o.decodes && o.actionID.Some? && o.delivery.Delivered?
    && (o.delivery.response.Some? ==>
          && o.delivery.response.value.outcome == "allow"
          && o.delivery.response.value.actionID == o.actionID.value)
  }

  // A permission request that offers to reject is answered with the first allow_once
  // exactly when it has earned that and one is offered, and with the first reject_once
  // otherwise. One that does not is cancelled, or left alone if it does not decode.
  lemma AnsweredExactly(c: Client, m: Message)
    requires m.name == "session/request_permission" && m.id != "" && m.outside.writes
    ensures var p := PermissionOf(m.params);
            var sent := HandleInbound(c, m).client.sent;
            && (forall a: nat, r: nat ::
                  && FirstOption(p.options, "reject_once", r) && p.options[r].optionID != ""
                  && FirstOption(p.options, "allow_once", a) && p.options[a].optionID != "" ==>
                    && (HandleInbound(c, m).ok <==> p.Permission?)
                    && var i := if Earned(c, p, m.outside) then a else r;
                       sent == c.sent + [Answer(m.id, Selected(p.options[i].optionID))])
            && (forall r: nat ::
                  && FirstOption(p.options, "reject_once", r) && p.options[r].optionID != ""
                  && (forall a: nat :: FirstOption(p.options, "allow_once", a) ==> p.options[a].optionID == "") ==>
                    && (HandleInbound(c, m).ok <==> p.Permission?)
                    && sent == c.sent + [Answer(m.id, Selected(p.options[r].optionID))])
            && ((forall r: nat :: FirstOption(p.options, "reject_once", r) ==> p.options[r].optionID == "") ==>
                  !HandleInbound(c, m).ok
                  && sent == if p.Permission? then c.sent + [Answer(m.id, Cancelled)] else c.sent)
  {
    var p := PermissionOf(m.params);
    PicksFirst(p.options, "reject_once");
    PicksFirst(p.options, "allow_once");
    hide OptionFor, CommandKey, FirstOption;
  }

  // A request that reaches the runtime is delivered once, with the cached command
  // verbatim, and uses that command up; any other touches neither.
  lemma DeliveredExactly(c: Client, m: Message)
    requires m.name == "session/request_permission" && m.id != ""
    ensures var p, o := PermissionOf(m.params), m.outside;
            var d := HandleInbound(c, m).client;
            if && p.Permission? && (exists r: nat :: FirstOption(p.options, "reject_once", r)
                                                     && p.options[r].optionID != "")
               && CommandKey(p.sessionID, p.toolCallID) in c.commands
               && c.commands[CommandKey(p.sessionID, p.toolCallID)] != "" && o.decodes && o.actionID.Some?
            then
              var key := CommandKey(p.sessionID, p.toolCallID);
              && d.delivered == c.delivered + [ActionEvent(c.commands[key], o.actionID.value, p.sessionID)]
              && d.commands == c.commands - {key}
            else d.delivered == c.delivered && d.commands == c.commands
  {
    PicksFirst(PermissionOf(m.params).options, "reject_once");
    hide OptionFor, CommandKey, FirstOption;
  }

  // A reply that cannot be written is not sent, and is an error.
  lemma UnwrittenIsError(c: Client, m: Message)
    requires m.name != "session/update" && m.id != "" && !m.outside.writes
    ensures HandleInbound(c, m).client.sent == c.sent && !HandleInbound(c, m).ok
  {
    hide OptionFor, CommandKey;
  }

  // Any other request is refused as unsupported, and any other notification ignored; a
  // permission request without an id is an error.
  lemma OthersRefused(c: Client, m: Message)
    requires m.name != "session/update"
    ensures m.id == "" ==>
              HandleInbound(c, m) == Handled(c, m.name != "session/request_permission")
    ensures m.id != "" && m.name != "session/request_permission" && m.outside.writes ==>
              HandleInbound(c, m) == Handled(c.(sent := c.sent + [Unsupported(m.id)]), true)
  {
  }

  // An update caches a command exactly when it is a tool_call of the exec tool with a
  // command, in a named session and tool call. One of no tool, with a command, is warned
  // of once. Text is passed on to the user. An update that does not decode is an error, as
  // is text that cannot be printed; and nothing else happens.
  lemma CachedExactly(c: Client, m: Message)
    requires m.name == "session/update"
    ensures var h := HandleInbound(c, m);
            var d := h.client;
            var decodes := m.params.UpdateParams? && !m.params.update.BadUpdate? && !m.params.update.BadChunk?;
            var chunk := decodes && m.params.update.MessageChunk? && m.params.update.contentType == "text"
                         && m.params.update.text != "";
            var unnamed := decodes && m.params.update.ToolCall? && m.params.update.tool == ""
                           && m.params.update.command != "" && !c.metaAbsenceReported;
            && (h.ok <==> decodes && (chunk ==> m.outside.prints))
            && d.output == (if chunk && m.outside.prints then c.output + m.params.update.text else c.output)
            && d.warnings == (if unnamed then c.warnings + 1 else c.warnings)
            && d.metaAbsenceReported == (unnamed || c.metaAbsenceReported)
            && d.nextID == c.nextID && d.delivered == c.delivered && d.sent == c.sent
            && d.commands ==
                 if && m.params.UpdateParams? && m.params.update.ToolCall? && m.params.update.tool == "exec"
                    && m.params.update.command != ""
                    && m.params.update.sessionID != "" && m.params.update.toolCallID != ""
                 then
                   var u := m.params.update;
                   c.commands[CommandKey(u.sessionID, u.toolCallID) := u.command]
                 else c.commands
  {
    hide CommandKey;
  }

  // Any selection but the first reject_once is the first allow_once: its command was
  // cached by an exec tool_call of the same session and tool call, went to the runtime
  // verbatim, and the runtime had no Controller or one that allowed that action.
  lemma AllowIsEarned(clients: seq<Client>, events: seq<Event>, k: nat, chosen: string) returns (j: nat, a: nat)
    requires IsRun(clients, events) && k < |events| && IsPermission(events[k])
    requires clients[k + 1].sent == clients[k].sent + [Answer(events[k].message.id, Selected(chosen))]
    requires var options := PermissionOf(events[k].message.params).options;
             forall r: nat :: FirstOption(options, "reject_once", r) ==> chosen != options[r].optionID
    ensures var p, o := PermissionOf(events[k].message.params), events[k].message.outside;
            && p.Permission? && FirstOption(p.options, "allow_once", a) && chosen == p.options[a].optionID != ""
            && CachedAt(clients, events, KeyOf(p), j, k)
            && var u := events[j].message.params.update;
            && u.tool == "exec" && u.command != "" && o.actionID.Some?
            && clients[k + 1].delivered
               == clients[k].delivered + [ActionEvent(u.command, o.actionID.value, p.sessionID)]
            && o.delivery.Delivered?
            && (o.delivery.response.Some? ==>
                  && o.delivery.response.value.outcome == OUTCOME_ALLOW
                  && o.delivery.response.value.actionID == o.actionID.value)
  {
    hide OptionFor, CommandKey, FirstOption;
    var c, e := clients[k], events[k];
    var p := PermissionOf(e.message.params);
    PicksFirst(p.options, REJECT_ONCE);
    PicksFirst(p.options, ALLOW_ONCE);
    assert clients[k + 1] == Step(c, e).client;
    assert clients[k + 1].sent[|c.sent|] == Answer(e.message.id, Selected(chosen));
    RejectIsSelected(c, e.message.id, p, e.message.outside, chosen);
    AllowStep(c, e.message.id, p, e.message.outside, chosen);
    j := CommandHasOrigin(clients, events, KeyOf(p), k);
    a :| FirstOption(p.options, ALLOW_ONCE, a);
  }

  // Nothing is selected where nothing can be rejected.
  lemma RejectIsSelected(c: Client, id: string, p: Permission, o: Outside, chosen: string)
    requires var sent := HandlePermission(c, id, p, o).client.sent;
             sent == c.sent + [Answer(id, Selected(chosen))] && sent[|c.sent|] == Answer(id, Selected(chosen))
    ensures OptionFor(p.options, REJECT_ONCE) != ""
  {
    hide OptionFor, CommandKey;
  }

  lemma AllowStep(c: Client, id: string, p: Permission, o: Outside, chosen: string)
    requires var sent := HandlePermission(c, id, p, o).client.sent;
             sent == c.sent + [Answer(id, Selected(chosen))] && sent[|c.sent|] == Answer(id, Selected(chosen))
    requires chosen != OptionFor(p.options, REJECT_ONCE)
    ensures Grants(c, p, o) && chosen == OptionFor(p.options, ALLOW_ONCE)
    ensures KeyOf(p) in c.commands && CachedCommand(c, p) == c.commands[KeyOf(p)]
    ensures HandlePermission(c, id, p, o).client.delivered
         == c.delivered + [ActionEvent(CachedCommand(c, p), o.actionID.value, p.sessionID)]
  {
    hide OptionFor, CommandKey;
  }

  // ----- Allows are paid for by updates -----

  function CacheCount(events: seq<Event>, key: string): nat {
    if events == [] then 0
    else CacheCount(events[..|events| - 1], key) + if CachesKey(events[|events| - 1], key) then 1 else 0
  }

  predicate AllowsKey(c: Client, e: Event, key: string) {
    AllowsAt(c, e) && KeyOf(PermissionOf(e.message.params)) == key
  }

  ghost function AllowCount(clients: seq<Client>, events: seq<Event>, key: string, n: nat): nat
    requires |clients| == |events| + 1 && n <= |events|
  {
    if n == 0 then 0
    else AllowCount(clients, events, key, n - 1) + if AllowsKey(clients[n - 1], events[n - 1], key) then 1 else 0
  }

  lemma AllowUsesCommand(c: Client, e: Event, key: string)
    requires AllowsKey(c, e, key)
    ensures key in c.commands && key !in Step(c, e).client.commands && !CachesKey(e, key)
  {
    hide OptionFor, CommandKey;
  }

  // Each key gets at most as many allows as updates have cached it, and one fewer
  // while a command of it is still cached.
  lemma {:induction false} AllowsAreBounded(clients: seq<Client>, events: seq<Event>, key: string, n: nat)
    requires IsRun(clients, events) && n <= |events|
    ensures AllowCount(clients, events, key, n) + (if key in clients[n].commands then 1 else 0)
         <= CacheCount(events[..n], key)
  {
    if n > 0 {
      hide Step, AllowsKey, CachesKey;
      AllowsAreBounded(clients, events, key, n - 1);
      assert events[..n][..n - 1] == events[..n - 1];
      if AllowsKey(clients[n - 1], events[n - 1], key) {
        AllowUsesCommand(clients[n - 1], events[n - 1], key);
      } else if key in clients[n].commands {
        CommandStep(clients[n - 1], events[n - 1], key);
      }
    }
  }

  // ----- The calls -----

  // What one call does is a run: its request, then each message it read but the
  // last, if that was its response.
  ghost predicate CallRun(c: Client, e: Exchanged, name: string, writes: bool, inbox: seq<Incoming>,
                          events: seq<Event>)
  {
    && e.read <= |inbox| && 0 < |events| <= e.read + 1 && events[0] == Begin(name, writes)
    && (forall i :: 1 <= i < |events| ==> events[i].Got? && inbox[i - 1] == Inbound(events[i].message))
    && e.client == After(c, events)
    && (e.ok ==> |events| == e.read && inbox[e.read - 1] == Response(Some(c.nextID + 1), false) && AllOk(c, events))
  }

  function After(c: Client, events: seq<Event>): Client
    decreases |events|
  {
    if events == [] then c else After(Step(c, events[0]).client, events[1..])
  }

  predicate AllOk(c: Client, events: seq<Event>)
    decreases |events|
  {
    events != [] ==> Step(c, events[0]).ok && AllOk(Step(c, events[0]).client, events[1..])
  }

  lemma {:induction false} ServeIsRun(c: Client, id: nat, inbox: seq<Incoming>) returns (events: seq<Event>)
    ensures var e := Serve(c, id, inbox);
            && e.read <= |inbox| && |events| <= e.read
            && (forall i :: 0 <= i < |events| ==> events[i].Got? && inbox[i] == Inbound(events[i].message))
            && e.client == After(c, events)
            && (e.ok ==> |events| + 1 == e.read && inbox[e.read - 1] == Response(Some(id), false) && AllOk(c, events))
    decreases |inbox|
  {
    hide HandleInbound;
    events := [];
    if inbox != [] && inbox[0].Inbound? {
      var e := Got(inbox[0].message);
      var more: seq<Event> := [];
      if HandleInbound(c, inbox[0].message).ok {
        more := ServeIsRun(HandleInbound(c, inbox[0].message).client, id, inbox[1..]);
      }
      events := [e] + more;
      assert events[1..] == more;
    }
  }

  lemma ExchangeIsRun(c: Client, name: string, inbox: seq<Incoming>, writes: bool) returns (events: seq<Event>)
    ensures CallRun(c, Exchange(c, name, inbox, writes), name, writes, inbox, events)
  {
    hide HandleInbound;
    var h := Step(c, Begin(name, writes));
    var more: seq<Event> := [];
    if h.ok {
      more := ServeIsRun(h.client, c.nextID + 1, inbox);
    }
    events := [Begin(name, writes)] + more;
    assert events[1..] == more;
    assert forall i :: 1 <= i < |events| ==> events[i] == more[i - 1];
    assert Exchange(c, name, inbox, writes).client == After(h.client, more);
  }
}
