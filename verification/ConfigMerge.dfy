// Merging configuration fragments (config/config.go): the loops over sorted fragments
// against a rule about each fragment and each pair, from which order independence,
// closure under subsets and the agreement of Preflight with Discover follow.
module ConfigMerge {
  import opened Envelopes
  import opened NameOrder
  import FanOut

  type Bytes = seq<byte>

  const ACTION_REQUESTED := "action.requested"

  datatype Consumer = Consumer(id: string, command: seq<string>, dir: string, events: seq<string>, projection: string)
  datatype Controller = Controller(
    id: string, command: seq<string>, dir: string, deadlineMS: int, onTimeout: string, onUnavailable: string)
  datatype Config = Config(
    requiresProtocol: string, consumers: seq<Consumer>, controllers: map<string, Controller>, requireController: bool)

  // The strict YAML decoder, SHA-256 of raw bytes in hexadecimal, and of a text.
  datatype World = World(decode: Bytes -> Option<Config>, sha: Bytes -> string, shaText: string -> string)

  datatype Verdict =
    Fine | NoEntries | WrongProtocol | BadConsumer | DuplicateConsumer | BadController | DuplicateController

  // ----- What one entry must be -----

  predicate ValidCommand(command: seq<string>) {
    |command| > 0 && forall i :: 0 <= i < |command| ==> command[i] != ""
  }

  // filepath.IsAbs on the platforms of the POSIX shim.
  predicate ValidDir(dir: string) {
    dir == "" || dir[0] != '/'
  }

  // At least one event, each supported and none repeated: the one supported event.
  predicate ValidEvents(events: seq<string>) {
    events == [ACTION_REQUESTED]
  }

  predicate ValidConsumer(c: Consumer) {
    c.id != "" && ValidCommand(c.command) && ValidDir(c.dir) && ValidEvents(c.events) && FanOut.ValidMode(c.projection)
  }

  predicate ValidController(kind: string, c: Controller) {
    && kind != "" && c.id != "" && ValidCommand(c.command) && ValidDir(c.dir) && c.deadlineMS > 0
    && ValidOutcome(c.onTimeout) && ValidOutcome(c.onUnavailable)
  }

  predicate UniqueConsumers(cs: seq<Consumer>) {
    forall i, j :: 0 <= i < j < |cs| ==> cs[i].id != cs[j].id
  }

  predicate UniqueControllers(m: map<string, Controller>) {
    forall k, l :: k in m && l in m && m[k].id == m[l].id ==> k == l
  }

  predicate EntriesValid(c: Config) {
    && (forall i :: 0 <= i < |c.consumers| ==> ValidConsumer(c.consumers[i]))
    && (forall k :: k in c.controllers ==> ValidController(k, c.controllers[k]))
  }

  predicate SupportedProtocol(c: Config) {
    c.requiresProtocol == "" || c.requiresProtocol == VERSION
  }

  predicate ValidConfig(c: Config) {
    && (|c.consumers| > 0 || |c.controllers| > 0) && SupportedProtocol(c) && EntriesValid(c)
    && UniqueConsumers(c.consumers) && UniqueControllers(c.controllers)
  }

  // ----- Config.Validate -----

  method CheckCommand(command: seq<string>) returns (ok: bool)
    ensures ok == ValidCommand(command)
  {
    if |command| == 0 || command[0] == "" {
      return false;
    }
    for i := 0 to |command|
      invariant forall j :: 0 <= j < i ==> command[j] != ""
    {
      if command[i] == "" {
        return false;
      }
    }
    return true;
  }

  method CheckEvents(events: seq<string>) returns (ok: bool)
    ensures ok == ValidEvents(events)
  {
    if |events| == 0 {
      return false;
    }
    var seen: set<string> := {};
    for i := 0 to |events|
      invariant i == 0 ==> seen == {}
      invariant i > 0 ==> i == 1 && events[0] == ACTION_REQUESTED && ACTION_REQUESTED in seen
    {
      assert events == [ACTION_REQUESTED] ==> i == 0 && events[0] == ACTION_REQUESTED;
      if events[i] != ACTION_REQUESTED || events[i] in seen {
        return false;
      }
      seen := seen + {events[i]};
    }
    return true;
  }

  method CheckConsumer(c: Consumer) returns (ok: bool)
    ensures ok == ValidConsumer(c)
    ensures ok <==>
              && |c.id| > 0 && |c.command| > 0 && "" !in c.command && (|c.dir| == 0 || c.dir[0] != '/')
              && c.events == ["action.requested"] && c.projection in {"full", "sha256", "omit"}
  {
    if c.id == "" {
      return false;
    }
    ok := CheckCommand(c.command);
    if !ok || !ValidDir(c.dir) {
      return false;
    }
    ok := CheckEvents(c.events);
    ok := ok && FanOut.ValidMode(c.projection);
  }

  method CheckController(kind: string, c: Controller) returns (ok: bool)
    ensures ok == ValidController(kind, c)
    ensures ok <==>
              && |kind| > 0 && |c.id| > 0 && |c.command| > 0 && "" !in c.command && (|c.dir| == 0 || c.dir[0] != '/')
              && c.deadlineMS >= 1 && c.onTimeout in {"allow", "deny"} && c.onUnavailable in {"allow", "deny"}
  {
    if kind == "" || c.id == "" {
      return false;
    }
    ok := CheckCommand(c.command);
    ok := ok && ValidDir(c.dir) && c.deadlineMS > 0 && ValidOutcome(c.onTimeout) && ValidOutcome(c.onUnavailable);
  }

  // The verdict names a duplicate only when there is one.
  method Validate(c: Config) returns (v: Verdict)
    ensures v == Fine <==> ValidConfig(c)
    ensures v == NoEntries <==> |c.consumers| == 0 && |c.controllers| == 0
    ensures v == WrongProtocol ==> !SupportedProtocol(c)
    ensures v == WrongProtocol <==> v != NoEntries && c.requiresProtocol != "" && c.requiresProtocol != "1"
    ensures v == DuplicateConsumer ==> !UniqueConsumers(c.consumers)
    ensures v == DuplicateController ==> !UniqueControllers(c.controllers)
  {
    hide ValidConsumer, ValidController;
    if |c.consumers| == 0 && |c.controllers| == 0 {
      return NoEntries;
    }
    if c.requiresProtocol != "" && c.requiresProtocol != VERSION {
      return WrongProtocol;
    }
    var consumerIDs: set<string> := {};
    for i := 0 to |c.consumers|
      invariant forall j :: 0 <= j < i ==> ValidConsumer(c.consumers[j]) && c.consumers[j].id in consumerIDs
      invariant forall id :: id in consumerIDs ==> exists j :: 0 <= j < i && c.consumers[j].id == id
      invariant UniqueConsumers(c.consumers[..i])
    {
      if c.consumers[i].id in consumerIDs {
        var j :| 0 <= j < i && c.consumers[j].id == c.consumers[i].id;
        return DuplicateConsumer;
      }
      consumerIDs := consumerIDs + {c.consumers[i].id};
      var ok := CheckConsumer(c.consumers[i]);
      if !ok {
        return BadConsumer;
      }
    }
    assert c.consumers[..|c.consumers|] == c.consumers;
    v := ValidateControllers(c.controllers);
  }

  method ValidateControllers(m: map<string, Controller>) returns (v: Verdict)
    ensures v == Fine || v == BadController || v == DuplicateController
    ensures v == Fine <==> (forall k :: k in m ==> ValidController(k, m[k])) && UniqueControllers(m)
    ensures v == DuplicateController ==> !UniqueControllers(m)
  {
    hide ValidController, UniqueControllers, Less;
    var kinds := SortedKinds(m);
    assert forall i :: 0 <= i < |kinds| ==> kinds[i] in m;
    v := ValidateKinds(m, kinds);
    EachKind(m, kinds);
  }

  predicate KindsValid(m: map<string, Controller>, kinds: seq<string>)
    requires forall i :: 0 <= i < |kinds| ==> kinds[i] in m
  {
    && (forall i :: 0 <= i < |kinds| ==> ValidController(kinds[i], m[kinds[i]]))
    && (forall i, j :: 0 <= i < j < |kinds| ==> m[kinds[i]].id != m[kinds[j]].id)
  }

  method ValidateKinds(m: map<string, Controller>, kinds: seq<string>) returns (v: Verdict)
    requires forall i :: 0 <= i < |kinds| ==> kinds[i] in m
    requires forall i, j :: 0 <= i < j < |kinds| ==> kinds[i] != kinds[j]
    ensures v == Fine || v == BadController || v == DuplicateController
    ensures v == Fine <==> KindsValid(m, kinds)
    ensures v == DuplicateController ==> !UniqueControllers(m)
  {
    hide ValidController, UniqueControllers;
    var ids: set<string> := {};
    for i := 0 to |kinds|
      invariant forall j :: 0 <= j < i ==> ValidController(kinds[j], m[kinds[j]]) && m[kinds[j]].id in ids
      invariant forall id :: id in ids ==> exists j :: 0 <= j < i && m[kinds[j]].id == id
      invariant forall j, l :: 0 <= j < l < i ==> m[kinds[j]].id != m[kinds[l]].id
    {
      var kind := kinds[i];
      if m[kind].id in ids {
        ghost var j :| 0 <= j < i && m[kinds[j]].id == m[kind].id;
        SharedID(m, kinds[j], kind);
        return DuplicateController;
      }
      ids := ids + {m[kind].id};
      var ok := CheckController(kind, m[kind]);
      if !ok {
        return BadController;
      }
    }
    return Fine;
  }

  lemma SharedID(m: map<string, Controller>, k: string, l: string)
    requires k in m && l in m && k != l && m[k].id == m[l].id
    ensures !UniqueControllers(m)
  {
  }

  lemma EachKind(m: map<string, Controller>, kinds: seq<string>)
    requires forall k :: k in kinds <==> k in m
    requires forall i, j :: 0 <= i < j < |kinds| ==> kinds[i] != kinds[j]
    requires forall i :: 0 <= i < |kinds| ==> kinds[i] in m
    ensures KindsValid(m, kinds) <==> (forall k :: k in m ==> ValidController(k, m[k])) && UniqueControllers(m)
  {
    hide ValidController;
    if KindsValid(m, kinds) {
      forall k, l | k in m && l in m && m[k].id == m[l].id ensures k == l {
        assert k in kinds && l in kinds;
      }
    }
  }

  // The keys of a map in ascending order.
  method SortedKinds(m: map<string, Controller>) returns (kinds: seq<string>)
    ensures forall k :: k in kinds <==> k in m
    ensures forall i, j :: 0 <= i < j < |kinds| ==> Less(kinds[i], kinds[j])
    ensures forall i, j :: 0 <= i < j < |kinds| ==> kinds[i] != kinds[j]
  {
    hide Less;
    kinds := [];
    var left := m.Keys;
    while left != {}
      invariant left <= m.Keys
      invariant forall k :: k in m ==> (k in kinds <==> k !in left)
      invariant forall k :: k in kinds ==> k in m
      invariant forall i, j :: 0 <= i < j < |kinds| ==> Less(kinds[i], kinds[j])
    {
      var kind :| kind in left;
      var at := 0;
      while at < |kinds| && Less(kinds[at], kind)
        invariant 0 <= at <= |kinds|
        invariant forall i :: 0 <= i < at ==> Less(kinds[i], kind)
      {
        at := at + 1;
      }
      if at < |kinds| {
        assert kinds[at] in kinds;
        LessIsStrict(kinds[at], kind);
      }
      forall i | at <= i < |kinds| ensures Less(kind, kinds[i]) {
        if i > at {
          LessIsTransitive(kind, kinds[at], kinds[i]);
        }
      }
      kinds := kinds[..at] + [kind] + kinds[at..];
      left := left - {kind};
    }
    forall i, j | 0 <= i < j < |kinds| ensures kinds[i] != kinds[j] {
      LessIsIrreflexive(kinds[i]);
    }
  }
}
