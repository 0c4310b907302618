// Repository-level host wiring (wiring/wiring.go): installing the one hook entry that
// Pitot owns into a host's configuration, and checking it against its witness.
module Wiring {
  import opened Envelopes
  import opened JsonGrammar
  import opened Accounting
  import opened EnvelopeRules

  type Object = map<string, Data>

  const MARKER := ".pitot/bin/"

  predicate Supported(host: string) {
    host == "claude" || host == "codex" || host == "cursor" || host == "gemini"
  }

  function EventOf(host: string): string {
    if host == "cursor" then "beforeShellExecution"
    else if host == "gemini" then "BeforeTool"
    else if host == "claude" || host == "codex" then "PreToolUse"
    else ""
  }

  function Whole(digits: Text): Data
    requires ValidWhole(digits)
  {
    Num(Numeral(false, digits, [], NoExponent))
  }

  function CommandHook(command: string, windows: Option<string>, name: Option<string>, timeout: Data): Data {
    var hook := map["type" := Str("command"), "command" := Str(command), "timeout" := timeout];
    var withWindows := if windows.Some? then hook["commandWindows" := Str(windows.value)] else hook;
    Obj(if name.Some? then withWindows["name" := Str(name.value)] else withWindows)
  }

  function CanonicalEntry(host: string): Data
    requires Supported(host)
  {
    var ten, tenThousand := Whole([0x31, 0x30]), Whole([0x31, 0x30, 0x30, 0x30, 0x30]);
    if host == "claude" then
      Obj(map["matcher" := Str("Bash"),
              "hooks" := List([CommandHook("\"$CLAUDE_PROJECT_DIR\"/" + MARKER + "pitot hook claude", None, None,
                                           ten)])])
    else if host == "codex" then
      Obj(map["matcher" := Str("Bash"),
              "hooks" := List([CommandHook(MARKER + "pitot hook codex", Some(PowerShell("codex")), None, ten)])])
    else if host == "cursor" then
      Obj(map["command" := Str("./" + MARKER + "hooks/cursor-beforeShellExecution"),
              "commandWindows" := Str(PowerShell("cursor")), "failClosed" := Boolean(true), "timeout" := ten])
    else
      Obj(map["matcher" := Str("run_shell_command"), "sequential" := Boolean(true),
              "hooks" := List([CommandHook("./" + MARKER + "hooks/gemini-BeforeTool", None, Some("pitot"),
                                           tenThousand)])])
  }

  function PowerShell(host: string): string {
    "powershell -NoProfile -ExecutionPolicy Bypass -File " + MARKER + "pitot.ps1 hook " + host
  }

  // ----- Ownership -----

  predicate OccursAt(s: string, i: nat, part: string) {
    i + |part| <= |s| && s[i..i + |part|] == part
  }

  predicate Contains(s: string, part: string) {
    exists i: nat :: i <= |s| && OccursAt(s, i, part)
  }

  // The marker in any string leaf.
  predicate Marked(v: Data) {
    match v
    case Str(text) => Contains(text, MARKER)
    case List(items) => exists i :: 0 <= i < |items| && Marked(items[i])
    case Obj(members) => exists k :: k in members && Marked(members[k])
    case _ => false
  }

  // The texts of the string leaves of a value.
  function Texts(v: Data): set<string> {
    match v
    case Str(text) => {text}
    case List(items) => set i, t | 0 <= i < |items| && t in Texts(items[i]) :: t
    case Obj(members) => set k, t | k in members && t in Texts(members[k]) :: t
    case _ => {}
  }

  lemma {:induction false} MarkedByALeaf(v: Data)
    ensures Marked(v) <==> exists t :: t in Texts(v) && Contains(t, ".pitot/bin/")
    decreases v
  {
    hide Contains;
    match v {
      case List(items) =>
        forall i | 0 <= i < |items|
          ensures Marked(items[i]) <==> exists t :: t in Texts(items[i]) && Contains(t, ".pitot/bin/")
        {
          MarkedByALeaf(items[i]);
        }
      case Obj(members) =>
        forall k | k in members
          ensures Marked(members[k]) <==> exists t :: t in Texts(members[k]) && Contains(t, ".pitot/bin/")
        {
          MarkedByALeaf(members[k]);
        }
      case Str(text) => assert text in Texts(v);
      case _ =>
    }
  }

  method Search(s: string, part: string) returns (found: bool)
    ensures found == Contains(s, part)
  {
    var i: nat := 0;
    while i + |part| <= |s|
      invariant forall j: nat :: j < i ==> !OccursAt(s, j, part)
    {
      if s[i..i + |part|] == part {
        assert OccursAt(s, i, part);
        return true;
      }
      i := i + 1;
    }
    return false;
  }

  method ContainsMarker(v: Data) returns (found: bool)
    ensures found == Marked(v)
    decreases v
  {
    hide Contains;
    match v {
      case Str(text) =>
        found := Search(text, MARKER);
      case List(items) =>
        for i := 0 to |items|
          invariant forall j :: 0 <= j < i ==> !Marked(items[j])
        {
          var one := ContainsMarker(items[i]);
          if one {
            return true;
          }
        }
        return false;
      case Obj(members) =>
        var left := members.Keys;
        while left != {}
          invariant left <= members.Keys && forall k :: k in members && k !in left ==> !Marked(members[k])
        {
          var k :| k in left;
          var one := ContainsMarker(members[k]);
          if one {
            return true;
          }
          left := left - {k};
        }
        return false;
      case _ =>
        return false;
    }
  }

  // ----- Merging -----

  // The entries Pitot does not own, in order.
  function Foreign(entries: seq<Data>): seq<Data> {
    if entries == [] then []
    else
      var kept, last := Foreign(entries[..|entries| - 1]), entries[|entries| - 1];
      if Marked(last) then kept else kept + [last]
  }

  // The hooks section; an absent or null one is empty.
  function HooksOf(config: Object): Option<Object> {
    if "hooks" !in config || config["hooks"].Nothing? then Some(map[])
    else if config["hooks"].Obj? then Some(config["hooks"].members)
    else None
  }

  function EntriesOf(hooks: Object, event: string): Option<seq<Data>> {
    if event !in hooks || hooks[event].Nothing? then Some([])
    else if hooks[event].List? then Some(hooks[event].items)
    else None
  }

  // Nothing of Pitot's outside the event it owns.
  predicate OnlyOwnEvent(hooks: Object, event: string) {
    forall k :: k in hooks && k != event ==> !Marked(hooks[k])
  }

  // The configuration has the structure Merge is willing to touch.
  predicate Mergeable(config: Object, host: string) {
    && Supported(host) && HooksOf(config).Some?
    && OnlyOwnEvent(HooksOf(config).value, EventOf(host))
    && EntriesOf(HooksOf(config).value, EventOf(host)).Some?
  }

  function Merged(config: Object, host: string): Object
    requires Mergeable(config, host)
  {
    var hooks, event := HooksOf(config).value, EventOf(host);
    var kept := Foreign(EntriesOf(hooks, event).value) + [CanonicalEntry(host)];
    var wired := config["hooks" := Obj(hooks[event := List(kept)])];
    if host == "cursor" && "version" !in config then wired["version" := Whole([0x31])] else wired
  }

  class HostConfig {
    var root: Object

    constructor (root: Object)
      ensures this.root == root
    {
      this.root := root;
    }

    // False is an error; then nothing has changed.
    method Merge(host: string) returns (ok: bool)
      modifies this
      ensures ok == Mergeable(old(root), host)
      ensures root == if ok then Merged(old(root), host) else old(root)
    {
      hide Marked, CanonicalEntry, Foreign;
      NoEntries();
      if !Supported(host) {
        return false;
      }
      var hooksValue := if "hooks" in root && !root["hooks"].Nothing? then root["hooks"] else Obj(map[]);
      if !hooksValue.Obj? {
        return false;
      }
      var hooks := hooksValue.members;
      var event := EventOf(host);
      var left := hooks.Keys;
      while left != {}
        invariant left <= hooks.Keys && root == old(root)
        invariant forall k :: k in hooks && k !in left && k != event ==> !Marked(hooks[k])
      {
        var k :| k in left;
        if k != event {
          var drift := ContainsMarker(hooks[k]);
          if drift {
            return false;
          }
        }
        left := left - {k};
      }
      var entries: seq<Data> := [];
      if event in hooks && !hooks[event].Nothing? {
        if !hooks[event].List? {
          return false;
        }
        entries := hooks[event].items;
      }
      var kept: seq<Data> := [];
      for i := 0 to |entries|
        invariant kept == Foreign(entries[..i]) && root == old(root)
      {
        assert entries[..i + 1] == entries[..i] + [entries[i]];
        OneMoreEntry(entries[..i], entries[i]);
        var owned := ContainsMarker(entries[i]);
        if !owned {
          kept := kept + [entries[i]];
        }
      }
      assert entries[..|entries|] == entries;
      kept := kept + [CanonicalEntry(host)];
      root := root["hooks" := Obj(hooks[event := List(kept)])];
      if host == "cursor" && "version" !in root {
        root := root["version" := Whole([0x31])];
      }
      return true;
    }
  }

  // ----- Checking -----

  datatype EventState = Found | Drifted | Missing

  function OwnedEntries(entries: seq<Data>): seq<Data> {
    if entries == [] then []
    else
      var owned, last := OwnedEntries(entries[..|entries| - 1]), entries[|entries| - 1];
      if Marked(last) then owned + [last] else owned
  }

  // What Check sees: sections of the wrong kind count as empty.
  function HooksSeen(config: Object): Object {
    if "hooks" in config && config["hooks"].Obj? then config["hooks"].members else map[]
  }

  function EntriesSeen(hooks: Object, event: string): seq<Data> {
    if event in hooks && hooks[event].List? then hooks[event].items else []
  }

  // A value with its numbers as they are written back. `norm` is the decoder of
  // numbers followed by their encoder, so that two spellings of one float are one.
  function Normal(norm: Lexeme -> Lexeme, v: Data): Data {
    match v
    case Num(n) => Num(norm(n))
    case List(items) => List(seq(|items|, i requires 0 <= i < |items| => Normal(norm, items[i])))
    case Obj(members) => Obj(map k | k in members :: Normal(norm, members[k]))
    case _ => v
  }

  // sameJSON compares the values marshalled.
  predicate SameJSON(norm: Lexeme -> Lexeme, a: Data, b: Data) {
    Normal(norm, a) == Normal(norm, b)
  }

  // Found means: one owned entry on the owned event, the witness itself, and none elsewhere.
  function Judged(norm: Lexeme -> Lexeme, config: Object, event: string, evidence: Data): EventState {
    var hooks := HooksSeen(config);
    var owned := OwnedEntries(EntriesSeen(hooks, event));
    if owned == [] then Missing
    else if |owned| == 1 && SameJSON(norm, owned[0], evidence) && OnlyOwnEvent(hooks, event) then Found
    else Drifted
  }

  lemma NoEntries()
    ensures OwnedEntries([]) == [] && Foreign([]) == []
  {
  }

  predicate AllSame(norm: Lexeme -> Lexeme, entries: seq<Data>, evidence: Data) {
    forall i :: 0 <= i < |entries| ==> SameJSON(norm, entries[i], evidence)
  }

  lemma AllSameJoin(norm: Lexeme -> Lexeme, entries: seq<Data>, e: Data, evidence: Data)
    ensures AllSame(norm, entries + [e], evidence) <==> AllSame(norm, entries, evidence) && SameJSON(norm, e, evidence)
  {
    hide SameJSON;
    var longer := entries + [e];
    assert longer[|entries|] == e;
    assert forall i :: 0 <= i < |entries| ==> longer[i] == entries[i];
  }

  method Check(norm: Lexeme -> Lexeme, config: Object, event: string, evidence: Data) returns (state: EventState)
    ensures state == Judged(norm, config, event, evidence)
  {
    hide Marked, OwnedEntries, SameJSON;
    NoEntries();
    var hooks := HooksSeen(config);
    var entries := EntriesSeen(hooks, event);
    var marked := 0;
    var drifted := false;
    for i := 0 to |entries|
      invariant marked == |OwnedEntries(entries[..i])|
      invariant drifted == !AllSame(norm, OwnedEntries(entries[..i]), evidence)
    {
      assert entries[..i + 1] == entries[..i] + [entries[i]];
      OneMoreEntry(entries[..i], entries[i]);
      AllSameJoin(norm, OwnedEntries(entries[..i]), entries[i], evidence);
      var owned := ContainsMarker(entries[i]);
      if owned {
        marked := marked + 1;
        if !SameJSON(norm, entries[i], evidence) {
          drifted := true;
        }
      }
    }
    assert entries[..|entries|] == entries;
    ghost var owned := OwnedEntries(entries);
    ghost var inEvent := drifted;
    var left := hooks.Keys;
    while left != {}
      invariant left <= hooks.Keys
      invariant drifted <==> inEvent || exists k :: k in hooks && k !in left && k != event && Marked(hooks[k])
    {
      var k :| k in left;
      if k != event {
        var elsewhere := ContainsMarker(hooks[k]);
        if elsewhere {
          drifted := true;
        }
      }
      left := left - {k};
    }
    if marked == 0 {
      return Missing;
    } else if drifted || marked > 1 {
      return Drifted;
    } else {
      assert |owned| == 1 && SameJSON(norm, owned[0], evidence);
      return Found;
    }
  }

  // Equal but for the spelling of numbers: the same kind, the same names and elements, the
  // same texts, and numbers that are written back alike.
  predicate Alike(norm: Lexeme -> Lexeme, a: Data, b: Data) {
    match a
    case Num(n) => b.Num? && norm(n) == norm(b.numeral)
    case List(items) =>
      b.List? && |items| == |b.items| && forall i :: 0 <= i < |items| ==> Alike(norm, items[i], b.items[i])
    case Obj(members) =>
      b.Obj? && members.Keys == b.members.Keys && forall k :: k in members ==> Alike(norm, members[k], b.members[k])
    case _ => a == b
  }

  lemma {:induction false} SameJSONIsAlike(norm: Lexeme -> Lexeme, a: Data, b: Data)
    ensures SameJSON(norm, a, b) <==> Alike(norm, a, b)
    decreases a
  {
    match a {
      case List(items) =>
        if b.List? && |items| == |b.items| {
          var x, y := Normal(norm, a).items, Normal(norm, b).items;
          forall i | 0 <= i < |items|
            ensures x[i] == Normal(norm, items[i]) && y[i] == Normal(norm, b.items[i])
            ensures x[i] == y[i] <==> Alike(norm, items[i], b.items[i])
          {
            SameJSONIsAlike(norm, items[i], b.items[i]);
          }
        } else if b.List? {
          assert |Normal(norm, a).items| != |Normal(norm, b).items|;
        }
      case Obj(members) =>
        if b.Obj? {
          var x, y := Normal(norm, a).members, Normal(norm, b).members;
          assert x.Keys == members.Keys && y.Keys == b.members.Keys;
          forall k | k in members && k in b.members
            ensures x[k] == Normal(norm, members[k]) && y[k] == Normal(norm, b.members[k])
            ensures x[k] == y[k] <==> Alike(norm, members[k], b.members[k])
          {
            SameJSONIsAlike(norm, members[k], b.members[k]);
          }
        }
      case _ =>
    }
  }

  // The verdict on an event with one owned entry and none owned elsewhere: found exactly
  // when the entry is the witness but for the spelling of numbers, drifted otherwise.
  lemma OneEntryJudged(norm: Lexeme -> Lexeme, config: Object, event: string, evidence: Data, entry: Data)
    requires OwnedEntries(EntriesSeen(HooksSeen(config), event)) == [entry] && OnlyOwnEvent(HooksSeen(config), event)
    ensures Judged(norm, config, event, evidence) == if Alike(norm, entry, evidence) then Found else Drifted
  {
    SameJSONIsAlike(norm, entry, evidence);
  }

  // ----- Main results -----

  // The entry, or its only hook, has this command.
  predicate Runs(entry: Data, command: string) {
    && entry.Obj?
    && (|| ("command" in entry.members && entry.members["command"] == Str(command))
        || (&& "hooks" in entry.members && entry.members["hooks"].List? && |entry.members["hooks"].items| == 1
            && var hook := entry.members["hooks"].items[0];
            && hook.Obj? && "command" in hook.members && hook.members["command"] == Str(command)
            && "type" in hook.members && hook.members["type"] == Str("command")))
  }

  // The last entry of the event is this one.
  predicate EndsIn(config: Object, event: string, entry: Data) {
    && "hooks" in config && config["hooks"].Obj?
    && var hooks := config["hooks"].members;
    && event in hooks && hooks[event].List? && hooks[event].items != []
    && hooks[event].items[|hooks[event].items| - 1] == entry
  }

  lemma HookRuns(hook: Data, entry: Data, command: string, windows: Option<string>, name: Option<string>, timeout: Data)
    requires hook == CommandHook(command, windows, name, timeout)
    requires entry.Obj? && "hooks" in entry.members && entry.members["hooks"] == List([hook])
    ensures Runs(entry, command)
  {
  }

  lemma ClaudeRuns()
    ensures Runs(CanonicalEntry("claude"), "\"$CLAUDE_PROJECT_DIR\"/" + ".pitot/bin/" + "pitot hook claude")
  {
    hide CommandHook, Runs;
    var command, ten := "\"$CLAUDE_PROJECT_DIR\"/" + MARKER + "pitot hook claude", Whole([0x31, 0x30]);
    HookRuns(CommandHook(command, None, None, ten), CanonicalEntry("claude"), command, None, None, ten);
  }

  lemma CodexRuns()
    ensures Runs(CanonicalEntry("codex"), ".pitot/bin/" + "pitot hook codex")
  {
    hide CommandHook, Runs, PowerShell;
    var command, ten := MARKER + "pitot hook codex", Whole([0x31, 0x30]);
    HookRuns(CommandHook(command, Some(PowerShell("codex")), None, ten), CanonicalEntry("codex"), command,
             Some(PowerShell("codex")), None, ten);
  }

  lemma CursorRuns()
    ensures Runs(CanonicalEntry("cursor"), "./" + ".pitot/bin/" + "hooks/cursor-beforeShellExecution")
  {
    hide PowerShell;
  }

  lemma GeminiRuns()
    ensures Runs(CanonicalEntry("gemini"), "./" + ".pitot/bin/" + "hooks/gemini-BeforeTool")
  {
    hide CommandHook, Runs;
    var command, tenThousand := "./" + MARKER + "hooks/gemini-BeforeTool", Whole([0x31, 0x30, 0x30, 0x30, 0x30]);
    HookRuns(CommandHook(command, None, Some("pitot"), tenThousand), CanonicalEntry("gemini"), command, None,
             Some("pitot"), tenThousand);
  }

  lemma EntryIsLast(config: Object, host: string)
    requires Mergeable(config, host)
    ensures EndsIn(Merged(config, host), EventOf(host), CanonicalEntry(host))
  {
    hide Marked, Foreign, CanonicalEntry, EventOf, OnlyOwnEvent, Supported;
  }

  // Where each host keeps its hook, and the command there that runs Pitot.
  lemma WiredWhere(config: Object, host: string)
    requires Mergeable(config, host)
    ensures host == "claude" || host == "codex" || host == "cursor" || host == "gemini"
    ensures EndsIn(Merged(config, host), if host == "cursor" then "beforeShellExecution"
                                         else if host == "gemini" then "BeforeTool" else "PreToolUse",
                   CanonicalEntry(host))
    ensures Runs(CanonicalEntry("claude"), "\"$CLAUDE_PROJECT_DIR\"/" + ".pitot/bin/" + "pitot hook claude")
    ensures Runs(CanonicalEntry("codex"), ".pitot/bin/" + "pitot hook codex")
    ensures Runs(CanonicalEntry("cursor"), "./" + ".pitot/bin/" + "hooks/cursor-beforeShellExecution")
    ensures Runs(CanonicalEntry("gemini"), "./" + ".pitot/bin/" + "hooks/gemini-BeforeTool")
  {
    EntryIsLast(config, host);
    ClaudeRuns();
    CodexRuns();
    CursorRuns();
    GeminiRuns();
    hide Marked, Foreign, CanonicalEntry, Merged, EndsIn, Runs, OnlyOwnEvent;
  }

  lemma MarkerInside(a: string, b: string)
    ensures Contains(a + MARKER + b, MARKER)
  {
    var s := a + MARKER + b;
    assert s[|a|..|a| + |MARKER|] == MARKER;
    assert OccursAt(s, |a|, MARKER);
  }

  // An entry with one hook is marked by that hook's command.
  lemma HookMarks(entry: Data)
    requires entry.Obj? && "hooks" in entry.members && entry.members["hooks"].List?
    requires |entry.members["hooks"].items| == 1
    requires var hook := entry.members["hooks"].items[0];
             && hook.Obj? && "command" in hook.members && hook.members["command"].Str?
             && Contains(hook.members["command"].text, MARKER)
    ensures Marked(entry)
  {
    hide Contains;
    var hook := entry.members["hooks"].items[0];
    assert Marked(hook.members["command"]);
    assert Marked(hook);
    assert Marked(entry.members["hooks"]);
  }

  // Pitot's own entry carries the marker, on every host.
  lemma CanonicalIsMarked(host: string)
    requires Supported(host)
    ensures Marked(CanonicalEntry(host))
  {
    hide Contains, Marked;
    var entry := CanonicalEntry(host);
    if host == "cursor" {
      CursorIsMarked();
    } else {
      if host == "claude" {
        MarkerInside("\"$CLAUDE_PROJECT_DIR\"/", "pitot hook claude");
      } else if host == "codex" {
        MarkerInside("", "pitot hook codex");
        assert "" + MARKER + "pitot hook codex" == MARKER + "pitot hook codex";
      } else {
        MarkerInside("./", "hooks/gemini-BeforeTool");
      }
      HookMarks(entry);
    }
  }

  lemma CursorIsMarked()
    ensures Marked(CanonicalEntry("cursor"))
  {
    hide Contains;
    MarkerInside("./", "hooks/cursor-beforeShellExecution");
    assert Marked(CanonicalEntry("cursor").members["command"]);
  }

  lemma OneMoreEntry(entries: seq<Data>, e: Data)
    ensures Foreign(entries + [e]) == if Marked(e) then Foreign(entries) else Foreign(entries) + [e]
    ensures OwnedEntries(entries + [e]) == if Marked(e) then OwnedEntries(entries) + [e] else OwnedEntries(entries)
  {
    hide Marked;
    assert (entries + [e])[..|entries|] == entries;
  }

  lemma {:induction false} ForeignIsFree(entries: seq<Data>)
    ensures OwnedEntries(Foreign(entries)) == [] && Foreign(Foreign(entries)) == Foreign(entries)
    decreases |entries|
  {
    hide Marked;
    if entries != [] {
      var prefix, last := entries[..|entries| - 1], entries[|entries| - 1];
      ForeignIsFree(prefix);
      OneMoreEntry(Foreign(prefix), last);
    }
  }

  lemma OwnEntryAdded(entries: seq<Data>, own: Data)
    requires Marked(own)
    ensures var kept := Foreign(entries) + [own];
            OwnedEntries(kept) == [own] && Foreign(kept) == Foreign(entries)
  {
    hide Marked, Foreign, OwnedEntries;
    ForeignIsFree(entries);
    OneMoreEntry(Foreign(entries), own);
  }

  // The number, spelled as an integer.
  predicate IsInteger(v: Data, n: nat) {
    v.Num? && v.numeral.fraction == [] && v.numeral.exponent.NoExponent? && !v.numeral.minus
    && NatOf(v.numeral.whole) == n
  }

  lemma SmallIntegers()
    ensures IsInteger(Whole([0x31]), 1) && IsInteger(Whole([0x31, 0x30]), 10)
    ensures IsInteger(Whole([0x31, 0x30, 0x30, 0x30, 0x30]), 10000)
  {
    assert [0x31][..0] == [] && [0x31, 0x30][..1] == [0x31];
    assert [0x31, 0x30, 0x30][..2] == [0x31, 0x30] && [0x31, 0x30, 0x30, 0x30][..3] == [0x31, 0x30, 0x30];
    assert [0x31, 0x30, 0x30, 0x30, 0x30][..4] == [0x31, 0x30, 0x30, 0x30];
  }

  // What else a host's entry asks for: which tools it is about, how long it may take, and
  // that a failing hook stops the action where the host has such a setting.
  lemma EntryTerms()
    ensures var entry := CanonicalEntry("claude").members;
            entry["matcher"] == Str("Bash") && IsInteger(entry["hooks"].items[0].members["timeout"], 10)
    ensures var entry := CanonicalEntry("codex").members;
            entry["matcher"] == Str("Bash") && IsInteger(entry["hooks"].items[0].members["timeout"], 10)
            && entry["hooks"].items[0].members["commandWindows"] == Str(PowerShell("codex"))
    ensures var entry := CanonicalEntry("cursor").members;
            entry["failClosed"] == Boolean(true) && IsInteger(entry["timeout"], 10)
            && entry["commandWindows"] == Str(PowerShell("cursor"))
    ensures var entry := CanonicalEntry("gemini").members;
            entry["matcher"] == Str("run_shell_command") && entry["sequential"] == Boolean(true)
            && entry["hooks"].items[0].members["name"] == Str("pitot")
            && IsInteger(entry["hooks"].items[0].members["timeout"], 10000)
  {
    SmallIntegers();
    hide IsInteger, PowerShell;
  }

  // A merge keeps every foreign entry of the owned event, in order, every other
  // event and every other key, and leaves exactly one marked entry in the section.
  lemma MergeKeepsForeign(config: Object, host: string)
    requires Mergeable(config, host)
    ensures var before, after, event := HooksOf(config).value, HooksOf(Merged(config, host)).value, EventOf(host);
            && Foreign(EntriesOf(after, event).value) == Foreign(EntriesOf(before, event).value)
            && OwnedEntries(EntriesOf(after, event).value) == [CanonicalEntry(host)]
            && OnlyOwnEvent(after, event)
            && (forall k :: k != event ==> (k in after <==> k in before) && (k in before ==> after[k] == before[k]))
    ensures forall k :: k != "hooks" && k in config ==>
              k in Merged(config, host) && Merged(config, host)[k] == config[k]
    ensures forall k :: k != "hooks" && k !in config && k in Merged(config, host) ==>
              host == "cursor" && k == "version" && IsInteger(Merged(config, host)[k], 1)
    ensures host == "cursor" ==> "version" in Merged(config, host)
  {
    hide Marked, CanonicalEntry, EventOf, Supported, Foreign, OwnedEntries, Whole;
    SmallIntegers();
    CanonicalIsMarked(host);
    OwnEntryAdded(EntriesOf(HooksOf(config).value, EventOf(host)).value, CanonicalEntry(host));
  }

  // Merging again changes nothing.
  lemma MergeIsIdempotent(config: Object, host: string)
    requires Mergeable(config, host)
    ensures Mergeable(Merged(config, host), host)
    ensures Merged(Merged(config, host), host) == Merged(config, host)
  {
    hide Marked, CanonicalEntry, Foreign, EventOf, Supported, OwnedEntries, Whole;
    MergeKeepsForeign(config, host);
    var once := Merged(config, host);
    var hooks, event := HooksOf(once).value, EventOf(host);
    assert hooks[event := hooks[event]] == hooks;
    assert once["hooks" := once["hooks"]] == once;
  }

  // What a merge leaves, Check finds against the fragment written with it.
  lemma MergeIsFound(norm: Lexeme -> Lexeme, config: Object, host: string)
    requires Mergeable(config, host)
    ensures Judged(norm, Merged(config, host), EventOf(host), CanonicalEntry(host)) == Found
  {
    hide Marked, CanonicalEntry, Foreign, OwnedEntries;
    MergeKeepsForeign(config, host);
  }

  function NormalAll(norm: Lexeme -> Lexeme, entries: seq<Data>): (all: seq<Data>)
    ensures |all| == |entries|
  {
    if entries == [] then []
    else NormalAll(norm, entries[..|entries| - 1]) + [Normal(norm, entries[|entries| - 1])]
  }

  // What Check finds, Merge accepts, and merging it moves at most the owned entry: the
  // event keeps the same entries, as they are written back.
  lemma FoundIsMergeable(norm: Lexeme -> Lexeme, config: Object, host: string)
    requires Supported(host) && Judged(norm, config, EventOf(host), CanonicalEntry(host)) == Found
    ensures Mergeable(config, host)
    ensures EntriesSeen(HooksSeen(config), EventOf(host)) != []
    ensures multiset(NormalAll(norm, EntriesSeen(HooksSeen(Merged(config, host)), EventOf(host))))
         == multiset(NormalAll(norm, EntriesSeen(HooksSeen(config), EventOf(host))))
  {
    hide Marked, CanonicalEntry, SameJSON, OwnedEntries, Foreign, NormalAll;
    NoEntries();
    OwnedReplaced(norm, EntriesSeen(HooksSeen(config), EventOf(host)), CanonicalEntry(host));
  }

  // Replacing the only owned entry by one that is written alike, at the end.
  lemma OwnedReplaced(norm: Lexeme -> Lexeme, entries: seq<Data>, own: Data)
    requires |OwnedEntries(entries)| == 1 && SameJSON(norm, OwnedEntries(entries)[0], own)
    ensures multiset(NormalAll(norm, Foreign(entries) + [own])) == multiset(NormalAll(norm, entries))
  {
    hide Normal, OwnedEntries, Foreign;
    SplitEntries(norm, entries);
    OneMoreNormal(norm, Foreign(entries), own);
  }

  lemma OneMoreNormal(norm: Lexeme -> Lexeme, entries: seq<Data>, e: Data)
    ensures NormalAll(norm, entries + [e]) == NormalAll(norm, entries) + [Normal(norm, e)]
  {
    assert (entries + [e])[..|entries|] == entries;
  }

  lemma {:induction false} SplitEntries(norm: Lexeme -> Lexeme, entries: seq<Data>)
    ensures multiset(NormalAll(norm, entries))
         == multiset(NormalAll(norm, Foreign(entries))) + multiset(NormalAll(norm, OwnedEntries(entries)))
    decreases |entries|
  {
    hide Marked, Normal;
    if entries != [] {
      var prefix, last := entries[..|entries| - 1], entries[|entries| - 1];
      SplitEntries(norm, prefix);
      OneMoreNormal(norm, Foreign(prefix), last);
      OneMoreNormal(norm, OwnedEntries(prefix), last);
    }
  }
}
