// The envelope validators of the TypeScript, Rust and Python SDKs
// (sdk/typescript/src/wire.ts, sdk/rust/src/wire.rs, sdk/python/pitot/wire.py), as
// written, each proved to accept exactly what the rules describe. A thrown error, an Err
// and a raised ValueError are a false result. Member names are strings of Unicode scalar
// values; a name with a surrogate would be an unknown one.
module SdkEnvelopes {
  import opened Envelopes
  import opened JsonGrammar
  import opened Accounting
  import opened EnvelopeRules

  predicate IsStr(v: Data, s: string) {
    v == Str(s)
  }

  // `object` in TypeScript and `shape` in Rust: an object with no required member
  // missing and no member that is neither required nor optional.
  predicate ShapeCheck(v: Data, required: seq<string>, optional: seq<string>) {
    v.Obj? && !((exists k :: k in required && k !in v.members)
                || (exists k :: k in v.members && k !in required && k !in optional))
  }

  lemma ShapeCheckIsShape(v: Data, required: seq<string>, optional: seq<string>)
    ensures ShapeCheck(v, required, optional) <==> Shape(v, Keys(required), Keys(optional))
  {
  }

  // ----- TypeScript -----

  // scalarString: a string, and no surrogate in it is unpaired.
  predicate TsScalarString(v: Data) {
    v.Str?
  }

  predicate TsNonempty(v: Data) {
    !(!TsScalarString(v) || |v.text| == 0)
  }

  // A string of this length whose characters or units are all hexadecimal digits.
  predicate IsHexString(v: Data, length: nat) {
    match v
    case Str(text) => |text| == length && forall i :: 0 <= i < |text| ==> IsHexChar(text[i])
    case Broken(units) => |units| == length && forall i :: 0 <= i < |units| ==> IsHex(units[i])
    case _ => false
  }

  lemma HexStringIsDigest(v: Data)
    ensures IsHexString(v, 64) <==> v.Str? && IsDigest(v.text)
  {
    if v.Broken? {
      var i := SurrogateAt(v.units);
      assert !IsHex(v.units[i]);
    }
  }

  method TsOptionalStrings(record: map<string, Data>, keys: seq<string>) returns (ok: bool)
    ensures ok <==> forall i :: 0 <= i < |keys| ==> TextIfAt(record, keys[i])
  {
    for i := 0 to |keys|
      invariant forall j :: 0 <= j < i ==> TextIfAt(record, keys[j])
    {
      if keys[i] in record && !TsScalarString(record[keys[i]]) {
        return false;
      }
    }
    return true;
  }

  // `safe` is Number.isSafeInteger of the number that JSON.parse makes of the
  // spelling, and that it is not below zero.
  method TsUsage(safe: Lexeme -> bool, usage: Data) returns (ok: bool)
    ensures ok <==> UsageRuleBy(safe, usage)
  {
    hide Keys;
    ShapeCheckIsShape(usage, ["input_tokens", "output_tokens"], []);
    KeysOfTwo("input_tokens", "output_tokens");
    KeysOfOne("");
    if !ShapeCheck(usage, ["input_tokens", "output_tokens"], []) {
      return false;
    }
    var keys := ["input_tokens", "output_tokens"];
    for i := 0 to 2
      invariant forall j :: 0 <= j < i ==> NumberAt(safe, usage.members, keys[j])
    {
      var count := usage.members[keys[i]];
      if !count.Num? || !safe(count.numeral) {
        return false;
      }
    }
    assert NumberAt(safe, usage.members, keys[0]) && NumberAt(safe, usage.members, keys[1]);
    return true;
  }

  method TsContent(content: Data) returns (ok: bool)
    ensures ok <==> ContentRule(content)
  {
    ShapeCheckIsShape(content, ["mode"], ["full", "sha256"]);
    if !ShapeCheck(content, ["mode"], ["full", "sha256"]) {
      return false;
    }
    var c := content.members;
    if IsStr(c["mode"], "full") {
      ok := "full" in c && TsScalarString(c["full"]) && !("sha256" in c);
    } else if IsStr(c["mode"], "sha256") {
      if "sha256" in c {
        HexStringIsDigest(c["sha256"]);
      }
      ok := "sha256" in c && IsHexString(c["sha256"], 64) && "full" !in c;
    } else if IsStr(c["mode"], "omit") {
      ok := "full" !in c && "sha256" !in c;
    } else {
      ok := false;
    }
  }

  predicate TsHost(host: Data) {
    && ShapeCheck(host, ["name"], ["adapter_version"])
    && TsNonempty(host.members["name"])
    && ("adapter_version" in host.members ==> TsScalarString(host.members["adapter_version"]))
  }

  predicate TsObservation(o: Data) {
    && ShapeCheck(o, ["source", "fidelity"], [])
    && (IsStr(o.members["source"], "host_hook") || IsStr(o.members["source"], "host_event"))
    && (IsStr(o.members["fidelity"], "direct") || IsStr(o.members["fidelity"], "estimated"))
  }

  predicate TsAction(a: Data) {
    ShapeCheck(a, ["id", "kind"], []) && TsNonempty(a.members["id"]) && TsNonempty(a.members["kind"])
  }

  lemma TsNested(v: Data)
    ensures TsHost(v) <==> HostRule(v)
    ensures TsObservation(v) <==> ObservationRule(v)
    ensures TsAction(v) <==> ActionRule(v)
  {
    hide Keys;
    ShapeCheckIsShape(v, ["name"], ["adapter_version"]);
    ShapeCheckIsShape(v, ["source", "fidelity"], []);
    ShapeCheckIsShape(v, ["id", "kind"], []);
    KeysOfOne("name");
    KeysOfOne("adapter_version");
    KeysOfTwo("source", "fidelity");
    KeysOfTwo("id", "kind");
    hide ShapeCheck;
  }

  method TsEventTop(v: Data) returns (ok: bool)
    ensures ok <==> EventTop(v)
  {
    hide Keys;
    ShapeCheckIsShape(v, ["pitot_version", "type", "host", "observation"],
                    ["id", "time", "session_id", "action", "content", "usage"]);
    KeysOfFour("pitot_version", "type", "host", "observation");
    KeysOfSix("id", "time", "session_id", "action", "content", "usage");
    ok := ShapeCheck(v, ["pitot_version", "type", "host", "observation"],
                   ["id", "time", "session_id", "action", "content", "usage"]);
    hide ShapeCheck;
    if !ok {
      return;
    }
    var record := v.members;
    if !IsStr(record["pitot_version"], "1")
      || !(IsStr(record["type"], "action.requested") || IsStr(record["type"], "model.usage")) {
      return false;
    }
    var names := ["id", "time", "session_id"];
    ok := TsOptionalStrings(record, names);
    if ok {
      assert TextIfAt(record, names[0]) && TextIfAt(record, names[1]) && TextIfAt(record, names[2]);
    }
  }

  // validateEvent.
  method TypeScriptEvent(safe: Lexeme -> bool, v: Data) returns (ok: bool)
    ensures ok <==> EventRuleBy(safe, v)
  {
    hide HostRule, ObservationRule, ActionRule, UsageRuleBy, ContentRule, TsHost, TsObservation, TsAction, ShapeCheck;
    ok := TsEventTop(v);
    if !ok {
      return;
    }
    var record := v.members;
    TsNested(record["host"]);
    TsNested(record["observation"]);
    if !TsHost(record["host"]) || !TsObservation(record["observation"]) {
      return false;
    }
    if "action" in record {
      TsNested(record["action"]);
      if !TsAction(record["action"]) {
        return false;
      }
    }
    if "usage" in record {
      var usage := TsUsage(safe, record["usage"]);
      if !usage {
        return false;
      }
    }
    if IsStr(record["type"], "action.requested") && "action" !in record {
      return false;
    }
    if IsStr(record["type"], "model.usage") && "usage" !in record {
      return false;
    }
    if "content" in record {
      ok := TsContent(record["content"]);
    }
  }

  // What inspectJSON asks of the number at the path usage.k, if there is one.
  predicate TsCounter(v: Data, k: string) {
    v.Obj? && "usage" in v.members && v.members["usage"].Obj?
    && k in v.members["usage"].members && v.members["usage"].members[k].Num? ==>
      TypeScriptCounter(RenderNumeral(v.members["usage"].members[k].numeral))
  }

  lemma TsCounterIsCount(v: Data, k: string)
    requires v.Obj? && "usage" in v.members && v.members["usage"].Obj?
    ensures var usage := v.members["usage"].members;
            k in usage && usage[k].Num? ==> (TsCounter(v, k) <==> CountAt(usage, k))
  {
    hide RenderNumeral, TypeScriptCounter;
    var usage := v.members["usage"].members;
    if k in usage && usage[k].Num? {
      CountersAgree(usage, k);
    }
  }

  // JSON.parse reads every count as a safe integer.
  ghost predicate SafeCounts(safe: Lexeme -> bool) {
    forall n: Lexeme :: Counts(n) ==> safe(n)
  }

  // What decodeWire and validateEvent ask together is the rule.
  lemma InspectedEvent(safe: Lexeme -> bool, v: Data)
    requires SafeCounts(safe)
    ensures TsCounter(v, "input_tokens") && TsCounter(v, "output_tokens") && EventRuleBy(safe, v) <==> EventRule(v)
  {
    hide EventTop, HostRule, ObservationRule, ActionRule, ContentRule, TypeScriptCounter, RenderNumeral, IsCount;
    RestIsObject(v);
    hide EventRest;
    if v.Obj? && "usage" in v.members && v.members["usage"].Obj? {
      TsCounterIsCount(v, "input_tokens");
      TsCounterIsCount(v, "output_tokens");
    }
  }

  // 1e3
  const THOUSAND: Lexeme := Numeral(false, [0x31], [], Exponent(0x65, [], [0x33]))

  // validateEvent by itself takes that spelling, if JSON.parse makes a safe integer of it.
  lemma ValidateEventTakesThousand(safe: Lexeme -> bool)
    requires safe(THOUSAND)
    ensures EventRuleBy(safe, UsageEvent(THOUSAND, THOUSAND)) && !EventRule(UsageEvent(THOUSAND, THOUSAND))
  {
    UsageEventDecided(safe, THOUSAND, THOUSAND);
    UsageEventDecided(Counts, THOUSAND, THOUSAND);
    hide EventRuleBy, UsageEvent;
  }

  method TypeScriptRequest(v: Data) returns (ok: bool)
    ensures ok <==> RequestRule(v)
  {
    hide Keys;
    ShapeCheckIsShape(v, ["pitot_version", "type", "kind", "action_id"], ["data"]);
    KeysOfFour("pitot_version", "type", "kind", "action_id");
    KeysOfOne("data");
    ok := ShapeCheck(v, ["pitot_version", "type", "kind", "action_id"], ["data"]);
    hide ShapeCheck;
    if !ok {
      return;
    }
    if !IsStr(v.members["pitot_version"], "1") || !IsStr(v.members["type"], "control.requested") {
      return false;
    }
    ok := TsNonempty(v.members["kind"]) && TsNonempty(v.members["action_id"]);
  }

  method TypeScriptResponse(v: Data) returns (ok: bool)
    ensures ok <==> ResponseRule(v)
  {
    hide Keys;
    ShapeCheckIsShape(v, ["pitot_version", "type", "controller_id", "action_id", "outcome"], ["message"]);
    KeysOfFive("pitot_version", "type", "controller_id", "action_id", "outcome");
    KeysOfOne("message");
    ok := ShapeCheck(v, ["pitot_version", "type", "controller_id", "action_id", "outcome"], ["message"]);
    hide ShapeCheck;
    if !ok {
      return;
    }
    var record := v.members;
    if !IsStr(record["pitot_version"], "1") || !IsStr(record["type"], "control.response") {
      return false;
    }
    if !TsNonempty(record["controller_id"]) || !TsNonempty(record["action_id"]) {
      return false;
    }
    if !IsStr(record["outcome"], "allow") && !IsStr(record["outcome"], "deny") {
      return false;
    }
    var optional := ["message"];
    ok := TsOptionalStrings(record, optional);
    if ok {
      assert TextIfAt(record, optional[0]);
    }
  }

  // ----- Rust -----

  predicate RustString(v: Data, nonempty: bool) {
    v.Str? && (!nonempty || v.text != "")
  }

  // A missing key passes: shape has already asked for the required ones.
  method RustStrings(o: map<string, Data>, keys: seq<string>, nonempty: bool) returns (ok: bool)
    ensures ok <==> forall i :: 0 <= i < |keys| && keys[i] in o ==> RustString(o[keys[i]], nonempty)
  {
    for i := 0 to |keys|
      invariant forall j :: 0 <= j < i && keys[j] in o ==> RustString(o[keys[j]], nonempty)
    {
      if keys[i] in o && !RustString(o[keys[i]], nonempty) {
        return false;
      }
    }
    return true;
  }

  predicate RustEquals(v: Data, values: seq<string>) {
    v.Str? && v.text in values
  }

  // The numbers that as_u64 reads as at most the greatest count.
  function SmallU64(asU64: Lexeme -> Option<nat>): Lexeme -> bool {
    (n: Lexeme) => asU64(n).Some? && asU64(n).value <= MAX_COUNT
  }

  method RustUsage(asU64: Lexeme -> Option<nat>, usage: Data) returns (ok: bool)
    ensures ok <==> UsageRuleBy(SmallU64(asU64), usage)
  {
    hide Keys;
    ShapeCheckIsShape(usage, ["input_tokens", "output_tokens"], []);
    KeysOfTwo("input_tokens", "output_tokens");
    KeysOfOne("");
    if !ShapeCheck(usage, ["input_tokens", "output_tokens"], []) {
      return false;
    }
    var o := usage.members;
    var left := o.Keys;
    while left != {}
      invariant left <= o.Keys && forall k :: k in o && k !in left ==> NumberAt(SmallU64(asU64), o, k)
    {
      var k :| k in left;
      if !o[k].Num? || !SmallU64(asU64)(o[k].numeral) {
        return false;
      }
      left := left - {k};
    }
    return true;
  }

  predicate RustContent(content: Data) {
    && content.Obj? && "mode" in content.members && content.members["mode"].Str?
    && var mode := content.members["mode"].text;
       if mode == "full" then
         ShapeCheck(content, ["mode", "full"], []) && RustString(content.members["full"], false)
       else if mode == "sha256" then
         ShapeCheck(content, ["mode", "sha256"], []) && content.members["sha256"].Str?
         && IsDigest(content.members["sha256"].text)
       else mode == "omit" && ShapeCheck(content, ["mode"], [])
  }

  lemma RustContentIsRule(v: Data)
    ensures RustContent(v) <==> ContentRule(v)
  {
    ShapeCheckIsShape(v, ["mode", "full"], []);
    ShapeCheckIsShape(v, ["mode", "sha256"], []);
    ShapeCheckIsShape(v, ["mode"], []);
    KeysOfTwo("mode", "full");
    KeysOfTwo("mode", "sha256");
    KeysOfOne("mode");
    hide ShapeCheck, Keys;
  }

  method RustHost(v: Data) returns (ok: bool)
    ensures ok <==> HostRule(v)
  {
    ShapeCheckIsShape(v, ["name"], ["adapter_version"]);
    if !ShapeCheck(v, ["name"], ["adapter_version"]) {
      return false;
    }
    var required, optional := ["name"], ["adapter_version"];
    var name := RustStrings(v.members, required, true);
    var version := RustStrings(v.members, optional, false);
    assert required[0] == "name" && optional[0] == "adapter_version";
    ok := name && version;
  }

  method RustAction(v: Data) returns (ok: bool)
    ensures ok <==> ActionRule(v)
  {
    ShapeCheckIsShape(v, ["id", "kind"], []);
    if !ShapeCheck(v, ["id", "kind"], []) {
      return false;
    }
    var keys := ["id", "kind"];
    ok := RustStrings(v.members, keys, true);
    assert keys[0] == "id" && keys[1] == "kind";
  }

  predicate RustObservation(v: Data) {
    && ShapeCheck(v, ["source", "fidelity"], [])
    && RustEquals(v.members["source"], ["host_hook", "host_event"])
    && RustEquals(v.members["fidelity"], ["direct", "estimated"])
  }

  lemma RustObservationIsRule(v: Data)
    ensures RustObservation(v) <==> ObservationRule(v)
  {
    ShapeCheckIsShape(v, ["source", "fidelity"], []);
  }

  method RustEventTop(v: Data) returns (ok: bool)
    ensures ok <==> EventTop(v)
  {
    hide Keys;
    ShapeCheckIsShape(v, ["pitot_version", "type", "host", "observation"],
                     ["id", "session_id", "time", "action", "content", "usage"]);
    KeysOfFour("pitot_version", "type", "host", "observation");
    KeysOfSix("id", "session_id", "time", "action", "content", "usage");
    ok := ShapeCheck(v, ["pitot_version", "type", "host", "observation"],
                    ["id", "session_id", "time", "action", "content", "usage"]);
    hide ShapeCheck;
    if !ok {
      return;
    }
    if !RustEquals(v.members["pitot_version"], ["1"])
      || !RustEquals(v.members["type"], ["action.requested", "model.usage"]) {
      return false;
    }
    var names := ["id", "session_id", "time"];
    ok := RustStrings(v.members, names, false);
    assert names[0] == "id" && names[1] == "session_id" && names[2] == "time";
  }

  // event. `asU64` is Value::as_u64 of the number the decoder made of the spelling.
  method RustEvent(asU64: Lexeme -> Option<nat>, v: Data) returns (ok: bool)
    ensures ok <==> EventRuleBy(SmallU64(asU64), v)
  {
    hide HostRule, ObservationRule, ActionRule, UsageRuleBy, ContentRule, RustContent, RustObservation;
    ok := RustEventTop(v);
    if !ok {
      return;
    }
    var o := v.members;
    ok := RustHost(o["host"]);
    if !ok {
      return;
    }
    RustObservationIsRule(o["observation"]);
    if !RustObservation(o["observation"]) {
      return false;
    }
    if "action" in o {
      ok := RustAction(o["action"]);
      if !ok {
        return;
      }
    }
    if "usage" in o {
      ok := RustUsage(asU64, o["usage"]);
      if !ok {
        return;
      }
    }
    if (RustEquals(o["type"], ["action.requested"]) && "action" !in o)
      || (RustEquals(o["type"], ["model.usage"]) && "usage" !in o) {
      return false;
    }
    if "content" in o {
      RustContentIsRule(o["content"]);
      ok := RustContent(o["content"]);
    }
  }

  // The integer that a counter's token spells, as a Value: the token without its sign.
  function Unsigned(n: Lexeme): Lexeme {
    n.(minus := false)
  }

  // as_u64 reads an unsigned count as its value.
  ghost predicate ReadsCounts(asU64: Lexeme -> Option<nat>) {
    forall n: Lexeme :: Counts(n) && !n.minus ==> asU64(n) == Some(NatOf(n.whole))
  }

  // -0
  const MINUS_ZERO: Lexeme := Numeral(true, [ZERO], [], NoExponent)

  // event by itself refuses that count, if the decoder makes a float of it.
  lemma EventRefusesMinusZero(asU64: Lexeme -> Option<nat>)
    requires asU64(MINUS_ZERO) == None
    ensures var v := UsageEvent(MINUS_ZERO, MINUS_ZERO);
            EventRule(v) && !EventRuleBy(SmallU64(asU64), v)
  {
    UsageEventDecided(SmallU64(asU64), MINUS_ZERO, MINUS_ZERO);
    UsageEventDecided(Counts, MINUS_ZERO, MINUS_ZERO);
    WholeMagnitude([ZERO]);
    hide EventRuleBy, UsageEvent;
  }

  function Reread(fields: map<string, Data>, k: string): map<string, Data>
    requires CountAt(fields, k)
  {
    fields[k := Num(Unsigned(fields[k].numeral))]
  }

  // The two counters read from their tokens.
  function WithCounters(usage: Data): Data
    requires UsageRule(usage)
  {
    Obj(Reread(Reread(usage.members, "input_tokens"), "output_tokens"))
  }

  // The loop over the two tokens, on the fields of the usage member.
  method RustTokens(fields: map<string, Data>) returns (ok: bool, usage: map<string, Data>)
    requires "input_tokens" in fields && "output_tokens" in fields
    ensures ok <==> CountAt(fields, "input_tokens") && CountAt(fields, "output_tokens")
    ensures ok ==> usage == Reread(Reread(fields, "input_tokens"), "output_tokens")
  {
    hide RustCounter, RenderNumeral, IsCount;
    usage := fields;
    var names := ["input_tokens", "output_tokens"];
    for i := 0 to 2
      invariant i >= 1 ==> CountAt(fields, names[0])
      invariant i >= 2 ==> CountAt(fields, names[1])
      invariant usage == match i
                         case 0 => fields
                         case 1 => Reread(fields, names[0])
                         case _ => Reread(Reread(fields, names[0]), names[1])
    {
      var token := fields[names[i]];
      if !token.Num? {
        return false, usage;
      }
      CountersAgree(fields, names[i]);
      if !RustCounter(RenderNumeral(token.numeral)) {
        return false, usage;
      }
      usage := usage[names[i] := Num(Unsigned(token.numeral))];
    }
    assert CountAt(fields, names[0]) && CountAt(fields, names[1]);
    return true, usage;
  }

  // A counter read from its token is one that as_u64 reads.
  lemma RereadIsSmall(asU64: Lexeme -> Option<nat>, n: Lexeme)
    requires ReadsCounts(asU64)
    requires Counts(n)
    ensures SmallU64(asU64)(Unsigned(n))
  {
    assert Counts(Unsigned(n));
  }

  lemma RestIgnoresUsage(v: Data, usage: Data)
    requires v.Obj? && "usage" in v.members
    ensures EventRest(Obj(v.members["usage" := usage])) <==> EventRest(v)
  {
    hide HostRule, ObservationRule, ActionRule, ContentRule, OneOf, TextIfAt;
    var m, n := v.members, v.members["usage" := usage];
    forall k | k in {"pitot_version", "type", "id", "time", "session_id"}
      ensures OneOf(m, k, {"1"}) == OneOf(n, k, {"1"}) && TextIfAt(m, k) == TextIfAt(n, k)
      ensures OneOf(m, k, {"action.requested", "model.usage"}) == OneOf(n, k, {"action.requested", "model.usage"})
    {
      SameMember(m, n, k);
    }
  }

  lemma SameMember(m: map<string, Data>, n: map<string, Data>, k: string)
    requires (k in m <==> k in n) && (k in m ==> m[k] == n[k])
    ensures forall values: set<string> :: OneOf(m, k, values) == OneOf(n, k, values)
    ensures TextIfAt(m, k) == TextIfAt(n, k)
  {
  }

  // Rereading the counters changes nothing else about an event.
  lemma RereadEvent(asU64: Lexeme -> Option<nat>, v: Data, usage: map<string, Data>)
    requires ReadsCounts(asU64)
    requires v.Obj? && "usage" in v.members && v.members["usage"].Obj?
    requires var fields := v.members["usage"].members;
             && CountAt(fields, "input_tokens") && CountAt(fields, "output_tokens")
             && usage == Reread(Reread(fields, "input_tokens"), "output_tokens")
    ensures EventRuleBy(SmallU64(asU64), Obj(v.members["usage" := Obj(usage)])) <==> EventRule(v)
  {
    hide SmallU64, EventRest, IsCount;
    RestIgnoresUsage(v, Obj(usage));
    var fields := v.members["usage"].members;
    RereadIsSmall(asU64, fields["input_tokens"].numeral);
    RereadIsSmall(asU64, fields["output_tokens"].numeral);
  }

  // event_raw, then event on the value it leaves: as_u64 would refuse -0, which the
  // decoder makes a float. A root or usage that is no object, and a counter that is
  // missing, ends in an error as well.
  method RustEventRaw(asU64: Lexeme -> Option<nat>, v: Data) returns (ok: bool, value: Data)
    requires ReadsCounts(asU64)
    ensures ok <==> EventRule(v)
    ensures ok ==> value == if "usage" in v.members
                            then Obj(v.members["usage" := WithCounters(v.members["usage"])]) else v
  {
    hide SmallU64, HostRule, ObservationRule, ActionRule, ContentRule, OneOf, TextIfAt, IsCount;
    value := v;
    if !v.Obj? {
      return false, value;
    }
    if "usage" in v.members && v.members["usage"] != Nothing {
      if !v.members["usage"].Obj? {
        return false, value;
      }
      var fields := v.members["usage"].members;
      if "input_tokens" !in fields || "output_tokens" !in fields {
        return false, value;
      }
      var usage;
      ok, usage := RustTokens(fields);
      if !ok {
        return;
      }
      value := Obj(v.members["usage" := Obj(usage)]);
      RereadEvent(asU64, v, usage);
    }
    ok := RustEvent(asU64, value);
  }

  method RustRequest(v: Data) returns (ok: bool)
    ensures ok <==> RequestRule(v)
  {
    hide Keys;
    ShapeCheckIsShape(v, ["pitot_version", "type", "kind", "action_id"], ["data"]);
    KeysOfFour("pitot_version", "type", "kind", "action_id");
    KeysOfOne("data");
    ok := ShapeCheck(v, ["pitot_version", "type", "kind", "action_id"], ["data"]);
    hide ShapeCheck;
    if !ok {
      return;
    }
    if !RustEquals(v.members["pitot_version"], ["1"]) || !RustEquals(v.members["type"], ["control.requested"]) {
      return false;
    }
    var keys := ["kind", "action_id"];
    ok := RustStrings(v.members, keys, true);
    assert keys[0] == "kind" && keys[1] == "action_id";
  }

  method RustResponse(v: Data) returns (ok: bool)
    ensures ok <==> ResponseRule(v)
  {
    hide Keys;
    ShapeCheckIsShape(v, ["pitot_version", "type", "controller_id", "action_id", "outcome"], ["message"]);
    KeysOfFive("pitot_version", "type", "controller_id", "action_id", "outcome");
    KeysOfOne("message");
    ok := ShapeCheck(v, ["pitot_version", "type", "controller_id", "action_id", "outcome"], ["message"]);
    hide ShapeCheck;
    if !ok {
      return;
    }
    if !RustEquals(v.members["pitot_version"], ["1"]) || !RustEquals(v.members["type"], ["control.response"])
      || !RustEquals(v.members["outcome"], ["allow", "deny"]) {
      return false;
    }
    var keys, optional := ["controller_id", "action_id"], ["message"];
    var names := RustStrings(v.members, keys, true);
    var message := RustStrings(v.members, optional, false);
    assert keys[0] == "controller_id" && keys[1] == "action_id" && optional[0] == "message";
    ok := names && message;
  }

  // ----- Python -----

  predicate PyShape(v: Data, required: seq<string>, optional: seq<string>) {
    v.Obj? && Keys(required) <= v.members.Keys && v.members.Keys <= Keys(required) + Keys(optional)
  }

  // isinstance(v, str)
  predicate PyIsString(v: Data) {
    v.Str? || v.Broken?
  }

  predicate PyString(v: Data, nonempty: bool) {
    !(!PyIsString(v) || (nonempty && v == Str("")))
  }

  // _scalars over a value that need not come from parse.
  method PyScalars(v: Data) returns (ok: bool)
    ensures ok <==> WellFormed(v)
    decreases v
  {
    match v {
      case Broken(_) =>
        return false;
      case List(items) =>
        for i := 0 to |items|
          invariant forall j :: 0 <= j < i ==> WellFormed(items[j])
        {
          var one := PyScalars(items[i]);
          if !one {
            return false;
          }
        }
        return true;
      case Obj(members) =>
        var left := members.Keys;
        while left != {}
          invariant left <= members.Keys && forall k :: k in members && k !in left ==> WellFormed(members[k])
        {
          var k :| k in left;
          var one := PyScalars(members[k]);
          if !one {
            return false;
          }
          left := left - {k};
        }
        return true;
      case _ =>
        return true;
    }
  }

  method PyStrings(value: map<string, Data>, fields: seq<string>, nonempty: bool) returns (ok: bool)
    ensures ok <==> forall i :: 0 <= i < |fields| && fields[i] in value ==> PyString(value[fields[i]], nonempty)
  {
    for i := 0 to |fields|
      invariant forall j :: 0 <= j < i && fields[j] in value ==> PyString(value[fields[j]], nonempty)
    {
      if fields[i] in value {
        if !PyString(value[fields[i]], nonempty) {
          return false;
        }
      }
    }
    return true;
  }

  method PyHost(host: Data) returns (ok: bool)
    ensures WellFormed(host) ==> (ok <==> HostRule(host))
  {
    PartsWellFormed(host);
    if !PyShape(host, ["name"], ["adapter_version"]) {
      return false;
    }
    var required, optional := ["name"], ["adapter_version"];
    var name := PyStrings(host.members, required, true);
    var version := PyStrings(host.members, optional, false);
    assert required[0] == "name" && optional[0] == "adapter_version";
    ok := name && version;
  }

  predicate PyObservation(o: Data) {
    && PyShape(o, ["source", "fidelity"], [])
    && (o.members["source"] == Str("host_hook") || o.members["source"] == Str("host_event"))
    && (o.members["fidelity"] == Str("direct") || o.members["fidelity"] == Str("estimated"))
  }

  lemma PyObservationIsRule(o: Data)
    ensures PyObservation(o) <==> ObservationRule(o)
  {
    KeysOfTwo("source", "fidelity");
    KeysOfOne("");
    hide Keys;
  }

  method PyAction(a: Data) returns (ok: bool)
    ensures WellFormed(a) ==> (ok <==> ActionRule(a))
  {
    PartsWellFormed(a);
    if !PyShape(a, ["id", "kind"], []) {
      return false;
    }
    var fields := ["id", "kind"];
    ok := PyStrings(a.members, fields, true);
    assert fields[0] == "id" && fields[1] == "kind";
  }

  method PyUsage(usage: Data) returns (ok: bool)
    ensures ok <==> UsageRule(usage)
  {
    hide Keys, IsCount, PythonCounter, RenderNumeral;
    KeysOfTwo("input_tokens", "output_tokens");
    KeysOfOne("");
    if !PyShape(usage, ["input_tokens", "output_tokens"], []) {
      return false;
    }
    var o := usage.members;
    var left := o.Keys;
    while left != {}
      invariant left <= o.Keys && forall k :: k in o && k !in left ==> CountAt(o, k)
    {
      var k :| k in left;
      if !o[k].Num? {
        return false;
      }
      CountersAgree(o, k);
      if !PythonCounter(RenderNumeral(o[k].numeral)) {
        return false;
      }
      left := left - {k};
    }
    return true;
  }

  predicate PyContent(content: Data) {
    && content.Obj?
    && var mode := if "mode" in content.members then content.members["mode"] else Nothing;
       if mode == Str("full") then PyShape(content, ["mode", "full"], []) && PyString(content.members["full"], false)
       else if mode == Str("sha256") then
         PyShape(content, ["mode", "sha256"], []) && PyIsString(content.members["sha256"])
         && IsHexString(content.members["sha256"], 64)
       else mode == Str("omit") && PyShape(content, ["mode"], [])
  }

  lemma PyContentIsRule(v: Data)
    ensures WellFormed(v) ==> (PyContent(v) <==> ContentRule(v))
  {
    KeysOfTwo("mode", "full");
    KeysOfTwo("mode", "sha256");
    KeysOfOne("mode");
    if v.Obj? && "sha256" in v.members {
      HexStringIsDigest(v.members["sha256"]);
    }
    PartsWellFormed(v);
    hide WellFormed, Keys, IsHexString, IsDigest;
  }

  method PyEventTop(value: Data) returns (ok: bool)
    ensures WellFormed(value) ==> (ok <==> EventTop(value))
    ensures ok ==> value.Obj? && {"host", "observation", "type"} <= value.members.Keys
  {
    PartsWellFormed(value);
    hide Keys, WellFormed;
    KeysOfFour("pitot_version", "type", "host", "observation");
    KeysOfSix("id", "session_id", "time", "action", "content", "usage");
    if !PyShape(value, ["pitot_version", "type", "host", "observation"],
                ["id", "session_id", "time", "action", "content", "usage"]) {
      return false;
    }
    var m := value.members;
    if m["pitot_version"] != Str("1") || !(m["type"] == Str("action.requested") || m["type"] == Str("model.usage")) {
      return false;
    }
    var fields := ["id", "session_id", "time"];
    ok := PyStrings(m, fields, false);
    assert fields[0] == "id" && fields[1] == "session_id" && fields[2] == "time";
  }

  // event, on a value that parse has put through _scalars.
  method PythonEvent(value: Data) returns (ok: bool)
    ensures WellFormed(value) ==> (ok <==> EventRule(value))
  {
    PartsWellFormed(value);
    hide HostRule, ObservationRule, ActionRule, UsageRuleBy, ContentRule, PyContent, PyObservation, WellFormed;
    ok := PyEventTop(value);
    if !ok {
      return;
    }
    var m := value.members;
    ok := PyHost(m["host"]);
    if !ok {
      return;
    }
    PyObservationIsRule(m["observation"]);
    if !PyObservation(m["observation"]) {
      return false;
    }
    if "action" in m {
      ok := PyAction(m["action"]);
      if !ok {
        return;
      }
    }
    if "usage" in m {
      ok := PyUsage(m["usage"]);
      if !ok {
        return;
      }
    }
    if m["type"] == Str("action.requested") && "action" !in m {
      return false;
    }
    if m["type"] == Str("model.usage") && "usage" !in m {
      return false;
    }
    if "content" in m {
      PyContentIsRule(m["content"]);
      ok := PyContent(m["content"]);
    }
  }

  // request, on such a value.
  method PythonRequest(value: Data) returns (ok: bool)
    ensures WellFormed(value) ==> (ok <==> RequestRule(value))
  {
    PartsWellFormed(value);
    hide Keys, WellFormed;
    KeysOfFour("pitot_version", "type", "action_id", "kind");
    KeysOfOne("data");
    if !PyShape(value, ["pitot_version", "type", "action_id", "kind"], ["data"]) {
      return false;
    }
    var m := value.members;
    if m["pitot_version"] != Str("1") || m["type"] != Str("control.requested") {
      return false;
    }
    var fields := ["action_id", "kind"];
    ok := PyStrings(m, fields, true);
    assert fields[0] == "action_id" && fields[1] == "kind";
  }

  // A response has no place for a broken string, so _scalars refuses none.
  lemma ResponseIsWellFormed(value: Data)
    ensures ResponseRule(value) ==> WellFormed(value)
  {
    if ResponseRule(value) {
      forall k | k in value.members ensures value.members[k].Str? && WellFormed(value.members[k]) {
        assert k in {"pitot_version", "type", "controller_id", "action_id", "outcome", "message"};
      }
    }
  }

  // response, on a value the runner has built from what its handler returned.
  method PythonResponse(value: Data) returns (ok: bool)
    ensures ok <==> ResponseRule(value)
  {
    ok := PyScalars(value);
    ResponseIsWellFormed(value);
    if !ok {
      return;
    }
    PartsWellFormed(value);
    hide Keys, WellFormed;
    KeysOfFive("pitot_version", "type", "controller_id", "action_id", "outcome");
    KeysOfOne("message");
    if !PyShape(value, ["pitot_version", "type", "controller_id", "action_id", "outcome"], ["message"]) {
      return false;
    }
    var m := value.members;
    if m["pitot_version"] != Str("1") || m["type"] != Str("control.response")
      || !(m["outcome"] == Str("allow") || m["outcome"] == Str("deny")) {
      return false;
    }
    var fields, optional := ["controller_id", "action_id"], ["message"];
    var names := PyStrings(m, fields, true);
    var message := PyStrings(m, optional, false);
    assert fields[0] == "controller_id" && fields[1] == "action_id" && optional[0] == "message";
    ok := names && message;
  }
}
