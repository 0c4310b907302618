// What a wire envelope must look like, stated once: the rules that the four SDK
// validators are each proved to check, and Go's typed rules after decoding.
module EnvelopeRules {
  import opened Envelopes
  import opened JsonGrammar
  import opened Accounting

  type Lexeme = n: Numeral | ValidNumeral(n) witness Numeral(false, [ZERO], [], NoExponent)

  predicate HasSurrogate(s: Text) {
    s != [] && (IsHigh(s[0]) || IsLow(s[0]) || HasSurrogate(s[1..]))
  }

  lemma {:induction false} SurrogateAt(s: Text) returns (i: nat)
    requires HasSurrogate(s)
    ensures i < |s| && (IsHigh(s[i]) || IsLow(s[i]))
  {
    if IsHigh(s[0]) || IsLow(s[0]) {
      i := 0;
    } else {
      i := SurrogateAt(s[1..]);
      i := i + 1;
    }
  }

  // The units of a string that is no sequence of Unicode scalar values.
  type Surrogates = s: Text | HasSurrogate(s) witness [0xD800]

  // A decoded JSON value. Numbers keep their spelling; objects have distinct names. A
  // string of TypeScript or Python may be broken, which one of Go or Rust never is; a
  // TypeScript string whose surrogates all pair up is not.
  datatype Data =
    | Nothing
    | Boolean(value: bool)
    | Num(numeral: Lexeme)
    | Str(text: string)
    | Broken(units: Surrogates)
    | List(items: seq<Data>)
    | Obj(members: map<string, Data>)

  // No string in it is broken.
  predicate WellFormed(v: Data) {
    match v
    case Broken(_) => false
    case List(items) => forall i :: 0 <= i < |items| ==> WellFormed(items[i])
    case Obj(members) => forall k :: k in members ==> WellFormed(members[k])
    case _ => true
  }

  lemma {:induction false} PartsWellFormed(v: Data)
    ensures WellFormed(v) && v.Obj? ==>
              forall k :: k in v.members ==> WellFormed(v.members[k]) && !v.members[k].Broken?
  {
    if WellFormed(v) && v.Obj? {
      forall k | k in v.members ensures WellFormed(v.members[k]) && !v.members[k].Broken? {
        var part := v.members[k];
        assert WellFormed(part);
      }
    }
  }

  function Keys(names: seq<string>): set<string> {
    set n | n in names
  }

  // An object with all the required members and no others than the optional ones.
  predicate Shape(v: Data, required: set<string>, optional: set<string>) {
    v.Obj? && required <= v.members.Keys <= required + optional
  }

  predicate TextAt(m: map<string, Data>, k: string, nonempty: bool) {
    k in m && m[k].Str? && (nonempty ==> m[k].text != "")
  }

  predicate TextIfAt(m: map<string, Data>, k: string) {
    k in m ==> m[k].Str?
  }

  predicate OneOf(m: map<string, Data>, k: string, values: set<string>) {
    k in m && m[k].Str? && m[k].text in values
  }

  predicate NumberAt(takes: Lexeme -> bool, m: map<string, Data>, k: string) {
    k in m && m[k].Num? && takes(m[k].numeral)
  }

  predicate Counts(n: Lexeme) {
    IsCount(n)
  }

  predicate CountAt(m: map<string, Data>, k: string) {
    NumberAt(Counts, m, k)
  }

  lemma CountersAgree(m: map<string, Data>, k: string)
    requires k in m && m[k].Num?
    ensures var s := RenderNumeral(m[k].numeral);
            && (GoCounter(s) <==> CountAt(m, k)) && (RustCounter(s) <==> CountAt(m, k))
            && (TypeScriptCounter(s) <==> CountAt(m, k)) && (PythonCounter(s) <==> CountAt(m, k))
  {
    FourCountersAgree(m[k].numeral);
  }

  predicate HostRule(v: Data) {
    && Shape(v, {"name"}, {"adapter_version"})
    && TextAt(v.members, "name", true) && TextIfAt(v.members, "adapter_version")
  }

  predicate ObservationRule(v: Data) {
    && Shape(v, {"source", "fidelity"}, {})
    && OneOf(v.members, "source", {"host_hook", "host_event"})
    && OneOf(v.members, "fidelity", {"direct", "estimated"})
  }

  predicate ActionRule(v: Data) {
    Shape(v, {"id", "kind"}, {}) && TextAt(v.members, "id", true) && TextAt(v.members, "kind", true)
  }

  // The usage counters are numbers that the given test takes.
  predicate UsageRuleBy(takes: Lexeme -> bool, v: Data) {
    && Shape(v, {"input_tokens", "output_tokens"}, {})
    && NumberAt(takes, v.members, "input_tokens") && NumberAt(takes, v.members, "output_tokens")
  }

  predicate UsageRule(v: Data) {
    UsageRuleBy(Counts, v)
  }

  predicate IsHexChar(c: char) {
    '0' <= c <= '9' || 'a' <= c <= 'f' || 'A' <= c <= 'F'
  }

  predicate IsDigest(s: string) {
    |s| == 64 && forall i :: 0 <= i < |s| ==> IsHexChar(s[i])
  }

  lemma DigestByCharacters(s: string)
    ensures IsDigest(s) <==> |s| == 64 && forall c :: c in s ==> c in "0123456789abcdefABCDEF"
  {
    forall i | 0 <= i < |s| ensures IsHexChar(s[i]) <==> s[i] in "0123456789abcdefABCDEF" {
      HexByName(s[i]);
    }
    hide IsHexChar;
  }

  lemma HexByName(c: char)
    ensures IsHexChar(c) <==> c in "0123456789abcdefABCDEF"
  {
  }

  // Three exclusive representations.
  predicate ContentRule(v: Data) {
    || (Shape(v, {"mode", "full"}, {}) && v.members["mode"] == Str("full") && v.members["full"].Str?)
    || (Shape(v, {"mode"}, {}) && v.members["mode"] == Str("omit"))
    || (Shape(v, {"mode", "sha256"}, {}) && v.members["mode"] == Str("sha256")
        && v.members["sha256"].Str? && IsDigest(v.members["sha256"].text))
  }

  // An event's own members, apart from its nested objects.
  predicate EventTop(v: Data) {
    && Shape(v, {"pitot_version", "type", "host", "observation"},
             {"id", "time", "session_id", "action", "content", "usage"})
    && OneOf(v.members, "pitot_version", {"1"}) && OneOf(v.members, "type", {"action.requested", "model.usage"})
    && TextIfAt(v.members, "id") && TextIfAt(v.members, "time") && TextIfAt(v.members, "session_id")
  }

  // Everything an event must be apart from its usage.
  predicate EventRest(v: Data) {
    && EventTop(v)
    && var m := v.members;
    && HostRule(m["host"]) && ObservationRule(m["observation"])
    && ("action" in m ==> ActionRule(m["action"]))
    && ("content" in m ==> ContentRule(m["content"]))
    && (m["type"] == Str("action.requested") ==> "action" in m)
    && (m["type"] == Str("model.usage") ==> "usage" in m)
  }

  predicate EventRuleBy(takes: Lexeme -> bool, v: Data) {
    EventRest(v) && ("usage" in v.members ==> UsageRuleBy(takes, v.members["usage"]))
  }

  predicate EventRule(v: Data) {
    EventRuleBy(Counts, v)
  }

  // ----- Where a test of the counters is the counter rule -----

  // Two numbers under the names of the counters, and nothing else.
  predicate TwoNumbers(usage: Data) {
    && Shape(usage, {"input_tokens", "output_tokens"}, {})
    && usage.members["input_tokens"].Num? && usage.members["output_tokens"].Num?
  }

  // A validator that tests counters by `takes` decides as the rules do on exactly these
  // values: those that fail for another reason, those without usage or with an ill-shaped
  // one, and those whose two counters `takes` judges, together, as the rule does.
  lemma RulesAgreeExactly(takes: Lexeme -> bool, v: Data)
    ensures (EventRuleBy(takes, v) <==> EventRule(v))
       <==> || !EventRest(v)
            || "usage" !in v.members
            || !TwoNumbers(v.members["usage"])
            || var usage := v.members["usage"].members;
               var a, b := usage["input_tokens"].numeral, usage["output_tokens"].numeral;
               (takes(a) && takes(b) <==> Counts(a) && Counts(b))
  {
    hide EventRest, IsCount;
    assert EventRest(v) ==> v.Obj? by { RestIsObject(v); }
  }

  lemma RestIsObject(v: Data)
    ensures EventRest(v) ==> v.Obj?
  {
  }

  // A usage event of the least kind, with these counters.
  function UsageEvent(input: Lexeme, output: Lexeme): Data {
    Obj(map["pitot_version" := Str("1"), "type" := Str("model.usage"), "host" := Obj(map["name" := Str("host")]),
            "observation" := Obj(map["source" := Str("host_event"), "fidelity" := Str("direct")]),
            "usage" := Obj(map["input_tokens" := Num(input), "output_tokens" := Num(output)])])
  }

  lemma UsageEventRest(input: Lexeme, output: Lexeme)
    ensures EventRest(UsageEvent(input, output))
  {
    UsageEventParts();
    UsageEventTop(input, output);
    hide HostRule, ObservationRule, EventTop;
  }

  lemma UsageEventParts()
    ensures HostRule(Obj(map["name" := Str("host")]))
    ensures ObservationRule(Obj(map["source" := Str("host_event"), "fidelity" := Str("direct")]))
  {
  }

  lemma UsageEventTop(input: Lexeme, output: Lexeme)
    ensures EventTop(UsageEvent(input, output))
  {
    var m := UsageEvent(input, output).members;
    assert m.Keys == {"pitot_version", "type", "host", "observation", "usage"};
  }

  // Only the test of the counters matters for it.
  lemma UsageEventDecided(takes: Lexeme -> bool, input: Lexeme, output: Lexeme)
    ensures EventRuleBy(takes, UsageEvent(input, output)) <==> takes(input) && takes(output)
  {
    hide EventRest;
    UsageEventRest(input, output);
  }

  lemma KeysOfOne(a: string)
    ensures Keys([]) == {} && Keys([a]) == {a}
  {
  }

  lemma KeysOfTwo(a: string, b: string)
    ensures Keys([a, b]) == {a, b}
  {
  }

  lemma KeysOfThree(a: string, b: string, c: string)
    ensures Keys([a, b, c]) == {a, b, c}
  {
  }

  lemma KeysOfFour(a: string, b: string, c: string, d: string)
    ensures Keys([a, b, c, d]) == {a, b, c, d}
  {
  }

  lemma KeysOfFive(a: string, b: string, c: string, d: string, e: string)
    ensures Keys([a, b, c, d, e]) == {a, b, c, d, e}
  {
  }

  lemma KeysOfSix(a: string, b: string, c: string, d: string, e: string, f: string)
    ensures Keys([a, b, c, d, e, f]) == {a, b, c, d, e, f}
  {
  }

  // Every nested rule is about an object.
  lemma NestedIsObject(v: Data)
    ensures HostRule(v) || ObservationRule(v) || ActionRule(v) || UsageRule(v) || ContentRule(v) ==> v.Obj?
  {
  }

  predicate RequestRule(v: Data) {
    && Shape(v, {"pitot_version", "type", "kind", "action_id"}, {"data"})
    && OneOf(v.members, "pitot_version", {"1"}) && OneOf(v.members, "type", {"control.requested"})
    && TextAt(v.members, "kind", true) && TextAt(v.members, "action_id", true)
  }

  predicate ResponseRule(v: Data) {
    && Shape(v, {"pitot_version", "type", "controller_id", "action_id", "outcome"}, {"message"})
    && OneOf(v.members, "pitot_version", {"1"}) && OneOf(v.members, "type", {"control.response"})
    && TextAt(v.members, "controller_id", true) && TextAt(v.members, "action_id", true)
    && OneOf(v.members, "outcome", {"allow", "deny"}) && TextIfAt(v.members, "message")
  }

  predicate FaultRule(v: Data) {
    && Shape(v, {"pitot_version", "type", "host", "reason"}, {"action_id"})
    && OneOf(v.members, "pitot_version", {"1"}) && OneOf(v.members, "type", {"boundary.fault"})
    && TextAt(v.members, "host", true) && TextIfAt(v.members, "action_id")
    && OneOf(v.members, "reason", {"empty-command", "malformed-event", "unsupported-host"})
  }
}
