// From a line to an envelope in the four SDKs: each parses the line's bytes as its parser
// does and puts the decoded value through its validator. They accept the same lines.
module EnvelopeLines {
  import opened Envelopes
  import opened JsonGrammar
  import opened Accounting
  import opened JsonParser
  import opened JsonCorrectness
  import opened JsonCompleteness
  import opened JsonEncodings
  import opened JsonEscapes
  import opened JsonNames
  import opened JsonUtf8
  import opened JsonAgreement
  import opened EnvelopeRules
  import opened GoTokens
  import opened GoEnvelopes
  import opened SdkEnvelopes
  import Framing

  // ----- The decoded value of a tree -----

  function Chars(s: Text): string
    requires Scalars(s)
  {
    seq(|s|, i requires 0 <= i < |s| => s[i] as char)
  }

  lemma CharsApart(a: Text, b: Text)
    requires Scalars(a) && Scalars(b)
    ensures Chars(a) == Chars(b) <==> a == b
  {
    if Chars(a) == Chars(b) {
      assert |Chars(a)| == |a| && |Chars(b)| == |b|;
      forall i | 0 <= i < |a| ensures a[i] == b[i] {
        assert Chars(a)[i] == a[i] as char && Chars(b)[i] == b[i] as char;
      }
    }
  }

  // A string literal whose escapes pair up and whose characters are scalar values.
  predicate Sane(ps: seq<Piece>) {
    ValidPieces(ps) && Characters(ps) && Paired(ps)
  }

  function StringOf(ps: seq<Piece>): string
    requires Sane(ps)
  {
    AllScalarIffPaired(ps);
    Chars(CodePoints(ps))
  }

  function DataOf(v: Value): Data
    requires Valid(v) && Legible(v) && PairedValue(v)
  {
    match v
    case Literal(True) => Boolean(true)
    case Literal(False) => Boolean(false)
    case Literal(Null) => Nothing
    case Number(n) => Num(n)
    case String(ps) => Data.Str(StringOf(ps))
    case Array(_, items) => List(ItemsData(items))
    case Object(_, members) => Obj(MembersData(members))
  }

  function ItemsData(items: Items): seq<Data>
    requires ValidItems(items) && LegibleItems(items) && PairedItems(items)
  {
    match items
    case NoItems => []
    case Item(_, value, _, rest) => [DataOf(value)] + ItemsData(rest)
  }

  function MembersData(members: Members): map<string, Data>
    requires ValidMembers(members) && LegibleMembers(members) && PairedMembers(members)
  {
    match members
    case NoMembers => map[]
    case Member(_, name, _, _, value, _, rest) => MembersData(rest)[StringOf(name) := DataOf(value)]
  }

  lemma {:induction false} DataIsWellFormed(v: Value)
    requires Valid(v) && Legible(v) && PairedValue(v)
    ensures WellFormed(DataOf(v))
    decreases v
  {
    match v {
      case Array(_, items) => ItemsWellFormed(items);
      case Object(_, members) => MembersWellFormed(members);
      case _ =>
    }
  }

  lemma {:induction false} ItemsWellFormed(items: Items)
    requires ValidItems(items) && LegibleItems(items) && PairedItems(items)
    ensures forall i :: 0 <= i < |ItemsData(items)| ==> WellFormed(ItemsData(items)[i])
    decreases items
  {
    hide DataOf, WellFormed;
    if items.Item? {
      DataIsWellFormed(items.value);
      ItemsWellFormed(items.rest);
    }
  }

  lemma {:induction false} MembersWellFormed(members: Members)
    requires ValidMembers(members) && LegibleMembers(members) && PairedMembers(members)
    ensures forall k :: k in MembersData(members) ==> WellFormed(MembersData(members)[k])
    decreases members
  {
    hide DataOf, WellFormed, StringOf;
    if members.Member? {
      DataIsWellFormed(members.value);
      MembersWellFormed(members.rest);
    }
  }

  // ----- The counters that inspectJSON looks for are those of the decoded value -----

  lemma {:induction false} RawsAreTheirUnits(s: Text)
    requires Ascii(s) && ValidPieces(Raws(s))
    ensures Sane(Raws(s)) && CodePoints(Raws(s)) == s
    decreases |s|
  {
    if s != [] {
      var ps := Raws(s);
      assert ps[0] == Raw(s[0]) && ps[1..] == Raws(s[1..]);
      assert forall i :: 0 <= i < |s| ==> ps[i] == Raw(s[i]);
      RawsAreTheirUnits(s[1..]);
    }
  }

  // A name in the UTF-16 text is the given one exactly when it decodes to it.
  lemma NameIs(name: seq<Piece>, wanted: Text)
    requires Sane(name) && Ascii(wanted) && ValidPieces(Raws(wanted))
    ensures Utf16Value(name) == wanted <==> StringOf(name) == Chars(wanted)
  {
    hide Utf16Value, CodePoints, Chars, Scalars;
    RawsAreTheirUnits(wanted);
    SameString(Raws(wanted));
    EncodeAscii(Utf16, wanted);
    NamesAgree(name, Raws(wanted));
    AllScalarIffPaired(name);
    AsciiIsScalars(wanted);
    CodePointsScalar(name);
    CharsApart(CodePoints(name), wanted);
  }

  lemma CodePointsScalar(ps: seq<Piece>)
    requires Sane(ps)
    ensures Scalars(CodePoints(ps)) && StringOf(ps) == Chars(CodePoints(ps))
  {
    AllScalarIffPaired(ps);
  }

  lemma CounterNames()
    ensures Ascii(USAGE) && Ascii(INPUT_TOKENS) && Ascii(OUTPUT_TOKENS)
    ensures ValidPieces(Raws(USAGE)) && ValidPieces(Raws(INPUT_TOKENS)) && ValidPieces(Raws(OUTPUT_TOKENS))
    ensures Chars(USAGE) == "usage" && Chars(INPUT_TOKENS) == "input_tokens" && Chars(OUTPUT_TOKENS) == "output_tokens"
  {
  }

  lemma {:induction false} KeysAreNames(name: seq<Piece>, members: Members)
    requires Sane(name) && ValidMembers(members) && LegibleMembers(members) && PairedMembers(members)
    ensures StringOf(name) in MembersData(members) <==> CodePoints(name) in PointNames(members)
    decreases members
  {
    hide DataOf, CodePoints, Chars, Valid, Legible, PairedValue, ValidPieces, Characters, Paired, Scalars;
    if members.Member? {
      KeysAreNames(name, members.rest);
      CodePointsScalar(name);
      CodePointsScalar(members.name);
      CharsApart(CodePoints(name), CodePoints(members.name));
    }
  }

  // A number at this key is a count.
  predicate CountIfAt(m: map<string, Data>, k: string) {
    k in m && m[k].Num? ==> CountAt(m, k)
  }

  predicate CountersIfAt(v: Data) {
    v.Obj? ==> CountIfAt(v.members, "input_tokens") && CountIfAt(v.members, "output_tokens")
  }

  predicate UsageIfAt(m: map<string, Data>) {
    "usage" in m ==> CountersIfAt(m["usage"])
  }

  lemma {:induction false} CounterMembersData(members: Members)
    requires ValidMembers(members) && LegibleMembers(members) && PairedMembers(members)
    requires DistinctPointMembers(members) && ValidMembers(RecodeMembers(Utf16, members))
    ensures CounterMembers(RecodeMembers(Utf16, members)) <==> CountersIfAt(Obj(MembersData(members)))
    decreases members
  {
    hide Valid, Legible, PairedValue, DistinctPoints, ValidPieces, Characters, Paired;
    hide CodePoints, Chars, Decode, IsCount;
    if members.Member? {
      CounterMembersData(members.rest);
      CounterNames();
      NameIs(members.name, INPUT_TOKENS);
      NameIs(members.name, OUTPUT_TOKENS);
      KeysAreNames(members.name, members.rest);
      assert Utf16Value(members.name) == Decode(RecodePieces(Utf16, members.name));
    }
  }

  lemma {:induction false} UsageMembersData(members: Members)
    requires ValidMembers(members) && LegibleMembers(members) && PairedMembers(members)
    requires DistinctPointMembers(members) && ValidMembers(RecodeMembers(Utf16, members))
    ensures UsageMembers(RecodeMembers(Utf16, members)) <==> UsageIfAt(MembersData(members))
    decreases members
  {
    hide ValidPieces, Characters, Paired, CodePoints, Chars, Decode, IsCount;
    if members.Member? {
      UsageMembersData(members.rest);
      CounterNames();
      NameIs(members.name, USAGE);
      KeysAreNames(members.name, members.rest);
      assert Utf16Value(members.name) == Decode(RecodePieces(Utf16, members.name));
      if members.value.Object? {
        CounterMembersData(members.value.members);
      }
    }
  }

  // inspectJSON's rule on the tree is its rule on the decoded value.
  lemma UsageCountedIsTsCounter(v: Value)
    requires Valid(v) && Legible(v) && PairedValue(v) && DistinctPoints(v) && Valid(Recode(Utf16, v))
    ensures UsageCounted(Recode(Utf16, v))
       <==> TsCounter(DataOf(v), "input_tokens") && TsCounter(DataOf(v), "output_tokens")
  {
    if v.Object? {
      hide IsCount, TypeScriptCounter, RenderNumeral;
      UsageMembersData(v.members);
      var data := DataOf(v);
      if "usage" in data.members && data.members["usage"].Obj? {
        TsCounterIsCount(data, "input_tokens");
        TsCounterIsCount(data, "output_tokens");
      }
    }
  }

  // ----- The four SDKs, from line to envelope -----

  // Only Go reads responses from a line; the others' parser and validator are put together
  // for them in the same way.
  datatype Kind = AnEvent | ARequest | AResponse

  predicate Rule(kind: Kind, v: Data) {
    match kind
    case AnEvent => EventRule(v)
    case ARequest => RequestRule(v)
    case AResponse => ResponseRule(v)
  }

  predicate WithinLimit(d: Document) {
    |Encode(Utf8, RenderDocument(d))| <= Framing.FRAME_LIMIT
  }

  // What a sound line must hold.
  predicate Accepts(kind: Kind, d: Document)
    requires ValidDocument(d)
  {
    Sound(d) && Rule(kind, DataOf(d.value))
  }

  // schema.DecodeEnvelope, up to the decoding into the typed target
  method GoLine(kind: Kind, d: Document) returns (ok: bool)
    requires ValidDocument(d)
    ensures ok <==> WithinLimit(d) && Accepts(kind, d)
  {
    GoDecides(d);
    hide GoParse, Depth, Legible, PairedValue, DistinctPoints, DataOf;
    hide EventRule, RequestRule, ResponseRule, Encode, RenderDocument;
    if !GoParse(d) {
      return false;
    }
    var v := DataOf(d.value);
    match kind {
      case AnEvent => ok := GoEvent(v);
      case ARequest => ok := GoRequest(v);
      case AResponse => ok := GoResponse(v);
    }
  }

  // decodeWire and the validator of the kind
  method TypeScriptLine(kind: Kind, safe: Lexeme -> bool, d: Document) returns (ok: bool)
    requires ValidDocument(d) && SafeCounts(safe)
    ensures ok <==> Accepts(kind, d)
  {
    TypeScriptDecides(d);
    hide TypeScriptParse, Depth, Legible, PairedValue, DistinctPoints, DataOf, Valid, Recode;
    hide UsageCounted, TsCounter, EventRule, EventRuleBy, RequestRule, ResponseRule, RenderDocument;
    if Sound(d) {
      UsageCountedIsTsCounter(d.value);
      InspectedEvent(safe, DataOf(d.value));
      NoUsageNoCounter(DataOf(d.value));
    }
    if !TypeScriptParse(d) {
      return false;
    }
    var v := DataOf(d.value);
    match kind {
      case AnEvent => ok := TypeScriptEvent(safe, v);
      case ARequest => ok := TypeScriptRequest(v);
      case AResponse => ok := TypeScriptResponse(v);
    }
  }

  // Requests and responses have no usage for the counter rule to look at.
  lemma NoUsageNoCounter(v: Data)
    ensures RequestRule(v) || ResponseRule(v) ==> TsCounter(v, "input_tokens") && TsCounter(v, "output_tokens")
  {
  }

  // parse and the validator of the kind
  method PythonLine(kind: Kind, takes: Numeral -> bool, d: Document) returns (ok: bool)
    requires ValidDocument(d)
    ensures ok <==> Accepts(kind, d) && NumbersTaken(takes, d.value)
  {
    PythonDecides(takes, d);
    hide PythonParse, Depth, Legible, PairedValue, DistinctPoints, DataOf, Valid, NumbersTaken;
    hide WellFormed, EventRule, RequestRule, ResponseRule;
    if !PythonParse(takes, d) {
      return false;
    }
    DataIsWellFormed(d.value);
    var v := DataOf(d.value);
    match kind {
      case AnEvent => ok := PythonEvent(v);
      case ARequest => ok := PythonRequest(v);
      case AResponse => ok := PythonResponse(v);
    }
  }

  // parse and the validator of the kind
  method RustLine(kind: Kind, takes: Numeral -> bool, asU64: Lexeme -> Option<nat>, d: Document) returns (ok: bool)
    requires ValidDocument(d) && ReadsCounts(asU64)
    ensures ok <==> Accepts(kind, d) && NumbersTaken(takes, d.value)
  {
    RustDecides(takes, d);
    hide RustParse, Depth, Legible, PairedValue, DistinctPoints, DataOf, Valid, NumbersTaken;
    hide EventRule, RequestRule, ResponseRule;
    if !RustParse(takes, d) {
      return false;
    }
    var v := DataOf(d.value);
    match kind {
      case AnEvent =>
        var reread;
        ok, reread := RustEventRaw(asU64, v);
      case ARequest => ok := RustRequest(v);
      case AResponse => ok := RustResponse(v);
    }
  }

  // Of the lines within the frame limit whose numbers every runtime takes, the four accept
  // the same events, the same requests and the same responses.
  method FourLines(kind: Kind, safe: Lexeme -> bool, python: Numeral -> bool, rust: Numeral -> bool,
                   asU64: Lexeme -> Option<nat>, d: Document)
    returns (go: bool, typescript: bool, py: bool, rs: bool)
    requires ValidDocument(d) && WithinLimit(d) && SafeCounts(safe) && ReadsCounts(asU64)
    requires NumbersTaken(python, d.value) && NumbersTaken(rust, d.value)
    ensures go == typescript == py == rs == Accepts(kind, d)
  {
    go := GoLine(kind, d);
    typescript := TypeScriptLine(kind, safe, d);
    py := PythonLine(kind, python, d);
    rs := RustLine(kind, rust, asU64, d);
  }
}
