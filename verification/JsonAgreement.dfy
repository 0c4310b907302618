// Admission of one document by the four SDKs, each from its UTF-8 bytes: Go and Rust go on
// with the bytes, Python with code points, TypeScript with UTF-16 code units.
module JsonAgreement {
  import opened Envelopes
  import opened JsonGrammar
  import opened Accounting
  import opened JsonParser
  import opened JsonCorrectness
  import opened JsonCompleteness
  import opened JsonDepth
  import Escapes = JsonEscapes
  import Framing
  import opened JsonEncodings
  import opened JsonNames
  import opened JsonUtf8
  import opened GoTokens
  import RustVisitor

  // sdk/python/pitot/wire.py, _scalars over the decoded value.
  predicate PointsScalar(v: Value)
    requires Valid(v)
  {
    match v
    case String(ps) => AllScalar(CodePoints(ps))
    case Array(_, items) => PointsScalarItems(items)
    case Object(_, members) => PointsScalarMembers(members)
    case _ => true
  }

  predicate PointsScalarItems(items: Items)
    requires ValidItems(items)
  {
    items.Item? ==> PointsScalar(items.value) && PointsScalarItems(items.rest)
  }

  predicate PointsScalarMembers(members: Members)
    requires ValidMembers(members)
  {
    members.Member? ==>
      AllScalar(CodePoints(members.name)) && PointsScalar(members.value) && PointsScalarMembers(members.rest)
  }

  // ----- Well-formed strings -----

  lemma {:induction false} PointsScalarIffPaired(v: Value)
    requires Valid(v) && Legible(v)
    ensures PointsScalar(v) <==> Escapes.PairedValue(v)
    decreases v
  {
    match v {
      case String(ps) => AllScalarIffPaired(ps);
      case Array(_, items) => PointsScalarItemsPaired(items);
      case Object(_, members) => PointsScalarMembersPaired(members);
      case _ =>
    }
  }

  lemma {:induction false} PointsScalarItemsPaired(items: Items)
    requires ValidItems(items) && LegibleItems(items)
    ensures PointsScalarItems(items) <==> Escapes.PairedItems(items)
    decreases items
  {
    if items.Item? {
      PointsScalarIffPaired(items.value);
      PointsScalarItemsPaired(items.rest);
    }
  }

  lemma {:induction false} PointsScalarMembersPaired(members: Members)
    requires ValidMembers(members) && LegibleMembers(members)
    ensures PointsScalarMembers(members) <==> Escapes.PairedMembers(members)
    decreases members
  {
    if members.Member? {
      AllScalarIffPaired(members.name);
      PointsScalarIffPaired(members.value);
      PointsScalarMembersPaired(members.rest);
    }
  }

  lemma {:induction false} ScalarIffPaired(v: Value)
    requires Valid(v) && Legible(v) && Valid(Recode(Utf16, v))
    ensures Scalar(Recode(Utf16, v)) <==> Escapes.PairedValue(v)
    decreases v
  {
    match v {
      case String(ps) => ScalarStringIffPaired(ps);
      case Array(_, items) => ScalarItemsPaired(items);
      case Object(_, members) => ScalarMembersPaired(members);
      case _ =>
    }
  }

  lemma {:induction false} ScalarItemsPaired(items: Items)
    requires ValidItems(items) && LegibleItems(items) && ValidItems(RecodeItems(Utf16, items))
    ensures ScalarItems(RecodeItems(Utf16, items)) <==> Escapes.PairedItems(items)
    decreases items
  {
    hide Scalar, Valid, Legible, Recode;
    if items.Item? {
      ScalarIffPaired(items.value);
      ScalarItemsPaired(items.rest);
    }
  }

  lemma {:induction false} ScalarMembersPaired(members: Members)
    requires ValidMembers(members) && LegibleMembers(members) && ValidMembers(RecodeMembers(Utf16, members))
    ensures ScalarMembers(RecodeMembers(Utf16, members)) <==> Escapes.PairedMembers(members)
    decreases members
  {
    hide Scalar, Valid, Legible, Recode, ValidPieces, Characters;
    if members.Member? {
      ScalarStringIffPaired(members.name);
      ScalarIffPaired(members.value);
      ScalarMembersPaired(members.rest);
    }
  }

  // ----- Equal names -----

  lemma {:induction false} NameSets(name: seq<Piece>, members: Members)
    requires ValidPieces(name) && Characters(name) && Escapes.Paired(name)
    requires ValidMembers(members) && LegibleMembers(members) && Escapes.PairedMembers(members)
    requires ValidMembers(RecodeMembers(Utf16, members))
    ensures Utf16Value(name) in Names(RecodeMembers(Utf16, members)) <==> CodePoints(name) in PointNames(members)
    decreases members
  {
    hide Valid, Legible, Recode, CodePoints, Decode, RecodePieces, ValidPieces, Characters;
    if members.Member? {
      NamesAgree(name, members.name);
      NameSets(name, members.rest);
      assert Utf16Value(members.name) == Decode(RecodePieces(Utf16, members.name));
    }
  }

  lemma {:induction false} DistinctAgree(v: Value)
    requires Valid(v) && Legible(v) && Escapes.PairedValue(v) && Valid(Recode(Utf16, v))
    ensures Distinct(Recode(Utf16, v)) <==> DistinctPoints(v)
    decreases v
  {
    match v {
      case Array(_, items) => DistinctItemsAgree(items);
      case Object(_, members) => DistinctMembersAgree(members);
      case _ =>
    }
  }

  lemma {:induction false} DistinctItemsAgree(items: Items)
    requires ValidItems(items) && LegibleItems(items) && Escapes.PairedItems(items)
    requires ValidItems(RecodeItems(Utf16, items))
    ensures DistinctItems(RecodeItems(Utf16, items)) <==> DistinctPointItems(items)
    decreases items
  {
    hide Distinct, Valid, Legible, Recode;
    if items.Item? {
      DistinctAgree(items.value);
      DistinctItemsAgree(items.rest);
    }
  }

  lemma {:induction false} DistinctMembersAgree(members: Members)
    requires ValidMembers(members) && LegibleMembers(members) && Escapes.PairedMembers(members)
    requires ValidMembers(RecodeMembers(Utf16, members))
    ensures DistinctMembers(RecodeMembers(Utf16, members)) <==> DistinctPointMembers(members)
    decreases members
  {
    hide Distinct, Valid, Legible, Recode, CodePoints, Decode, RecodePieces, ValidPieces, Characters;
    if members.Member? {
      NameSets(members.name, members.rest);
      DistinctAgree(members.value);
      DistinctMembersAgree(members.rest);
      assert Utf16Value(members.name) == Decode(RecodePieces(Utf16, members.name));
    }
  }

  // ----- The four admissions -----

  // protocol/parse.go, Parse, on the bytes of a document.
  predicate GoParse(d: Document)
    requires ValidDocument(d)
  {
    var bytes := Encode(Utf8, RenderDocument(d));
    && |bytes| <= Framing.FRAME_LIMIT && Utf8Valid(bytes) && Escapes.Scan(bytes, false)
    && ReadValue(TokensOf(d.value), 0) == Some([])
  }

  // sdk/python/pitot/wire.py, parse: strict decoding, then the work on characters.
  // json.loads refuses the integers that its conversion limit excludes.
  predicate PythonParse(takes: Numeral -> bool, d: Document)
    requires ValidDocument(d)
  {
    && Utf8Valid(Encode(Utf8, RenderDocument(d)))
    && !(Peak(RenderDocument(d)) > MAX_DEPTH)
    && NumbersTaken(takes, d.value) && DistinctPoints(d.value)
    && PointsScalar(d.value)
  }

  // sdk/typescript/src/wire.ts, decodeWire: fatal decoding, then inspectJSON on UTF-16.
  predicate TypeScriptParse(d: Document) {
    Utf8Valid(Encode(Utf8, RenderDocument(d))) && ParseDocument(Encode(Utf16, RenderDocument(d))).Ok?
  }

  // sdk/rust/src/wire.rs, parse: what RustVisitor.Visit returns for the value.
  predicate RustParse(takes: Numeral -> bool, d: Document)
    requires ValidDocument(d)
  {
    RustVisitor.Strict(takes, d.value, 0)
  }

  predicate Sound(d: Document)
    requires ValidDocument(d)
  {
    && Depth(d.value) <= MAX_DEPTH && Legible(d.value) && Escapes.PairedValue(d.value)
    && DistinctPoints(d.value)
  }

  lemma GoDecides(d: Document)
    requires ValidDocument(d)
    ensures GoParse(d) <==> |Encode(Utf8, RenderDocument(d))| <= Framing.FRAME_LIMIT && Sound(d)
  {
    hide ReadValue, TokensOf, Encode, Render, Recode, Escapes.Scan, Escapes.PairedValue, Valid, DistinctPoints, Depth;
    hide Utf8Valid, Legible;
    DocumentUtf8(d);
    DocumentRecoded(Utf8, d);
    Escapes.ScanIffPaired(RecodeDocument(Utf8, d));
    ValueRecoded(Utf8, d.value);
    ValueDecided(d.value, [], 0);
    assert TokensOf(d.value) + [] == TokensOf(d.value);
  }

  lemma PythonDecides(takes: Numeral -> bool, d: Document)
    requires ValidDocument(d)
    ensures PythonParse(takes, d) <==> Sound(d) && NumbersTaken(takes, d.value)
  {
    hide Peak, RenderDocument, Escapes.PairedValue, Valid, DistinctPoints, Depth, PointsScalar, NumbersTaken;
    hide Utf8Valid, Legible;
    DocumentUtf8(d);
    PeakIsDepth(d);
    if Legible(d.value) {
      PointsScalarIffPaired(d.value);
    }
  }

  lemma RustDecides(takes: Numeral -> bool, d: Document)
    requires ValidDocument(d)
    ensures RustParse(takes, d) <==> Sound(d) && NumbersTaken(takes, d.value)
  {
    RustVisitor.StrictDecided(takes, d.value, 0);
  }

  lemma TypeScriptDecides(d: Document)
    requires ValidDocument(d)
    ensures ValidDocument(RecodeDocument(Utf16, d))
    ensures TypeScriptParse(d) <==> Sound(d) && UsageCounted(Recode(Utf16, d.value))
  {
    hide ParseDocument, RenderDocument, Escapes.PairedValue, Valid, DistinctPoints, Depth, Recode;
    hide UsageCounted, Counted, Scalar, Distinct, Utf8Valid, Legible;
    DocumentUtf8(d);
    DocumentRecoded(Utf16, d);
    DocumentDecided(RecodeDocument(Utf16, d));
    ValueRecoded(Utf16, d.value);
    CountedIffUsageCounted(Recode(Utf16, d.value));
    if Legible(d.value) {
      ScalarIffPaired(d.value);
      if Escapes.PairedValue(d.value) {
        DistinctAgree(d.value);
      }
    }
  }

  // Of the documents within the frame limit, Rust and Python admit those that Go admits
  // and whose numbers their own runtimes take, and TypeScript those that Go admits and
  // whose usage counters are counts. Where both take the numbers, the three SDKs agree
  // at any length.
  lemma ReadersAgree(rust: Numeral -> bool, python: Numeral -> bool, d: Document)
    requires ValidDocument(d)
    ensures ValidDocument(RecodeDocument(Utf16, d))
    ensures |Encode(Utf8, RenderDocument(d))| <= Framing.FRAME_LIMIT ==>
              && (RustParse(rust, d) <==> GoParse(d) && NumbersTaken(rust, d.value))
              && (PythonParse(python, d) <==> GoParse(d) && NumbersTaken(python, d.value))
              && (TypeScriptParse(d) <==> GoParse(d) && UsageCounted(Recode(Utf16, d.value)))
    ensures NumbersTaken(rust, d.value) && NumbersTaken(python, d.value) ==>
              && (RustParse(rust, d) <==> PythonParse(python, d))
              && (TypeScriptParse(d) <==> PythonParse(python, d) && UsageCounted(Recode(Utf16, d.value)))
  {
    hide *;
    RustDecides(rust, d);
    GoDecides(d);
    PythonDecides(python, d);
    TypeScriptDecides(d);
  }
}
