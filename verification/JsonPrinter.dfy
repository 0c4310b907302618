// A printer from value trees without spelling to documents. What it prints is
// accepted exactly when the tree keeps the wire constraints, and means the tree it came from.
module JsonPrinter {
  import opened Envelopes
  import opened JsonGrammar
  import opened Accounting
  import opened JsonParser
  import opened JsonCorrectness
  import opened JsonCompleteness

  // A JSON value: strings decoded, no white space.
  datatype Json =
    | JWord(word: Word)
    | JNumber(numeral: Numeral)
    | JString(text: Text)
    | JArray(items: JItems)
    | JObject(members: JMembers)
  datatype JItems = JNil | JItem(value: Json, rest: JItems)
  datatype JMembers = JEmpty | JMember(name: Text, value: Json, rest: JMembers)

  function Meaning(v: Value): Json
    requires Valid(v)
  {
    match v
    case Literal(word) => JWord(word)
    case Number(n) => JNumber(n)
    case String(ps) => JString(Decode(ps))
    case Array(_, items) => JArray(ItemsMeaning(items))
    case Object(_, members) => JObject(MembersMeaning(members))
  }

  function ItemsMeaning(items: Items): JItems
    requires ValidItems(items)
  {
    match items
    case NoItems => JNil
    case Item(_, value, _, rest) => JItem(Meaning(value), ItemsMeaning(rest))
  }

  function MembersMeaning(members: Members): JMembers
    requires ValidMembers(members)
  {
    match members
    case NoMembers => JEmpty
    case Member(_, name, _, _, value, _, rest) => JMember(Decode(name), Meaning(value), MembersMeaning(rest))
  }

  // ----- Printing -----

  function Nibble(n: nat): nat
    requires n < 16
  {
    if n < 10 then ZERO + n else 0x57 + n
  }

  // Quotes, backslashes and control characters are escaped, the last by number: the
  // short forms that JSON.stringify has for five of them decode to the same units.
  function PrintUnit(u: nat): Piece {
    if u == QUOTE || u == BACKSLASH then Escape(u)
    else if u < 0x20 then Unicode([ZERO, ZERO, Nibble(u / 16), Nibble(u % 16)])
    else Raw(u)
  }

  function PrintText(s: Text): seq<Piece> {
    if s == [] then [] else [PrintUnit(s[0])] + PrintText(s[1..])
  }

  function Print(j: Json): Value {
    match j
    case JWord(word) => Literal(word)
    case JNumber(n) => Number(n)
    case JString(text) => String(PrintText(text))
    case JArray(items) => Array([], PrintItems(items))
    case JObject(members) => Object([], PrintMembers(members))
  }

  function PrintItems(items: JItems): Items {
    match items
    case JNil => NoItems
    case JItem(value, rest) => Item([], Print(value), [], PrintItems(rest))
  }

  function PrintMembers(members: JMembers): Members {
    match members
    case JEmpty => NoMembers
    case JMember(name, value, rest) => Member([], PrintText(name), [], [], Print(value), [], PrintMembers(rest))
  }

  // ----- The wire constraints on a value -----

  predicate Fits(j: Json, path: seq<Text>, depth: nat) {
    match j
    case JWord(_) => true
    case JNumber(n) => ValidNumeral(n) && (IsCounter(path) ==> IsCount(n))
    case JString(text) => ScalarString(text)
    case JArray(items) => depth < MAX_DEPTH && FitsItems(items, path, 0, depth + 1)
    case JObject(members) => depth < MAX_DEPTH && FitsMembers(members, path, depth + 1, {})
  }

  predicate FitsItems(items: JItems, path: seq<Text>, index: nat, depth: nat) {
    items.JItem? ==>
      Fits(items.value, path + [Decimal(index)], depth) && FitsItems(items.rest, path, index + 1, depth)
  }

  predicate FitsMembers(members: JMembers, path: seq<Text>, depth: nat, seen: set<Text>) {
    members.JMember? ==>
      && members.name !in seen && ScalarString(members.name)
      && Fits(members.value, path + [members.name], depth)
      && FitsMembers(members.rest, path, depth, seen + {members.name})
  }

  // ----- Round trip -----

  lemma {:induction false} TextPrinted(s: Text)
    ensures ValidPieces(PrintText(s)) && Decode(PrintText(s)) == s
  {
    if s != [] {
      TextPrinted(s[1..]);
      assert PrintText(s)[1..] == PrintText(s[1..]);
      assert ValidPiece(PrintUnit(s[0])) && DecodePiece(PrintUnit(s[0])) == s[0];
      assert s == [s[0]] + s[1..];
    }
  }

  // A value within the constraints is exactly the meaning of an admissible tree,
  // and every admissible tree has such a meaning.
  lemma {:induction false} FitsIffAdmissible(v: Value, path: seq<Text>, depth: nat)
    requires Valid(v) && depth <= MAX_DEPTH
    ensures Fits(Meaning(v), path, depth) <==> Admissible(v, path, depth)
    decreases v
  {
    hide ScalarString, IsCount, IsCounter, ValidPieces, ValidNumeral, Decode;
    match v {
      case Array(_, items) =>
        if depth < MAX_DEPTH {
          FitsIffAdmissibleItems(items, path, 0, depth + 1);
        }
      case Object(_, members) =>
        if depth < MAX_DEPTH {
          FitsIffAdmissibleMembers(members, path, depth + 1, {});
        }
      case _ =>
    }
  }

  lemma {:induction false} FitsIffAdmissibleItems(items: Items, path: seq<Text>, index: nat, depth: nat)
    requires ValidItems(items) && depth <= MAX_DEPTH
    ensures FitsItems(ItemsMeaning(items), path, index, depth) <==> AdmissibleItems(items, path, index, depth)
    decreases items
  {
    if items.Item? {
      hide Fits, Meaning, Admissible, AdmissibleItems;
      FitsIffAdmissible(items.value, path + [Decimal(index)], depth);
      FitsIffAdmissibleItems(items.rest, path, index + 1, depth);
      AddItem(items, path, index, depth);
    }
  }

  lemma {:induction false} FitsIffAdmissibleMembers(members: Members, path: seq<Text>, depth: nat, seen: set<Text>)
    requires ValidMembers(members) && depth <= MAX_DEPTH
    ensures FitsMembers(MembersMeaning(members), path, depth, seen) <==> AdmissibleMembers(members, path, depth, seen)
    decreases members
  {
    if members.Member? {
      hide Fits, Meaning, Admissible, AdmissibleMembers, Decode, ScalarString, ValidPieces;
      FitsIffAdmissible(members.value, path + [Decode(members.name)], depth);
      FitsIffAdmissibleMembers(members.rest, path, depth, seen + {Decode(members.name)});
      AddMember(members, path, depth, seen);
    }
  }

  // Printing then reading a tree of well-spelled numbers gives the tree back.
  predicate Spelled(j: Json) {
    match j
    case JNumber(n) => ValidNumeral(n)
    case JArray(items) => SpelledItems(items)
    case JObject(members) => SpelledMembers(members)
    case _ => true
  }

  predicate SpelledItems(items: JItems) {
    items.JItem? ==> Spelled(items.value) && SpelledItems(items.rest)
  }

  predicate SpelledMembers(members: JMembers) {
    members.JMember? ==> Spelled(members.value) && SpelledMembers(members.rest)
  }

  lemma {:induction false} PrintMeans(j: Json)
    requires Spelled(j)
    ensures Valid(Print(j)) && Meaning(Print(j)) == j
    decreases j
  {
    match j {
      case JString(text) => TextPrinted(text);
      case JArray(items) => PrintMeansItems(items);
      case JObject(members) => PrintMeansMembers(members);
      case _ =>
    }
  }

  lemma {:induction false} PrintMeansItems(items: JItems)
    requires SpelledItems(items)
    ensures ValidItems(PrintItems(items)) && ItemsMeaning(PrintItems(items)) == items
    decreases items
  {
    if items.JItem? {
      hide Valid, Meaning, Print;
      PrintMeans(items.value);
      PrintMeansItems(items.rest);
    }
  }

  lemma {:induction false} PrintMeansMembers(members: JMembers)
    requires SpelledMembers(members)
    ensures ValidMembers(PrintMembers(members)) && MembersMeaning(PrintMembers(members)) == members
    decreases members
  {
    if members.JMember? {
      hide Valid, Meaning, Print, ValidPieces, Decode, PrintText;
      TextPrinted(members.name);
      PrintMeans(members.value);
      PrintMeansMembers(members.rest);
    }
  }

  function PrintDocument(j: Json): Document {
    Document([], Print(j), [])
  }

  // The printed text of a tree is accepted exactly when the tree keeps the wire
  // constraints, and then reads back as that tree.
  lemma PrintedReadsBack(j: Json)
    requires Spelled(j)
    ensures var text := RenderDocument(PrintDocument(j));
            && (ParseDocument(text).Ok? <==> Fits(j, [], 0))
            && (ParseDocument(text).Ok? ==> Meaning(ParseDocument(text).tree.value) == j)
  {
    hide Print, Valid, Meaning, ParseDocument, Admissible, Fits, RenderDocument;
    var d := PrintDocument(j);
    PrintMeans(j);
    FitsIffAdmissible(d.value, [], 0);
    DocumentDecided(d);
  }
}
