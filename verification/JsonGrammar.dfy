// The JSON grammar of RFC 8259 (sections 2 to 7) as concrete syntax trees over code units of
// any width, what the strings and numbers in them mean, and the constraints
// that the wire puts on a document beyond the grammar.
module JsonGrammar {

  type Text = seq<nat>

  const QUOTE: nat := 0x22
  const PLUS: nat := 0x2B
  const COMMA: nat := 0x2C
  const MINUS: nat := 0x2D
  const DOT: nat := 0x2E
  const ZERO: nat := 0x30
  const COLON: nat := 0x3A
  const OPEN_BRACKET: nat := 0x5B
  const BACKSLASH: nat := 0x5C
  const CLOSE_BRACKET: nat := 0x5D
  const LOWER_U: nat := 0x75
  const OPEN_BRACE: nat := 0x7B
  const CLOSE_BRACE: nat := 0x7D

  const MAX_DEPTH: nat := 128

  predicate IsSpace(u: nat) {
    u == 0x20 || u == 0x09 || u == 0x0A || u == 0x0D
  }

  predicate Spaces(w: Text) {
    forall i :: 0 <= i < |w| ==> IsSpace(w[i])
  }

  predicate IsDigit(u: nat) {
    0x30 <= u <= 0x39
  }

  predicate AllDigits(s: Text) {
    forall i :: 0 <= i < |s| ==> IsDigit(s[i])
  }

  predicate IsHex(u: nat) {
    IsDigit(u) || 0x41 <= u <= 0x46 || 0x61 <= u <= 0x66
  }

  function HexDigit(u: nat): nat
    requires IsHex(u)
  {
    if IsDigit(u) then u - 0x30 else if u <= 0x46 then u - 0x37 else u - 0x57
  }

  // ----- Numbers (section 6) -----

  datatype Exponent = NoExponent | Exponent(marker: nat, sign: Text, digits: Text)

  // An empty fraction stands for its absence.
  datatype Numeral = Numeral(minus: bool, whole: Text, fraction: Text, exponent: Exponent)

  predicate ValidExponent(e: Exponent) {
    e.Exponent? ==>
      && (e.marker == 0x65 || e.marker == 0x45)
      && (e.sign == [] || e.sign == [PLUS] || e.sign == [MINUS])
      && |e.digits| > 0 && AllDigits(e.digits)
  }

  predicate ValidWhole(whole: Text) {
    && |whole| > 0 && AllDigits(whole)
    && (whole[0] == ZERO ==> |whole| == 1)
  }

  predicate ValidNumeral(n: Numeral) {
    ValidWhole(n.whole) && AllDigits(n.fraction) && ValidExponent(n.exponent)
  }

  function RenderExponent(e: Exponent): Text {
    if e.NoExponent? then [] else [e.marker] + e.sign + e.digits
  }

  function RenderFraction(fraction: Text): Text {
    if fraction == [] then [] else [DOT] + fraction
  }

  function RenderNumeral(n: Numeral): Text {
    (if n.minus then [MINUS] else []) + n.whole + RenderFraction(n.fraction) + RenderExponent(n.exponent)
  }

  // ----- Strings (section 7) -----

  datatype Piece = Raw(unit: nat) | Escape(letter: nat) | Unicode(digits: Text)

  predicate IsEscapeLetter(u: nat) {
    || u == 0x22 || u == 0x5C || u == 0x2F || u == 0x62 || u == 0x66 || u == 0x6E || u == 0x72 || u == 0x74
  }

  predicate ValidPiece(p: Piece) {
    match p
    case Raw(u) => u >= 0x20 && u != QUOTE && u != BACKSLASH
    case Escape(letter) => IsEscapeLetter(letter)
    case Unicode(digits) => |digits| == 4 && forall i :: 0 <= i < 4 ==> IsHex(digits[i])
  }

  predicate ValidPieces(ps: seq<Piece>) {
    forall i :: 0 <= i < |ps| ==> ValidPiece(ps[i])
  }

  function RenderPiece(p: Piece): Text {
    match p
    case Raw(u) => [u]
    case Escape(letter) => [BACKSLASH, letter]
    case Unicode(digits) => [BACKSLASH, LOWER_U] + digits
  }

  function RenderPieces(ps: seq<Piece>): Text {
    if ps == [] then [] else RenderPiece(ps[0]) + RenderPieces(ps[1..])
  }

  function RenderString(ps: seq<Piece>): Text {
    [QUOTE] + RenderPieces(ps) + [QUOTE]
  }

  function HexValue(digits: Text): nat
    requires |digits| == 4 && forall i :: 0 <= i < 4 ==> IsHex(digits[i])
  {
    HexDigit(digits[0]) * 4096 + HexDigit(digits[1]) * 256 + HexDigit(digits[2]) * 16 + HexDigit(digits[3])
  }

  function EscapeValue(letter: nat): nat {
    if letter == 0x62 then 0x08
    else if letter == 0x66 then 0x0C
    else if letter == 0x6E then 0x0A
    else if letter == 0x72 then 0x0D
    else if letter == 0x74 then 0x09
    else letter
  }

  function DecodePiece(p: Piece): nat
    requires ValidPiece(p)
  {
    match p
    case Raw(u) => u
    case Escape(letter) => EscapeValue(letter)
    case Unicode(digits) => HexValue(digits)
  }

  function Decode(ps: seq<Piece>): Text
    requires ValidPieces(ps)
  {
    if ps == [] then [] else [DecodePiece(ps[0])] + Decode(ps[1..])
  }

  predicate IsHigh(u: nat) {
    0xD800 <= u <= 0xDBFF
  }

  predicate IsLow(u: nat) {
    0xDC00 <= u <= 0xDFFF
  }

  // Every surrogate is half of a pair.
  predicate ScalarString(s: Text) {
    if s == [] then true
    else if IsHigh(s[0]) then |s| > 1 && IsLow(s[1]) && ScalarString(s[2..])
    else !IsLow(s[0]) && ScalarString(s[1..])
  }

  // ----- Values (sections 2 to 5) -----

  datatype Word = True | False | Null

  // `gap` is the white space inside empty brackets. Lists carry the white space
  // around each element.
  datatype Value =
    | Literal(word: Word)
    | Number(numeral: Numeral)
    | String(pieces: seq<Piece>)
    | Array(gap: Text, items: Items)
    | Object(gap: Text, members: Members)
  datatype Items = NoItems | Item(before: Text, value: Value, after: Text, rest: Items)
  datatype Members =
    | NoMembers
    | Member(lead: Text, name: seq<Piece>, colon: Text, before: Text, value: Value, after: Text, rest: Members)

  datatype Document = Document(before: Text, value: Value, after: Text)

  function RenderWord(w: Word): Text {
    match w
    case True => [0x74, 0x72, 0x75, 0x65]
    case False => [0x66, 0x61, 0x6C, 0x73, 0x65]
    case Null => [0x6E, 0x75, 0x6C, 0x6C]
  }

  function Render(v: Value): Text {
    match v
    case Literal(word) => RenderWord(word)
    case Number(n) => RenderNumeral(n)
    case String(ps) => RenderString(ps)
    case Array(gap, items) => [OPEN_BRACKET] + gap + RenderItems(items)
    case Object(gap, members) => [OPEN_BRACE] + gap + RenderMembers(members)
  }

  // The elements with their separators, through the closing bracket.
  function RenderItems(items: Items): Text {
    match items
    case NoItems => [CLOSE_BRACKET]
    case Item(before, value, after, rest) =>
      before + Render(value) + after + (if rest.NoItems? then [CLOSE_BRACKET] else [COMMA] + RenderItems(rest))
  }

  function RenderMembers(members: Members): Text {
    match members
    case NoMembers => [CLOSE_BRACE]
    case Member(lead, name, colon, before, value, after, rest) =>
      lead + RenderString(name) + colon + [COLON] + before + Render(value) + after
      + (if rest.NoMembers? then [CLOSE_BRACE] else [COMMA] + RenderMembers(rest))
  }

  function RenderDocument(d: Document): Text {
    d.before + Render(d.value) + d.after
  }

  predicate Valid(v: Value) {
    match v
    case Literal(_) => true
    case Number(n) => ValidNumeral(n)
    case String(ps) => ValidPieces(ps)
    case Array(gap, items) => Spaces(gap) && (items.Item? ==> gap == []) && ValidItems(items)
    case Object(gap, members) => Spaces(gap) && (members.Member? ==> gap == []) && ValidMembers(members)
  }

  predicate ValidItems(items: Items) {
    match items
    case NoItems => true
    case Item(before, value, after, rest) => Spaces(before) && Valid(value) && Spaces(after) && ValidItems(rest)
  }

  predicate ValidMembers(members: Members) {
    match members
    case NoMembers => true
    case Member(lead, name, colon, before, value, after, rest) =>
      && Spaces(lead) && ValidPieces(name) && Spaces(colon) && Spaces(before) && Valid(value) && Spaces(after)
      && ValidMembers(rest)
  }

  predicate ValidDocument(d: Document) {
    Spaces(d.before) && Valid(d.value) && Spaces(d.after)
  }

  // ----- Constraints on the wire -----

  function Max(a: int, b: int): (m: int)
    ensures m >= a && m >= b && (m == a || m == b)
  {
    if a >= b then a else b
  }

  // How deeply arrays and objects nest.
  function Depth(v: Value): nat {
    match v
    case Array(_, items) => 1 + ItemsDepth(items)
    case Object(_, members) => 1 + MembersDepth(members)
    case _ => 0
  }

  function ItemsDepth(items: Items): nat {
    match items
    case NoItems => 0
    case Item(_, value, _, rest) => Max(Depth(value), ItemsDepth(rest))
  }

  function MembersDepth(members: Members): nat {
    match members
    case NoMembers => 0
    case Member(_, _, _, _, value, _, rest) => Max(Depth(value), MembersDepth(rest))
  }

  // Every decoded string and member name is a sequence of Unicode scalar values.
  predicate Scalar(v: Value)
    requires Valid(v)
  {
    match v
    case String(ps) => ScalarString(Decode(ps))
    case Array(_, items) => ScalarItems(items)
    case Object(_, members) => ScalarMembers(members)
    case _ => true
  }

  predicate ScalarItems(items: Items)
    requires ValidItems(items)
  {
    match items
    case NoItems => true
    case Item(_, value, _, rest) => Scalar(value) && ScalarItems(rest)
  }

  predicate ScalarMembers(members: Members)
    requires ValidMembers(members)
  {
    match members
    case NoMembers => true
    case Member(_, name, _, _, value, _, rest) => ScalarString(Decode(name)) && Scalar(value) && ScalarMembers(rest)
  }

  // Every number is one that a runtime's number reader takes.
  predicate NumbersTaken(takes: Numeral -> bool, v: Value) {
    match v
    case Number(n) => takes(n)
    case Array(_, items) => NumbersTakenItems(takes, items)
    case Object(_, members) => NumbersTakenMembers(takes, members)
    case _ => true
  }

  predicate NumbersTakenItems(takes: Numeral -> bool, items: Items) {
    items.Item? ==> NumbersTaken(takes, items.value) && NumbersTakenItems(takes, items.rest)
  }

  predicate NumbersTakenMembers(takes: Numeral -> bool, members: Members) {
    members.Member? ==> NumbersTaken(takes, members.value) && NumbersTakenMembers(takes, members.rest)
  }

  function Names(members: Members): set<Text>
    requires ValidMembers(members)
  {
    match members
    case NoMembers => {}
    case Member(_, name, _, _, _, _, rest) => {Decode(name)} + Names(rest)
  }

  // No object repeats a decoded member name.
  predicate Distinct(v: Value)
    requires Valid(v)
  {
    match v
    case Array(_, items) => DistinctItems(items)
    case Object(_, members) => DistinctMembers(members)
    case _ => true
  }

  predicate DistinctItems(items: Items)
    requires ValidItems(items)
  {
    match items
    case NoItems => true
    case Item(_, value, _, rest) => Distinct(value) && DistinctItems(rest)
  }

  predicate DistinctMembers(members: Members)
    requires ValidMembers(members)
  {
    match members
    case NoMembers => true
    case Member(_, name, _, _, value, _, rest) =>
      Decode(name) !in Names(rest) && Distinct(value) && DistinctMembers(rest)
  }

  // ----- The same by character -----

  function Spelled(s: string): Text {
    seq(|s|, i requires 0 <= i < |s| => s[i] as nat)
  }

  // White space, the letters of escapes and the digits of \uXXXX.
  lemma CharactersByName(c: char)
    ensures IsSpace(c as nat) <==> c in " \t\n\r"
    ensures IsEscapeLetter(c as nat) <==> c in "\"\\/bfnrt"
    ensures IsHex(c as nat) <==> c in "0123456789abcdefABCDEF"
    ensures ValidPiece(Raw(c as nat)) <==> c >= ' ' && c != '"' && c != '\\'
  {
  }

  lemma HexDigitsByName(k: nat)
    requires k < 16
    ensures IsHex("0123456789abcdef"[k] as nat) && HexDigit("0123456789abcdef"[k] as nat) == k
    ensures IsHex("0123456789ABCDEF"[k] as nat) && HexDigit("0123456789ABCDEF"[k] as nat) == k
  {
  }

  // What the escapes stand for, and how words, strings and escapes are written.
  lemma SpellingsByName(c: char, ps: seq<Piece>)
    requires IsEscapeLetter(c as nat)
    ensures EscapeValue(c as nat)
         == (match c
             case 'b' => 8
             case 'f' => 12
             case 'n' => '\n' as nat
             case 'r' => '\r' as nat
             case 't' => '\t' as nat
             case _ => c as nat)
    ensures RenderPiece(Escape(c as nat)) == Spelled(['\\', c])
    ensures RenderString(ps) == Spelled("\"") + RenderPieces(ps) + Spelled("\"")
    ensures RenderWord(True) == Spelled("true")
    ensures RenderWord(False) == Spelled("false")
    ensures RenderWord(Null) == Spelled("null")
  {
  }

  lemma MarksByName()
    ensures [OPEN_BRACKET, CLOSE_BRACKET, OPEN_BRACE, CLOSE_BRACE, COMMA, COLON] == Spelled("[]{},:")
    ensures [MINUS, PLUS, DOT, ZERO] == Spelled("-+.0")
  {
  }
}
