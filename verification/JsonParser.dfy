// The recogniser of sdk/typescript/src/wire.ts (inspectJSON) as functions on the
// text still to be read: the same branches, yielding the syntax tree and what
// is left. Its acceptance is then shown to be exactly the grammar and the wire
// constraints.
module JsonParser {
  import opened Envelopes
  import opened JsonGrammar
  import opened Accounting

  datatype Parsed<+T> = Fail | Ok(tree: T, rest: Text)

  const USAGE: Text := [0x75, 0x73, 0x61, 0x67, 0x65]
  const INPUT_TOKENS: Text := [0x69, 0x6E, 0x70, 0x75, 0x74, 0x5F, 0x74, 0x6F, 0x6B, 0x65, 0x6E, 0x73]
  const OUTPUT_TOKENS: Text := [0x6F, 0x75, 0x74, 0x70, 0x75, 0x74, 0x5F, 0x74, 0x6F, 0x6B, 0x65, 0x6E, 0x73]

  // ----- White space -----

  function Lead(s: Text): (w: Text)
    ensures |w| <= |s| && w == s[..|w|] && Spaces(w)
    ensures |w| < |s| ==> !IsSpace(s[|w|])
  {
    if s == [] || !IsSpace(s[0]) then [] else [s[0]] + Lead(s[1..])
  }

  function Skip(s: Text): Text {
    s[|Lead(s)|..]
  }

  predicate StartsSolid(s: Text) {
    s == [] || !IsSpace(s[0])
  }

  lemma {:induction false} LeadOf(w: Text, s: Text)
    requires Spaces(w) && StartsSolid(s)
    ensures Lead(w + s) == w && Skip(w + s) == s
  {
    if w == [] {
      assert w + s == s;
    } else {
      assert (w + s)[1..] == w[1..] + s;
      LeadOf(w[1..], s);
    }
  }

  lemma LeadAndSkip(s: Text)
    ensures s == Lead(s) + Skip(s) && StartsSolid(Skip(s)) && Lead(Skip(s)) == [] && Skip(Skip(s)) == Skip(s)
  {
  }

  // ----- Strings -----

  // After the opening quote, through the closing one.
  function ParsePieces(s: Text): (r: Parsed<seq<Piece>>)
    ensures r.Ok? ==> ValidPieces(r.tree) && |r.rest| < |s|
  {
    if s == [] then Fail
    else if s[0] == QUOTE then Ok([], s[1..])
    else if s[0] < 0x20 then Fail
    else if s[0] == BACKSLASH then
      if |s| < 2 then Fail
      else if s[1] == LOWER_U then
        if |s| >= 6 && IsHex(s[2]) && IsHex(s[3]) && IsHex(s[4]) && IsHex(s[5]) then
          Cons(Unicode(s[2..6]), ParsePieces(s[6..]))
        else Fail
      else if IsEscapeLetter(s[1]) then Cons(Escape(s[1]), ParsePieces(s[2..]))
      else Fail
    else Cons(Raw(s[0]), ParsePieces(s[1..]))
  }

  function Cons(p: Piece, r: Parsed<seq<Piece>>): Parsed<seq<Piece>> {
    match r
    case Fail => Fail
    case Ok(ps, rest) => Ok([p] + ps, rest)
  }

  function ParseString(s: Text): (r: Parsed<seq<Piece>>)
    ensures r.Ok? ==> ValidPieces(r.tree) && |r.rest| < |s|
  {
    if s == [] || s[0] != QUOTE then Fail
    else
      match ParsePieces(s[1..])
      case Fail => Fail
      case Ok(ps, rest) => if ScalarString(Decode(ps)) then Ok(ps, rest) else Fail
  }

  // ----- Numbers -----

  function LeadDigits(s: Text): (d: Text)
    ensures |d| <= |s| && d == s[..|d|] && AllDigits(d)
    ensures |d| < |s| ==> !IsDigit(s[|d|])
  {
    if s == [] || !IsDigit(s[0]) then [] else [s[0]] + LeadDigits(s[1..])
  }

  // (?:0|[1-9][0-9]*)
  function ParseWhole(s: Text): (r: Parsed<Text>)
    ensures r.Ok? ==> ValidWhole(r.tree) && s == r.tree + r.rest
  {
    if s == [] || !IsDigit(s[0]) then Fail
    else if s[0] == ZERO then Ok([ZERO], s[1..])
    else
      var d := LeadDigits(s);
      assert d[0] == s[0];
      Ok(d, s[|d|..])
  }

  // (?:\.[0-9]+)?
  function ParseFraction(s: Text): (r: (Text, Text))
    ensures AllDigits(r.0) && s == RenderFraction(r.0) + r.1
  {
    if s != [] && s[0] == DOT && LeadDigits(s[1..]) != [] then
      var d := LeadDigits(s[1..]);
      assert s == [DOT] + d + s[1 + |d|..];
      (d, s[1 + |d|..])
    else ([], s)
  }

  // [+-]?
  function LeadSign(s: Text): Text {
    if s != [] && (s[0] == PLUS || s[0] == MINUS) then [s[0]] else []
  }

  // (?:[eE][+-]?[0-9]+)?
  function ParseExponent(s: Text): (r: (Exponent, Text))
    ensures ValidExponent(r.0) && s == RenderExponent(r.0) + r.1
  {
    if s == [] || (s[0] != 0x65 && s[0] != 0x45) then (NoExponent, s)
    else
      var t := s[1..];
      var sign := LeadSign(t);
      var tail := t[|sign|..];
      var d := LeadDigits(tail);
      if d == [] then (NoExponent, s)
      else
        assert s == [s[0]] + sign + d + tail[|d|..];
        (Exponent(s[0], sign, d), tail[|d|..])
  }

  function ParseNumeral(s: Text): (r: Parsed<Numeral>)
    ensures r.Ok? ==> ValidNumeral(r.tree) && s == RenderNumeral(r.tree) + r.rest && |r.rest| < |s|
  {
    var minus := s != [] && s[0] == MINUS;
    match ParseWhole(if minus then s[1..] else s)
    case Fail => Fail
    case Ok(whole, afterWhole) =>
      var (fraction, afterFraction) := ParseFraction(afterWhole);
      var (exponent, rest) := ParseExponent(afterFraction);
      var n := Numeral(minus, whole, fraction, exponent);
      Regroup(if minus then [MINUS] else [], whole, RenderFraction(fraction), RenderExponent(exponent), rest);
      Ok(n, rest)
  }

  lemma Regroup(a: Text, b: Text, c: Text, d: Text, e: Text)
    ensures a + (b + (c + (d + e))) == a + b + c + d + e
  {
  }

  // ----- Values -----

  // String(index), the path element of an array item.
  function Decimal(n: nat): (d: Text)
    ensures |d| > 0 && IsDigit(d[0])
  {
    if n < 10 then [ZERO + n] else Decimal(n / 10) + [ZERO + n % 10]
  }

  predicate IsCounter(path: seq<Text>) {
    |path| == 2 && path[0] == USAGE && (path[1] == INPUT_TOKENS || path[1] == OUTPUT_TOKENS)
  }

  predicate StartsWith(s: Text, prefix: Text) {
    |prefix| <= |s| && s[..|prefix|] == prefix
  }

  function ParseWord(s: Text): (r: Parsed<Word>)
    ensures r.Ok? ==> s == RenderWord(r.tree) + r.rest && |r.rest| < |s|
  {
    if StartsWith(s, RenderWord(True)) then Ok(True, s[4..])
    else if StartsWith(s, RenderWord(False)) then Ok(False, s[5..])
    else if StartsWith(s, RenderWord(Null)) then Ok(Null, s[4..])
    else Fail
  }

  // `value`, after its white space.
  function ParseValue(s: Text, path: seq<Text>, depth: nat): (r: Parsed<Value>)
    ensures r.Ok? ==> Valid(r.tree) && |r.rest| < |s|
    decreases |s|, 0
  {
    if s == [] then Fail
    else if s[0] == OPEN_BRACE then
      if depth >= MAX_DEPTH then Fail
      else
        var t := s[1..];
        var u := Skip(t);
        if u != [] && u[0] == CLOSE_BRACE then Ok(Object(Lead(t), NoMembers), u[1..])
        else
          match ParseMembers(t, path, depth + 1, {})
          case Fail => Fail
          case Ok(members, rest) => Ok(Object([], members), rest)
    else if s[0] == OPEN_BRACKET then
      if depth >= MAX_DEPTH then Fail
      else
        var t := s[1..];
        var u := Skip(t);
        if u != [] && u[0] == CLOSE_BRACKET then Ok(Array(Lead(t), NoItems), u[1..])
        else
          match ParseItems(t, path, 0, depth + 1)
          case Fail => Fail
          case Ok(items, rest) => Ok(Array([], items), rest)
    else if s[0] == QUOTE then
      match ParseString(s)
      case Fail => Fail
      case Ok(ps, rest) => Ok(String(ps), rest)
    else
      match ParseWord(s)
      case Ok(word, rest) => Ok(Literal(word), rest)
      case Fail =>
        match ParseNumeral(s)
        case Fail => Fail
        case Ok(n, rest) =>
          if IsCounter(path) && !TypeScriptCounter(RenderNumeral(n)) then Fail else Ok(Number(n), rest)
  }

  // The loop over members, from the white space before a name.
  function ParseMembers(s: Text, path: seq<Text>, depth: nat, seen: set<Text>): (r: Parsed<Members>)
    ensures r.Ok? ==> r.tree.Member? && ValidMembers(r.tree) && |r.rest| < |s|
    decreases |s|, 1
  {
    match ParseString(Skip(s))
    case Fail => Fail
    case Ok(name, s1) =>
      var s2 := Skip(s1);
      if Decode(name) in seen || s2 == [] || s2[0] != COLON then Fail
      else
        var s3 := s2[1..];
        match ParseValue(Skip(s3), path + [Decode(name)], depth)
        case Fail => Fail
        case Ok(value, s4) =>
          var s5 := Skip(s4);
          if s5 == [] then Fail
          else if s5[0] == CLOSE_BRACE then
            Ok(Member(Lead(s), name, Lead(s1), Lead(s3), value, Lead(s4), NoMembers), s5[1..])
          else if s5[0] != COMMA then Fail
          else
            match ParseMembers(s5[1..], path, depth, seen + {Decode(name)})
            case Fail => Fail
            case Ok(more, rest) => Ok(Member(Lead(s), name, Lead(s1), Lead(s3), value, Lead(s4), more), rest)
  }

  // The loop over array items, from the white space before a value.
  function ParseItems(s: Text, path: seq<Text>, index: nat, depth: nat): (r: Parsed<Items>)
    ensures r.Ok? ==> r.tree.Item? && ValidItems(r.tree) && |r.rest| < |s|
    decreases |s|, 1
  {
    match ParseValue(Skip(s), path + [Decimal(index)], depth)
    case Fail => Fail
    case Ok(value, s1) =>
      var s2 := Skip(s1);
      if s2 == [] then Fail
      else if s2[0] == CLOSE_BRACKET then Ok(Item(Lead(s), value, Lead(s1), NoItems), s2[1..])
      else if s2[0] != COMMA then Fail
      else
        match ParseItems(s2[1..], path, index + 1, depth)
        case Fail => Fail
        case Ok(more, rest) => Ok(Item(Lead(s), value, Lead(s1), more), rest)
  }

  // inspectJSON: one value, then nothing but white space.
  function ParseDocument(text: Text): (r: Parsed<Document>)
    ensures r.Ok? ==> ValidDocument(r.tree)
  {
    match ParseValue(Skip(text), [], 0)
    case Fail => Fail
    case Ok(value, s) =>
      if Skip(s) == [] then Ok(Document(Lead(text), value, Lead(s)), []) else Fail
  }

  // ----- What is accepted, in terms of the tree -----

  // Number values at the two accounting paths are counts.
  predicate Counted(v: Value, path: seq<Text>)
    requires Valid(v)
  {
    match v
    case Number(n) => IsCounter(path) ==> IsCount(n)
    case Array(_, items) => CountedItems(items, path, 0)
    case Object(_, members) => CountedMembers(members, path)
    case _ => true
  }

  predicate CountedItems(items: Items, path: seq<Text>, index: nat)
    requires ValidItems(items)
  {
    match items
    case NoItems => true
    case Item(_, value, _, rest) => Counted(value, path + [Decimal(index)]) && CountedItems(rest, path, index + 1)
  }

  predicate CountedMembers(members: Members, path: seq<Text>)
    requires ValidMembers(members)
  {
    match members
    case NoMembers => true
    case Member(_, name, _, _, value, _, rest) => Counted(value, path + [Decode(name)]) && CountedMembers(rest, path)
  }

  predicate Admissible(v: Value, path: seq<Text>, depth: nat)
    requires Valid(v)
  {
    Depth(v) + depth <= MAX_DEPTH && Scalar(v) && Distinct(v) && Counted(v, path)
  }

  predicate AdmissibleItems(items: Items, path: seq<Text>, index: nat, depth: nat)
    requires ValidItems(items)
  {
    && ItemsDepth(items) + depth <= MAX_DEPTH
    && ScalarItems(items) && DistinctItems(items) && CountedItems(items, path, index)
  }

  predicate AdmissibleMembers(members: Members, path: seq<Text>, depth: nat, seen: set<Text>)
    requires ValidMembers(members)
  {
    && MembersDepth(members) + depth <= MAX_DEPTH
    && ScalarMembers(members) && DistinctMembers(members) && CountedMembers(members, path)
    && Names(members) !! seen
  }
}
