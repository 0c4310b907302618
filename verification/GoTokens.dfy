// protocol/parse.go, value: the depth and duplicate rules over the token stream of
// the standard decoder, and what they accept on the tokens of a document.
module GoTokens {
  import opened Envelopes
  import opened JsonGrammar
  import opened Accounting
  import opened JsonNames

  // json.Decoder.Token: brackets, decoded strings, and everything else. Commas and
  // colons are not tokens.
  datatype Token = Delim(unit: nat) | Str(text: Text) | Plain

  type Tokens = seq<Token>

  predicate More(ts: Tokens) {
    ts != [] && ts[0] != Delim(CLOSE_BRACE) && ts[0] != Delim(CLOSE_BRACKET)
  }

  function ReadValue(ts: Tokens, depth: nat): (rest: Option<Tokens>)
    ensures rest.Some? ==> |rest.value| < |ts|
    decreases |ts|, 0
  {
    if ts == [] then None
    else if !ts[0].Delim? then Some(ts[1..])
    else if depth >= MAX_DEPTH then None
    else if ts[0].unit == OPEN_BRACE then ReadMembers(ts[1..], depth, {})
    else if ts[0].unit == OPEN_BRACKET then ReadItems(ts[1..], depth)
    else None
  }

  function ReadMembers(ts: Tokens, depth: nat, names: set<Text>): (rest: Option<Tokens>)
    ensures rest.Some? ==> |rest.value| < |ts|
    decreases |ts|, 1
  {
    if !More(ts) then
      if ts != [] && ts[0] == Delim(CLOSE_BRACE) then Some(ts[1..]) else None
    else if !ts[0].Str? || ts[0].text in names then None
    else
      match ReadValue(ts[1..], depth + 1)
      case None => None
      case Some(after) => ReadMembers(after, depth, names + {ts[0].text})
  }

  function ReadItems(ts: Tokens, depth: nat): (rest: Option<Tokens>)
    ensures rest.Some? ==> |rest.value| < |ts|
    decreases |ts|, 1
  {
    if !More(ts) then
      if ts != [] && ts[0] == Delim(CLOSE_BRACKET) then Some(ts[1..]) else None
    else
      match ReadValue(ts, depth + 1)
      case None => None
      case Some(after) => ReadItems(after, depth)
  }

  // The decoder and the loops that consume it.
  class Decoder {
    const tokens: Tokens
    var at: nat

    predicate Valid()
      reads this
    {
      at <= |tokens|
    }

    function Ahead(): Tokens
      requires Valid()
      reads this
    {
      tokens[at..]
    }

    constructor (tokens: Tokens)
      ensures Valid() && this.tokens == tokens && at == 0
    {
      this.tokens := tokens;
      at := 0;
    }

    // None is io.EOF.
    method Next() returns (t: Option<Token>)
      requires Valid()
      modifies this
      ensures Valid()
      ensures old(Ahead()) == [] ==> t == None && at == old(at)
      ensures old(Ahead()) != [] ==> t == Some(old(Ahead())[0]) && Ahead() == old(Ahead())[1..] && at == old(at) + 1
    {
      if at == |tokens| {
        return None;
      }
      t := Some(tokens[at]);
      at := at + 1;
    }

    method Value(depth: nat) returns (ok: bool)
      requires Valid()
      modifies this
      ensures Valid() && at >= old(at)
      ensures ReadValue(old(Ahead()), depth) == if ok then Some(Ahead()) else None
      decreases |tokens| - at, 0
    {
      var t := Next();
      if t.None? {
        return false;
      }
      if !t.value.Delim? {
        return true;
      }
      if depth >= MAX_DEPTH {
        return false;
      }
      if t.value.unit == OPEN_BRACE {
        ok := Members(depth);
      } else if t.value.unit == OPEN_BRACKET {
        ok := Items(depth);
      } else {
        ok := false;
      }
    }

    method Members(depth: nat) returns (ok: bool)
      requires Valid()
      modifies this
      ensures Valid() && at >= old(at)
      ensures ReadMembers(old(Ahead()), depth, {}) == if ok then Some(Ahead()) else None
      decreases |tokens| - at, 1
    {
      hide ReadValue;
      var names: set<Text> := {};
      while More(Ahead())
        invariant Valid() && at >= old(at)
        invariant ReadMembers(Ahead(), depth, names) == ReadMembers(old(Ahead()), depth, {})
        decreases |tokens| - at
      {
        var k := Next();
        if !k.value.Str? || k.value.text in names {
          return false;
        }
        var good := Value(depth + 1);
        if !good {
          return false;
        }
        names := names + {k.value.text};
      }
      var end := Next();
      ok := end == Some(Delim(CLOSE_BRACE));
    }

    method Items(depth: nat) returns (ok: bool)
      requires Valid()
      modifies this
      ensures Valid() && at >= old(at)
      ensures ReadItems(old(Ahead()), depth) == if ok then Some(Ahead()) else None
      decreases |tokens| - at, 1
    {
      hide ReadValue;
      while More(Ahead())
        invariant Valid() && at >= old(at)
        invariant ReadItems(Ahead(), depth) == ReadItems(old(Ahead()), depth)
        decreases |tokens| - at
      {
        var good := Value(depth + 1);
        if !good {
          return false;
        }
      }
      var end := Next();
      ok := end == Some(Delim(CLOSE_BRACKET));
    }
  }

  // ----- The tokens of a tree -----

  function TokensOf(v: Value): Tokens
    requires Valid(v)
  {
    match v
    case String(ps) => [Str(CodePoints(ps))]
    case Array(_, items) => [Delim(OPEN_BRACKET)] + ItemTokens(items)
    case Object(_, members) => [Delim(OPEN_BRACE)] + MemberTokens(members)
    case _ => [Plain]
  }

  function ItemTokens(items: Items): Tokens
    requires ValidItems(items)
  {
    match items
    case NoItems => [Delim(CLOSE_BRACKET)]
    case Item(_, value, _, rest) => TokensOf(value) + ItemTokens(rest)
  }

  function MemberTokens(members: Members): Tokens
    requires ValidMembers(members)
  {
    match members
    case NoMembers => [Delim(CLOSE_BRACE)]
    case Member(_, name, _, _, value, _, rest) => [Str(CodePoints(name))] + TokensOf(value) + MemberTokens(rest)
  }

  function PointNames(members: Members): set<Text>
    requires ValidMembers(members)
  {
    match members
    case NoMembers => {}
    case Member(_, name, _, _, _, _, rest) => {CodePoints(name)} + PointNames(rest)
  }

  // No object repeats a name, as code points.
  predicate DistinctPoints(v: Value)
    requires Valid(v)
  {
    match v
    case Array(_, items) => DistinctPointItems(items)
    case Object(_, members) => DistinctPointMembers(members)
    case _ => true
  }

  predicate DistinctPointItems(items: Items)
    requires ValidItems(items)
  {
    match items
    case NoItems => true
    case Item(_, value, _, rest) => DistinctPoints(value) && DistinctPointItems(rest)
  }

  predicate DistinctPointMembers(members: Members)
    requires ValidMembers(members)
  {
    match members
    case NoMembers => true
    case Member(_, name, _, _, value, _, rest) =>
      CodePoints(name) !in PointNames(rest) && DistinctPoints(value) && DistinctPointMembers(rest)
  }

  // ----- What the reader decides -----

  lemma {:induction false} ValueDecided(v: Value, rest: Tokens, depth: nat)
    requires Valid(v) && depth <= MAX_DEPTH
    ensures ReadValue(TokensOf(v) + rest, depth)
         == if Depth(v) + depth <= MAX_DEPTH && DistinctPoints(v) then Some(rest) else None
    ensures More(TokensOf(v) + rest)
    decreases v
  {
    var ts := TokensOf(v) + rest;
    match v {
      case Array(_, items) =>
        hide ReadItems, ItemTokens;
        assert ts[1..] == ItemTokens(items) + rest;
        if depth < MAX_DEPTH {
          ItemsDecided(items, rest, depth);
        }
      case Object(_, members) =>
        hide ReadMembers, MemberTokens;
        assert ts[1..] == MemberTokens(members) + rest;
        if depth < MAX_DEPTH {
          MembersDecided(members, rest, depth, {});
        }
      case _ => assert ts[1..] == rest;
    }
  }

  lemma {:induction false} ItemsDecided(items: Items, rest: Tokens, depth: nat)
    requires ValidItems(items) && depth < MAX_DEPTH
    ensures ReadItems(ItemTokens(items) + rest, depth)
         == if ItemsDepth(items) + depth + 1 <= MAX_DEPTH && DistinctPointItems(items) then Some(rest) else None
    decreases items
  {
    hide ReadValue, Depth, DistinctPoints, TokensOf;
    var ts := ItemTokens(items) + rest;
    if items.Item? {
      var after := ItemTokens(items.rest) + rest;
      assert ts == TokensOf(items.value) + after;
      ValueDecided(items.value, after, depth + 1);
      ItemsDecided(items.rest, rest, depth);
    } else {
      assert ts[1..] == rest;
    }
  }

  lemma {:induction false} MembersDecided(members: Members, rest: Tokens, depth: nat, names: set<Text>)
    requires ValidMembers(members) && depth < MAX_DEPTH
    ensures ReadMembers(MemberTokens(members) + rest, depth, names)
         == if MembersDepth(members) + depth + 1 <= MAX_DEPTH && DistinctPointMembers(members)
               && PointNames(members) !! names then Some(rest) else None
    decreases members
  {
    hide ReadValue, Depth, DistinctPoints, TokensOf, CodePoints, ValidPieces;
    var ts := MemberTokens(members) + rest;
    if members.Member? {
      var after := MemberTokens(members.rest) + rest;
      assert ts[0] == Str(CodePoints(members.name)) && ts[1..] == TokensOf(members.value) + after;
      ValueDecided(members.value, after, depth + 1);
      MembersDecided(members.rest, rest, depth, names + {CodePoints(members.name)});
    } else {
      assert ts[1..] == rest;
    }
  }
}
