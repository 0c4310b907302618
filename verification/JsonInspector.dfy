// sdk/typescript/src/wire.ts, inspectJSON, as it runs: closures over one cursor
// `at`, loops, and a set of member names already seen. Each is proved to accept
// what the functional recogniser accepts and to leave the cursor where it does.
module JsonInspector {
  import opened Envelopes
  import opened JsonGrammar
  import opened Accounting
  import opened JsonParser
  import opened JsonCorrectness
  import opened JsonCompleteness

  // Where a parse leaves the text; None when it rejects.
  function Left<T>(r: Parsed<T>): Option<Text> {
    match r
    case Fail => None
    case Ok(_, rest) => Some(rest)
  }

  // JSON.parse on a string token.
  function StringValue(token: Text): Text {
    if token == [] then []
    else
      match ParsePieces(token[1..])
      case Fail => []
      case Ok(ps, _) => Decode(ps)
  }

  // The number regular expression anchored at the start of a text.
  function NumberMatch(s: Text): Option<Text> {
    match ParseNumeral(s)
    case Fail => None
    case Ok(n, _) => Some(RenderNumeral(n))
  }

  // One unit of a string, in what is left.
  function AfterUnit(s: Text): Option<Text>
    requires s != []
  {
    if s[0] == QUOTE then Some(s[1..])
    else if s[0] < 0x20 then None
    else if s[0] != BACKSLASH then Left(ParsePieces(s[1..]))
    else if |s| < 2 then None
    else if s[1] == LOWER_U then (if |s| >= 6 && FourHex(s[2..6]) then Left(ParsePieces(s[6..])) else None)
    else if IsEscapeLetter(s[1]) then Left(ParsePieces(s[2..]))
    else None
  }

  lemma UnitStep(s: Text)
    requires s != []
    ensures Left(ParsePieces(s)) == AfterUnit(s)
  {
  }

  lemma Unterminated()
    ensures Left(ParsePieces([])) == None
  {
  }

  lemma NoString(whole: Text)
    requires whole == [] || whole[0] != QUOTE
    ensures ParseString(whole).Fail?
  {
  }

  lemma Unread(whole: Text, body: Text)
    requires whole != [] && body == whole[1..] && Left(ParsePieces(body)).None?
    ensures ParseString(whole).Fail?
  {
  }

  lemma StringEnds(whole: Text, body: Text, rest: Text)
    requires whole != [] && whole[0] == QUOTE && body == whole[1..] && Left(ParsePieces(body)) == Some(rest)
    ensures |rest| < |body|
    ensures var value := StringValue([QUOTE] + body[..|body| - |rest|]);
            && (ParseString(whole).Ok? <==> ScalarString(value))
            && (ParseString(whole).Ok? ==> Decode(ParseString(whole).tree) == value && ParseString(whole).rest == rest)
  {
    TokenValue(body, |body| - |rest|);
    hide StringValue, ScalarString, Decode, ParsePieces;
  }

  // A string token cut out of the text has the same value there.
  lemma TokenValue(s: Text, n: nat)
    requires ParsePieces(s).Ok? && n == |s| - |ParsePieces(s).rest|
    ensures StringValue([QUOTE] + s[..n]) == Decode(ParsePieces(s).tree)
  {
    var ps, rest := ParsePieces(s).tree, ParsePieces(s).rest;
    PiecesSound(s);
    Join3(RenderPieces(ps), [QUOTE], rest);
    assert s[..n] == RenderPieces(ps) + [QUOTE];
    PiecesComplete(ps, []);
    assert [QUOTE] + [] == [QUOTE];
    assert ([QUOTE] + s[..n])[1..] == s[..n];
  }

  lemma WordMatch(s: Text, w: Word)
    requires StartsWith(s, RenderWord(w))
    ensures ParseWord(s) == Ok(w, s[|RenderWord(w)|..])
  {
    hide ParseWord, RenderWord;
    WordComplete(w, s[|RenderWord(w)|..]);
    assert s == RenderWord(w) + s[|RenderWord(w)|..];
  }

  lemma StartsWithin(s: Text, w: Word)
    requires StartsWith(s, RenderWord(w))
    ensures |RenderWord(w)| <= |s|
  {
  }

  // Skipping white space before a name changes only the spelling recorded.
  lemma MembersAfterSpace(s: Text, path: seq<Text>, depth: nat, seen: set<Text>)
    ensures Left(ParseMembers(Skip(s), path, depth, seen)) == Left(ParseMembers(s, path, depth, seen))
  {
    hide ParseString, ParseValue, Lead;
    LeadAndSkip(s);
  }

  lemma ItemsAfterSpace(s: Text, path: seq<Text>, index: nat, depth: nat)
    ensures Left(ParseItems(Skip(s), path, index, depth)) == Left(ParseItems(s, path, index, depth))
  {
    hide ParseValue, Lead;
    LeadAndSkip(s);
  }

  // One turn of the member loop, in what is left.
  function AfterMember(s: Text, path: seq<Text>, depth: nat, seen: set<Text>): Option<Text> {
    var name := ParseString(Skip(s));
    if name.Fail? || Decode(name.tree) in seen then None
    else
      var colon := Skip(name.rest);
      if colon == [] || colon[0] != COLON then None
      else
        var value := ParseValue(Skip(colon[1..]), path + [Decode(name.tree)], depth);
        if value.Fail? then None
        else
          var end := Skip(value.rest);
          if end == [] then None
          else if end[0] == CLOSE_BRACE then Some(end[1..])
          else if end[0] != COMMA then None
          else Left(ParseMembers(end[1..], path, depth, seen + {Decode(name.tree)}))
  }

  lemma MemberStep(s: Text, path: seq<Text>, depth: nat, seen: set<Text>)
    ensures Left(ParseMembers(s, path, depth, seen)) == AfterMember(s, path, depth, seen)
  {
    hide ParseString, ParseValue, Lead, Skip, Decode, ValidPieces;
  }

  function AfterItem(s: Text, path: seq<Text>, index: nat, depth: nat): Option<Text> {
    var value := ParseValue(Skip(s), path + [Decimal(index)], depth);
    if value.Fail? then None
    else
      var end := Skip(value.rest);
      if end == [] then None
      else if end[0] == CLOSE_BRACKET then Some(end[1..])
      else if end[0] != COMMA then None
      else Left(ParseItems(end[1..], path, index + 1, depth))
  }

  lemma ItemStep(s: Text, path: seq<Text>, index: nat, depth: nat)
    ensures Left(ParseItems(s, path, index, depth)) == AfterItem(s, path, index, depth)
  {
    hide ParseValue, Lead, Skip, Decimal;
  }

  predicate FourHex(s: Text) {
    |s| == 4 && IsHex(s[0]) && IsHex(s[1]) && IsHex(s[2]) && IsHex(s[3])
  }

  class Inspector {
    const text: Text
    var at: nat

    predicate Valid()
      reads this
    {
      at <= |text|
    }

    function Ahead(): Text
      requires Valid()
      reads this
    {
      text[at..]
    }

    constructor (text: Text)
      ensures Valid() && this.text == text && at == 0
    {
      this.text := text;
      at := 0;
    }

    method Whitespace()
      requires Valid()
      modifies this
      ensures Valid() && at >= old(at)
      ensures Ahead() == Skip(old(Ahead()))
    {
      while at < |text| && IsSpace(text[at])
        invariant Valid() && at >= old(at)
        invariant Skip(Ahead()) == Skip(old(Ahead()))
      {
        ghost var s := Ahead();
        assert s[1..] == text[at + 1..];
        at := at + 1;
      }
    }

    // None is the thrown rejection.
    method StringToken() returns (r: Option<Text>)
      requires Valid()
      modifies this
      ensures Valid() && at >= old(at)
      ensures r.Some? <==> ParseString(old(Ahead())).Ok?
      ensures r.Some? ==>
        && r.value == Decode(ParseString(old(Ahead())).tree)
        && Ahead() == ParseString(old(Ahead())).rest
    {
      hide ScalarString, Decode, ValidPieces, StringValue, ParsePieces, ParseString, Left;
      ghost var whole := Ahead();
      if at == |text| || text[at] != QUOTE {
        NoString(whole);
        return None;
      }
      var start := at;
      at := at + 1;
      ghost var body := Ahead();
      assert body == whole[1..];
      while at < |text|
        invariant Valid() && start < at
        invariant Left(ParsePieces(Ahead())) == Left(ParsePieces(body))
        decreases |text| - at
      {
        ghost var s := Ahead();
        UnitStep(s);
        var unit := text[at];
        at := at + 1;
        assert s[1..] == Ahead();
        if unit == QUOTE {
          StringEnds(whole, body, Ahead());
          assert text[start..at] == [QUOTE] + body[..|body| - |Ahead()|];
          var value := StringValue(text[start..at]);
          return if ScalarString(value) then Some(value) else None;
        }
        if unit < 0x20 {
          Unread(whole, body);
          return None;
        }
        if unit == BACKSLASH {
          if at == |text| {
            Unread(whole, body);
            return None;
          }
          var escape := text[at];
          at := at + 1;
          assert s[2..] == Ahead() && s[1] == escape;
          if escape == LOWER_U {
            assert at + 4 <= |text| ==> s[2..6] == text[at..at + 4];
            if at + 4 > |text| || !FourHex(text[at..at + 4]) {
              Unread(whole, body);
              return None;
            }
            at := at + 4;
            assert s[6..] == Ahead();
          } else if !IsEscapeLetter(escape) {
            Unread(whole, body);
            return None;
          }
        }
      }
      assert Ahead() == [];
      Unterminated();
      Unread(whole, body);
      return None;
    }

    method Literal() returns (ok: bool)
      requires Valid()
      modifies this
      ensures Valid() && at >= old(at)
      ensures ok <==> ParseWord(old(Ahead())).Ok?
      ensures Ahead() == if ok then ParseWord(old(Ahead())).rest else old(Ahead())
    {
      hide StartsWith, RenderWord;
      var words := [True, False, Null];
      ghost var s := Ahead();
      for i := 0 to 3
        invariant at == old(at)
        invariant forall j :: 0 <= j < i ==> !StartsWith(s, RenderWord(words[j]))
      {
        if StartsWith(text[at..], RenderWord(words[i])) {
          hide ParseWord;
          WordMatch(s, words[i]);
          assert |RenderWord(words[i])| <= |s| by { StartsWithin(s, words[i]); }
          at := at + |RenderWord(words[i])|;
          return true;
        }
      }
      assert !StartsWith(s, RenderWord(words[0]));
      assert !StartsWith(s, RenderWord(words[1]));
      assert !StartsWith(s, RenderWord(words[2]));
      return false;
    }

    method Number(path: seq<Text>) returns (ok: bool)
      requires Valid()
      modifies this
      ensures Valid() && at >= old(at)
      ensures var r := ParseNumeral(old(Ahead()));
              && (ok <==> r.Ok? && (IsCounter(path) ==> TypeScriptCounter(RenderNumeral(r.tree))))
              && (ok ==> Ahead() == r.rest)
    {
      hide RenderNumeral, TypeScriptCounter, ParseNumeral, ValidNumeral;
      var found := NumberMatch(text[at..]);
      if found.None? {
        return false;
      }
      var number := found.value;
      if IsCounter(path) && !TypeScriptCounter(number) {
        return false;
      }
      ghost var r := ParseNumeral(Ahead());
      assert Ahead() == number + r.rest;
      at := at + |number|;
      return true;
    }

    method Value(path: seq<Text>, depth: nat) returns (ok: bool)
      requires Valid()
      modifies this
      ensures Valid() && at >= old(at)
      ensures Left(ParseValue(Skip(old(Ahead())), path, depth)) == if ok then Some(Ahead()) else None
      decreases |text| - at, 1
    {
      hide Skip, ParseNumeral, ParseWord, ParseString, ParseMembers, ParseItems, TypeScriptCounter, RenderNumeral;
      Whitespace();
      ghost var s := Ahead();
      if at < |text| && text[at] == OPEN_BRACE {
        if depth >= MAX_DEPTH {
          return false;
        }
        ok := ObjectBody(path, depth);
      } else if at < |text| && text[at] == OPEN_BRACKET {
        if depth >= MAX_DEPTH {
          return false;
        }
        ok := ArrayBody(path, depth);
      } else if at < |text| && text[at] == QUOTE {
        var token := StringToken();
        ok := token.Some?;
      } else {
        ok := Literal();
        if !ok {
          ok := Number(path);
        }
      }
    }

    method ObjectBody(path: seq<Text>, depth: nat) returns (ok: bool)
      requires Valid() && at < |text| && text[at] == OPEN_BRACE && depth < MAX_DEPTH
      modifies this
      ensures Valid() && at >= old(at)
      ensures Left(ParseValue(old(Ahead()), path, depth)) == if ok then Some(Ahead()) else None
      decreases |text| - at, 0
    {
      hide Skip, ParseMembers;
      ghost var s := Ahead();
      at := at + 1;
      ghost var t := Ahead();
      assert t == s[1..];
      Whitespace();
      ghost var u := Ahead();
      if at < |text| && text[at] == CLOSE_BRACE {
        at := at + 1;
        assert u[1..] == Ahead();
        return true;
      }
      assert Left(ParseValue(s, path, depth)) == Left(ParseMembers(t, path, depth + 1, {}));
      hide ParseValue;
      MembersAfterSpace(t, path, depth + 1, {});
      ok := MemberLoop(path, depth + 1);
    }

    method MemberLoop(path: seq<Text>, depth: nat) returns (ok: bool)
      requires Valid() && at > 0
      modifies this
      ensures Valid() && at >= old(at)
      ensures Left(ParseMembers(old(Ahead()), path, depth, {})) == if ok then Some(Ahead()) else None
      decreases |text| - at, 3
    {
      hide Skip, ParseMembers, ParseValue, ParseString, Decode;
      var seen: set<Text> := {};
      while true
        invariant Valid() && at >= old(at)
        invariant Left(ParseMembers(Ahead(), path, depth, seen)) == Left(ParseMembers(old(Ahead()), path, depth, {}))
        decreases |text| - at
      {
        ghost var s := Ahead();
        MemberStep(s, path, depth, seen);
        Whitespace();
        var key := StringToken();
        if key.None? || key.value in seen {
          return false;
        }
        ghost var s1 := Ahead();
        Whitespace();
        if at == |text| || text[at] != COLON {
          return false;
        }
        at := at + 1;
        ghost var s3 := Ahead();
        assert s3 == Skip(s1)[1..];
        var good := Value(path + [key.value], depth);
        if !good {
          return false;
        }
        ghost var s4 := Ahead();
        Whitespace();
        if at == |text| {
          return false;
        }
        var end := text[at];
        at := at + 1;
        assert Ahead() == Skip(s4)[1..];
        if end == CLOSE_BRACE {
          return true;
        }
        if end != COMMA {
          return false;
        }
        seen := seen + {key.value};
      }
    }

    method ArrayBody(path: seq<Text>, depth: nat) returns (ok: bool)
      requires Valid() && at < |text| && text[at] == OPEN_BRACKET && depth < MAX_DEPTH
      modifies this
      ensures Valid() && at >= old(at)
      ensures Left(ParseValue(old(Ahead()), path, depth)) == if ok then Some(Ahead()) else None
      decreases |text| - at, 0
    {
      hide Skip, ParseItems;
      ghost var s := Ahead();
      at := at + 1;
      ghost var t := Ahead();
      assert t == s[1..];
      Whitespace();
      ghost var u := Ahead();
      if at < |text| && text[at] == CLOSE_BRACKET {
        at := at + 1;
        assert u[1..] == Ahead();
        return true;
      }
      assert Left(ParseValue(s, path, depth)) == Left(ParseItems(t, path, 0, depth + 1));
      hide ParseValue;
      ItemsAfterSpace(t, path, 0, depth + 1);
      ok := ItemLoop(path, depth + 1);
    }

    method ItemLoop(path: seq<Text>, depth: nat) returns (ok: bool)
      requires Valid()
      modifies this
      ensures Valid() && at >= old(at)
      ensures Left(ParseItems(old(Ahead()), path, 0, depth)) == if ok then Some(Ahead()) else None
      decreases |text| - at, 3
    {
      hide Skip, ParseItems, ParseValue, Decimal;
      var index := 0;
      while true
        invariant Valid() && at >= old(at)
        invariant Left(ParseItems(Ahead(), path, index, depth)) == Left(ParseItems(old(Ahead()), path, 0, depth))
        decreases |text| - at
      {
        ghost var s := Ahead();
        ItemStep(s, path, index, depth);
        var good := Value(path + [Decimal(index)], depth);
        if !good {
          return false;
        }
        index := index + 1;
        ghost var s1 := Ahead();
        Whitespace();
        if at == |text| {
          return false;
        }
        var end := text[at];
        at := at + 1;
        assert Ahead() == Skip(s1)[1..];
        if end == CLOSE_BRACKET {
          return true;
        }
        if end != COMMA {
          return false;
        }
      }
    }
  }

  // The whole of inspectJSON: it returns without throwing exactly on the texts of
  // conforming documents.
  method InspectJSON(text: Text) returns (accepted: bool)
    ensures accepted <==> exists d :: Conforming(d) && RenderDocument(d) == text
  {
    hide Skip, ParseValue, Conforming, RenderDocument;
    var inspector := new Inspector(text);
    assert text[0..] == text;
    accepted := inspector.Value([], 0);
    if accepted {
      inspector.Whitespace();
      accepted := inspector.at == |text|;
      assert accepted <==> inspector.Ahead() == [];
    }
    AcceptsExactlyConforming(text);
  }
}
