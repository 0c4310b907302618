// Which byte lines are UTF-8 (RFC 3629, section 4): utf8.Valid in Go, the strict decoders
// of TypeScript and Python, and serde_json's check of each string. A document's bytes
// are valid exactly when its strings and names are made of Unicode scalar values.
module JsonUtf8 {
  import opened JsonGrammar
  import opened Accounting
  import opened JsonEncodings
  import opened JsonNames

  predicate IsTail(u: nat) {
    0x80 <= u <= 0xBF
  }

  // The number of bytes of the character at the start, or 0 if there is none.
  function Width(b: Text): (n: nat)
    requires b != []
    ensures n <= |b|
  {
    if b[0] < 0x80 then 1
    else if 0xC2 <= b[0] <= 0xDF then if |b| >= 2 && IsTail(b[1]) then 2 else 0
    else if 0xE0 <= b[0] <= 0xEF then
      if |b| >= 3 && IsTail(b[1]) && IsTail(b[2]) && (b[0] == 0xE0 ==> b[1] >= 0xA0) && (b[0] == 0xED ==> b[1] < 0xA0)
      then 3 else 0
    else if 0xF0 <= b[0] <= 0xF4 then
      if |b| >= 4 && IsTail(b[1]) && IsTail(b[2]) && IsTail(b[3])
         && (b[0] == 0xF0 ==> b[1] >= 0x90) && (b[0] == 0xF4 ==> b[1] < 0x90)
      then 4 else 0
    else 0
  }

  predicate Utf8Valid(b: Text)
    decreases |b|
  {
    b != [] ==> Width(b) > 0 && Utf8Valid(b[Width(b)..])
  }

  // ----- The encoding of a text is valid exactly when the text is of scalar values -----

  lemma TwoBytes(u: nat, b: Text)
    requires 0x80 <= u < 0x800 && |b| >= 2 && b[0] == 0xC0 + u / 64 && b[1] == 0x80 + u % 64
    ensures Width(b) == 2
  {
  }

  lemma ThreeBytes(u: nat, b: Text)
    requires 0x800 <= u < 0x10000 && |b| >= 3
    requires b[0] == 0xE0 + u / 4096 && b[1] == 0x80 + u / 64 % 64 && b[2] == 0x80 + u % 64
    ensures Width(b) == if IsHigh(u) || IsLow(u) then 0 else 3
  {
  }

  lemma FourBytes(u: nat, b: Text)
    requires 0x10000 <= u && |b| >= 4 && b[0] == 0xF0 + u / 262144 && b[1] == 0x80 + u / 4096 % 64
    requires b[2] == 0x80 + u / 64 % 64 && b[3] == 0x80 + u % 64
    ensures Width(b) == if u <= 0x10FFFF then 4 else 0
  {
  }

  lemma ScalarWidth(u: nat, rest: Text)
    ensures var b := Units(Utf8, u) + rest;
            b != [] && Width(b) == if IsScalar(u) then |Units(Utf8, u)| else 0
  {
    hide Width;
    var b := Units(Utf8, u) + rest;
    if u < 0x80 {
      OneByte(b);
    } else if u < 0x800 {
      TwoBytes(u, b);
    } else if u < 0x10000 {
      ThreeBytes(u, b);
    } else {
      FourBytes(u, b);
    }
  }

  lemma OneByte(b: Text)
    requires b != [] && b[0] < 0x80
    ensures Width(b) == 1
  {
  }

  lemma {:induction false} EncodedIsValid(s: Text)
    ensures Utf8Valid(Encode(Utf8, s)) <==> Scalars(s)
  {
    hide IsScalar, Units, Width;
    if s != [] {
      var b := Encode(Utf8, s);
      ScalarWidth(s[0], Encode(Utf8, s[1..]));
      if IsScalar(s[0]) {
        assert b[|Units(Utf8, s[0])|..] == Encode(Utf8, s[1..]);
        EncodedIsValid(s[1..]);
        assert s == [s[0]] + s[1..];
      }
    }
  }

  lemma ScalarsJoin(a: Text, b: Text)
    ensures Scalars(a + b) <==> Scalars(a) && Scalars(b)
  {
    hide IsScalar;
    assert forall i :: 0 <= i < |a| ==> (a + b)[i] == a[i];
    assert forall i :: 0 <= i < |b| ==> (a + b)[|a| + i] == b[i];
  }

  lemma AsciiIsScalars(s: Text)
    requires Ascii(s)
    ensures Scalars(s)
  {
  }

  // ----- Trees of characters -----

  predicate Legible(v: Value) {
    match v
    case String(ps) => Characters(ps)
    case Array(_, items) => LegibleItems(items)
    case Object(_, members) => LegibleMembers(members)
    case _ => true
  }

  predicate LegibleItems(items: Items) {
    items.Item? ==> Legible(items.value) && LegibleItems(items.rest)
  }

  predicate LegibleMembers(members: Members) {
    members.Member? ==> Characters(members.name) && Legible(members.value) && LegibleMembers(members.rest)
  }

  lemma {:induction false} PiecesScalars(ps: seq<Piece>)
    requires ValidPieces(ps)
    ensures Scalars(RenderPieces(ps)) <==> Characters(ps)
    decreases |ps|
  {
    hide IsScalar, RenderPiece;
    if ps != [] {
      PieceScalars(ps[0]);
      PiecesScalars(ps[1..]);
      ScalarsJoin(RenderPiece(ps[0]), RenderPieces(ps[1..]));
      assert ps == [ps[0]] + ps[1..];
    }
  }

  lemma PieceScalars(p: Piece)
    requires ValidPiece(p)
    ensures Scalars(RenderPiece(p)) <==> p.Raw? ==> IsScalar(p.unit)
  {
    if p.Raw? {
      assert RenderPiece(p)[0] == p.unit;
    }
  }

  lemma StringScalars(ps: seq<Piece>)
    requires ValidPieces(ps)
    ensures Scalars(RenderString(ps)) <==> Characters(ps)
  {
    hide Characters;
    PiecesScalars(ps);
    ScalarsJoin([QUOTE] + RenderPieces(ps), [QUOTE]);
    ScalarsJoin([QUOTE], RenderPieces(ps));
    AsciiIsScalars([QUOTE]);
  }

  lemma {:induction false} ValueScalars(v: Value)
    requires Valid(v)
    ensures Scalars(Render(v)) <==> Legible(v)
    decreases v
  {
    hide Scalars;
    match v {
      case Literal(w) => AsciiIsScalars(RenderWord(w));
      case Number(n) =>
        NumeralAscii(n);
        AsciiIsScalars(RenderNumeral(n));
      case String(ps) => StringScalars(ps);
      case Array(gap, items) =>
        ItemsScalars(items);
        AsciiIsScalars([OPEN_BRACKET] + gap);
        ScalarsJoin([OPEN_BRACKET] + gap, RenderItems(items));
      case Object(gap, members) =>
        MembersScalars(members);
        AsciiIsScalars([OPEN_BRACE] + gap);
        ScalarsJoin([OPEN_BRACE] + gap, RenderMembers(members));
    }
  }

  lemma {:induction false} ItemsScalars(items: Items)
    requires ValidItems(items)
    ensures Scalars(RenderItems(items)) <==> LegibleItems(items)
    decreases items, 0
  {
    hide Scalars, Render, Valid, Legible;
    if items.Item? {
      ValueScalars(items.value);
      AsciiIsScalars(items.before);
      AsciiIsScalars(items.after);
      AsciiIsScalars([COMMA]);
      AsciiIsScalars([CLOSE_BRACKET]);
      ItemsScalars(items.rest);
      ScalarsJoin([COMMA], RenderItems(items.rest));
      ScalarsJoin(items.before + Render(items.value) + items.after, ItemsEnd(items.rest));
      ScalarsJoin(items.before + Render(items.value), items.after);
      ScalarsJoin(items.before, Render(items.value));
    } else {
      AsciiIsScalars([CLOSE_BRACKET]);
    }
  }

  lemma {:induction false} MembersScalars(members: Members)
    requires ValidMembers(members)
    ensures Scalars(RenderMembers(members)) <==> LegibleMembers(members)
    decreases members, 0
  {
    hide Scalars, Render, RenderString, Valid, Legible, Characters, ValidPieces;
    if members.Member? {
      var m := members;
      ValueScalars(m.value);
      StringScalars(m.name);
      MembersScalars(m.rest);
      EndScalars(m.rest);
      AsciiIsScalars(m.lead);
      AsciiIsScalars(m.colon);
      AsciiIsScalars([COLON]);
      AsciiIsScalars(m.before);
      AsciiIsScalars(m.after);
      RenderMemberParts(m);
      JoinFour(m.lead, RenderString(m.name), m.colon, [COLON]);
      JoinFour(m.before, Render(m.value), m.after, MembersEnd(m.rest));
      ScalarsJoin(m.lead + RenderString(m.name) + m.colon + [COLON],
                  m.before + Render(m.value) + m.after + MembersEnd(m.rest));
    } else {
      AsciiIsScalars([CLOSE_BRACE]);
    }
  }

  lemma EndScalars(rest: Members)
    requires Scalars(RenderMembers(rest)) <==> LegibleMembers(rest)
    ensures Scalars(MembersEnd(rest)) <==> LegibleMembers(rest)
  {
    hide Scalars;
    AsciiIsScalars([COMMA]);
    AsciiIsScalars([CLOSE_BRACE]);
    ScalarsJoin([COMMA], RenderMembers(rest));
  }

  lemma JoinFour(a: Text, b: Text, c: Text, d: Text)
    ensures Scalars(a + b + c + d) <==> Scalars(a) && Scalars(b) && Scalars(c) && Scalars(d)
  {
    hide Scalars;
    ScalarsJoin(a + b + c, d);
    ScalarsJoin(a + b, c);
    ScalarsJoin(a, b);
  }

  // A document's UTF-8 is valid exactly when its strings are of characters.
  lemma DocumentUtf8(d: Document)
    requires ValidDocument(d)
    ensures Utf8Valid(Encode(Utf8, RenderDocument(d))) <==> Legible(d.value)
  {
    hide Scalars, Utf8Valid, Encode, Render, Valid, Legible;
    ValueScalars(d.value);
    AsciiIsScalars(d.before);
    AsciiIsScalars(d.after);
    ScalarsJoin(d.before + Render(d.value), d.after);
    ScalarsJoin(d.before, Render(d.value));
    EncodedIsValid(RenderDocument(d));
  }

  // And so for a string by itself.
  lemma PiecesUtf8(ps: seq<Piece>)
    requires ValidPieces(ps)
    ensures Utf8Valid(Encode(Utf8, RenderPieces(ps))) <==> Characters(ps)
  {
    PiecesScalars(ps);
    EncodedIsValid(RenderPieces(ps));
  }
}
