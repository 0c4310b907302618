// One document, three texts: Go reads UTF-8 bytes, TypeScript UTF-16 code units and
// Python code points. How the tree, its escapes and its names fare in each.
module JsonEncodings {
  import opened JsonGrammar
  import opened Accounting
  import opened JsonEscapes

  datatype Encoding = Utf8 | Utf16

  // Unicode scalar values.
  predicate IsScalar(u: nat) {
    u <= 0x10FFFF && !IsHigh(u) && !IsLow(u)
  }

  function Units(e: Encoding, u: nat): (r: Text)
    ensures u < 0x80 ==> r == [u]
    ensures u >= 0x80 ==> |r| > 0 && forall i :: 0 <= i < |r| ==> r[i] >= 0x80
  {
    match e
    case Utf16 => if u < 0x10000 then [u] else [0xD800 + (u - 0x10000) / 1024, 0xDC00 + (u - 0x10000) % 1024]
    case Utf8 =>
      if u < 0x80 then [u]
      else if u < 0x800 then [0xC0 + u / 64, 0x80 + u % 64]
      else if u < 0x10000 then [0xE0 + u / 4096, 0x80 + u / 64 % 64, 0x80 + u % 64]
      else [0xF0 + u / 262144, 0x80 + u / 4096 % 64, 0x80 + u / 64 % 64, 0x80 + u % 64]
  }

  function Encode(e: Encoding, s: Text): Text {
    if s == [] then [] else Units(e, s[0]) + Encode(e, s[1..])
  }

  lemma {:induction false} EncodeJoin(e: Encoding, a: Text, b: Text)
    ensures Encode(e, a + b) == Encode(e, a) + Encode(e, b)
    decreases |a|
  {
    if a == [] {
      assert a + b == b;
    } else {
      assert (a + b)[1..] == a[1..] + b;
      EncodeJoin(e, a[1..], b);
    }
  }

  predicate Ascii(s: Text) {
    forall i :: 0 <= i < |s| ==> s[i] < 0x80
  }

  lemma {:induction false} EncodeAscii(e: Encoding, s: Text)
    requires Ascii(s)
    ensures Encode(e, s) == s
    decreases |s|
  {
    if s != [] {
      EncodeAscii(e, s[1..]);
    }
  }

  // ----- Strings -----

  function Raws(units: Text): seq<Piece> {
    seq(|units|, i requires 0 <= i < |units| => Raw(units[i]))
  }

  function RecodePiece(e: Encoding, p: Piece): seq<Piece> {
    if p.Raw? then Raws(Units(e, p.unit)) else [p]
  }

  function RecodePieces(e: Encoding, ps: seq<Piece>): seq<Piece> {
    if ps == [] then [] else RecodePiece(e, ps[0]) + RecodePieces(e, ps[1..])
  }

  lemma {:induction false} RenderJoin(a: seq<Piece>, b: seq<Piece>)
    ensures RenderPieces(a + b) == RenderPieces(a) + RenderPieces(b)
    decreases |a|
  {
    if a == [] {
      assert a + b == b;
    } else {
      assert (a + b)[1..] == a[1..] + b;
      RenderJoin(a[1..], b);
    }
  }

  lemma {:induction false} RenderRaws(units: Text)
    ensures RenderPieces(Raws(units)) == units
    decreases |units|
  {
    if units != [] {
      assert Raws(units)[1..] == Raws(units[1..]);
      RenderRaws(units[1..]);
    }
  }

  lemma OnePieceRecoded(e: Encoding, p: Piece)
    requires ValidPiece(p)
    ensures ValidPieces(RecodePiece(e, p)) && RecodePiece(e, p) != []
    ensures RenderPieces(RecodePiece(e, p)) == Encode(e, RenderPiece(p))
  {
    if p.Raw? {
      RenderRaws(Units(e, p.unit));
      assert Encode(e, [p.unit]) == Units(e, p.unit);
    } else {
      assert [p][1..] == [];
      EncodeAscii(e, RenderPiece(p));
    }
  }

  lemma {:induction false} PiecesRecoded(e: Encoding, ps: seq<Piece>)
    requires ValidPieces(ps)
    ensures ValidPieces(RecodePieces(e, ps))
    ensures RenderPieces(RecodePieces(e, ps)) == Encode(e, RenderPieces(ps))
    decreases |ps|
  {
    if ps != [] {
      hide RecodePiece, Encode, RenderPiece, ValidPiece;
      OnePieceRecoded(e, ps[0]);
      PiecesRecoded(e, ps[1..]);
      RenderJoin(RecodePiece(e, ps[0]), RecodePieces(e, ps[1..]));
      EncodeJoin(e, RenderPiece(ps[0]), RenderPieces(ps[1..]));
    } else {
      EncodeAscii(e, []);
    }
  }

  lemma {:induction false} PairedAfterRaws(units: Text, ps: seq<Piece>)
    ensures Paired(Raws(units) + ps) == Paired(ps)
    decreases |units|
  {
    if units == [] {
      assert Raws(units) + ps == ps;
    } else {
      var all := Raws(units) + ps;
      assert all[0] == Raw(units[0]) && all[1..] == Raws(units[1..]) + ps;
      PairedAfterRaws(units[1..], ps);
    }
  }

  lemma {:induction false} PairedRecoded(e: Encoding, ps: seq<Piece>)
    ensures Paired(RecodePieces(e, ps)) == Paired(ps)
    decreases |ps|
  {
    if ps != [] {
      hide HighEscape, LowEscape;
      var rest := RecodePieces(e, ps[1..]);
      PairedRecoded(e, ps[1..]);
      EscapeKinds(ps[0]);
      if ps[0].Raw? {
        PairedAfterRaws(Units(e, ps[0].unit), rest);
      } else {
        assert ([ps[0]] + rest)[1..] == rest;
        if |ps| > 1 {
          assert ps[1..][1..] == ps[2..];
          EscapeKinds(ps[1]);
          if ps[1].Raw? {
            EscapeKinds(rest[0]);
          } else {
            assert rest == [ps[1]] + RecodePieces(e, ps[2..]);
            PairedRecoded(e, ps[2..]);
            assert ([ps[0]] + rest)[2..] == RecodePieces(e, ps[2..]);
          }
        }
      }
    }
  }

  lemma EscapeKinds(p: Piece)
    ensures p.Raw? ==> !HighEscape(p) && !LowEscape(p)
  {
  }

  // ----- Trees -----

  function Recode(e: Encoding, v: Value): Value {
    match v
    case Literal(_) => v
    case Number(_) => v
    case String(ps) => String(RecodePieces(e, ps))
    case Array(gap, items) => Array(gap, RecodeItems(e, items))
    case Object(gap, members) => Object(gap, RecodeMembers(e, members))
  }

  function RecodeItems(e: Encoding, items: Items): Items {
    match items
    case NoItems => NoItems
    case Item(before, value, after, rest) => Item(before, Recode(e, value), after, RecodeItems(e, rest))
  }

  function RecodeMembers(e: Encoding, members: Members): Members {
    match members
    case NoMembers => NoMembers
    case Member(lead, name, colon, before, value, after, rest) =>
      Member(lead, RecodePieces(e, name), colon, before, Recode(e, value), after, RecodeMembers(e, rest))
  }

  function RecodeDocument(e: Encoding, d: Document): Document {
    d.(value := Recode(e, d.value))
  }

  // What encoding leaves of a tree.
  lemma {:induction false} ValueRecoded(e: Encoding, v: Value)
    requires Valid(v)
    ensures Valid(Recode(e, v)) && Depth(Recode(e, v)) == Depth(v)
    ensures PairedValue(Recode(e, v)) == PairedValue(v)
    decreases v
  {
    match v {
      case String(ps) =>
        PiecesRecoded(e, ps);
        PairedRecoded(e, ps);
      case Array(_, items) => ItemsRecoded(e, items);
      case Object(_, members) => MembersRecoded(e, members);
      case _ =>
    }
  }

  lemma {:induction false} ItemsRecoded(e: Encoding, items: Items)
    requires ValidItems(items)
    ensures ValidItems(RecodeItems(e, items)) && ItemsDepth(RecodeItems(e, items)) == ItemsDepth(items)
    ensures PairedItems(RecodeItems(e, items)) == PairedItems(items)
    decreases items
  {
    if items.Item? {
      hide Valid, Depth, PairedValue, Recode;
      ValueRecoded(e, items.value);
      ItemsRecoded(e, items.rest);
    }
  }

  lemma {:induction false} MembersRecoded(e: Encoding, members: Members)
    requires ValidMembers(members)
    ensures ValidMembers(RecodeMembers(e, members)) && MembersDepth(RecodeMembers(e, members)) == MembersDepth(members)
    ensures PairedMembers(RecodeMembers(e, members)) == PairedMembers(members)
    decreases members
  {
    if members.Member? {
      hide Valid, Depth, PairedValue, Recode, ValidPieces, RecodePieces, Paired;
      PiecesRecoded(e, members.name);
      PairedRecoded(e, members.name);
      ValueRecoded(e, members.value);
      MembersRecoded(e, members.rest);
    }
  }

  // ----- The text of a recoded tree is the encoded text -----

  lemma EncodeParts(e: Encoding, a: Text, b: Text, c: Text, d: Text)
    ensures Encode(e, a + b + c + d) == Encode(e, a) + Encode(e, b) + Encode(e, c) + Encode(e, d)
  {
    hide Encode;
    EncodeJoin(e, a + b + c, d);
    EncodeJoin(e, a + b, c);
    EncodeJoin(e, a, b);
  }

  lemma StringRecoded(e: Encoding, ps: seq<Piece>)
    requires ValidPieces(ps)
    ensures RenderString(RecodePieces(e, ps)) == Encode(e, RenderString(ps))
  {
    hide Encode, RenderPieces, RecodePieces;
    PiecesRecoded(e, ps);
    EncodeAscii(e, [QUOTE]);
    EncodeJoin(e, [QUOTE] + RenderPieces(ps), [QUOTE]);
    EncodeJoin(e, [QUOTE], RenderPieces(ps));
  }

  lemma NumeralAscii(n: Numeral)
    requires ValidNumeral(n)
    ensures Ascii(RenderNumeral(n))
  {
    var sign: Text := if n.minus then [MINUS] else [];
    assert Ascii(sign) && Ascii(n.whole) && Ascii(RenderFraction(n.fraction)) && Ascii(RenderExponent(n.exponent));
  }

  lemma {:induction false} RenderRecoded(e: Encoding, v: Value)
    requires Valid(v)
    ensures Render(Recode(e, v)) == Encode(e, Render(v))
    decreases v
  {
    hide Encode;
    match v {
      case Literal(w) => EncodeAscii(e, RenderWord(w));
      case Number(n) =>
        NumeralAscii(n);
        EncodeAscii(e, RenderNumeral(n));
      case String(ps) => StringRecoded(e, ps);
      case Array(gap, items) =>
        hide RenderItems, RecodeItems;
        RenderItemsRecoded(e, items);
        EncodeAscii(e, [OPEN_BRACKET] + gap);
        EncodeJoin(e, [OPEN_BRACKET] + gap, RenderItems(items));
      case Object(gap, members) =>
        hide RenderMembers, RecodeMembers;
        RenderMembersRecoded(e, members);
        EncodeAscii(e, [OPEN_BRACE] + gap);
        EncodeJoin(e, [OPEN_BRACE] + gap, RenderMembers(members));
    }
  }

  function ItemsEnd(rest: Items): Text {
    if rest.NoItems? then [CLOSE_BRACKET] else [COMMA] + RenderItems(rest)
  }

  function MembersEnd(rest: Members): Text {
    if rest.NoMembers? then [CLOSE_BRACE] else [COMMA] + RenderMembers(rest)
  }

  lemma {:induction false} RenderItemsRecoded(e: Encoding, items: Items)
    requires ValidItems(items)
    ensures RenderItems(RecodeItems(e, items)) == Encode(e, RenderItems(items))
    decreases items
  {
    hide Encode, Render, Recode, Valid;
    if items.Item? {
      RenderRecoded(e, items.value);
      RenderItemsRecoded(e, items.rest);
      EncodeAscii(e, items.before);
      EncodeAscii(e, items.after);
      EncodeAscii(e, [COMMA]);
      EncodeAscii(e, [CLOSE_BRACKET]);
      EncodeJoin(e, [COMMA], RenderItems(items.rest));
      EncodeParts(e, items.before, Render(items.value), items.after, ItemsEnd(items.rest));
      assert Encode(e, ItemsEnd(items.rest)) == ItemsEnd(RecodeItems(e, items.rest));
    } else {
      EncodeAscii(e, [CLOSE_BRACKET]);
    }
  }

  lemma RenderMemberParts(m: Members)
    requires m.Member?
    ensures RenderMembers(m) == (m.lead + RenderString(m.name) + m.colon + [COLON])
                              + (m.before + Render(m.value) + m.after + MembersEnd(m.rest))
  {
    hide Render, RenderString;
  }

  lemma {:induction false} RenderMembersRecoded(e: Encoding, members: Members)
    requires ValidMembers(members)
    ensures RenderMembers(RecodeMembers(e, members)) == Encode(e, RenderMembers(members))
    decreases members, 0
  {
    hide Encode, Render, RenderString, RecodePieces, ValidPieces, Recode, Valid;
    if members.Member? {
      var m := members;
      RenderRecoded(e, m.value);
      StringRecoded(e, m.name);
      EncodeAscii(e, m.lead);
      EncodeAscii(e, m.colon);
      EncodeAscii(e, [COLON]);
      EncodeAscii(e, m.before);
      EncodeAscii(e, m.after);
      EndRecoded(e, m.rest);
      EncodeParts(e, m.lead, RenderString(m.name), m.colon, [COLON]);
      EncodeParts(e, m.before, Render(m.value), m.after, MembersEnd(m.rest));
      EncodeJoin(e, m.lead + RenderString(m.name) + m.colon + [COLON],
                 m.before + Render(m.value) + m.after + MembersEnd(m.rest));
      RenderMemberParts(m);
      RenderMemberParts(RecodeMembers(e, m));
    } else {
      EncodeAscii(e, [CLOSE_BRACE]);
    }
  }

  lemma {:induction false} EndRecoded(e: Encoding, rest: Members)
    requires ValidMembers(rest)
    ensures MembersEnd(RecodeMembers(e, rest)) == Encode(e, MembersEnd(rest))
    decreases rest, 1
  {
    hide Encode, RenderMembers;
    RenderMembersRecoded(e, rest);
    EncodeAscii(e, [COMMA]);
    EncodeAscii(e, [CLOSE_BRACE]);
    EncodeJoin(e, [COMMA], RenderMembers(rest));
  }

  // The encoded text of a document is the text of the recoded document.
  lemma DocumentRecoded(e: Encoding, d: Document)
    requires ValidDocument(d)
    ensures ValidDocument(RecodeDocument(e, d))
    ensures RenderDocument(RecodeDocument(e, d)) == Encode(e, RenderDocument(d))
  {
    hide Encode, Render, Recode, Valid;
    ValueRecoded(e, d.value);
    RenderRecoded(e, d.value);
    EncodeAscii(e, d.before);
    EncodeAscii(e, d.after);
    EncodeJoin(e, d.before + Render(d.value), d.after);
    EncodeJoin(e, d.before, Render(d.value));
  }
}
