// protocol/parse.go, scalarEscapes: a byte scanner that looks for unpaired surrogate
// escapes without parsing, shown to look at exactly the strings of the syntax tree.
module JsonEscapes {
  import opened Envelopes
  import opened JsonGrammar
  import opened Accounting
  import opened JsonParser
  import opened JsonCorrectness

  // strconv.ParseUint(s, 16, 16) on four bytes.
  function ParseHex(s: Text): Option<nat>
    requires |s| == 4
  {
    if forall i :: 0 <= i < 4 ==> IsHex(s[i]) then Some(HexValue(s)) else None
  }

  // What the scanner answers from a position on.
  predicate Scan(b: Text, inString: bool)
    decreases |b|
  {
    if b == [] then true
    else if b[0] == QUOTE then Scan(b[1..], !inString)
    else if !inString || b[0] != BACKSLASH then Scan(b[1..], inString)
    else |b| > 1 && if b[1] != LOWER_U then Scan(b[2..], inString) else ScanUnicode(b)
  }

  // At a \u escape inside a string.
  predicate ScanUnicode(b: Text)
    requires |b| > 1
    decreases |b|, 0
  {
    && |b| >= 6 && ParseHex(b[2..6]).Some?
    && var n := ParseHex(b[2..6]).value;
       !IsLow(n) && if IsHigh(n) then LowFollows(b[6..]) && Scan(b[12..], true) else Scan(b[6..], true)
  }

  predicate LowFollows(b: Text) {
    && |b| >= 6 && b[0] == BACKSLASH && b[1] == LOWER_U
    && ParseHex(b[2..6]).Some? && IsLow(ParseHex(b[2..6]).value)
  }

  // Total on any bytes: every index is in range.
  method ScalarEscapes(b: Text) returns (ok: bool)
    ensures ok <==> Scan(b, false)
  {
    var inString := false;
    var i := 0;
    while i < |b|
      invariant 0 <= i <= |b|
      invariant Scan(b, false) == Scan(b[i..], inString)
    {
      ghost var s := b[i..];
      assert s[1..] == b[i + 1..];
      if b[i] == QUOTE {
        inString := !inString;
        i := i + 1;
        continue;
      }
      if !inString || b[i] != BACKSLASH {
        i := i + 1;
        continue;
      }
      i := i + 1;
      if i >= |b| {
        return false;
      }
      assert s[1] == b[i];
      if b[i] != LOWER_U {
        assert s[2..] == b[i + 1..];
        i := i + 1;
        continue;
      }
      if i + 4 >= |b| {
        return false;
      }
      assert s[2..6] == b[i + 1..i + 5] && s[6..] == b[i + 5..];
      var n := ParseHex(b[i + 1..i + 5]);
      if n.None? {
        return false;
      }
      i := i + 4;
      if IsLow(n.value) {
        return false;
      }
      if IsHigh(n.value) {
        if i + 6 >= |b| || b[i + 1] != BACKSLASH || b[i + 2] != LOWER_U {
          return false;
        }
        assert s[6..][2..6] == b[i + 3..i + 7] && s[12..] == b[i + 7..];
        var low := ParseHex(b[i + 3..i + 7]);
        if low.None? || !IsLow(low.value) {
          return false;
        }
        i := i + 6;
      }
      i := i + 1;
    }
    assert b[i..] == [];
    return true;
  }

  // ----- Meaning -----

  predicate HighEscape(p: Piece) {
    p.Unicode? && ValidPiece(p) && IsHigh(HexValue(p.digits))
  }

  predicate LowEscape(p: Piece) {
    p.Unicode? && ValidPiece(p) && IsLow(HexValue(p.digits))
  }

  // Every surrogate escape is half of a pair of escapes.
  predicate Paired(ps: seq<Piece>) {
    if ps == [] then true
    else if HighEscape(ps[0]) then |ps| > 1 && LowEscape(ps[1]) && Paired(ps[2..])
    else !LowEscape(ps[0]) && Paired(ps[1..])
  }

  predicate PairedValue(v: Value) {
    match v
    case String(ps) => Paired(ps)
    case Array(_, items) => PairedItems(items)
    case Object(_, members) => PairedMembers(members)
    case _ => true
  }

  predicate PairedItems(items: Items) {
    items.Item? ==> PairedValue(items.value) && PairedItems(items.rest)
  }

  predicate PairedMembers(members: Members) {
    members.Member? ==> Paired(members.name) && PairedValue(members.value) && PairedMembers(members.rest)
  }

  // ----- The scanner on the text of a tree -----

  lemma {:induction false} PlainText(s: Text, rest: Text)
    requires forall i :: 0 <= i < |s| ==> s[i] != QUOTE
    ensures Scan(s + rest, false) == Scan(rest, false)
    decreases |s|
  {
    if s == [] {
      assert s + rest == rest;
    } else {
      assert (s + rest)[1..] == s[1..] + rest;
      PlainText(s[1..], rest);
    }
  }

  lemma EscapeText(digits: Text, more: Text)
    requires ValidPiece(Unicode(digits))
    ensures var s := RenderPiece(Unicode(digits)) + more;
            && |s| >= 6 && s[0] == BACKSLASH && s[1] == LOWER_U && s[2..6] == digits && s[6..] == more
            && ParseHex(s[2..6]) == Some(HexValue(digits))
  {
  }

  // One escape of four digits, in front of anything.
  lemma UnicodeStep(digits: Text, more: Text)
    requires ValidPiece(Unicode(digits))
    ensures var n := HexValue(digits);
            Scan(RenderPiece(Unicode(digits)) + more, true)
            == (!IsLow(n) && if IsHigh(n) then LowFollows(more) && Scan(more[6..], true) else Scan(more, true))
  {
    hide ParseHex, HexValue;
    var s := RenderPiece(Unicode(digits)) + more;
    EscapeText(digits, more);
    if |more| >= 6 {
      assert s[12..] == more[6..];
    }
  }

  lemma OtherStep(p: Piece, more: Text)
    requires ValidPiece(p) && !p.Unicode?
    ensures Scan(RenderPiece(p) + more, true) == Scan(more, true)
    ensures !LowFollows(RenderPiece(p) + more)
  {
    var s := RenderPiece(p) + more;
    match p {
      case Raw(u) => assert s[0] == u && s[1..] == more;
      case Escape(letter) => assert s[0] == BACKSLASH && s[1] == letter && s[2..] == more;
    }
  }

  // A low half follows in the text exactly when a low escape comes next.
  lemma NextPiece(ps: seq<Piece>, rest: Text)
    requires ValidPieces(ps)
    ensures var s := RenderPieces(ps) + ([QUOTE] + rest);
            && (LowFollows(s) <==> ps != [] && LowEscape(ps[0]))
            && (ps != [] && ps[0].Unicode? ==> |s| >= 6 && s[6..] == RenderPieces(ps[1..]) + ([QUOTE] + rest))
  {
    hide HexValue, ParseHex, RenderPiece;
    var end := [QUOTE] + rest;
    if ps == [] {
      assert RenderPieces(ps) + end == end;
    } else {
      var more := RenderPieces(ps[1..]) + end;
      Join3(RenderPiece(ps[0]), RenderPieces(ps[1..]), end);
      if ps[0].Unicode? {
        EscapeText(ps[0].digits, more);
      } else {
        OtherStep(ps[0], more);
      }
    }
  }

  lemma {:induction false} StringBody(ps: seq<Piece>, rest: Text)
    requires ValidPieces(ps)
    ensures Scan(RenderPieces(ps) + ([QUOTE] + rest), true) <==> Paired(ps) && Scan(rest, false)
    decreases |ps|
  {
    hide HexValue, LowFollows, RenderPiece, ScanUnicode;
    var end := [QUOTE] + rest;
    if ps == [] {
      assert RenderPieces(ps) + end == end && end[1..] == rest;
    } else {
      var more := RenderPieces(ps[1..]) + end;
      Join3(RenderPiece(ps[0]), RenderPieces(ps[1..]), end);
      StringBody(ps[1..], rest);
      if ps[0].Unicode? {
        UnicodeStep(ps[0].digits, more);
        NextPiece(ps[1..], rest);
        if HighEscape(ps[0]) && |ps| > 1 && LowEscape(ps[1]) {
          StringBody(ps[2..], rest);
          assert ps[1..][1..] == ps[2..];
        }
      } else {
        OtherStep(ps[0], more);
      }
    }
  }

  lemma WholeString(ps: seq<Piece>, rest: Text)
    requires ValidPieces(ps)
    ensures Scan(RenderString(ps) + rest, false) <==> Paired(ps) && Scan(rest, false)
  {
    StringBody(ps, rest);
    var s := RenderString(ps) + rest;
    assert s == [QUOTE] + (RenderPieces(ps) + ([QUOTE] + rest));
    assert s[1..] == RenderPieces(ps) + ([QUOTE] + rest);
  }

  lemma NoQuotes(n: Numeral, w: Text)
    requires ValidNumeral(n) && Spaces(w)
    ensures QUOTE !in RenderNumeral(n) && QUOTE !in w
  {
    var sign: Text := if n.minus then [MINUS] else [];
    assert QUOTE !in n.whole && QUOTE !in sign;
    assert QUOTE !in RenderFraction(n.fraction) && QUOTE !in RenderExponent(n.exponent);
  }

  // White space and separators do not matter to the scanner.
  lemma SpaceText(w: Text, rest: Text)
    requires Spaces(w)
    ensures Scan(w + rest, false) == Scan(rest, false)
    ensures Scan([COLON] + rest, false) == Scan(rest, false)
  {
    PlainText(w, rest);
    PlainText([COLON], rest);
  }

  lemma {:induction false} ValueText(v: Value, rest: Text)
    requires Valid(v)
    ensures Scan(Render(v) + rest, false) <==> PairedValue(v) && Scan(rest, false)
    decreases v, 1
  {
    hide Scan;
    match v {
      case Literal(w) =>
        assert QUOTE !in RenderWord(w);
        PlainText(RenderWord(w), rest);
      case Number(n) =>
        NoQuotes(n, []);
        PlainText(RenderNumeral(n), rest);
      case String(ps) => WholeString(ps, rest);
      case Array(gap, items) =>
        hide RenderItems;
        ItemsText(items, rest);
        Opening(OPEN_BRACKET, gap, RenderItems(items), rest);
      case Object(gap, members) =>
        hide RenderMembers;
        MembersText(members, rest);
        Opening(OPEN_BRACE, gap, RenderMembers(members), rest);
    }
  }

  lemma Opening(open: nat, gap: Text, body: Text, rest: Text)
    requires open != QUOTE && Spaces(gap)
    ensures Scan([open] + gap + body + rest, false) == Scan(body + rest, false)
  {
    hide Scan;
    Join3([open] + gap, body, rest);
    PlainText([open] + gap, body + rest);
  }

  lemma {:induction false} ItemsText(items: Items, rest: Text)
    requires ValidItems(items)
    ensures Scan(RenderItems(items) + rest, false) <==> PairedItems(items) && Scan(rest, false)
    decreases items, 0
  {
    hide Scan, Render, RenderItems;
    if items.Item? {
      var tail := ItemsTail(items.rest, rest);
      RenderItemThen(items, rest);
      SpaceText(items.before, Render(items.value) + (items.after + tail));
      ValueText(items.value, items.after + tail);
      SpaceText(items.after, tail);
      ItemsText(items.rest, rest);
      Tails(items.rest, NoMembers, rest);
    } else {
      Tails(NoItems, NoMembers, rest);
    }
  }

  // A list's tail differs from the list only in its separator.
  lemma Tails(items: Items, members: Members, rest: Text)
    ensures Scan(ItemsTail(items, rest), false) == Scan(RenderItems(items) + rest, false)
    ensures Scan(MembersTail(members, rest), false) == Scan(RenderMembers(members) + rest, false)
    ensures items.NoItems? ==> Scan(RenderItems(items) + rest, false) == Scan(rest, false)
    ensures members.NoMembers? ==> Scan(RenderMembers(members) + rest, false) == Scan(rest, false)
  {
    hide Scan;
    EmptyLists([], 0, 0, {});
    Join3([COMMA], RenderItems(items), rest);
    Join3([COMMA], RenderMembers(members), rest);
    PlainText([COMMA], RenderItems(items) + rest);
    PlainText([COMMA], RenderMembers(members) + rest);
    PlainText([CLOSE_BRACKET], rest);
    PlainText([CLOSE_BRACE], rest);
  }

  lemma {:induction false} MembersText(m: Members, rest: Text)
    requires ValidMembers(m)
    ensures Scan(RenderMembers(m) + rest, false) <==> PairedMembers(m) && Scan(rest, false)
    decreases m, 0
  {
    hide Scan, Render, RenderString, RenderMembers, MembersTail;
    if m.Member? {
      var tail := MembersTail(m.rest, rest);
      var s1 := Render(m.value) + (m.after + tail);
      var s2 := [COLON] + (m.before + s1);
      RenderMemberThen(m, rest);
      SpaceText(m.lead, RenderString(m.name) + (m.colon + s2));
      WholeString(m.name, m.colon + s2);
      SpaceText(m.colon, s2);
      SpaceText([], m.before + s1);
      SpaceText(m.before, s1);
      ValueText(m.value, m.after + tail);
      SpaceText(m.after, tail);
      MembersText(m.rest, rest);
      Tails(NoItems, m.rest, rest);
    } else {
      Tails(NoItems, NoMembers, rest);
    }
  }

  // On the text of any document, the scanner says yes exactly when every surrogate
  // escape in a string or a name of the tree is paired.
  lemma ScanIffPaired(d: Document)
    requires ValidDocument(d)
    ensures Scan(RenderDocument(d), false) <==> PairedValue(d.value)
  {
    hide Render;
    Join3(d.before, Render(d.value), d.after);
    SpaceText(d.before, Render(d.value) + d.after);
    ValueText(d.value, d.after);
    SpaceText(d.after, []);
    assert d.after + [] == d.after;
  }
}
