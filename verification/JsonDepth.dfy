// sdk/python/pitot/wire.py, parse: a flat loop over characters that tracks quotes,
// escapes and brackets, shown to compute the nesting depth of the syntax tree.
module JsonDepth {
  import opened JsonGrammar
  import opened Accounting

  // The loop's variables, with the largest depth so far.
  datatype Scan = Scan(depth: int, quoted: bool, escaped: bool, peak: int)

  function Next(st: Scan, u: nat): Scan {
    if st.quoted then
      if st.escaped then st.(escaped := false)
      else if u == BACKSLASH then st.(escaped := true)
      else if u == QUOTE then st.(quoted := false)
      else st
    else if u == QUOTE then st.(quoted := true)
    else if u == OPEN_BRACKET || u == OPEN_BRACE then
      st.(depth := st.depth + 1, peak := Max(st.peak, st.depth + 1))
    else if u == CLOSE_BRACKET || u == CLOSE_BRACE then st.(depth := st.depth - 1)
    else st
  }

  function ScanAll(st: Scan, s: Text): Scan
    decreases |s|
  {
    if s == [] then st else ScanAll(Next(st, s[0]), s[1..])
  }

  // The greatest depth the loop reaches on a text.
  function Peak(s: Text): int {
    ScanAll(Scan(0, false, false, 0), s).peak
  }

  lemma {:induction false} PeakGrows(st: Scan, s: Text)
    ensures ScanAll(st, s).peak >= st.peak
    decreases |s|
  {
    if s != [] {
      PeakGrows(Next(st, s[0]), s[1..]);
    }
  }

  lemma {:induction false} ScanJoin(st: Scan, a: Text, b: Text)
    ensures ScanAll(st, a + b) == ScanAll(ScanAll(st, a), b)
    decreases |a|
  {
    if a == [] {
      assert a + b == b;
    } else {
      assert (a + b)[1..] == a[1..] + b;
      ScanJoin(Next(st, a[0]), a[1..], b);
    }
  }

  // The loop: it raises as soon as the depth passes the limit.
  method DepthGate(raw: Text) returns (raised: bool)
    ensures raised <==> Peak(raw) > MAX_DEPTH
  {
    var depth := 0;
    var quoted := false;
    var escaped := false;
    ghost var peak := 0;
    for i := 0 to |raw|
      invariant depth <= peak <= MAX_DEPTH
      invariant ScanAll(Scan(0, false, false, 0), raw) == ScanAll(Scan(depth, quoted, escaped, peak), raw[i..])
    {
      var unit := raw[i];
      assert raw[i..][1..] == raw[i + 1..];
      if quoted {
        if escaped {
          escaped := false;
        } else if unit == BACKSLASH {
          escaped := true;
        } else if unit == QUOTE {
          quoted := false;
        }
      } else if unit == QUOTE {
        quoted := true;
      } else if unit == OPEN_BRACKET || unit == OPEN_BRACE {
        depth := depth + 1;
        peak := Max(peak, depth);
        if depth > MAX_DEPTH {
          PeakGrows(Scan(depth, quoted, escaped, peak), raw[i + 1..]);
          return true;
        }
      } else if unit == CLOSE_BRACKET || unit == CLOSE_BRACE {
        depth := depth - 1;
      }
    }
    assert raw[|raw|..] == [];
    return false;
  }

  // ----- Texts the loop passes over -----

  predicate IsMark(u: nat) {
    u == QUOTE || u == OPEN_BRACKET || u == CLOSE_BRACKET || u == OPEN_BRACE || u == CLOSE_BRACE
  }

  // The state between tokens, at depth d.
  predicate Between(st: Scan) {
    !st.quoted && !st.escaped && st.depth <= st.peak
  }

  lemma {:induction false} PlainText(st: Scan, s: Text)
    requires Between(st) && forall i :: 0 <= i < |s| ==> !IsMark(s[i])
    ensures ScanAll(st, s) == st
    decreases |s|
  {
    if s != [] {
      PlainText(st, s[1..]);
    }
  }

  lemma OnePiece(st: Scan, p: Piece)
    requires st.quoted && !st.escaped && ValidPiece(p)
    ensures ScanAll(st, RenderPiece(p)) == st
  {
    var s := RenderPiece(p);
    match p {
      case Raw(u) => assert s[1..] == [];
      case Escape(letter) =>
        var mid := st.(escaped := true);
        assert s[1..] == [letter] && [letter][1..] == [];
        assert ScanAll(st, s) == ScanAll(mid, [letter]) == ScanAll(st, []);
      case Unicode(digits) =>
        var mid := st.(escaped := true);
        assert s[0] == BACKSLASH && s[1..] == [LOWER_U] + digits && ([LOWER_U] + digits)[1..] == digits;
        assert ScanAll(st, s) == ScanAll(mid, [LOWER_U] + digits) == ScanAll(st, digits);
        HexDigits(st, digits);
    }
  }

  lemma {:induction false} HexDigits(st: Scan, digits: Text)
    requires st.quoted && !st.escaped && forall i :: 0 <= i < |digits| ==> IsHex(digits[i])
    ensures ScanAll(st, digits) == st
    decreases |digits|
  {
    if digits != [] {
      HexDigits(st, digits[1..]);
    }
  }

  lemma {:induction false} InsideString(st: Scan, ps: seq<Piece>)
    requires st.quoted && !st.escaped && ValidPieces(ps)
    ensures ScanAll(st, RenderPieces(ps)) == st
    decreases |ps|
  {
    if ps != [] {
      hide RenderPiece;
      OnePiece(st, ps[0]);
      InsideString(st, ps[1..]);
      ScanJoin(st, RenderPiece(ps[0]), RenderPieces(ps[1..]));
    }
  }

  lemma WholeString(st: Scan, ps: seq<Piece>)
    requires Between(st) && ValidPieces(ps)
    ensures ScanAll(st, RenderString(ps)) == st
  {
    var body := RenderPieces(ps);
    var inside := st.(quoted := true);
    InsideString(inside, ps);
    ScanJoin(inside, body, [QUOTE]);
    assert ScanAll(inside, [QUOTE]) == st;
    assert RenderString(ps) == [QUOTE] + (body + [QUOTE]);
    assert ([QUOTE] + (body + [QUOTE]))[1..] == body + [QUOTE];
  }

  lemma NumberText(st: Scan, n: Numeral)
    requires Between(st) && ValidNumeral(n)
    ensures ScanAll(st, RenderNumeral(n)) == st
  {
    var s := RenderNumeral(n);
    forall i | 0 <= i < |s| ensures !IsMark(s[i]) {
      NumeralUnits(n, s[i]);
    }
    PlainText(st, s);
  }

  lemma NumeralUnits(n: Numeral, u: nat)
    requires ValidNumeral(n) && u in RenderNumeral(n)
    ensures IsDigit(u) || u == MINUS || u == PLUS || u == DOT || u == 0x65 || u == 0x45
  {
    var sign: Text := if n.minus then [MINUS] else [];
    if u in sign {
    } else if u in n.whole {
    } else if u in RenderFraction(n.fraction) {
    } else {
      assert u in RenderExponent(n.exponent);
    }
  }

  lemma SpaceText(st: Scan, w: Text)
    requires Between(st) && Spaces(w)
    ensures ScanAll(st, w) == st
  {
    PlainText(st, w);
  }

  // ----- Depth -----

  // Reading a tree at depth d raises the peak to d plus the tree's depth and
  // comes back to depth d.
  predicate Rises(st: Scan, s: Text, height: int) {
    ScanAll(st, s) == st.(peak := Max(st.peak, st.depth + height))
  }

  lemma {:induction false} ValueRises(st: Scan, v: Value)
    requires Between(st) && Valid(v)
    ensures Rises(st, Render(v), Depth(v))
    decreases v, 1
  {
    match v {
      case Literal(w) => PlainText(st, RenderWord(w));
      case Number(n) => NumberText(st, n);
      case String(ps) => WholeString(st, ps);
      case Array(gap, items) =>
        ItemsRise(Next(st, OPEN_BRACKET), items);
        Opened(st, OPEN_BRACKET, gap, RenderItems(items));
      case Object(gap, members) =>
        MembersRise(Next(st, OPEN_BRACE), members);
        Opened(st, OPEN_BRACE, gap, RenderMembers(members));
    }
  }

  lemma Opened(st: Scan, open: nat, gap: Text, body: Text)
    requires Between(st) && Spaces(gap) && (open == OPEN_BRACKET || open == OPEN_BRACE)
    ensures ScanAll(st, [open] + gap + body) == ScanAll(Next(st, open), body)
    ensures Between(Next(st, open))
  {
    assert [open] + gap + body == [open] + (gap + body);
    assert ([open] + (gap + body))[1..] == gap + body;
    SpaceText(Next(st, open), gap);
    ScanJoin(Next(st, open), gap, body);
  }

  // Through the closing bracket, so one level out.
  predicate RisesOut(st: Scan, s: Text, height: int) {
    ScanAll(st, s) == st.(peak := Max(st.peak, st.depth + height), depth := st.depth - 1)
  }

  lemma {:induction false} ItemsRise(st: Scan, items: Items)
    requires Between(st) && ValidItems(items)
    ensures RisesOut(st, RenderItems(items), ItemsDepth(items))
    decreases items
  {
    if items.Item? {
      var raised := st.(peak := Max(st.peak, st.depth + Depth(items.value)));
      var tail: Text := if items.rest.NoItems? then [CLOSE_BRACKET] else [COMMA] + RenderItems(items.rest);
      SpaceText(st, items.before);
      ValueRises(st, items.value);
      SpaceText(raised, items.after);
      ItemsRise(raised, items.rest);
      AfterComma(raised, RenderItems(items.rest));
      FourTexts(st, items.before, Render(items.value), items.after, tail);
    }
  }

  lemma AfterComma(st: Scan, s: Text)
    requires Between(st)
    ensures ScanAll(st, [COMMA] + s) == ScanAll(st, s) && ScanAll(st, [COLON] + s) == ScanAll(st, s)
  {
    assert ([COMMA] + s)[1..] == s && ([COLON] + s)[1..] == s;
  }

  lemma FourTexts(st: Scan, a: Text, b: Text, c: Text, d: Text)
    ensures ScanAll(st, a + b + c + d) == ScanAll(ScanAll(ScanAll(ScanAll(st, a), b), c), d)
  {
    ScanJoin(st, a, b);
    ScanJoin(st, a + b, c);
    ScanJoin(st, a + b + c, d);
  }

  function MemberFront(m: Members): Text
    requires m.Member?
  {
    m.lead + RenderString(m.name) + m.colon + [COLON]
  }

  function MemberBack(m: Members): Text
    requires m.Member?
  {
    m.before + Render(m.value) + m.after
    + (if m.rest.NoMembers? then [CLOSE_BRACE] else [COMMA] + RenderMembers(m.rest))
  }

  lemma FrontAndBack(m: Members)
    requires m.Member?
    ensures RenderMembers(m) == MemberFront(m) + MemberBack(m)
  {
    hide Render, RenderString;
  }

  lemma FrontKeeps(st: Scan, m: Members)
    requires Between(st) && m.Member? && ValidMembers(m)
    ensures ScanAll(st, MemberFront(m)) == st
  {
    hide RenderString, ValidPieces, Valid;
    SpaceText(st, m.lead);
    WholeString(st, m.name);
    SpaceText(st, m.colon);
    AfterComma(st, []);
    assert [COLON] + [] == [COLON];
    FourTexts(st, m.lead, RenderString(m.name), m.colon, [COLON]);
  }

  lemma {:induction false} BackRises(st: Scan, m: Members)
    requires Between(st) && m.Member? && ValidMembers(m)
    ensures RisesOut(st, MemberBack(m), MembersDepth(m))
    decreases m, 0
  {
    hide Render, Valid, ValidPieces;
    var raised := st.(peak := Max(st.peak, st.depth + Depth(m.value)));
    var tail: Text := if m.rest.NoMembers? then [CLOSE_BRACE] else [COMMA] + RenderMembers(m.rest);
    SpaceText(st, m.before);
    ValueRises(st, m.value);
    SpaceText(raised, m.after);
    MembersRise(raised, m.rest);
    AfterComma(raised, RenderMembers(m.rest));
    FourTexts(st, m.before, Render(m.value), m.after, tail);
  }

  lemma NoneRises(st: Scan)
    requires Between(st)
    ensures RisesOut(st, RenderMembers(NoMembers), 0)
  {
    assert [CLOSE_BRACE][1..] == [];
  }

  lemma {:induction false} MembersRise(st: Scan, members: Members)
    requires Between(st) && ValidMembers(members)
    ensures RisesOut(st, RenderMembers(members), MembersDepth(members))
    decreases members, 1
  {
    if members.Member? {
      hide RenderMembers, MemberFront, MemberBack;
      FrontAndBack(members);
      FrontKeeps(st, members);
      ScanJoin(st, MemberFront(members), MemberBack(members));
      BackRises(st, members);
    } else {
      NoneRises(st);
    }
  }

  // On every text of the grammar the flat loop's greatest depth is the nesting
  // depth of the syntax tree, and the loop ends outside every bracket.
  lemma PeakIsDepth(d: Document)
    requires ValidDocument(d)
    ensures Peak(RenderDocument(d)) == Depth(d.value)
    ensures ScanAll(Scan(0, false, false, 0), RenderDocument(d)) == Scan(0, false, false, Depth(d.value))
  {
    hide Render, Valid;
    var st := Scan(0, false, false, 0);
    SpaceText(st, d.before);
    ValueRises(st, d.value);
    SpaceText(st.(peak := Depth(d.value)), d.after);
    ScanJoin(st, d.before, Render(d.value));
    ScanJoin(st, d.before + Render(d.value), d.after);
  }
}
