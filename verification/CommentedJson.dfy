// JSON with comments: wherever the grammar allows white space, a comment may stand.
// Stripping such a document gives the same document with its comments blanked, so
// nothing but white space changes and what is left is JSON.
module CommentedJson {
  import opened Envelopes
  import opened JsonGrammar
  import opened Accounting
  import opened JsonCorrectness
  import opened CommentStripper

  // White space and comments. A line comment ends in a line feed, or with the text.
  predicate IsGap(g: Text, last: bool)
    decreases |g|
  {
    if g == [] then true
    else if StartsLine(g) then LineStarts(g); (LineLength(g) < |g| || last) && IsGap(g[LineLength(g)..], last)
    else if StartsBlock(g) then BlockLength(g).Some? && IsGap(g[BlockLength(g).value..], last)
    else IsSpace(g[0]) && IsGap(g[1..], last)
  }

  // What is left of a gap.
  function Blanked(g: Text): Text {
    var r := Strip(g, CODE);
    if r.Some? then r.value else []
  }

  lemma {:induction false} LineInFront(g: Text, s: Text)
    requires LineLength(g) < |g|
    ensures LineLength(g + s) == LineLength(g)
    decreases |g|
  {
    if g[0] != 0x0A {
      assert (g + s)[1..] == g[1..] + s;
      LineInFront(g[1..], s);
    }
  }

  lemma {:induction false} BlockInFront(g: Text, s: Text)
    requires BlockEnd(g).Some?
    ensures BlockEnd(g + s) == BlockEnd(g)
    decreases |g|
  {
    if !(g[0] == STAR && g[1] == SLASH) {
      assert (g + s)[1..] == g[1..] + s;
      BlockInFront(g[1..], s);
    }
  }

  lemma BlockLengthInFront(g: Text, s: Text)
    requires StartsBlock(g) && BlockLength(g).Some?
    ensures StartsBlock(g + s) && BlockLength(g + s) == BlockLength(g)
  {
    assert (g + s)[2..] == g[2..] + s;
    BlockInFront(g[2..], s);
  }

  // A gap in front of a text is blanked, and the text is stripped on its own.
  lemma {:induction false} GapStrips(g: Text, s: Text)
    requires IsGap(g, s == [])
    ensures Strip(g, CODE).Some? && Spaces(Blanked(g)) && |Blanked(g)| == |g|
    ensures Strip(g + s, CODE) == Prepend(Blanked(g), Strip(s, CODE))
    decreases |g|
  {
    hide LineLength, BlockLength, BlockEnd;
    if g == [] {
      assert g + s == s;
      NothingBefore(Strip(s, CODE));
    } else if StartsLine(g) || StartsBlock(g) {
      CommentGap(g, s);
    } else {
      assert (g + s)[1..] == g[1..] + s && (g + s)[0] == g[0];
      GapStrips(g[1..], s);
      PrependJoin([g[0]], Blanked(g[1..]), Strip(s, CODE));
      assert Blanked(g) == [g[0]] + Blanked(g[1..]);
    }
  }

  // The comment at the start of a text, if there is one and it is closed.
  function CommentLength(g: Text): Option<nat> {
    if StartsLine(g) then Some(LineLength(g)) else if StartsBlock(g) then BlockLength(g) else None
  }

  function CommentBlank(g: Text, n: nat): Text
    requires n <= |g|
  {
    if StartsLine(g) then Blank(g[..n]) else BlankBlock(g[..n])
  }

  lemma CommentUnfold(g: Text, n: nat)
    requires CommentLength(g) == Some(n)
    ensures 0 < n <= |g| && Spaces(CommentBlank(g, n)) && |CommentBlank(g, n)| == n
    ensures Strip(g, CODE) == Prepend(CommentBlank(g, n), Strip(g[n..], CODE))
  {
    LineStarts(g);
    hide LineLength, BlockLength;
  }

  lemma CommentInFront(g: Text, n: nat, s: Text)
    requires CommentLength(g) == Some(n) && (StartsLine(g) ==> n < |g| || s == [])
    ensures CommentLength(g + s) == Some(n) && n <= |g|
    ensures CommentBlank(g + s, n) == CommentBlank(g, n) && (g + s)[n..] == g[n..] + s
  {
    CommentUnfold(g, n);
    assert (g + s)[..n] == g[..n];
    assert (g + s)[0] == g[0] && (g + s)[1] == g[1];
    if StartsBlock(g) {
      BlockLengthInFront(g, s);
    } else if n < |g| {
      LineInFront(g, s);
    } else {
      assert g + s == g;
    }
    hide LineLength, BlockLength;
  }

  lemma CommentGap(g: Text, s: Text)
    requires IsGap(g, s == []) && g != [] && (StartsLine(g) || StartsBlock(g))
    ensures Strip(g, CODE).Some? && Spaces(Blanked(g)) && |Blanked(g)| == |g|
    ensures Strip(g + s, CODE) == Prepend(Blanked(g), Strip(s, CODE))
    decreases |g|, 0
  {
    hide LineLength, BlockLength, Strip;
    var n := CommentLength(g).value;
    CommentUnfold(g, n);
    GapStrips(g[n..], s);
    CommentInFront(g, n, s);
    CommentUnfold(g + s, n);
    assert Blanked(g) == CommentBlank(g, n) + Blanked(g[n..]);
    PrependJoin(CommentBlank(g, n), Blanked(g[n..]), Strip(s, CODE));
  }

  lemma {:induction false} SpacesAreGaps(w: Text, last: bool)
    requires Spaces(w)
    ensures IsGap(w, last) && Blanked(w) == w
    decreases |w|
  {
    if w != [] {
      SpacesAreGaps(w[1..], last);
      assert w == [w[0]] + w[1..];
    }
  }

  // ----- Text that holds no comment -----

  lemma {:induction false} PlainText(p: Text, s: Text)
    requires forall i :: 0 <= i < |p| ==> p[i] != CommentStripper.QUOTE && p[i] != SLASH
    ensures Strip(p + s, CODE) == Prepend(p, Strip(s, CODE))
    decreases |p|
  {
    if p == [] {
      assert p + s == s;
      NothingBefore(Strip(s, CODE));
    } else {
      assert (p + s)[1..] == p[1..] + s;
      PlainText(p[1..], s);
      PrependJoin([p[0]], p[1..], Strip(s, CODE));
      assert p == [p[0]] + p[1..];
    }
  }

  const INSIDE := State(true, false)

  lemma {:induction false} HexText(digits: Text, s: Text)
    requires forall i :: 0 <= i < |digits| ==> IsHex(digits[i])
    ensures Strip(digits + s, INSIDE) == Prepend(digits, Strip(s, INSIDE))
    decreases |digits|
  {
    if digits == [] {
      assert digits + s == s;
      NothingBefore(Strip(s, INSIDE));
    } else {
      assert (digits + s)[1..] == digits[1..] + s;
      HexText(digits[1..], s);
      PrependJoin([digits[0]], digits[1..], Strip(s, INSIDE));
      assert digits == [digits[0]] + digits[1..];
    }
  }

  lemma TwoUnits(a: nat, b: nat, s: Text)
    requires a == JsonGrammar.BACKSLASH
    ensures Strip([a, b] + s, INSIDE) == Prepend([a, b], Strip(s, INSIDE))
  {
    var t := [a, b] + s;
    assert t[1..] == [b] + s && ([b] + s)[1..] == s;
    PrependJoin([a], [b], Strip(s, INSIDE));
    assert [a] + [b] == [a, b];
  }

  lemma OnePiece(p: Piece, s: Text)
    requires ValidPiece(p)
    ensures Strip(RenderPiece(p) + s, INSIDE) == Prepend(RenderPiece(p), Strip(s, INSIDE))
  {
    match p {
      case Raw(u) => assert ([u] + s)[1..] == s;
      case Escape(letter) => TwoUnits(JsonGrammar.BACKSLASH, letter, s);
      case Unicode(digits) =>
        var head := [JsonGrammar.BACKSLASH, LOWER_U];
        assert RenderPiece(p) + s == head + (digits + s);
        TwoUnits(JsonGrammar.BACKSLASH, LOWER_U, digits + s);
        HexText(digits, s);
        PrependJoin(head, digits, Strip(s, INSIDE));
    }
  }

  lemma {:induction false} InsideString(ps: seq<Piece>, s: Text)
    requires ValidPieces(ps)
    ensures Strip(RenderPieces(ps) + s, INSIDE) == Prepend(RenderPieces(ps), Strip(s, INSIDE))
    decreases |ps|
  {
    hide RenderPiece;
    if ps == [] {
      assert RenderPieces(ps) + s == s;
      NothingBefore(Strip(s, INSIDE));
    } else {
      var more := RenderPieces(ps[1..]) + s;
      Join3(RenderPiece(ps[0]), RenderPieces(ps[1..]), s);
      OnePiece(ps[0], more);
      InsideString(ps[1..], s);
      PrependJoin(RenderPiece(ps[0]), RenderPieces(ps[1..]), Strip(s, INSIDE));
    }
  }

  // A string literal is kept whole, whatever it holds.
  lemma WholeString(ps: seq<Piece>, s: Text)
    requires ValidPieces(ps)
    ensures Strip(RenderString(ps) + s, CODE) == Prepend(RenderString(ps), Strip(s, CODE))
  {
    var body := RenderPieces(ps);
    var quote: Text := [JsonGrammar.QUOTE];
    assert RenderString(ps) + s == quote + (body + (quote + s));
    assert (quote + (body + (quote + s)))[1..] == body + (quote + s);
    assert (quote + s)[1..] == s;
    InsideString(ps, quote + s);
    PrependJoin(body, quote, Strip(s, CODE));
    PrependJoin(quote, body + quote, Strip(s, CODE));
    assert quote + (body + quote) == RenderString(ps);
  }

  lemma NumeralPlain(n: Numeral)
    requires ValidNumeral(n)
    ensures forall i :: 0 <= i < |RenderNumeral(n)| ==>
              RenderNumeral(n)[i] != CommentStripper.QUOTE && RenderNumeral(n)[i] != SLASH
  {
    var sign: Text := if n.minus then [MINUS] else [];
    forall i | 0 <= i < |RenderNumeral(n)|
      ensures RenderNumeral(n)[i] != CommentStripper.QUOTE && RenderNumeral(n)[i] != SLASH
    {
      var u := RenderNumeral(n)[i];
      assert u in sign || u in n.whole || u in RenderFraction(n.fraction) || u in RenderExponent(n.exponent);
    }
  }

  // ----- Documents with comments -----

  predicate Commented(v: Value) {
    match v
    case Literal(_) => true
    case Number(n) => ValidNumeral(n)
    case String(ps) => ValidPieces(ps)
    case Array(gap, items) => IsGap(gap, false) && (items.Item? ==> gap == []) && CommentedItems(items)
    case Object(gap, members) => IsGap(gap, false) && (members.Member? ==> gap == []) && CommentedMembers(members)
  }

  predicate CommentedItems(items: Items) {
    match items
    case NoItems => true
    case Item(before, value, after, rest) =>
      IsGap(before, false) && Commented(value) && IsGap(after, false) && CommentedItems(rest)
  }

  predicate CommentedMembers(members: Members) {
    match members
    case NoMembers => true
    case Member(lead, name, colon, before, value, after, rest) =>
      && IsGap(lead, false) && ValidPieces(name) && IsGap(colon, false) && IsGap(before, false)
      && Commented(value) && IsGap(after, false) && CommentedMembers(rest)
  }

  predicate CommentedDocument(d: Document) {
    IsGap(d.before, false) && Commented(d.value) && IsGap(d.after, true)
  }

  // The same tree with its comments blanked.
  function Uncommented(v: Value): Value {
    match v
    case Array(gap, items) => Array(Blanked(gap), UncommentedItems(items))
    case Object(gap, members) => Object(Blanked(gap), UncommentedMembers(members))
    case _ => v
  }

  function UncommentedItems(items: Items): Items {
    match items
    case NoItems => NoItems
    case Item(before, value, after, rest) =>
      Item(Blanked(before), Uncommented(value), Blanked(after), UncommentedItems(rest))
  }

  function UncommentedMembers(members: Members): Members {
    match members
    case NoMembers => NoMembers
    case Member(lead, name, colon, before, value, after, rest) =>
      Member(Blanked(lead), name, Blanked(colon), Blanked(before), Uncommented(value), Blanked(after),
             UncommentedMembers(rest))
  }

  function UncommentedDocument(d: Document): Document {
    Document(Blanked(d.before), Uncommented(d.value), Blanked(d.after))
  }

  // Stripping text in front of s gives `kept` in front of what s gives.
  ghost predicate StripsTo(text: Text, kept: Text, s: Text) {
    Strip(text + s, CODE) == Prepend(kept, Strip(s, CODE))
  }

  lemma Chain(a: Text, keptA: Text, b: Text, keptB: Text, s: Text)
    requires StripsTo(a, keptA, b + s) && StripsTo(b, keptB, s)
    ensures StripsTo(a + b, keptA + keptB, s)
  {
    hide Strip;
    Join3(a, b, s);
    PrependJoin(keptA, keptB, Strip(s, CODE));
  }

  lemma GapStripsTo(g: Text, s: Text)
    requires IsGap(g, false)
    ensures StripsTo(g, Blanked(g), s) && Spaces(Blanked(g))
  {
    GapEverywhere(g);
    GapStrips(g, s);
  }

  lemma {:induction false} GapEverywhere(g: Text)
    requires IsGap(g, false)
    ensures IsGap(g, true)
    decreases |g|
  {
    hide LineLength, BlockLength;
    if g != [] {
      LineStarts(g);
      GapEverywhere(g[if StartsLine(g) then LineLength(g) else if StartsBlock(g) then BlockLength(g).value else 1..]);
    }
  }

  lemma Mark(u: nat, s: Text)
    requires u != CommentStripper.QUOTE && u != SLASH
    ensures StripsTo([u], [u], s)
  {
    PlainText([u], s);
  }

  lemma {:induction false} ValueStrips(v: Value, s: Text)
    requires Commented(v)
    ensures StripsTo(Render(v), Render(Uncommented(v)), s) && Valid(Uncommented(v))
    decreases v, 0
  {
    hide Strip, IsGap, Blanked;
    match v {
      case Literal(w) =>
        PlainText(RenderWord(w), s);
      case Number(n) =>
        NumeralPlain(n);
        PlainText(RenderNumeral(n), s);
      case String(ps) => WholeString(ps, s);
      case Array(gap, items) =>
        hide RenderItems;
        ItemsStrip(items, s);
        Bracket(OPEN_BRACKET, gap, RenderItems(items), RenderItems(UncommentedItems(items)), s);
        EmptyGap();
      case Object(gap, members) =>
        hide RenderMembers;
        MembersStrip(members, s);
        Bracket(OPEN_BRACE, gap, RenderMembers(members), RenderMembers(UncommentedMembers(members)), s);
        EmptyGap();
    }
  }

  lemma EmptyGap()
    ensures Blanked([]) == []
  {
  }

  lemma Bracket(open: nat, gap: Text, body: Text, kept: Text, s: Text)
    requires IsGap(gap, false) && StripsTo(body, kept, s) && open != CommentStripper.QUOTE && open != SLASH
    ensures StripsTo([open] + gap + body, [open] + Blanked(gap) + kept, s) && Spaces(Blanked(gap))
  {
    hide Strip, IsGap, Blanked;
    GapStripsTo(gap, body + s);
    Mark(open, gap + (body + s));
    Chain([open], [open], gap, Blanked(gap), body + s);
    Chain([open] + gap, [open] + Blanked(gap), body, kept, s);
  }

  lemma {:induction false} ItemsStrip(items: Items, s: Text)
    requires CommentedItems(items)
    ensures StripsTo(RenderItems(items), RenderItems(UncommentedItems(items)), s)
    ensures ValidItems(UncommentedItems(items)) && (items.NoItems? <==> UncommentedItems(items).NoItems?)
    decreases items
  {
    hide Strip, IsGap, Blanked, Render, Commented, Uncommented, Valid, StripsTo;
    Mark(CLOSE_BRACKET, s);
    if items.Item? {
      var tail: Text := if items.rest.NoItems? then [CLOSE_BRACKET] else [COMMA] + RenderItems(items.rest);
      var keptTail: Text :=
        if items.rest.NoItems? then [CLOSE_BRACKET] else [COMMA] + RenderItems(UncommentedItems(items.rest));
      ItemsStrip(items.rest, s);
      Mark(COMMA, RenderItems(items.rest) + s);
      Chain([COMMA], [COMMA], RenderItems(items.rest), RenderItems(UncommentedItems(items.rest)), s);
      assert StripsTo(tail, keptTail, s);
      Element(items.before, items.value, items.after, tail, keptTail, s);
    }
  }

  // A value between gaps, in front of what follows it.
  lemma Element(before: Text, v: Value, after: Text, tail: Text, keptTail: Text, s: Text)
    requires IsGap(before, false) && Commented(v) && IsGap(after, false) && StripsTo(tail, keptTail, s)
    ensures StripsTo(before + Render(v) + after + tail,
                     Blanked(before) + Render(Uncommented(v)) + Blanked(after) + keptTail, s)
    ensures Spaces(Blanked(before)) && Spaces(Blanked(after)) && Valid(Uncommented(v))
    decreases v, 1
  {
    hide Strip, IsGap, Blanked, Render, Commented, Uncommented, Valid, StripsTo;
    GapStripsTo(after, tail + s);
    Chain(after, Blanked(after), tail, keptTail, s);
    ValueStrips(v, (after + tail) + s);
    Chain(Render(v), Render(Uncommented(v)), after + tail, Blanked(after) + keptTail, s);
    GapStripsTo(before, (Render(v) + (after + tail)) + s);
    Chain(before, Blanked(before), Render(v) + (after + tail), Render(Uncommented(v)) + (Blanked(after) + keptTail), s);
    Join4(before, Render(v), after, tail);
    Join4(Blanked(before), Render(Uncommented(v)), Blanked(after), keptTail);
  }

  lemma Join4(a: Text, b: Text, c: Text, d: Text)
    ensures a + (b + (c + d)) == a + b + c + d
  {
  }

  lemma {:induction false} MembersStrip(members: Members, s: Text)
    requires CommentedMembers(members)
    ensures StripsTo(RenderMembers(members), RenderMembers(UncommentedMembers(members)), s)
    ensures ValidMembers(UncommentedMembers(members))
    ensures members.NoMembers? <==> UncommentedMembers(members).NoMembers?
    decreases members
  {
    hide Strip, IsGap, Blanked, Render, RenderString, Commented, Uncommented, Valid, StripsTo, ValidPieces;
    Mark(CLOSE_BRACE, s);
    if members.Member? {
      var m, u := members, UncommentedMembers(members);
      var tail: Text := if m.rest.NoMembers? then [CLOSE_BRACE] else [COMMA] + RenderMembers(m.rest);
      var keptTail: Text := if m.rest.NoMembers? then [CLOSE_BRACE] else [COMMA] + RenderMembers(u.rest);
      MembersStrip(m.rest, s);
      Mark(COMMA, RenderMembers(m.rest) + s);
      Chain([COMMA], [COMMA], RenderMembers(m.rest), RenderMembers(u.rest), s);
      assert StripsTo(tail, keptTail, s);
      Element(m.before, m.value, m.after, tail, keptTail, s);
      var back := m.before + Render(m.value) + m.after + tail;
      Name(m.lead, m.name, m.colon, back + s);
      var front := m.lead + RenderString(m.name) + m.colon + [COLON];
      var keptFront := u.lead + RenderString(u.name) + u.colon + [COLON];
      Chain(front, keptFront, back, u.before + Render(u.value) + u.after + keptTail, s);
      TwoParts(m);
      TwoParts(u);
    }
  }

  lemma TwoParts(m: Members)
    requires m.Member?
    ensures RenderMembers(m) == (m.lead + RenderString(m.name) + m.colon + [COLON])
      + (m.before + Render(m.value) + m.after
         + (if m.rest.NoMembers? then [CLOSE_BRACE] else [COMMA] + RenderMembers(m.rest)))
  {
    hide Render, RenderString;
  }

  // A name between gaps, and the colon.
  lemma Name(lead: Text, name: seq<Piece>, colon: Text, s: Text)
    requires IsGap(lead, false) && ValidPieces(name) && IsGap(colon, false)
    ensures StripsTo(lead + RenderString(name) + colon + [COLON],
                     Blanked(lead) + RenderString(name) + Blanked(colon) + [COLON], s)
    ensures Spaces(Blanked(lead)) && Spaces(Blanked(colon))
  {
    hide Strip, IsGap, Blanked, RenderString, ValidPieces, StripsTo;
    Mark(COLON, s);
    GapStripsTo(colon, [COLON] + s);
    Chain(colon, Blanked(colon), [COLON], [COLON], s);
    StringStripsTo(name, (colon + [COLON]) + s);
    Chain(RenderString(name), RenderString(name), colon + [COLON], Blanked(colon) + [COLON], s);
    GapStripsTo(lead, (RenderString(name) + (colon + [COLON])) + s);
    Chain(lead, Blanked(lead), RenderString(name) + (colon + [COLON]),
          RenderString(name) + (Blanked(colon) + [COLON]), s);
    Join4(lead, RenderString(name), colon, [COLON]);
    Join4(Blanked(lead), RenderString(name), Blanked(colon), [COLON]);
  }

  lemma StringStripsTo(ps: seq<Piece>, s: Text)
    requires ValidPieces(ps)
    ensures StripsTo(RenderString(ps), RenderString(ps), s)
  {
    WholeString(ps, s);
  }

  // Stripping a document with comments gives the same document with them blanked,
  // which is a document of the grammar.
  lemma CommentedDocumentStrips(d: Document)
    requires CommentedDocument(d)
    ensures ValidDocument(UncommentedDocument(d))
    ensures Strip(RenderDocument(d), CODE) == Some(RenderDocument(UncommentedDocument(d)))
  {
    hide IsGap, Render, Commented, Uncommented, Valid;
    var v, u := Render(d.value), Render(Uncommented(d.value));
    GapStrips(d.after, []);
    assert d.after + [] == d.after && Strip([], CODE) == Some([]);
    assert Strip(d.after, CODE) == Some(Blanked(d.after));
    ValueStrips(d.value, d.after);
    GapStripsTo(d.before, v + d.after);
    Join3(d.before, v, d.after);
    Join3(Blanked(d.before), u, Blanked(d.after));
    hide Strip, Blanked;
  }

  // ----- JSON without comments -----

  lemma {:induction false} ValidIsCommented(v: Value)
    requires Valid(v)
    ensures Commented(v) && Uncommented(v) == v
    decreases v
  {
    hide IsGap, Blanked;
    match v {
      case Array(gap, items) =>
        SpacesAreGaps(gap, false);
        ValidItemsCommented(items);
      case Object(gap, members) =>
        SpacesAreGaps(gap, false);
        ValidMembersCommented(members);
      case _ =>
    }
  }

  lemma {:induction false} ValidItemsCommented(items: Items)
    requires ValidItems(items)
    ensures CommentedItems(items) && UncommentedItems(items) == items
    decreases items
  {
    if items.Item? {
      hide IsGap, Blanked, Valid, Commented, Uncommented;
      SpacesAreGaps(items.before, false);
      SpacesAreGaps(items.after, false);
      ValidIsCommented(items.value);
      ValidItemsCommented(items.rest);
    }
  }

  lemma {:induction false} ValidMembersCommented(members: Members)
    requires ValidMembers(members)
    ensures CommentedMembers(members) && UncommentedMembers(members) == members
    decreases members
  {
    if members.Member? {
      hide IsGap, Blanked, Valid, Commented, Uncommented, ValidPieces;
      SpacesAreGaps(members.lead, false);
      SpacesAreGaps(members.colon, false);
      SpacesAreGaps(members.before, false);
      SpacesAreGaps(members.after, false);
      ValidIsCommented(members.value);
      ValidMembersCommented(members.rest);
    }
  }

  // JSON without comments is left exactly as it is, even where its strings hold
  // what would open one.
  lemma PlainJsonUnchanged(d: Document)
    requires ValidDocument(d)
    ensures Strip(RenderDocument(d), CODE) == Some(RenderDocument(d))
  {
    hide IsGap, Blanked, Commented, Uncommented, Valid, Strip, Render;
    SpacesAreGaps(d.before, false);
    SpacesAreGaps(d.after, true);
    ValidIsCommented(d.value);
    CommentedDocumentStrips(d);
  }
}
