// inspectJSON accepts a text exactly when it is RFC 8259 JSON within the wire
// constraints: soundness and completeness of the recogniser, by induction over
// its calls and over the grammar.
module JsonCorrectness {
  import opened Envelopes
  import opened JsonGrammar
  import opened Accounting
  import opened JsonParser

  // ----- Reassociation -----

  lemma Join3(a: Text, b: Text, c: Text)
    ensures a + (b + c) == a + b + c
  {
  }

  function ItemsTail(items: Items, rest: Text): Text {
    (if items.NoItems? then [CLOSE_BRACKET] else [COMMA] + RenderItems(items)) + rest
  }

  function MembersTail(members: Members, rest: Text): Text {
    (if members.NoMembers? then [CLOSE_BRACE] else [COMMA] + RenderMembers(members)) + rest
  }

  lemma RenderItemThen(items: Items, rest: Text)
    requires items.Item?
    ensures RenderItems(items) + rest
         == items.before + (Render(items.value) + (items.after + ItemsTail(items.rest, rest)))
  {
  }

  lemma Join8(a: Text, b: Text, c: Text, d: Text, e: Text, f: Text, g: Text, h: Text, rest: Text)
    ensures a + b + c + d + e + f + g + h + rest == a + (b + (c + (d + (e + (f + (g + (h + rest)))))))
  {
  }

  lemma RenderMemberThen(members: Members, rest: Text)
    requires members.Member?
    ensures RenderMembers(members) + rest
         == members.lead + (RenderString(members.name) + (members.colon + ([COLON]
            + (members.before + (Render(members.value) + (members.after + MembersTail(members.rest, rest)))))))
  {
    hide Render, RenderString;
    Join8(members.lead, RenderString(members.name), members.colon, [COLON], members.before, Render(members.value),
          members.after, if members.rest.NoMembers? then [CLOSE_BRACE] else [COMMA] + RenderMembers(members.rest),
          rest);
  }

  // ----- Strings -----

  lemma {:induction false} PiecesSound(s: Text)
    requires ParsePieces(s).Ok?
    ensures s == RenderPieces(ParsePieces(s).tree) + ([QUOTE] + ParsePieces(s).rest)
  {
    var ps, rest := ParsePieces(s).tree, ParsePieces(s).rest;
    if s[0] == QUOTE {
      assert s == [QUOTE] + rest;
    } else {
      var n := if s[0] == BACKSLASH then (if s[1] == LOWER_U then 6 else 2) else 1;
      PiecesSound(s[n..]);
      assert ps == [ps[0]] + ParsePieces(s[n..]).tree;
      assert s == s[..n] + s[n..];
      assert s[..n] == RenderPiece(ps[0]);
      assert ps[1..] == ParsePieces(s[n..]).tree;
      Join3(RenderPiece(ps[0]), RenderPieces(ps[1..]), [QUOTE] + rest);
    }
  }

  lemma OnePiece(p: Piece, more: Text)
    requires ValidPiece(p)
    ensures ParsePieces(RenderPiece(p) + more) == Cons(p, ParsePieces(more))
  {
    var s := RenderPiece(p) + more;
    match p {
      case Raw(u) =>
        assert s[0] == u && s[1..] == more;
      case Escape(letter) =>
        assert s[0] == BACKSLASH && s[1] == letter && s[2..] == more;
      case Unicode(digits) =>
        assert s[0] == BACKSLASH && s[1] == LOWER_U && s[2..6] == digits && s[6..] == more;
        assert s[2] == digits[0] && s[3] == digits[1] && s[4] == digits[2] && s[5] == digits[3];
    }
  }

  lemma {:induction false} PiecesComplete(ps: seq<Piece>, rest: Text)
    requires ValidPieces(ps)
    ensures ParsePieces(RenderPieces(ps) + ([QUOTE] + rest)) == Ok(ps, rest)
  {
    var end := [QUOTE] + rest;
    if ps == [] {
      assert RenderPieces(ps) + end == end;
      assert end[1..] == rest;
    } else {
      hide ParsePieces, RenderPiece;
      PiecesComplete(ps[1..], rest);
      Join3(RenderPiece(ps[0]), RenderPieces(ps[1..]), end);
      OnePiece(ps[0], RenderPieces(ps[1..]) + end);
      assert ps == [ps[0]] + ps[1..];
    }
  }

  lemma StringSound(s: Text)
    requires ParseString(s).Ok?
    ensures s == RenderString(ParseString(s).tree) + ParseString(s).rest
    ensures ScalarString(Decode(ParseString(s).tree))
  {
    hide RenderPieces, ParsePieces, Decode, ScalarString, ValidPieces;
    var ps, rest := ParseString(s).tree, ParseString(s).rest;
    PiecesSound(s[1..]);
    assert s == [QUOTE] + s[1..];
    Join3([QUOTE], RenderPieces(ps), [QUOTE] + rest);
    Join3([QUOTE] + RenderPieces(ps), [QUOTE], rest);
  }

  lemma StringComplete(ps: seq<Piece>, rest: Text)
    requires ValidPieces(ps)
    ensures ParseString(RenderString(ps) + rest) == if ScalarString(Decode(ps)) then Ok(ps, rest) else Fail
  {
    var s := RenderString(ps) + rest;
    hide ParsePieces, RenderPieces, ScalarString, Decode;
    PiecesComplete(ps, rest);
    assert s == [QUOTE] + (RenderPieces(ps) + ([QUOTE] + rest));
    assert s[1..] == RenderPieces(ps) + ([QUOTE] + rest);
  }

  // ----- Numbers -----

  // What may follow a value: nothing that could extend a number.
  predicate Follows(s: Text) {
    s == [] || (!IsDigit(s[0]) && s[0] != DOT && s[0] != 0x65 && s[0] != 0x45)
  }

  predicate StopsDigits(s: Text) {
    s == [] || !IsDigit(s[0])
  }

  lemma {:induction false} LeadDigitsOf(d: Text, s: Text)
    requires AllDigits(d) && StopsDigits(s)
    ensures LeadDigits(d + s) == d && (d + s)[|d|..] == s
  {
    if d == [] {
      assert d + s == s;
    } else {
      assert (d + s)[1..] == d[1..] + s;
      LeadDigitsOf(d[1..], s);
    }
  }

  lemma WholeComplete(whole: Text, s: Text)
    requires ValidWhole(whole) && StopsDigits(s)
    ensures ParseWhole(whole + s) == Ok(whole, s)
  {
    LeadDigitsOf(whole, s);
    if whole[0] == ZERO {
      assert whole == [ZERO];
    }
  }

  lemma FractionComplete(fraction: Text, s: Text)
    requires AllDigits(fraction) && StopsDigits(s) && (s != [] ==> s[0] != DOT)
    ensures ParseFraction(RenderFraction(fraction) + s) == (fraction, s)
    ensures StopsDigits(RenderFraction(fraction) + s)
  {
    var t := RenderFraction(fraction) + s;
    if fraction == [] {
      assert t == s;
    } else {
      assert t[1..] == fraction + s;
      LeadDigitsOf(fraction, s);
      assert t[1 + |fraction|..] == s;
    }
  }

  lemma ExponentComplete(e: Exponent, s: Text)
    requires ValidExponent(e) && Follows(s)
    ensures ParseExponent(RenderExponent(e) + s) == (e, s)
    ensures StopsDigits(RenderExponent(e) + s)
    ensures RenderExponent(e) + s != [] ==> (RenderExponent(e) + s)[0] != DOT
  {
    var t := RenderExponent(e) + s;
    match e {
      case NoExponent => assert t == s;
      case Exponent(marker, sign, digits) => MarkedExponent(marker, sign, digits, s);
    }
  }

  lemma ExponentText(marker: nat, sign: Text, digits: Text, s: Text)
    ensures var t := RenderExponent(Exponent(marker, sign, digits)) + s;
            t != [] && t[0] == marker && t[1..] == sign + (digits + s)
  {
    assert [marker] + sign + digits + s == [marker] + (sign + (digits + s));
    assert ([marker] + (sign + (digits + s)))[1..] == sign + (digits + s);
  }

  // An exponent read after its marker.
  lemma ExponentRead(t: Text, sign: Text, digits: Text, s: Text)
    requires t != [] && (t[0] == 0x65 || t[0] == 0x45) && t[1..] == sign + (digits + s) && digits != []
    requires LeadSign(t[1..]) == sign && t[1..][|sign|..] == digits + s
    requires LeadDigits(digits + s) == digits && (digits + s)[|digits|..] == s
    ensures ParseExponent(t) == (Exponent(t[0], sign, digits), s)
  {
    hide LeadDigits, LeadSign;
  }

  lemma MarkedExponent(marker: nat, sign: Text, digits: Text, s: Text)
    requires ValidExponent(Exponent(marker, sign, digits)) && StopsDigits(s)
    ensures var t := RenderExponent(Exponent(marker, sign, digits)) + s;
            t[0] == marker && ParseExponent(t) == (Exponent(marker, sign, digits), s)
  {
    hide LeadDigits, LeadSign, RenderExponent, ParseExponent;
    ExponentText(marker, sign, digits, s);
    LeadDigitsOf(digits, s);
    assert (digits + s)[0] == digits[0];
    SignComplete(sign, digits + s);
    ExponentRead(RenderExponent(Exponent(marker, sign, digits)) + s, sign, digits, s);
  }

  lemma SignComplete(sign: Text, tail: Text)
    requires sign == [] || sign == [PLUS] || sign == [MINUS]
    requires tail != [] && IsDigit(tail[0])
    ensures LeadSign(sign + tail) == sign && (sign + tail)[|sign|..] == tail
  {
    if sign == [] {
      assert sign + tail == tail;
    }
  }

  lemma NumeralComplete(n: Numeral, s: Text)
    requires ValidNumeral(n) && Follows(s)
    ensures ParseNumeral(RenderNumeral(n) + s) == Ok(n, s)
  {
    hide ParseWhole, ParseFraction, ParseExponent, RenderFraction, RenderExponent;
    var sign: Text := if n.minus then [MINUS] else [];
    var t3 := RenderExponent(n.exponent) + s;
    var t2 := RenderFraction(n.fraction) + t3;
    var t1 := n.whole + t2;
    Regroup(sign, n.whole, RenderFraction(n.fraction), RenderExponent(n.exponent), s);
    assert RenderNumeral(n) + s == sign + t1;
    ExponentComplete(n.exponent, s);
    FractionComplete(n.fraction, t3);
    WholeComplete(n.whole, t2);
    assert t1[0] == n.whole[0];
    if n.minus {
      assert (sign + t1)[1..] == t1;
    } else {
      assert sign + t1 == t1;
    }
  }

  lemma WordComplete(w: Word, s: Text)
    ensures ParseWord(RenderWord(w) + s) == Ok(w, s)
  {
    var t := RenderWord(w) + s;
    assert t[..|RenderWord(w)|] == RenderWord(w) && t[|RenderWord(w)|..] == s;
    assert t[0] == RenderWord(w)[0];
  }

  // The first unit of a value decides its kind, and is not white space.
  lemma FirstUnit(v: Value, s: Text)
    requires Valid(v)
    ensures var t := Render(v) + s;
            && t != [] && !IsSpace(t[0])
            && (t[0] == OPEN_BRACE <==> v.Object?)
            && (t[0] == OPEN_BRACKET <==> v.Array?)
            && (t[0] == QUOTE <==> v.String?)
            && t[0] != CLOSE_BRACKET
            && (v.Number? ==> ParseWord(t).Fail?)
  {
    var t := Render(v) + s;
    match v {
      case Literal(w) => assert t[0] == RenderWord(w)[0];
      case Number(n) =>
        Body(n);
        assert t[0] == RenderNumeral(n)[0];
        assert !n.minus ==> t[0] == n.whole[0];
      case _ =>
    }
  }

  // ----- Soundness -----

  // The texts between the parts of a parsed list element.
  datatype Steps = Steps(afterName: Text, afterColon: Text, afterValue: Text, end: Text)

  ghost function MemberSteps(s: Text, path: seq<Text>, depth: nat): Steps {
    var s1 := if ParseString(Skip(s)).Ok? then ParseString(Skip(s)).rest else [];
    var name := if ParseString(Skip(s)).Ok? then Decode(ParseString(Skip(s)).tree) else [];
    var s3 := if Skip(s1) == [] then [] else Skip(s1)[1..];
    var parsed := ParseValue(Skip(s3), path + [name], depth);
    var s4 := if parsed.Ok? then parsed.rest else [];
    Steps(s1, s3, s4, Skip(s4))
  }

  lemma MembersUnfold(s: Text, path: seq<Text>, depth: nat, seen: set<Text>)
    ensures ParseMembers(s, path, depth, seen).Ok? ==>
            var m, rest := ParseMembers(s, path, depth, seen).tree, ParseMembers(s, path, depth, seen).rest;
            var st := MemberSteps(s, path, depth);
            && ParseString(Skip(s)) == Ok(m.name, st.afterName)
            && Skip(st.afterName) == [COLON] + st.afterColon
            && ParseValue(Skip(st.afterColon), path + [Decode(m.name)], depth) == Ok(m.value, st.afterValue)
            && m == Member(Lead(s), m.name, Lead(st.afterName), Lead(st.afterColon), m.value, Lead(st.afterValue),
                           m.rest)
            && Decode(m.name) !in seen
            && st.end == Skip(st.afterValue) && st.end != []
            && (|| (m.rest.NoMembers? && st.end == [CLOSE_BRACE] + rest)
                || (m.rest.Member? && st.end[0] == COMMA
                    && ParseMembers(st.end[1..], path, depth, seen + {Decode(m.name)}) == Ok(m.rest, rest)))
            && |Skip(st.afterColon)| < |s| && |st.end| < |s|
  {
    hide ParseString, Lead, Skip, ParseValue, Decode, ValidPieces, IsSpace;
    var st := MemberSteps(s, path, depth);
    SkipShortens(s);
    SkipShortens(st.afterName);
    SkipShortens(st.afterColon);
    SkipShortens(st.afterValue);
    HeadAndTail(Skip(st.afterName));
    HeadAndTail(st.end);
  }

  lemma SkipShortens(s: Text)
    ensures |Skip(s)| <= |s|
  {
  }

  lemma HeadAndTail(s: Text)
    ensures s != [] ==> s == [s[0]] + s[1..]
  {
  }

  ghost function ItemSteps(s: Text, path: seq<Text>, index: nat, depth: nat): Steps {
    var parsed := ParseValue(Skip(s), path + [Decimal(index)], depth);
    var s1 := if parsed.Ok? then parsed.rest else [];
    Steps([], [], s1, Skip(s1))
  }

  lemma ItemsUnfold(s: Text, path: seq<Text>, index: nat, depth: nat)
    ensures ParseItems(s, path, index, depth).Ok? ==>
            var items, rest := ParseItems(s, path, index, depth).tree, ParseItems(s, path, index, depth).rest;
            var st := ItemSteps(s, path, index, depth);
            && ParseValue(Skip(s), path + [Decimal(index)], depth) == Ok(items.value, st.afterValue)
            && items == Item(Lead(s), items.value, Lead(st.afterValue), items.rest)
            && st.end == Skip(st.afterValue) && st.end != []
            && (|| (items.rest.NoItems? && st.end == [CLOSE_BRACKET] + rest)
                || (items.rest.Item? && st.end[0] == COMMA
                    && ParseItems(st.end[1..], path, index + 1, depth) == Ok(items.rest, rest)))
            && |st.end| < |s|
  {
    hide Lead, Skip, Decimal, ParseValue, IsSpace;
    var st := ItemSteps(s, path, index, depth);
    SkipShortens(s);
    SkipShortens(st.afterValue);
    HeadAndTail(st.end);
  }

  lemma {:induction false} ValueSound(s: Text, path: seq<Text>, depth: nat)
    requires depth <= MAX_DEPTH && ParseValue(s, path, depth).Ok?
    ensures var v := ParseValue(s, path, depth).tree;
            s == Render(v) + ParseValue(s, path, depth).rest && Admissible(v, path, depth)
    decreases |s|, 1
  {
    hide ParseMembers, ParseItems, ParseString, ParseWord, ParseNumeral, TypeScriptCounter, Skip;
    if s[0] == OPEN_BRACE {
      ObjectSound(s, path, depth);
    } else if s[0] == OPEN_BRACKET {
      ArraySound(s, path, depth);
    } else if s[0] == QUOTE {
      StringSound(s);
    } else if ParseWord(s).Fail? {
      FourCountersAgree(ParseNumeral(s).tree);
    }
  }

  lemma BracketsSound(open: nat, close: nat, s: Text)
    requires s != [] && s[0] == open && Skip(s[1..]) != [] && Skip(s[1..])[0] == close
    ensures s == [open] + Lead(s[1..]) + [close] + Skip(s[1..])[1..]
  {
    var t := s[1..];
    LeadAndSkip(t);
    assert s == [open] + t;
    assert Skip(t) == [close] + Skip(t)[1..];
  }

  lemma ArraySound(s: Text, path: seq<Text>, depth: nat)
    requires depth <= MAX_DEPTH && s != [] && s[0] == OPEN_BRACKET && ParseValue(s, path, depth).Ok?
    ensures var v := ParseValue(s, path, depth).tree;
            s == Render(v) + ParseValue(s, path, depth).rest && Admissible(v, path, depth)
    decreases |s|, 0
  {
    hide ParseItems, ParseMembers, Skip, RenderItems;
    var t := s[1..];
    assert s == [OPEN_BRACKET] + t;
    if Skip(t) != [] && Skip(t)[0] == CLOSE_BRACKET {
      BracketsSound(OPEN_BRACKET, CLOSE_BRACKET, s);
      EmptyLists(path, 0, depth + 1, {});
      Join3([OPEN_BRACKET] + Lead(t), [CLOSE_BRACKET], Skip(t)[1..]);
    } else {
      ItemsSound(t, path, 0, depth + 1);
      var items, rest := ParseItems(t, path, 0, depth + 1).tree, ParseItems(t, path, 0, depth + 1).rest;
      assert [OPEN_BRACKET] + [] == [OPEN_BRACKET];
      Join3([OPEN_BRACKET], RenderItems(items), rest);
    }
  }

  lemma EmptyLists(path: seq<Text>, index: nat, depth: nat, seen: set<Text>)
    requires depth <= MAX_DEPTH
    ensures RenderItems(NoItems) == [CLOSE_BRACKET] && RenderMembers(NoMembers) == [CLOSE_BRACE]
    ensures AdmissibleItems(NoItems, path, index, depth) && AdmissibleMembers(NoMembers, path, depth, seen)
  {
  }

  lemma ObjectSound(s: Text, path: seq<Text>, depth: nat)
    requires depth <= MAX_DEPTH && s != [] && s[0] == OPEN_BRACE && ParseValue(s, path, depth).Ok?
    ensures var v := ParseValue(s, path, depth).tree;
            s == Render(v) + ParseValue(s, path, depth).rest && Admissible(v, path, depth)
    decreases |s|, 0
  {
    hide ParseItems, ParseMembers, Skip, RenderMembers;
    var t := s[1..];
    assert s == [OPEN_BRACE] + t;
    if Skip(t) != [] && Skip(t)[0] == CLOSE_BRACE {
      BracketsSound(OPEN_BRACE, CLOSE_BRACE, s);
      EmptyLists(path, 0, depth + 1, {});
      Join3([OPEN_BRACE] + Lead(t), [CLOSE_BRACE], Skip(t)[1..]);
    } else {
      MembersSound(t, path, depth + 1, {});
      var members, rest := ParseMembers(t, path, depth + 1, {}).tree, ParseMembers(t, path, depth + 1, {}).rest;
      assert [OPEN_BRACE] + [] == [OPEN_BRACE];
      Join3([OPEN_BRACE], RenderMembers(members), rest);
    }
  }

  // An element admissible on its own, before an admissible rest.
  lemma AddItem(items: Items, path: seq<Text>, index: nat, depth: nat)
    requires depth <= MAX_DEPTH && items.Item? && ValidItems(items)
    ensures AdmissibleItems(items, path, index, depth) <==>
      && Admissible(items.value, path + [Decimal(index)], depth)
      && AdmissibleItems(items.rest, path, index + 1, depth)
  {
  }

  lemma AddMember(members: Members, path: seq<Text>, depth: nat, seen: set<Text>)
    requires depth <= MAX_DEPTH && members.Member? && ValidMembers(members)
    ensures AdmissibleMembers(members, path, depth, seen) <==>
      && ScalarString(Decode(members.name)) && Decode(members.name) !in seen
      && Admissible(members.value, path + [Decode(members.name)], depth)
      && AdmissibleMembers(members.rest, path, depth, seen + {Decode(members.name)})
  {
    hide ScalarString, Decode, Scalar, Counted, Distinct, Depth, IsCounter;
  }

  lemma {:induction false} ItemsSound(s: Text, path: seq<Text>, index: nat, depth: nat)
    requires depth <= MAX_DEPTH
    ensures ParseItems(s, path, index, depth).Ok? ==>
            var items := ParseItems(s, path, index, depth).tree;
            s == RenderItems(items) + ParseItems(s, path, index, depth).rest
            && AdmissibleItems(items, path, index, depth)
    decreases |s|, 2
  {
    hide ParseValue, ParseItems, Skip, RenderItems, Render, ItemSteps, Admissible;
    if ParseItems(s, path, index, depth).Fail? {
      return;
    }
    var items, rest := ParseItems(s, path, index, depth).tree, ParseItems(s, path, index, depth).rest;
    var st := ItemSteps(s, path, index, depth);
    ItemsUnfold(s, path, index, depth);
    LeadAndSkip(s);
    ValueSound(Skip(s), path + [Decimal(index)], depth);
    LeadAndSkip(st.afterValue);
    if items.rest.Item? {
      ItemsSound(st.end[1..], path, index + 1, depth);
      assert st.end == [COMMA] + st.end[1..];
      Join3([COMMA], RenderItems(items.rest), rest);
    }
    RenderItemThen(items, rest);
    AddItem(items, path, index, depth);
  }

  // The text of a member, read part by part.
  lemma MemberText(members: Members, s: Text, afterName: Text, afterColon: Text, afterValue: Text, end: Text,
                   rest: Text)
    requires members.Member?
    requires s == members.lead + (RenderString(members.name) + afterName)
    requires afterName == members.colon + ([COLON] + afterColon)
    requires afterColon == members.before + (Render(members.value) + afterValue)
    requires afterValue == members.after + end
    requires end == MembersTail(members.rest, rest)
    ensures s == RenderMembers(members) + rest
  {
    hide RenderString, Render, MembersTail, RenderMembers;
    RenderMemberThen(members, rest);
  }

  lemma {:induction false} MembersSound(s: Text, path: seq<Text>, depth: nat, seen: set<Text>)
    requires depth <= MAX_DEPTH
    ensures ParseMembers(s, path, depth, seen).Ok? ==>
            var members := ParseMembers(s, path, depth, seen).tree;
            s == RenderMembers(members) + ParseMembers(s, path, depth, seen).rest
            && AdmissibleMembers(members, path, depth, seen)
    decreases |s|, 2
  {
    hide ParseValue, ParseString, ParseMembers, Lead, Skip, RenderMembers, RenderString, Render, MemberSteps;
    hide AdmissibleMembers, Admissible, Decode, ScalarString, ValidPieces, IsSpace;
    if ParseMembers(s, path, depth, seen).Fail? {
      return;
    }
    var members, rest := ParseMembers(s, path, depth, seen).tree, ParseMembers(s, path, depth, seen).rest;
    var st := MemberSteps(s, path, depth);
    MembersUnfold(s, path, depth, seen);
    LeadAndSkip(s);
    StringSound(Skip(s));
    LeadAndSkip(st.afterName);
    LeadAndSkip(st.afterColon);
    ValueSound(Skip(st.afterColon), path + [Decode(members.name)], depth);
    LeadAndSkip(st.afterValue);
    MemberEnds(members.rest, st.end, path, depth, seen + {Decode(members.name)}, rest);
    MemberText(members, s, st.afterName, st.afterColon, st.afterValue, st.end, rest);
    AddMember(members, path, depth, seen);
  }

  lemma MemberEnds(more: Members, end: Text, path: seq<Text>, depth: nat, seen: set<Text>, rest: Text)
    requires depth <= MAX_DEPTH && end != []
    requires || (more.NoMembers? && end == [CLOSE_BRACE] + rest)
             || (more.Member? && end[0] == COMMA && ParseMembers(end[1..], path, depth, seen) == Ok(more, rest))
    ensures ValidMembers(more) && end == MembersTail(more, rest) && AdmissibleMembers(more, path, depth, seen)
    decreases |end|
  {
    hide ParseMembers, RenderMembers;
    if more.Member? {
      MembersSound(end[1..], path, depth, seen);
      assert end == [COMMA] + end[1..];
      Join3([COMMA], RenderMembers(more), rest);
      hide AdmissibleMembers;
    }
  }
}
