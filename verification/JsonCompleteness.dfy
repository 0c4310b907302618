// The text of any document of the grammar is read back as that document if it is
// admissible and refused if it is not, so that acceptance by inspectJSON is
// exactly the grammar with the wire constraints.
module JsonCompleteness {
  import opened Envelopes
  import opened JsonGrammar
  import opened Accounting
  import opened JsonParser
  import opened JsonCorrectness

  lemma SpacesFollow(w: Text, s: Text)
    requires Spaces(w) && Follows(s)
    ensures Follows(w + s)
  {
    if w == [] {
      assert w + s == s;
    } else {
      assert (w + s)[0] == w[0];
    }
  }

  lemma ListTails(items: Items, members: Members, rest: Text)
    ensures StartsSolid(ItemsTail(items, rest)) && Follows(ItemsTail(items, rest)) && ItemsTail(items, rest) != []
    ensures items.NoItems? ==> ItemsTail(items, rest) == [CLOSE_BRACKET] + rest
    ensures items.Item? ==> ItemsTail(items, rest) == [COMMA] + (RenderItems(items) + rest)
    ensures StartsSolid(MembersTail(members, rest)) && Follows(MembersTail(members, rest))
    ensures MembersTail(members, rest) != []
    ensures members.NoMembers? ==> MembersTail(members, rest) == [CLOSE_BRACE] + rest
    ensures members.Member? ==> MembersTail(members, rest) == [COMMA] + (RenderMembers(members) + rest)
  {
    hide RenderItems, RenderMembers;
    Join3([COMMA], RenderItems(items), rest);
    Join3([COMMA], RenderMembers(members), rest);
  }

  lemma {:induction false} ValueComplete(v: Value, rest: Text, path: seq<Text>, depth: nat)
    requires Valid(v) && depth <= MAX_DEPTH && Follows(rest)
    ensures ParseValue(Render(v) + rest, path, depth) == if Admissible(v, path, depth) then Ok(v, rest) else Fail
    decreases v, 1
  {
    FirstUnit(v, rest);
    match v {
      case Array(gap, items) => ArrayComplete(v, rest, path, depth);
      case Object(gap, members) => ObjectComplete(v, rest, path, depth);
      case String(ps) =>
        hide ParseString, RenderString;
        StringComplete(ps, rest);
      case Literal(w) =>
        hide ParseWord, RenderWord, ParseString;
        WordComplete(w, rest);
      case Number(n) =>
        hide ParseNumeral, RenderNumeral, TypeScriptCounter, ParseWord, ParseString;
        NumeralComplete(n, rest);
        FourCountersAgree(n);
    }
  }

  // What follows an opening bracket.
  lemma AfterBracket(open: nat, close: nat, gap: Text, body: Text, rest: Text)
    requires Spaces(gap) && !IsSpace(close)
    ensures var s := [open] + gap + body + rest;
            && s[0] == open
            && (gap == [] ==> s[1..] == body + rest)
            && (body == [close] ==> Lead(s[1..]) == gap && Skip(s[1..]) == [close] + rest)
  {
    var s := [open] + gap + body + rest;
    assert s[1..] == gap + (body + rest);
    if body == [close] {
      LeadOf(gap, body + rest);
    }
    if gap == [] {
      assert gap + (body + rest) == body + rest;
    }
  }

  lemma ArrayComplete(v: Value, rest: Text, path: seq<Text>, depth: nat)
    requires Valid(v) && v.Array? && depth <= MAX_DEPTH
    ensures ParseValue(Render(v) + rest, path, depth) == if Admissible(v, path, depth) then Ok(v, rest) else Fail
    decreases v, 0
  {
    hide ParseItems, ParseMembers, Skip, RenderItems;
    var s := Render(v) + rest;
    var body := RenderItems(v.items);
    AfterBracket(OPEN_BRACKET, CLOSE_BRACKET, v.gap, body, rest);
    EmptyLists(path, 0, 0, {});
    if v.items.NoItems? {
      assert ([CLOSE_BRACKET] + rest)[1..] == rest;
    } else if depth < MAX_DEPTH {
      FirstItem(v.items, rest);
      ItemsComplete(v.items, rest, path, 0, depth + 1);
    }
  }

  lemma ObjectComplete(v: Value, rest: Text, path: seq<Text>, depth: nat)
    requires Valid(v) && v.Object? && depth <= MAX_DEPTH
    ensures ParseValue(Render(v) + rest, path, depth) == if Admissible(v, path, depth) then Ok(v, rest) else Fail
    decreases v, 0
  {
    hide ParseItems, ParseMembers, Skip, RenderMembers;
    var s := Render(v) + rest;
    var body := RenderMembers(v.members);
    AfterBracket(OPEN_BRACE, CLOSE_BRACE, v.gap, body, rest);
    EmptyLists(path, 0, 0, {});
    if v.members.NoMembers? {
      assert ([CLOSE_BRACE] + rest)[1..] == rest;
    } else if depth < MAX_DEPTH {
      FirstMember(v.members, rest);
      MembersComplete(v.members, rest, path, depth + 1, {});
    }
  }

  lemma FirstItem(items: Items, rest: Text)
    requires items.Item? && ValidItems(items)
    ensures var t := RenderItems(items) + rest;
            var u := Render(items.value) + (items.after + ItemsTail(items.rest, rest));
            Lead(t) == items.before && Skip(t) == u && u != [] && u[0] != CLOSE_BRACKET
  {
    hide RenderItems, Render, Lead, Skip, ItemsTail;
    RenderItemThen(items, rest);
    FirstUnit(items.value, items.after + ItemsTail(items.rest, rest));
    LeadOf(items.before, Render(items.value) + (items.after + ItemsTail(items.rest, rest)));
  }

  lemma {:induction false} ItemsComplete(items: Items, rest: Text, path: seq<Text>, index: nat, depth: nat)
    requires items.Item? && ValidItems(items) && depth <= MAX_DEPTH
    ensures ParseItems(RenderItems(items) + rest, path, index, depth)
         == if AdmissibleItems(items, path, index, depth) then Ok(items, rest) else Fail
    decreases items
  {
    hide Render, RenderItems, ParseValue, Lead, Skip, ItemsTail, Admissible, AdmissibleItems;
    var s := RenderItems(items) + rest;
    var end := ItemsTail(items.rest, rest);
    FirstItem(items, rest);
    AddItem(items, path, index, depth);
    ListTails(items.rest, NoMembers, rest);
    SpacesFollow(items.after, end);
    ValueComplete(items.value, items.after + end, path + [Decimal(index)], depth);
    LeadOf(items.after, end);
    if items.rest.NoItems? {
      EmptyLists(path, index + 1, depth, {});
      assert end[1..] == rest;
    } else {
      ItemsComplete(items.rest, rest, path, index + 1, depth);
      assert end[1..] == RenderItems(items.rest) + rest;
    }
  }

  // The texts from each part of a member to the end.
  ghost function MemberParts(m: Members, rest: Text): Steps
    requires m.Member?
  {
    var end := MembersTail(m.rest, rest);
    var afterValue := m.after + end;
    var afterColon := m.before + (Render(m.value) + afterValue);
    Steps(m.colon + ([COLON] + afterColon), afterColon, afterValue, end)
  }

  lemma FirstMember(m: Members, rest: Text)
    requires m.Member? && ValidMembers(m)
    ensures var t := RenderMembers(m) + rest;
            var u := RenderString(m.name) + MemberParts(m, rest).afterName;
            Lead(t) == m.lead && Skip(t) == u && u != [] && u[0] == QUOTE
  {
    hide RenderMembers, Render, Lead, Skip, MembersTail;
    RenderMemberThen(m, rest);
    LeadOf(m.lead, RenderString(m.name) + MemberParts(m, rest).afterName);
  }

  // White space around a member's colon and value is skipped exactly.
  lemma MemberGaps(m: Members, rest: Text)
    requires m.Member? && ValidMembers(m)
    ensures var st := MemberParts(m, rest);
            && Lead(st.afterName) == m.colon && Skip(st.afterName) == [COLON] + st.afterColon
            && Lead(st.afterColon) == m.before && Skip(st.afterColon) == Render(m.value) + st.afterValue
            && Lead(st.afterValue) == m.after && Skip(st.afterValue) == st.end && Follows(st.afterValue)
  {
    hide RenderMembers, Render, Lead, Skip, MembersTail;
    var st := MemberParts(m, rest);
    LeadOf(m.colon, [COLON] + st.afterColon);
    FirstUnit(m.value, st.afterValue);
    LeadOf(m.before, Render(m.value) + st.afterValue);
    ListTails(NoItems, m.rest, rest);
    LeadOf(m.after, st.end);
    SpacesFollow(m.after, st.end);
  }

  lemma {:induction false} MembersComplete(m: Members, rest: Text, path: seq<Text>, depth: nat, seen: set<Text>)
    requires m.Member? && ValidMembers(m) && depth <= MAX_DEPTH
    ensures ParseMembers(RenderMembers(m) + rest, path, depth, seen)
         == if AdmissibleMembers(m, path, depth, seen) then Ok(m, rest) else Fail
    decreases m
  {
    hide Render, RenderString, RenderMembers, ParseValue, ParseString, Lead, Skip, MembersTail, Admissible;
    hide AdmissibleMembers, MemberParts, Decode, ScalarString, ValidPieces;
    var s := RenderMembers(m) + rest;
    var st := MemberParts(m, rest);
    FirstMember(m, rest);
    AddMember(m, path, depth, seen);
    StringComplete(m.name, st.afterName);
    MemberGaps(m, rest);
    ValueComplete(m.value, st.afterValue, path + [Decode(m.name)], depth);
    ListTails(NoItems, m.rest, rest);
    assert ([COLON] + st.afterColon)[1..] == st.afterColon;
    assert st.end == MembersTail(m.rest, rest) by { EndOf(m, rest); }
    if m.rest.NoMembers? {
      EmptyLists(path, 0, depth, seen + {Decode(m.name)});
      assert st.end[1..] == rest;
    } else {
      MembersComplete(m.rest, rest, path, depth, seen + {Decode(m.name)});
      assert st.end[1..] == RenderMembers(m.rest) + rest;
    }
  }

  lemma EndOf(m: Members, rest: Text)
    requires m.Member?
    ensures MemberParts(m, rest).end == MembersTail(m.rest, rest)
  {
  }

  // ----- Documents -----

  // A document of the grammar within the wire constraints.
  predicate Conforming(d: Document) {
    ValidDocument(d) && Admissible(d.value, [], 0)
  }

  // An accepted text is the text of the conforming document it was read as.
  lemma AcceptedConforms(text: Text)
    requires ParseDocument(text).Ok?
    ensures Conforming(ParseDocument(text).tree) && RenderDocument(ParseDocument(text).tree) == text
  {
    hide ParseValue, Render, Admissible;
    ValueSound(Skip(text), [], 0);
    LeadAndSkip(text);
    var d, s := ParseDocument(text).tree, ParseValue(Skip(text), [], 0).rest;
    LeadAndSkip(s);
    assert s == d.after;
    Join3(d.before, Render(d.value), d.after);
  }

  // The text of a document is read back as itself if it conforms, and refused if not.
  lemma DocumentDecided(d: Document)
    requires ValidDocument(d)
    ensures ParseDocument(RenderDocument(d)) == if Conforming(d) then Ok(d, []) else Fail
  {
    hide ParseValue, Render, Admissible;
    Join3(d.before, Render(d.value), d.after);
    FirstUnit(d.value, d.after);
    LeadOf(d.before, Render(d.value) + d.after);
    SpacesFollow(d.after, []);
    assert d.after + [] == d.after;
    ValueComplete(d.value, d.after, [], 0);
    LeadOf(d.after, []);
  }

  // inspectJSON accepts a text exactly when it is the text of a conforming document.
  lemma AcceptsExactlyConforming(text: Text)
    ensures ParseDocument(text).Ok? <==> exists d :: Conforming(d) && RenderDocument(d) == text
  {
    hide ParseDocument, RenderDocument;
    if ParseDocument(text).Ok? {
      AcceptedConforms(text);
    }
    if d :| Conforming(d) && RenderDocument(d) == text {
      DocumentDecided(d);
    }
  }

  function Nest(n: nat): Value {
    Array([], if n == 0 then NoItems else Item([], Nest(n - 1), [], NoItems))
  }

  // [[[...]]]: n brackets more around one pair.
  lemma {:induction false} NestIsBrackets(n: nat)
    ensures Valid(Nest(n)) && Scalar(Nest(n)) && Distinct(Nest(n)) && Depth(Nest(n)) == n + 1
    ensures Render(Nest(n)) == seq(n + 1, _ => 0x5B) + seq(n + 1, _ => 0x5D)
  {
    NestRenders(n);
    if n > 0 {
      NestIsBrackets(n - 1);
      hide Render;
      assert seq(n + 1, _ => 0x5B) == [0x5B] + seq(n, _ => 0x5B);
      assert seq(n + 1, _ => 0x5D) == seq(n, _ => 0x5D) + [0x5D];
    }
  }

  lemma NestRenders(n: nat)
    ensures Render(Nest(n)) == [0x5B] + (if n == 0 then [] else Render(Nest(n - 1))) + [0x5D]
  {
  }

  lemma {:induction false} NestIsCounted(n: nat, path: seq<Text>)
    requires Valid(Nest(n))
    ensures Counted(Nest(n), path)
  {
    if n > 0 {
      NestIsCounted(n - 1, path + [Decimal(0)]);
    }
  }

  // Arrays may nest 128 deep and no deeper.
  lemma NestedArrays(n: nat)
    requires n > 0
    ensures ParseDocument(seq(n, _ => 0x5B) + seq(n, _ => 0x5D)).Ok? <==> n <= 128
  {
    var d := Document([], Nest(n - 1), []);
    NestIsBrackets(n - 1);
    NestIsCounted(n - 1, []);
    hide Render, Valid, Nest, Scalar, Distinct, Counted, Depth, ParseDocument;
    var text := seq(n, _ => 0x5B) + seq(n, _ => 0x5D);
    assert RenderDocument(d) == text by {
      assert [] + text + [] == text;
    }
    DocumentDecided(d);
  }

  // An accepted text is the text of one document only, whether or not the other
  // keeps the wire constraints.
  lemma Unambiguous(d: Document, e: Document)
    requires Conforming(d) && ValidDocument(e) && RenderDocument(d) == RenderDocument(e)
    ensures d == e
  {
    hide ParseDocument, RenderDocument;
    DocumentDecided(d);
    DocumentDecided(e);
  }

  // ----- The accounting rule reaches only the two counters of a root object -----

  predicate UsageCounted(v: Value)
    requires Valid(v)
  {
    v.Object? ==> UsageMembers(v.members)
  }

  // In every root member named "usage".
  predicate UsageMembers(members: Members)
    requires ValidMembers(members)
  {
    members.Member? ==>
      (Decode(members.name) == USAGE ==> CountersCounted(members.value)) && UsageMembers(members.rest)
  }

  predicate CountersCounted(v: Value)
    requires Valid(v)
  {
    v.Object? ==> CounterMembers(v.members)
  }

  // Every number named by one of the two counters is a count.
  predicate CounterMembers(members: Members)
    requires ValidMembers(members)
  {
    members.Member? ==>
      && (Decode(members.name) == INPUT_TOKENS || Decode(members.name) == OUTPUT_TOKENS ==>
            CountIfNumber(members.value))
      && CounterMembers(members.rest)
  }

  predicate CountIfNumber(v: Value)
    requires Valid(v)
  {
    v.Number? ==> IsCount(v.numeral)
  }

  // Paths that no extension can make an accounting path.
  predicate OffPath(path: seq<Text>) {
    |path| >= 2 || (|path| == 1 && path[0] != USAGE)
  }

  lemma {:induction false} OffPathCounted(v: Value, path: seq<Text>)
    requires Valid(v) && OffPath(path) && !IsCounter(path)
    ensures Counted(v, path)
    decreases v, 1
  {
    hide Decimal, IsCount;
    match v {
      case Array(_, items) => OffPathItems(items, path, 0);
      case Object(_, members) => OffPathMembers(members, path);
      case _ =>
    }
  }

  lemma {:induction false} OffPathItems(items: Items, path: seq<Text>, index: nat)
    requires ValidItems(items) && (OffPath(path) || path == [] || path == [USAGE])
    ensures CountedItems(items, path, index)
    decreases items, 0
  {
    hide Valid, IsCount, Counted;
    if items.Item? {
      var first := Decimal(index)[0];
      assert first != USAGE[0] && first != INPUT_TOKENS[0] && first != OUTPUT_TOKENS[0];
      OffPathCounted(items.value, path + [Decimal(index)]);
      OffPathItems(items.rest, path, index + 1);
    }
  }

  lemma {:induction false} OffPathMembers(members: Members, path: seq<Text>)
    requires ValidMembers(members) && OffPath(path)
    ensures CountedMembers(members, path)
    decreases members, 0
  {
    hide Valid, IsCount, Counted, Decode, ValidPieces;
    if members.Member? {
      OffPathCounted(members.value, path + [Decode(members.name)]);
      OffPathMembers(members.rest, path);
    }
  }

  lemma {:induction false} CounterMembersCounted(members: Members)
    requires ValidMembers(members)
    ensures CountedMembers(members, [USAGE]) <==> CounterMembers(members)
  {
    hide IsCount, Decode, ValidPieces, Depth;
    if members.Member? {
      var path := [USAGE] + [Decode(members.name)];
      CounterMembersCounted(members.rest);
      assert Valid(members.value);
      if !IsCounter(path) {
        OffPathCounted(members.value, path);
      } else if members.value.Array? {
        OffPathItems(members.value.items, path, 0);
      } else if members.value.Object? {
        OffPathMembers(members.value.members, path);
      }
    }
  }

  lemma {:induction false} UsageMembersCounted(members: Members)
    requires ValidMembers(members)
    ensures CountedMembers(members, []) <==> UsageMembers(members)
  {
    hide IsCount, Decode, ValidPieces;
    if members.Member? {
      var path: seq<Text> := [] + [Decode(members.name)];
      UsageMembersCounted(members.rest);
      if Decode(members.name) != USAGE {
        OffPathCounted(members.value, path);
      } else if members.value.Array? {
        OffPathItems(members.value.items, path, 0);
      } else if members.value.Object? {
        assert path == [USAGE];
        CounterMembersCounted(members.value.members);
      }
    }
  }

  // The path bookkeeping of the recogniser amounts to a rule about root members only.
  lemma CountedIffUsageCounted(v: Value)
    requires Valid(v)
    ensures Counted(v, []) <==> UsageCounted(v)
  {
    match v {
      case Array(_, items) => OffPathItems(items, [], 0);
      case Object(_, members) => UsageMembersCounted(members);
      case _ =>
    }
  }
}
