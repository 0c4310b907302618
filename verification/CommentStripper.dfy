// Blanking the comments of a settings file in place (cmd/pitot/doctor_qwen.go, doctorJSON).
module CommentStripper {
  import opened Envelopes

  type Bytes = seq<nat>

  const SPACE: nat := 0x20
  const LF: nat := 0x0A
  const CR: nat := 0x0D
  const QUOTE: nat := 0x22
  const STAR: nat := 0x2A
  const SLASH: nat := 0x2F
  const BACKSLASH: nat := 0x5C

  predicate StartsLine(s: Bytes) {
    |s| > 1 && s[0] == SLASH && s[1] == SLASH
  }

  predicate StartsBlock(s: Bytes) {
    |s| > 1 && s[0] == SLASH && s[1] == STAR
  }

  // Up to, not including, the next line feed.
  function LineLength(s: Bytes): (n: nat)
    ensures n <= |s| && LF !in s[..n] && (n < |s| ==> s[n] == LF)
  {
    if s == [] || s[0] == LF then 0
    else
      var n := LineLength(s[1..]);
      assert s[..n + 1] == [s[0]] + s[1..][..n];
      n + 1
  }

  // The next "*/".
  function BlockEnd(s: Bytes): (n: Option<nat>)
    ensures n.Some? ==> n.value + 1 < |s| && s[n.value] == STAR && s[n.value + 1] == SLASH
  {
    if |s| < 2 then None
    else if s[0] == STAR && s[1] == SLASH then Some(0)
    else
      match BlockEnd(s[1..])
      case None => None
      case Some(n) => Some(n + 1)
  }

  function Blank(s: Bytes): (r: Bytes)
    ensures |r| == |s| && forall i :: 0 <= i < |s| ==> r[i] == SPACE
  {
    seq(|s|, _ => SPACE)
  }

  // A blanked block keeps its line breaks.
  function BlankBlock(s: Bytes): (r: Bytes)
    ensures |r| == |s| && forall i :: 0 <= i < |s| ==> r[i] == if s[i] == LF || s[i] == CR then s[i] else SPACE
  {
    seq(|s|, i requires 0 <= i < |s| => if s[i] == LF || s[i] == CR then s[i] else SPACE)
  }

  // The state inside a string literal: open, and just after a backslash.
  datatype State = State(quoted: bool, escaped: bool)

  const CODE := State(false, false)

  function After(st: State, b: nat): State {
    if !st.quoted then State(b == QUOTE, false)
    else if st.escaped then State(true, false)
    else if b == BACKSLASH then State(true, true)
    else State(b != QUOTE, false)
  }

  // The length of the comment block at the start of a text, if it is closed.
  function BlockLength(s: Bytes): (n: Option<nat>)
    requires StartsBlock(s)
    ensures n.Some? ==> 4 <= n.value <= |s| && s[n.value - 2] == STAR && s[n.value - 1] == SLASH
  {
    match BlockEnd(s[2..])
    case None => None
    case Some(n) => Some(n + 4)
  }

  function Prepend(a: Bytes, r: Option<Bytes>): Option<Bytes> {
    match r
    case None => None
    case Some(b) => Some(a + b)
  }

  // The text with every comment outside string literals blanked; None when a block
  // comment does not end.
  function Strip(s: Bytes, st: State): (r: Option<Bytes>)
    ensures r.Some? ==> |r.value| == |s|
    decreases |s|
  {
    if s == [] then Some([])
    else if !st.quoted && StartsLine(s) then
      var n := LineLength(s);
      Prepend(Blank(s[..n]), Strip(s[n..], CODE))
    else if !st.quoted && StartsBlock(s) then
      var n := BlockLength(s);
      if n.None? then None else Prepend(BlankBlock(s[..n.value]), Strip(s[n.value..], CODE))
    else Prepend([s[0]], Strip(s[1..], After(st, s[0])))
  }

  // ----- In place -----

  method BlankLine(clean: array<nat>, i: nat) returns (j: nat)
    requires i < clean.Length && StartsLine(clean[i..])
    modifies clean
    ensures j == i + LineLength(old(clean[i..])) && i < j <= clean.Length
    ensures clean[..i] == old(clean[..i]) && clean[i..j] == Blank(old(clean[i..j])) && clean[j..] == old(clean[j..])
  {
    ghost var was := clean[..];
    assert clean[i..] == was[i..] && was[i..][0] == SLASH;
    j := i;
    while j < clean.Length && clean[j] != LF
      invariant i <= j <= clean.Length
      invariant LineLength(was[i..]) == j - i + LineLength(was[j..])
      invariant clean[..i] == was[..i] && clean[j..] == was[j..]
      invariant forall k :: i <= k < j ==> clean[k] == SPACE
    {
      assert was[j..][1..] == was[j + 1..];
      clean[j] := SPACE;
      j := j + 1;
    }
  }

  method BlankBlockAt(clean: array<nat>, i: nat, ghost was: Bytes) returns (ok: bool, j: nat)
    requires clean.Length == |was| && i + 1 < clean.Length && StartsBlock(was[i..])
    requires forall k :: i <= k < |was| ==> clean[k] == was[k]
    modifies clean
    ensures ok == BlockLength(was[i..]).Some?
    ensures ok ==> i < j <= clean.Length && BlockLength(was[i..]) == Some(j - i)
    ensures forall k :: 0 <= k < i ==> clean[k] == old(clean[k])
    ensures ok ==> forall k :: i <= k < j ==> clean[k] == if was[k] == LF || was[k] == CR then was[k] else SPACE
    ensures ok ==> forall k :: j <= k < clean.Length ==> clean[k] == was[k]
  {
    hide BlockEnd, EndFrom, BlockLength;
    clean[i], clean[i + 1] := SPACE, SPACE;
    j := i + 2;
    ghost var body := was[i + 2..];
    assert was[i..][2..] == body && was[i..][0] == was[i] && was[i..][1] == was[i + 1];
    EndFromStart(body);
    while j + 1 < clean.Length && !(clean[j] == STAR && clean[j + 1] == SLASH)
      invariant i + 2 <= j <= clean.Length
      invariant forall k :: 0 <= k < i ==> clean[k] == old(clean[k])
      invariant forall k :: j <= k < clean.Length ==> clean[k] == was[k]
      invariant forall k :: i <= k < j ==> clean[k] == if was[k] == LF || was[k] == CR then was[k] else SPACE
      invariant EndFrom(body, j - i - 2, was[j..])
    {
      assert was[j..][1..] == was[j + 1..] && was[j..][0] == clean[j] && was[j..][1] == clean[j + 1];
      EndStep(body, j - i - 2, was[j..]);
      if clean[j] != LF && clean[j] != CR {
        clean[j] := SPACE;
      }
      j := j + 1;
    }
    EndFound(was[i..], body, j - i - 2, was[j..]);
    if j + 1 >= clean.Length {
      return false, j;
    }
    assert was[j..][0] == was[j] && was[j..][1] == was[j + 1];
    clean[j], clean[j + 1] := SPACE, SPACE;
    j := j + 2;
    return true, j;
  }

  // Searching on from k places gives the same end.
  predicate EndFrom(body: Bytes, k: nat, rest: Bytes) {
    BlockEnd(body) == if BlockEnd(rest).Some? then Some(BlockEnd(rest).value + k) else None
  }

  lemma EndFromStart(body: Bytes)
    ensures EndFrom(body, 0, body)
  {
  }

  lemma EndStep(body: Bytes, k: nat, rest: Bytes)
    requires |rest| > 1 && !(rest[0] == STAR && rest[1] == SLASH) && EndFrom(body, k, rest)
    ensures EndFrom(body, k + 1, rest[1..])
  {
  }

  lemma EndFound(s: Bytes, body: Bytes, k: nat, rest: Bytes)
    requires StartsBlock(s) && body == s[2..] && EndFrom(body, k, rest)
    ensures |rest| < 2 ==> BlockLength(s).None?
    ensures |rest| >= 2 && rest[0] == STAR && rest[1] == SLASH ==> BlockLength(s) == Some(k + 4)
  {
  }

  // The text so far is stripped, and stripping goes on from here.
  ghost predicate OnTrack(was: Bytes, done: Bytes, rest: Bytes, st: State) {
    Strip(was, CODE) == Prepend(done, Strip(rest, st))
  }

  // doctorJSON's loop over its own copy of the bytes: false when a comment does not
  // end, otherwise the copy holds the stripped text.
  method StripComments(clean: array<nat>) returns (ok: bool)
    modifies clean
    ensures ok == Strip(old(clean[..]), CODE).Some?
    ensures ok ==> clean[..] == Strip(old(clean[..]), CODE).value
  {
    hide LineLength, BlockEnd, BlockLength, After, OnTrack, Strip, Prepend;
    ghost var was := clean[..];
    var quoted, escaped := false, false;
    var i := 0;
    assert was[0..] == was && clean[..0] == [];
    Setting(was);
    while i < clean.Length
      invariant i <= clean.Length && clean[i..] == was[i..] && (escaped ==> quoted)
      invariant OnTrack(was, clean[..i], was[i..], State(quoted, escaped))
    {
      ghost var s, done, st := was[i..], clean[..i], State(quoted, escaped);
      assert s[0] == clean[i] && s[1..] == was[i + 1..];
      if !quoted && clean[i] == SLASH && i + 1 < clean.Length && clean[i + 1] == SLASH {
        i := PassLine(clean, i, was, st);
      } else if !quoted && clean[i] == SLASH && i + 1 < clean.Length && clean[i + 1] == STAR {
        ok, i := PassBlock(clean, i, was, st);
        if !ok {
          return;
        }
      } else {
        ByteStep(was, done, s, st);
        StateAfter(st, clean[i]);
        if quoted {
          if escaped {
            escaped := false;
          } else if clean[i] == BACKSLASH {
            escaped := true;
          } else if clean[i] == QUOTE {
            quoted := false;
          }
        } else if clean[i] == QUOTE {
          quoted := true;
        }
        assert clean[..i + 1] == done + [clean[i]];
        i := i + 1;
      }
    }
    Finish(was, clean[..i], was[i..], State(quoted, escaped));
    assert clean[..i] == clean[..];
    return true;
  }

  method PassLine(clean: array<nat>, i: nat, ghost was: Bytes, ghost st: State) returns (j: nat)
    requires i < clean.Length == |was| && clean[i..] == was[i..] && StartsLine(was[i..]) && !st.quoted
    requires OnTrack(was, clean[..i], was[i..], st)
    modifies clean
    ensures i < j <= clean.Length && clean[j..] == was[j..] && OnTrack(was, clean[..j], was[j..], CODE)
  {
    hide LineLength, BlockLength, OnTrack;
    ghost var done := clean[..i];
    j := BlankLine(clean, i);
    assert was[i..][j - i..] == was[j..] && was[i..][..j - i] == was[i..j];
    Resume(was, done, was[i..], st, j - i);
    assert clean[..j] == done + clean[i..j];
  }

  method PassBlock(clean: array<nat>, i: nat, ghost was: Bytes, ghost st: State) returns (ok: bool, j: nat)
    requires i + 1 < clean.Length == |was| && clean[i..] == was[i..] && StartsBlock(was[i..]) && !st.quoted
    requires OnTrack(was, clean[..i], was[i..], st)
    modifies clean
    ensures !ok ==> Strip(was, CODE).None?
    ensures ok ==> i < j <= clean.Length && clean[j..] == was[j..] && OnTrack(was, clean[..j], was[j..], CODE)
  {
    hide LineLength, BlockLength, OnTrack, BlankBlock, Strip, Prepend;
    ghost var done := clean[..i];
    TailPointwise(clean[..], was, i);
    ok, j := BlankBlockAt(clean, i, was);
    if ok {
      Blanked(clean[..], done, was, i, j);
      Resume(was, done, was[i..], st, j - i);
    } else {
      Unclosed(was, done, was[i..], st);
    }
  }

  lemma TailPointwise(now: Bytes, was: Bytes, i: nat)
    requires |now| == |was| && i <= |was| && now[i..] == was[i..]
    ensures forall k :: i <= k < |was| ==> now[k] == was[k]
  {
    forall k | i <= k < |was| ensures now[k] == was[k] {
      assert now[k] == now[i..][k - i] && was[k] == was[i..][k - i];
    }
  }

  lemma Blanked(now: Bytes, done: Bytes, was: Bytes, i: nat, j: nat)
    requires |now| == |was| && i <= j <= |was| && |done| == i
    requires forall k :: 0 <= k < i ==> now[k] == done[k]
    requires forall k :: i <= k < j ==> now[k] == if was[k] == LF || was[k] == CR then was[k] else SPACE
    requires forall k :: j <= k < |was| ==> now[k] == was[k]
    ensures now[..j] == done + BlankBlock(was[i..][..j - i]) && now[j..] == was[j..] && was[i..][j - i..] == was[j..]
  {
  }

  lemma StateAfter(st: State, b: nat)
    ensures After(st, b) == if st.quoted then (if st.escaped then State(true, false)
                                               else if b == BACKSLASH then State(true, true)
                                               else State(b != QUOTE, false))
                            else State(b == QUOTE, false)
  {
  }

  lemma Setting(was: Bytes)
    ensures OnTrack(was, [], was, CODE)
  {
    NothingBefore(Strip(was, CODE));
  }

  lemma Finish(was: Bytes, done: Bytes, rest: Bytes, st: State)
    requires OnTrack(was, done, rest, st) && rest == []
    ensures Strip(was, CODE) == Some(done)
  {
    assert done + [] == done;
  }

  lemma Unclosed(was: Bytes, done: Bytes, rest: Bytes, st: State)
    requires OnTrack(was, done, rest, st) && !st.quoted && StartsBlock(rest) && BlockLength(rest).None?
    ensures Strip(was, CODE).None?
  {
    hide BlockLength;
  }

  lemma NothingBefore(r: Option<Bytes>)
    ensures Prepend([], r) == r
  {
    if r.Some? {
      assert [] + r.value == r.value;
    }
  }

  lemma PrependJoin(a: Bytes, b: Bytes, r: Option<Bytes>)
    ensures Prepend(a, Prepend(b, r)) == Prepend(a + b, r)
  {
    if r.Some? {
      assert a + (b + r.value) == a + b + r.value;
    }
  }

  lemma Resume(was: Bytes, done: Bytes, s: Bytes, st: State, n: nat)
    requires OnTrack(was, done, s, st) && !st.quoted && n <= |s|
    requires || (StartsLine(s) && n == LineLength(s))
             || (StartsBlock(s) && BlockLength(s) == Some(n))
    ensures OnTrack(was, done + (if StartsLine(s) then Blank(s[..n]) else BlankBlock(s[..n])), s[n..], CODE)
  {
    hide LineLength, BlockLength;
    PrependJoin(done, if StartsLine(s) then Blank(s[..n]) else BlankBlock(s[..n]), Strip(s[n..], CODE));
  }

  lemma ByteStep(was: Bytes, done: Bytes, s: Bytes, st: State)
    requires OnTrack(was, done, s, st) && s != [] && (st.quoted || (!StartsLine(s) && !StartsBlock(s)))
    ensures OnTrack(was, done + [s[0]], s[1..], After(st, s[0]))
  {
    hide After;
    PrependJoin(done, [s[0]], Strip(s[1..], After(st, s[0])));
  }

  // ----- What a comment is -----

  // From "//" up to a line feed or the end of the text.
  lemma LineCommentBlanked(text: Bytes, rest: Bytes)
    requires 0x0A !in text && (rest == [] || rest[0] == 0x0A)
    ensures Strip([0x2F, 0x2F] + text + rest, CODE) == Prepend(seq(|text| + 2, _ => 0x20), Strip(rest, CODE))
  {
    hide Strip, Prepend, LineLength;
    var body := [0x2F, 0x2F] + text;
    var s := body + rest;
    LineEnds(body, rest);
    assert s[..|body|] == body && s[|body|..] == rest;
    assert Blank(body) == seq(|text| + 2, _ => 0x20);
    LineUnfolds(s);
  }

  lemma LineUnfolds(s: Bytes)
    requires |s| > 1 && s[0] == 0x2F && s[1] == 0x2F
    ensures Strip(s, CODE) == Prepend(Blank(s[..LineLength(s)]), Strip(s[LineLength(s)..], CODE))
  {
  }

  lemma {:induction false} LineEnds(body: Bytes, rest: Bytes)
    requires 0x0A !in body && (rest == [] || rest[0] == 0x0A)
    ensures LineLength(body + rest) == |body|
    decreases |body|
  {
    if body == [] {
      assert body + rest == rest;
    } else {
      assert (body + rest)[1..] == body[1..] + rest;
      LineEnds(body[1..], rest);
    }
  }

  // A text in which "*/" is nowhere.
  predicate Unended(text: Bytes) {
    forall i :: 0 <= i < |text| - 1 ==> !(text[i] == 0x2A && text[i + 1] == 0x2F)
  }

  // From "/*" up to the first "*/" after it, line breaks kept.
  lemma BlockCommentBlanked(text: Bytes, rest: Bytes)
    requires Unended(text)
    ensures Strip([0x2F, 0x2A] + text + [0x2A, 0x2F] + rest, CODE)
         == Prepend([0x20, 0x20] + BlankBlock(text) + [0x20, 0x20], Strip(rest, CODE))
  {
    hide Strip, Prepend, BlockEnd;
    var tail := text + [0x2A, 0x2F] + rest;
    var s := [0x2F, 0x2A] + text + [0x2A, 0x2F] + rest;
    assert s[2..] == tail;
    BlockEnds(text, rest);
    var n := |text| + 4;
    assert s[..n] == [0x2F, 0x2A] + text + [0x2A, 0x2F] && s[n..] == rest;
    assert BlankBlock(s[..n]) == [0x20, 0x20] + BlankBlock(text) + [0x20, 0x20];
    BlockUnfolds(s);
  }

  lemma UnendedFails(text: Bytes)
    requires Unended(text)
    ensures Strip([0x2F, 0x2A] + text, CODE) == None
  {
    hide Strip, Prepend, BlockEnd;
    var s := [0x2F, 0x2A] + text;
    assert s[2..] == text;
    NeverEnds(text);
    BlockUnfolds(s);
  }

  lemma BlockUnfolds(s: Bytes)
    requires |s| > 1 && s[0] == 0x2F && s[1] == 0x2A
    ensures BlockEnd(s[2..]).None? ==> Strip(s, CODE) == None
    ensures BlockEnd(s[2..]).Some? ==>
              var n := BlockEnd(s[2..]).value + 4;
              n <= |s| && Strip(s, CODE) == Prepend(BlankBlock(s[..n]), Strip(s[n..], CODE))
  {
  }

  lemma {:induction false} BlockEnds(text: Bytes, rest: Bytes)
    requires Unended(text)
    ensures BlockEnd(text + [0x2A, 0x2F] + rest) == Some(|text|)
    decreases |text|
  {
    var s := text + [0x2A, 0x2F] + rest;
    if text != [] {
      assert s[0] == text[0] && s[1] == if |text| > 1 then text[1] else 0x2A;
      assert s[1..] == text[1..] + [0x2A, 0x2F] + rest;
      BlockEnds(text[1..], rest);
    }
  }

  lemma {:induction false} NeverEnds(text: Bytes)
    requires Unended(text)
    ensures BlockEnd(text) == None
    decreases |text|
  {
    if |text| >= 2 {
      NeverEnds(text[1..]);
    }
  }

  // ----- What stripping keeps -----

  // The positions outside comments, as the scan meets them.
  function Kept(s: Bytes, st: State): (k: seq<bool>)
    requires Strip(s, st).Some?
    ensures |k| == |s|
    decreases |s|
  {
    if s == [] then []
    else if !st.quoted && StartsLine(s) then
      var n := LineLength(s);
      seq(n, _ => false) + Kept(s[n..], CODE)
    else if !st.quoted && StartsBlock(s) then
      var n := BlockLength(s).value;
      seq(n, _ => false) + Kept(s[n..], CODE)
    else [true] + Kept(s[1..], After(st, s[0]))
  }

  // Every byte outside comments, string literals included, is kept, and every byte
  // of a comment becomes a space or stays a line break; line feeds stay where they were.
  lemma {:induction false} StripKeepsCode(s: Bytes, st: State, i: nat)
    requires Strip(s, st).Some? && i < |s|
    ensures Kept(s, st)[i] ==> Strip(s, st).value[i] == s[i]
    ensures !Kept(s, st)[i] ==> Strip(s, st).value[i] == SPACE || (Strip(s, st).value[i] == s[i] && s[i] in {LF, CR})
    ensures Strip(s, st).value[i] == LF <==> s[i] == LF
    decreases |s|
  {
    hide LineLength, BlockLength, After;
    if !st.quoted && (StartsLine(s) || StartsBlock(s)) {
      var n := if StartsLine(s) then LineLength(s) else BlockLength(s).value;
      if i >= n {
        StripKeepsCode(s[n..], CODE, i - n);
      } else if StartsLine(s) {
        assert s[i] == s[..n][i] && s[i] in s[..n];
      }
    } else if i > 0 {
      StripKeepsCode(s[1..], After(st, s[0]), i - 1);
    }
  }

  // ----- Stripping again changes nothing -----

  lemma {:induction false} SpacesFirst(a: Bytes, s: Bytes)
    requires forall i :: 0 <= i < |a| ==> a[i] == SPACE || a[i] == LF || a[i] == CR
    ensures Strip(a + s, CODE) == Prepend(a, Strip(s, CODE))
    decreases |a|
  {
    if a == [] {
      assert a + s == s;
      NothingBefore(Strip(s, CODE));
    } else {
      assert (a + s)[1..] == a[1..] + s;
      SpacesFirst(a[1..], s);
      PrependJoin([a[0]], a[1..], Strip(s, CODE));
      assert [a[0]] + a[1..] == a;
    }
  }

  // The first byte is kept unless it opens a comment.
  lemma FirstByte(s: Bytes, st: State)
    requires s != [] && Strip(s, st).Some?
    ensures Strip(s, st).value[0] == if !st.quoted && (StartsLine(s) || StartsBlock(s)) then SPACE else s[0]
  {
    hide BlockLength;
    if !st.quoted && StartsLine(s) {
      assert LineLength(s) > 0;
    }
  }

  lemma {:induction false} StripIsIdempotent(s: Bytes, st: State)
    requires Strip(s, st).Some?
    ensures Strip(Strip(s, st).value, st) == Strip(s, st)
    decreases |s|
  {
    hide LineLength, BlockLength, After;
    if s != [] {
      var r := Strip(s, st).value;
      if !st.quoted && (StartsLine(s) || StartsBlock(s)) {
        CommentFirst(s, st);
      } else {
        var more := Strip(s[1..], After(st, s[0])).value;
        StripIsIdempotent(s[1..], After(st, s[0]));
        assert r == [s[0]] + more && r[1..] == more;
        if |s| > 1 {
          FirstByte(s[1..], After(st, s[0]));
          OpensNoComment(s, st, more);
        }
        assert st.quoted || (!StartsLine(r) && !StartsBlock(r));
      }
    }
  }

  lemma CommentFirst(s: Bytes, st: State)
    requires s != [] && !st.quoted && (StartsLine(s) || StartsBlock(s)) && Strip(s, st).Some?
    ensures Strip(Strip(s, st).value, st) == Strip(s, st)
    decreases |s|, 0
  {
    hide BlockEnd, After;
    LineStarts(s);
    var n := if StartsLine(s) then LineLength(s) else BlockLength(s).value;
    var blank := if StartsLine(s) then Blank(s[..n]) else BlankBlock(s[..n]);
    StripIsIdempotent(s[n..], CODE);
    SpacesFirst(blank, Strip(s[n..], CODE).value);
    hide Strip, LineLength, BlockLength;
    UnquotedIsCode(Strip(s, st).value, st);
  }

  lemma LineStarts(s: Bytes)
    requires s != []
    ensures StartsLine(s) ==> LineLength(s) > 0
  {
  }

  // Outside a string literal nothing is escaped that matters.
  lemma UnquotedIsCode(s: Bytes, st: State)
    requires !st.quoted
    ensures Strip(s, st) == Strip(s, CODE)
  {
  }

  // A slash that opened no comment opens none once what follows is stripped.
  lemma OpensNoComment(s: Bytes, st: State, more: Bytes)
    requires |s| > 1 && |more| == |s| - 1 && (st.quoted || (!StartsLine(s) && !StartsBlock(s)))
    requires more[0] == s[1] || more[0] == SPACE
    ensures st.quoted || (!StartsLine([s[0]] + more) && !StartsBlock([s[0]] + more))
  {
  }
}
