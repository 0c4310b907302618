// Newline-delimited framing: the plain specification that every reader of the
// wire is measured against, and the writer it inverts.
module Framing {
  import opened Envelopes

  const LF: byte := 10
  const FRAME_LIMIT: nat := 4 * 1024 * 1024

  type Bytes = seq<byte>

  datatype Frame = Data(bytes: Bytes) | Oversized

  predicate IsBlank(b: byte) {
    b == 32 || b == 9 || b == 13 || b == 10
  }

  predicate Blank(record: Bytes) {
    forall i :: 0 <= i < |record| ==> IsBlank(record[i])
  }

  predicate NoLF(s: Bytes) {
    forall i :: 0 <= i < |s| ==> s[i] != LF
  }

  // The position of the first LF, or |s| if there is none.
  function IndexLF(s: Bytes): (k: nat)
    ensures k <= |s| && NoLF(s[..k]) && (k < |s| ==> s[k] == LF)
  {
    if s == [] || s[0] == LF then 0
    else
      var k := IndexLF(s[1..]);
      assert s[..k + 1] == [s[0]] + s[1..][..k];
      k + 1
  }

  // What one record gives: a fault if it is too long, nothing if it is blank.
  function Record(record: Bytes): seq<Frame> {
    if |record| > FRAME_LIMIT then [Oversized] else if Blank(record) then [] else [Data(record)]
  }

  // The frames of a whole stream. A stream that ends in an error instead of end
  // of file loses its unterminated last record.
  function Frames(s: Bytes, fails: bool): seq<Frame>
    decreases |s|
  {
    var k := IndexLF(s);
    if k == |s| then (if fails then [] else Record(s))
    else Record(s[..k]) + Frames(s[k + 1..], fails)
  }

  function Flatten(chunks: seq<Bytes>): Bytes {
    if chunks == [] then [] else chunks[0] + Flatten(chunks[1..])
  }

  // ----- Properties of the specification -----

  // A record is dropped exactly when it is within the limit and each byte of it is a
  // space, a tab, a carriage return or a line feed.
  lemma DroppedExactly(record: Bytes)
    ensures Record(record) == [] <==>
              |record| <= 4194304 && forall b :: b in record ==> b == 0x20 || b == 0x09 || b == 0x0D || b == 0x0A
    ensures Record(record) == [Oversized] <==> |record| > 4194304
  {
    if Blank(record) {
      forall b | b in record ensures IsBlank(b) {
        var i :| 0 <= i < |record| && record[i] == b;
      }
    } else {
      var i :| 0 <= i < |record| && !IsBlank(record[i]);
      assert record[i] in record;
    }
  }

  lemma FirstLF(s: Bytes, k: nat)
    requires k <= |s| && NoLF(s[..k]) && (k < |s| ==> s[k] == LF)
    ensures IndexLF(s) == k
  {
    var j := IndexLF(s);
    assert forall i :: 0 <= i < k ==> s[..k][i] == s[i];
    assert forall i :: 0 <= i < j ==> s[..j][i] == s[i];
  }

  // A terminated record contributes its own outcome and nothing else.
  lemma FramesOfRecord(record: Bytes, rest: Bytes, fails: bool)
    requires NoLF(record)
    ensures Frames(record + [LF] + rest, fails) == Record(record) + Frames(rest, fails)
  {
    var s := record + [LF] + rest;
    assert s[..|record|] == record;
    FirstLF(s, |record|);
    assert s[|record| + 1..] == rest;
  }

  lemma FramesOfTail(tail: Bytes, fails: bool)
    requires NoLF(tail)
    ensures Frames(tail, fails) == if fails then [] else Record(tail)
  {
    assert tail[..|tail|] == tail;
    FirstLF(tail, |tail|);
  }

  // Whatever precedes a newline, however malformed or oversized, leaves the
  // records after it untouched.
  lemma {:induction false} NewlineResynchronises(before: Bytes, after: Bytes, fails: bool)
    ensures Frames(before + [LF] + after, fails) == Frames(before, false) + Frames(after, fails)
    decreases |before|
  {
    var k := IndexLF(before);
    if k == |before| {
      assert before[..k] == before;
      FramesOfRecord(before, after, fails);
    } else {
      var rest := before[k + 1..];
      assert before + [LF] + after == before[..k] + [LF] + (rest + [LF] + after);
      FramesOfRecord(before[..k], rest + [LF] + after, fails);
      NewlineResynchronises(rest, after, fails);
    }
  }

  // ----- A reader's progress -----

  // A reader that has handed on `visited`, has read `record` of the current
  // record, and has `rest` still to come, is on its way to `goal`.
  ghost predicate OnCourse(visited: seq<Frame>, record: Bytes, rest: Bytes, fails: bool, goal: seq<Frame>) {
    NoLF(record) && visited + Frames(record + rest, fails) == goal
  }

  lemma StartsOnCourse(all: Bytes, fails: bool)
    ensures OnCourse([], [], all, fails, Frames(all, fails))
  {
    assert [] + all == all;
  }

  lemma ReadMore(visited: seq<Frame>, record: Bytes, part: Bytes, rest: Bytes, fails: bool, goal: seq<Frame>)
    requires OnCourse(visited, record, part + rest, fails, goal) && NoLF(part)
    ensures OnCourse(visited, record + part, rest, fails, goal)
  {
    assert record + (part + rest) == record + part + rest;
  }

  lemma EndRecord(visited: seq<Frame>, record: Bytes, rest: Bytes, fails: bool, goal: seq<Frame>)
    requires OnCourse(visited, record, [LF] + rest, fails, goal)
    ensures OnCourse(visited + Record(record), [], rest, fails, goal)
  {
    hide Frames, Record;
    assert record + ([LF] + rest) == record + [LF] + rest;
    FramesOfRecord(record, rest, fails);
    assert [] + rest == rest;
    Associates(visited, Record(record), Frames(rest, fails));
  }

  lemma Associates(a: seq<Frame>, b: seq<Frame>, c: seq<Frame>)
    ensures a + (b + c) == a + b + c
  {
  }

  lemma EndStream(visited: seq<Frame>, record: Bytes, fails: bool, goal: seq<Frame>)
    requires OnCourse(visited, record, [], fails, goal)
    ensures visited + (if fails then [] else Record(record)) == goal
  {
    assert record + [] == record;
    FramesOfTail(record, fails);
  }

  // The buffer kept of the current record: all of it, or nothing once it is too long.
  predicate Kept(buffer: Bytes, oversized: bool, record: Bytes) {
    if oversized then buffer == [] && |record| > FRAME_LIMIT else buffer == record && |record| <= FRAME_LIMIT
  }

  function Outcome(buffer: Bytes, oversized: bool): seq<Frame> {
    if oversized then [Oversized] else if Blank(buffer) then [] else [Data(buffer)]
  }

  // protocol.WriteLine: one record, refused if the payload holds a newline.
  function WriteLine(payload: Bytes): Option<Bytes> {
    if LF in payload then None else Some(payload + [LF])
  }

  function WriteAll(payloads: seq<Bytes>): Bytes {
    if payloads == [] then []
    else (match WriteLine(payloads[0])
          case None => []
          case Some(line) => line) + WriteAll(payloads[1..])
  }

  function Accepted(payloads: seq<Bytes>): seq<Frame> {
    if payloads == [] then []
    else (if LF in payloads[0] then [] else Record(payloads[0])) + Accepted(payloads[1..])
  }

  // Reading back what WriteLine wrote gives each accepted payload once and in
  // order, blank ones dropped and those over the limit faulted.
  lemma {:induction false} ReadsBackWhatWasWritten(payloads: seq<Bytes>, fails: bool)
    ensures Frames(WriteAll(payloads), fails) == Accepted(payloads)
    decreases |payloads|
  {
    if payloads == [] {
      FramesOfTail([], fails);
    } else {
      ReadsBackWhatWasWritten(payloads[1..], fails);
      if LF !in payloads[0] {
        FramesOfRecord(payloads[0], WriteAll(payloads[1..]), fails);
      } else {
        assert [] + WriteAll(payloads[1..]) == WriteAll(payloads[1..]);
      }
    }
  }
}
