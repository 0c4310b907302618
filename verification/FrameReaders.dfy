// The four readers of the wire, each over a stream cut into arbitrary chunks:
// Go (protocol/framing.go), Rust (sdk/rust/src/runner.rs), TypeScript
// (sdk/typescript/src/runner.ts) and Python (sdk/python/pitot/runner.py).
module FrameReaders {
  import opened Envelopes
  import opened Framing

  // ----- Input -----

  datatype Cut = Whole | BufferFull | EndOfFile | Broken

  // The first n bytes, up to the first LF and at most through it.
  lemma LineStart(b: Bytes, k: nat, n: nat)
    requires k <= |b| && NoLF(b[..k]) && (k < |b| ==> b[k] == LF) && n <= |b| && n <= k + 1
    ensures NoLF(b[..n][..if n > 0 then n - 1 else 0])
    ensures n > 0 ==> (b[..n][n - 1] == LF <==> n == k + 1)
  {
    if 0 < n <= k {
      assert b[n - 1] == b[..k][n - 1];
    }
    forall i | 0 <= i < n - 1 ensures b[i] != LF {
      assert b[i] == b[..k][i];
    }
  }

  // A stream that yields its chunks one at a time and then ends, in end of file
  // or in an error.
  class Source {
    var buffered: Bytes
    var chunks: seq<Bytes>
    const fails: bool

    ghost predicate Valid()
      reads this
    {
      forall i :: 0 <= i < |chunks| ==> chunks[i] != []
    }

    ghost function Remaining(): Bytes
      reads this
    {
      buffered + Flatten(chunks)
    }

    constructor (chunks: seq<Bytes>, fails: bool)
      requires forall i :: 0 <= i < |chunks| ==> chunks[i] != []
      ensures Valid() && Remaining() == Flatten(chunks) && this.fails == fails
    {
      this.buffered, this.chunks, this.fails := [], chunks, fails;
    }

    // Move at most `room` bytes of the next chunk into the buffer.
    method Fill(room: nat)
      requires Valid() && chunks != [] && room > 0
      modifies this
      ensures Valid() && Remaining() == old(Remaining())
      ensures old(buffered) <= buffered && |old(buffered)| < |buffered| <= |old(buffered)| + room
      ensures |Flatten(chunks)| < |old(Flatten(chunks))|
    {
      var chunk := chunks[0];
      if |chunk| <= room {
        assert Flatten(chunks) == chunk + Flatten(chunks[1..]);
        buffered, chunks := buffered + chunk, chunks[1..];
      } else {
        assert chunk == chunk[..room] + chunk[room..];
        assert [chunk[room..]] + chunks[1..] == chunks[0 := chunk[room..]];
        assert Flatten(chunks[0 := chunk[room..]]) == chunk[room..] + Flatten(chunks[1..]) by {
          assert chunks[0 := chunk[room..]][1..] == chunks[1..];
        }
        buffered, chunks := buffered + chunk[..room], chunks[0 := chunk[room..]];
      }
    }

    // bufio.Reader.ReadSlice('\n') with a buffer of `size` bytes.
    method ReadSlice(size: nat) returns (part: Bytes, cut: Cut)
      requires Valid() && size > 0
      modifies this
      ensures Valid() && old(Remaining()) == part + Remaining()
      ensures cut == Whole ==> |part| > 0 && part[|part| - 1] == LF && NoLF(part[..|part| - 1])
      ensures cut != Whole ==> NoLF(part)
      ensures cut == BufferFull ==> |part| > 0
      ensures cut == EndOfFile || cut == Broken ==> Remaining() == [] && (cut == Broken <==> fails)
    {
      while true
        invariant Valid() && Remaining() == old(Remaining())
        decreases |Flatten(chunks)|
      {
        var k := IndexLF(buffered);
        if k < |buffered| {
          part, cut := buffered[..k + 1], Whole;
          assert part[..k] == buffered[..k];
          buffered := buffered[k + 1..];
          return;
        }
        assert buffered[..k] == buffered;
        if |buffered| >= size {
          part, cut := buffered, BufferFull;
          buffered := [];
          return;
        }
        if chunks == [] {
          part, cut := buffered, if fails then Broken else EndOfFile;
          buffered := [];
          return;
        }
        Fill(size - |buffered|);
      }
    }

    // BufRead::fill_buf: what is buffered, or the next chunk; empty at the end of the stream.
    method FillBuf() returns (buffer: Bytes, broken: bool)
      requires Valid()
      modifies this
      ensures Valid() && Remaining() == old(Remaining()) && buffer == buffered
      ensures buffer == [] ==> Remaining() == []
      ensures broken <==> buffer == [] && fails
    {
      if buffered == [] && chunks != [] {
        Fill(|chunks[0]|);
      }
      buffer, broken := buffered, buffered == [] && fails;
    }

    method Consume(n: nat)
      requires Valid() && n <= |buffered|
      modifies this
      ensures Valid() && old(Remaining()) == old(buffered[..n]) + Remaining()
    {
      buffered := buffered[n..];
    }

    // readline(limit): through the first newline, but at most `limit` bytes; raises
    // if the stream breaks first.
    method ReadLine(limit: nat) returns (line: Bytes, raised: bool)
      requires Valid() && limit > 0
      modifies this
      ensures Valid()
      ensures !raised ==> old(Remaining()) == line + Remaining() && |line| <= limit
      ensures !raised ==> NoLF(line[..if |line| > 0 then |line| - 1 else 0])
      ensures !raised && (line == [] || line[|line| - 1] != LF) ==> |line| == limit || Remaining() == []
      ensures !raised && fails && Remaining() == [] && line != [] && line[|line| - 1] != LF ==> |line| == limit
      ensures raised ==> fails && NoLF(old(Remaining())) && |old(Remaining())| < limit
      ensures !raised && line == [] ==> !fails
    {
      while true
        invariant Valid() && Remaining() == old(Remaining())
        decreases |Flatten(chunks)|
      {
        var k := IndexLF(buffered);
        if k < |buffered| || |buffered| >= limit || (chunks == [] && !fails) {
          var n := if k < limit && k < |buffered| then k + 1 else if |buffered| <= limit then |buffered| else limit;
          line, raised := buffered[..n], false;
          LineStart(buffered, k, n);
          buffered := buffered[n..];
          return;
        }
        if chunks == [] {
          line, raised := [], true;
          return;
        }
        Fill(limit - |buffered|);
      }
    }
  }

  // ----- Go -----

  // ReadFrames. `ok` is false when it returns the stream's error; `peak` is the
  // largest frame it retained.
  method ReadFrames(input: Source, size: nat) returns (visited: seq<Frame>, ok: bool, ghost peak: nat)
    requires input.Valid() && size > 0
    modifies input
    ensures visited == Frames(old(input.Remaining()), input.fails)
    ensures ok <==> !input.fails
    ensures peak <= FRAME_LIMIT
  {
    hide Frames, OnCourse, Record, NoLF, Source.Remaining;
    visited, peak := [], 0;
    var frame: Bytes := [];
    var oversized := false;
    ghost var record: Bytes := [];
    ghost var goal := Frames(input.Remaining(), input.fails);
    StartsOnCourse(input.Remaining(), input.fails);
    while true
      invariant input.Valid() && peak <= FRAME_LIMIT
      invariant OnCourse(visited, record, input.Remaining(), input.fails, goal)
      invariant Kept(frame, oversized, record)
      decreases |input.Remaining()|
    {
      var part, cut := input.ReadSlice(size);
      ghost var slice := part;
      if |part| > 0 && part[|part| - 1] == LF {
        part := part[..|part| - 1];
      }
      if !oversized {
        if |frame| + |part| > FRAME_LIMIT {
          oversized, frame := true, [];
        } else {
          frame := frame + part;
        }
      }
      peak := if |frame| > peak then |frame| else peak;
      CutGives(slice, part, cut, input.Remaining());
      ReadMore(visited, record, part, if cut == Whole then [LF] + input.Remaining() else input.Remaining(),
               input.fails, goal);
      record := record + part;
      if cut == BufferFull {
        continue;
      }
      if cut == Broken {
        EndStream(visited, record, true, goal);
        return visited, false, peak;
      }
      OutcomeIsRecord(frame, oversized, record);
      if cut == Whole {
        EndRecord(visited, record, input.Remaining(), input.fails, goal);
      } else {
        EndStream(visited, record, input.fails, goal);
      }
      visited := visited + Outcome(frame, oversized);
      frame, oversized, record := [], false, [];
      if cut == EndOfFile {
        return visited, true, peak;
      }
    }
  }

  lemma CutGives(slice: Bytes, part: Bytes, cut: Cut, rest: Bytes)
    requires cut == Whole ==> |slice| > 0 && slice[|slice| - 1] == LF && NoLF(slice[..|slice| - 1])
    requires cut != Whole ==> NoLF(slice)
    requires part == if |slice| > 0 && slice[|slice| - 1] == LF then slice[..|slice| - 1] else slice
    ensures NoLF(part)
    ensures slice + rest == part + (if cut == Whole then [LF] + rest else rest)
  {
  }

  lemma OutcomeIsRecord(buffer: Bytes, oversized: bool, record: Bytes)
    requires Kept(buffer, oversized, record)
    ensures Outcome(buffer, oversized) == Record(record)
  {
  }

  // ----- Rust -----

  datatype Next = Stopped | Failed | Got(frame: Frame)

  // frame: the next record, blank or not, or the end of the stream.
  method NextFrame(input: Source) returns (next: Next, ghost record: Bytes, ghost peak: nat)
    requires input.Valid()
    modifies input
    ensures input.Valid() && peak <= FRAME_LIMIT && NoLF(record)
    ensures next.Got? ==>
              && next.frame == (if |record| > FRAME_LIMIT then Oversized else Data(record))
              && (|| old(input.Remaining()) == record + ([LF] + input.Remaining())
                  || (old(input.Remaining()) == record && record != [] && input.Remaining() == [] && !input.fails))
    ensures next == Stopped ==> old(input.Remaining()) == [] && !input.fails
    ensures next == Failed ==> old(input.Remaining()) == record && input.fails
  {
    hide Source.Remaining;
    record, peak := [], 0;
    var value: Bytes := [];
    var oversized := false;
    while true
      invariant input.Valid() && peak <= FRAME_LIMIT
      invariant NoLF(record) && old(input.Remaining()) == record + input.Remaining()
      invariant Kept(value, oversized, record)
      decreases |input.Remaining()|
    {
      var buffer, broken := input.FillBuf();
      if broken {
        return Failed, record, peak;
      }
      if buffer == [] {
        if oversized {
          return Got(Oversized), record, peak;
        } else if value == [] {
          return Stopped, record, peak;
        } else {
          return Got(Data(value)), record, peak;
        }
      }
      var count := IndexLF(buffer);
      if !oversized {
        if |value| + count > FRAME_LIMIT {
          oversized, value := true, [];
        } else {
          value := value + buffer[..count];
        }
      }
      peak := if |value| > peak then |value| else peak;
      input.Consume(if count < |buffer| then count + 1 else count);
      ghost var before := record;
      record := record + buffer[..count];
      if count < |buffer| {
        assert buffer[..count + 1] == buffer[..count] + [LF];
        Regroup(before, buffer[..count], [LF], input.Remaining());
        return Got(if oversized then Oversized else Data(value)), record, peak;
      }
      Regroup(before, buffer[..count], [], input.Remaining());
      assert buffer[..count] + [] == buffer[..count];
    }
  }

  lemma Regroup(a: Bytes, b: Bytes, c: Bytes, d: Bytes)
    ensures a + (b + c + d) == a + b + (c + d)
  {
  }

  // The runner's loop over frames, which skips blank ones.
  method RunRust(input: Source) returns (visited: seq<Frame>, ok: bool, ghost peak: nat)
    requires input.Valid()
    modifies input
    ensures visited == Frames(old(input.Remaining()), input.fails)
    ensures ok <==> !input.fails
    ensures peak <= FRAME_LIMIT
  {
    hide Frames, OnCourse, Source.Remaining;
    visited, peak := [], 0;
    ghost var goal := Frames(input.Remaining(), input.fails);
    StartsOnCourse(input.Remaining(), input.fails);
    while true
      invariant input.Valid() && peak <= FRAME_LIMIT
      invariant OnCourse(visited, [], input.Remaining(), input.fails, goal)
      decreases |input.Remaining()|
    {
      ghost var before := input.Remaining();
      ghost var record, most;
      var next;
      next, record, most := NextFrame(input);
      peak := if most > peak then most else peak;
      if next == Stopped {
        EndStream(visited, [], input.fails, goal);
        return visited, true, peak;
      }
      ghost var rest := if before == record then [] else [LF] + input.Remaining();
      assert before == record + rest;
      ReadMore(visited, [], record, rest, input.fails, goal);
      assert [] + record == record;
      if next == Failed {
        EndStream(visited, record, true, goal);
        return visited, false, peak;
      }
      if rest == [] {
        EndStream(visited, record, input.fails, goal);
        StartsOnCourse([], input.fails);
      } else {
        EndRecord(visited, record, input.Remaining(), input.fails, goal);
      }
      assert visited + [] == visited;
      if next.frame.Oversized? {
        visited := visited + [Oversized];
      } else if !Blank(next.frame.bytes) {
        visited := visited + [next.frame];
      }
      if rest == [] {
        FramesOfNothing(visited, input.fails, goal);
      }
    }
  }

  lemma FramesOfNothing(visited: seq<Frame>, fails: bool, goal: seq<Frame>)
    requires visited == goal
    ensures OnCourse(visited, [], [], fails, goal)
  {
    FramesOfTail([], fails);
    var none: Bytes := [];
    assert none + none == none;
  }

  // ----- TypeScript -----

  function Join(pieces: seq<Bytes>): Bytes {
    if pieces == [] then [] else Join(pieces[..|pieces| - 1]) + pieces[|pieces| - 1]
  }

  // The closure variables of serializeLines, with the lines it hands on.
  class LineSerializer {
    var pieces: seq<Bytes>
    var length: nat
    var oversized: bool
    var visited: seq<Frame>
    ghost var record: Bytes
    // The most ever retained of one record.
    ghost var peak: nat

    ghost predicate Valid()
      reads this
    {
      && NoLF(record) && Retained() <= peak <= FRAME_LIMIT
      && (if oversized then pieces == [] && |record| > FRAME_LIMIT && length > FRAME_LIMIT
          else Join(pieces) == record && length == |record| <= FRAME_LIMIT)
    }

    // What is retained of the current record.
    ghost function Retained(): nat
      reads this
    {
      |Join(pieces)|
    }

    constructor ()
      ensures Valid() && record == [] && visited == []
    {
      pieces, length, oversized, visited, record, peak := [], 0, false, [], [], 0;
    }

    method Append(part: Bytes)
      requires Valid() && NoLF(part)
      modifies this
      ensures Valid() && record == old(record) + part && visited == old(visited)
      ensures peak == if Retained() > old(peak) then Retained() else old(peak)
    {
      record := record + part;
      if oversized {
        return;
      }
      length := length + |part|;
      if length > FRAME_LIMIT {
        pieces, oversized := [], true;
      } else {
        pieces := pieces + [part];
        assert pieces[..|pieces| - 1] == old(pieces);
      }
      peak := if Retained() > peak then Retained() else peak;
    }

    // finish, with the callers' check for a blank line.
    method Finish()
      requires Valid()
      modifies this
      ensures Valid() && record == [] && visited == old(visited) + Record(old(record)) && peak == old(peak)
    {
      if oversized {
        visited := visited + [Oversized];
      } else if length != 0 {
        var line := Join(pieces);
        if !Blank(line) {
          visited := visited + [Data(line)];
        }
      }
      pieces, length, oversized, record := [], 0, false, [];
    }

    // The body of the loop over chunks.
    method Chunk(chunk: Bytes, ghost rest: Bytes, ghost fails: bool, ghost goal: seq<Frame>)
      requires Valid() && OnCourse(visited, record, chunk + rest, fails, goal)
      modifies this
      ensures Valid() && OnCourse(visited, record, rest, fails, goal) && peak >= old(peak)
    {
      hide Frames, OnCourse, Record, Valid, NoLF;
      var start := 0;
      var newline := IndexLF(chunk);
      assert chunk[0..] == chunk && chunk[0..newline] == chunk[..newline];
      while newline < |chunk|
        invariant Valid() && start <= newline <= |chunk|
        invariant NoLF(chunk[start..newline]) && (newline < |chunk| ==> chunk[newline] == LF)
        invariant OnCourse(visited, record, chunk[start..] + rest, fails, goal) && peak >= old(peak)
        decreases |chunk| - start
      {
        ghost var next := chunk[newline + 1..] + rest;
        assert chunk[start..] + rest == chunk[start..newline] + ([LF] + next);
        ReadMore(visited, record, chunk[start..newline], [LF] + next, fails, goal);
        Append(chunk[start..newline]);
        EndRecord(visited, record, next, fails, goal);
        Finish();
        start := newline + 1;
        newline := start + IndexLF(chunk[start..]);
        assert chunk[start..newline] == chunk[start..][..newline - start];
      }
      assert chunk[start..] == chunk[start..newline];
      ReadMore(visited, record, chunk[start..], rest, fails, goal);
      Append(chunk[start..]);
    }
  }

  // serializeLines over the chunks of standard input; `peak` is the most it retained.
  method SerializeLines(chunks: seq<Bytes>, fails: bool)
    returns (visited: seq<Frame>, ok: bool, ghost peak: nat)
    ensures visited == Frames(Flatten(chunks), fails)
    ensures ok <==> !fails
    ensures peak <= FRAME_LIMIT
  {
    hide Frames, OnCourse, Record, Blank;
    var lines := new LineSerializer();
    ghost var goal := Frames(Flatten(chunks), fails);
    StartsOnCourse(Flatten(chunks), fails);
    assert chunks[0..] == chunks;
    for i := 0 to |chunks|
      invariant lines.Valid()
      invariant OnCourse(lines.visited, lines.record, Flatten(chunks[i..]), fails, goal)
    {
      assert Flatten(chunks[i..]) == chunks[i] + Flatten(chunks[i + 1..]) by {
        assert chunks[i..][1..] == chunks[i + 1..];
      }
      lines.Chunk(chunks[i], Flatten(chunks[i + 1..]), fails, goal);
    }
    EndStream(lines.visited, lines.record, fails, goal);
    assert lines.visited + [] == lines.visited;
    if fails {
      return lines.visited, false, lines.peak;
    }
    if lines.length != 0 || lines.oversized {
      lines.Finish();
    } else {
      BlankRecord(lines.record);
    }
    return lines.visited, true, lines.peak;
  }

  lemma BlankRecord(record: Bytes)
    requires record == []
    ensures Record(record) == []
  {
  }

  // ----- Python -----

  // _lines yields a line with its newline; the frame is the line without it.
  function StripLine(line: Bytes): Bytes {
    if |line| > 0 && line[|line| - 1] == LF then line[..|line| - 1] else line
  }

  function StripAll(lines: seq<Frame>): seq<Frame> {
    if lines == [] then []
    else StripAll(lines[..|lines| - 1]) + [
      match lines[|lines| - 1]
      case Data(line) => Data(StripLine(line))
      case Oversized => Oversized]
  }

  lemma StripOneMore(lines: seq<Frame>, f: Frame)
    ensures StripAll(lines + [f])
         == StripAll(lines) + [match f case Data(line) => Data(StripLine(line)) case Oversized => Oversized]
  {
    assert (lines + [f])[..|lines|] == lines;
  }

  predicate Terminated(line: Bytes) {
    |line| > 0 && line[|line| - 1] == LF
  }

  // What one readline call takes from the stream.
  lemma LineGives(before: Bytes, line: Bytes, rest: Bytes)
    requires before == line + rest && NoLF(line[..if |line| > 0 then |line| - 1 else 0])
    ensures NoLF(StripLine(line))
    ensures before == StripLine(line) + (if Terminated(line) then [LF] + rest else rest)
  {
  }

  lemma BlankWithNewline(line: Bytes)
    ensures Blank(line) <==> Blank(StripLine(line))
  {
  }

  // Discard the rest of an oversized line, through its newline or the end of the stream.
  method Drain(input: Source, first: Bytes, ghost visited: seq<Frame>, ghost record: Bytes, ghost goal: seq<Frame>)
    returns (raised: bool)
    requires input.Valid() && first != [] && |record| > FRAME_LIMIT
    requires !Terminated(first) && input.Remaining() == [] ==> !input.fails || |first| == FRAME_LIMIT + 2
    requires OnCourse(visited, record, if Terminated(first) then [LF] + input.Remaining() else input.Remaining(),
                      input.fails, goal)
    modifies input
    ensures input.Valid()
    ensures raised ==> input.fails && visited == goal
    ensures !raised ==> OnCourse(visited + [Oversized], [], input.Remaining(), input.fails, goal)
    ensures !raised ==> |input.Remaining()| <= |old(input.Remaining())|
  {
    hide Frames, OnCourse, Source.Remaining;
    var line := first;
    ghost var taken := record;
    while line != [] && !Terminated(line)
      invariant input.Valid() && |taken| > FRAME_LIMIT && |input.Remaining()| <= |old(input.Remaining())|
      invariant OnCourse(visited, taken, if Terminated(line) then [LF] + input.Remaining() else input.Remaining(),
                         input.fails, goal)
      invariant line == [] ==> input.Remaining() == [] && !input.fails
      decreases |input.Remaining()|, |line|
    {
      ghost var before := input.Remaining();
      line, raised := input.ReadLine(FRAME_LIMIT + 2);
      if raised {
        assert before + [] == before;
        ReadMore(visited, taken, before, [], input.fails, goal);
        EndStream(visited, taken + before, true, goal);
        assert visited + [] == visited;
        return;
      }
      ghost var rest := input.Remaining();
      LineGives(before, line, rest);
      ReadMore(visited, taken, StripLine(line), if Terminated(line) then [LF] + rest else rest, input.fails, goal);
      taken := taken + StripLine(line);
    }
    raised := false;
    if line == [] {
      EndStream(visited, taken, input.fails, goal);
      FramesOfNothing(visited + [Oversized], input.fails, goal);
    } else {
      EndRecord(visited, taken, input.Remaining(), input.fails, goal);
    }
  }

  // _lines. The generator yields each line with its newline; without it, they are the frames.
  method Lines(input: Source) returns (yielded: seq<Frame>, ok: bool)
    requires input.Valid()
    modifies input
    ensures StripAll(yielded) == Frames(old(input.Remaining()), input.fails)
    ensures ok <==> !input.fails
  {
    hide Frames, OnCourse, Source.Remaining, Blank, StripAll;
    yielded := [];
    ghost var visited: seq<Frame> := [];
    ghost var goal := Frames(input.Remaining(), input.fails);
    StartsOnCourse(input.Remaining(), input.fails);
    assert StripAll([]) == [] by {
      StripNone();
    }
    while true
      invariant input.Valid() && visited == StripAll(yielded)
      invariant OnCourse(visited, [], input.Remaining(), input.fails, goal)
      decreases |input.Remaining()|
    {
      ghost var before := input.Remaining();
      var line, raised := input.ReadLine(FRAME_LIMIT + 2);
      assert visited + [] == visited;
      if raised {
        assert before + [] == before && [] + before == before;
        ReadMore(visited, [], before, [], input.fails, goal);
        EndStream(visited, before, true, goal);
        return yielded, false;
      }
      ghost var rest := input.Remaining();
      if line == [] {
        assert before == [] + rest == rest;
        EndStream(visited, [], input.fails, goal);
        BlankRecord([]);
        return yielded, true;
      }
      LineGives(before, line, rest);
      var raw := StripLine(line);
      assert [] + raw == raw;
      ReadMore(visited, [], raw, if Terminated(line) then [LF] + rest else rest, input.fails, goal);
      if |raw| > FRAME_LIMIT {
        raised := Drain(input, line, visited, raw, goal);
        if raised {
          return yielded, false;
        }
        StripOneMore(yielded, Oversized);
        yielded, visited := yielded + [Oversized], visited + [Oversized];
        continue;
      }
      BlankWithNewline(line);
      if Terminated(line) {
        EndRecord(visited, raw, rest, input.fails, goal);
      } else {
        EndStream(visited, raw, input.fails, goal);
        FramesOfNothing(visited + Record(raw), input.fails, goal);
      }
      if !Blank(line) {
        StripOneMore(yielded, Data(line));
        yielded, visited := yielded + [Data(line)], visited + [Data(raw)];
      }
    }
  }

  lemma StripNone()
    ensures StripAll([]) == []
  {
  }
}
