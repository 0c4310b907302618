// What the child reads: the plain split of the bytes that the worker wrote to it.
module ControllerWire {
  import opened Envelopes
  import opened ControllerProtocol
  import Safety = ControllerSafety
  import Framing

  // A frame that protocol.WriteLine makes of a payload.
  predicate IsLine(frame: Frame) {
    frame != [] && Framing.WriteLine(frame[..|frame| - 1]) == Some(frame)
  }

  // The records of these callers' requests, in order.
  function Records(callers: seq<Caller>, calls: map<Caller, Call>): seq<Framing.Frame>
    requires forall c :: c in callers ==> c in calls && IsLine(calls[c].frame)
  {
    if callers == [] then []
    else
      var last := callers[|callers| - 1];
      assert last in callers && IsLine(calls[last].frame);
      Records(callers[..|callers| - 1], calls)
      + Framing.Record(calls[last].frame[..|calls[last].frame| - 1])
  }

  lemma {:induction false} LinesSplit(callers: seq<Caller>, calls: map<Caller, Call>, tail: Frame, fails: bool)
    requires forall c :: c in callers ==> c in calls && IsLine(calls[c].frame)
    ensures Framing.Frames(Safety.Frames(callers, calls) + tail, fails)
         == Records(callers, calls) + Framing.Frames(tail, fails)
    decreases |callers|
  {
    hide Framing.Frames, Framing.Record;
    if callers == [] {
      assert Safety.Frames(callers, calls) + tail == tail;
    } else {
      var init, frame := callers[..|callers| - 1], calls[callers[|callers| - 1]].frame;
      var payload := frame[..|frame| - 1];
      assert Safety.Frames(callers, calls) + tail == Safety.Frames(init, calls) + (frame + tail);
      LinesSplit(init, calls, frame + tail, fails);
      assert frame + tail == payload + [Framing.LF] + tail;
      Framing.FramesOfRecord(payload, tail, fails);
      Framing.Associates(Records(init, calls), Framing.Record(payload), Framing.Frames(tail, fails));
    }
  }

  // The part of a line that comes before its newline has none.
  lemma PartOfLine(frame: Frame, n: nat)
    requires IsLine(frame) && n < |frame|
    ensures Framing.NoLF(frame[..n])
  {
    assert frame[..n] == frame[..|frame| - 1][..n];
  }

  // In every run whose requests are written as lines, the child reads the requests of the
  // started callers in slot order, each whole and once. A frame cut short stands last: it
  // is an unterminated tail, lost if the stream breaks and a record of its own if it ends.
  lemma ChildReadsRequests(start: State, events: seq<Event>, fails: bool)
    requires Initial(start)
    requires var s := Run(start, events); forall c :: c in s.calls ==> IsLine(s.calls[c].frame)
    ensures var s := Run(start, events);
            && (forall c :: c in s.starts ==> c in s.calls)
            && (s.starts == [] ==> Framing.Frames(s.wire, fails) == [])
            && (s.starts != [] ==>
                  var n := |s.starts| - 1;
                  var last := s.calls[s.starts[n]];
                  && last.sent <= |last.frame|
                  && Framing.Frames(s.wire, fails)
                     == if last.sent == |last.frame| then Records(s.starts, s.calls)
                        else Records(s.starts[..n], s.calls)
                             + (if fails then [] else Framing.Record(last.frame[..last.sent])))
  {
    Safety.WireIsFramesInSlotOrder(start, events);
    var s := Run(start, events);
    hide Run, Framing.Frames, Framing.Record, IsLine, Initial;
    Framing.FramesOfTail([], fails);
    NothingRecorded();
    if s.starts != [] {
      var n := |s.starts| - 1;
      var last := s.calls[s.starts[n]];
      if last.sent == |last.frame| {
        assert last.frame[..last.sent] == last.frame;
        LinesSplit(s.starts, s.calls, [], fails);
        assert s.wire + [] == s.wire;
        assert Records(s.starts, s.calls) + [] == Records(s.starts, s.calls);
      } else {
        LinesSplit(s.starts[..n], s.calls, last.frame[..last.sent], fails);
        PartOfLine(last.frame, last.sent);
        Framing.FramesOfTail(last.frame[..last.sent], fails);
      }
    }
  }

  lemma NothingRecorded()
    ensures Framing.Record([]) == []
  {
  }
}
