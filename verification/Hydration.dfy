// One version slot of the cache, hydrated by any number of Go processes
// (hydrate/hydrate.go, Ensure and acquireLock) and POSIX shims (cmd/pitot/shim.go) that
// share one lock directory, any of which may fail or crash at any point.
module Hydration {
  import opened Envelopes
  import opened Checksums

  type Bytes = seq<byte>

  // SHA-256 in hexadecimal, and the pitot binary in an archive. `name` is the
  // archive's file name.
  datatype World = World(sha: Bytes -> string, extract: Bytes -> Option<Bytes>, name: string)

  datatype Kind = Go | Shim

  // Where a process is.
  //   Start       has not looked at the slot
  //   Waiting     saw no slot, and polls the lock
  //   Through     a shim that saw the slot appear while it polled: it holds no lock
  //   Holding     made the lock directory, has not looked at the slot again
  //   Working     saw no slot since: downloads and verifies
  //   Staged      has a verified binary beside the slot
  //   Leaving     will remove the lock directory, then end as `ok` says
  //   Trapped     a shim that has removed the lock but would do so again on a signal
  //   Ready       may execute the slot
  //   Failed, Crashed
  datatype Phase =
    | Start | Waiting | Through | Holding | Working | Staged(binary: Bytes)
    | Leaving(ok: bool) | Trapped | Ready | Failed | Crashed

  datatype Proc = Proc(kind: Kind, phase: Phase)

  datatype Cache = Cache(lock: bool, slot: Option<Bytes>, procs: map<nat, Proc>)

  datatype Event =
    | Spawn(pid: nat, kind: Kind)
    | Look(pid: nat)
    | Disabled(pid: nat)
    | TryLock(pid: nat)
    | Poll(pid: nat)
    | GiveUp(pid: nat)
    | Recheck(pid: nat)
    | Fetched(pid: nat, archive: Bytes, manifest: string)
    | Fail(pid: nat)
    | Publish(pid: nat)
    | Unlock(pid: nat)
    | Interrupt(pid: nat)
    | Finish(pid: nat)
    | Crash(pid: nat)

  // The manifest lists the archive's digest, as the process reads it.
  ghost predicate Accepts(w: World, kind: Kind, archive: Bytes, manifest: string) {
    if kind.Go? then GoListed(manifest, w.name, w.sha(archive)) else ShimAccepts(manifest, w.name, w.sha(archive))
  }

  function Move(c: Cache, pid: nat, phase: Phase): Cache
    requires pid in c.procs
  {
    c.(procs := c.procs[pid := c.procs[pid].(phase := phase)])
  }

  predicate Alive(p: Phase) {
    !p.Ready? && !p.Failed? && !p.Crashed?
  }

  // What one process does next; events that do not fit its phase do nothing.
  ghost function Step(w: World, c: Cache, e: Event): Cache {
    if e.Spawn? then (if e.pid in c.procs then c else c.(procs := c.procs[e.pid := Proc(e.kind, Start)]))
    else if e.pid !in c.procs then c
    else
      var pid := e.pid;
      var p := c.procs[pid];
      match e
      case Look(_) =>
        if !p.phase.Start? then c else Move(c, pid, if c.slot.Some? then Ready else Waiting)
      case Disabled(_) =>
        // The kill switch: an absent slot is an error.
        if !p.phase.Start? || c.slot.Some? then c else Move(c, pid, Failed)
      case TryLock(_) =>
        if !p.phase.Waiting? || c.lock then c else Move(c, pid, Holding).(lock := true)
      case Poll(_) =>
        // After a failed mkdir a shim leaves the loop if the slot has appeared.
        if !(p.phase.Waiting? && p.kind.Shim? && c.slot.Some?) then c else Move(c, pid, Through)
      case GiveUp(_) =>
        if !p.phase.Waiting? then c else Move(c, pid, Failed)
      case Recheck(_) =>
        if !(p.phase.Holding? || p.phase.Through?) then c
        else Move(c, pid, if c.slot.Some? then Leaving(true) else Working)
      case Fetched(_, archive, manifest) =>
        if !p.phase.Working? then c
        else if !Accepts(w, p.kind, archive, manifest) || w.extract(archive).None? then Move(c, pid, Leaving(false))
        else Move(c, pid, Staged(w.extract(archive).value))
      case Fail(_) =>
        if p.phase.Working? || p.phase.Staged? then Move(c, pid, Leaving(false)) else c
      case Publish(_) =>
        if !p.phase.Staged? then c else Move(c, pid, Leaving(true)).(slot := Some(p.phase.binary))
      case Unlock(_) =>
        if !p.phase.Leaving? then c
        else
          Move(c, pid, if !p.phase.ok then Failed else if p.kind.Shim? then Trapped else Ready).(lock := false)
      case Interrupt(_) =>
        // The shim's EXIT trap: clean up, remove the lock directory, fail.
        if p.kind.Shim? && (p.phase.Working? || p.phase.Staged? || p.phase.Leaving? || p.phase.Trapped?) then
          Move(c, pid, Leaving(false))
        else c
      case Finish(_) =>
        if !p.phase.Trapped? then c else Move(c, pid, Ready)
      case Crash(_) =>
        if Alive(p.phase) then Move(c, pid, Crashed) else c
  }

  ghost function Run(w: World, c: Cache, events: seq<Event>): Cache
    decreases |events|
  {
    if events == [] then c else Step(w, Run(w, c, events[..|events| - 1]), events[|events| - 1])
  }

  const EMPTY := Cache(false, None, map[])

  // ----- What every step keeps -----

  // Between making the lock directory and removing it.
  predicate Owns(p: Phase) {
    p.Holding? || p.Working? || p.Staged? || p.Leaving?
  }

  // While the slot is absent, its lock has at most one owner, and only a process
  // that has seen the slot is past the lock without owning it.
  ghost predicate Exclusive(c: Cache) {
    c.slot.None? ==>
      && (forall p :: p in c.procs && Owns(c.procs[p].phase) ==> c.lock)
      && (forall p, q :: p in c.procs && q in c.procs && Owns(c.procs[p].phase) && Owns(c.procs[q].phase) ==> p == q)
      && (forall p :: p in c.procs ==>
            var phase := c.procs[p].phase;
            !phase.Through? && !phase.Trapped? && !phase.Ready? && phase != Leaving(true))
  }

  // Once the slot is present nobody is about to write it.
  ghost predicate WrittenOnce(c: Cache) {
    c.slot.Some? ==> forall p :: p in c.procs ==> !c.procs[p].phase.Working? && !c.procs[p].phase.Staged?
  }

  ghost predicate Inv(c: Cache) {
    Exclusive(c) && WrittenOnce(c)
  }

  lemma StepKeepsExclusive(w: World, c: Cache, e: Event)
    requires Exclusive(c) && WrittenOnce(c)
    ensures Exclusive(Step(w, c, e))
  {
    hide Accepts, GoListed, ShimAccepts;
  }

  lemma StepKeepsWrittenOnce(w: World, c: Cache, e: Event)
    requires Exclusive(c) && WrittenOnce(c)
    ensures WrittenOnce(Step(w, c, e))
  {
    hide Accepts, GoListed, ShimAccepts;
  }

  lemma {:induction false} RunKeepsInv(w: World, events: seq<Event>)
    ensures Inv(Run(w, EMPTY, events))
    decreases |events|
  {
    if events != [] {
      hide Step, Exclusive, WrittenOnce;
      var prefix := events[..|events| - 1];
      RunKeepsInv(w, prefix);
      var c, e := Run(w, EMPTY, prefix), events[|events| - 1];
      StepKeepsExclusive(w, c, e);
      StepKeepsWrittenOnce(w, c, e);
    } else {
      NothingYet();
    }
  }

  lemma NothingYet()
    ensures Inv(EMPTY)
  {
  }

  // ----- Main results -----

  // In every run the slot goes from absent to present at most once: a present slot
  // is never written again, so its content never changes.
  lemma {:induction false} SlotIsFinal(w: World, events: seq<Event>, n: nat)
    requires n <= |events|
    ensures Run(w, EMPTY, events[..n]).slot.Some? ==>
              Run(w, EMPTY, events).slot == Run(w, EMPTY, events[..n]).slot
    decreases |events|
  {
    if n < |events| {
      var prefix := events[..|events| - 1];
      SlotIsFinal(w, prefix, n);
      assert prefix[..n] == events[..n];
      RunKeepsInv(w, prefix);
      if Run(w, EMPTY, prefix).slot.Some? {
        PresentSlotStays(w, Run(w, EMPTY, prefix), events[|events| - 1]);
      }
    } else {
      assert events[..n] == events;
    }
  }

  lemma PresentSlotStays(w: World, c: Cache, e: Event)
    requires WrittenOnce(c) && c.slot.Some?
    ensures Step(w, c, e).slot == c.slot
  {
    hide Accepts, GoListed, ShimAccepts;
  }

  // The i-th event is a download that passed: its process was working, the manifest it
  // fetched lists the digest of the archive it fetched, as its kind of process reads
  // manifests, and the archive holds this binary.
  ghost predicate Downloaded(w: World, events: seq<Event>, i: nat, pid: nat, binary: Bytes) {
    && i < |events| && events[i].Fetched? && events[i].pid == pid
    && var c := Run(w, EMPTY, events[..i]);
    && pid in c.procs && c.procs[pid].phase.Working?
    && Accepts(w, c.procs[pid].kind, events[i].archive, events[i].manifest)
    && w.extract(events[i].archive) == Some(binary)
  }

  // The slot's content was downloaded at i and put in place by the same process at j,
  // which found the slot absent.
  ghost predicate Installed(w: World, events: seq<Event>, i: nat, j: nat, binary: Bytes) {
    && i < j < |events| && events[j].Publish? && Downloaded(w, events, i, events[j].pid, binary)
    && Run(w, EMPTY, events[..j]).slot.None?
    && Run(w, EMPTY, events[..j + 1]).slot == Some(binary)
  }

  // A binary is staged only by a download that passes.
  lemma StageStep(w: World, c: Cache, e: Event, pid: nat)
    requires var t := Step(w, c, e); pid in t.procs && t.procs[pid].phase.Staged?
    ensures var binary := Step(w, c, e).procs[pid].phase.binary;
            && pid in c.procs
            && (|| c.procs[pid].phase == Staged(binary)
                || (&& e.Fetched? && e.pid == pid && c.procs[pid].phase.Working?
                    && Accepts(w, c.procs[pid].kind, e.archive, e.manifest)
                    && w.extract(e.archive) == Some(binary)))
  {
    hide Accepts;
  }

  lemma {:induction false} StagedWasDownloaded(w: World, events: seq<Event>, pid: nat) returns (i: nat)
    requires pid in Run(w, EMPTY, events).procs && Run(w, EMPTY, events).procs[pid].phase.Staged?
    ensures Downloaded(w, events, i, pid, Run(w, EMPTY, events).procs[pid].phase.binary)
    decreases |events|
  {
    hide Step, Accepts;
    var n := |events| - 1;
    var prefix := events[..n];
    var c := Run(w, EMPTY, prefix);
    StageStep(w, c, events[n], pid);
    if c.procs[pid].phase.Staged? && c.procs[pid].phase == Run(w, EMPTY, events).procs[pid].phase {
      i := StagedWasDownloaded(w, prefix, pid);
      assert prefix[..i] == events[..i];
    } else {
      i := n;
    }
  }

  // The slot is filled only by publishing what is staged.
  lemma PublishStep(w: World, c: Cache, e: Event)
    requires c.slot.None? && Step(w, c, e).slot.Some?
    ensures e.Publish? && e.pid in c.procs && c.procs[e.pid].phase == Staged(Step(w, c, e).slot.value)
  {
    hide Accepts;
  }

  // In every run, a present slot holds the binary of an archive whose digest the
  // manifest fetched with it listed: some process downloaded and checked the two, and
  // then published that binary where there was none.
  lemma {:induction false} SlotIsVerified(w: World, events: seq<Event>) returns (i: nat, j: nat)
    requires Run(w, EMPTY, events).slot.Some?
    ensures Installed(w, events, i, j, Run(w, EMPTY, events).slot.value)
    decreases |events|
  {
    hide Step;
    var n := |events| - 1;
    var prefix := events[..n];
    var c := Run(w, EMPTY, prefix);
    if c.slot.Some? {
      RunKeepsInv(w, prefix);
      PresentSlotStays(w, c, events[n]);
      i, j := SlotIsVerified(w, prefix);
      assert prefix[..i] == events[..i] && prefix[..j] == events[..j] && prefix[..j + 1] == events[..j + 1];
    } else {
      PublishStep(w, c, events[n]);
      i := StagedWasDownloaded(w, prefix, events[n].pid);
      assert prefix[..i] == events[..i] && events[..n + 1] == events;
      j := n;
    }
  }

  // Whenever a process may execute the slot, the slot is present and was installed
  // so; and in every continuation it is still that binary that it executes.
  lemma NothingExecutesUnverified(w: World, events: seq<Event>, more: seq<Event>, pid: nat) returns (i: nat, j: nat)
    requires pid in Run(w, EMPTY, events).procs && Run(w, EMPTY, events).procs[pid].phase.Ready?
    ensures Run(w, EMPTY, events + more).slot.Some?
    ensures Installed(w, events, i, j, Run(w, EMPTY, events + more).slot.value)
  {
    RunKeepsInv(w, events);
    i, j := SlotIsVerified(w, events);
    assert (events + more)[..|events|] == events;
    SlotIsFinal(w, events + more, |events|);
  }

  // At most one process at a time is between seeing the slot absent under the lock
  // and publishing or giving up, whatever the others do.
  lemma OneHydratorAtATime(w: World, events: seq<Event>, p: nat, q: nat)
    requires var procs := Run(w, EMPTY, events).procs;
             && p in procs && (procs[p].phase.Working? || procs[p].phase.Staged?)
             && q in procs && (procs[q].phase.Working? || procs[q].phase.Staged?)
    ensures p == q && Run(w, EMPTY, events).lock && Run(w, EMPTY, events).slot.None?
  {
    RunKeepsInv(w, events);
  }

  // A shim that holds no lock removes the directory only once the slot is present:
  // then the lock protects nothing any more.
  lemma ForeignUnlockIsHarmless(w: World, events: seq<Event>, pid: nat)
    requires var c := Run(w, EMPTY, events);
             pid in c.procs && (c.procs[pid].phase.Through? || c.procs[pid].phase.Trapped?)
    ensures var c := Run(w, EMPTY, events);
            c.slot.Some? && Step(w, c, Recheck(pid)).slot == c.slot && Step(w, c, Interrupt(pid)).slot == c.slot
    ensures forall more: seq<Event> :: Run(w, EMPTY, events + more).slot == Run(w, EMPTY, events).slot
  {
    RunKeepsInv(w, events);
    forall more: seq<Event> ensures Run(w, EMPTY, events + more).slot == Run(w, EMPTY, events).slot {
      assert (events + more)[..|events|] == events;
      SlotIsFinal(w, events + more, |events|);
    }
  }

  // ----- Progress -----

  // The rest of what a process does with a download that passes.
  function AfterFetch(pid: nat, kind: Kind): seq<Event> {
    if kind.Go? then [Publish(pid), Unlock(pid)] else [Publish(pid), Unlock(pid), Finish(pid)]
  }

  // All that a process does from its start, when it finds the lock free and no slot.
  function Hydrate(pid: nat, kind: Kind, archive: Bytes, manifest: string): seq<Event> {
    [Spawn(pid, kind), Look(pid), TryLock(pid), Recheck(pid), Fetched(pid, archive, manifest)] + AfterFetch(pid, kind)
  }

  ghost predicate PhaseIs(c: Cache, pid: nat, kind: Kind, phase: Phase) {
    pid in c.procs && c.procs[pid] == Proc(kind, phase)
  }

  lemma RunOne(w: World, c: Cache, events: seq<Event>, e: Event)
    ensures Run(w, c, events + [e]) == Step(w, Run(w, c, events), e)
  {
    assert (events + [e])[..|events|] == events;
  }

  // Only this process moves.
  ghost predicate OnlyMoves(c: Cache, d: Cache, pid: nat) {
    forall p :: p != pid ==> (p in c.procs <==> p in d.procs) && (p in c.procs ==> d.procs[p] == c.procs[p])
  }

  lemma GoodFetchStages(w: World, c: Cache, pid: nat, kind: Kind, archive: Bytes, manifest: string, binary: Bytes)
    requires PhaseIs(c, pid, kind, Working) && w.extract(archive) == Some(binary)
    requires if kind.Go? then GoListed(manifest, w.name, w.sha(archive))
             else ShimAccepts(manifest, w.name, w.sha(archive))
    ensures var d := Step(w, c, Fetched(pid, archive, manifest));
            PhaseIs(d, pid, kind, Staged(binary)) && d.slot == c.slot && OnlyMoves(c, d, pid)
  {
    hide GoListed, ShimAccepts;
  }

  lemma StagedPublishes(w: World, c: Cache, pid: nat, kind: Kind, binary: Bytes)
    requires PhaseIs(c, pid, kind, Staged(binary))
    ensures var d := Step(w, c, Publish(pid));
            var u := Step(w, d, Unlock(pid));
            && PhaseIs(d, pid, kind, Leaving(true)) && d.slot == Some(binary) && OnlyMoves(c, d, pid)
            && PhaseIs(u, pid, kind, if kind.Go? then Ready else Trapped) && u.slot == Some(binary) && !u.lock
            && OnlyMoves(c, u, pid)
  {
  }

  lemma TrappedFinishes(w: World, c: Cache, pid: nat)
    requires PhaseIs(c, pid, Shim, Trapped)
    ensures var d := Step(w, c, Finish(pid));
            PhaseIs(d, pid, Shim, Ready) && d.slot == c.slot && d.lock == c.lock && OnlyMoves(c, d, pid)
  {
  }

  // A process at work that fetches an archive whose digest the manifest lists, and which
  // holds a binary, can go on to fill the slot with that binary, free the lock and execute.
  lemma GoodDownloadFillsTheSlot(w: World, c: Cache, pid: nat, kind: Kind, archive: Bytes, manifest: string,
                                 binary: Bytes)
    requires PhaseIs(c, pid, kind, Working) && w.extract(archive) == Some(binary)
    requires if kind.Go? then GoListed(manifest, w.name, w.sha(archive))
             else ShimAccepts(manifest, w.name, w.sha(archive))
    ensures var d := Run(w, c, [Fetched(pid, archive, manifest)] + AfterFetch(pid, kind));
            PhaseIs(d, pid, kind, Ready) && d.slot == Some(binary) && !d.lock && OnlyMoves(c, d, pid)
  {
    hide Step, GoListed, ShimAccepts;
    var e := Fetched(pid, archive, manifest);
    GoodFetchStages(w, c, pid, kind, archive, manifest, binary);
    var d := Step(w, c, e);
    StagedPublishes(w, d, pid, kind, binary);
    RunOne(w, c, [], e);
    RunOne(w, c, [e], Publish(pid));
    RunOne(w, c, [e, Publish(pid)], Unlock(pid));
    assert [] + [e] == [e] && [e] + [Publish(pid)] == [e, Publish(pid)];
    assert [e, Publish(pid)] + [Unlock(pid)] == [e, Publish(pid), Unlock(pid)] == [e] + [Publish(pid), Unlock(pid)];
    if kind.Shim? {
      RunOne(w, c, [e, Publish(pid), Unlock(pid)], Finish(pid));
      assert [e, Publish(pid), Unlock(pid)] + [Finish(pid)] == [e] + AfterFetch(pid, kind);
      TrappedFinishes(w, Run(w, c, [e, Publish(pid), Unlock(pid)]), pid);
    }
  }

  // One that fetches anything else fails, leaves the slot as it is and frees the lock.
  lemma BadDownloadFails(w: World, c: Cache, pid: nat, kind: Kind, archive: Bytes, manifest: string)
    requires PhaseIs(c, pid, kind, Working)
    requires w.extract(archive).None?
             || !(if kind.Go? then GoListed(manifest, w.name, w.sha(archive))
                  else ShimAccepts(manifest, w.name, w.sha(archive)))
    ensures var d := Run(w, c, [Fetched(pid, archive, manifest), Unlock(pid)]);
            PhaseIs(d, pid, kind, Failed) && d.slot == c.slot && !d.lock && OnlyMoves(c, d, pid)
  {
    hide GoListed, ShimAccepts;
    var e := Fetched(pid, archive, manifest);
    RunOne(w, c, [], e);
    RunOne(w, c, [e], Unlock(pid));
    assert [] + [e] == [e] && [e] + [Unlock(pid)] == [e, Unlock(pid)];
  }

  lemma StartsToWork(w: World, c: Cache, pid: nat, kind: Kind)
    requires pid !in c.procs && !c.lock && c.slot.None?
    ensures var d := Run(w, c, [Spawn(pid, kind), Look(pid), TryLock(pid), Recheck(pid)]);
            PhaseIs(d, pid, kind, Working) && d.slot.None? && OnlyMoves(c, d, pid)
  {
    var a, b, l, r := Spawn(pid, kind), Look(pid), TryLock(pid), Recheck(pid);
    RunOne(w, c, [], a);
    RunOne(w, c, [a], b);
    RunOne(w, c, [a, b], l);
    RunOne(w, c, [a, b, l], r);
    assert [] + [a] == [a] && [a] + [b] == [a, b] && [a, b] + [l] == [a, b, l] && [a, b, l] + [r] == [a, b, l, r];
  }

  lemma {:induction false} RunJoins(w: World, c: Cache, a: seq<Event>, b: seq<Event>)
    ensures Run(w, c, a + b) == Run(w, Run(w, c, a), b)
    decreases |b|
  {
    if b == [] {
      assert a + b == a;
    } else {
      hide Step;
      var n := |b| - 1;
      assert (a + b)[..|a| + n] == a + b[..n];
      RunJoins(w, c, a, b[..n]);
    }
  }

  // In any cache without a slot whose lock is free, a process that starts and downloads
  // what a release publishes, an archive and a manifest with just its digest for the
  // name, fills the slot and may execute it. So it is in the empty one.
  lemma ReleaseHydrates(w: World, c: Cache, pid: nat, kind: Kind, archive: Bytes, entries: seq<Entry>, i: nat,
                        binary: Bytes)
    requires pid !in c.procs && !c.lock && c.slot.None? && w.extract(archive) == Some(binary)
    requires Words(entries) && IsDigest(w.sha(archive)) && OnlyNamed(entries, w.name, i)
    requires entries[i].digest == w.sha(archive)
    ensures var d := Run(w, c, Hydrate(pid, kind, archive, WriteManifest(entries)));
            PhaseIs(d, pid, kind, Ready) && d.slot == Some(binary) && !d.lock && OnlyMoves(c, d, pid)
  {
    hide Run, Words, WriteManifest, GoListed, ShimAccepts;
    var manifest := WriteManifest(entries);
    assert FirstNamed(entries, w.name, i) && Lower(w.sha(archive)) == w.sha(archive);
    GoReadsWritten(entries, w.name, w.sha(archive));
    ShimReadsWritten(entries, w.name, w.sha(archive));
    var start := [Spawn(pid, kind), Look(pid), TryLock(pid), Recheck(pid)];
    StartsToWork(w, c, pid, kind);
    RunJoins(w, c, start, [Fetched(pid, archive, manifest)] + AfterFetch(pid, kind));
    assert Hydrate(pid, kind, archive, manifest) == start + ([Fetched(pid, archive, manifest)] + AfterFetch(pid, kind));
    GoodDownloadFillsTheSlot(w, Run(w, c, start), pid, kind, archive, manifest, binary);
  }

  // Once the slot is present, a process that starts and looks may execute it at once.
  lemma PresentSlotIsFound(w: World, c: Cache, pid: nat, kind: Kind)
    requires pid !in c.procs && c.slot.Some?
    ensures PhaseIs(Step(w, Step(w, c, Spawn(pid, kind)), Look(pid)), pid, kind, Ready)
  {
  }

  // The first hydration: nothing is there yet.
  lemma FirstHydration(w: World, pid: nat, kind: Kind, archive: Bytes, entries: seq<Entry>, i: nat, binary: Bytes)
    requires w.extract(archive) == Some(binary) && Words(entries) && IsDigest(w.sha(archive))
    requires OnlyNamed(entries, w.name, i) && entries[i].digest == w.sha(archive)
    ensures var d := Run(w, EMPTY, Hydrate(pid, kind, archive, WriteManifest(entries)));
            PhaseIs(d, pid, kind, Ready) && d.slot == Some(binary) && !d.lock
  {
    ReleaseHydrates(w, EMPTY, pid, kind, archive, entries, i, binary);
  }

  lemma RunTwo(w: World, c: Cache, a: Event, b: Event)
    ensures Run(w, c, [a, b]) == Step(w, Step(w, c, a), b)
  {
    hide Step;
    RunOne(w, c, [], a);
    RunOne(w, c, [a], b);
    assert [] + [a] == [a] && [a] + [b] == [a, b];
  }

  lemma RunThree(w: World, c: Cache, a: Event, b: Event, d: Event)
    ensures Run(w, c, [a, b, d]) == Step(w, Step(w, Step(w, c, a), b), d)
  {
    hide Step;
    RunTwo(w, c, a, b);
    RunOne(w, c, [a, b], d);
    assert [a, b] + [d] == [a, b, d];
  }

  // What a process that has passed the lock without hydrating has left to do.
  function Leave(pid: nat, kind: Kind): seq<Event> {
    if kind.Go? then [Unlock(pid)] else [Unlock(pid), Finish(pid)]
  }

  // A process that waited while another filled the slot finds it, and may execute it: by
  // taking the free lock and looking again, or, as a shim, by seeing it while it polls.
  lemma WaiterFindsTheSlot(w: World, c: Cache, pid: nat, kind: Kind)
    requires PhaseIs(c, pid, kind, Waiting) && c.slot.Some?
    ensures !c.lock ==>
              var d := Run(w, c, [TryLock(pid), Recheck(pid)] + Leave(pid, kind));
              PhaseIs(d, pid, kind, Ready) && d.slot == c.slot && !d.lock
    ensures kind.Shim? ==>
              var d := Run(w, c, [Poll(pid), Recheck(pid)] + Leave(pid, kind));
              PhaseIs(d, pid, kind, Ready) && d.slot == c.slot
  {
    var leave := Leave(pid, kind);
    RunTwo(w, c, TryLock(pid), Recheck(pid));
    RunJoins(w, c, [TryLock(pid), Recheck(pid)], leave);
    RunTwo(w, c, Poll(pid), Recheck(pid));
    RunJoins(w, c, [Poll(pid), Recheck(pid)], leave);
    LeavesReady(w, Run(w, c, [TryLock(pid), Recheck(pid)]), pid, kind);
    LeavesReady(w, Run(w, c, [Poll(pid), Recheck(pid)]), pid, kind);
    hide Run, Leave;
  }

  lemma LeavesReady(w: World, c: Cache, pid: nat, kind: Kind)
    ensures PhaseIs(c, pid, kind, Leaving(true)) ==>
              var d := Run(w, c, Leave(pid, kind));
              PhaseIs(d, pid, kind, Ready) && d.slot == c.slot && !d.lock
  {
    RunTwo(w, c, Unlock(pid), Finish(pid));
    RunOne(w, c, [], Unlock(pid));
    assert [] + [Unlock(pid)] == [Unlock(pid)];
  }

  // The ways to fail leave the slot alone: a disabled start without a slot, giving up the
  // wait, which leaves the lock as well, and a failure at work, which frees it. So does a
  // crash, which leaves the lock held.
  lemma FailuresLeaveTheSlot(w: World, c: Cache, pid: nat, kind: Kind, phase: Phase)
    requires PhaseIs(c, pid, kind, phase)
    ensures phase.Start? ==>
              Step(w, c, Disabled(pid)) == if c.slot.Some? then c else Move(c, pid, Failed)
    ensures phase.Waiting? ==> Step(w, c, GiveUp(pid)) == Move(c, pid, Failed)
    ensures phase.Working? || phase.Staged? ==>
              Run(w, c, [Fail(pid), Unlock(pid)]) == Move(c, pid, Failed).(lock := false)
    ensures kind.Shim? && (phase.Working? || phase.Staged? || phase.Leaving? || phase.Trapped?) ==>
              Run(w, c, [Interrupt(pid), Unlock(pid)]) == Move(c, pid, Failed).(lock := false)
    ensures !phase.Ready? && !phase.Failed? && !phase.Crashed? ==> Step(w, c, Crash(pid)) == Move(c, pid, Crashed)
  {
    RunTwo(w, c, Fail(pid), Unlock(pid));
    RunTwo(w, c, Interrupt(pid), Unlock(pid));
  }
}
