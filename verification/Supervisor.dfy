// The delivery supervisor (examples/supervisory-control/supervisor.py): what every call
// does to the session, as functions on a value, and the class whose methods do it in place.
module Supervision {
  import opened Envelopes

  type Bytes = seq<byte>

  datatype Stage = Draft | Built | Verified | Released

  const DISPATCH := "dispatch"
  const BUILD := "build"
  const RELEASE := "release"
  const DISPATCHER := "codex"
  const LEASE: int := 30

  // "release candidate\n"
  const CANDIDATE: Bytes :=
    [0x72, 0x65, 0x6C, 0x65, 0x61, 0x73, 0x65, 0x20, 0x63, 0x61, 0x6E, 0x64, 0x69, 0x64, 0x61, 0x74, 0x65, 0x0A]

  function StageName(s: Stage): string {
    match s
    case Draft => "draft"
    case Built => "built"
    case Verified => "verified"
    case Released => "released"
  }

  datatype Key = Key(actor: string, action: string)
  datatype Grant = Grant(epoch: nat, deadline: int)
  datatype Command = Command(action: string, text: string)

  datatype Entry =
    | Admission(stage: Stage, actor: string, action: Option<string>, allowed: bool, actionID: string, reason: string)
    | DispatchCompleted(stage: Stage, actor: string, worker: string)
    | BuildCompleted(stage: Stage, actor: string, revision: nat)
    | ReleaseCompleted(stage: Stage, actor: string, revision: nat)
    | StaleTestIgnored(stage: Stage, reported: int)
    | TestsPassed(stage: Stage, reported: int)
    | TestsInvalidated(stage: Stage, reason: string)

  // One delivery session with its project directory; a missing file is None.
  datatype Session = Session(
    worker: string, commands: seq<Command>, stage: Stage, revision: nat, testedRevision: Option<int>,
    testedDigest: Option<string>, epoch: nat, dispatched: bool, pending: map<Key, Grant>, events: seq<Entry>,
    artifact: Option<Bytes>, released: Option<Bytes>)

  predicate Fresh(s: Session) {
    && s.stage == Draft && s.revision == 0 && s.testedRevision.None? && s.testedDigest.None?
    && s.epoch == 0 && !s.dispatched && s.pending == map[] && s.events == [] && s.released.None?
  }

  predicate Permitted(s: Session, actor: string, action: string) {
    if action == DISPATCH then actor == DISPATCHER && !s.dispatched && s.stage == Draft
    else if actor != s.worker then false
    else if action == BUILD then s.stage != Released
    else action == RELEASE && s.stage == Verified && s.testedRevision == Some(s.revision)
  }

  // The first action whose command is the proposed one.
  function ActionFor(commands: seq<Command>, text: string): Option<string> {
    if commands == [] then None
    else if commands[0].text == text then Some(commands[0].action)
    else ActionFor(commands[1..], text)
  }

  predicate Allowed(s: Session, actor: string, text: string) {
    var action := ActionFor(s.commands, text);
    action.Some? && action.value != "" && Permitted(s, actor, action.value)
  }

  function Reason(s: Session, actor: string, text: string): string {
    var action := ActionFor(s.commands, text);
    if Allowed(s, actor, text) then "SUPERVISOR_ALLOW " + action.value + " state=" + StageName(s.stage)
    else
      "SUPERVISOR_DENY " + (if action.Some? && action.value != "" then action.value else "unknown")
      + " state=" + StageName(s.stage) + "; build and obtain a current external test result before release"
  }

  function Admit(s: Session, actor: string, text: string, actionID: string, now: int): Session {
    var action := ActionFor(s.commands, text);
    var allowed := Allowed(s, actor, text);
    var seen := s.(events := s.events + [Admission(s.stage, actor, action, allowed, actionID, Reason(s, actor, text))]);
    if allowed then seen.(pending := s.pending[Key(actor, action.value) := Grant(s.epoch, now + LEASE)]) else seen
  }

  // The grant holds now: unrevoked, unexpired and still permitted.
  predicate Current(s: Session, actor: string, action: string, now: int) {
    var key := Key(actor, action);
    && key in s.pending && s.pending[key].epoch == s.epoch && now <= s.pending[key].deadline
    && Permitted(s, actor, action)
  }

  // The bytes on disk are the tested ones, as far as the digest tells.
  predicate Unchanged(sha: Bytes -> string, s: Session) {
    s.artifact.Some? && Some(sha(s.artifact.value)) == s.testedDigest
  }

  // An execution that returns instead of raising.
  predicate Executes(sha: Bytes -> string, s: Session, actor: string, action: string, now: int) {
    Current(s, actor, action, now) && (action == DISPATCH || action == BUILD || Unchanged(sha, s))
  }

  function Execute(sha: Bytes -> string, s: Session, actor: string, action: string, now: int): Session {
    var popped := s.(pending := s.pending - {Key(actor, action)});
    if !Current(s, actor, action, now) then popped
    else if action == DISPATCH then
      popped.(dispatched := true, events := s.events + [DispatchCompleted(s.stage, actor, s.worker)])
    else if action == BUILD then Build(popped, actor)
    else Publish(sha, popped, actor)
  }

  function Build(s: Session, actor: string): Session {
    s.(artifact := Some(CANDIDATE), revision := s.revision + 1, epoch := s.epoch + 1, stage := Built,
       testedRevision := None, testedDigest := None,
       events := s.events + [BuildCompleted(Built, actor, s.revision + 1)])
  }

  // The release itself: refused, with the tests revoked, if the bytes were edited.
  function Publish(sha: Bytes -> string, s: Session, actor: string): Session {
    if s.artifact.None? then s
    else if !Unchanged(sha, s) then Invalidate(s, "artifact changed since test")
    else
      s.(released := s.artifact, stage := Released, epoch := s.epoch + 1,
         events := s.events + [ReleaseCompleted(Released, actor, s.revision)])
  }

  function Invalidate(s: Session, reason: string): Session {
    if s.stage == Built || s.stage == Verified then
      s.(stage := Built, testedRevision := None, testedDigest := None, epoch := s.epoch + 1,
         events := s.events + [TestsInvalidated(Built, reason)])
    else s
  }

  // A test report that is recorded as passed.
  predicate Passes(s: Session, revision: int, artifact: Bytes) {
    s.stage == Built && revision == s.revision && artifact == CANDIDATE && s.artifact == Some(artifact)
  }

  function ObserveTests(sha: Bytes -> string, s: Session, revision: int, artifact: Bytes): Session {
    if s.stage != Built || revision != s.revision then
      s.(events := s.events + [StaleTestIgnored(s.stage, revision)])
    else if artifact != CANDIDATE then Invalidate(s, "tests failed")
    else if s.artifact.None? then s
    else if artifact != s.artifact.value then Invalidate(s, "tests failed")
    else
      s.(testedRevision := Some(revision), testedDigest := Some(sha(artifact)), stage := Verified, epoch := s.epoch + 1,
         events := s.events + [TestsPassed(Verified, revision)])
  }

  // ----- The session in place -----

  class Supervisor {
    const worker: string
    const commands: seq<Command>
    const sha: Bytes -> string
    var stage: Stage
    var revision: nat
    var testedRevision: Option<int>
    var testedDigest: Option<string>
    var epoch: nat
    var dispatched: bool
    var pending: map<Key, Grant>
    var events: seq<Entry>
    // The two files of the project directory.
    var artifact: Option<Bytes>
    var released: Option<Bytes>

    function State(): Session
      reads this
    {
      Session(worker, commands, stage, revision, testedRevision, testedDigest, epoch, dispatched, pending, events,
              artifact, released)
    }

    constructor (worker: string, commands: seq<Command>, sha: Bytes -> string, artifact: Option<Bytes>)
      ensures Fresh(State()) && this.worker == worker && this.commands == commands && this.sha == sha
      ensures this.artifact == artifact
    {
      this.worker, this.commands, this.sha := worker, commands, sha;
      stage, revision, testedRevision, testedDigest := Draft, 0, None, None;
      epoch, dispatched, pending, events := 0, false, map[], [];
      this.artifact, released := artifact, None;
    }

    method FindAction(text: string) returns (action: Option<string>)
      ensures action == ActionFor(commands, text)
    {
      for i := 0 to |commands|
        invariant ActionFor(commands, text) == ActionFor(commands[i..], text)
      {
        if commands[i].text == text {
          return Some(commands[i].action);
        }
      }
      return None;
    }

    method AdmitAction(actor: string, text: string, actionID: string, now: int) returns (allowed: bool, reason: string)
      modifies this
      ensures State() == Admit(old(State()), actor, text, actionID, now)
      ensures allowed == Allowed(old(State()), actor, text) && reason == Reason(old(State()), actor, text)
    {
      var action := FindAction(text);
      allowed := action.Some? && action.value != "" && Permitted(State(), actor, action.value);
      if allowed {
        reason := "SUPERVISOR_ALLOW " + action.value + " state=" + StageName(stage);
      } else {
        reason := "SUPERVISOR_DENY " + (if action.Some? && action.value != "" then action.value else "unknown")
          + " state=" + StageName(stage) + "; build and obtain a current external test result before release";
      }
      events := events + [Admission(stage, actor, action, allowed, actionID, reason)];
      if allowed {
        pending := pending[Key(actor, action.value) := Grant(epoch, now + LEASE)];
      }
    }

    // False is a raised exception.
    method ExecuteAction(actor: string, action: string, now: int) returns (ok: bool)
      modifies this
      ensures State() == Execute(sha, old(State()), actor, action, now)
      ensures ok == Executes(sha, old(State()), actor, action, now)
    {
      hide Publish, Permitted;
      var current := Consume(actor, action, now);
      if !current {
        return false;
      }
      if action == DISPATCH {
        dispatched := true;
        events := events + [DispatchCompleted(stage, actor, worker)];
        return true;
      }
      if action == BUILD {
        BuildArtifact(actor);
        return true;
      }
      ok := PublishArtifact(actor);
    }

    // Permission is consumed once, and checked again.
    method Consume(actor: string, action: string, now: int) returns (current: bool)
      modifies this
      ensures State() == old(State()).(pending := old(pending) - {Key(actor, action)})
      ensures current == Current(old(State()), actor, action, now)
    {
      var key := Key(actor, action);
      var grant := if key in pending then Some(pending[key]) else None;
      pending := pending - {key};
      current := grant.Some? && grant.value.epoch == epoch && grant.value.deadline >= now
              && Permitted(State(), actor, action);
    }

    method BuildArtifact(actor: string)
      modifies this
      ensures State() == Build(old(State()), actor)
    {
      artifact := Some(CANDIDATE);
      revision := revision + 1;
      epoch := epoch + 1;
      stage := Built;
      testedRevision, testedDigest := None, None;
      events := events + [BuildCompleted(stage, actor, revision)];
    }

    method PublishArtifact(actor: string) returns (ok: bool)
      modifies this
      ensures State() == Publish(sha, old(State()), actor)
      ensures ok == Unchanged(sha, old(State()))
    {
      if artifact.None? {
        return false;
      }
      if Some(sha(artifact.value)) != testedDigest {
        InvalidateTests("artifact changed since test");
        return false;
      }
      released := artifact;
      stage := Released;
      epoch := epoch + 1;
      events := events + [ReleaseCompleted(stage, actor, revision)];
      return true;
    }

    method InvalidateTests(reason: string)
      modifies this
      ensures State() == Invalidate(old(State()), reason)
    {
      if stage == Built || stage == Verified {
        stage := Built;
        testedRevision, testedDigest := None, None;
        epoch := epoch + 1;
        events := events + [TestsInvalidated(stage, reason)];
      }
    }

    method Observe(revision: int, artifact: Bytes) returns (passed: bool)
      modifies this
      ensures State() == ObserveTests(sha, old(State()), revision, artifact)
      ensures passed == Passes(old(State()), revision, artifact)
    {
      if stage != Built || revision != this.revision {
        events := events + [StaleTestIgnored(stage, revision)];
        return false;
      }
      if artifact == CANDIDATE && this.artifact.None? {
        return false;
      }
      if artifact != CANDIDATE || artifact != this.artifact.value {
        InvalidateTests("tests failed");
        return false;
      }
      testedRevision := Some(revision);
      testedDigest := Some(sha(artifact));
      stage := Verified;
      epoch := epoch + 1;
      events := events + [TestsPassed(stage, revision)];
      return true;
    }
  }
}
