// Who may do what, and when, in every run of the delivery supervisor, read off the log of
// its events and the inputs alone.
module SupervisorPolicy {
  import opened Envelopes
  import opened Supervision
  import opened SupervisorRuns

  // ----- What the log says -----

  ghost predicate DispatchLogged(log: seq<Entry>) {
    exists e :: e in log && e.DispatchCompleted?
  }

  ghost predicate BuildLogged(log: seq<Entry>) {
    exists e :: e in log && e.BuildCompleted?
  }

  ghost predicate ReleaseLogged(log: seq<Entry>) {
    exists e :: e in log && e.ReleaseCompleted?
  }

  // A passing report has not been overtaken by a build, an invalidation or a release.
  ghost predicate TestStands(log: seq<Entry>) {
    exists i :: 0 <= i < |log| && log[i].TestsPassed? && NothingSince(log, i)
  }

  ghost predicate NothingSince(log: seq<Entry>, i: nat) {
    forall j :: i < j < |log| ==>
      !log[j].BuildCompleted? && !log[j].TestsInvalidated? && !log[j].ReleaseCompleted?
  }

  predicate Overtakes(e: Entry) {
    e.BuildCompleted? || e.TestsInvalidated? || e.ReleaseCompleted?
  }

  lemma TestStandsGrows(log: seq<Entry>, e: Entry)
    ensures TestStands(log + [e]) <==> e.TestsPassed? || (TestStands(log) && !Overtakes(e))
  {
    var longer := log + [e];
    assert longer[|log|] == e;
    assert forall i :: 0 <= i < |log| ==> longer[i] == log[i];
    if e.TestsPassed? {
      assert NothingSince(longer, |log|);
    }
    if TestStands(log) && !Overtakes(e) {
      var i :| 0 <= i < |log| && log[i].TestsPassed? && NothingSince(log, i);
      assert NothingSince(longer, i);
    }
    if TestStands(longer) && !e.TestsPassed? {
      var i :| 0 <= i < |longer| && longer[i].TestsPassed? && NothingSince(longer, i);
      forall j | i < j < |log| ensures !Overtakes(log[j]) {
        assert !Overtakes(longer[j]);
      }
      assert NothingSince(log, i);
    }
  }

  // The session agrees with its log.
  ghost predicate Agrees(s: Session) {
    && (s.dispatched <==> DispatchLogged(s.events))
    && (s.stage == Draft <==> !BuildLogged(s.events))
    && (s.stage == Released <==> ReleaseLogged(s.events))
    && (s.stage == Verified <==> TestStands(s.events))
    && (s.stage == Verified ==> s.testedRevision == Some(s.revision))
  }

  // The entry that one input leaves, if any.
  ghost predicate Logs(s: Session, t: Session, e: Entry) {
    t.events == s.events + [e]
  }

  lemma LogGrows(log: seq<Entry>, e: Entry)
    ensures DispatchLogged(log + [e]) <==> DispatchLogged(log) || e.DispatchCompleted?
    ensures BuildLogged(log + [e]) <==> BuildLogged(log) || e.BuildCompleted?
    ensures ReleaseLogged(log + [e]) <==> ReleaseLogged(log) || e.ReleaseCompleted?
  {
    assert e in log + [e];
    assert forall x :: x in log ==> x in log + [e];
  }

  // How the stage and the dispatch flag move with what is logged.
  ghost predicate Moves(s: Session, t: Session, e: Entry) {
    && Logs(s, t, e)
    && (t.dispatched <==> s.dispatched || e.DispatchCompleted?)
    && (t.stage == Draft <==> s.stage == Draft && !e.BuildCompleted?)
    && (t.stage == Released <==> s.stage == Released || e.ReleaseCompleted?)
    && (t.stage == Verified <==> e.TestsPassed? || (s.stage == Verified && !Overtakes(e)))
    && (e.TestsPassed? ==> t.testedRevision == Some(t.revision))
    && (t.stage == Verified && !e.TestsPassed? ==> t.testedRevision == s.testedRevision && t.revision == s.revision)
  }

  ghost predicate Still(s: Session, t: Session) {
    && t.events == s.events && t.dispatched == s.dispatched && t.stage == s.stage
    && t.testedRevision == s.testedRevision && t.revision == s.revision
  }

  lemma StepMoves(sha: Bytes -> string, s: Session, i: Input)
    ensures var t := Step(sha, s, i);
            Still(s, t) || (|t.events| > 0 && Moves(s, t, t.events[|t.events| - 1]))
  {
    hide Allowed, Reason, ActionFor;
  }

  lemma MovesKeepsAgreement(s: Session, t: Session, e: Entry)
    requires Agrees(s) && Moves(s, t, e)
    ensures Agrees(t)
  {
    LogGrows(s.events, e);
    TestStandsGrows(s.events, e);
    hide DispatchLogged, BuildLogged, ReleaseLogged, TestStands;
  }

  lemma FreshAgrees(s: Session)
    requires Fresh(s)
    ensures Agrees(s)
  {
  }

  lemma {:induction false} RunAgrees(sha: Bytes -> string, states: seq<Session>, inputs: seq<Input>, n: nat)
    requires IsRun(sha, states, inputs) && n <= |inputs|
    ensures Agrees(states[n])
    ensures states[n].worker == states[0].worker && states[n].commands == states[0].commands
  {
    hide Step, Fresh, Agrees, Moves;
    if n == 0 {
      FreshAgrees(states[0]);
    } else {
      RunAgrees(sha, states, inputs, n - 1);
      var s, t := states[n - 1], states[n];
      StepMoves(sha, s, inputs[n - 1]);
      StepKeepsSettings(sha, s, inputs[n - 1]);
      if Still(s, t) {
        StillAgrees(s, t);
      } else {
        MovesKeepsAgreement(s, t, t.events[|t.events| - 1]);
      }
    }
  }

  lemma StillAgrees(s: Session, t: Session)
    requires Agrees(s) && Still(s, t)
    ensures Agrees(t)
  {
  }

  lemma StepKeepsSettings(sha: Bytes -> string, s: Session, i: Input)
    ensures Step(sha, s, i).worker == s.worker && Step(sha, s, i).commands == s.commands
  {
  }

  // ----- Who acts -----

  // In every run, what is built and what is released is the worker's doing, by the action
  // of that name, and what is dispatched the dispatcher's.
  lemma WhoActs(sha: Bytes -> string, states: seq<Session>, inputs: seq<Input>, k: nat)
    requires IsRun(sha, states, inputs) && k < |inputs|
    ensures var s, t, i := states[k], states[k + 1], inputs[k];
            && (t.revision != s.revision ==>
                  i.Perform? && i.actor == states[0].worker && i.action == "build" && t.revision == s.revision + 1)
            && (t.released != s.released ==>
                  i.Perform? && i.actor == states[0].worker && i.action == "release" && t.released == s.artifact)
            && (t.dispatched != s.dispatched ==> i.Perform? && i.actor == "codex" && i.action == "dispatch")
  {
    RunAgrees(sha, states, inputs, k);
    assert states[k + 1] == Step(sha, states[k], inputs[k]);
    hide Agrees, Fresh;
  }

  // ----- What is admitted -----

  // The first command with the proposed text.
  predicate FirstCommand(commands: seq<Command>, text: string, j: nat) {
    j < |commands| && commands[j].text == text && forall i :: 0 <= i < j ==> commands[i].text != text
  }

  lemma {:induction false} ActionIsFirst(commands: seq<Command>, text: string)
    ensures match ActionFor(commands, text)
            case None => forall j :: 0 <= j < |commands| ==> commands[j].text != text
            case Some(action) => exists j: nat :: FirstCommand(commands, text, j) && commands[j].action == action
  {
    if commands != [] {
      ActionIsFirst(commands[1..], text);
      if commands[0].text == text {
        assert FirstCommand(commands, text, 0);
      } else if ActionFor(commands[1..], text).Some? {
        var j: nat :| FirstCommand(commands[1..], text, j)
          && commands[1..][j].action == ActionFor(commands, text).value;
        assert FirstCommand(commands, text, j + 1);
      }
    }
  }

  // Dispatch is the dispatcher's, once and before any build; building is the worker's, until
  // a release; releasing is the worker's, while a passing test stands.
  ghost predicate MayDo(log: seq<Entry>, worker: string, actor: string, action: string) {
    || (action == "dispatch" && actor == "codex" && !DispatchLogged(log) && !BuildLogged(log))
    || (action == "build" && actor == worker && !ReleaseLogged(log))
    || (action == "release" && actor == worker && TestStands(log))
  }

  // The proposal was admitted: the log says so.
  predicate Admitted(t: Session, actor: string, action: string) {
    && |t.events| > 0
    && var e := t.events[|t.events| - 1];
    e.Admission? && e.allowed && e.actor == actor && e.action == Some(action)
  }

  // In every run a proposal is admitted exactly when its text is a command, and the action
  // of the first command with that text is one that the actor may do, as the log stands.
  lemma AdmittedExactly(sha: Bytes -> string, states: seq<Session>, inputs: seq<Input>, k: nat)
    requires IsRun(sha, states, inputs) && k < |inputs| && inputs[k].Propose?
    ensures var s, t, i := states[k], states[k + 1], inputs[k];
            && |t.events| == |s.events| + 1 && t.events[..|s.events|] == s.events
            && t.events[|s.events|].Admission? && t.events[|s.events|].actionID == i.actionID
            && (forall action :: Admitted(t, i.actor, action) <==>
                  && MayDo(s.events, states[0].worker, i.actor, action)
                  && exists j: nat :: FirstCommand(states[0].commands, i.text, j)
                                      && states[0].commands[j].action == action)
  {
    var s, t, i := states[k], states[k + 1], inputs[k];
    RunAgrees(sha, states, inputs, k);
    assert t == Admit(s, i.actor, i.text, i.actionID, i.now);
    AdmissionLogged(s, i.actor, i.text, i.actionID, i.now);
    hide IsRun, Agrees, Admit, Admitted, MayDo, FirstCommand;
    forall action ensures Admitted(t, i.actor, action) <==>
        && MayDo(s.events, states[0].worker, i.actor, action)
        && exists j: nat :: FirstCommand(states[0].commands, i.text, j) && states[0].commands[j].action == action
    {
      AdmissionDecided(s, i.actor, i.text, i.actionID, i.now, action);
    }
  }

  lemma AdmissionLogged(s: Session, actor: string, text: string, actionID: string, now: int)
    ensures var t := Admit(s, actor, text, actionID, now);
            && |t.events| == |s.events| + 1 && t.events[..|s.events|] == s.events
            && t.events[|s.events|].Admission? && t.events[|s.events|].actionID == actionID
            && t.events[|s.events|].allowed == Allowed(s, actor, text)
            && t.events[|s.events|].actor == actor && t.events[|s.events|].action == ActionFor(s.commands, text)
  {
    hide Allowed, Reason, ActionFor;
  }

  lemma AdmissionDecided(s: Session, actor: string, text: string, actionID: string, now: int, action: string)
    requires Agrees(s)
    ensures Admitted(Admit(s, actor, text, actionID, now), actor, action) <==>
              && MayDo(s.events, s.worker, actor, action)
              && exists j: nat :: FirstCommand(s.commands, text, j) && s.commands[j].action == action
  {
    ActionIsFirst(s.commands, text);
    if j: nat :| FirstCommand(s.commands, text, j) && s.commands[j].action == action {
      SameFirst(s.commands, text, j);
    }
    AdmissionLogged(s, actor, text, actionID, now);
    MayDoIsPermitted(s, actor, action);
    hide FirstCommand, ActionFor, Admit, Permitted, MayDo, Agrees;
  }

  lemma MayDoIsPermitted(s: Session, actor: string, action: string)
    requires Agrees(s)
    ensures MayDo(s.events, s.worker, actor, action) <==> Permitted(s, actor, action)
    ensures MayDo(s.events, s.worker, actor, action) ==> action != ""
  {
    hide DispatchLogged, BuildLogged, ReleaseLogged, TestStands;
  }

  lemma SameFirst(commands: seq<Command>, text: string, j: nat)
    requires FirstCommand(commands, text, j)
    ensures ActionFor(commands, text) == Some(commands[j].action)
  {
    ActionIsFirst(commands, text);
  }

  // ----- What an admission is good for -----

  // The admission at j is the last of its kind before k and has not been used.
  ghost predicate Holds(states: seq<Session>, inputs: seq<Input>, j: nat, k: nat, actor: string, action: string)
    requires |states| == |inputs| + 1 && k <= |inputs|
  {
    && j < k && inputs[j].Propose? && inputs[j].actor == actor && Admitted(states[j + 1], actor, action)
    && forall i :: j < i < k ==>
         && !(inputs[i].Perform? && inputs[i].actor == actor && inputs[i].action == action)
         && !(inputs[i].Propose? && inputs[i].actor == actor && Admitted(states[i + 1], actor, action))
  }

  // The reservation it left is still there.
  ghost predicate Reserved(s: Session, actor: string, action: string, epoch: nat, deadline: int) {
    Key(actor, action) in s.pending && s.pending[Key(actor, action)] == Grant(epoch, deadline)
  }

  lemma AdmissionReserves(sha: Bytes -> string, s: Session, i: Input, action: string)
    requires i.Propose? && Admitted(Step(sha, s, i), i.actor, action)
    ensures Reserved(Step(sha, s, i), i.actor, action, s.epoch, i.now + 30)
    ensures Permitted(s, i.actor, action)
  {
    hide ActionFor, Reason;
  }

  lemma ReservationStays(sha: Bytes -> string, s: Session, i: Input, actor: string, action: string,
                         epoch: nat, deadline: int)
    requires Reserved(s, actor, action, epoch, deadline)
    requires !(i.Perform? && i.actor == actor && i.action == action)
    requires !(i.Propose? && i.actor == actor && Admitted(Step(sha, s, i), actor, action))
    ensures Reserved(Step(sha, s, i), actor, action, epoch, deadline)
  {
    hide ActionFor, Reason, Permitted;
  }

  // While the epoch stands, so does what permission depends on.
  lemma EpochGuards(sha: Bytes -> string, s: Session, i: Input, actor: string, action: string)
    requires Step(sha, s, i).epoch == s.epoch
    requires !(i.Perform? && i.actor == actor && i.action == action)
    ensures Permitted(s, actor, action) ==> Permitted(Step(sha, s, i), actor, action)
  {
    hide ActionFor, Reason;
  }

  lemma {:induction false} AdmissionStands(sha: Bytes -> string, states: seq<Session>, inputs: seq<Input>,
                                           j: nat, k: nat, actor: string, action: string)
    requires IsRun(sha, states, inputs) && k <= |inputs| && Holds(states, inputs, j, k, actor, action)
    requires states[k].epoch == states[j].epoch
    ensures Reserved(states[k], actor, action, states[j].epoch, inputs[j].now + 30)
    ensures Permitted(states[k], actor, action)
    decreases k
  {
    hide Step, Reserved, Permitted, Admitted, Fresh;
    if k == j + 1 {
      AdmissionReserves(sha, states[j], inputs[j], action);
      EpochGuards(sha, states[j], inputs[j], actor, action);
    } else {
      EpochsNeverDecrease(sha, states, inputs, j, k - 1);
      EpochsNeverDecrease(sha, states, inputs, k - 1, k);
      AdmissionStands(sha, states, inputs, j, k - 1, actor, action);
      ReservationStays(sha, states[k - 1], inputs[k - 1], actor, action, states[j].epoch, inputs[j].now + 30);
      EpochGuards(sha, states[k - 1], inputs[k - 1], actor, action);
    }
  }

  // What completing the action does.
  predicate Done(s: Session, t: Session, actor: string, action: string) {
    || (action == "dispatch" && t.dispatched && t.events == s.events + [DispatchCompleted(Draft, actor, s.worker)])
    || (action == "build" && t.stage == Built && t.revision == s.revision + 1 && t.artifact == Some(CANDIDATE)
        && t.testedRevision == None && t.testedDigest == None && t.epoch == s.epoch + 1
        && t.events == s.events + [BuildCompleted(Built, actor, s.revision + 1)])
    || (action == "release" && t.stage == Released && t.released == s.artifact == Some(CANDIDATE)
        && t.epoch == s.epoch + 1 && t.events == s.events + [ReleaseCompleted(Released, actor, s.revision)])
  }

  // An admitted action that is attempted within 30 seconds and before any change of epoch
  // completes; a release, provided that the artifact is still the tested bytes.
  lemma AdmittedCompletes(sha: Bytes -> string, states: seq<Session>, inputs: seq<Input>, j: nat, k: nat,
                          actor: string, action: string, now: int)
    requires IsRun(sha, states, inputs) && k < |inputs| && inputs[k] == Perform(actor, action, now)
    requires Holds(states, inputs, j, k, actor, action)
    requires now <= inputs[j].now + 30 && states[k].epoch == states[j].epoch
    requires action == "release" ==> states[k].artifact == Some(CANDIDATE)
    ensures Executes(sha, states[k], actor, action, now)
    ensures Done(states[k], states[k + 1], actor, action)
  {
    AdmissionStands(sha, states, inputs, j, k, actor, action);
    var s := states[k];
    assert states[k + 1] == Step(sha, s, inputs[k]);
    if action == "release" {
      assert s.stage == Verified;
      var _ := VerifiedWasTested(sha, states, inputs, k);
      assert s.testedDigest == Some(sha(CANDIDATE));
    }
    hide *;
    PermittedCompletes(sha, s, actor, action, now, inputs[j].now + 30);
  }

  lemma PermittedCompletes(sha: Bytes -> string, s: Session, actor: string, action: string, now: int, deadline: int)
    requires Reserved(s, actor, action, s.epoch, deadline) && now <= deadline && Permitted(s, actor, action)
    requires action == "release" ==> s.artifact == Some(CANDIDATE) && s.testedDigest == Some(sha(CANDIDATE))
    ensures Executes(sha, s, actor, action, now)
    ensures Done(s, Step(sha, s, Perform(actor, action, now)), actor, action)
  {
  }

  // ----- What is a passing test -----

  // In every run a test is logged as passed exactly when the application reports it for the
  // current revision and with the candidate's bytes, which are those on disk, while what is
  // built is neither tested nor released. The revision is that of the last build.
  lemma TestedExactly(sha: Bytes -> string, states: seq<Session>, inputs: seq<Input>, k: nat)
    requires IsRun(sha, states, inputs) && k < |inputs|
    ensures var s, t, i := states[k], states[k + 1], inputs[k];
            (exists e :: Logs(s, t, e) && e.TestsPassed?) <==>
              && i.Report? && i.revision == s.revision && i.artifact == CANDIDATE && s.artifact == Some(i.artifact)
              && BuildLogged(s.events) && !TestStands(s.events) && !ReleaseLogged(s.events)
  {
    RunAgrees(sha, states, inputs, k);
    var s, t, i := states[k], states[k + 1], inputs[k];
    assert t == Step(sha, s, i);
    hide IsRun, Agrees, TestStands, BuildLogged, ReleaseLogged;
    TestLogged(sha, s, i);
    assert Agrees(s);
    StageFromLog(s);
  }

  lemma StageFromLog(s: Session)
    requires Agrees(s)
    ensures s.stage == Built <==> BuildLogged(s.events) && !TestStands(s.events) && !ReleaseLogged(s.events)
  {
    hide BuildLogged, TestStands, ReleaseLogged, DispatchLogged;
  }

  lemma TestLogged(sha: Bytes -> string, s: Session, i: Input)
    ensures var t := Step(sha, s, i);
            (exists e :: Logs(s, t, e) && e.TestsPassed?) <==>
              && i.Report? && i.revision == s.revision && i.artifact == CANDIDATE && s.artifact == Some(i.artifact)
              && s.stage == Built
  {
    hide Permitted, Allowed, Reason, ActionFor;
    var t := Step(sha, s, i);
    if i.Report? && i.revision == s.revision && i.artifact == CANDIDATE && s.artifact == Some(i.artifact)
       && s.stage == Built {
      assert Logs(s, t, TestsPassed(Verified, i.revision));
    }
    if e :| Logs(s, t, e) && e.TestsPassed? {
      assert t.events[|s.events|] == e;
    }
  }

  // And nothing completes without one: every completed execution follows an admission of
  // that actor and action that was right when it was given and is right still, in the same
  // epoch and within 30 seconds.
  lemma CompletedWasAdmitted(sha: Bytes -> string, states: seq<Session>, inputs: seq<Input>, k: nat,
                             actor: string, action: string, now: int)
    returns (j: nat)
    requires IsRun(sha, states, inputs) && k < |inputs| && inputs[k] == Perform(actor, action, now)
    requires Executes(sha, states[k], actor, action, now)
    ensures j < k && inputs[j].Propose? && inputs[j].actor == actor && Admitted(states[j + 1], actor, action)
    ensures MayDo(states[j].events, states[0].worker, actor, action)
    ensures MayDo(states[k].events, states[0].worker, actor, action)
    ensures states[j].epoch == states[k].epoch && now <= inputs[j].now + 30
    ensures forall i :: j < i < k ==> !(inputs[i].Perform? && inputs[i].actor == actor && inputs[i].action == action)
  {
    j := ExecutionWasAdmitted(sha, states, inputs, k);
    RunAgrees(sha, states, inputs, j);
    RunAgrees(sha, states, inputs, k);
    var s := states[j];
    assert states[j + 1] == Step(sha, s, inputs[j]);
    AdmissionLogged(s, actor, inputs[j].text, inputs[j].actionID, inputs[j].now);
    MayDoIsPermitted(s, actor, action);
    MayDoIsPermitted(states[k], actor, action);
    hide IsRun, Agrees, MayDo, ActionFor, Reason, Admit;
  }

  // A refused attempt uses up the reservation and changes nothing else, unless it was a
  // release of edited bytes, which revokes the test.
  lemma RefusedChangesNothing(sha: Bytes -> string, s: Session, actor: string, action: string, now: int)
    requires !Executes(sha, s, actor, action, now)
    ensures var t := Step(sha, s, Perform(actor, action, now));
            var used := s.(pending := s.pending - {Key(actor, action)});
            || t == used
            || (s.stage == Verified && s.artifact.Some? && s.testedDigest != Some(sha(s.artifact.value))
                && t == used.(stage := Built, testedRevision := None, testedDigest := None, epoch := s.epoch + 1,
                              events := s.events + [TestsInvalidated(Built, "artifact changed since test")]))
  {
  }
}
