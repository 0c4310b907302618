// Runs of the delivery supervisor: any sequence of calls by any actors, with clock
// readings, external test reports, invalidations and outside edits of the artifact.
module SupervisorRuns {
  import opened Envelopes
  import opened Supervision

  datatype Input =
    | Propose(actor: string, text: string, actionID: string, now: int)
    | Perform(actor: string, action: string, now: int)
    | Report(revision: int, artifact: Bytes)
    | Invalidation(reason: string)
    | Edit(contents: Option<Bytes>)

  function Step(sha: Bytes -> string, s: Session, i: Input): Session {
    match i
    case Propose(actor, text, id, now) => Admit(s, actor, text, id, now)
    case Perform(actor, action, now) => Execute(sha, s, actor, action, now)
    case Report(revision, artifact) => ObserveTests(sha, s, revision, artifact)
    case Invalidation(reason) => Invalidate(s, reason)
    case Edit(contents) => s.(artifact := contents)
  }

  // states[i] is the session before inputs[i].
  ghost predicate IsRun(sha: Bytes -> string, states: seq<Session>, inputs: seq<Input>) {
    && |states| == |inputs| + 1 && Fresh(states[0])
    && forall i :: 0 <= i < |inputs| ==> states[i + 1] == Step(sha, states[i], inputs[i])
  }

  predicate Completes(sha: Bytes -> string, s: Session, i: Input, action: string) {
    i.Perform? && i.action == action && Executes(sha, s, i.actor, i.action, i.now)
  }

  predicate PassesAs(s: Session, i: Input, artifact: Bytes) {
    i.Report? && i.artifact == artifact && Passes(s, i.revision, i.artifact)
  }

  // ----- What is released was tested -----

  // Since the report at j the session has stayed verified, at one revision.
  ghost predicate TestedSince(sha: Bytes -> string, states: seq<Session>, inputs: seq<Input>, j: nat, n: nat)
    requires |states| == |inputs| + 1 && n <= |inputs|
  {
    && j < n && PassesAs(states[j], inputs[j], CANDIDATE)
    && forall i :: j < i <= n ==>
         && states[i].stage == Verified && states[i].revision == states[n].revision
         && states[i].testedRevision == Some(states[n].revision) && states[i].testedDigest == Some(sha(CANDIDATE))
  }

  // Every step into the verified stage is a passing report of the current revision.
  lemma IntoVerified(sha: Bytes -> string, s: Session, i: Input)
    requires Step(sha, s, i).stage == Verified
    ensures Step(sha, s, i).revision == s.revision
    ensures PassesAs(s, i, CANDIDATE) ==>
              && Step(sha, s, i).testedRevision == Some(s.revision as int)
              && Step(sha, s, i).testedDigest == Some(sha(CANDIDATE))
    ensures !PassesAs(s, i, CANDIDATE) ==>
              && s.stage == Verified && Step(sha, s, i).testedRevision == s.testedRevision
              && Step(sha, s, i).testedDigest == s.testedDigest
  {
  }

  lemma {:induction false} VerifiedWasTested(sha: Bytes -> string, states: seq<Session>, inputs: seq<Input>, n: nat)
    returns (j: nat)
    requires IsRun(sha, states, inputs) && n <= |inputs| && states[n].stage == Verified
    ensures TestedSince(sha, states, inputs, j, n)
  {
    hide Step, Fresh;
    assert n > 0 by { FreshIsDraft(states[0]); }
    IntoVerified(sha, states[n - 1], inputs[n - 1]);
    if PassesAs(states[n - 1], inputs[n - 1], CANDIDATE) {
      j := n - 1;
    } else {
      j := VerifiedWasTested(sha, states, inputs, n - 1);
    }
  }

  lemma FreshIsDraft(s: Session)
    requires Fresh(s)
    ensures s.stage == Draft && s.released.None? && s.pending == map[]
  {
  }

  ghost predicate Injective(sha: Bytes -> string) {
    forall a, b :: sha(a) == sha(b) ==> a == b
  }

  // A completed release writes exactly the bytes that passed the test of the current
  // revision, with no build and no invalidation since that test.
  lemma ReleasedBytesWereTested(sha: Bytes -> string, states: seq<Session>, inputs: seq<Input>, k: nat) returns (j: nat)
    requires IsRun(sha, states, inputs) && k < |inputs| && Completes(sha, states[k], inputs[k], RELEASE)
    requires Injective(sha)
    ensures TestedSince(sha, states, inputs, j, k)
    ensures states[k + 1].released == Some(CANDIDATE) && PassesAs(states[j], inputs[j], CANDIDATE)
    ensures states[j].revision == states[k].revision
    ensures forall i :: j < i < k ==>
              !Completes(sha, states[i], inputs[i], BUILD) && states[i + 1].epoch == states[i].epoch
  {
    j := VerifiedWasTested(sha, states, inputs, k);
    assert states[k].testedDigest == Some(sha(CANDIDATE));
    assert states[j + 1] == Step(sha, states[j], inputs[j]);
    forall i | j < i < k
      ensures !Completes(sha, states[i], inputs[i], BUILD) && states[i + 1].epoch == states[i].epoch
    {
      assert states[i].stage == Verified && states[i + 1].stage == Verified;
      assert states[i + 1] == Step(sha, states[i], inputs[i]);
      StaysVerified(sha, states[i], inputs[i]);
    }
  }

  // A step that keeps the session verified is no build and no invalidation.
  lemma StaysVerified(sha: Bytes -> string, s: Session, i: Input)
    requires s.stage == Verified && Step(sha, s, i).stage == Verified
    ensures !Completes(sha, s, i, BUILD) && Step(sha, s, i).epoch == s.epoch
  {
  }

  // The revision counts the completed builds, so a released revision was built.
  ghost function Builds(sha: Bytes -> string, states: seq<Session>, inputs: seq<Input>, n: nat): nat
    requires |states| == |inputs| + 1 && n <= |inputs|
  {
    if n == 0 then 0
    else Builds(sha, states, inputs, n - 1) + if Completes(sha, states[n - 1], inputs[n - 1], BUILD) then 1 else 0
  }

  lemma BuildStep(sha: Bytes -> string, s: Session, i: Input)
    ensures Step(sha, s, i).revision == s.revision + if Completes(sha, s, i, BUILD) then 1 else 0
    ensures Step(sha, s, i).stage != Draft <==> s.stage != Draft || Completes(sha, s, i, BUILD)
  {
  }

  lemma {:induction false} RevisionCountsBuilds(sha: Bytes -> string, states: seq<Session>, inputs: seq<Input>, n: nat)
    requires IsRun(sha, states, inputs) && n <= |inputs|
    ensures states[n].revision == Builds(sha, states, inputs, n)
    ensures states[n].stage != Draft <==> Builds(sha, states, inputs, n) > 0
  {
    hide Step, Completes;
    if n > 0 {
      RevisionCountsBuilds(sha, states, inputs, n - 1);
      BuildStep(sha, states[n - 1], inputs[n - 1]);
    }
  }

  // ----- Released once, and finally -----

  lemma ReleaseStep(sha: Bytes -> string, s: Session, i: Input)
    ensures s.stage == Released ==>
              && Step(sha, s, i).stage == Released && Step(sha, s, i).released == s.released
              && !Completes(sha, s, i, RELEASE) && !Completes(sha, s, i, BUILD) && !Completes(sha, s, i, DISPATCH)
    ensures Step(sha, s, i).released != s.released ==> Completes(sha, s, i, RELEASE)
    ensures Step(sha, s, i).stage == Released && s.stage != Released ==> Completes(sha, s, i, RELEASE)
    ensures Completes(sha, s, i, RELEASE) ==> Step(sha, s, i).stage == Released && s.stage == Verified
  {
  }

  // After a release nothing builds, releases or dispatches again, and released.txt keeps its bytes.
  lemma {:induction false} ReleasedIsFinal(sha: Bytes -> string, states: seq<Session>, inputs: seq<Input>,
                                           k: nat, n: nat)
    requires IsRun(sha, states, inputs) && k < n <= |inputs| && Completes(sha, states[k], inputs[k], RELEASE)
    ensures states[n].stage == Released && states[n].released == states[k + 1].released
    ensures n < |inputs| ==> !Completes(sha, states[n], inputs[n], RELEASE)
    ensures n < |inputs| ==> !Completes(sha, states[n], inputs[n], BUILD)
    ensures n < |inputs| ==> !Completes(sha, states[n], inputs[n], DISPATCH)
    decreases n
  {
    hide Step, Completes, Fresh;
    if n == k + 1 {
      ReleaseStep(sha, states[k], inputs[k]);
    } else {
      ReleasedIsFinal(sha, states, inputs, k, n - 1);
      ReleaseStep(sha, states[n - 1], inputs[n - 1]);
    }
    if n < |inputs| {
      ReleaseStep(sha, states[n], inputs[n]);
    }
  }

  // released.txt exists exactly when a release has completed, and then only one has.
  lemma {:induction false} ReleasedOnlyByRelease(sha: Bytes -> string, states: seq<Session>, inputs: seq<Input>, n: nat)
    requires IsRun(sha, states, inputs) && n <= |inputs|
    ensures states[n].released.Some? <==> exists k :: 0 <= k < n && Completes(sha, states[k], inputs[k], RELEASE)
    ensures states[n].stage == Released <==> states[n].released.Some?
    ensures forall k, l :: 0 <= k < l < n && Completes(sha, states[k], inputs[k], RELEASE)
              ==> !Completes(sha, states[l], inputs[l], RELEASE)
  {
    hide Step, Completes, Fresh;
    if n == 0 {
      FreshIsDraft(states[0]);
    } else {
      ReleasedOnlyByRelease(sha, states, inputs, n - 1);
      ReleaseStep(sha, states[n - 1], inputs[n - 1]);
      ReleaseWrites(sha, states[n - 1], inputs[n - 1]);
      forall k, l | 0 <= k < l < n && Completes(sha, states[k], inputs[k], RELEASE)
        ensures !Completes(sha, states[l], inputs[l], RELEASE)
      {
        ReleasedIsFinal(sha, states, inputs, k, l);
      }
    }
  }

  lemma ReleaseWrites(sha: Bytes -> string, s: Session, i: Input)
    ensures Completes(sha, s, i, RELEASE) ==> Step(sha, s, i).released == s.artifact && s.artifact.Some?
  {
  }

  // ----- One execution for one admission -----

  ghost predicate Grants(s: Session, i: Input, key: Key) {
    && i.Propose? && i.actor == key.actor && Allowed(s, i.actor, i.text)
    && ActionFor(s.commands, i.text) == Some(key.action)
  }

  predicate Attempts(i: Input, key: Key) {
    i.Perform? && i.actor == key.actor && i.action == key.action
  }

  // The grant held at n is the one given at j, and nothing has used it since.
  ghost predicate GrantedAt(states: seq<Session>, inputs: seq<Input>, key: Key, j: nat, n: nat)
    requires |states| == |inputs| + 1 && n <= |inputs|
  {
    && j < n && Grants(states[j], inputs[j], key)
    && (forall i :: j < i < n ==> !Attempts(inputs[i], key))
    && key in states[n].pending
    && states[n].pending[key] == Grant(states[j].epoch, inputs[j].now + LEASE)
  }

  lemma GrantStep(sha: Bytes -> string, s: Session, i: Input, key: Key)
    requires key in Step(sha, s, i).pending
    ensures if Grants(s, i, key) then Step(sha, s, i).pending[key] == Grant(s.epoch, i.now + LEASE)
            else !Attempts(i, key) && key in s.pending && Step(sha, s, i).pending[key] == s.pending[key]
  {
  }

  lemma {:induction false} GrantHasOrigin(sha: Bytes -> string, states: seq<Session>, inputs: seq<Input>,
                                          key: Key, n: nat)
    returns (j: nat)
    requires IsRun(sha, states, inputs) && n <= |inputs| && key in states[n].pending
    ensures GrantedAt(states, inputs, key, j, n)
  {
    hide Step, Grants, Attempts, Fresh;
    assert n > 0 by { FreshIsDraft(states[0]); }
    GrantStep(sha, states[n - 1], inputs[n - 1], key);
    if Grants(states[n - 1], inputs[n - 1], key) {
      j := n - 1;
    } else {
      j := GrantHasOrigin(sha, states, inputs, key, n - 1);
    }
  }

  // The admission at j pays for the execution at k: same actor and action, same epoch,
  // within the lease, and no attempt in between.
  ghost predicate Pays(sha: Bytes -> string, states: seq<Session>, inputs: seq<Input>, j: nat, k: nat)
    requires |states| == |inputs| + 1 && k < |inputs|
  {
    && j < k && inputs[k].Perform?
    && var key := Key(inputs[k].actor, inputs[k].action);
    && Grants(states[j], inputs[j], key)
    && (forall i :: j < i < k ==> !Attempts(inputs[i], key))
    && states[j].epoch == states[k].epoch && inputs[k].now <= inputs[j].now + LEASE
  }

  // Every completed execution is paid for by an earlier allowed admission...
  lemma ExecutionWasAdmitted(sha: Bytes -> string, states: seq<Session>, inputs: seq<Input>, k: nat) returns (j: nat)
    requires IsRun(sha, states, inputs) && k < |inputs| && inputs[k].Perform?
    requires Executes(sha, states[k], inputs[k].actor, inputs[k].action, inputs[k].now)
    ensures Pays(sha, states, inputs, j, k)
  {
    hide Grants, Attempts, Step, Fresh;
    j := GrantHasOrigin(sha, states, inputs, Key(inputs[k].actor, inputs[k].action), k);
  }

  // ...and no admission pays for two.
  lemma AdmissionPaysOnce(sha: Bytes -> string, states: seq<Session>, inputs: seq<Input>, j: nat, k: nat, l: nat)
    requires |states| == |inputs| + 1 && k < |inputs| && l < |inputs|
    requires Pays(sha, states, inputs, j, k) && Pays(sha, states, inputs, j, l)
    ensures k == l
  {
    if k < l {
      assert Attempts(inputs[k], Key(inputs[l].actor, inputs[l].action));
    } else if l < k {
      assert Attempts(inputs[l], Key(inputs[k].actor, inputs[k].action));
    }
  }

  // ----- Epochs and dispatch -----

  lemma EpochStep(sha: Bytes -> string, s: Session, i: Input)
    ensures s.epoch <= Step(sha, s, i).epoch && s.revision <= Step(sha, s, i).revision
    ensures Completes(sha, s, i, DISPATCH) || s.dispatched ==> Step(sha, s, i).dispatched
    ensures Completes(sha, s, i, BUILD) || s.stage != Draft ==> Step(sha, s, i).stage != Draft
    ensures Completes(sha, s, i, DISPATCH) ==> !s.dispatched && s.stage == Draft && i.actor == DISPATCHER
  {
  }

  lemma {:induction false} EpochsNeverDecrease(sha: Bytes -> string, states: seq<Session>, inputs: seq<Input>,
                                               i: nat, n: nat)
    requires IsRun(sha, states, inputs) && i <= n <= |inputs|
    ensures states[i].epoch <= states[n].epoch && states[i].revision <= states[n].revision
    decreases n
  {
    hide Step;
    if i < n {
      EpochsNeverDecrease(sha, states, inputs, i, n - 1);
      EpochStep(sha, states[n - 1], inputs[n - 1]);
    }
  }

  // A grant given before a build, a passing test, an effective invalidation or a
  // release is refused after it.
  lemma EventRevokesGrants(sha: Bytes -> string, states: seq<Session>, inputs: seq<Input>, j: nat, i: nat, k: nat)
    requires IsRun(sha, states, inputs) && j <= i < k < |inputs| && Pays(sha, states, inputs, j, k)
    ensures states[i + 1].epoch == states[i].epoch
    ensures !Completes(sha, states[i], inputs[i], BUILD) && !Completes(sha, states[i], inputs[i], RELEASE)
    ensures !PassesAs(states[i], inputs[i], CANDIDATE)
    ensures inputs[i].Invalidation? ==> states[i].stage == Draft || states[i].stage == Released
  {
    EpochsNeverDecrease(sha, states, inputs, j, i);
    EpochsNeverDecrease(sha, states, inputs, i, i + 1);
    EpochsNeverDecrease(sha, states, inputs, i + 1, k);
    assert states[i + 1] == Step(sha, states[i], inputs[i]);
  }

  lemma {:induction false} DispatchedStays(sha: Bytes -> string, states: seq<Session>, inputs: seq<Input>,
                                           k: nat, n: nat)
    requires IsRun(sha, states, inputs) && k < n <= |inputs| && Completes(sha, states[k], inputs[k], DISPATCH)
    ensures states[n].dispatched
    decreases n
  {
    hide Step, Completes;
    EpochStep(sha, states[n - 1], inputs[n - 1]);
    if n > k + 1 {
      DispatchedStays(sha, states, inputs, k, n - 1);
    }
  }

  // Dispatch completes at most once, by the dispatcher, and only before anything is built.
  lemma DispatchedOnce(sha: Bytes -> string, states: seq<Session>, inputs: seq<Input>, k: nat, l: nat)
    requires IsRun(sha, states, inputs) && k < |inputs| && l < |inputs|
    requires Completes(sha, states[k], inputs[k], DISPATCH) && Completes(sha, states[l], inputs[l], DISPATCH)
    ensures k == l && inputs[k].actor == DISPATCHER
    ensures forall i :: 0 <= i < k ==> !Completes(sha, states[i], inputs[i], BUILD)
  {
    hide Step, Completes;
    EpochStep(sha, states[k], inputs[k]);
    EpochStep(sha, states[l], inputs[l]);
    if k < l {
      DispatchedStays(sha, states, inputs, k, l);
    } else if l < k {
      DispatchedStays(sha, states, inputs, l, k);
    }
    forall i | 0 <= i < k ensures !Completes(sha, states[i], inputs[i], BUILD) {
      if Completes(sha, states[i], inputs[i], BUILD) {
        NeverDraftAgain(sha, states, inputs, i + 1, k);
      }
    }
  }

  lemma {:induction false} NeverDraftAgain(sha: Bytes -> string, states: seq<Session>, inputs: seq<Input>,
                                           i: nat, n: nat)
    requires IsRun(sha, states, inputs) && 0 < i <= n <= |inputs|
    requires Completes(sha, states[i - 1], inputs[i - 1], BUILD)
    ensures states[n].stage != Draft
    decreases n
  {
    hide Step, Completes;
    EpochStep(sha, states[n - 1], inputs[n - 1]);
    if i < n {
      NeverDraftAgain(sha, states, inputs, i, n - 1);
    }
  }
}
