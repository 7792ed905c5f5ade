/** Two runs from the empty database: a deletion that leaves a ciphertext behind, and a
    fingerprint approved on attack detection by a model nobody checked. When either happens. */
module WorkflowRuns {
  import opened Basics
  import opened Decision
  import opened Workflow
  import opened WorkflowProofs
  import opened WorkflowReach
  import opened WorkflowErasure
  import opened WorkflowService

  // ---------------------------------------------------------------- runs as traces

  lemma {:induction false} ExecChained(s: State, acts: seq<Action>, more: seq<Action>)
    requires Exec(s, acts).Some?
    ensures Exec(s, acts + more) == Exec(Exec(s, acts).value, more)
    decreases |more|
  {
    if more == [] {
      assert acts + [] == acts;
    } else {
      var front, last := more[..|more| - 1], more[|more| - 1];
      ExecChained(s, acts, front);
      assert (acts + more)[..|acts + more| - 1] == acts + front && (acts + more)[|acts + more| - 1] == last;
    }
  }

  lemma {:induction false} TraceOf(acts: seq<Action>, now: int) returns (trace: seq<State>)
    requires Exec(Init(now), acts).Some?
    ensures IsTrace(trace, acts, now) && Last(trace) == Exec(Init(now), acts).value
    decreases |acts|
  {
    hide Step;
    if acts == [] {
      trace := [Init(now)];
    } else {
      var n := |acts| - 1;
      var front := TraceOf(acts[..n], now);
      var t := Exec(Init(now), acts).value;
      trace := front + [t];
      forall i | 0 <= i < |acts| ensures Step(trace[i], acts[i]) == Some(trace[i + 1]) {
        if i < n {
          assert Step(front[i], acts[..n][i]) == Some(front[i + 1]);
        }
      }
    }
  }

  /** One enrolled template under a standing consent, and nothing else that a verification
      reads. */
  ghost predicate OneEnrolled(s: State, p: Principal, subject: Id, m: Modality, model: Model, ciphertext: string) {
    && s.templates == map[0 := Template(p.project, subject, 0, model, true, m, None, s.now, ciphertext)]
    && s.consents == map[0 := Consent(p.org, subject, false)]
    && s.subjects == map[] && s.registry == {} && s.risks == [] && s.policies == map[] && s.requests == map[] && s.sessions.Keys == {0}
  }

  function EnrolActs(p: Principal, subject: Id, m: Modality, model: Model, ciphertext: string): seq<Action> {
    [CreateSession(0, p, Enrolment, m)] + [StartEnrol(0, p, 0, subject, m)] + [EnrolConsent(0, 0)] + [EnrolTemplate(0, 0, model, ciphertext)]
  }

  lemma EnrolRun(p: Principal, subject: Id, m: Modality, model: Model, ciphertext: string, now: int) returns (s: State)
    ensures Exec(Init(now), EnrolActs(p, subject, m, model, ciphertext)) == Some(s)
    ensures OneEnrolled(s, p, subject, m, model, ciphertext)
  {
    var s0 := Init(now);
    var a0, a1, a2, a3 := CreateSession(0, p, Enrolment, m), StartEnrol(0, p, 0, subject, m), EnrolConsent(0, 0), EnrolTemplate(0, 0, model, ciphertext);
    ExecNext(s0, [], a0);
    assert [] + [a0] == [a0];
    var s1 := Exec(s0, [a0]).value;
    assert s1.sessions[0] == Session(p.org, p.project, p.env, Enrolment, m, Pending, now + SESSION_MS);
    ExecNext(s0, [a0], a1);
    var s2 := Exec(s0, [a0] + [a1]).value;
    assert s2.enrols == map[0 := Enrol(p, subject, m, 0, None, false)];
    hide Exec;
    ExecNext(s0, [a0] + [a1], a2);
    var s3 := Step(s2, a2).value;
    assert s3.enrols == map[0 := Enrol(p, subject, m, 0, Some(0), false)];
    ExecNext(s0, [a0] + [a1] + [a2], a3);
    s := Step(s3, a3).value;
  }

  // ---------------------------------------------------------------- a ciphertext left behind

  /** A person who withdraws the consent and is deleted afterwards keeps a ciphertext. */
  lemma WithdrawnKeepsCiphertext(p: Principal, subject: Id, m: Modality, model: Model, ciphertext: string, now: int)
    returns (trace: seq<State>, acts: seq<Action>)
    requires ciphertext != "deleted"
    ensures IsTrace(trace, acts, now) && Sealed(acts) && |acts| == 8
    ensures acts[6] == RevokeBySubject(subject) && acts[7] == WithdrawBySubject(subject)
    ensures var s := Last(trace);
      && 0 in s.templates && s.templates[0].subject == subject && !s.templates[0].active && s.templates[0].ciphertext == ciphertext
  {
    var enrol, more := EnrolActs(p, subject, m, model, ciphertext), DeleteActs(subject);
    var s := EnrolRun(p, subject, m, model, ciphertext, now);
    var t := DeletionRun(s, p, subject, m, model, ciphertext);
    acts := enrol + more;
    hide Exec, IsTrace, OneEnrolled, EnrolActs, DeleteActs;
    ExecChained(Init(now), enrol, more);
    trace := TraceOf(acts, now);
    ActsSealed(p, subject, m, model, ciphertext);
  }

  /** A withdrawal, then a deletion. */
  function DeleteActs(subject: Id): seq<Action> {
    [WithdrawConsent(0)] + [RevokeByConsent(0)] + [RevokeBySubject(subject)] + [WithdrawBySubject(subject)]
  }

  lemma ActsSealed(p: Principal, subject: Id, m: Modality, model: Model, ciphertext: string)
    requires ciphertext != "deleted"
    ensures var acts := EnrolActs(p, subject, m, model, ciphertext) + DeleteActs(subject);
      && Sealed(acts) && |acts| == 8 && acts[6] == RevokeBySubject(subject) && acts[7] == WithdrawBySubject(subject)
  {
  }

  lemma DeletionRun(s: State, p: Principal, subject: Id, m: Modality, model: Model, ciphertext: string) returns (t: State)
    requires OneEnrolled(s, p, subject, m, model, ciphertext)
    ensures Exec(s, DeleteActs(subject)) == Some(t)
    ensures 0 in t.templates && t.templates[0].subject == subject && !t.templates[0].active && t.templates[0].ciphertext == ciphertext
  {
    var a0, a1, a2, a3 := WithdrawConsent(0), RevokeByConsent(0), RevokeBySubject(subject), WithdrawBySubject(subject);
    ExecNext(s, [], a0);
    assert [] + [a0] == [a0];
    assert Exec(s, []) == Some(s);
    var s1 := SwitchOff(s, a0);
    var s2 := SwitchOff(s1, a1);
    var s3 := SwitchOff(s2, a2);
    t := SwitchOff(s3, a3);
    hide Exec, Step;
    ExecNext(s, [a0], a1);
    ExecNext(s, [a0] + [a1], a2);
    ExecNext(s, [a0] + [a1] + [a2], a3);
  }

  /** A withdrawal or a deletion runs in any state, and an inactive row stays as it is. */
  lemma SwitchOff(s: State, act: Action) returns (t: State)
    requires (act == WithdrawConsent(0) && 0 in s.consents) || act == RevokeByConsent(0) || act.RevokeBySubject? || act.WithdrawBySubject?
    requires 0 in s.templates
    ensures Step(s, act) == Some(t) && 0 in t.templates
    ensures act.RevokeByConsent? ==> t.templates[0] == if s.templates[0].consent == 0 then s.templates[0].(active := false) else s.templates[0]
    ensures !act.RevokeByConsent? && (act.RevokeBySubject? ==> !s.templates[0].active) ==> t.templates[0] == s.templates[0]
  {
    t := Step(s, act).value;
  }

  // ---------------------------------------------------------------- attack detection

  /** An approved fingerprint under a policy that requires attack detection. */
  ghost predicate PadApproval(r: Request) {
    && r.pc.Done? && r.pc.outcome.verdict == Approved && r.modality == Fingerprint
    && r.e.policy.FingerPolicy? && r.e.policy.requirePad
  }

  predicate PadCheckAt(r: Request, i: nat) { i < |r.e.checks| && r.e.checks[i].need.purpose == FingerPad }

  /** A model for attack detection was looked up in the registry. */
  ghost predicate PadChecked(r: Request) { exists i: nat :: PadCheckAt(r, i) }

  lemma CheckNeeds(r: Request, i: nat)
    requires ComparisonChecked(r, [])
    ensures Needs(r.e.checks) == AnalysisNeeds(r.e.analysis.value) + ComparisonNeeds(r.e.comparison.value)
    ensures i < |r.e.checks| ==> Needs(r.e.checks)[i] == r.e.checks[i].need
  {
    assert Needs(r.e.checks) + [] == Needs(r.e.checks);
  }

  /** In every run a fingerprint approved where attack detection is required passed it by the
      comparison's word. The model behind that word was found in the registry, at its own
      moment of the run, exactly when the analysis named one. */
  lemma PadCheckedIff(trace: seq<State>, acts: seq<Action>, now: int, req: Id)
    requires IsTrace(trace, acts, now) && req in Last(trace).requests && PadApproval(Last(trace).requests[req])
    ensures var r := Last(trace).requests[req];
      && r.e.analysis.Some? && r.e.analysis.value.FingerAnalysis? && r.e.comparison.Some? && r.e.comparison.value.FingerComparison?
      && r.e.comparison.value.padPresent && r.e.comparison.value.padIsLive
      && (PadChecked(r) <==> r.e.analysis.value.pad.Some?)
      && (forall i: nat :: PadCheckAt(r, i) ==>
        r.e.checks[i].need == Need(r.e.analysis.value.pad.value, FingerPad) && r.e.checks[i].at < |trace|
        && r.e.checks[i].need in trace[r.e.checks[i].at].registry)
  {
    ApprovalsJustified(trace, acts, now, req);
    var r := Last(trace).requests[req];
    hide SessionFact, PolicyFact, SubjectFact, TemplateFact, RiskFact, IsTrace;
    var a := r.e.analysis.value;
    CheckNeeds(r, 0);
    if a.pad.Some? {
      CheckNeeds(r, 1);
      assert PadCheckAt(r, 1);
    }
    forall i: nat | PadCheckAt(r, i) ensures a.pad.Some? && r.e.checks[i].need == Need(a.pad.value, FingerPad) {
      CheckNeeds(r, i);
    }
  }

  /** A fingerprint is never approved on the word of an unchecked attack-detection model if and
      only if the provider's two answers must be about one capture: attack detection in the
      comparison comes with its model in the analysis. */
  lemma PadAlwaysCheckedIff(agreeing: bool)
    ensures (forall trace: seq<State>, acts, now, req ::
        (IsTrace(trace, acts, now) && req in Last(trace).requests && PadApproval(Last(trace).requests[req])
         && (agreeing ==>
           (Last(trace).requests[req].e.analysis.Some? && Last(trace).requests[req].e.comparison.Some?
            && Last(trace).requests[req].e.analysis.value.FingerAnalysis? && Last(trace).requests[req].e.comparison.value.FingerComparison?
            && Last(trace).requests[req].e.comparison.value.padPresent
            ==> Last(trace).requests[req].e.analysis.value.pad.Some?)))
        ==> PadChecked(Last(trace).requests[req]))
      <==> agreeing
  {
    if agreeing {
      forall trace: seq<State>, acts, now, req | IsTrace(trace, acts, now) && req in Last(trace).requests
        && PadApproval(Last(trace).requests[req])
        && (Last(trace).requests[req].e.analysis.Some? && Last(trace).requests[req].e.comparison.Some?
            && Last(trace).requests[req].e.analysis.value.FingerAnalysis? && Last(trace).requests[req].e.comparison.value.FingerComparison?
            && Last(trace).requests[req].e.comparison.value.padPresent
            ==> Last(trace).requests[req].e.analysis.value.pad.Some?)
        ensures PadChecked(Last(trace).requests[req])
      {
        PadCheckedIff(trace, acts, now, req);
      }
    } else {
      var trace, acts := PadUncheckedRun();
      PadCheckedIff(trace, acts, 0, 0);
      assert !PadChecked(Last(trace).requests[0]);
    }
  }

  const EXTRACTOR := Model("extractor", "1")
  const MATCHER := Model("matcher", "2")
  const OWNER := Principal(1, 2, 3)

  /** A finger analysed without attack detection, and a comparison that reports it passed. */
  const UNNAMED := FingerAnalysis(true, 0.9, 40, None, EXTRACTOR)
  const PASSED := FingerComparison(0.97, MATCHER, true, true)

  function PrepareActs(): seq<Action> {
    [EnsureSubject(OWNER, "s", 7)] + [ApproveModel(Need(EXTRACTOR, FingerExtraction))] + [ApproveModel(Need(MATCHER, FingerMatching))]
    + [CreateSession(1, OWNER, Verification, Fingerprint)]
  }

  /** Ready to verify: subject, template, two approved models and a session. */
  ghost predicate Ready(s: State) {
    && s.templates == map[0 := Template(2, 7, 0, EXTRACTOR, true, Fingerprint, None, s.now, "v1")]
    && s.consents == map[0 := Consent(1, 7, false)] && s.subjects == map[(2, "s") := 7]
    && s.registry == {Need(EXTRACTOR, FingerExtraction), Need(MATCHER, FingerMatching)}
    && s.risks == [] && s.policies == map[] && s.requests == map[]
    && 1 in s.sessions && s.sessions[1] == Session(1, 2, 3, Verification, Fingerprint, Pending, s.now + SESSION_MS)
  }

  lemma PrepareRun(s: State) returns (t: State)
    requires OneEnrolled(s, OWNER, 7, Fingerprint, EXTRACTOR, "v1")
    ensures Exec(s, PrepareActs()) == Some(t) && Ready(t)
  {
    var a0, a1, a2, a3 := EnsureSubject(OWNER, "s", 7), ApproveModel(Need(EXTRACTOR, FingerExtraction)),
      ApproveModel(Need(MATCHER, FingerMatching)), CreateSession(1, OWNER, Verification, Fingerprint);
    assert Exec(s, []) == Some(s);
    hide Exec, Step, Ready, Approve, Issue;
    var s1 := s.(subjects := map[(2, "s") := 7], step := s.step + 1);
    var s2 := Approve(s1, Need(EXTRACTOR, FingerExtraction));
    var s3 := Approve(s2, Need(MATCHER, FingerMatching));
    t := Issue(s3);
    PreparedIsReady(s);
    ExecNext(s, [], a0);
    assert [] + [a0] == [a0];
    SubjectStep(s);
    ExecNext(s, [a0], a1);
    ApproveStep(s1, Need(EXTRACTOR, FingerExtraction));
    ExecNext(s, [a0] + [a1], a2);
    ApproveStep(s2, Need(MATCHER, FingerMatching));
    ExecNext(s, [a0] + [a1] + [a2], a3);
    IssueStep(s3);
  }

  lemma PreparedIsReady(s: State)
    requires OneEnrolled(s, OWNER, 7, Fingerprint, EXTRACTOR, "v1")
    ensures var s1 := s.(subjects := map[(2, "s") := 7], step := s.step + 1);
      var s3 := Approve(Approve(s1, Need(EXTRACTOR, FingerExtraction)), Need(MATCHER, FingerMatching));
      1 !in s3.sessions && Ready(Issue(s3))
  {
  }

  lemma SubjectStep(s: State)
    requires s.subjects == map[]
    ensures Step(s, EnsureSubject(OWNER, "s", 7)) == Some(s.(subjects := map[(2, "s") := 7], step := s.step + 1))
  {
  }

  function Approve(s: State, need: Need): State { s.(registry := s.registry + {need}, step := s.step + 1) }

  lemma ApproveStep(s: State, need: Need)
    ensures Step(s, ApproveModel(need)) == Some(Approve(s, need))
  {
  }

  function Issue(s: State): State {
    s.(sessions := s.sessions[1 := Session(1, 2, 3, Verification, Fingerprint, Pending, s.now + SESSION_MS)], step := s.step + 1)
  }

  lemma IssueStep(s: State)
    requires 1 !in s.sessions
    ensures Step(s, CreateSession(1, OWNER, Verification, Fingerprint)) == Some(Issue(s))
  {
  }

  lemma ReadyApproves(s: State)
    requires Ready(s)
    ensures Spendable(s, OWNER, 1) && IsLookup(s, Some(0), 7, 2, Fingerprint)
    ensures WouldApprove(s, OWNER, "s", Fingerprint, Some(0), Some(UNNAMED), Some(PASSED))
  {
    assert ActivePolicy(s, 3, Fingerprint) == DEFAULT_FINGER;
    assert AnalysisNeeds(UNNAMED) + ComparisonNeeds(PASSED) == [Need(EXTRACTOR, FingerExtraction), Need(MATCHER, FingerMatching)];
    assert !HighRisk(s, 1, 7);
  }

  /** Under the default policy, which requires attack detection, a run ends in an approval
      although no attack-detection model was ever looked up. */
  lemma PadUncheckedRun() returns (trace: seq<State>, acts: seq<Action>)
    ensures IsTrace(trace, acts, 0) && 0 in Last(trace).requests && PadApproval(Last(trace).requests[0])
    ensures Last(trace).requests[0].e.analysis == Some(UNNAMED) && Last(trace).requests[0].e.comparison == Some(PASSED)
  {
    var enrol := EnrolActs(OWNER, 7, Fingerprint, EXTRACTOR, "v1");
    var s := EnrolRun(OWNER, 7, Fingerprint, EXTRACTOR, "v1", 0);
    var t := PrepareRun(s);
    ReadyApproves(t);
    var verify := ApprovalReached(t, 0, OWNER, 1, "s", Fingerprint, 0, UNNAMED, PASSED);
    assert ActivePolicy(t, 3, Fingerprint) == DEFAULT_FINGER;
    hide Exec, IsTrace, WouldApprove, IsLookup, Spendable, OneEnrolled;
    ExecChained(Init(0), enrol, PrepareActs());
    ExecChained(Init(0), enrol + PrepareActs(), verify);
    acts := enrol + PrepareActs() + verify;
    trace := TraceOf(acts, 0);
  }
}
