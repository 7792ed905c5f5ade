/** The life of a capture session over a whole run, and what an approval rests on, in the
    fields of the tables alone. */
module WorkflowFacts {
  import opened Basics
  import opened Decision
  import opened Workflow
  import opened WorkflowProofs

  // ---------------------------------------------------------------- the life of a session

  predicate CreatesAt(acts: seq<Action>, c: nat, k: Id) { c < |acts| && acts[c].CreateSession? && acts[c].id == k }

  predicate Spends(act: Action, k: Id) { (act.StartVerify? || act.StartEnrol?) && act.token == k }

  ghost predicate SpentIn(acts: seq<Action>, lo: nat, hi: nat, k: Id) {
    exists j :: lo <= j < hi && j < |acts| && Spends(acts[j], k)
  }

  /** What one statement makes of a session. */
  ghost predicate SessionStep(act: Action, now: int, m: map<Id, Session>, n: map<Id, Session>, k: Id) {
    && (k in m ==> k in n && n[k] == m[k].(status := n[k].status))
    && (k in m && Spends(act, k) ==> m[k].status == Pending && n[k].status == Used)
    && (k in m && !Spends(act, k) ==>
          (n[k].status == m[k].status || (m[k].status == Pending && n[k].status == Expired && m[k].expiresAt <= now)))
    && (k !in m && k in n ==> act.CreateSession? && act.id == k)
    && (act.CreateSession? && act.id == k ==>
          k !in m && k in n && n[k] == Session(act.p.org, act.p.project, act.p.env, act.purpose, act.modality, Pending, now + 600000))
    && (Spends(act, k) ==> k in m)
  }

  lemma OtherSessions(s: State, act: Action, t: State, k: Id)
    requires OtherStep(s, act) == Some(t)
    ensures SessionStep(act, s.now, s.sessions, t.sessions, k) && t.now >= s.now
  {
  }

  lemma StartSessions(s: State, act: Action, t: State, k: Id)
    requires IsStartAction(act) && StartStep(s, act) == Some(t)
    ensures SessionStep(act, s.now, s.sessions, t.sessions, k) && t.now == s.now
  {
    hide RequestsAfter, EnrolsAfter;
  }

  lemma SessionsStep(s: State, act: Action, t: State, k: Id)
    requires Step(s, act) == Some(t)
    ensures SessionStep(act, s.now, s.sessions, t.sessions, k) && t.now >= s.now
  {
    hide SessionStep, OtherStep, StartStep, Advance, SubjectsAfter;
    if IsStartAction(act) {
      StartSessions(s, act, StartStep(s, act).value, k);
    } else if IsVerifyAction(act) {
      assert t.sessions == s.sessions;
      SameSessions(act, s.now, s.sessions, k);
    } else {
      OtherSessions(s, act, OtherStep(s, act).value, k);
    }
  }

  lemma SameSessions(act: Action, now: int, m: map<Id, Session>, k: Id)
    requires IsVerifyAction(act)
    ensures SessionStep(act, now, m, m, k)
  {
  }

  /** A session as created at step c, when it has come to step i. */
  ghost predicate SessionAt(trace: seq<State>, acts: seq<Action>, c: nat, i: nat, k: Id)
    requires CreatesAt(acts, c, k) && c < i < |trace|
  {
    && k in trace[i].sessions
    && var a, row := acts[c], trace[i].sessions[k];
      && row == Session(a.p.org, a.p.project, a.p.env, a.purpose, a.modality, row.status, trace[c].now + 600000)
      && (row.status == Used <==> SpentIn(acts, c + 1, i, k))
      && (row.status == Expired ==> trace[i].now >= trace[c].now + 600000)
  }

  lemma SpentNext(acts: seq<Action>, lo: nat, i: nat, k: Id)
    requires lo <= i < |acts|
    ensures SpentIn(acts, lo, i + 1, k) <==> SpentIn(acts, lo, i, k) || Spends(acts[i], k)
  {
  }

  lemma {:induction false} SessionLife(trace: seq<State>, acts: seq<Action>, now: int, c: nat, i: nat, k: Id)
    requires IsTrace(trace, acts, now) && CreatesAt(acts, c, k) && c < i < |trace|
    ensures SessionAt(trace, acts, c, i, k)
    decreases i
  {
    hide Step;
    assert Step(trace[i - 1], acts[i - 1]) == Some(trace[i]);
    SessionsStep(trace[i - 1], acts[i - 1], trace[i], k);
    if i > c + 1 {
      SessionLife(trace, acts, now, c, i - 1, k);
      SpentNext(acts, c + 1, i - 1, k);
    }
  }

  lemma {:induction false} Created(trace: seq<State>, acts: seq<Action>, now: int, i: nat, k: Id) returns (c: nat)
    requires IsTrace(trace, acts, now) && i < |trace| && k in trace[i].sessions
    ensures c < i && CreatesAt(acts, c, k)
    decreases i
  {
    hide Step;
    assert i > 0;
    assert Step(trace[i - 1], acts[i - 1]) == Some(trace[i]);
    SessionsStep(trace[i - 1], acts[i - 1], trace[i], k);
    if k in trace[i - 1].sessions {
      c := Created(trace, acts, now, i - 1, k);
    } else {
      c := i - 1;
    }
  }

  /** What stands in the way of a start is the session alone. */
  lemma StartsIff(s: State, act: Action)
    requires IsStartAction(act) && (act.StartVerify? ==> act.req !in s.requests) && (act.StartEnrol? ==> act.req !in s.enrols)
    ensures Step(s, act).Some? <==>
      && act.token in s.sessions && s.sessions[act.token].org == act.p.org && s.sessions[act.token].env == act.p.env
      && s.sessions[act.token].status == Pending && s.now < s.sessions[act.token].expiresAt
  {
    hide RequestsAfter, EnrolsAfter;
  }

  /** At every moment of every run a session can be consumed exactly by the organisation and
      environment it was created for, less than ten minutes after, and not a second time. */
  lemma ConsumableIff(trace: seq<State>, acts: seq<Action>, now: int, c: nat, i: nat, act: Action)
    requires IsTrace(trace, acts, now) && IsStartAction(act) && CreatesAt(acts, c, act.token) && c < i < |trace|
    requires (act.StartVerify? ==> act.req !in trace[i].requests) && (act.StartEnrol? ==> act.req !in trace[i].enrols)
    ensures Step(trace[i], act).Some? <==>
      && act.p.org == acts[c].p.org && act.p.env == acts[c].p.env
      && trace[i].now < trace[c].now + 10 * 60 * 1000 && !SpentIn(acts, c + 1, i, act.token)
  {
    SessionLife(trace, acts, now, c, i, act.token);
    StartsIff(trace[i], act);
    hide Step, IsTrace, SpentIn;
  }

  /** A token that no session was created for is never accepted. */
  lemma UnknownToken(trace: seq<State>, acts: seq<Action>, now: int, i: nat, act: Action)
    requires IsTrace(trace, acts, now) && IsStartAction(act) && i < |trace|
    requires forall c: nat :: c < i ==> !CreatesAt(acts, c, act.token)
    ensures Step(trace[i], act).None?
  {
    if act.token in trace[i].sessions {
      var c := Created(trace, acts, now, i, act.token);
      assert false;
    }
  }

  /** A consumed session leads to a verification exactly when it was created for one, of the
      same modality. */
  lemma VerificationBegins(trace: seq<State>, acts: seq<Action>, now: int, c: nat, i: nat, act: Action, t: State)
    requires IsTrace(trace, acts, now) && act.StartVerify? && CreatesAt(acts, c, act.token) && c < i < |trace|
    requires Step(trace[i], act) == Some(t)
    ensures act.req !in trace[i].requests
    ensures act.req in t.requests <==> acts[c].purpose == Verification && acts[c].modality == act.modality
    ensures act.req in t.requests ==>
      var r := t.requests[act.req];
      r.principal == act.p && r.subjectRef == act.subjectRef && r.modality == act.modality && r.e.session == act.token
    ensures forall k :: k in trace[i].requests ==> k in t.requests && t.requests[k] == trace[i].requests[k]
  {
    SessionLife(trace, acts, now, c, i, act.token);
    hide IsTrace, Spendable, SpentIn;
  }

  /** The same of an enrolment. */
  lemma EnrolmentBegins(trace: seq<State>, acts: seq<Action>, now: int, c: nat, i: nat, act: Action, t: State)
    requires IsTrace(trace, acts, now) && act.StartEnrol? && CreatesAt(acts, c, act.token) && c < i < |trace|
    requires Step(trace[i], act) == Some(t)
    ensures act.req !in trace[i].enrols
    ensures act.req in t.enrols <==> acts[c].purpose == Enrolment && acts[c].modality == act.modality
    ensures act.req in t.enrols ==>
      var n := t.enrols[act.req];
      n.principal == act.p && n.subject == act.subject && n.modality == act.modality && n.session == act.token && n.consent == None
  {
    SessionLife(trace, acts, now, c, i, act.token);
    hide IsTrace, Spendable, SpentIn;
  }

  // ---------------------------------------------------------------- what an approval rests on

  /** An approved attempt. */
  ghost predicate Approval(trace: seq<State>, req: Id) {
    && trace != [] && req in Last(trace).requests
    && Last(trace).requests[req].pc.Done? && Last(trace).requests[req].pc.outcome.verdict == Approved
  }

  /** The session behind an approval was created for a verification of its modality, by its
      organisation and environment, less than ten minutes before it was consumed, and never
      consumed before. */
  lemma ApprovalSession(trace: seq<State>, acts: seq<Action>, now: int, req: Id) returns (c: nat)
    requires IsTrace(trace, acts, now) && Approval(trace, req)
    ensures var r := Last(trace).requests[req];
      && c < r.e.consumedAt < |acts| && acts[c].CreateSession? && acts[c].id == r.e.session
      && acts[c].p.org == r.principal.org && acts[c].p.env == r.principal.env
      && acts[c].purpose == Verification && acts[c].modality == r.modality
      && trace[r.e.consumedAt].now < trace[c].now + 10 * 60 * 1000
      && Spends(acts[r.e.consumedAt], r.e.session) && !SpentIn(acts, c + 1, r.e.consumedAt, r.e.session)
  {
    ApprovalsJustified(trace, acts, now, req);
    var r := Last(trace).requests[req];
    var i, k := r.e.consumedAt, r.e.session;
    assert SessionFact(trace, r);
    hide PolicyFact, SubjectFact, TemplateFact, ChecksFact, ComparisonChecked, RiskFact;
    c := Created(trace, acts, now, i, k);
    SessionLife(trace, acts, now, c, i, k);
    SessionLife(trace, acts, now, c, i + 1, k);
    SpentNext(acts, c + 1, i, k);
    hide IsTrace, SpentIn;
  }

  /** The template behind an approval: of the subject, project and modality, active, not past
      its expiry, under a consent not withdrawn, none newer among such, and of the very model
      that analysed the capture. */
  lemma ApprovalTemplate(trace: seq<State>, acts: seq<Action>, now: int, req: Id)
    requires IsTrace(trace, acts, now) && Approval(trace, req)
    ensures var r := Last(trace).requests[req];
      && r.e.consumedAt < r.e.subjectAt < r.e.lookedAt < |trace|
      && (r.principal.project, r.subjectRef) in trace[r.e.subjectAt].subjects
      && trace[r.e.subjectAt].subjects[(r.principal.project, r.subjectRef)] == r.e.subject
    ensures var r := Last(trace).requests[req];
      var s := trace[r.e.lookedAt];
      && r.e.template in s.templates
      && var row := s.templates[r.e.template];
        && row.subject == r.e.subject && row.project == r.principal.project && row.modality == r.modality && row.active
        && (row.expiresAt == None || s.now < row.expiresAt.value)
        && row.consent in s.consents && !s.consents[row.consent].withdrawn
        && r.e.analysis.Some? && row.model == r.e.analysis.value.model
        && forall k :: k in s.templates && s.templates[k].createdAt > row.createdAt ==>
          || s.templates[k].subject != r.e.subject || s.templates[k].project != r.principal.project
          || s.templates[k].modality != r.modality || !s.templates[k].active
          || (s.templates[k].expiresAt.Some? && s.templates[k].expiresAt.value <= s.now) || s.templates[k].consent !in s.consents
  {
    ApprovalsJustified(trace, acts, now, req);
    var r := Last(trace).requests[req];
    hide SessionFact, ChecksFact, RiskFact, DecideOn, IsTrace;
    var s, row := trace[r.e.lookedAt], r.e.row;
    forall k | k in s.templates && s.templates[k].createdAt > row.createdAt
      ensures !Usable(s, k, r.e.subject, r.principal.project, r.modality)
    {
    }
  }

  /** The policy behind an approval is the one configured for the environment and modality at
      the moment it was read, or else the platform's own. */
  lemma ApprovalPolicy(trace: seq<State>, acts: seq<Action>, now: int, req: Id)
    requires IsTrace(trace, acts, now) && Approval(trace, req)
    ensures var r := Last(trace).requests[req];
      && r.e.consumedAt < r.e.policyAt < |trace|
      && r.e.policy ==
        if (r.principal.env, r.modality) in trace[r.e.policyAt].policies then trace[r.e.policyAt].policies[(r.principal.env, r.modality)]
        else if r.modality == Face then FacePolicy(0.72, 25.0, 0.2, 0.93, 0.74, 0.62)
        else FingerPolicy(0.6, 16, 0.8, 0.55, true)
  {
    ApprovalsJustified(trace, acts, now, req);
    hide SessionFact, SubjectFact, TemplateFact, ChecksFact, RiskFact, ComparisonChecked, DecideOn, IsTrace;
  }

  /** When an approval looked for risk, no high signal about its subject in its organisation
      was less than an hour old. */
  lemma ApprovalRisk(trace: seq<State>, acts: seq<Action>, now: int, req: Id)
    requires IsTrace(trace, acts, now) && Approval(trace, req)
    ensures var r := Last(trace).requests[req];
      && r.e.lookedAt < r.e.riskAt < |trace|
      && var s := trace[r.e.riskAt];
        forall i :: 0 <= i < |s.risks| && s.risks[i].org == r.principal.org && s.risks[i].subject == r.e.subject && s.risks[i].high ==>
          s.risks[i].at <= s.now - 60 * 60 * 1000
  {
    ApprovalsJustified(trace, acts, now, req);
    hide SessionFact, PolicyFact, SubjectFact, TemplateFact, ChecksFact, ComparisonChecked, DecideOn, IsTrace;
  }

  /** The model was found in the registry for this purpose at some moment after the lookup. */
  ghost predicate FoundApproved(trace: seq<State>, r: Request, model: Model, purpose: ModelPurpose) {
    exists i :: r.e.lookedAt < i < |trace| && Need(model, purpose) in trace[i].registry
  }

  lemma CheckedIsFound(trace: seq<State>, r: Request, i: nat)
    requires ChecksFact(trace, r) && i < |r.e.checks|
    ensures FoundApproved(trace, r, r.e.checks[i].need.model, r.e.checks[i].need.purpose)
  {
    assert r.e.checks[i].need in trace[r.e.checks[i].at].registry;
  }

  lemma NeedAt(r: Request, i: nat)
    requires ComparisonChecked(r, [])
    ensures var needs := AnalysisNeeds(r.e.analysis.value) + ComparisonNeeds(r.e.comparison.value);
      |r.e.checks| == |needs| && (i < |needs| ==> r.e.checks[i].need == needs[i])
  {
    assert Needs(r.e.checks) + [] == Needs(r.e.checks);
    assert |Needs(r.e.checks)| == |r.e.checks|;
  }

  /** The models behind an approval, and what it measured. A face: both models approved, and
      every threshold of its policy met. A finger: extractor and matcher approved, the
      attack-detection model too when the analysis names one, and every threshold met. */
  lemma ApprovalMeasures(trace: seq<State>, acts: seq<Action>, now: int, req: Id)
    requires IsTrace(trace, acts, now) && Approval(trace, req)
    ensures var r := Last(trace).requests[req];
      && r.e.analysis.Some? && r.e.comparison.Some?
      && var a, c, p := r.e.analysis.value, r.e.comparison.value, r.e.policy;
        && (r.modality == Face ==>
          && a.FaceAnalysis? && c.FaceComparison? && p.FacePolicy?
          && FoundApproved(trace, r, a.model, FaceEmbedding) && FoundApproved(trace, r, a.padModel, PassivePad)
          && a.faceDetected && a.quality >= p.minQuality && -p.maxPose <= a.pose <= p.maxPose && a.occlusion <= p.maxOcclusion
          && a.isLive && a.liveness >= p.minLiveness && c.similarity >= p.approveAt)
        && (r.modality == Fingerprint ==>
          && a.FingerAnalysis? && c.FingerComparison? && p.FingerPolicy?
          && FoundApproved(trace, r, a.model, FingerExtraction) && FoundApproved(trace, r, c.matcher, FingerMatching)
          && (a.pad.Some? ==> FoundApproved(trace, r, a.pad.value, FingerPad))
          && a.fingerDetected && a.quality >= p.minQuality && a.minutiaeCount >= p.minMinutiae && c.score >= p.approveAt
          && (c.padPresent ==> c.padIsLive) && (p.requirePad ==> c.padPresent))
  {
    ApprovalsJustified(trace, acts, now, req);
    var r := Last(trace).requests[req];
    hide SessionFact, PolicyFact, SubjectFact, TemplateFact, RiskFact, IsTrace, FoundApproved;
    var n := |AnalysisNeeds(r.e.analysis.value) + ComparisonNeeds(r.e.comparison.value)|;
    forall i | 0 <= i < n
      ensures i < |r.e.checks| && r.e.checks[i].need == (AnalysisNeeds(r.e.analysis.value) + ComparisonNeeds(r.e.comparison.value))[i]
      ensures FoundApproved(trace, r, r.e.checks[i].need.model, r.e.checks[i].need.purpose)
    {
      NeedAt(r, i);
      CheckedIsFound(trace, r, i);
    }
    ApprovedMeasures(r);
    hide ChecksFact, ComparisonChecked, DecideOn;
    if r.modality == Face {
      assert (AnalysisNeeds(r.e.analysis.value) + ComparisonNeeds(r.e.comparison.value))[0] == Need(r.e.analysis.value.model, FaceEmbedding);
      assert (AnalysisNeeds(r.e.analysis.value) + ComparisonNeeds(r.e.comparison.value))[1] == Need(r.e.analysis.value.padModel, PassivePad);
    } else {
      assert (AnalysisNeeds(r.e.analysis.value) + ComparisonNeeds(r.e.comparison.value))[0] == Need(r.e.analysis.value.model, FingerExtraction);
      assert (AnalysisNeeds(r.e.analysis.value) + ComparisonNeeds(r.e.comparison.value))[n - 1] == Need(r.e.comparison.value.matcher, FingerMatching);
      if r.e.analysis.value.pad.Some? {
        assert (AnalysisNeeds(r.e.analysis.value) + ComparisonNeeds(r.e.comparison.value))[1] == Need(r.e.analysis.value.pad.value, FingerPad);
      }
    }
  }

  /** What a decision to approve says about the measurements. */
  lemma ApprovedMeasures(r: Request)
    requires ComparisonChecked(r, []) && DecideOn(r.e.policy, r.e.analysis.value, r.e.comparison.value).verdict == Approved
    ensures var a, c, p := r.e.analysis.value, r.e.comparison.value, r.e.policy;
      && (r.modality == Face ==>
        && a.FaceAnalysis? && c.FaceComparison? && p.FacePolicy?
        && a.faceDetected && a.quality >= p.minQuality && -p.maxPose <= a.pose <= p.maxPose && a.occlusion <= p.maxOcclusion
        && a.isLive && a.liveness >= p.minLiveness && c.similarity >= p.approveAt)
      && (r.modality == Fingerprint ==>
        && a.FingerAnalysis? && c.FingerComparison? && p.FingerPolicy?
        && a.fingerDetected && a.quality >= p.minQuality && a.minutiaeCount >= p.minMinutiae && c.score >= p.approveAt
        && (c.padPresent ==> c.padIsLive) && (p.requirePad ==> c.padPresent))
  {
  }
}
