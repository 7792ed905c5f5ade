/** The 1:1 verification workflow as a state machine over SQL statements: any number of
    verifications, enrolments, withdrawals and deletions interleave, and each statement of
    each of them is one step. */
module Workflow {
  import opened Basics
  import opened Decision

  type Id = nat

  datatype Modality = Face | Fingerprint
  datatype Purpose = Enrolment | Verification
  datatype Status = Pending | Used | Expired

  datatype Principal = Principal(org: Id, project: Id, env: Id)
  datatype Session = Session(org: Id, project: Id, env: Id, purpose: Purpose, modality: Modality, status: Status, expiresAt: int)
  datatype Consent = Consent(org: Id, subject: Id, withdrawn: bool)
  datatype Model = Model(id: string, sha256: string)
  datatype ModelPurpose = FaceEmbedding | PassivePad | FingerExtraction | FingerPad | FingerMatching
  datatype Template = Template(
    project: Id, subject: Id, consent: Id, model: Model, active: bool, modality: Modality,
    expiresAt: Option<int>, createdAt: int, ciphertext: string)
  datatype Risk = Risk(org: Id, subject: Id, high: bool, at: int)

  /** A model that must be in the approved registry, and for what. */
  datatype Need = Need(model: Model, purpose: ModelPurpose)

  datatype Analysis =
    | FaceAnalysis(faceDetected: bool, quality: real, pose: real, occlusion: real, isLive: bool, liveness: real,
                   model: Model, padModel: Model)
    | FingerAnalysis(fingerDetected: bool, quality: real, minutiaeCount: int, pad: Option<Model>, model: Model)

  datatype Comparison =
    | FaceComparison(similarity: real)
    | FingerComparison(score: real, matcher: Model, padPresent: bool, padIsLive: bool)

  /** A registry lookup that succeeded, and the step at which it was made. */
  datatype Check = Check(need: Need, at: nat)

  /** What a verification has read so far, with the step of each read. */
  datatype Evidence = Evidence(
    session: Id, consumedAt: nat, policy: Policy, policyAt: nat, subject: Id, subjectAt: nat,
    template: Id, row: Template, lookedAt: nat, analysis: Option<Analysis>, comparison: Option<Comparison>,
    checks: seq<Check>, riskAt: nat)

  datatype Pc =
    | NeedPolicy | NeedSubject | NeedTemplate | NeedAnalysis
    | CheckAnalysis(todo: seq<Need>) | NeedComparison | CheckComparison(todo: seq<Need>)
    | NeedRisk | NeedRecord(outcome: Outcome) | Done(outcome: Outcome)

  /** A verification that consumed its session. It stays in the table when it is done. */
  datatype Request = Request(principal: Principal, subjectRef: string, modality: Modality, pc: Pc, e: Evidence)

  /** An enrolment that consumed its session. */
  datatype Enrol = Enrol(principal: Principal, subject: Id, modality: Modality, session: Id, consent: Option<Id>, finished: bool)

  /** The tables. A capture session is named by the hash of its one-use token. */
  datatype State = State(
    step: nat, now: int,
    sessions: map<Id, Session>, subjects: map<(Id, string), Id>, consents: map<Id, Consent>,
    templates: map<Id, Template>, registry: set<Need>, risks: seq<Risk>,
    policies: map<(Id, Modality), Policy>, requests: map<Id, Request>, enrols: map<Id, Enrol>)

  datatype Action =
    | CreateSession(id: Id, p: Principal, purpose: Purpose, modality: Modality)
    | StartVerify(req: Id, p: Principal, token: Id, subjectRef: string, modality: Modality)
    | ReadPolicy(req: Id)
    | ReadSubject(req: Id)
    | ReadTemplate(req: Id, found: Option<Id>)
    | Analyse(req: Id, analysis: Option<Analysis>)
    | CheckModel(req: Id)
    | Compare(req: Id, comparison: Option<Comparison>)
    | CheckRisk(req: Id)
    | RecordAttempt(req: Id, newSubject: Id)
    | StartEnrol(req: Id, p: Principal, token: Id, subject: Id, modality: Modality)
    | EnrolConsent(req: Id, consent: Id)
    | EnrolTemplate(req: Id, template: Id, model: Model, ciphertext: string)
    | SetExpiry(template: Id, expiresAt: Option<int>)
    | EnsureSubject(p: Principal, subjectRef: string, subject: Id)
    | WithdrawConsent(consent: Id)
    | RevokeByConsent(consent: Id)
    | RevokeBySubject(subject: Id)
    | WithdrawBySubject(subject: Id)
    | ApproveModel(need: Need)
    | RevokeModel(need: Need)
    | RaiseRisk(risk: Risk)
    | SetPolicy(env: Id, modality: Modality, policy: Policy)
    | ExpireSessions
    | Tick(now: int)

  const SESSION_MS := 10 * 60 * 1000
  const RISK_WINDOW_MS := 60 * 60 * 1000

  // ---------------------------------------------------------------- the statements

  /** The WHERE clause of the one-use UPDATE. */
  predicate Spendable(s: State, p: Principal, token: Id) {
    && token in s.sessions && s.sessions[token].org == p.org && s.sessions[token].env == p.env
    && s.sessions[token].status == Pending && s.sessions[token].expiresAt > s.now
  }

  function Spend(s: State, token: Id): State
    requires token in s.sessions
  {
    s.(sessions := s.sessions[token := s.sessions[token].(status := Used)])
  }

  function ActivePolicy(s: State, env: Id, modality: Modality): Policy {
    if (env, modality) in s.policies then s.policies[(env, modality)]
    else if modality == Face then DEFAULT_FACE else DEFAULT_FINGER
  }

  /** The WHERE clause of the reference lookup. */
  predicate Usable(s: State, t: Id, subject: Id, project: Id, modality: Modality) {
    && t in s.templates && s.templates[t].subject == subject && s.templates[t].project == project
    && s.templates[t].active && s.templates[t].modality == modality
    && (s.templates[t].expiresAt.Some? ==> s.templates[t].expiresAt.value > s.now)
    && s.templates[t].consent in s.consents
  }

  /** The newest usable template, or none. */
  ghost predicate IsLookup(s: State, found: Option<Id>, subject: Id, project: Id, modality: Modality) {
    match found
    case None => forall t :: !Usable(s, t, subject, project, modality)
    case Some(t) =>
      && Usable(s, t, subject, project, modality)
      && forall u :: Usable(s, u, subject, project, modality) ==> s.templates[u].createdAt <= s.templates[t].createdAt
  }

  predicate HighRisk(s: State, org: Id, subject: Id) {
    exists i :: 0 <= i < |s.risks| && s.risks[i].org == org && s.risks[i].subject == subject
      && s.risks[i].high && s.risks[i].at > s.now - RISK_WINDOW_MS
  }

  function AnalysisNeeds(a: Analysis): seq<Need> {
    match a
    case FaceAnalysis(_, _, _, _, _, _, model, padModel) => [Need(model, FaceEmbedding), Need(padModel, PassivePad)]
    case FingerAnalysis(_, _, _, pad, model) =>
      [Need(model, FingerExtraction)] + (if pad.Some? then [Need(pad.value, FingerPad)] else [])
  }

  function ComparisonNeeds(c: Comparison): seq<Need> {
    if c.FingerComparison? then [Need(c.matcher, FingerMatching)] else []
  }

  predicate ShapesAgree(m: Modality, p: Policy, a: Analysis, c: Comparison) {
    if m == Face then p.FacePolicy? && a.FaceAnalysis? && c.FaceComparison?
    else p.FingerPolicy? && a.FingerAnalysis? && c.FingerComparison?
  }

  function DecideOn(p: Policy, a: Analysis, c: Comparison): Outcome
    requires ShapesAgree(Face, p, a, c) || ShapesAgree(Fingerprint, p, a, c)
  {
    if p.FacePolicy? then
      Decide(p, FaceInput(a.faceDetected, a.quality, a.pose, a.occlusion, a.isLive, a.liveness, c.similarity))
    else
      DecideFingerprint(p, FingerInput(a.fingerDetected, a.quality, a.minutiaeCount, c.padPresent, c.padIsLive, c.score))
  }

  function NoTemplate(): Template { Template(0, 0, 0, Model("", ""), false, Face, None, 0, "") }

  function NoEvidence(session: Id, at: nat): Evidence {
    Evidence(session, at, DEFAULT_FACE, 0, 0, 0, 0, NoTemplate(), 0, None, None, [], 0)
  }

  /** After the models of an analysis are approved, the template's model must be the same. */
  function AfterAnalysis(e: Evidence): Pc
    requires e.analysis.Some?
  {
    if e.row.model != e.analysis.value.model then NeedRecord(Outcome(Review, ModelVersionMismatch)) else NeedComparison
  }

  function AfterComparison(m: Modality, e: Evidence): Pc
    requires e.analysis.Some? && e.comparison.Some? && ShapesAgree(m, e.policy, e.analysis.value, e.comparison.value)
  {
    var o := DecideOn(e.policy, e.analysis.value, e.comparison.value);
    if o.verdict == Approved then NeedRisk else NeedRecord(o)
  }

  // Each statement of a verification, from what it reads to where it goes next.

  function OnPolicy(s: State, r: Request): Request {
    r.(pc := NeedSubject, e := r.e.(policy := ActivePolicy(s, r.principal.env, r.modality), policyAt := s.step))
  }

  function OnSubject(s: State, r: Request): Request {
    var key := (r.principal.project, r.subjectRef);
    if key in s.subjects then r.(pc := NeedTemplate, e := r.e.(subject := s.subjects[key], subjectAt := s.step))
    else r.(pc := NeedRecord(Outcome(Rejected, ReferenceNotFound)))
  }

  function OnTemplate(s: State, r: Request, found: Option<Id>): Request
    requires found.Some? ==> Usable(s, found.value, r.e.subject, r.principal.project, r.modality)
  {
    if found.None? then r.(pc := NeedRecord(Outcome(Rejected, ReferenceNotFound)))
    else
      var row := s.templates[found.value];
      if s.consents[row.consent].withdrawn then r.(pc := NeedRecord(Outcome(Rejected, ConsentWithdrawn)))
      else r.(pc := NeedAnalysis, e := r.e.(template := found.value, row := row, lookedAt := s.step))
  }

  /** None is a provider outage. */
  function OnAnalysis(r: Request, analysis: Option<Analysis>): Request {
    if analysis.None? then r.(pc := NeedRecord(Outcome(Review, ServiceUnavailable)))
    else r.(pc := CheckAnalysis(AnalysisNeeds(analysis.value)), e := r.e.(analysis := analysis))
  }

  function OnCheckAnalysis(s: State, r: Request): Request
    requires r.pc.CheckAnalysis? && r.e.analysis.Some?
  {
    var todo := r.pc.todo;
    if todo == [] then r.(pc := AfterAnalysis(r.e))
    else if todo[0] !in s.registry then r.(pc := NeedRecord(Outcome(Review, ModelNotApproved)))
    else r.(pc := CheckAnalysis(todo[1..]), e := r.e.(checks := r.e.checks + [Check(todo[0], s.step)]))
  }

  function OnComparison(r: Request, comparison: Option<Comparison>): Request {
    if comparison.None? then r.(pc := NeedRecord(Outcome(Review, ServiceUnavailable)))
    else r.(pc := CheckComparison(ComparisonNeeds(comparison.value)), e := r.e.(comparison := comparison))
  }

  /** The policy, the analysis and the comparison are of the request's modality. */
  predicate ShapesReady(r: Request) {
    && r.e.analysis.Some? && r.e.comparison.Some?
    && ShapesAgree(r.modality, r.e.policy, r.e.analysis.value, r.e.comparison.value)
  }

  function OnCheckComparison(s: State, r: Request): Request
    requires r.pc.CheckComparison? && ShapesReady(r)
  {
    var todo := r.pc.todo;
    if todo == [] then r.(pc := AfterComparison(r.modality, r.e))
    else if todo[0] !in s.registry then r.(pc := NeedRecord(Outcome(Review, ModelNotApproved)))
    else r.(pc := CheckComparison(todo[1..]), e := r.e.(checks := r.e.checks + [Check(todo[0], s.step)]))
  }

  /** Risk signals only downgrade an approval. */
  function OnRisk(s: State, r: Request): Request {
    if HighRisk(s, r.principal.org, r.e.subject) then r.(pc := NeedRecord(Outcome(Review, RiskSignalReview)))
    else r.(pc := NeedRecord(Outcome(Approved, MatchConfirmed)), e := r.e.(riskAt := s.step))
  }

  /** One statement of one verification. */
  ghost function Advance(s: State, r: Request, act: Action): Option<Request> {
    match act
    case ReadPolicy(_) => if r.pc.NeedPolicy? then Some(OnPolicy(s, r)) else None
    case ReadSubject(_) => if r.pc.NeedSubject? then Some(OnSubject(s, r)) else None
    case ReadTemplate(_, found) =>
      if r.pc.NeedTemplate? && IsLookup(s, found, r.e.subject, r.principal.project, r.modality) then Some(OnTemplate(s, r, found))
      else None
    case Analyse(_, analysis) =>
      if r.pc.NeedAnalysis? && (analysis.Some? ==> analysis.value.FaceAnalysis? == (r.modality == Face)) then Some(OnAnalysis(r, analysis))
      else None
    case CheckModel(_) =>
      if r.pc.CheckAnalysis? && r.e.analysis.Some? then Some(OnCheckAnalysis(s, r))
      else if r.pc.CheckComparison? && ShapesReady(r) then Some(OnCheckComparison(s, r))
      else None
    case Compare(_, comparison) =>
      if r.pc.NeedComparison? && (comparison.Some? ==> comparison.value.FaceComparison? == (r.modality == Face))
      then Some(OnComparison(r, comparison)) else None
    case CheckRisk(_) => if r.pc.NeedRisk? then Some(OnRisk(s, r)) else None
    case RecordAttempt(_, _) => if r.pc.NeedRecord? then Some(r.(pc := Done(r.pc.outcome))) else None
    case _ => None
  }

  /** Recording an attempt creates the subject when there is none. */
  function SubjectsAfter(s: State, r: Request, act: Action): map<(Id, string), Id> {
    var key := (r.principal.project, r.subjectRef);
    if act.RecordAttempt? && key !in s.subjects then s.subjects[key := act.newSubject] else s.subjects
  }

  ghost function VerifyStep(s: State, act: Action): Option<State>
    requires IsVerifyAction(act)
  {
    if act.req !in s.requests then None
    else
      match Advance(s, s.requests[act.req], act)
      case None => None
      case Some(q) => Some(s.(requests := s.requests[act.req := q], subjects := SubjectsAfter(s, s.requests[act.req], act)))
  }

  /** A verification goes on when the session was issued for its purpose and modality. */
  function RequestsAfter(s: State, act: Action): map<Id, Request>
    requires IsStartAction(act) && act.token in s.sessions
  {
    var session := s.sessions[act.token];
    if act.StartVerify? && session.purpose == Verification && session.modality == act.modality then
      s.requests[act.req := Request(act.p, act.subjectRef, act.modality, NeedPolicy, NoEvidence(act.token, s.step))]
    else s.requests
  }

  function EnrolsAfter(s: State, act: Action): map<Id, Enrol>
    requires IsStartAction(act) && act.token in s.sessions
  {
    var session := s.sessions[act.token];
    if act.StartEnrol? && session.purpose == Enrolment && session.modality == act.modality then
      s.enrols[act.req := Enrol(act.p, act.subject, act.modality, act.token, None, false)]
    else s.enrols
  }

  /** consumeCaptureSession: the session is used up even when its purpose or modality is wrong. */
  function StartStep(s: State, act: Action): Option<State>
    requires IsStartAction(act)
  {
    if !Spendable(s, act.p, act.token) || (act.StartVerify? && act.req in s.requests) || (act.StartEnrol? && act.req in s.enrols) then None
    else Some(Spend(s, act.token).(requests := RequestsAfter(s, act), enrols := EnrolsAfter(s, act)))
  }

  /** A deletion's UPDATE reaches the subject's active templates only: one revoked earlier
      keeps its ciphertext. */
  function Deleted(t: Template, subject: Id): Template {
    if t.subject == subject && t.active then t.(active := false, ciphertext := "deleted") else t
  }

  /** The steps of everything else. */
  ghost function OtherStep(s: State, act: Action): Option<State> {
    match act
    case CreateSession(id, p, purpose, modality) =>
      if id in s.sessions then None
      else Some(s.(sessions := s.sessions[id := Session(p.org, p.project, p.env, purpose, modality, Pending, s.now + SESSION_MS)]))
    case EnrolConsent(req, consent) =>
      if req !in s.enrols || s.enrols[req].consent.Some? || s.enrols[req].finished || consent in s.consents then None
      else
        var en := s.enrols[req];
        Some(s.(consents := s.consents[consent := Consent(en.principal.org, en.subject, false)],
                enrols := s.enrols[req := en.(consent := Some(consent))]))
    case EnrolTemplate(req, template, model, ciphertext) =>
      if req !in s.enrols || s.enrols[req].consent.None? || s.enrols[req].finished || template in s.templates then None
      else
        var en := s.enrols[req];
        var row := Template(en.principal.project, en.subject, en.consent.value, model, true, en.modality, None, s.now, ciphertext);
        Some(s.(templates := s.templates[template := row], enrols := s.enrols[req := en.(finished := true)]))
    case SetExpiry(template, expiresAt) =>
      if template !in s.templates then None
      else Some(s.(templates := s.templates[template := s.templates[template].(expiresAt := expiresAt)]))
    case EnsureSubject(p, subjectRef, subject) =>
      if (p.project, subjectRef) in s.subjects then None
      else Some(s.(subjects := s.subjects[(p.project, subjectRef) := subject]))
    case WithdrawConsent(consent) =>
      if consent !in s.consents then None
      else Some(s.(consents := s.consents[consent := s.consents[consent].(withdrawn := true)]))
    case RevokeByConsent(consent) =>
      Some(s.(templates := map t | t in s.templates ::
        if s.templates[t].consent == consent then s.templates[t].(active := false) else s.templates[t]))
    case RevokeBySubject(subject) =>
      Some(s.(templates := map t | t in s.templates :: Deleted(s.templates[t], subject)))
    case WithdrawBySubject(subject) =>
      Some(s.(consents := map c | c in s.consents ::
        if s.consents[c].subject == subject then s.consents[c].(withdrawn := true) else s.consents[c]))
    case ApproveModel(need) => Some(s.(registry := s.registry + {need}))
    case RevokeModel(need) => Some(s.(registry := s.registry - {need}))
    case RaiseRisk(risk) => Some(s.(risks := s.risks + [risk]))
    case SetPolicy(env, modality, policy) =>
      if policy.FacePolicy? != (modality == Face) then None
      else Some(s.(policies := s.policies[(env, modality) := policy]))
    case ExpireSessions =>
      Some(s.(sessions := map k | k in s.sessions ::
        if s.sessions[k].status == Pending && s.sessions[k].expiresAt <= s.now then s.sessions[k].(status := Expired)
        else s.sessions[k]))
    case Tick(now) => if now < s.now then None else Some(s.(now := now))
    case _ => None
  }

  predicate IsVerifyAction(act: Action) {
    act.ReadPolicy? || act.ReadSubject? || act.ReadTemplate? || act.Analyse? || act.CheckModel?
    || act.Compare? || act.CheckRisk? || act.RecordAttempt?
  }

  predicate IsStartAction(act: Action) { act.StartVerify? || act.StartEnrol? }

  ghost function Step(s: State, act: Action): Option<State> {
    var next := if IsVerifyAction(act) then VerifyStep(s, act) else if IsStartAction(act) then StartStep(s, act) else OtherStep(s, act);
    match next
    case None => None
    case Some(t) => Some(t.(step := s.step + 1))
  }

  function Init(now: int): State {
    State(0, now, map[], map[], map[], map[], {}, [], map[], map[], map[])
  }

  /** Every state a run goes through, first to last. */
  ghost predicate IsTrace(trace: seq<State>, acts: seq<Action>, now: int) {
    && |trace| == |acts| + 1 && trace[0] == Init(now)
    && forall i :: 0 <= i < |acts| ==> Step(trace[i], acts[i]) == Some(trace[i + 1])
  }

  function Last(trace: seq<State>): State
    requires trace != []
  {
    trace[|trace| - 1]
  }

  // ---------------------------------------------------------------- what an approval rests on

  ghost predicate SessionFact(trace: seq<State>, r: Request) {
    && r.e.consumedAt + 1 < |trace|
    && var s := trace[r.e.consumedAt];
      && Spendable(s, r.principal, r.e.session)
      && s.sessions[r.e.session].purpose == Verification && s.sessions[r.e.session].modality == r.modality
      && r.e.session in trace[r.e.consumedAt + 1].sessions && trace[r.e.consumedAt + 1].sessions[r.e.session].status == Used
  }

  ghost predicate PolicyFact(trace: seq<State>, r: Request) {
    && r.e.consumedAt < r.e.policyAt && r.e.policyAt + 1 < |trace|
    && r.e.policy == ActivePolicy(trace[r.e.policyAt], r.principal.env, r.modality)
  }

  ghost predicate SubjectFact(trace: seq<State>, r: Request) {
    var key := (r.principal.project, r.subjectRef);
    && r.e.policyAt < r.e.subjectAt && r.e.subjectAt + 1 < |trace|
    && key in trace[r.e.subjectAt].subjects && trace[r.e.subjectAt].subjects[key] == r.e.subject
  }

  /** The lookup read the newest active, unexpired template of the subject, project and
      modality, under a consent not withdrawn at that moment. */
  ghost predicate TemplateFact(trace: seq<State>, r: Request) {
    && r.e.subjectAt < r.e.lookedAt && r.e.lookedAt + 1 < |trace|
    && var s := trace[r.e.lookedAt];
      && IsLookup(s, Some(r.e.template), r.e.subject, r.principal.project, r.modality)
      && r.e.row == s.templates[r.e.template] && !s.consents[r.e.row.consent].withdrawn
  }

  ghost predicate ChecksFact(trace: seq<State>, r: Request) {
    forall i :: 0 <= i < |r.e.checks| ==>
      r.e.lookedAt < r.e.checks[i].at < |trace| && r.e.checks[i].need in trace[r.e.checks[i].at].registry
  }

  function Needs(checks: seq<Check>): seq<Need> {
    seq(|checks|, i requires 0 <= i < |checks| => checks[i].need)
  }

  ghost predicate RiskFact(trace: seq<State>, r: Request) {
    r.e.lookedAt < r.e.riskAt && r.e.riskAt + 1 < |trace| && !HighRisk(trace[r.e.riskAt], r.principal.org, r.e.subject)
  }

  ghost predicate PolicyShape(m: Modality, p: Policy) { p.FacePolicy? == (m == Face) }

  /** The models approved so far are those the analysis, and the comparison, rely on. */
  ghost predicate AnalysisChecked(r: Request, todo: seq<Need>) {
    && r.e.analysis.Some? && r.e.analysis.value.FaceAnalysis? == (r.modality == Face)
    && Needs(r.e.checks) + todo == AnalysisNeeds(r.e.analysis.value)
  }

  ghost predicate ComparisonChecked(r: Request, todo: seq<Need>) {
    && r.e.analysis.Some? && r.e.comparison.Some? && PolicyShape(r.modality, r.e.policy)
    && ShapesAgree(r.modality, r.e.policy, r.e.analysis.value, r.e.comparison.value)
    && r.e.row.model == r.e.analysis.value.model
    && Needs(r.e.checks) + todo == AnalysisNeeds(r.e.analysis.value) + ComparisonNeeds(r.e.comparison.value)
  }

  /** Everything an approval rests on, each read at its own moment of the run. */
  ghost predicate Justified(trace: seq<State>, r: Request) {
    && SessionFact(trace, r) && PolicyFact(trace, r) && SubjectFact(trace, r) && TemplateFact(trace, r)
    && ChecksFact(trace, r) && ComparisonChecked(r, []) && RiskFact(trace, r)
    && DecideOn(r.e.policy, r.e.analysis.value, r.e.comparison.value).verdict == Approved
  }
}
