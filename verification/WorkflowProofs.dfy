/** Safety of the verification workflow over every run. */
module WorkflowProofs {
  import opened Basics
  import opened Decision
  import opened Workflow

  // ---------------------------------------------------------------- the invariant

  ghost predicate Read1(trace: seq<State>, r: Request) { SessionFact(trace, r) && r.e.checks == [] }

  ghost predicate Read2(trace: seq<State>, r: Request) {
    Read1(trace, r) && PolicyFact(trace, r) && PolicyShape(r.modality, r.e.policy)
  }

  ghost predicate Read4(trace: seq<State>, r: Request) {
    && SessionFact(trace, r) && PolicyFact(trace, r) && PolicyShape(r.modality, r.e.policy)
    && SubjectFact(trace, r) && TemplateFact(trace, r) && ChecksFact(trace, r)
  }

  /** What a verification has established when it is about to do its next statement. */
  ghost predicate ReqOk(trace: seq<State>, r: Request) {
    match r.pc
    case NeedPolicy => Read1(trace, r)
    case NeedSubject => Read2(trace, r)
    case NeedTemplate => Read2(trace, r) && SubjectFact(trace, r)
    case NeedAnalysis => Read4(trace, r) && r.e.checks == []
    case CheckAnalysis(todo) => Read4(trace, r) && AnalysisChecked(r, todo)
    case NeedComparison => Read4(trace, r) && AnalysisChecked(r, []) && r.e.row.model == r.e.analysis.value.model
    case CheckComparison(todo) => Read4(trace, r) && ComparisonChecked(r, todo)
    case NeedRisk =>
      Read4(trace, r) && ComparisonChecked(r, [])
      && DecideOn(r.e.policy, r.e.analysis.value, r.e.comparison.value).verdict == Approved
    case NeedRecord(o) => SessionFact(trace, r) && (o.verdict == Approved ==> Justified(trace, r))
    case Done(o) => SessionFact(trace, r) && (o.verdict == Approved ==> Justified(trace, r))
  }

  type Requests = map<Id, Request>
  type Enrols = map<Id, Enrol>

  ghost predicate IsUsed(sessions: map<Id, Session>, k: Id) { k in sessions && sessions[k].status == Used }

  /** Whoever holds a session has used it up. */
  ghost predicate SpentOk(s: State) {
    && (forall a :: a in s.requests ==> IsUsed(s.sessions, s.requests[a].e.session))
    && (forall a :: a in s.enrols ==> IsUsed(s.sessions, s.enrols[a].session))
  }

  ghost predicate RequestsApart(m: Requests) {
    forall a, b :: a in m && b in m && a != b ==> m[a].e.session != m[b].e.session
  }

  ghost predicate EnrolsApart(n: Enrols) {
    forall a, b :: a in n && b in n && a != b ==> n[a].session != n[b].session
  }

  ghost predicate Apart(m: Requests, n: Enrols) {
    forall a, b :: a in m && b in n ==> m[a].e.session != n[b].session
  }

  /** No session is spent twice, by verifications or enrolments. */
  ghost predicate SpentOnce(s: State) {
    RequestsApart(s.requests) && EnrolsApart(s.enrols) && Apart(s.requests, s.enrols)
  }

  ghost predicate PoliciesOk(s: State) {
    forall k :: k in s.policies ==> PolicyShape(k.1, s.policies[k])
  }

  ghost predicate Inv(trace: seq<State>) {
    && trace != [] && Last(trace).step == |trace| - 1
    && PoliciesOk(Last(trace)) && SpentOk(Last(trace)) && SpentOnce(Last(trace))
    && forall a :: a in Last(trace).requests ==> ReqOk(trace, Last(trace).requests[a])
  }

  // ---------------------------------------------------------------- facts outlive later steps

  lemma FactsStable(trace: seq<State>, t: State, r: Request)
    ensures SessionFact(trace, r) ==> SessionFact(trace + [t], r)
    ensures PolicyFact(trace, r) ==> PolicyFact(trace + [t], r)
    ensures SubjectFact(trace, r) ==> SubjectFact(trace + [t], r)
    ensures TemplateFact(trace, r) ==> TemplateFact(trace + [t], r)
    ensures RiskFact(trace, r) ==> RiskFact(trace + [t], r)
  {
  }

  lemma ChecksStable(trace: seq<State>, t: State, r: Request)
    ensures ChecksFact(trace, r) ==> ChecksFact(trace + [t], r)
  {
  }

  lemma ReqOkStable(trace: seq<State>, t: State, r: Request)
    requires ReqOk(trace, r)
    ensures ReqOk(trace + [t], r)
  {
    hide SessionFact, PolicyFact, SubjectFact, TemplateFact, RiskFact, ChecksFact, ComparisonChecked, AnalysisChecked;
    FactsStable(trace, t, r);
    ChecksStable(trace, t, r);
  }

  // ---------------------------------------------------------------- steps of a verification

  ghost predicate Ran(trace: seq<State>, act: Action, t: State) {
    trace != [] && Step(Last(trace), act) == Some(t)
  }

  /** A request about to run a statement on the last state of a trace. */
  ghost predicate At(trace: seq<State>, s: State, r: Request) {
    trace != [] && Last(trace) == s && s.step == |trace| - 1 && PoliciesOk(s) && ReqOk(trace, r)
  }

  lemma NeedsAppend(checks: seq<Check>, c: Check)
    ensures Needs(checks + [c]) == Needs(checks) + [c.need]
  {
  }

  lemma OnPolicyOk(trace: seq<State>, s: State, r: Request, t: State)
    requires At(trace, s, r) && r.pc.NeedPolicy?
    ensures ReqOk(trace + [t], OnPolicy(s, r))
  {
    FactsStable(trace, t, r);
    var q := OnPolicy(s, r);
    assert (trace + [t])[q.e.policyAt] == s;
    assert PolicyFact(trace + [t], q) && SessionFact(trace + [t], q);
  }

  lemma OnSubjectOk(trace: seq<State>, s: State, r: Request, t: State)
    requires At(trace, s, r) && r.pc.NeedSubject?
    ensures ReqOk(trace + [t], OnSubject(s, r))
  {
    FactsStable(trace, t, r);
    var q := OnSubject(s, r);
    assert SessionFact(trace + [t], q) && PolicyFact(trace + [t], q);
    if q.pc.NeedTemplate? {
      assert (trace + [t])[q.e.subjectAt] == s;
    }
  }

  lemma OnTemplateOk(trace: seq<State>, s: State, r: Request, found: Option<Id>, t: State)
    requires At(trace, s, r) && r.pc.NeedTemplate?
    requires IsLookup(s, found, r.e.subject, r.principal.project, r.modality)
    ensures ReqOk(trace + [t], OnTemplate(s, r, found))
  {
    FactsStable(trace, t, r);
    var q := OnTemplate(s, r, found);
    assert SessionFact(trace + [t], q) && PolicyFact(trace + [t], q) && SubjectFact(trace + [t], q);
    if q.pc.NeedAnalysis? {
      assert (trace + [t])[q.e.lookedAt] == s;
      assert TemplateFact(trace + [t], q);
    }
  }

  /** A later statement leaves the facts read by the lookup and before as they were. */
  lemma Read4Carried(trace: seq<State>, r: Request, q: Request, t: State)
    requires Read4(trace, r) && q.principal == r.principal && q.subjectRef == r.subjectRef && q.modality == r.modality
    requires q.e == r.e.(analysis := q.e.analysis, comparison := q.e.comparison, checks := q.e.checks, riskAt := q.e.riskAt)
    requires q.e.checks == r.e.checks
    ensures Read4(trace + [t], q) && SessionFact(trace + [t], q)
  {
    FactsStable(trace, t, r);
    ChecksStable(trace, t, r);
  }

  /** A model found in the registry is one more fact. */
  lemma CheckAdded(trace: seq<State>, s: State, r: Request, need: Need, t: State)
    requires trace != [] && Last(trace) == s && s.step == |trace| - 1 && Read4(trace, r) && need in s.registry
    ensures Read4(trace + [t], r.(e := r.e.(checks := r.e.checks + [Check(need, s.step)])))
  {
    var q := r.(e := r.e.(checks := r.e.checks + [Check(need, s.step)]));
    Read4Carried(trace, r, r, t);
    assert r.e.lookedAt < |trace|;
    forall i | 0 <= i < |q.e.checks|
      ensures q.e.lookedAt < q.e.checks[i].at < |trace + [t]| && q.e.checks[i].need in (trace + [t])[q.e.checks[i].at].registry
    {
      if i == |r.e.checks| {
        assert (trace + [t])[s.step] == s;
      } else {
        assert q.e.checks[i] == r.e.checks[i];
      }
    }
  }

  lemma OnAnalysisOk(trace: seq<State>, s: State, r: Request, analysis: Option<Analysis>, t: State)
    requires At(trace, s, r) && r.pc.NeedAnalysis?
    requires analysis.Some? ==> analysis.value.FaceAnalysis? == (r.modality == Face)
    ensures ReqOk(trace + [t], OnAnalysis(r, analysis))
  {
    hide SessionFact, PolicyFact, SubjectFact, TemplateFact, ChecksFact, AnalysisNeeds;
    var q := OnAnalysis(r, analysis);
    Read4Carried(trace, r, q, t);
    assert q.pc.CheckAnalysis? ==> Needs([]) + q.pc.todo == q.pc.todo;
  }

  lemma AnalysisAdvances(r: Request, need: Need, at: nat)
    requires r.pc.CheckAnalysis? && r.pc.todo != [] && need == r.pc.todo[0] && AnalysisChecked(r, r.pc.todo)
    ensures AnalysisChecked(r.(e := r.e.(checks := r.e.checks + [Check(need, at)])), r.pc.todo[1..])
  {
    hide AnalysisNeeds;
    NeedsAppend(r.e.checks, Check(need, at));
    assert Needs(r.e.checks) + r.pc.todo == Needs(r.e.checks) + [need] + r.pc.todo[1..];
  }

  lemma ComparisonAdvances(r: Request, need: Need, at: nat)
    requires r.pc.CheckComparison? && r.pc.todo != [] && need == r.pc.todo[0] && ComparisonChecked(r, r.pc.todo)
    ensures ComparisonChecked(r.(e := r.e.(checks := r.e.checks + [Check(need, at)])), r.pc.todo[1..])
  {
    hide AnalysisNeeds, ComparisonNeeds;
    NeedsAppend(r.e.checks, Check(need, at));
    assert Needs(r.e.checks) + r.pc.todo == Needs(r.e.checks) + [need] + r.pc.todo[1..];
  }

  lemma OnCheckAnalysisOk(trace: seq<State>, s: State, r: Request, t: State)
    requires At(trace, s, r) && r.pc.CheckAnalysis? && r.e.analysis.Some?
    ensures ReqOk(trace + [t], OnCheckAnalysis(s, r))
  {
    hide SessionFact, PolicyFact, SubjectFact, TemplateFact, ChecksFact, AnalysisChecked, AnalysisNeeds, Needs;
    var q, todo := OnCheckAnalysis(s, r), r.pc.todo;
    Read4Carried(trace, r, r.(pc := q.pc), t);
    if todo != [] && todo[0] in s.registry {
      AnalysisAdvances(r, todo[0], s.step);
      CheckAdded(trace, s, r, todo[0], t);
      AnalysisCarried(r.(e := q.e), q, todo[1..]);
      Read4Carried(trace, r, r, t);
      Read4Pc(trace + [t], r.(e := q.e), q);
    } else {
      AnalysisCarried(r, q, []);
    }
  }

  /** Where a verification goes next is no part of these facts. */
  lemma Read4Pc(trace: seq<State>, r: Request, q: Request)
    requires Read4(trace, r) && q == r.(pc := q.pc)
    ensures Read4(trace, q) && SessionFact(trace, q)
  {
  }

  lemma AnalysisCarried(r: Request, q: Request, todo: seq<Need>)
    requires q.e == r.e && q.modality == r.modality
    ensures AnalysisChecked(r, todo) ==> AnalysisChecked(q, todo)
  {
  }

  lemma OnComparisonOk(trace: seq<State>, s: State, r: Request, comparison: Option<Comparison>, t: State)
    requires At(trace, s, r) && r.pc.NeedComparison?
    requires comparison.Some? ==> comparison.value.FaceComparison? == (r.modality == Face)
    ensures ReqOk(trace + [t], OnComparison(r, comparison))
  {
    hide SessionFact, PolicyFact, SubjectFact, TemplateFact, ChecksFact, AnalysisNeeds, ComparisonNeeds, Needs;
    var q := OnComparison(r, comparison);
    Read4Carried(trace, r, q, t);
    if comparison.Some? {
      assert Needs(r.e.checks) + [] == Needs(r.e.checks);
      assert ComparisonChecked(q, q.pc.todo);
    }
  }

  lemma ComparisonCarried(r: Request, q: Request, todo: seq<Need>)
    requires q.e == r.e.(riskAt := q.e.riskAt) && q.modality == r.modality
    ensures ComparisonChecked(r, todo) ==> ComparisonChecked(q, todo)
  {
  }

  lemma OnCheckComparisonOk(trace: seq<State>, s: State, r: Request, t: State)
    requires At(trace, s, r) && r.pc.CheckComparison? && ShapesReady(r)
    ensures ReqOk(trace + [t], OnCheckComparison(s, r))
  {
    hide SessionFact, PolicyFact, SubjectFact, TemplateFact, ChecksFact, ComparisonChecked, AnalysisNeeds, ComparisonNeeds, Needs, DecideOn;
    var q, todo := OnCheckComparison(s, r), r.pc.todo;
    Read4Carried(trace, r, r.(pc := q.pc), t);
    if todo != [] && todo[0] in s.registry {
      ComparisonAdvances(r, todo[0], s.step);
      CheckAdded(trace, s, r, todo[0], t);
      ComparisonCarried(r.(e := q.e), q, todo[1..]);
      Read4Pc(trace + [t], r.(e := q.e), q);
    } else {
      ComparisonCarried(r, q, []);
    }
  }

  lemma OnRiskOk(trace: seq<State>, s: State, r: Request, t: State)
    requires At(trace, s, r) && r.pc.NeedRisk?
    ensures ReqOk(trace + [t], OnRisk(s, r))
  {
    hide SessionFact, PolicyFact, SubjectFact, ChecksFact, ComparisonChecked, DecideOn, HighRisk;
    var q := OnRisk(s, r);
    Read4Carried(trace, r, q, t);
    ComparisonCarried(r, q, []);
    if !HighRisk(s, r.principal.org, r.e.subject) {
      assert (trace + [t])[q.e.riskAt] == s;
      assert RiskFact(trace + [t], q);
      assert SessionFact(trace + [t], q) && Justified(trace + [t], q) by { DecideCarried(r, q); }
    }
  }

  lemma DecideCarried(r: Request, q: Request)
    requires ComparisonChecked(r, []) && q.e == r.e.(riskAt := q.e.riskAt) && q.modality == r.modality
    ensures ComparisonChecked(q, [])
    ensures DecideOn(q.e.policy, q.e.analysis.value, q.e.comparison.value) == DecideOn(r.e.policy, r.e.analysis.value, r.e.comparison.value)
  {
  }

  lemma OnRecordOk(trace: seq<State>, r: Request, t: State)
    requires ReqOk(trace, r) && r.pc.NeedRecord?
    ensures ReqOk(trace + [t], r.(pc := Done(r.pc.outcome)))
  {
    ReqOkStable(trace, t, r);
    JustifiedPc(trace + [t], r, r.(pc := Done(r.pc.outcome)));
  }

  lemma JustifiedPc(trace: seq<State>, r: Request, q: Request)
    requires q == r.(pc := q.pc)
    ensures Justified(trace, r) ==> Justified(trace, q)
    ensures SessionFact(trace, r) ==> SessionFact(trace, q)
  {
    ComparisonCarried(r, q, []);
  }

  /** Every statement of a verification keeps what the verification has established. */
  lemma AdvanceOk(trace: seq<State>, s: State, r: Request, act: Action, q: Request, t: State)
    requires At(trace, s, r) && IsVerifyAction(act) && Advance(s, r, act) == Some(q)
    ensures ReqOk(trace + [t], q)
  {
    hide ReqOk, OnPolicy, OnSubject, OnTemplate, OnAnalysis, OnCheckAnalysis, OnComparison, OnCheckComparison, OnRisk, IsLookup;
    match act
    case ReadPolicy(_) => OnPolicyOk(trace, s, r, t);
    case ReadSubject(_) => OnSubjectOk(trace, s, r, t);
    case ReadTemplate(_, found) => OnTemplateOk(trace, s, r, found, t);
    case Analyse(_, analysis) => OnAnalysisOk(trace, s, r, analysis, t);
    case CheckModel(_) =>
      if r.pc.CheckAnalysis? {
        OnCheckAnalysisOk(trace, s, r, t);
      } else {
        OnCheckComparisonOk(trace, s, r, t);
      }
    case Compare(_, comparison) => OnComparisonOk(trace, s, r, comparison, t);
    case CheckRisk(_) => OnRiskOk(trace, s, r, t);
    case RecordAttempt(_, _) => OnRecordOk(trace, r, t);
  }

  lemma VerifyFrame(s: State, act: Action, t: State)
    requires IsVerifyAction(act) && Step(s, act) == Some(t)
    ensures act.req in s.requests && act.req in t.requests
    ensures Advance(s, s.requests[act.req], act) == Some(t.requests[act.req])
    ensures t.requests == s.requests[act.req := t.requests[act.req]]
    ensures t.sessions == s.sessions && t.enrols == s.enrols && t.policies == s.policies && t.step == s.step + 1
  {
    hide Advance, SubjectsAfter;
  }

  /** A statement leaves the session a verification spent alone. */
  lemma AdvanceKeepsSession(s: State, r: Request, act: Action, q: Request)
    requires Advance(s, r, act) == Some(q)
    ensures q.e.session == r.e.session
  {
    hide ActivePolicy, HighRisk, DecideOn, AnalysisNeeds, ComparisonNeeds, IsLookup;
  }

  lemma VerifyKeepsRequests(trace: seq<State>, act: Action, t: State)
    requires IsVerifyAction(act) && Inv(trace) && Ran(trace, act, t)
    ensures forall a :: a in t.requests ==> ReqOk(trace + [t], t.requests[a])
  {
    var s := Last(trace);
    VerifyFrame(s, act, t);
    hide Step, Advance, ReqOk, SpentOk, SpentOnce, PoliciesOk;
    AdvanceOk(trace, s, s.requests[act.req], act, t.requests[act.req], t);
    forall a | a in t.requests ensures ReqOk(trace + [t], t.requests[a]) {
      if a != act.req {
        ReqOkStable(trace, t, s.requests[a]);
      }
    }
  }

  lemma VerifyKeepsSessions(s: State, act: Action, t: State)
    requires IsVerifyAction(act) && Step(s, act) == Some(t) && SpentOk(s) && SpentOnce(s)
    ensures SpentOk(t) && SpentOnce(t)
  {
    VerifyFrame(s, act, t);
    AdvanceKeepsSession(s, s.requests[act.req], act, t.requests[act.req]);
    hide Step, Advance, SpentOk, RequestsApart, EnrolsApart, Apart;
    RequestMoves(s, act.req, t.requests[act.req]);
    SameSpent(s.(requests := s.requests[act.req := t.requests[act.req]]), t);
  }

  lemma RequestMoves(s: State, k: Id, r: Request)
    requires k in s.requests && r.e.session == s.requests[k].e.session
    ensures SpentOk(s) ==> SpentOk(s.(requests := s.requests[k := r]))
    ensures RequestsApart(s.requests) ==> RequestsApart(s.requests[k := r])
    ensures Apart(s.requests, s.enrols) ==> Apart(s.requests[k := r], s.enrols)
  {
    hide IsUsed;
  }

  lemma SameSpent(u: State, t: State)
    requires t.requests == u.requests && t.enrols == u.enrols && t.sessions == u.sessions
    ensures SpentOk(u) ==> SpentOk(t)
  {
    hide IsUsed;
  }

  lemma SamePolicies(s: State, t: State)
    requires PoliciesOk(s) && t.policies == s.policies
    ensures PoliciesOk(t)
  {
  }

  lemma VerifyKeepsInv(trace: seq<State>, act: Action, t: State)
    requires IsVerifyAction(act) && Inv(trace) && Ran(trace, act, t)
    ensures Inv(trace + [t])
  {
    var s := Last(trace);
    VerifyFrame(s, act, t);
    VerifyKeepsRequests(trace, act, t);
    VerifyKeepsSessions(s, act, t);
    hide Step, Advance, ReqOk, SpentOk, SpentOnce, PoliciesOk;
    SamePolicies(s, t);
    assert Last(trace + [t]) == t;
  }

  /** The spent sessions stay the same when requests and enrolments keep theirs. */
  lemma SessionsKept(s: State, t: State)
    requires t.requests.Keys == s.requests.Keys && t.enrols.Keys == s.enrols.Keys
    requires forall a :: a in s.requests ==> t.requests[a].e.session == s.requests[a].e.session
    requires forall a :: a in s.enrols ==> t.enrols[a].session == s.enrols[a].session
    requires forall k :: IsUsed(s.sessions, k) ==> IsUsed(t.sessions, k)
    ensures SpentOk(s) ==> SpentOk(t)
    ensures SpentOnce(s) ==> SpentOnce(t)
  {
  }

  // ---------------------------------------------------------------- the other steps

  lemma OtherFrame(s: State, act: Action, t: State)
    requires !IsVerifyAction(act) && !IsStartAction(act) && Step(s, act) == Some(t)
    ensures t.requests == s.requests && t.step == s.step + 1 && t.enrols.Keys == s.enrols.Keys
    ensures forall a :: a in s.enrols ==> t.enrols[a].session == s.enrols[a].session
    ensures forall k :: IsUsed(s.sessions, k) ==> IsUsed(t.sessions, k)
    ensures PoliciesOk(s) ==> PoliciesOk(t)
  {
  }

  lemma OtherKeepsInv(trace: seq<State>, act: Action, t: State)
    requires !IsVerifyAction(act) && !IsStartAction(act) && Inv(trace) && Ran(trace, act, t)
    ensures Inv(trace + [t])
  {
    var s := Last(trace);
    OtherFrame(s, act, t);
    hide Step, ReqOk;
    forall a | a in t.requests ensures ReqOk(trace + [t], t.requests[a]) {
      ReqOkStable(trace, t, s.requests[a]);
    }
    assert Last(trace + [t]) == t;
    SessionsKept(s, t);
  }

  /** What consuming a session does, whoever asks. */
  lemma StartFrame(s: State, act: Action, t: State)
    requires IsStartAction(act) && Step(s, act) == Some(t)
    ensures Spendable(s, act.p, act.token) && t.step == s.step + 1 && t.policies == s.policies
    ensures t.sessions == Spend(s, act.token).sessions
    ensures t.requests == RequestsAfter(s, act) && t.enrols == EnrolsAfter(s, act)
    ensures act.StartVerify? ==> act.req !in s.requests && t.enrols == s.enrols
    ensures act.StartEnrol? ==> act.req !in s.enrols && t.requests == s.requests
  {
    hide Spendable, NoEvidence, VerifyStep, OtherStep;
  }

  lemma RequestJoins(m: Requests, n: Enrols, k: Id, r: Request)
    requires RequestsApart(m) && Apart(m, n) && k !in m
    requires forall a :: a in m ==> m[a].e.session != r.e.session
    requires forall b :: b in n ==> n[b].session != r.e.session
    ensures RequestsApart(m[k := r]) && Apart(m[k := r], n)
  {
  }

  lemma EnrolJoins(m: Requests, n: Enrols, k: Id, en: Enrol)
    requires EnrolsApart(n) && Apart(m, n) && k !in n
    requires forall a :: a in m ==> m[a].e.session != en.session
    requires forall b :: b in n ==> n[b].session != en.session
    ensures EnrolsApart(n[k := en]) && Apart(m, n[k := en])
  {
  }

  lemma SpendingKeepsUsed(s: State, token: Id)
    requires token in s.sessions
    ensures forall k :: IsUsed(s.sessions, k) ==> IsUsed(Spend(s, token).sessions, k)
    ensures IsUsed(Spend(s, token).sessions, token)
  {
  }

  /** A pending session is not spent yet, so spending it takes it from nobody. */
  lemma VerifyStartSpends(s: State, act: Action, t: State)
    requires act.StartVerify? && Step(s, act) == Some(t) && SpentOk(s) && SpentOnce(s)
    ensures SpentOk(t) && SpentOnce(t)
  {
    StartFrame(s, act, t);
    assert !IsUsed(s.sessions, act.token);
    SpendingKeepsUsed(s, act.token);
    hide Step, IsUsed, RequestsApart, EnrolsApart, Apart, Spendable, Spend;
    if t.requests != s.requests {
      var r := Request(act.p, act.subjectRef, act.modality, NeedPolicy, NoEvidence(act.token, s.step));
      RequestJoins(s.requests, s.enrols, act.req, r);
    }
  }

  lemma EnrolStartSpends(s: State, act: Action, t: State)
    requires act.StartEnrol? && Step(s, act) == Some(t) && SpentOk(s) && SpentOnce(s)
    ensures SpentOk(t) && SpentOnce(t)
  {
    StartFrame(s, act, t);
    assert !IsUsed(s.sessions, act.token);
    SpendingKeepsUsed(s, act.token);
    hide Step, IsUsed, RequestsApart, EnrolsApart, Apart, Spendable, Spend;
    if t.enrols != s.enrols {
      EnrolJoins(s.requests, s.enrols, act.req, Enrol(act.p, act.subject, act.modality, act.token, None, false));
    }
  }

  lemma NewRequestOk(trace: seq<State>, act: Action, t: State)
    requires act.StartVerify? && Inv(trace) && Ran(trace, act, t) && act.req in t.requests && act.req !in Last(trace).requests
    ensures ReqOk(trace + [t], t.requests[act.req])
  {
    StartFrame(Last(trace), act, t);
    var r := t.requests[act.req];
    assert (trace + [t])[r.e.consumedAt] == Last(trace) && (trace + [t])[r.e.consumedAt + 1] == t;
  }

  lemma StartKeepsInv(trace: seq<State>, act: Action, t: State)
    requires IsStartAction(act) && Inv(trace) && Ran(trace, act, t)
    ensures Inv(trace + [t])
  {
    var s := Last(trace);
    StartFrame(s, act, t);
    if act.StartVerify? {
      VerifyStartSpends(s, act, t);
      if act.req in t.requests && act.req !in s.requests {
        NewRequestOk(trace, act, t);
      }
    } else {
      EnrolStartSpends(s, act, t);
    }
    hide Step, ReqOk, SpentOk, SpentOnce, Spendable;
    forall a | a in t.requests ensures ReqOk(trace + [t], t.requests[a]) {
      if a in s.requests {
        ReqOkStable(trace, t, s.requests[a]);
      }
    }
    assert Last(trace + [t]) == t;
  }

  lemma {:induction false} TraceInv(trace: seq<State>, acts: seq<Action>, now: int)
    requires IsTrace(trace, acts, now)
    ensures Inv(trace)
    decreases |acts|
  {
    if acts != [] {
      var n := |acts| - 1;
      var front, t := trace[..n + 1], trace[n + 1];
      assert IsTrace(front, acts[..n], now);
      TraceInv(front, acts[..n], now);
      assert Step(trace[n], acts[n]) == Some(trace[n + 1]);
      assert Last(front) == trace[n] && front + [t] == trace;
      if IsVerifyAction(acts[n]) {
        VerifyKeepsInv(front, acts[n], t);
      } else if IsStartAction(acts[n]) {
        StartKeepsInv(front, acts[n], t);
      } else {
        OtherKeepsInv(front, acts[n], t);
      }
    }
  }

  // ---------------------------------------------------------------- main results

  /** In every run each approved attempt is justified by what the tables said when each of
      its statements read them. */
  lemma ApprovalsJustified(trace: seq<State>, acts: seq<Action>, now: int, req: Id)
    requires IsTrace(trace, acts, now) && req in Last(trace).requests
    requires Last(trace).requests[req].pc.Done? && Last(trace).requests[req].pc.outcome.verdict == Approved
    ensures Justified(trace, Last(trace).requests[req])
  {
    TraceInv(trace, acts, now);
    assert ReqOk(trace, Last(trace).requests[req]);
  }

  /** In every run no capture session is spent by two attempts, two enrolments, or one of each. */
  lemma SessionsSpentOnce(trace: seq<State>, acts: seq<Action>, now: int)
    requires IsTrace(trace, acts, now)
    ensures SpentOnce(Last(trace))
  {
    TraceInv(trace, acts, now);
  }

  // ---------------------------------------------------------------- withdrawal and deletion are final

  predicate Inactive(s: State, t: Id) { t in s.templates && !s.templates[t].active }

  predicate Withdrawn(s: State, c: Id) { c in s.consents && s.consents[c].withdrawn }

  /** A template keeps its owner and never comes back; a consent is never reinstated. */
  ghost predicate NothingRevived(s: State, t: State) {
    && (forall k :: k in s.templates ==> TemplateKept(s, t, k))
    && (forall c :: c in s.consents ==> c in t.consents && (s.consents[c].withdrawn ==> t.consents[c].withdrawn))
  }

  ghost predicate TemplateKept(s: State, t: State, k: Id)
    requires k in s.templates
  {
    && k in t.templates && t.templates[k].subject == s.templates[k].subject
    && (t.templates[k].active ==> s.templates[k].active)
  }

  lemma OtherRevivesNothing(s: State, act: Action, t: State)
    requires OtherStep(s, act) == Some(t)
    ensures NothingRevived(s, t)
  {
  }

  lemma StepRevivesNothing(s: State, act: Action, t: State)
    requires Step(s, act) == Some(t)
    ensures NothingRevived(s, t)
  {
    hide NothingRevived, OtherStep, Advance, SubjectsAfter;
    if IsVerifyAction(act) || IsStartAction(act) {
      assert t.templates == s.templates && t.consents == s.consents;
      SameTables(s, t);
    } else {
      var u := OtherStep(s, act).value;
      OtherRevivesNothing(s, act, u);
      SameRevival(s, u, t);
    }
  }

  lemma SameTables(s: State, t: State)
    requires t.templates == s.templates && t.consents == s.consents
    ensures NothingRevived(s, t)
  {
  }

  lemma SameRevival(s: State, u: State, t: State)
    requires NothingRevived(s, u) && t.templates == u.templates && t.consents == u.consents
    ensures NothingRevived(s, t)
  {
  }

  lemma {:induction false} InactiveForever(trace: seq<State>, acts: seq<Action>, now: int, i: nat, j: nat, k: Id)
    requires IsTrace(trace, acts, now) && i <= j < |trace| && Inactive(trace[i], k)
    ensures Inactive(trace[j], k)
    decreases j
  {
    hide Step;
    if i < j {
      InactiveForever(trace, acts, now, i, j - 1, k);
      assert Step(trace[j - 1], acts[j - 1]) == Some(trace[j]);
      StepRevivesNothing(trace[j - 1], acts[j - 1], trace[j]);
    }
  }

  lemma {:induction false} WithdrawnForever(trace: seq<State>, acts: seq<Action>, now: int, i: nat, j: nat, c: Id)
    requires IsTrace(trace, acts, now) && i <= j < |trace| && Withdrawn(trace[i], c)
    ensures Withdrawn(trace[j], c)
    decreases j
  {
    hide Step;
    if i < j {
      WithdrawnForever(trace, acts, now, i, j - 1, c);
      assert Step(trace[j - 1], acts[j - 1]) == Some(trace[j]);
      StepRevivesNothing(trace[j - 1], acts[j - 1], trace[j]);
    }
  }

  /** An approval looked its template up before that template was revoked and before the
      consent it was enrolled under was withdrawn, however the statements interleave. */
  lemma ApprovalPrecedesWithdrawal(trace: seq<State>, acts: seq<Action>, now: int, req: Id, i: nat)
    requires IsTrace(trace, acts, now) && req in Last(trace).requests && i < |trace|
    requires Last(trace).requests[req].pc.Done? && Last(trace).requests[req].pc.outcome.verdict == Approved
    ensures var e := Last(trace).requests[req].e;
      Inactive(trace[i], e.template) || Withdrawn(trace[i], e.row.consent) ==> e.lookedAt < i
  {
    ApprovalsJustified(trace, acts, now, req);
    var e := Last(trace).requests[req].e;
    assert !Inactive(trace[e.lookedAt], e.template) && !Withdrawn(trace[e.lookedAt], e.row.consent);
    if i <= e.lookedAt && Inactive(trace[i], e.template) {
      InactiveForever(trace, acts, now, i, e.lookedAt, e.template);
    }
    if i <= e.lookedAt && Withdrawn(trace[i], e.row.consent) {
      WithdrawnForever(trace, acts, now, i, e.lookedAt, e.row.consent);
    }
  }

  /** After a subject's templates are revoked, only a template enrolled later can approve
      that subject. */
  lemma DeletedTemplatesNeverApprove(trace: seq<State>, acts: seq<Action>, now: int, req: Id, i: nat)
    requires IsTrace(trace, acts, now) && req in Last(trace).requests && i < |acts|
    requires Last(trace).requests[req].pc.Done? && Last(trace).requests[req].pc.outcome.verdict == Approved
    requires acts[i] == RevokeBySubject(Last(trace).requests[req].e.subject)
    ensures var e := Last(trace).requests[req].e;
      e.lookedAt <= i || e.template !in trace[i].templates
  {
    var e := Last(trace).requests[req].e;
    ApprovalsJustified(trace, acts, now, req);
    assert Step(trace[i], acts[i]) == Some(trace[i + 1]);
    if i < e.lookedAt && e.template in trace[i].templates {
      SubjectKept(trace, acts, now, i, e.lookedAt, e.template);
      assert trace[e.lookedAt].templates[e.template].subject == e.subject;
      assert Inactive(trace[i + 1], e.template);
      ApprovalPrecedesWithdrawal(trace, acts, now, req, i + 1);
    }
  }

  lemma {:induction false} SubjectKept(trace: seq<State>, acts: seq<Action>, now: int, i: nat, j: nat, k: Id)
    requires IsTrace(trace, acts, now) && i <= j < |trace| && k in trace[i].templates
    ensures k in trace[j].templates && trace[j].templates[k].subject == trace[i].templates[k].subject
    decreases j
  {
    hide Step;
    if i < j {
      SubjectKept(trace, acts, now, i, j - 1, k);
      assert Step(trace[j - 1], acts[j - 1]) == Some(trace[j]);
      StepRevivesNothing(trace[j - 1], acts[j - 1], trace[j]);
      assert TemplateKept(trace[j - 1], trace[j], k);
    }
  }
}
