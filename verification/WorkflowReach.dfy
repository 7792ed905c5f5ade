/** Approvals are not out of reach: when every condition holds and nobody interferes, the
    verification's statements, one after the other, end in one. */
module WorkflowReach {
  import opened Basics
  import opened Decision
  import opened Workflow
  import opened WorkflowService

  ghost function Exec(s: State, acts: seq<Action>): Option<State>
    decreases |acts|
  {
    if acts == [] then Some(s)
    else
      var front := Exec(s, acts[..|acts| - 1]);
      if front.None? then None else Step(front.value, acts[|acts| - 1])
  }

  /** The tables a verification reads are as they were, and the request is at r. */
  ghost predicate Standing(s: State, t: State, req: Id, r: Request) {
    && t.now == s.now && t.policies == s.policies && t.subjects == s.subjects && t.templates == s.templates
    && t.consents == s.consents && t.registry == s.registry && t.risks == s.risks
    && req in t.requests && t.requests[req] == r
  }

  /** The run so far, undisturbed, has brought the request to r. */
  ghost predicate Reached(s: State, acts: seq<Action>, req: Id, r: Request) {
    Exec(s, acts).Some? && Standing(s, Exec(s, acts).value, req, r)
  }

  lemma ExecNext(s: State, acts: seq<Action>, act: Action)
    requires Exec(s, acts).Some?
    ensures Exec(s, acts + [act]) == Step(Exec(s, acts).value, act)
  {
    assert (acts + [act])[..|acts|] == acts;
  }

  /** One more statement of the request. */
  lemma Next(s: State, acts: seq<Action>, req: Id, r: Request, act: Action, q: Request)
    requires Reached(s, acts, req, r) && IsVerifyAction(act) && !act.RecordAttempt? && act.req == req
    requires Advance(Exec(s, acts).value, r, act) == Some(q)
    ensures Reached(s, acts + [act], req, q)
  {
    ExecNext(s, acts, act);
    hide Advance, Exec;
  }

  /** The next model is in the registry. */
  lemma CheckOne(s: State, acts: seq<Action>, req: Id, r: Request) returns (q: Request)
    requires Reached(s, acts, req, r) && r.pc.CheckAnalysis? && r.e.analysis.Some? && r.pc.todo != [] && r.pc.todo[0] in s.registry
    ensures Reached(s, acts + [CheckModel(req)], req, q)
    ensures q == r.(pc := CheckAnalysis(r.pc.todo[1..]), e := r.e.(checks := q.e.checks))
  {
    q := OnCheckAnalysis(Exec(s, acts).value, r);
    hide Exec;
    Next(s, acts, req, r, CheckModel(req), q);
  }

  lemma CompareOne(s: State, acts: seq<Action>, req: Id, r: Request) returns (q: Request)
    requires Reached(s, acts, req, r) && r.pc.CheckComparison? && ShapesReady(r) && r.pc.todo != [] && r.pc.todo[0] in s.registry
    ensures Reached(s, acts + [CheckModel(req)], req, q)
    ensures q == r.(pc := CheckComparison(r.pc.todo[1..]), e := r.e.(checks := q.e.checks))
  {
    q := OnCheckComparison(Exec(s, acts).value, r);
    hide Exec, AfterComparison;
    Next(s, acts, req, r, CheckModel(req), q);
  }

  lemma {:induction false} CheckAll(s: State, acts: seq<Action>, req: Id, r: Request) returns (more: seq<Action>, q: Request)
    requires Reached(s, acts, req, r) && r.pc.CheckAnalysis? && r.e.analysis.Some? && AllApproved(s.registry, r.pc.todo)
    ensures Reached(s, more, req, q) && q == r.(pc := CheckAnalysis([]), e := r.e.(checks := q.e.checks))
    decreases |r.pc.todo|
  {
    hide Reached;
    if r.pc.todo == [] {
      more, q := acts, r;
    } else {
      var mid := CheckOne(s, acts, req, r);
      more, q := CheckAll(s, acts + [CheckModel(req)], req, mid);
    }
  }

  lemma {:induction false} CompareAll(s: State, acts: seq<Action>, req: Id, r: Request) returns (more: seq<Action>, q: Request)
    requires Reached(s, acts, req, r) && r.pc.CheckComparison? && ShapesReady(r) && AllApproved(s.registry, r.pc.todo)
    ensures Reached(s, more, req, q) && q == r.(pc := CheckComparison([]), e := r.e.(checks := q.e.checks))
    decreases |r.pc.todo|
  {
    hide Reached;
    if r.pc.todo == [] {
      more, q := acts, r;
    } else {
      var mid := CompareOne(s, acts, req, r);
      more, q := CompareAll(s, acts + [CheckModel(req)], req, mid);
    }
  }

  /** What the request has read by the time it is analysed. */
  ghost predicate ReadBy(s: State, r: Request, p: Principal, subjectRef: string, m: Modality, t: Id) {
    && r.principal == p && r.subjectRef == subjectRef && r.modality == m && r.e.policy == ActivePolicy(s, p.env, m)
    && (p.project, subjectRef) in s.subjects && r.e.subject == s.subjects[(p.project, subjectRef)]
    && t in s.templates && r.e.row == s.templates[t] && r.e.analysis == None && r.e.comparison == None
  }

  /** Session, policy, subject and template. */
  lemma ReadFour(s: State, req: Id, p: Principal, token: Id, subjectRef: string, m: Modality, t: Id) returns (acts: seq<Action>, r: Request)
    requires req !in s.requests && Spendable(s, p, token) && s.sessions[token].purpose == Verification && s.sessions[token].modality == m
    requires (p.project, subjectRef) in s.subjects
    requires IsLookup(s, Some(t), s.subjects[(p.project, subjectRef)], p.project, m) && !s.consents[s.templates[t].consent].withdrawn
    ensures Reached(s, acts, req, r) && r.pc == NeedAnalysis && ReadBy(s, r, p, subjectRef, m, t)
  {
    var r0 := Open(s, req, p, token, subjectRef, m);
    var three, r3 := ReadThree(s, [StartVerify(req, p, token, subjectRef, m)], req, r0);
    hide Reached, IsLookup, ActivePolicy;
    r := LookUp(s, three, req, r3, t);
    acts := three + [ReadTemplate(req, Some(t))];
  }

  lemma Open(s: State, req: Id, p: Principal, token: Id, subjectRef: string, m: Modality) returns (r: Request)
    requires req !in s.requests && Spendable(s, p, token) && s.sessions[token].purpose == Verification && s.sessions[token].modality == m
    ensures Reached(s, [StartVerify(req, p, token, subjectRef, m)], req, r)
    ensures r == Request(p, subjectRef, m, NeedPolicy, NoEvidence(token, s.step))
  {
    var start := StartVerify(req, p, token, subjectRef, m);
    r := Request(p, subjectRef, m, NeedPolicy, NoEvidence(token, s.step));
    ExecNext(s, [], start);
    assert [] + [start] == [start];
    hide NoEvidence;
  }

  lemma LookUp(s: State, acts: seq<Action>, req: Id, r: Request, t: Id) returns (q: Request)
    requires Reached(s, acts, req, r) && r.pc == NeedTemplate && r.e.analysis == None && r.e.comparison == None
    requires IsLookup(s, Some(t), r.e.subject, r.principal.project, r.modality) && !s.consents[s.templates[t].consent].withdrawn
    ensures Reached(s, acts + [ReadTemplate(req, Some(t))], req, q)
    ensures q == r.(pc := NeedAnalysis, e := r.e.(template := t, row := s.templates[t], lookedAt := q.e.lookedAt))
  {
    var u := Exec(s, acts).value;
    SameLookup(s, u, Some(t), r.e.subject, r.principal.project, r.modality);
    q := OnTemplate(u, r, Some(t));
    hide Exec, IsLookup;
    Next(s, acts, req, r, ReadTemplate(req, Some(t)), q);
  }

  lemma SameLookup(s: State, t: State, found: Option<Id>, subject: Id, project: Id, m: Modality)
    requires IsLookup(s, found, subject, project, m) && t.templates == s.templates && t.consents == s.consents && t.now == s.now
    ensures IsLookup(t, found, subject, project, m)
  {
    assert forall k :: Usable(t, k, subject, project, m) == Usable(s, k, subject, project, m);
  }

  lemma ReadThree(s: State, acts: seq<Action>, req: Id, r: Request) returns (more: seq<Action>, q: Request)
    requires Reached(s, acts, req, r) && r.pc == NeedPolicy && r.e.analysis == None && r.e.comparison == None
    requires (r.principal.project, r.subjectRef) in s.subjects
    ensures Reached(s, more, req, q) && q.pc == NeedTemplate && q.e.analysis == None && q.e.comparison == None
    ensures q.principal == r.principal && q.subjectRef == r.subjectRef && q.modality == r.modality
    ensures q.e.policy == ActivePolicy(s, r.principal.env, r.modality) && q.e.subject == s.subjects[(r.principal.project, r.subjectRef)]
  {
    var q1 := OnPolicy(Exec(s, acts).value, r);
    assert q1.e.policy == ActivePolicy(s, r.principal.env, r.modality);
    Next(s, acts, req, r, ReadPolicy(req), q1);
    var acts1 := acts + [ReadPolicy(req)];
    q := OnSubject(Exec(s, acts1).value, q1);
    hide Exec, ActivePolicy;
    Next(s, acts1, req, q1, ReadSubject(req), q);
    more := acts1 + [ReadSubject(req)];
  }

  /** From the analysis to the decision. */
  lemma Judge(s: State, acts: seq<Action>, req: Id, r: Request, a: Analysis, c: Comparison) returns (more: seq<Action>, q: Request)
    requires Reached(s, acts, req, r) && r.pc == NeedAnalysis && ShapesAgree(r.modality, r.e.policy, a, c)
    requires AllApproved(s.registry, AnalysisNeeds(a)) && AllApproved(s.registry, ComparisonNeeds(c))
    requires r.e.row.model == a.model && DecideOn(r.e.policy, a, c).verdict == Approved
    ensures Reached(s, more, req, q) && q.pc == NeedRisk
    ensures q.principal == r.principal && q.subjectRef == r.subjectRef && q.e.subject == r.e.subject
    ensures q.modality == r.modality && q.e.policy == r.e.policy && q.e.analysis == Some(a) && q.e.comparison == Some(c)
  {
    hide Reached, AllApproved, AnalysisNeeds, ComparisonNeeds, DecideOn;
    var q1 := OnAnalysis(r, Some(a));
    Next(s, acts, req, r, Analyse(req, Some(a)), q1);
    var acts2, q2 := CheckAll(s, acts + [Analyse(req, Some(a))], req, q1);
    var q3 := q2.(pc := NeedComparison);
    Next(s, acts2, req, q2, CheckModel(req), q3);
    var q4 := OnComparison(q3, Some(c));
    Next(s, acts2 + [CheckModel(req)], req, q3, Compare(req, Some(c)), q4);
    var acts5, q5 := CompareAll(s, acts2 + [CheckModel(req)] + [Compare(req, Some(c))], req, q4);
    q := q5.(pc := NeedRisk);
    Next(s, acts5, req, q5, CheckModel(req), q);
    more := acts5 + [CheckModel(req)];
  }

  /** The last two statements: no risk, and the record. */
  lemma Finish(s: State, acts: seq<Action>, req: Id, r: Request) returns (more: seq<Action>)
    requires Reached(s, acts, req, r) && r.pc == NeedRisk && !HighRisk(s, r.principal.org, r.e.subject)
    ensures Exec(s, more).Some? && req in Exec(s, more).value.requests
    ensures Exec(s, more).value.requests[req] == r.(pc := Done(Outcome(Approved, MatchConfirmed)), e := r.e.(riskAt := Exec(s, acts).value.step))
  {
    var t := Exec(s, acts).value;
    assert HighRisk(t, r.principal.org, r.e.subject) == HighRisk(s, r.principal.org, r.e.subject);
    var q := OnRisk(t, r);
    hide HighRisk;
    Next(s, acts, req, r, CheckRisk(req), q);
    ExecNext(s, acts + [CheckRisk(req)], RecordAttempt(req, 0));
    more := acts + [CheckRisk(req)] + [RecordAttempt(req, 0)];
    hide Exec;
  }

  /** Whenever a pending session fits and every condition of an approval holds, some run of
      the verification's own statements ends in that approval: the conditions that
      approvals rest on are also enough for one. */
  lemma ApprovalReached(s: State, req: Id, p: Principal, token: Id, subjectRef: string, m: Modality, t: Id, a: Analysis, c: Comparison)
    returns (acts: seq<Action>)
    requires req !in s.requests && Spendable(s, p, token) && s.sessions[token].purpose == Verification && s.sessions[token].modality == m
    requires WouldApprove(s, p, subjectRef, m, Some(t), Some(a), Some(c))
    requires IsLookup(s, Some(t), s.subjects[(p.project, subjectRef)], p.project, m)
    ensures Exec(s, acts).Some? && req in Exec(s, acts).value.requests
    ensures var q := Exec(s, acts).value.requests[req];
      && q.pc == Done(Outcome(Approved, MatchConfirmed)) && q.modality == m && q.e.policy == ActivePolicy(s, p.env, m)
      && q.e.analysis == Some(a) && q.e.comparison == Some(c)
  {
    WouldApproveIs(s, p, subjectRef, m, Some(t), Some(a), Some(c));
    hide WouldApprove;
    var four, r := ReadFour(s, req, p, token, subjectRef, m, t);
    PassesIff(ActivePolicy(s, p.env, m), a, c);
    hide Reached, IsLookup, Passes, DecideOn, HighRisk, Usable, AnalysisNeeds, ComparisonNeeds, Exec, Spendable;
    var judged, q := Judge(s, four, req, r, a, c);
    acts := Finish(s, judged, req, q);
  }
}
