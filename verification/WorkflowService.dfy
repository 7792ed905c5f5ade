/** The workflow's operations as they run on the tables, one after the other: what a whole
    verification decides, and what withdrawal and deletion leave behind. */
module WorkflowService {
  import opened Basics
  import opened Decision
  import opened Workflow
  import E = EvidenceService

  datatype Refusal = SessionInvalid | PurposeMismatch | ModalityMismatch | NotFound

  datatype Attempt = Attempt(session: Id, subject: Id, outcome: Outcome)

  datatype Deletion = Blocked | Completed(templatesRevoked: nat, consentsWithdrawn: nat, evidenceDeleted: nat)

  /** The models a verification relies on are in the registry. */
  predicate AllApproved(registry: set<Need>, needs: seq<Need>) { forall n :: n in needs ==> n in registry }

  /** What the provider returns has the shape of the modality asked for. */
  predicate ProviderShape(m: Modality, a: Option<Analysis>, c: Option<Comparison>) {
    && (a.Some? ==> a.value.FaceAnalysis? == (m == Face))
    && (c.Some? ==> c.value.FaceComparison? == (m == Face))
  }

  /** Everything a verification run on its own needs to be approved. */
  ghost predicate WouldApprove(s: State, p: Principal, subjectRef: string, m: Modality, found: Option<Id>,
                               a: Option<Analysis>, c: Option<Comparison>)
  {
    && (p.project, subjectRef) in s.subjects && found.Some? && found.value in s.templates && a.Some? && c.Some?
    && TemplateFits(s, s.templates[found.value], s.subjects[(p.project, subjectRef)], p.project, m)
    && s.templates[found.value].model == a.value.model
    && ShapesAgree(m, ActivePolicy(s, p.env, m), a.value, c.value)
    && AllApproved(s.registry, AnalysisNeeds(a.value) + ComparisonNeeds(c.value))
    && Passes(ActivePolicy(s, p.env, m), a.value, c.value)
    && NoRecentRisk(s, p.org, s.subjects[(p.project, subjectRef)])
  }

  /** Every high signal about the subject is an hour old. */
  predicate NoRecentRisk(s: State, org: Id, subject: Id) {
    forall i :: 0 <= i < |s.risks| && s.risks[i].org == org && s.risks[i].subject == subject && s.risks[i].high ==>
      s.risks[i].at <= s.now - 60 * 60 * 1000
  }

  /** A template of the subject, project and modality, active, unexpired, under a standing
      consent. */
  predicate TemplateFits(s: State, row: Template, subject: Id, project: Id, m: Modality) {
    && row.subject == subject && row.project == project && row.modality == m && row.active
    && (row.expiresAt == None || s.now < row.expiresAt.value)
    && row.consent in s.consents && !s.consents[row.consent].withdrawn
  }

  lemma WouldApproveIs(s: State, p: Principal, subjectRef: string, m: Modality, found: Option<Id>, a: Option<Analysis>, c: Option<Comparison>)
    ensures WouldApprove(s, p, subjectRef, m, found, a, c) <==>
      && (p.project, subjectRef) in s.subjects
      && var subject := s.subjects[(p.project, subjectRef)];
        && found.Some? && Usable(s, found.value, subject, p.project, m)
        && !s.consents[s.templates[found.value].consent].withdrawn
        && a.Some? && c.Some? && ShapesAgree(m, ActivePolicy(s, p.env, m), a.value, c.value)
        && AllApproved(s.registry, AnalysisNeeds(a.value) + ComparisonNeeds(c.value))
        && s.templates[found.value].model == a.value.model
        && Passes(ActivePolicy(s, p.env, m), a.value, c.value)
        && !HighRisk(s, p.org, subject)
  {
    hide AllApproved, Passes, ShapesAgree, ActivePolicy, AnalysisNeeds, ComparisonNeeds;
  }

  /** Every threshold of the policy, face or fingerprint. */
  ghost predicate Passes(p: Policy, a: Analysis, c: Comparison)
    requires ShapesAgree(Face, p, a, c) || ShapesAgree(Fingerprint, p, a, c)
  {
    if p.FacePolicy? then
      FacePasses(p, FaceInput(a.faceDetected, a.quality, a.pose, a.occlusion, a.isLive, a.liveness, c.similarity))
    else
      FingerPasses(p, FingerInput(a.fingerDetected, a.quality, a.minutiaeCount, c.padPresent, c.padIsLive, c.score))
  }

  lemma PassesIff(p: Policy, a: Analysis, c: Comparison)
    requires ShapesAgree(Face, p, a, c) || ShapesAgree(Fingerprint, p, a, c)
    ensures Passes(p, a, c) <==> DecideOn(p, a, c).verdict == Approved
  {
  }

  class Database {
    var state: State
    var attempts: seq<Attempt>
    var holds: set<(Id, Id)>

    constructor (now: int)
      ensures state == Init(now) && attempts == [] && holds == {}
    {
      state, attempts, holds := Init(now), [], {};
    }

    /** One UPDATE spends the token; a wrong purpose or modality is found only afterwards,
        when the session is already used up. */
    method ConsumeCaptureSession(p: Principal, token: Id, purpose: Purpose, modality: Modality) returns (refusal: Option<Refusal>)
      modifies this`state
      ensures var live := old(token in state.sessions && state.sessions[token].org == p.org && state.sessions[token].env == p.env
          && state.sessions[token].status == Pending && state.now < state.sessions[token].expiresAt);
        && (refusal == Some(SessionInvalid) <==> !live)
        && (refusal == Some(PurposeMismatch) <==> live && old(state).sessions[token].purpose != purpose)
        && (refusal == Some(ModalityMismatch) <==>
          live && old(state).sessions[token].purpose == purpose && old(state).sessions[token].modality != modality)
        && (refusal.None? <==> live && old(state).sessions[token].purpose == purpose && old(state).sessions[token].modality == modality)
        && state == if live then
            old(state).(sessions := old(state).sessions[token := old(state).sessions[token].(status := Used)])
          else old(state)
      ensures !Spendable(state, p, token)
    {
      if !Spendable(state, p, token) {
        return Some(SessionInvalid);
      }
      var session := state.sessions[token];
      state := Spend(state, token);
      if session.purpose != purpose {
        return Some(PurposeMismatch);
      }
      if session.modality != modality {
        return Some(ModalityMismatch);
      }
      return None;
    }

    /** ensureSubject followed by the insert of the attempt. */
    method Record(p: Principal, subjectRef: string, token: Id, outcome: Outcome, newSubject: Id)
      modifies this`state, this`attempts
      ensures (p.project, subjectRef) in state.subjects
      ensures state == old(state).(subjects := state.subjects)
      ensures attempts == old(attempts) + [Attempt(token, state.subjects[(p.project, subjectRef)], outcome)]
      ensures forall k :: k in old(state.subjects) ==> k in state.subjects && state.subjects[k] == old(state.subjects)[k]
    {
      var key := (p.project, subjectRef);
      if key !in state.subjects {
        state := state.(subjects := state.subjects[key := newSubject]);
      }
      attempts := attempts + [Attempt(token, state.subjects[key], outcome)];
    }

    /** assertModelApproved for each model in turn, stopping at the first that is missing. */
    method ModelsApproved(needs: seq<Need>) returns (ok: bool)
      ensures ok <==> AllApproved(state.registry, needs)
    {
      for i := 0 to |needs|
        invariant AllApproved(state.registry, needs[..i])
      {
        if needs[i] !in state.registry {
          assert needs[i] in needs;
          return false;
        }
        assert needs[..i + 1] == needs[..i] + [needs[i]];
      }
      assert needs[..|needs|] == needs;
      return true;
    }

    /** What follows the lookup: the analysis, the comparison and the decision. */
    method Assess(p: Principal, subject: Id, row: Template, m: Modality, policy: Policy,
                  a: Option<Analysis>, c: Option<Comparison>) returns (o: Outcome)
      requires ProviderShape(m, a, c) && policy.FacePolicy? == (m == Face)
      ensures o.verdict == Approved <==>
        && a.Some? && c.Some? && ShapesAgree(m, policy, a.value, c.value)
        && AllApproved(state.registry, AnalysisNeeds(a.value) + ComparisonNeeds(c.value))
        && row.model == a.value.model && Passes(policy, a.value, c.value) && !HighRisk(state, p.org, subject)
      ensures o.verdict == Approved ==> o.reason == MatchConfirmed
      ensures o.reason !in {ReferenceNotFound, ConsentWithdrawn}
      ensures o.verdict == Rejected <==>
        && a.Some? && c.Some? && ShapesAgree(m, policy, a.value, c.value)
        && AllApproved(state.registry, AnalysisNeeds(a.value) + ComparisonNeeds(c.value))
        && row.model == a.value.model && DecideOn(policy, a.value, c.value).verdict == Rejected
      ensures a.None? ==> o == Outcome(Review, ServiceUnavailable)
      ensures a.Some? && !AllApproved(state.registry, AnalysisNeeds(a.value)) ==> o == Outcome(Review, ModelNotApproved)
      ensures o.reason == ModelVersionMismatch <==>
        a.Some? && AllApproved(state.registry, AnalysisNeeds(a.value)) && row.model != a.value.model
    {
      if a.None? {
        return Outcome(Review, ServiceUnavailable);
      }
      var ok := ModelsApproved(AnalysisNeeds(a.value));
      if !ok {
        return Outcome(Review, ModelNotApproved);
      }
      if row.model != a.value.model {
        return Outcome(Review, ModelVersionMismatch);
      }
      if c.None? {
        return Outcome(Review, ServiceUnavailable);
      }
      ok := ModelsApproved(ComparisonNeeds(c.value));
      if !ok {
        return Outcome(Review, ModelNotApproved);
      }
      o := DecideOn(policy, a.value, c.value);
      PassesIff(policy, a.value, c.value);
      if o.verdict == Approved && HighRisk(state, p.org, subject) {
        o := Outcome(Review, RiskSignalReview);
      }
    }

    /** verifySubject and verifyFingerprint. found is what the reference lookup returns,
        a and c what the provider answers, None being an outage. */
    method Verify(p: Principal, token: Id, subjectRef: string, m: Modality, found: Option<Id>,
                  a: Option<Analysis>, c: Option<Comparison>, newSubject: Id)
      returns (refusal: Option<Refusal>, o: Outcome)
      requires ProviderShape(m, a, c) && ActivePolicy(state, p.env, m).FacePolicy? == (m == Face)
      requires (p.project, subjectRef) in state.subjects ==>
        IsLookup(state, found, state.subjects[(p.project, subjectRef)], p.project, m)
      modifies this`state, this`attempts
      ensures refusal.None? <==> old(
        && token in state.sessions && state.sessions[token].org == p.org && state.sessions[token].env == p.env
        && state.sessions[token].status == Pending && state.now < state.sessions[token].expiresAt
        && state.sessions[token].purpose == Verification && state.sessions[token].modality == m)
      ensures refusal.Some? ==> attempts == old(attempts)
      ensures refusal.None? ==>
        && (p.project, subjectRef) in state.subjects
        && attempts == old(attempts) + [Attempt(token, state.subjects[(p.project, subjectRef)], o)]
        && (o.verdict == Approved <==> old(WouldApprove(state, p, subjectRef, m, found, a, c)))
        && (o.reason == ReferenceNotFound <==> (p.project, subjectRef) !in old(state.subjects) || found.None?)
        && (o.reason == ConsentWithdrawn <==>
          (p.project, subjectRef) in old(state.subjects) && found.Some?
          && old(state.consents)[old(state.templates)[found.value].consent].withdrawn)
      ensures !Spendable(state, p, token)
      ensures state.templates == old(state.templates) && state.consents == old(state.consents) && state.registry == old(state.registry)
    {
      o := Outcome(Rejected, ReferenceNotFound);
      WouldApproveIs(state, p, subjectRef, m, found, a, c);
      hide WouldApprove, Passes, AllApproved, ShapesAgree, AnalysisNeeds, ComparisonNeeds, DecideOn;
      refusal := ConsumeCaptureSession(p, token, Verification, m);
      if refusal.Some? {
        return;
      }
      var policy := ActivePolicy(state, p.env, m);
      var key := (p.project, subjectRef);
      if key in state.subjects && found.Some? {
        var subject, row := state.subjects[key], state.templates[found.value];
        if state.consents[row.consent].withdrawn {
          o := Outcome(Rejected, ConsentWithdrawn);
        } else {
          o := Assess(p, subject, row, m, policy, a, c);
        }
      }
      Record(p, subjectRef, token, o, newSubject);
    }

    method RevokeUnder(consent: Id)
      modifies this`state
      ensures OtherStep(old(state), RevokeByConsent(consent)) == Some(state)
    {
      state := state.(templates := map t | t in state.templates ::
        if state.templates[t].consent == consent then state.templates[t].(active := false) else state.templates[t]);
    }

    /** Two statements: the receipt first, then the templates enrolled under it. A second
        call changes nothing. */
    method Withdraw(p: Principal, consent: Id) returns (refusal: Option<Refusal>)
      modifies this`state
      ensures refusal.None? <==> old(consent in state.consents && state.consents[consent].org == p.org)
      ensures refusal.Some? ==> state == old(state)
      ensures refusal.None? ==> consent in state.consents && state.consents[consent].withdrawn
      ensures refusal.None? && !old(state).consents[consent].withdrawn ==>
        var u := OtherStep(old(state), Action.WithdrawConsent(consent));
        u.Some? && OtherStep(u.value, RevokeByConsent(consent)) == Some(state)
      ensures refusal.None? && old(state).consents[consent].withdrawn ==> state == old(state)
    {
      if consent !in state.consents || state.consents[consent].org != p.org {
        return Some(NotFound);
      }
      if state.consents[consent].withdrawn {
        return None;
      }
      state := state.(consents := state.consents[consent := state.consents[consent].(withdrawn := true)]);
      RevokeUnder(consent);
      return None;
    }

    method RevokeTemplates(subject: Id) returns (ids: set<Id>)
      modifies this`state
      ensures ids == ActiveOf(old(state), subject)
      ensures state == old(state).(templates := state.templates) && state.templates.Keys == old(state).templates.Keys
      ensures forall k :: k in state.templates ==> state.templates[k] == Deleted(old(state).templates[k], subject)
    {
      ids := ActiveOf(state, subject);
      state := state.(templates := map t | t in state.templates ::
        if t in ids then state.templates[t].(active := false, ciphertext := "deleted") else state.templates[t]);
    }

    method WithdrawConsents(subject: Id) returns (ids: set<Id>)
      modifies this`state
      ensures ids == StandingOf(old(state), subject)
      ensures state == old(state).(consents := state.consents) && state.consents.Keys == old(state).consents.Keys
      ensures forall c :: c in state.consents ==> state.consents[c] == TakenBack(old(state).consents[c], subject)
    {
      ids := StandingOf(state, subject);
      state := state.(consents := map c | c in state.consents ::
        if c in ids then state.consents[c].(withdrawn := true) else state.consents[c]);
    }

    /** deleteSubjectData: parked under a legal hold, otherwise the templates are revoked, the
        consents withdrawn and the evidence deleted, and all three counted. org is the
        organisation's identifier as evidence rows carry it; a row of the subject under
        another one is counted and stays. */
    method DeleteSubject(p: Principal, org: string, subjectRef: string, evidence: E.Service)
      returns (refusal: Option<Refusal>, d: Deletion)
      requires evidence.Valid()
      modifies this`state, evidence
      ensures evidence.Valid()
      ensures refusal.None? <==> (p.project, subjectRef) in old(state.subjects)
      ensures refusal.Some? || d.Blocked? ==> state == old(state) && evidence.s == old(evidence.s)
      ensures refusal.None? ==>
        var subject := old(state.subjects)[(p.project, subjectRef)];
        && (d.Blocked? <==> (p.org, subject) in holds)
        && (d.Completed? ==>
          && Erased(old(state), state, subject)
          && d.templatesRevoked ==
            |set k | k in old(state).templates && old(state).templates[k].subject == subject && old(state).templates[k].active|
          && d.consentsWithdrawn ==
            |set c | c in old(state).consents && old(state).consents[c].subject == subject && !old(state).consents[c].withdrawn|
          && d.evidenceDeleted ==
            |set e | e in old(evidence.s).rows && old(evidence.s).rows[e].subject == Some(subject) && !old(evidence.s).rows[e].deleted|
          && evidence.s.rows.Keys == old(evidence.s).rows.Keys
          && (forall e :: e in evidence.s.rows ==>
            (if old(evidence.s).rows[e].subject == Some(subject) && old(evidence.s).rows[e].org == org
             then evidence.s.rows[e] == old(evidence.s).rows[e].(deleted := true) else evidence.s.rows[e] == old(evidence.s).rows[e]))
          && evidence.s == old(evidence.s).(rows := evidence.s.rows, objects := evidence.s.objects))
    {
      d := Blocked;
      if (p.project, subjectRef) !in state.subjects {
        return Some(NotFound), d;
      }
      var subject := state.subjects[(p.project, subjectRef)];
      if (p.org, subject) in holds {
        return None, Blocked;
      }
      var revoked := RevokeTemplates(subject);
      var withdrawn := WithdrawConsents(subject);
      assert revoked == set k | k in old(state).templates && old(state).templates[k].subject == subject && old(state).templates[k].active;
      assert withdrawn == set c | c in old(state).consents && old(state).consents[c].subject == subject && !old(state).consents[c].withdrawn;
      var deleted := evidence.DeleteForSubject(org, subject);
      return None, Completed(|revoked|, |withdrawn|, deleted);
    }
  }

  /** The rows the two UPDATEs of a deletion return. */
  function ActiveOf(s: State, subject: Id): set<Id> {
    set t | t in s.templates && s.templates[t].subject == subject && s.templates[t].active
  }

  function StandingOf(s: State, subject: Id): set<Id> {
    set c | c in s.consents && s.consents[c].subject == subject && !s.consents[c].withdrawn
  }

  function TakenBack(c: Consent, subject: Id): Consent { if c.subject == subject then c.(withdrawn := true) else c }

  /** What a deletion leaves: the subject's rows switched off, everybody else's untouched. */
  ghost predicate Erased(s: State, t: State, subject: Id) {
    && t == s.(templates := t.templates, consents := t.consents)
    && t.templates.Keys == s.templates.Keys && t.consents.Keys == s.consents.Keys
    && (forall k :: k in s.templates ==>
      (if s.templates[k].subject == subject && s.templates[k].active
       then t.templates[k] == s.templates[k].(active := false, ciphertext := "deleted") else t.templates[k] == s.templates[k]))
    && (forall c :: c in s.consents ==>
      (if s.consents[c].subject == subject then t.consents[c] == s.consents[c].(withdrawn := true) else t.consents[c] == s.consents[c]))
  }

  /** After a deletion no lookup finds a template of the subject, and every other subject's
      lookups come out as before. */
  lemma ErasedIsFinal(s: State, t: State, subject: Id, other: Id, project: Id, m: Modality, k: Id)
    requires Erased(s, t, subject)
    ensures IsLookup(t, None, subject, project, m)
    ensures other != subject ==> (Usable(t, k, other, project, m) <==> Usable(s, k, other, project, m))
    ensures ActiveOf(t, subject) == {} && StandingOf(t, subject) == {}
  {
    forall k | k in t.templates ensures !Usable(t, k, subject, project, m) {
      assert k in s.templates;
    }
  }

  /** A deletion overwrites the ciphertext of exactly the templates that were still active:
      one revoked before, say by a withdrawal, keeps its own. */
  lemma CiphertextOverwrittenIff(s: State, t: State, subject: Id, k: Id)
    requires Erased(s, t, subject) && k in s.templates && s.templates[k].subject == subject
    ensures k in t.templates
    ensures t.templates[k].ciphertext == (if s.templates[k].active then "deleted" else s.templates[k].ciphertext)
  {
  }

  /** A deletion is two of the interleaved machine's statements, one after the other. */
  lemma DeletionIsTwoStatements(s: State, t: State, subject: Id)
    requires Erased(s, t, subject)
    ensures var u := OtherStep(s, RevokeBySubject(subject));
      u.Some? && OtherStep(u.value, WithdrawBySubject(subject)) == Some(t)
  {
    var u := OtherStep(s, RevokeBySubject(subject)).value;
    assert u.templates == t.templates;
    var v := OtherStep(u, WithdrawBySubject(subject)).value;
    assert v.consents == t.consents;
  }
}
