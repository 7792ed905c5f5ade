/** What becomes of a template's ciphertext over a whole run: a deletion destroys the
    ciphertexts of the subject's active templates, and no other statement touches one. */
module WorkflowErasure {
  import opened Basics
  import opened Workflow

  predicate EnrolsAt(acts: seq<Action>, e: nat, k: Id) {
    e < |acts| && acts[e].EnrolTemplate? && acts[e].template == k
  }

  /** Templates enrolled under the consent are revoked within acts[lo..hi]. */
  ghost predicate RevokedIn(acts: seq<Action>, lo: nat, hi: nat, consent: Id) {
    exists j :: lo <= j < hi && j < |acts| && acts[j] == RevokeByConsent(consent)
  }

  ghost predicate DeletedIn(acts: seq<Action>, lo: nat, hi: nat, subject: Id) {
    exists j :: lo <= j < hi && j < |acts| && acts[j] == RevokeBySubject(subject)
  }

  /** The subject is deleted within acts[lo..hi] before the consent's templates are revoked. */
  ghost predicate DeletedFirst(acts: seq<Action>, lo: nat, hi: nat, consent: Id, subject: Id) {
    exists j :: lo <= j < hi && j < |acts| && acts[j] == RevokeBySubject(subject) && !RevokedIn(acts, lo, j, consent)
  }

  /** The row a template was enrolled as. */
  function RowAt(trace: seq<State>, i: nat, k: Id): Template
    requires i < |trace| && k in trace[i].templates
  {
    trace[i].templates[k]
  }

  /** One step more in the life of a row. */
  ghost predicate RowStep(act: Action, row: Template, later: Template) {
    && later.subject == row.subject && later.consent == row.consent
    && later.active == (row.active && act != RevokeByConsent(row.consent) && act != RevokeBySubject(row.subject))
    && later.ciphertext == if row.active && act == RevokeBySubject(row.subject) then "deleted" else row.ciphertext
  }

  /** What a statement does to the table of templates. */
  ghost predicate TableStep(act: Action, m: map<Id, Template>, n: map<Id, Template>, k: Id) {
    && (k in m ==> k in n && RowStep(act, m[k], n[k]))
    && (k in n && k !in m ==> act.EnrolTemplate? && act.template == k)
    && (act.EnrolTemplate? && act.template == k ==> k !in m && k in n && n[k].active && n[k].ciphertext == act.ciphertext)
  }

  lemma OtherTemplates(s: State, act: Action, t: State, k: Id)
    requires OtherStep(s, act) == Some(t)
    ensures TableStep(act, s.templates, t.templates, k)
  {
  }

  lemma SameTemplates(act: Action, m: map<Id, Template>, k: Id)
    requires IsVerifyAction(act) || IsStartAction(act)
    ensures TableStep(act, m, m, k)
  {
  }

  lemma TemplatesStep(s: State, act: Action, t: State, k: Id)
    requires Step(s, act) == Some(t)
    ensures TableStep(act, s.templates, t.templates, k)
  {
    hide TableStep, OtherStep, Advance, SubjectsAfter, RequestsAfter, EnrolsAfter, Spendable;
    if IsVerifyAction(act) || IsStartAction(act) {
      assert t.templates == s.templates;
      SameTemplates(act, s.templates, k);
    } else {
      OtherTemplates(s, act, OtherStep(s, act).value, k);
    }
  }

  /** The row's fields are what the statements since its enrolment make of them. */
  ghost predicate LifeOk(acts: seq<Action>, lo: nat, i: nat, first: Template, row: Template) {
    && row.subject == first.subject && row.consent == first.consent
    && (row.active <==> !RevokedIn(acts, lo, i, first.consent) && !DeletedIn(acts, lo, i, first.subject))
    && row.ciphertext == if DeletedFirst(acts, lo, i, first.consent, first.subject) then "deleted" else first.ciphertext
  }

  lemma RevokedNext(acts: seq<Action>, lo: nat, i: nat, consent: Id)
    requires lo <= i < |acts|
    ensures RevokedIn(acts, lo, i + 1, consent) <==> RevokedIn(acts, lo, i, consent) || acts[i] == RevokeByConsent(consent)
  {
  }

  lemma DeletedNext(acts: seq<Action>, lo: nat, i: nat, consent: Id, subject: Id)
    requires lo <= i < |acts|
    ensures DeletedIn(acts, lo, i + 1, subject) <==> DeletedIn(acts, lo, i, subject) || acts[i] == RevokeBySubject(subject)
    ensures DeletedFirst(acts, lo, i + 1, consent, subject) <==>
      DeletedFirst(acts, lo, i, consent, subject) || (acts[i] == RevokeBySubject(subject) && !RevokedIn(acts, lo, i, consent))
  {
    hide RevokedIn;
  }

  /** A deletion before any revocation came first. */
  lemma UnrevokedDeletedFirst(acts: seq<Action>, lo: nat, i: nat, consent: Id, subject: Id)
    requires !RevokedIn(acts, lo, i, consent) && DeletedIn(acts, lo, i, subject)
    ensures DeletedFirst(acts, lo, i, consent, subject)
  {
    var j :| lo <= j < i && j < |acts| && acts[j] == RevokeBySubject(subject);
    assert !RevokedIn(acts, lo, j, consent);
  }

  lemma LifeNext(acts: seq<Action>, lo: nat, i: nat, first: Template, row: Template, later: Template)
    requires lo <= i < |acts| && LifeOk(acts, lo, i, first, row) && RowStep(acts[i], row, later)
    ensures LifeOk(acts, lo, i + 1, first, later)
  {
    RevokedNext(acts, lo, i, first.consent);
    DeletedNext(acts, lo, i, first.consent, first.subject);
    hide RevokedIn, DeletedIn, DeletedFirst;
    if !RevokedIn(acts, lo, i, first.consent) && DeletedIn(acts, lo, i, first.subject) {
      UnrevokedDeletedFirst(acts, lo, i, first.consent, first.subject);
    }
  }

  /** In every run a template enrolled at step e is active exactly while neither its consent's
      templates nor its subject's were revoked since, and carries its own ciphertext unless a
      deletion of its subject came before any revocation by consent. */
  lemma {:induction false} TemplateLife(trace: seq<State>, acts: seq<Action>, now: int, e: nat, i: nat, k: Id)
    requires IsTrace(trace, acts, now) && EnrolsAt(acts, e, k) && e < i < |trace|
    ensures k in trace[e + 1].templates && k in trace[i].templates && trace[e + 1].templates[k].ciphertext == acts[e].ciphertext
    ensures LifeOk(acts, e + 1, i, RowAt(trace, e + 1, k), RowAt(trace, i, k))
    decreases i
  {
    hide Step;
    assert Step(trace[i - 1], acts[i - 1]) == Some(trace[i]);
    TemplatesStep(trace[i - 1], acts[i - 1], trace[i], k);
    if i > e + 1 {
      TemplateLife(trace, acts, now, e, i - 1, k);
      LifeNext(acts, e + 1, i - 1, RowAt(trace, e + 1, k), RowAt(trace, i - 1, k), RowAt(trace, i, k));
    }
  }

  /** Every template of a run was enrolled in it. */
  lemma {:induction false} Origin(trace: seq<State>, acts: seq<Action>, now: int, i: nat, k: Id) returns (e: nat)
    requires IsTrace(trace, acts, now) && i < |trace| && k in trace[i].templates
    ensures e < i && EnrolsAt(acts, e, k)
    decreases i
  {
    hide Step;
    assert i > 0;
    assert Step(trace[i - 1], acts[i - 1]) == Some(trace[i]);
    TemplatesStep(trace[i - 1], acts[i - 1], trace[i], k);
    if k in trace[i - 1].templates {
      e := Origin(trace, acts, now, i - 1, k);
    } else {
      e := i - 1;
    }
  }

  // ---------------------------------------------------------------- what a deletion leaves behind

  /** Step j revokes the template by its consent, with no deletion of its subject since step e. */
  ghost predicate RevokesAt(trace: seq<State>, acts: seq<Action>, e: nat, j: nat, k: Id, subject: Id) {
    && e < j < |acts| && j < |trace| && k in trace[j].templates && trace[j].templates[k].subject == subject
    && acts[j] == RevokeByConsent(trace[j].templates[k].consent) && !DeletedIn(acts, e + 1, j, subject)
  }

  /** A template of the subject that was revoked by its consent before step d, and before any
      deletion. */
  ghost predicate LeftBehind(trace: seq<State>, acts: seq<Action>, d: nat, k: Id, subject: Id) {
    exists e: nat, j: nat :: j < d && EnrolsAt(acts, e, k) && RevokesAt(trace, acts, e, j, k, subject)
  }

  /** No template is enrolled with the text that deletion writes. */
  ghost predicate Sealed(acts: seq<Action>) {
    forall e :: 0 <= e < |acts| && acts[e].EnrolTemplate? ==> acts[e].ciphertext != "deleted"
  }

  /** The first deletion among acts[lo..hi]. */
  lemma {:induction false} FirstDeletion(acts: seq<Action>, lo: nat, hi: nat, subject: Id) returns (d: nat)
    requires DeletedIn(acts, lo, hi, subject) && hi <= |acts|
    ensures lo <= d < hi && acts[d] == RevokeBySubject(subject) && !DeletedIn(acts, lo, d, subject)
    decreases hi
  {
    d :| lo <= d < hi && d < |acts| && acts[d] == RevokeBySubject(subject);
    if DeletedIn(acts, lo, d, subject) {
      d := FirstDeletion(acts, lo, d, subject);
    }
  }

  lemma EnrolledOnce(trace: seq<State>, acts: seq<Action>, now: int, e: nat, f: nat, k: Id)
    requires IsTrace(trace, acts, now) && EnrolsAt(acts, e, k) && EnrolsAt(acts, f, k)
    ensures e == f
  {
    hide Step, LifeOk;
    assert Step(trace[e], acts[e]) == Some(trace[e + 1]) && Step(trace[f], acts[f]) == Some(trace[f + 1]);
    TemplatesStep(trace[e], acts[e], trace[e + 1], k);
    TemplatesStep(trace[f], acts[f], trace[f + 1], k);
    if e < f {
      TemplateLife(trace, acts, now, e, f, k);
    } else if f < e {
      TemplateLife(trace, acts, now, f, e, k);
    }
  }

  /** Templates are revoked by consent within acts[lo..hi] before the subject is deleted. */
  ghost predicate RevokedFirst(acts: seq<Action>, lo: nat, hi: nat, consent: Id, subject: Id) {
    exists j :: lo <= j < hi && j < |acts| && acts[j] == RevokeByConsent(consent) && !DeletedIn(acts, lo, j, subject)
  }

  /** Of a revocation by consent and a deletion one comes first. */
  lemma FirstOfTwo(acts: seq<Action>, lo: nat, d: nat, consent: Id, subject: Id)
    requires lo <= d < |acts| && acts[d] == RevokeBySubject(subject)
    ensures DeletedFirst(acts, lo, d + 1, consent, subject) <==> !RevokedFirst(acts, lo, d, consent, subject)
  {
    if RevokedFirst(acts, lo, d, consent, subject) {
      var j :| lo <= j < d && j < |acts| && acts[j] == RevokeByConsent(consent) && !DeletedIn(acts, lo, j, subject);
      forall f | lo <= f < d + 1 && f < |acts| && acts[f] == RevokeBySubject(subject) ensures RevokedIn(acts, lo, f, consent) {
        assert acts[j] != acts[f];
      }
    } else {
      assert DeletedIn(acts, lo, d + 1, subject);
      var f := FirstDeletion(acts, lo, d + 1, subject);
      if RevokedIn(acts, lo, f, consent) {
        var j :| lo <= j < f && j < |acts| && acts[j] == RevokeByConsent(consent);
        assert DeletedIn(acts, lo, j, subject) ==> DeletedIn(acts, lo, f, subject);
        assert false;
      }
    }
  }

  lemma LeftBehindIff(trace: seq<State>, acts: seq<Action>, now: int, e: nat, d: nat, k: Id, subject: Id)
    requires IsTrace(trace, acts, now) && EnrolsAt(acts, e, k) && e < d < |acts|
    requires k in trace[e + 1].templates && trace[e + 1].templates[k].subject == subject
    ensures LeftBehind(trace, acts, d, k, subject) <==> RevokedFirst(acts, e + 1, d, trace[e + 1].templates[k].consent, subject)
  {
    var consent := trace[e + 1].templates[k].consent;
    hide IsTrace, LifeOk, DeletedIn;
    if LeftBehind(trace, acts, d, k, subject) {
      var f: nat, j: nat :| j < d && EnrolsAt(acts, f, k) && RevokesAt(trace, acts, f, j, k, subject);
      EnrolledOnce(trace, acts, now, e, f, k);
      SameOwner(trace, acts, now, e, j, k);
    }
    if RevokedFirst(acts, e + 1, d, consent, subject) {
      var j: nat :| e + 1 <= j < d && j < |acts| && acts[j] == RevokeByConsent(consent) && !DeletedIn(acts, e + 1, j, subject);
      assert j < |trace| by { Lengths(trace, acts, now); }
      SameOwner(trace, acts, now, e, j, k);
      assert RevokesAt(trace, acts, e, j, k, subject);
    }
  }

  lemma Lengths(trace: seq<State>, acts: seq<Action>, now: int)
    requires IsTrace(trace, acts, now)
    ensures |trace| == |acts| + 1
  {
  }

  lemma SameOwner(trace: seq<State>, acts: seq<Action>, now: int, e: nat, i: nat, k: Id)
    requires IsTrace(trace, acts, now) && EnrolsAt(acts, e, k) && e < i < |trace|
    ensures k in trace[e + 1].templates && k in trace[i].templates
    ensures trace[i].templates[k].subject == trace[e + 1].templates[k].subject
    ensures trace[i].templates[k].consent == trace[e + 1].templates[k].consent
  {
    TemplateLife(trace, acts, now, e, i, k);
  }

  /** Deletion at step d overwrites a template of the subject exactly when it was not left
      behind. */
  lemma OverwrittenIff(trace: seq<State>, acts: seq<Action>, now: int, d: nat, k: Id, subject: Id)
    requires IsTrace(trace, acts, now) && d < |acts| && acts[d] == RevokeBySubject(subject)
    requires forall e :: 0 <= e < |acts| && acts[e].EnrolTemplate? ==> acts[e].ciphertext != "deleted"
    requires k in trace[d + 1].templates && trace[d + 1].templates[k].subject == subject
    ensures trace[d + 1].templates[k].ciphertext == "deleted" <==> !LeftBehind(trace, acts, d, k, subject)
  {
    var e := Origin(trace, acts, now, d + 1, k);
    TemplateLife(trace, acts, now, e, d + 1, k);
    FirstOfTwo(acts, e + 1, d, trace[e + 1].templates[k].consent, subject);
    LeftBehindIff(trace, acts, now, e, d, k, subject);
  }

  ghost predicate AllDestroyed(s: State, subject: Id) {
    forall k :: k in s.templates && s.templates[k].subject == subject ==> s.templates[k].ciphertext == "deleted"
  }

  ghost predicate NoneLeftBehind(trace: seq<State>, acts: seq<Action>, d: nat, subject: Id) {
    forall k :: !LeftBehind(trace, acts, d, k, subject)
  }

  /** A deletion destroys every ciphertext of its subject if and only if none of the subject's
      templates had been revoked by its consent before. */
  lemma DeletionDestroysIff(trace: seq<State>, acts: seq<Action>, now: int, d: nat, subject: Id)
    requires IsTrace(trace, acts, now) && d < |acts| && acts[d] == RevokeBySubject(subject)
    requires forall e :: 0 <= e < |acts| && acts[e].EnrolTemplate? ==> acts[e].ciphertext != "deleted"
    ensures AllDestroyed(trace[d + 1], subject) <==> NoneLeftBehind(trace, acts, d, subject)
  {
    Lengths(trace, acts, now);
    hide IsTrace, LeftBehind;
    var s := trace[d + 1];
    forall k | k in s.templates && s.templates[k].subject == subject
      ensures s.templates[k].ciphertext == "deleted" <==> !LeftBehind(trace, acts, d, k, subject)
    {
      OverwrittenIff(trace, acts, now, d, k, subject);
    }
    forall k | LeftBehind(trace, acts, d, k, subject) ensures k in s.templates && s.templates[k].subject == subject {
      LeftBehindOwned(trace, acts, now, d, k, subject);
    }
  }

  lemma LeftBehindOwned(trace: seq<State>, acts: seq<Action>, now: int, d: nat, k: Id, subject: Id)
    requires IsTrace(trace, acts, now) && d < |acts| && LeftBehind(trace, acts, d, k, subject)
    ensures k in trace[d + 1].templates && trace[d + 1].templates[k].subject == subject
  {
    hide IsTrace, DeletedIn;
    var e: nat, j: nat :| j < d && EnrolsAt(acts, e, k) && RevokesAt(trace, acts, e, j, k, subject);
    Lengths(trace, acts, now);
    SameOwner(trace, acts, now, e, j, k);
    SameOwner(trace, acts, now, e, d + 1, k);
  }
}
