/** What the one-time-password service grants over a whole run: when an issue goes through and
    when the right guess is confirmed, in terms of the events before it alone. */
module StepUpProgress {
  import opened StepUp

  // ---------------------------------------------------------------- events of a run

  /** A challenge is issued. */
  predicate Issued(p: Policy, s: State, e: Event) { e.DoIssue? && Apply(p, s, e).1 == Reply(Pending, OtpIssued) }

  predicate IssuedFor(p: Policy, s: State, e: Event, who: Subject) { Issued(p, s, e) && e.who == who }

  /** A subject is shut out. */
  predicate ShutsOut(p: Policy, s: State, e: Event, who: Subject) {
    && e.DoVerify? && e.id in s.challenges && s.challenges[e.id].subject == who
    && Apply(p, s, e).1.reason == AttemptsExhausted
  }

  /** A guess for a challenge is confirmed. */
  predicate Confirms(p: Policy, s: State, e: Event, id: Id) { e.DoVerify? && e.id == id && Apply(p, s, e).1.status == Satisfied }

  // ---------------------------------------------------------------- any events make a run

  ghost predicate IssuedBy(events: seq<Event>, n: nat, x: Id) {
    exists i :: 0 <= i < n && i < |events| && events[i].DoIssue? && events[i].id == x
  }

  lemma OnlyIssued(p: Policy, s: State, e: Event, x: Id)
    ensures x in Apply(p, s, e).0.challenges ==> x in s.challenges || (e.DoIssue? && e.id == x)
  {
  }

  /** Nothing holds the service up: any issues and guesses in any order, with a clock that does
      not go back and a new identifier for each challenge, are a run. */
  lemma EventsRun(p: Policy, events: seq<Event>) returns (states: seq<State>)
    requires forall i, j :: 0 <= i < j < |events| ==> events[i].at <= events[j].at
    requires forall i, j :: 0 <= i < j < |events| && events[i].DoIssue? && events[j].DoIssue? ==> events[i].id != events[j].id
    ensures IsRun(p, states, events)
  {
    states := RunOf(p, events, |events|);
    assert events[..|events|] == events;
  }

  lemma {:induction false} RunOf(p: Policy, events: seq<Event>, n: nat) returns (states: seq<State>)
    requires forall i, j :: 0 <= i < j < |events| ==> events[i].at <= events[j].at
    requires forall i, j :: 0 <= i < j < |events| && events[i].DoIssue? && events[j].DoIssue? ==> events[i].id != events[j].id
    requires n <= |events|
    ensures IsRun(p, states, events[..n])
    ensures forall x :: x in states[n].challenges ==> IssuedBy(events, n, x)
  {
    if n == 0 {
      states := [State(map[], map[], map[])];
    } else {
      var before := RunOf(p, events, n - 1);
      var e, s := events[n - 1], before[n - 1];
      var t := Apply(p, s, e).0;
      states := before + [t];
      assert e.DoIssue? ==> !IssuedBy(events, n - 1, e.id);
      forall x | x in t.challenges ensures IssuedBy(events, n, x) {
        OnlyIssued(p, s, e, x);
        if x in s.challenges {
          assert IssuedBy(events, n - 1, x);
        }
      }
      OneEventMore(p, before, events, n, t);
    }
  }

  lemma OneEventMore(p: Policy, before: seq<State>, events: seq<Event>, n: nat, t: State)
    requires 0 < n <= |events| && IsRun(p, before, events[..n - 1])
    requires forall i, j :: 0 <= i < j < |events| ==> events[i].at <= events[j].at
    requires t == Apply(p, before[n - 1], events[n - 1]).0
    requires events[n - 1].DoIssue? ==> events[n - 1].id !in before[n - 1].challenges
    ensures IsRun(p, before + [t], events[..n])
  {
    var states, es, front := before + [t], events[..n], events[..n - 1];
    hide Apply;
    forall i | 0 <= i < n
      ensures Apply(p, states[i], es[i]).0 == states[i + 1] && (es[i].DoIssue? ==> es[i].id !in states[i].challenges)
    {
      if i < n - 1 {
        assert es[i] == front[i] && states[i] == before[i] && states[i + 1] == before[i + 1];
      }
    }
  }

  // ---------------------------------------------------------------- what the dictionaries remember

  lemma StepTimes(p: Policy, s: State, e: Event, who: Subject)
    ensures var t := Apply(p, s, e).0;
      && (if IssuedFor(p, s, e, who) then who in t.lastIssue && t.lastIssue[who] == e.at
          else (who in t.lastIssue <==> who in s.lastIssue) && Get(t.lastIssue, who) == Get(s.lastIssue, who))
      && (if ShutsOut(p, s, e, who) then who in t.lockoutUntil && t.lockoutUntil[who] == e.at + p.lockout
          else (who in t.lockoutUntil <==> who in s.lockoutUntil) && Get(t.lockoutUntil, who) == Get(s.lockoutUntil, who))
  {
  }

  /** The last issue of a subject is its latest such event. */
  ghost predicate IssueRemembered(p: Policy, states: seq<State>, events: seq<Event>, who: Subject, n: nat)
    requires n <= |events| && |states| == |events| + 1
  {
    && (forall i :: 0 <= i < n && IssuedFor(p, states[i], events[i], who) ==>
          who in states[n].lastIssue && states[n].lastIssue[who] >= events[i].at)
    && (who in states[n].lastIssue ==>
          exists i :: 0 <= i < n && IssuedFor(p, states[i], events[i], who) && events[i].at == states[n].lastIssue[who])
  }

  /** So is its last lockout. */
  ghost predicate LockoutRemembered(p: Policy, states: seq<State>, events: seq<Event>, who: Subject, n: nat)
    requires n <= |events| && |states| == |events| + 1
  {
    && (forall i :: 0 <= i < n && ShutsOut(p, states[i], events[i], who) ==>
          who in states[n].lockoutUntil && states[n].lockoutUntil[who] >= events[i].at + p.lockout)
    && (who in states[n].lockoutUntil ==>
          exists i :: 0 <= i < n && ShutsOut(p, states[i], events[i], who) && events[i].at + p.lockout == states[n].lockoutUntil[who])
  }

  /** What a run says of its last event. */
  lemma LastEvent(p: Policy, states: seq<State>, events: seq<Event>, n: nat)
    requires IsRun(p, states, events) && 0 < n <= |events|
    ensures |states| == |events| + 1 && states[n] == Apply(p, states[n - 1], events[n - 1]).0
    ensures forall i :: 0 <= i < n ==> events[i].at <= events[n - 1].at
  {
  }

  lemma LaterEvent(p: Policy, states: seq<State>, events: seq<Event>, k: nat, n: nat)
    requires IsRun(p, states, events) && k < n < |events|
    ensures |states| == |events| + 1 && states[k + 1] == Apply(p, states[k], events[k]).0 && events[k].at <= events[n].at
  {
  }

  lemma {:induction false} RunIssues(p: Policy, states: seq<State>, events: seq<Event>, who: Subject, n: nat)
    requires IsRun(p, states, events) && n <= |events|
    ensures IssueRemembered(p, states, events, who, n)
  {
    if n > 0 {
      RunIssues(p, states, events, who, n - 1);
      LastEvent(p, states, events, n);
      StepTimes(p, states[n - 1], events[n - 1], who);
      hide IsRun, Apply, IssuedFor, ShutsOut;
      if IssuedFor(p, states[n - 1], events[n - 1], who) {
        assert events[n - 1].at == states[n].lastIssue[who];
      }
    }
  }

  lemma {:induction false} RunLockouts(p: Policy, states: seq<State>, events: seq<Event>, who: Subject, n: nat)
    requires IsRun(p, states, events) && n <= |events|
    ensures LockoutRemembered(p, states, events, who, n)
  {
    if n > 0 {
      RunLockouts(p, states, events, who, n - 1);
      LastEvent(p, states, events, n);
      StepTimes(p, states[n - 1], events[n - 1], who);
      hide IsRun, Apply, IssuedFor, ShutsOut;
      if ShutsOut(p, states[n - 1], events[n - 1], who) {
        assert events[n - 1].at + p.lockout == states[n].lockoutUntil[who];
      }
    }
  }

  /** No earlier event of the run shuts the subject out at this moment. */
  ghost predicate Free(p: Policy, states: seq<State>, events: seq<Event>, who: Subject, n: nat, now: real)
    requires n <= |events| && |states| == |events| + 1
  {
    && (forall i :: 0 <= i < n && ShutsOut(p, states[i], events[i], who) ==> now >= events[i].at + p.lockout)
    && (now >= 0.0 || exists i :: 0 <= i < n && ShutsOut(p, states[i], events[i], who))
  }

  lemma FreeIff(p: Policy, states: seq<State>, events: seq<Event>, who: Subject, n: nat, now: real)
    requires IsRun(p, states, events) && n <= |events|
    ensures Free(p, states, events, who, n, now) <==> now >= Get(states[n].lockoutUntil, who)
  {
    RunLockouts(p, states, events, who, n);
    hide IsRun, ShutsOut;
  }

  /** In every run an issue goes through exactly when no earlier exhausted challenge of the
      subject is less than a lockout old and no earlier issue to it less than a cooldown; the
      clock's zero counts as an issue to everybody. */
  lemma IssuedIff(p: Policy, states: seq<State>, events: seq<Event>, n: nat)
    requires IsRun(p, states, events) && n < |events| && events[n].DoIssue?
    ensures Issued(p, states[n], events[n]) <==>
      && Free(p, states, events, events[n].who, n, events[n].at)
      && (forall i :: 0 <= i < n && IssuedFor(p, states[i], events[i], events[n].who) ==> events[n].at - events[i].at >= p.cooldown)
      && (events[n].at >= p.cooldown || exists i :: 0 <= i < n && IssuedFor(p, states[i], events[i], events[n].who))
  {
    RunIssues(p, states, events, events[n].who, n);
    FreeIff(p, states, events, events[n].who, n, events[n].at);
    hide IsRun, ShutsOut, IssuedFor, Free;
  }

  // ---------------------------------------------------------------- a challenge's life

  predicate UsesUp(p: Policy, s: State, e: Event, id: Id) {
    && e.DoVerify? && e.id == id && id in s.challenges && !s.challenges[id].consumed
    && Apply(p, s, e).1.reason in {OtpConfirmed, ChallengeExpired, AttemptsExhausted}
  }

  lemma StepConsumes(p: Policy, s: State, e: Event, id: Id)
    requires id in s.challenges && (e.DoIssue? ==> e.id != id)
    ensures var t := Apply(p, s, e).0;
      id in t.challenges && (t.challenges[id].consumed <==> s.challenges[id].consumed || UsesUp(p, s, e, id))
  {
  }

  /** What made a challenge unusable. */
  lemma {:induction false} WhyConsumed(p: Policy, states: seq<State>, events: seq<Event>, i: nat, n: nat) returns (k: nat)
    requires IsRun(p, states, events) && i < n <= |events| && Issued(p, states[i], events[i])
    requires events[i].id in states[n].challenges && states[n].challenges[events[i].id].consumed
    ensures i < k < n && UsesUp(p, states[k], events[k], events[i].id)
    decreases n
  {
    var id := events[i].id;
    LastEvent(p, states, events, i + 1);
    LastEvent(p, states, events, n);
    assert !states[i + 1].challenges[id].consumed;
    hide *;
    IssuedThere(p, states, events, i, n - 1);
    StepConsumes(p, states[n - 1], events[n - 1], id);
    if states[n - 1].challenges[id].consumed {
      k := WhyConsumed(p, states, events, i, n - 1);
    } else {
      k := n - 1;
    }
  }

  /** An issued challenge stays what it was issued as. */
  lemma IssuedThere(p: Policy, states: seq<State>, events: seq<Event>, i: nat, n: nat)
    requires IsRun(p, states, events) && i < n <= |events| && Issued(p, states[i], events[i])
    ensures events[i].id in states[n].challenges
    ensures states[n].challenges[events[i].id].subject == events[i].who && states[n].challenges[events[i].id].issuedAt == events[i].at
    ensures n < |events| && events[n].DoIssue? ==> events[n].id != events[i].id
  {
    assert Apply(p, states[i], events[i]).0 == states[i + 1];
    ChallengeStays(p, states, events, events[i].id, i + 1, n);
  }

  /** A step uses a challenge up by confirming it, after its time, or with its last attempt. */
  lemma UsedUpBy(p: Policy, s: State, e: Event, id: Id)
    requires UsesUp(p, s, e, id)
    ensures var t := Apply(p, s, e).0;
      && id in t.challenges && t.challenges[id].consumed
      && (Confirms(p, s, e, id) || e.at - s.challenges[id].issuedAt > p.ttl || t.challenges[id].attempts >= p.maxAttempts)
  {
  }

  /** What is confirmed, expired or exhausted stays so. */
  lemma UsedUpStays(p: Policy, states: seq<State>, events: seq<Event>, i: nat, k: nat, n: nat)
    requires IsRun(p, states, events) && i < k < n < |events| && Issued(p, states[i], events[i])
    requires UsesUp(p, states[k], events[k], events[i].id)
    ensures events[i].id in states[n].challenges && states[n].challenges[events[i].id].consumed
  {
    hide *;
    LastEvent(p, states, events, k + 1);
    UsedUpBy(p, states[k], events[k], events[i].id);
    ChallengeStays(p, states, events, events[i].id, k + 1, n);
  }

  /** With its last guess compared, a challenge has had its guesses. */
  lemma SpentMeans(p: Policy, states: seq<State>, events: seq<Event>, id: Id, k: nat, n: nat)
    requires IsRun(p, states, events) && k < n < |events|
    requires id in states[k + 1].challenges && states[k + 1].challenges[id].attempts >= p.maxAttempts
    ensures TryCount(p, states, events, id, n) >= p.maxAttempts
  {
    AttemptsAreTries(p, states, events, id, k + 1);
    hide *;
    TriesGrow(p, states, events, id, k + 1, n);
  }

  /** What made a challenge unusable, where it was not confirmed: its time or its guesses. */
  lemma UsedUpMeans(p: Policy, states: seq<State>, events: seq<Event>, i: nat, k: nat, n: nat)
    requires IsRun(p, states, events) && i < k < n < |events| && Issued(p, states[i], events[i])
    requires UsesUp(p, states[k], events[k], events[i].id) && !Confirms(p, states[k], events[k], events[i].id)
    requires TryCount(p, states, events, events[i].id, n) < p.maxAttempts
    ensures events[n].at - events[i].at > p.ttl
  {
    var id := events[i].id;
    hide *;
    LaterEvent(p, states, events, k, n);
    UsedUpBy(p, states[k], events[k], id);
    IssuedThere(p, states, events, i, k);
    if states[k + 1].challenges[id].attempts >= p.maxAttempts {
      SpentMeans(p, states, events, id, k, n);
    }
  }

  lemma {:induction false} TriesGrow(p: Policy, states: seq<State>, events: seq<Event>, id: Id, m: nat, n: nat)
    requires m <= n <= |events| <= |states|
    ensures TryCount(p, states, events, id, m) <= TryCount(p, states, events, id, n)
    decreases n
  {
    if m < n {
      TriesGrow(p, states, events, id, m, n - 1);
    }
  }

  /** In every run a guess for an issued challenge is confirmed exactly when it is right, comes
      no later than the time to live after the issue, fewer than the allowed guesses for the
      challenge were compared before, none was confirmed, and the subject is not shut out. */
  lemma ConfirmedIff(p: Policy, states: seq<State>, events: seq<Event>, i: nat, n: nat)
    requires IsRun(p, states, events) && i < n < |events| && Issued(p, states[i], events[i])
    requires events[n].DoVerify? && events[n].id == events[i].id
    ensures Confirms(p, states[n], events[n], events[i].id) <==>
      && events[n].right && events[n].at - events[i].at <= p.ttl
      && TryCount(p, states, events, events[i].id, n) < p.maxAttempts
      && (forall k :: i < k < n ==> !Confirms(p, states[k], events[k], events[i].id))
      && Free(p, states, events, events[i].who, n, events[n].at)
  {
    var id := events[i].id;
    IssuedThere(p, states, events, i, n);
    AttemptsAreTries(p, states, events, id, n);
    FreeIff(p, states, events, events[i].who, n, events[n].at);
    SatisfiedIff(p, states[n], id, events[n].right, events[n].at);
    if states[n].challenges[id].consumed {
      var k := WhyConsumed(p, states, events, i, n);
      if !Confirms(p, states[k], events[k], id) && TryCount(p, states, events, id, n) < p.maxAttempts {
        UsedUpMeans(p, states, events, i, k, n);
      }
    }
    forall k | i < k < n && Confirms(p, states[k], events[k], id) ensures states[n].challenges[id].consumed {
      IssuedThere(p, states, events, i, k);
      SatisfiedIff(p, states[k], id, events[k].right, events[k].at);
      UsedUpStays(p, states, events, i, k, n);
    }
    hide Free, TryCount, IsRun;
  }
}
