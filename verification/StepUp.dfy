/** One-time-password step-up: issuing and verifying as a class over three dictionaries, and
    what that allows a guesser over a whole run. */
module StepUp {
  type Id = string
  type Subject = (string, string)
  type Digest = nat

  datatype Policy = Policy(ttl: real, maxAttempts: nat, cooldown: real, lockout: real)

  datatype Status = Satisfied | Pending | Denied

  datatype Reason =
    | OtpIssued | LockedOut | ResendTooSoon
    | ChallengeUnknown | ChallengeReplayed | ChallengeExpired | AttemptsExhausted | OtpConfirmed | OtpIncorrect

  datatype Reply = Reply(status: Status, reason: Reason)

  datatype Challenge = Challenge(
    subject: Subject, salt: nat, otpHash: Digest, issuedAt: real, attempts: nat, consumed: bool)

  datatype State = State(challenges: map<Id, Challenge>, lastIssue: map<Subject, real>, lockoutUntil: map<Subject, real>)

  function Get(m: map<Subject, real>, k: Subject): real { if k in m then m[k] else 0.0 }

  // ---------------------------------------------------------------- the two operations, as functions

  predicate Issues(p: Policy, s: State, who: Subject, now: real) {
    now >= Get(s.lockoutUntil, who) && now - Get(s.lastIssue, who) >= p.cooldown
  }

  function Issue(p: Policy, s: State, who: Subject, id: Id, salt: nat, otpHash: Digest, now: real): (State, Reply) {
    if now < Get(s.lockoutUntil, who) then (s, Reply(Denied, LockedOut))
    else if now - Get(s.lastIssue, who) < p.cooldown then (s, Reply(Denied, ResendTooSoon))
    else
      (State(s.challenges[id := Challenge(who, salt, otpHash, now, 0, false)], s.lastIssue[who := now], s.lockoutUntil),
       Reply(Pending, OtpIssued))
  }

  /** The guess is compared with the secret. */
  predicate Compares(p: Policy, s: State, id: Id, now: real) {
    && id in s.challenges && !s.challenges[id].consumed
    && now >= Get(s.lockoutUntil, s.challenges[id].subject)
    && now - s.challenges[id].issuedAt <= p.ttl && s.challenges[id].attempts < p.maxAttempts
  }

  function Consume(s: State, id: Id): State
    requires id in s.challenges
  {
    s.(challenges := s.challenges[id := s.challenges[id].(consumed := true)])
  }

  function Lock(p: Policy, s: State, who: Subject, now: real): State {
    s.(lockoutUntil := s.lockoutUntil[who := now + p.lockout])
  }

  /** right says whether the guess hashes to the stored digest. */
  function Verify(p: Policy, s: State, id: Id, right: bool, now: real): (State, Reply) {
    if id !in s.challenges then (s, Reply(Denied, ChallengeUnknown))
    else
      var c := s.challenges[id];
      if c.consumed then (s, Reply(Denied, ChallengeReplayed))
      else if now < Get(s.lockoutUntil, c.subject) then (s, Reply(Denied, LockedOut))
      else if now - c.issuedAt > p.ttl then (Consume(s, id), Reply(Denied, ChallengeExpired))
      else if c.attempts >= p.maxAttempts then
        (Lock(p, Consume(s, id), c.subject, now), Reply(Denied, AttemptsExhausted))
      else
        var t := s.(challenges := s.challenges[id := c.(attempts := c.attempts + 1)]);
        if right then (Consume(t, id), Reply(Satisfied, OtpConfirmed))
        else if c.attempts + 1 >= p.maxAttempts then
          (Lock(p, Consume(t, id), c.subject, now), Reply(Denied, AttemptsExhausted))
        else (t, Reply(Pending, OtpIncorrect))
  }

  /** A challenge is satisfied exactly by a right guess that was compared: known, unused,
      unexpired, within its attempts and outside a lockout. */
  lemma SatisfiedIff(p: Policy, s: State, id: Id, right: bool, now: real)
    ensures Verify(p, s, id, right, now).1.status == Satisfied <==> right && Compares(p, s, id, now)
    ensures Verify(p, s, id, right, now).1.status == Pending ==> !right && Compares(p, s, id, now)
  {
  }

  // ---------------------------------------------------------------- the service

  class Service {
    const policy: Policy
    const hash: (string, nat) -> Digest
    var challenges: map<Id, Challenge>
    var lastIssue: map<Subject, real>
    var lockoutUntil: map<Subject, real>

    function Current(): State
      reads this
    {
      State(challenges, lastIssue, lockoutUntil)
    }

    constructor (policy: Policy, hash: (string, nat) -> Digest)
      ensures Current() == State(map[], map[], map[]) && this.policy == policy && this.hash == hash
    {
      this.policy, this.hash := policy, hash;
      challenges, lastIssue, lockoutUntil := map[], map[], map[];
    }

    method IssueOtp(who: Subject, id: Id, otp: string, salt: nat, now: real) returns (reply: Reply)
      modifies this
      ensures (Current(), reply) == Issue(policy, old(Current()), who, id, salt, hash(otp, salt), now)
    {
      if now < Get(lockoutUntil, who) {
        return Reply(Denied, LockedOut);
      }
      if now - Get(lastIssue, who) < policy.cooldown {
        return Reply(Denied, ResendTooSoon);
      }
      challenges := challenges[id := Challenge(who, salt, hash(otp, salt), now, 0, false)];
      lastIssue := lastIssue[who := now];
      return Reply(Pending, OtpIssued);
    }

    method VerifyOtp(id: Id, otp: string, now: real) returns (reply: Reply)
      modifies this
      ensures var right := id in old(challenges) && hash(otp, old(challenges)[id].salt) == old(challenges)[id].otpHash;
        (Current(), reply) == Verify(policy, old(Current()), id, right, now)
    {
      if id !in challenges {
        return Reply(Denied, ChallengeUnknown);
      }
      var c := challenges[id];
      if c.consumed {
        return Reply(Denied, ChallengeReplayed);
      }
      if now < Get(lockoutUntil, c.subject) {
        return Reply(Denied, LockedOut);
      }
      if now - c.issuedAt > policy.ttl {
        challenges := challenges[id := c.(consumed := true)];
        return Reply(Denied, ChallengeExpired);
      }
      if c.attempts >= policy.maxAttempts {
        challenges := challenges[id := c.(consumed := true)];
        lockoutUntil := lockoutUntil[c.subject := now + policy.lockout];
        return Reply(Denied, AttemptsExhausted);
      }
      c := c.(attempts := c.attempts + 1);
      challenges := challenges[id := c];
      if hash(otp, c.salt) == c.otpHash {
        challenges := challenges[id := c.(consumed := true)];
        return Reply(Satisfied, OtpConfirmed);
      }
      if c.attempts >= policy.maxAttempts {
        challenges := challenges[id := c.(consumed := true)];
        lockoutUntil := lockoutUntil[c.subject := now + policy.lockout];
        return Reply(Denied, AttemptsExhausted);
      }
      return Reply(Pending, OtpIncorrect);
    }
  }

  // ---------------------------------------------------------------- runs

  datatype Event =
    | DoIssue(who: Subject, id: Id, salt: nat, otpHash: Digest, at: real)
    | DoVerify(id: Id, right: bool, at: real)

  function Apply(p: Policy, s: State, e: Event): (State, Reply) {
    match e
    case DoIssue(who, id, salt, otpHash, at) => Issue(p, s, who, id, salt, otpHash, at)
    case DoVerify(id, right, at) => Verify(p, s, id, right, at)
  }

  /** Identifiers are fresh and the clock never goes back. */
  ghost predicate IsRun(p: Policy, states: seq<State>, events: seq<Event>) {
    && |states| == |events| + 1 && states[0] == State(map[], map[], map[])
    && (forall i :: 0 <= i < |events| ==> Apply(p, states[i], events[i]).0 == states[i + 1])
    && (forall i :: 0 <= i < |events| && events[i].DoIssue? ==> events[i].id !in states[i].challenges)
    && (forall i, j :: 0 <= i <= j < |events| ==> events[i].at <= events[j].at)
  }

  /** The i-th event compares a guess for this challenge. */
  predicate Tries(p: Policy, s: State, e: Event, id: Id) { e.DoVerify? && e.id == id && Compares(p, s, id, e.at) }

  predicate TriesSome(p: Policy, s: State, e: Event, ids: set<Id>) { e.DoVerify? && e.id in ids && Compares(p, s, e.id, e.at) }

  /** The i-th event compares a guess for this subject between two moments. */
  predicate TriesFor(p: Policy, s: State, e: Event, who: Subject, from: real, until: real) {
    e.DoVerify? && Compares(p, s, e.id, e.at) && s.challenges[e.id].subject == who && from <= e.at <= until
  }

  function TryCount(p: Policy, states: seq<State>, events: seq<Event>, id: Id, n: nat): nat
    requires n <= |events| <= |states|
  {
    if n == 0 then 0 else TryCount(p, states, events, id, n - 1) + (if Tries(p, states[n - 1], events[n - 1], id) then 1 else 0)
  }

  function TryCountIn(p: Policy, states: seq<State>, events: seq<Event>, ids: set<Id>, n: nat): nat
    requires n <= |events| <= |states|
  {
    if n == 0 then 0 else TryCountIn(p, states, events, ids, n - 1) + (if TriesSome(p, states[n - 1], events[n - 1], ids) then 1 else 0)
  }

  /** How many guesses were compared for a subject in a window of a run. */
  function Guesses(p: Policy, states: seq<State>, events: seq<Event>, who: Subject, from: real, until: real, n: nat): nat
    requires n <= |events| <= |states|
  {
    if n == 0 then 0
    else
      Guesses(p, states, events, who, from, until, n - 1)
      + (if TriesFor(p, states[n - 1], events[n - 1], who, from, until) then 1 else 0)
  }

  // ---------------------------------------------------------------- what every state of a run satisfies

  predicate Apart(p: Policy, a: Challenge, b: Challenge) {
    a.subject == b.subject ==> a.issuedAt - b.issuedAt >= p.cooldown || b.issuedAt - a.issuedAt >= p.cooldown
  }

  /** Two challenges of a subject are at least a cooldown apart, and the last issue is the
      latest of them. */
  ghost predicate Spaced(p: Policy, s: State) {
    && (forall x, y :: x in s.challenges && y in s.challenges && x != y ==> Apart(p, s.challenges[x], s.challenges[y]))
    && (forall x :: x in s.challenges ==>
      s.challenges[x].subject in s.lastIssue && s.challenges[x].issuedAt <= s.lastIssue[s.challenges[x].subject])
  }

  /** Used-up attempts mean a used-up challenge. */
  ghost predicate Bounded(p: Policy, s: State) {
    forall x :: x in s.challenges ==>
      s.challenges[x].attempts <= p.maxAttempts && (s.challenges[x].attempts == p.maxAttempts ==> s.challenges[x].consumed)
  }

  lemma IssueSpaced(p: Policy, s: State, who: Subject, id: Id, salt: nat, otpHash: Digest, now: real)
    requires p.cooldown > 0.0 && Spaced(p, s) && id !in s.challenges && Issues(p, s, who, now)
    ensures Spaced(p, Issue(p, s, who, id, salt, otpHash, now).0)
  {
    var t := Issue(p, s, who, id, salt, otpHash, now).0;
    forall x, y | x in t.challenges && y in t.challenges && x != y ensures Apart(p, t.challenges[x], t.challenges[y]) {
      if x != id && y != id {
        assert Apart(p, s.challenges[x], s.challenges[y]);
      }
    }
  }

  /** Verifying changes no challenge's subject or time of issue. */
  lemma SameIssuesSpaced(p: Policy, s: State, t: State)
    requires Spaced(p, s) && t.lastIssue == s.lastIssue && t.challenges.Keys == s.challenges.Keys
    requires forall x :: x in s.challenges ==> SameIssue(s.challenges[x], t.challenges[x])
    ensures Spaced(p, t)
  {
    forall x, y | x in t.challenges && y in t.challenges && x != y ensures Apart(p, t.challenges[x], t.challenges[y]) {
      assert Apart(p, s.challenges[x], s.challenges[y]);
      assert SameIssue(s.challenges[x], t.challenges[x]) && SameIssue(s.challenges[y], t.challenges[y]);
    }
  }

  predicate SameIssue(c: Challenge, d: Challenge) { d.subject == c.subject && d.issuedAt == c.issuedAt }

  lemma SpacedKept(p: Policy, s: State, e: Event)
    requires p.cooldown > 0.0 && Spaced(p, s) && (e.DoIssue? ==> e.id !in s.challenges)
    ensures Spaced(p, Apply(p, s, e).0)
  {
    var t := Apply(p, s, e).0;
    hide Spaced;
    if e.DoIssue? && Issues(p, s, e.who, e.at) {
      IssueSpaced(p, s, e.who, e.id, e.salt, e.otpHash, e.at);
    } else {
      SameIssuesSpaced(p, s, t);
    }
  }

  lemma BoundedKept(p: Policy, s: State, e: Event)
    requires p.maxAttempts >= 1 && Bounded(p, s)
    ensures Bounded(p, Apply(p, s, e).0)
  {
  }

  lemma {:induction false} RunOk(p: Policy, states: seq<State>, events: seq<Event>, n: nat)
    requires IsRun(p, states, events) && n <= |events|
    ensures p.cooldown > 0.0 ==> Spaced(p, states[n])
    ensures p.maxAttempts >= 1 ==> Bounded(p, states[n])
  {
    hide Apply, Spaced, Bounded;
    if n == 0 {
      Empty(p);
    } else {
      RunOk(p, states, events, n - 1);
      assert Apply(p, states[n - 1], events[n - 1]).0 == states[n];
      if p.cooldown > 0.0 {
        SpacedKept(p, states[n - 1], events[n - 1]);
      }
      if p.maxAttempts >= 1 {
        BoundedKept(p, states[n - 1], events[n - 1]);
      }
    }
  }

  /** In every state of a run two challenges of a subject were issued a cooldown apart, none
      after the subject's last issue, and a challenge whose guesses are used up is used up. */
  lemma RunInv(p: Policy, states: seq<State>, events: seq<Event>, n: nat)
    requires IsRun(p, states, events) && n <= |events|
    ensures p.cooldown > 0.0 ==> forall x, y ::
      x in states[n].challenges && y in states[n].challenges && x != y && states[n].challenges[x].subject == states[n].challenges[y].subject ==>
        || states[n].challenges[x].issuedAt - states[n].challenges[y].issuedAt >= p.cooldown
        || states[n].challenges[y].issuedAt - states[n].challenges[x].issuedAt >= p.cooldown
    ensures p.maxAttempts >= 1 ==> forall x :: x in states[n].challenges ==>
      && states[n].challenges[x].attempts <= p.maxAttempts
      && (states[n].challenges[x].attempts == p.maxAttempts ==> states[n].challenges[x].consumed)
  {
    RunOk(p, states, events, n);
    hide IsRun;
    if p.cooldown > 0.0 {
      assert forall x, y :: x in states[n].challenges && y in states[n].challenges && x != y ==>
        Apart(p, states[n].challenges[x], states[n].challenges[y]);
    }
  }

  lemma Empty(p: Policy)
    ensures Spaced(p, State(map[], map[], map[])) && Bounded(p, State(map[], map[], map[]))
  {
  }

  /** A challenge stays what it was; its attempts count its comparisons; once consumed it
      stays so. */
  ghost predicate Carried(s: State, t: State, id: Id, tried: bool) {
    id in s.challenges ==>
      && id in t.challenges && SameIssue(s.challenges[id], t.challenges[id])
      && (s.challenges[id].consumed ==> t.challenges[id].consumed)
      && t.challenges[id].attempts == s.challenges[id].attempts + (if tried then 1 else 0)
  }

  lemma StepCarries(p: Policy, s: State, e: Event, id: Id)
    requires e.DoIssue? ==> e.id !in s.challenges
    ensures Carried(s, Apply(p, s, e).0, id, Tries(p, s, e, id))
    ensures id !in s.challenges && id in Apply(p, s, e).0.challenges ==>
      e.DoIssue? && Apply(p, s, e).0.challenges[id].attempts == 0 && Apply(p, s, e).0.challenges[id].issuedAt == e.at
  {
  }

  /** The attempts of a challenge are exactly the comparisons made for it. */
  lemma {:induction false} AttemptsAreTries(p: Policy, states: seq<State>, events: seq<Event>, id: Id, n: nat)
    requires IsRun(p, states, events) && n <= |events|
    ensures TryCount(p, states, events, id, n) == if id in states[n].challenges then states[n].challenges[id].attempts else 0
  {
    if n > 0 {
      AttemptsAreTries(p, states, events, id, n - 1);
      assert Apply(p, states[n - 1], events[n - 1]).0 == states[n];
      hide Apply;
      StepCarries(p, states[n - 1], events[n - 1], id);
    }
  }

  lemma {:induction false} ChallengeStays(p: Policy, states: seq<State>, events: seq<Event>, id: Id, i: nat, n: nat)
    requires IsRun(p, states, events) && i <= n <= |events| && id in states[i].challenges
    ensures id in states[n].challenges
    ensures SameIssue(states[i].challenges[id], states[n].challenges[id])
    ensures states[i].challenges[id].consumed ==> states[n].challenges[id].consumed
  {
    if i < n {
      ChallengeStays(p, states, events, id, i, n - 1);
      assert Apply(p, states[n - 1], events[n - 1]).0 == states[n];
      hide Apply;
      StepCarries(p, states[n - 1], events[n - 1], id);
    }
  }

  /** A challenge was issued no later than any event after it. */
  lemma {:induction false} IssuedBefore(p: Policy, states: seq<State>, events: seq<Event>, id: Id, n: nat, i: nat)
    requires IsRun(p, states, events) && n <= i < |events| && id in states[n].challenges
    ensures states[n].challenges[id].issuedAt <= events[i].at
  {
    if n > 0 {
      assert Apply(p, states[n - 1], events[n - 1]).0 == states[n];
      hide Apply;
      StepCarries(p, states[n - 1], events[n - 1], id);
      if id in states[n - 1].challenges {
        IssuedBefore(p, states, events, id, n - 1, i);
      }
    }
  }

  // ---------------------------------------------------------------- counting guesses

  /** The challenges of a subject issued between two moments. */
  function Window(s: State, who: Subject, from: real, until: real): set<Id> {
    set x | x in s.challenges && s.challenges[x].subject == who && from <= s.challenges[x].issuedAt <= until
  }

  lemma {:induction false} SplitCount(p: Policy, states: seq<State>, events: seq<Event>, ids: set<Id>, x: Id, n: nat)
    requires n <= |events| <= |states| && x in ids
    ensures TryCountIn(p, states, events, ids, n) == TryCountIn(p, states, events, ids - {x}, n) + TryCount(p, states, events, x, n)
  {
    hide Compares;
    if n > 0 {
      SplitCount(p, states, events, ids, x, n - 1);
    }
  }

  lemma {:induction false} NoCount(p: Policy, states: seq<State>, events: seq<Event>, n: nat)
    requires n <= |events| <= |states|
    ensures TryCountIn(p, states, events, {}, n) == 0
  {
    if n > 0 {
      NoCount(p, states, events, n - 1);
    }
  }

  /** Each of some challenges takes at most maxAttempts comparisons. */
  lemma {:induction false} CountBound(p: Policy, states: seq<State>, events: seq<Event>, ids: set<Id>)
    requires IsRun(p, states, events) && p.maxAttempts >= 1
    ensures TryCountIn(p, states, events, ids, |events|) <= p.maxAttempts * |ids|
    decreases |ids|
  {
    var n := |events|;
    assert |states| == n + 1;
    hide IsRun;
    if ids == {} {
      NoCount(p, states, events, n);
    } else {
      var x :| x in ids;
      CountBound(p, states, events, ids - {x});
      SplitCount(p, states, events, ids, x, n);
      AttemptsAreTries(p, states, events, x, n);
      RunOk(p, states, events, n);
      assert TryCount(p, states, events, x, n) <= p.maxAttempts;
      assert |ids - {x}| == |ids| - 1;
      assert p.maxAttempts * (|ids| - 1) == p.maxAttempts * |ids| - p.maxAttempts;
    }
  }

  /** A guess compared in a window is a guess for a challenge issued at most ttl before it. */
  lemma {:induction false} GuessesInWindow(p: Policy, states: seq<State>, events: seq<Event>, who: Subject, from: real, until: real, n: nat)
    requires IsRun(p, states, events) && n <= |events|
    ensures Guesses(p, states, events, who, from, until, n)
      <= TryCountIn(p, states, events, Window(states[|events|], who, from - p.ttl, until), n)
  {
    if n > 0 {
      GuessesInWindow(p, states, events, who, from, until, n - 1);
      if TriesFor(p, states[n - 1], events[n - 1], who, from, until) {
        var id := events[n - 1].id;
        ChallengeStays(p, states, events, id, n - 1, |events|);
        IssuedBefore(p, states, events, id, n - 1, n - 1);
        assert id in Window(states[|events|], who, from - p.ttl, until);
      }
    }
  }

  lemma {:induction false} Latest(s: State, ids: set<Id>) returns (x: Id)
    requires ids != {} && forall y :: y in ids ==> y in s.challenges
    ensures x in ids && forall y :: y in ids ==> s.challenges[y].issuedAt <= s.challenges[x].issuedAt
    decreases |ids|
  {
    x :| x in ids;
    if ids - {x} != {} {
      var y := Latest(s, ids - {x});
      x := if s.challenges[x].issuedAt <= s.challenges[y].issuedAt then y else x;
    }
  }

  function Times(k: nat, c: real): real { if k == 0 then 0.0 else Times(k - 1, c) + c }

  /** Challenges a cooldown apart fit into an interval only so often. */
  lemma {:induction false} FewInWindow(p: Policy, s: State, ids: set<Id>, who: Subject, from: real, until: real)
    requires p.cooldown > 0.0 && Spaced(p, s) && ids <= Window(s, who, from, until) && ids != {}
    ensures Times(|ids| - 1, p.cooldown) <= until - from
    decreases |ids|
  {
    var x := Latest(s, ids);
    var rest, at := ids - {x}, s.challenges[x].issuedAt;
    assert |rest| == |ids| - 1;
    if rest != {} {
      forall y | y in rest ensures y in Window(s, who, from, at - p.cooldown) {
        assert Apart(p, s.challenges[x], s.challenges[y]);
      }
      hide Spaced, Window;
      FewInWindow(p, s, rest, who, from, at - p.cooldown);
    }
  }

  lemma {:induction false} TimesIsProduct(k: nat, c: real)
    ensures Times(k, c) == k as real * c
  {
    if k > 0 {
      TimesIsProduct(k - 1, c);
      assert k as real * c == (k - 1) as real * c + c;
    }
  }

  lemma ProductGrows(a: real, b: real, c: real)
    requires a > b && c > 0.0
    ensures a * c > b * c
  {
    var d := a - b;
    PositiveProduct(d, c, d * c);
    assert d * c == a * c - b * c;
  }

  lemma PositiveProduct(a: real, b: real, p: real)
    requires p == a * b && a > 0.0 && b > 0.0
    ensures p > 0.0
  {
  }

  lemma FloorBound(k: nat, cooldown: real, length: real)
    requires cooldown > 0.0 && Times(k, cooldown) <= length
    ensures k <= (length / cooldown).Floor
  {
    TimesIsProduct(k, cooldown);
    var q := length / cooldown;
    assert q * cooldown == length;
    if k as real > q {
      ProductGrows(k as real, q, cooldown);
    }
  }

  lemma WindowSize(p: Policy, s: State, who: Subject, from: real, until: real)
    requires p.cooldown > 0.0 && Spaced(p, s) && from <= until
    ensures |Window(s, who, from, until)| <= 1 + ((until - from) / p.cooldown).Floor
  {
    var ids := Window(s, who, from, until);
    hide Spaced, Window;
    if ids == {} {
      FloorBound(0, p.cooldown, until - from);
    } else {
      FewInWindow(p, s, ids, who, from, until);
      FloorBound(|ids| - 1, p.cooldown, until - from);
    }
  }

  // ---------------------------------------------------------------- main results

  /** The count is the number of such events. */
  lemma {:induction false} GuessesAreEvents(p: Policy, states: seq<State>, events: seq<Event>, who: Subject, from: real, until: real, n: nat)
    requires n <= |events| <= |states|
    ensures Guesses(p, states, events, who, from, until, n)
      == |set i | 0 <= i < n && TriesFor(p, states[i], events[i], who, from, until)|
  {
    if n > 0 {
      GuessesAreEvents(p, states, events, who, from, until, n - 1);
      var before := set i | 0 <= i < n - 1 && TriesFor(p, states[i], events[i], who, from, until);
      var all := set i | 0 <= i < n && TriesFor(p, states[i], events[i], who, from, until);
      assert Guesses(p, states, events, who, from, until, n) == |before| + (if n - 1 in all then 1 else 0);
      hide *;
      assert all == if n - 1 in all then before + {n - 1} else before;
    }
  }

  /** Over any run, the guesses compared for one subject in an interval of length T number at
      most maxAttempts * (1 + floor((T + ttl) / cooldown)). */
  lemma GuessBound(p: Policy, states: seq<State>, events: seq<Event>, who: Subject, from: real, until: real)
    requires IsRun(p, states, events) && p.maxAttempts >= 1 && p.cooldown > 0.0 && p.ttl >= 0.0 && from <= until
    ensures |set i | 0 <= i < |events| && events[i].DoVerify? && Compares(p, states[i], events[i].id, events[i].at)
        && states[i].challenges[events[i].id].subject == who && from <= events[i].at <= until|
      <= p.maxAttempts * (1 + ((until - from + p.ttl) / p.cooldown).Floor)
  {
    GuessesBounded(p, states, events, who, from, until);
    GuessesAreEvents(p, states, events, who, from, until, |events|);
    assert (set i | 0 <= i < |events| && events[i].DoVerify? && Compares(p, states[i], events[i].id, events[i].at)
        && states[i].challenges[events[i].id].subject == who && from <= events[i].at <= until)
      == set i | 0 <= i < |events| && TriesFor(p, states[i], events[i], who, from, until);
  }

  lemma GuessesBounded(p: Policy, states: seq<State>, events: seq<Event>, who: Subject, from: real, until: real)
    requires IsRun(p, states, events) && p.maxAttempts >= 1 && p.cooldown > 0.0 && p.ttl >= 0.0 && from <= until
    ensures Guesses(p, states, events, who, from, until, |events|)
      <= p.maxAttempts * (1 + ((until - from + p.ttl) / p.cooldown).Floor)
  {
    var n := |events|;
    GuessesInWindow(p, states, events, who, from, until, n);
    var ids := Window(states[n], who, from - p.ttl, until);
    CountBound(p, states, events, ids);
    RunOk(p, states, events, n);
    hide *;
    WindowSize(p, states[n], who, from - p.ttl, until);
    assert until - (from - p.ttl) == until - from + p.ttl;
    MulMono(p.maxAttempts, |ids|, 1 + ((until - from + p.ttl) / p.cooldown).Floor);
  }

  lemma MulMono(m: nat, a: int, b: int)
    requires a <= b
    ensures m * a <= m * b
  {
  }

  /** A challenge that was confirmed, expired or exhausted is denied by every later
      verification, so it is confirmed at most once. */
  lemma ConsumedIsFinal(p: Policy, states: seq<State>, events: seq<Event>, i: nat, j: nat)
    requires IsRun(p, states, events) && i < j < |events| && events[i].DoVerify? && events[j].DoVerify? && events[i].id == events[j].id
    requires Apply(p, states[i], events[i]).1.reason in {OtpConfirmed, ChallengeExpired, AttemptsExhausted, ChallengeReplayed}
    ensures Apply(p, states[j], events[j]).1 == Reply(Denied, ChallengeReplayed)
  {
    assert Apply(p, states[i], events[i]).0 == states[i + 1];
    assert events[i].id in states[i + 1].challenges && states[i + 1].challenges[events[i].id].consumed;
    ChallengeStays(p, states, events, events[i].id, i + 1, j);
  }

  /** Exhausting a challenge shuts the subject out, for issuing and for verifying any of its
      challenges, until the lockout has run out. */
  lemma {:induction false} LockedUntil(p: Policy, states: seq<State>, events: seq<Event>, i: nat, j: nat)
    requires IsRun(p, states, events) && i < j <= |events| && p.lockout >= 0.0 && events[i].DoVerify?
    requires Apply(p, states[i], events[i]).1.reason == AttemptsExhausted
    ensures events[i].id in states[i].challenges
    ensures Get(states[j].lockoutUntil, states[i].challenges[events[i].id].subject) >= events[i].at + p.lockout
  {
    if i + 1 < j {
      LockedUntil(p, states, events, i, j - 1);
      assert Apply(p, states[j - 1], events[j - 1]).0 == states[j];
      assert events[i].at <= events[j - 1].at;
    } else {
      assert Apply(p, states[i], events[i]).0 == states[j];
    }
  }

  lemma LockoutHolds(p: Policy, states: seq<State>, events: seq<Event>, i: nat, j: nat)
    requires IsRun(p, states, events) && i < j < |events| && p.lockout >= 0.0 && events[i].DoVerify?
    requires Apply(p, states[i], events[i]).1.reason == AttemptsExhausted
    requires events[j].at < events[i].at + p.lockout
    requires events[i].id in states[i].challenges
    ensures var who := states[i].challenges[events[i].id].subject;
      && (events[j].DoIssue? && events[j].who == who ==> Apply(p, states[j], events[j]) == (states[j], Reply(Denied, LockedOut)))
      && (events[j].DoVerify? && events[j].id in states[j].challenges && states[j].challenges[events[j].id].subject == who ==>
        Apply(p, states[j], events[j]).1.status == Denied && !Compares(p, states[j], events[j].id, events[j].at))
  {
    LockedUntil(p, states, events, i, j);
  }
}
