/** Password sign-in of one user: the failure counter, the lockout, and how many wrong
    passwords they let through. Times are in milliseconds. */
module Login {
  import opened Basics

  const MAX_FAILED_ATTEMPTS := 5
  const LOCKOUT_MS := 15 * 60 * 1000

  datatype Code = InvalidCredentials | Locked | EmailUnverified | MfaRequired | MfaInvalid
  datatype Result = SignedIn | Refused(code: Code)

  datatype User = User(active: bool, failed: nat, lockedUntil: Option<int>)

  /** What one attempt brings: whether the password matches, whether a code was given and is
      a valid one, and what the account demands. */
  datatype Attempt = Attempt(
    at: int, passwordOk: bool, emailVerified: bool, privileged: bool, mfaEnabled: bool, code: Option<bool>)

  predicate LockedAt(u: User, now: int) { u.lockedUntil.Some? && u.lockedUntil.value > now }

  /** The password is checked and found wrong. */
  predicate WrongCheck(u: User, a: Attempt) { u.active && !LockedAt(u, a.at) && !a.passwordOk }

  function Fail(u: User, now: int): User {
    u.(failed := u.failed + 1,
       lockedUntil := if u.failed + 1 >= MAX_FAILED_ATTEMPTS then Some(now + LOCKOUT_MS) else u.lockedUntil)
  }

  /** What follows a correct password. */
  function SecondStep(a: Attempt): Result {
    if !a.emailVerified then Refused(EmailUnverified)
    else if a.mfaEnabled then
      (if a.code.None? then Refused(MfaRequired) else if !a.code.value then Refused(MfaInvalid) else SignedIn)
    else if a.privileged then Refused(MfaRequired)
    else SignedIn
  }

  function SignIn(u: User, a: Attempt): (User, Result) {
    if !u.active then (u, Refused(InvalidCredentials))
    else if LockedAt(u, a.at) then (u, Refused(Locked))
    else if !a.passwordOk then (Fail(u, a.at), Refused(InvalidCredentials))
    else if SecondStep(a) == SignedIn then (u.(failed := 0, lockedUntil := None), SignedIn)
    else (u, SecondStep(a))
  }

  /** Signing in takes an active, unlocked account, the right password, a verified address
      and the second factor: a valid code where one is enrolled, and enrolment where the role
      is privileged. */
  lemma SignedInIff(u: User, a: Attempt)
    ensures SignIn(u, a).1 == SignedIn <==>
      && u.active && !LockedAt(u, a.at) && a.passwordOk && a.emailVerified
      && (a.mfaEnabled ==> a.code == Some(true)) && (a.privileged ==> a.mfaEnabled)
    ensures SignIn(u, a).0 != u ==> WrongCheck(u, a) || SignIn(u, a).1 == SignedIn
  {
  }

  class Account {
    var user: User

    constructor (user: User)
      ensures this.user == user
    {
      this.user := user;
    }

    method Login(a: Attempt) returns (r: Result)
      modifies this
      ensures (user, r) == SignIn(old(user), a)
    {
      if !user.active {
        return Refused(InvalidCredentials);
      }
      if LockedAt(user, a.at) {
        return Refused(Locked);
      }
      if !a.passwordOk {
        var attempts := user.failed + 1;
        user := user.(failed := attempts);
        if attempts >= MAX_FAILED_ATTEMPTS {
          user := user.(lockedUntil := Some(a.at + LOCKOUT_MS));
        }
        return Refused(InvalidCredentials);
      }
      if !a.emailVerified {
        return Refused(EmailUnverified);
      }
      if a.mfaEnabled {
        if a.code.None? {
          return Refused(MfaRequired);
        }
        if !a.code.value {
          return Refused(MfaInvalid);
        }
      } else if a.privileged {
        return Refused(MfaRequired);
      }
      user := user.(failed := 0, lockedUntil := None);
      return SignedIn;
    }
  }

  // ---------------------------------------------------------------- runs without a success

  predicate Refuses(u: User, a: Attempt, v: User) { SignIn(u, a).0 == v && SignIn(u, a).1 != SignedIn }

  /** Attempts one after the other, none of them signing in. */
  ghost predicate IsRun(users: seq<User>, attempts: seq<Attempt>) {
    && |users| == |attempts| + 1
    && (forall i :: 0 <= i < |attempts| ==> Refuses(users[i], attempts[i], users[i + 1]))
    && (forall i, j :: 0 <= i <= j < |attempts| ==> attempts[i].at <= attempts[j].at)
  }

  /** When the wrong passwords among the first n attempts were checked. */
  function WrongTimes(users: seq<User>, attempts: seq<Attempt>, n: nat): seq<int>
    requires n <= |attempts| <= |users|
  {
    if n == 0 then []
    else
      WrongTimes(users, attempts, n - 1)
      + (if WrongCheck(users[n - 1], attempts[n - 1]) then [attempts[n - 1].at] else [])
  }

  /** From the fifth wrong check on, the next comes a lockout later. */
  ghost predicate LockSpaced(ts: seq<int>) {
    forall k :: MAX_FAILED_ATTEMPTS <= k < |ts| ==> ts[k] >= ts[k - 1] + LOCKOUT_MS
  }

  lemma {:induction false} WrongChecksSpaced(users: seq<User>, attempts: seq<Attempt>, n: nat)
    requires IsRun(users, attempts) && n <= |attempts|
    ensures var ts := WrongTimes(users, attempts, n);
      && LockSpaced(ts) && users[n].failed >= |ts| && (ts != [] && n > 0 ==> ts[|ts| - 1] <= attempts[n - 1].at)
      && (|ts| >= MAX_FAILED_ATTEMPTS ==> LockedAt(users[n], ts[|ts| - 1] + LOCKOUT_MS - 1))
      && (forall k :: 0 < k < |ts| ==> ts[k - 1] <= ts[k])
  {
    if n > 0 {
      WrongChecksSpaced(users, attempts, n - 1);
      var before := WrongTimes(users, attempts, n - 1);
      assert Refuses(users[n - 1], attempts[n - 1], users[n]);
      if before != [] && n > 1 {
        assert attempts[n - 2].at <= attempts[n - 1].at;
      }
    }
  }

  lemma {:induction false} Span(ts: seq<int>)
    requires LockSpaced(ts) && ts != [] && forall k :: 0 < k < |ts| ==> ts[k - 1] <= ts[k]
    ensures ts[|ts| - 1] - ts[0] >= 0
    ensures |ts| > MAX_FAILED_ATTEMPTS ==> ts[|ts| - 1] - ts[0] >= (|ts| - MAX_FAILED_ATTEMPTS) * LOCKOUT_MS
    decreases |ts|
  {
    if |ts| > 1 {
      var front := ts[..|ts| - 1];
      assert forall k :: 0 <= k < |front| ==> front[k] == ts[k];
      Span(front);
    }
  }

  /** From any starting counter, with refusals of every other kind in between and no
      success, the wrong passwords checked over T milliseconds number at most
      5 + floor(T / 15 minutes). */
  lemma WrongPasswordBound(users: seq<User>, attempts: seq<Attempt>)
    requires IsRun(users, attempts)
    ensures var ts := WrongTimes(users, attempts, |attempts|);
      ts != [] ==> |ts| <= 5 + (ts[|ts| - 1] - ts[0]) / (15 * 60 * 1000)
  {
    WrongChecksSpaced(users, attempts, |attempts|);
    var ts := WrongTimes(users, attempts, |attempts|);
    if ts != [] {
      Span(ts);
    }
  }

  /** In any run of a fresh account the password is looked at exactly while fewer than five
      wrong ones were checked, or the last of them is fifteen minutes old. */
  lemma {:induction false} LockedIff(users: seq<User>, attempts: seq<Attempt>, n: nat, now: int)
    requires IsRun(users, attempts) && n <= |attempts| && users[0] == User(true, 0, None)
    ensures var ts := WrongTimes(users, attempts, n);
      && users[n].active && users[n].failed == |ts|
      && (LockedAt(users[n], now) <==> |ts| >= 5 && now < ts[|ts| - 1] + 15 * 60 * 1000)
  {
    if n > 0 {
      LockedIff(users, attempts, n - 1, now);
      LockedIff(users, attempts, n - 1, attempts[n - 1].at);
      assert Refuses(users[n - 1], attempts[n - 1], users[n]);
    }
  }

  /** What the next attempt of such a run is answered. */
  lemma AnsweredIff(users: seq<User>, attempts: seq<Attempt>, a: Attempt)
    requires IsRun(users, attempts) && users[0] == User(true, 0, None)
    ensures var ts, r := WrongTimes(users, attempts, |attempts|), SignIn(users[|attempts|], a).1;
      var locked := |ts| >= 5 && a.at < ts[|ts| - 1] + 15 * 60 * 1000;
      && (r == Refused(Locked) <==> locked)
      && (r == Refused(InvalidCredentials) <==> !locked && !a.passwordOk)
      && (r == Refused(EmailUnverified) <==> !locked && a.passwordOk && !a.emailVerified)
      && (r == SignedIn <==> !locked && a.passwordOk && a.emailVerified && (if a.mfaEnabled then a.code == Some(true) else !a.privileged))
      && (r == SignedIn ==> SignIn(users[|attempts|], a).0 == users[0])
  {
    LockedIff(users, attempts, |attempts|, a.at);
  }

  // ---------------------------------------------------------------- the bound is reached

  /** Five wrong passwords at once, then one at the end of every lockout. */
  function TightTime(i: nat): int { if i < MAX_FAILED_ATTEMPTS then 0 else (i - 4) * LOCKOUT_MS }

  function TightAttempts(n: nat): seq<Attempt> { seq(n, i requires 0 <= i => Attempt(TightTime(i), false, true, false, false, None)) }

  function TightUser(i: nat): User {
    User(true, i, if i < MAX_FAILED_ATTEMPTS then None else Some(TightTime(i - 1) + LOCKOUT_MS))
  }

  function TightUsers(n: nat): seq<User> { seq(n + 1, i requires 0 <= i => TightUser(i)) }

  lemma TightStep(i: nat)
    ensures var a := Attempt(TightTime(i), false, true, false, false, None);
      WrongCheck(TightUser(i), a) && Refuses(TightUser(i), a, TightUser(i + 1))
    ensures TightTime(i) <= TightTime(i + 1)
  {
  }

  lemma {:induction false} TightTimesGrow(i: nat, j: nat)
    requires i <= j
    ensures TightTime(i) <= TightTime(j)
    decreases j
  {
    if i < j {
      TightTimesGrow(i, j - 1);
      TightStep(j - 1);
    }
  }

  lemma {:induction false} TightCounts(n: nat, m: nat)
    requires m <= n
    ensures WrongTimes(TightUsers(n), TightAttempts(n), m) == seq(m, i requires 0 <= i => TightTime(i))
  {
    if m > 0 {
      TightCounts(n, m - 1);
      TightStep(m - 1);
    }
  }

  /** For every k there is a run of exactly 5 + k wrong passwords over exactly k lockouts. */
  lemma BoundIsReached(k: nat)
    ensures var n := MAX_FAILED_ATTEMPTS + k;
      && n == 5 + k && IsRun(TightUsers(n), TightAttempts(n)) && TightUsers(n)[0] == User(true, 0, None)
      && var ts := WrongTimes(TightUsers(n), TightAttempts(n), n);
        |ts| == n && ts[n - 1] - ts[0] == k * (15 * 60 * 1000)
  {
    var n := MAX_FAILED_ATTEMPTS + k;
    var users, attempts := TightUsers(n), TightAttempts(n);
    forall i | 0 <= i < n ensures Refuses(users[i], attempts[i], users[i + 1]) {
      TightStep(i);
    }
    forall i, j | 0 <= i <= j < n ensures attempts[i].at <= attempts[j].at {
      TightTimesGrow(i, j);
    }
    TightCounts(n, n);
  }
}
