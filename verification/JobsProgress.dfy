/** What the queue does, not only what it never does: which rows a claim takes, when a failed
    job comes up again, and that every attempt it is allowed can be used. */
module JobsProgress {
  import opened Basics
  import opened Jobs

  // ---------------------------------------------------------------- what a claim takes

  /** Waiting to be run, for the first time or again, and not before its time. */
  predicate Ready(j: Job, now: int) { j.status in {Pending, Failed} && j.nextRun <= now }

  /** A claim takes ready rows only, at most limit; all of them when a place is left; and when
      one is left out, none that is due later than it. The rows it takes are running and held
      by the worker, the others are as they were. */
  lemma ClaimTakes(s: State, w: WorkerId, ids: set<Id>, limit: nat, t: State)
    requires Step(s, Claim(w, ids, limit)) == Some(t)
    ensures |ids| <= limit && (forall id :: id in ids ==> id in s.jobs && Ready(s.jobs[id], s.now))
    ensures |ids| < limit ==> forall id :: id in s.jobs && Ready(s.jobs[id], s.now) ==> id in ids
    ensures forall id, other :: id in ids && other in s.jobs && Ready(s.jobs[other], s.now) && other !in ids ==>
      s.jobs[id].nextRun <= s.jobs[other].nextRun
    ensures t.jobs.Keys == s.jobs.Keys
    ensures forall id :: id in s.jobs ==> t.jobs[id] == s.jobs[id].(status := if id in ids then Running else s.jobs[id].status)
    ensures w !in s.workers && w in t.workers && t.workers[w].todo.Keys == ids && t.workers[w].fate == AtWork
    ensures forall v :: v in s.workers ==> v in t.workers && t.workers[v] == s.workers[v]
  {
  }

  // ---------------------------------------------------------------- some claim is always possible

  /** The ready rows. */
  function ReadyIn(s: State): set<Id> { set id | id in s.jobs && Ready(s.jobs[id], s.now) }

  lemma {:induction false} Earliest(s: State, ids: set<Id>) returns (first: Id)
    requires ids != {} && forall id :: id in ids ==> id in s.jobs
    ensures first in ids && forall id :: id in ids ==> s.jobs[first].nextRun <= s.jobs[id].nextRun
    decreases |ids|
  {
    first :| first in ids;
    if ids != {first} {
      var rest := Earliest(s, ids - {first});
      if s.jobs[rest].nextRun < s.jobs[first].nextRun {
        first := rest;
      }
    }
  }

  /** The earliest of some rows, as many as there are places. */
  lemma {:induction false} EarliestRows(s: State, ids: set<Id>, limit: nat) returns (batch: set<Id>)
    requires forall id :: id in ids ==> id in s.jobs
    ensures batch <= ids && |batch| <= limit
    ensures forall other :: other in ids && other !in batch ==>
      |batch| == limit && forall id :: id in batch ==> s.jobs[id].nextRun <= s.jobs[other].nextRun
    decreases limit
  {
    batch := {};
    if ids != {} && limit > 0 {
      var first := Earliest(s, ids);
      var rest := EarliestRows(s, ids - {first}, limit - 1);
      batch := rest + {first};
    }
  }

  /** A free worker can always claim, so whatever is ready and has a place is taken then. */
  lemma ClaimIsPossible(s: State, w: WorkerId, limit: nat) returns (ids: set<Id>)
    requires w !in s.workers
    ensures Step(s, Claim(w, ids, limit)).Some?
  {
    ids := EarliestRows(s, ReadyIn(s), limit);
    assert IsBatch(s, ids, limit);
  }

  // ---------------------------------------------------------------- when a failed job comes up again

  /** The pause after the k-th attempt, in minutes. */
  function Pause(k: nat): int { if k <= 1 then 1 else if k == 2 then 5 else if k == 3 then 15 else if k == 4 then 60 else 240 }

  /** Step i records a failure of the job that leaves it attempts to come. */
  ghost predicate FailsAt(trace: seq<State>, acts: seq<Action>, i: nat, id: Id) {
    && i < |acts| && i + 1 < |trace| && acts[i].WriteFailure? && !acts[i].throws
    && acts[i].w in trace[i].workers && trace[i].workers[acts[i].w].phase == Threw(id)
    && id in trace[i + 1].jobs && trace[i + 1].jobs[id].status == Failed
  }

  predicate ClaimsAt(acts: seq<Action>, j: nat, id: Id) { j < |acts| && acts[j].Claim? && id in acts[j].ids }

  /** The row a recorded failure leaves. */
  lemma FailureRecorded(trace: seq<State>, acts: seq<Action>, now: int, i: nat, id: Id)
    requires IsTrace(trace, acts, now) && FailsAt(trace, acts, i, id)
    ensures id in trace[i].jobs
    ensures var j := trace[i + 1].jobs[id];
      && j.attempts == trace[i].jobs[id].attempts + 1 && j.attempts < j.maxAttempts
      && j.nextRun == trace[i].now + Pause(j.attempts) * 60000
  {
    TraceInv(trace, acts, now, i);
    var s, w := trace[i], acts[i].w;
    assert Step(s, acts[i]) == Some(trace[i + 1]);
    assert CountsOk(s.workers[w]) && HeldOk(s.jobs, s.workers[w], id);
  }

  lemma FailedStays(s: State, act: Action, t: State, id: Id)
    requires Inv(s) && Step(s, act) == Some(t) && id in s.jobs && s.jobs[id].status == Failed
    requires !(act.Claim? && id in act.ids)
    ensures id in t.jobs && t.jobs[id] == s.jobs[id]
  {
    if act.Start? || act.WriteSuccess? || act.WriteFailure? {
      WorkerShape(s, act, t);
      hide Step;
      NotHeld(s, id, act.w);
    }
  }

  lemma {:induction false} FailedWaits(trace: seq<State>, acts: seq<Action>, now: int, i: nat, j: nat, id: Id)
    requires IsTrace(trace, acts, now) && FailsAt(trace, acts, i, id) && i < j < |trace|
    requires forall k: nat :: i < k < j ==> !ClaimsAt(acts, k, id)
    ensures id in trace[j].jobs && trace[j].jobs[id] == trace[i + 1].jobs[id]
    decreases j
  {
    if j > i + 1 {
      FailedWaits(trace, acts, now, i, j - 1, id);
      TraceInv(trace, acts, now, j - 1);
      hide Inv, Step;
      assert Step(trace[j - 1], acts[j - 1]) == Some(trace[j]);
      assert !ClaimsAt(acts, j - 1, id);
      FailedStays(trace[j - 1], acts[j - 1], trace[j], id);
    }
  }

  /** After its k-th attempt failed a job is not claimed again before 1, 5, 15, 60 or 240
      minutes have passed, for k = 1, 2, 3, 4 and more. From then on any claim with a place
      left takes it. */
  lemma NextClaimIff(trace: seq<State>, acts: seq<Action>, now: int, i: nat, j: nat, id: Id)
    requires IsTrace(trace, acts, now) && FailsAt(trace, acts, i, id) && i < j < |acts| && acts[j].Claim?
    requires forall k: nat :: i < k < j ==> !ClaimsAt(acts, k, id)
    ensures id in trace[i + 1].jobs
    ensures var due := trace[i].now + Pause(trace[i + 1].jobs[id].attempts) * 60000;
      && (ClaimsAt(acts, j, id) ==> trace[j].now >= due)
      && (trace[j].now >= due && |acts[j].ids| < acts[j].limit ==> ClaimsAt(acts, j, id))
  {
    FailureRecorded(trace, acts, now, i, id);
    FailedWaits(trace, acts, now, i, j, id);
    assert Step(trace[j], acts[j]) == Some(trace[j + 1]);
    hide IsTrace, FailsAt;
    ClaimTakes(trace[j], acts[j].w, acts[j].ids, acts[j].limit, trace[j + 1]);
    hide Step;
  }

  predicate HasKey(jobs: map<Id, Job>, id: Id, key: Option<string>) { id in jobs && jobs[id].dedupe == key }

  ghost predicate Named(jobs: map<Id, Job>, key: Option<string>) { exists id :: HasKey(jobs, id, key) }

  /** Scheduling adds its row, waiting from the asked moment on, unless its key is taken, and
      then changes nothing. */
  lemma ScheduledThere(trace: seq<State>, acts: seq<Action>, now: int, i: nat)
    requires IsTrace(trace, acts, now) && i < |acts| && acts[i].Schedule?
    ensures var key, taken := acts[i].dedupe, acts[i].dedupe.Some? && Named(trace[i].jobs, acts[i].dedupe);
      && (taken ==> trace[i + 1].jobs == trace[i].jobs)
      && (!taken ==> acts[i].id !in trace[i].jobs)
      && (!taken ==> trace[i + 1].jobs == trace[i].jobs[acts[i].id := Job(key, Pending, 0, acts[i].maxAttempts, acts[i].runAt, 0, 0)])
  {
    assert Step(trace[i], acts[i]) == Some(trace[i + 1]);
    var key := acts[i].dedupe;
    if DedupeTaken(trace[i].jobs, key) {
      var id :| id in trace[i].jobs && trace[i].jobs[id].dedupe == key;
      assert HasKey(trace[i].jobs, id, key);
    }
  }

  // ---------------------------------------------------------------- what is recorded

  /** How a job of a batch that is run by itself ends. */
  lemma OutcomeSpelledOut(j: Job, turn: Turn, now: int)
    ensures var wrong, k, o := turn.course.handlerThrows || turn.course.successThrows, turn.claimed.attempts + 1, Outcome(j, turn, now);
      && (Fails(turn.course) <==> wrong) && (Aborts(turn.course) <==> wrong && turn.course.failureThrows)
      && (Buries(turn) <==> wrong && k >= turn.claimed.maxAttempts)
      && (!wrong ==> o == j.(status := Succeeded, attempts := k, starts := j.starts + 1))
      && (Aborts(turn.course) ==> o == j.(starts := j.starts + 1))
      && (wrong && !turn.course.failureThrows ==>
            o == j.(status := if k >= turn.claimed.maxAttempts then Dead else Failed, attempts := k, starts := j.starts + 1,
                    nextRun := now + Pause(k) * 60000))
  {
  }

  /** In any state of a run: a success is recorded as such with one attempt more, a failure
      counts as dead exactly when it was the last attempt and as failed otherwise, and a dead
      job that is retried waits from that moment on. */
  lemma RecordsSpelledOut(s: State, act: Action, t: State)
    requires Step(s, act) == Some(t)
    ensures act.WriteSuccess? && !act.throws ==>
      var wk := s.workers[act.w];
      var id := wk.phase.id;
      t == s.(jobs := s.jobs[id := s.jobs[id].(status := Succeeded, attempts := wk.todo[id].attempts + 1)],
              workers := s.workers[act.w := wk.(phase := Idle, todo := wk.todo - {id})])
    ensures act.WriteFailure? ==>
      var wk := s.workers[act.w];
      var id := wk.phase.id;
      var last := wk.todo[id].attempts + 1 >= wk.todo[id].maxAttempts;
      && t.workers[act.w].dead == wk.dead + (if last then 1 else 0) && t.workers[act.w].failed == wk.failed + (if last then 0 else 1)
      && (act.throws ==> t.jobs == s.jobs && t.workers[act.w].fate == Aborted)
      && (!act.throws ==> t.jobs == s.jobs[id := t.jobs[id]] && t.jobs[id].status == (if last then Dead else Failed))
    ensures act.Retry? && act.id in s.jobs && s.jobs[act.id].status == Dead ==>
      t == s.(jobs := s.jobs[act.id := s.jobs[act.id].(status := Pending, nextRun := s.now, retries := s.jobs[act.id].retries + 1)])
    ensures act.Retry? && !(act.id in s.jobs && s.jobs[act.id].status == Dead) ==> t == s
  {
    hide IsBatch, DedupeTaken, ClaimAll, Backoff;
  }

  // ---------------------------------------------------------------- the bound is attained

  /** One job of the table, claimed by workers 0, 1, ... in turn, all of them done with it. */
  ghost predicate Alone(s: State, j: Job, k: nat) {
    s.jobs == map["j" := j] && forall w :: k <= w ==> w !in s.workers
  }

  lemma Joined(s: State, acts: seq<Action>, more: seq<Action>)
    requires Exec(s, acts).Some?
    ensures Exec(s, acts + more) == Exec(Exec(s, acts).value, more)
    decreases |acts|
  {
    if acts == [] {
      assert [] + more == more;
    } else {
      assert (acts + more)[0] == acts[0] && (acts + more)[1..] == acts[1..] + more;
      hide Step;
      Joined(Step(s, acts[0]).value, acts[1..], more);
    }
  }

  /** The clock moves to the job's time and a new worker claims it. */
  lemma ClaimAlone(s: State, j: Job, k: nat) returns (t: State, at: int)
    requires Alone(s, j, k) && j.status in {Pending, Failed}
    ensures Exec(s, [Tick(at), Claim(k, {"j"}, 1)]) == Some(t)
    ensures t.jobs == map["j" := j.(status := Running)] && t.now == at
    ensures t.workers == s.workers[k := Worker(map["j" := Claimed(j.attempts, j.maxAttempts)], Idle, AtWork, 0, 0, 0, 0, 0)]
  {
    at := if j.nextRun <= s.now then s.now else j.nextRun;
    var s1 := s.(now := at);
    assert Step(s, Tick(at)) == Some(s1);
    assert IsBatch(s1, {"j"}, 1) && k !in s1.workers;
    t := Step(s1, Claim(k, {"j"}, 1)).value;
    assert t.workers[k].todo == map["j" := Claimed(j.attempts, j.maxAttempts)];
    assert t.jobs == map["j" := j.(status := Running)];
    hide Step;
    assert [Tick(at), Claim(k, {"j"}, 1)][1..] == [Claim(k, {"j"}, 1)] && [Claim(k, {"j"}, 1)][1..] == [];
    assert Exec(t, []) == Some(t);
    assert Exec(s1, [Claim(k, {"j"}, 1)]) == Some(t);
  }

  /** The worker starts the job, the handler throws, and the failure is recorded. */
  lemma FailAlone(s: State, j: Job, k: nat) returns (t: State)
    requires s.jobs == map["j" := j] && k in s.workers && (forall w :: k < w ==> w !in s.workers)
    requires s.workers[k] == Worker(map["j" := Claimed(j.attempts, j.maxAttempts)], Idle, AtWork, 0, 0, 0, 0, 0)
    ensures Exec(s, [Start(k, "j", false), WriteFailure(k, false)]) == Some(t)
    ensures Alone(t, j.(status := if j.attempts + 1 >= j.maxAttempts then Dead else Failed, attempts := j.attempts + 1,
                        starts := j.starts + 1, nextRun := s.now + Pause(j.attempts + 1) * 60000), k + 1)
  {
    var s1 := Step(s, Start(k, "j", false)).value;
    t := Step(s1, WriteFailure(k, false)).value;
    hide Step;
    var acts := [Start(k, "j", false), WriteFailure(k, false)];
    assert acts[1..] == [WriteFailure(k, false)] && acts[1..][1..] == [];
    assert Exec(t, []) == Some(t);
    assert Exec(s1, acts[1..]) == Some(t);
  }

  /** One more failing attempt. */
  lemma OneRound(s: State, j: Job, k: nat) returns (acts: seq<Action>, t: State, next: int)
    requires Alone(s, j, k) && j.status in {Pending, Failed}
    ensures Exec(s, acts) == Some(t)
    ensures Alone(t, j.(status := if j.attempts + 1 >= j.maxAttempts then Dead else Failed, attempts := j.attempts + 1,
                        starts := j.starts + 1, nextRun := next), k + 1)
  {
    var u, at := ClaimAlone(s, j, k);
    t := FailAlone(u, j.(status := Running), k);
    next := u.now + Pause(j.attempts + 1) * 60000;
    hide Exec, Step, Alone, Pause;
    Joined(s, [Tick(at), Claim(k, {"j"}, 1)], [Start(k, "j", false), WriteFailure(k, false)]);
    acts := [Tick(at), Claim(k, {"j"}, 1)] + [Start(k, "j", false), WriteFailure(k, false)];
  }

  lemma {:induction false} Rounds(m: nat, k: nat) returns (acts: seq<Action>, s: State, next: int)
    requires k <= m && m >= 1
    ensures Exec(State(map[], map[], 0), acts) == Some(s)
    ensures Alone(s, Job(None, if k == 0 then Pending else if k == m then Dead else Failed, k, m, next, k, 0), k)
    decreases k
  {
    if k == 0 {
      next := 0;
      s := State(map["j" := Job(None, Pending, 0, m, 0, 0, 0)], map[], 0);
      acts := [Schedule("j", None, 0, m)];
      assert Step(State(map[], map[], 0), acts[0]) == Some(s);
      assert acts[1..] == [] && Exec(s, []) == Some(s);
    } else {
      var before, u, at := Rounds(m, k - 1);
      var more;
      more, s, next := OneRound(u, Job(None, if k - 1 == 0 then Pending else Failed, k - 1, m, at, k - 1, 0), k - 1);
      hide Exec;
      Joined(State(map[], map[], 0), before, more);
      acts := before + more;
    }
  }

  /** Reviving a dead job and failing once more. */
  lemma Revived(s: State, j: Job, k: nat) returns (acts: seq<Action>, t: State, next: int)
    requires Alone(s, j, k) && j.status == Dead && j.attempts >= j.maxAttempts
    ensures Exec(s, acts) == Some(t)
    ensures Alone(t, j.(attempts := j.attempts + 1, starts := j.starts + 1, retries := j.retries + 1, nextRun := next), k + 1)
  {
    var u := s.(jobs := map["j" := j.(status := Pending, nextRun := s.now, retries := j.retries + 1)]);
    assert s.jobs["j" := u.jobs["j"]] == u.jobs;
    assert Step(s, Retry("j")) == Some(u);
    assert [Retry("j")][1..] == [] && Exec(u, []) == Some(u);
    assert Exec(s, [Retry("j")]) == Some(u);
    var more;
    more, t, next := OneRound(u, j.(status := Pending, nextRun := s.now, retries := j.retries + 1), k);
    hide Exec;
    Joined(s, [Retry("j")], more);
    acts := [Retry("j")] + more;
  }

  /** For every maximum of at least one and every number of retries, some run from the empty
      queue starts a job exactly that many times in all, each time in vain, and ends with it
      among the dead letters: StartsBounded is attained. */
  lemma {:induction false} BoundIsReached(m: nat, r: nat) returns (acts: seq<Action>, s: State, next: int)
    requires m >= 1
    ensures Exec(State(map[], map[], 0), acts) == Some(s)
    ensures Alone(s, Job(None, Dead, m + r, m, next, m + r, r), m + r)
    decreases r
  {
    if r == 0 {
      acts, s, next := Rounds(m, m);
    } else {
      var before, u, at := BoundIsReached(m, r - 1);
      var more;
      more, s, next := Revived(u, Job(None, Dead, m + r - 1, m, at, m + r - 1, r - 1), m + r - 1);
      hide Exec;
      Joined(State(map[], map[], 0), before, more);
      acts := before + more;
    }
  }
}
