/** The job queue: any number of workers claim, run, retry and bury jobs, one statement or
    one handler call at a time. */
module Jobs {
  import opened Basics

  type Id = string
  type WorkerId = nat

  datatype Status = Pending | Running | Succeeded | Failed | Dead

  /** starts counts handler calls and retries counts revivals from the dead letters. */
  datatype Job = Job(
    dedupe: Option<string>, status: Status, attempts: nat, maxAttempts: int, nextRun: int, starts: nat, retries: nat)

  /** What a claim returns of a row. */
  datatype Claimed = Claimed(attempts: nat, maxAttempts: int)

  datatype Phase = Idle | Ran(id: Id) | Threw(id: Id)

  /** A batch is aborted when recording a failure throws, and killed with its process. */
  datatype Fate = AtWork | Aborted | Killed

  /** A batch; thrown counts success updates that failed. One that is aborted or killed keeps
      the rows it had left. */
  datatype Worker = Worker(
    todo: map<Id, Claimed>, phase: Phase, fate: Fate,
    ran: nat, succeeded: nat, failed: nat, dead: nat, thrown: nat)

  datatype State = State(jobs: map<Id, Job>, workers: map<WorkerId, Worker>, now: int)

  datatype Action =
    | Schedule(id: Id, dedupe: Option<string>, runAt: int, maxAttempts: int)
    | Claim(w: WorkerId, ids: set<Id>, limit: nat)
    | Start(w: WorkerId, id: Id, ok: bool)
    | WriteSuccess(w: WorkerId, throws: bool)
    | WriteFailure(w: WorkerId, throws: bool)
    | Crash(w: WorkerId)
    | Retry(id: Id)
    | Tick(now: int)

  // ---------------------------------------------------------------- the statements

  predicate DedupeTaken(jobs: map<Id, Job>, dedupe: Option<string>) {
    dedupe.Some? && exists id :: id in jobs && jobs[id].dedupe == dedupe
  }

  predicate Due(j: Job, now: int) { (j.status == Pending || j.status == Failed) && j.nextRun <= now }

  /** The earliest due jobs, at most limit of them. */
  ghost predicate IsBatch(s: State, ids: set<Id>, limit: nat) {
    && (forall id :: id in ids ==> id in s.jobs && Due(s.jobs[id], s.now)) && |ids| <= limit
    && (forall other :: other in s.jobs && Due(s.jobs[other], s.now) && other !in ids ==>
      |ids| == limit && forall id :: id in ids ==> s.jobs[id].nextRun <= s.jobs[other].nextRun)
  }

  function ClaimAll(jobs: map<Id, Job>, ids: set<Id>): map<Id, Job> {
    map id | id in jobs :: if id in ids then jobs[id].(status := Running) else jobs[id]
  }

  function Backoff(attempts: nat): int
    requires attempts >= 1
  {
    [1, 5, 15, 60, 240][if attempts - 1 < 4 then attempts - 1 else 4] * 60000
  }

  predicate Exhausted(c: Claimed) { c.attempts + 1 >= c.maxAttempts }

  function Success(j: Job, c: Claimed): Job { j.(status := Succeeded, attempts := c.attempts + 1) }

  function Failure(j: Job, c: Claimed, now: int): Job {
    j.(status := if Exhausted(c) then Dead else Failed, attempts := c.attempts + 1, nextRun := now + Backoff(c.attempts + 1))
  }

  function Begin(wk: Worker, id: Id, ok: bool): Worker {
    if ok then wk.(phase := Ran(id), ran := wk.ran + 1, succeeded := wk.succeeded + 1)
    else wk.(phase := Threw(id), ran := wk.ran + 1)
  }

  function CountFailure(wk: Worker, c: Claimed): Worker {
    if Exhausted(c) then wk.(dead := wk.dead + 1) else wk.(failed := wk.failed + 1)
  }

  ghost function Step(s: State, act: Action): Option<State> {
    match act
    case Schedule(id, dedupe, runAt, maxAttempts) =>
      if id in s.jobs then None
      else if DedupeTaken(s.jobs, dedupe) then Some(s)
      else Some(s.(jobs := s.jobs[id := Job(dedupe, Pending, 0, maxAttempts, runAt, 0, 0)]))
    case Claim(w, ids, limit) =>
      if w in s.workers || !IsBatch(s, ids, limit) then None
      else
        var todo := map id | id in ids :: Claimed(s.jobs[id].attempts, s.jobs[id].maxAttempts);
        Some(s.(jobs := ClaimAll(s.jobs, ids), workers := s.workers[w := Worker(todo, Idle, AtWork, 0, 0, 0, 0, 0)]))
    case Start(w, id, ok) =>
      if w !in s.workers || s.workers[w].fate != AtWork || s.workers[w].phase != Idle || id !in s.workers[w].todo || id !in s.jobs then None
      else
        Some(s.(jobs := s.jobs[id := s.jobs[id].(starts := s.jobs[id].starts + 1)],
                workers := s.workers[w := Begin(s.workers[w], id, ok)]))
    case WriteSuccess(w, throws) =>
      if w !in s.workers || s.workers[w].fate != AtWork || !s.workers[w].phase.Ran? then None
      else
        var wk, id := s.workers[w], s.workers[w].phase.id;
        if id !in wk.todo || id !in s.jobs then None
        else if throws then Some(s.(workers := s.workers[w := wk.(phase := Threw(id), thrown := wk.thrown + 1)]))
        else
          Some(s.(jobs := s.jobs[id := Success(s.jobs[id], wk.todo[id])],
                  workers := s.workers[w := wk.(phase := Idle, todo := wk.todo - {id})]))
    case WriteFailure(w, throws) =>
      if w !in s.workers || s.workers[w].fate != AtWork || !s.workers[w].phase.Threw? then None
      else
        var wk, id := s.workers[w], s.workers[w].phase.id;
        if id !in wk.todo || id !in s.jobs then None
        else
          var counted := CountFailure(wk, wk.todo[id]);
          if throws then Some(s.(workers := s.workers[w := counted.(phase := Idle, fate := Aborted)]))
          else
            Some(s.(jobs := s.jobs[id := Failure(s.jobs[id], wk.todo[id], s.now)],
                    workers := s.workers[w := counted.(phase := Idle, todo := wk.todo - {id})]))
    case Crash(w) =>
      if w !in s.workers || s.workers[w].fate != AtWork then None else Some(s.(workers := s.workers[w := s.workers[w].(fate := Killed)]))
    case Retry(id) =>
      if id !in s.jobs || s.jobs[id].status != Dead then Some(s)
      else Some(s.(jobs := s.jobs[id := s.jobs[id].(status := Pending, nextRun := s.now, retries := s.jobs[id].retries + 1)]))
    case Tick(now) => if now < s.now then None else Some(s.(now := now))
  }

  ghost predicate IsTrace(trace: seq<State>, acts: seq<Action>, now: int) {
    && |trace| == |acts| + 1 && trace[0] == State(map[], map[], now)
    && forall i :: 0 <= i < |acts| ==> Step(trace[i], acts[i]) == Some(trace[i + 1])
  }

  // ---------------------------------------------------------------- the invariant

  function Allowed(j: Job): nat { (if j.maxAttempts < 1 then 1 else j.maxAttempts) + j.retries }

  /** Handler calls never exceed what is allowed, and a job that may be claimed has one left. */
  predicate StartsOk(j: Job) {
    && j.starts <= Allowed(j)
    && (j.status != Running ==> j.starts == j.attempts)
    && (j.status == Running ==> j.starts <= j.attempts + 1)
    && (j.status == Pending ==> j.attempts < Allowed(j))
    && (j.status == Failed ==> j.attempts < j.maxAttempts)
    && (j.status == Dead ==> j.attempts >= j.maxAttempts)
    && (j.status == Running ==> j.attempts < Allowed(j))
  }

  predicate Started(wk: Worker, id: Id) { wk.phase == Ran(id) || wk.phase == Threw(id) }

  /** What a worker holds is running, as it was when claimed, and counted when started. */
  predicate HeldOk(jobs: map<Id, Job>, wk: Worker, id: Id)
    requires id in wk.todo
  {
    && id in jobs && jobs[id].status == Running
    && jobs[id].attempts == wk.todo[id].attempts && jobs[id].maxAttempts == wk.todo[id].maxAttempts
    && (wk.fate != Aborted ==> jobs[id].starts == jobs[id].attempts + (if Started(wk, id) then 1 else 0))
  }

  /** Each start is counted once, and once more when its success update failed. */
  predicate CountsOk(wk: Worker) {
    && wk.ran + wk.thrown == wk.succeeded + wk.failed + wk.dead + (if wk.phase.Threw? then 1 else 0)
    && (wk.phase != Idle ==> wk.phase.id in wk.todo && wk.fate != Aborted)
  }

  ghost predicate WorkersOk(s: State) {
    forall w :: w in s.workers ==> CountsOk(s.workers[w]) && forall id :: id in s.workers[w].todo ==> HeldOk(s.jobs, s.workers[w], id)
  }

  ghost predicate NoSharing(workers: map<WorkerId, Worker>) {
    forall w, v, id :: w in workers && v in workers && id in workers[w].todo && id in workers[v].todo ==> w == v
  }

  predicate HeldBy(workers: map<WorkerId, Worker>, w: WorkerId, id: Id) { w in workers && id in workers[w].todo }

  ghost predicate RunningHeld(s: State) {
    forall id :: id in s.jobs && s.jobs[id].status == Running ==> exists w :: HeldBy(s.workers, w, id)
  }

  ghost predicate JobsOk(jobs: map<Id, Job>) { forall id :: id in jobs ==> StartsOk(jobs[id]) }

  ghost predicate DedupeOk(jobs: map<Id, Job>) {
    forall a, b :: a in jobs && b in jobs && jobs[a].dedupe.Some? && jobs[a].dedupe == jobs[b].dedupe ==> a == b
  }

  ghost predicate Inv(s: State) {
    WorkersOk(s) && NoSharing(s.workers) && RunningHeld(s) && JobsOk(s.jobs) && DedupeOk(s.jobs)
  }

  // ---------------------------------------------------------------- every step keeps it

  lemma ScheduleOk(s: State, act: Action, t: State)
    requires act.Schedule? && Inv(s) && Step(s, act) == Some(t)
    ensures Inv(t)
  {
    if t != s {
      assert t == s.(jobs := t.jobs) && t.jobs.Keys == s.jobs.Keys + {act.id};
      assert forall id :: id in s.jobs ==> t.jobs[id] == s.jobs[id];
      assert DedupeOk(t.jobs) && JobsOk(t.jobs);
      hide Step, DedupeOk, JobsOk, DedupeTaken;
      SameHolds(s, t);
    }
  }

  /** Jobs that are held stay as they are. */
  lemma SameHolds(s: State, t: State)
    requires WorkersOk(s) && RunningHeld(s) && t.workers == s.workers
    requires forall id :: id in s.jobs && s.jobs[id].status == Running ==> id in t.jobs && t.jobs[id] == s.jobs[id]
    requires forall id :: id in t.jobs && t.jobs[id].status == Running ==> id in s.jobs && s.jobs[id].status == Running
    ensures WorkersOk(t) && RunningHeld(t)
  {
    forall w, id | w in t.workers && id in t.workers[w].todo ensures HeldOk(t.jobs, t.workers[w], id) {
      assert HeldOk(s.jobs, s.workers[w], id);
    }
  }

  /** Nobody holds a job that is not running. */
  lemma NotHeld(s: State, id: Id, w: WorkerId)
    requires WorkersOk(s) && id in s.jobs && s.jobs[id].status != Running
    ensures !HeldBy(s.workers, w, id)
  {
    assert w in s.workers && id in s.workers[w].todo ==> HeldOk(s.jobs, s.workers[w], id);
  }

  lemma ClaimedHolds(s: State, act: Action, t: State)
    requires act.Claim? && WorkersOk(s) && JobsOk(s.jobs) && Step(s, act) == Some(t)
    ensures WorkersOk(t)
  {
    forall w, id | w in t.workers && id in t.workers[w].todo ensures HeldOk(t.jobs, t.workers[w], id) {
      if w != act.w {
        assert HeldOk(s.jobs, s.workers[w], id);
      } else {
        assert StartsOk(s.jobs[id]);
      }
    }
  }

  lemma ClaimedJobs(s: State, act: Action, t: State)
    requires act.Claim? && JobsOk(s.jobs) && DedupeOk(s.jobs) && Step(s, act) == Some(t)
    ensures JobsOk(t.jobs) && DedupeOk(t.jobs)
  {
    forall id | id in t.jobs ensures StartsOk(t.jobs[id]) {
      assert StartsOk(s.jobs[id]);
    }
  }

  lemma WorkerJoins(workers: map<WorkerId, Worker>, w: WorkerId, wk: Worker)
    requires NoSharing(workers) && w !in workers
    requires forall v, id :: HeldBy(workers, v, id) ==> id !in wk.todo
    ensures NoSharing(workers[w := wk])
  {
    var later := workers[w := wk];
    forall u, v, id | u in later && v in later && id in later[u].todo && id in later[v].todo ensures u == v {
      assert u != w ==> HeldBy(workers, u, id);
      assert v != w ==> HeldBy(workers, v, id);
    }
  }

  lemma ClaimedApart(s: State, act: Action, t: State)
    requires act.Claim? && WorkersOk(s) && NoSharing(s.workers) && Step(s, act) == Some(t)
    ensures NoSharing(t.workers)
  {
    var wk := t.workers[act.w];
    assert wk.todo.Keys == act.ids && t.workers == s.workers[act.w := wk] && act.w !in s.workers;
    assert forall id :: id in act.ids ==> id in s.jobs && s.jobs[id].status != Running;
    hide Step, WorkersOk, NoSharing;
    forall v, id | HeldBy(s.workers, v, id) ensures id !in wk.todo {
      if id in act.ids {
        NotHeld(s, id, v);
      }
    }
    WorkerJoins(s.workers, act.w, wk);
  }

  lemma ClaimedRunning(s: State, act: Action, t: State)
    requires act.Claim? && RunningHeld(s) && Step(s, act) == Some(t)
    ensures RunningHeld(t)
  {
    assert act.w in t.workers && t.workers[act.w].todo.Keys == act.ids && act.w !in s.workers;
    assert forall w :: w in s.workers ==> w in t.workers && t.workers[w] == s.workers[w];
    assert forall id :: id in t.jobs && t.jobs[id].status == Running && id !in act.ids ==> id in s.jobs && s.jobs[id].status == Running;
    hide Step;
    forall id | id in t.jobs && t.jobs[id].status == Running ensures exists w :: HeldBy(t.workers, w, id) {
      if id in act.ids {
        assert HeldBy(t.workers, act.w, id);
      } else {
        var w :| HeldBy(s.workers, w, id);
        assert HeldBy(t.workers, w, id);
      }
    }
  }

  /** One worker's statement about the one job it is busy with. */
  ghost predicate OneJob(s: State, w: WorkerId, id: Id, j: Job, wk: Worker) {
    && w in s.workers && s.workers[w].fate == AtWork && id in s.workers[w].todo && id in s.jobs
    && j.dedupe == s.jobs[id].dedupe && StartsOk(j) && CountsOk(wk)
    && (s.workers[w].phase == Idle || s.workers[w].phase.id == id) && (wk.phase == Idle || wk.phase.id == id)
    && ((wk.todo == s.workers[w].todo && HeldOk(s.jobs[id := j], wk, id)) || (wk.todo == s.workers[w].todo - {id} && j.status != Running))
  }

  lemma OneJobHolds(s: State, w: WorkerId, id: Id, j: Job, wk: Worker)
    requires WorkersOk(s) && NoSharing(s.workers) && OneJob(s, w, id, j, wk)
    ensures WorkersOk(s.(jobs := s.jobs[id := j], workers := s.workers[w := wk]))
  {
    var t := s.(jobs := s.jobs[id := j], workers := s.workers[w := wk]);
    forall v, k | v in t.workers && k in t.workers[v].todo ensures HeldOk(t.jobs, t.workers[v], k) {
      if k != id || v != w {
        assert HeldOk(s.jobs, s.workers[v], k);
      }
    }
  }

  lemma OneJobApart(s: State, w: WorkerId, id: Id, j: Job, wk: Worker)
    requires NoSharing(s.workers) && RunningHeld(s) && OneJob(s, w, id, j, wk)
    ensures var t := s.(jobs := s.jobs[id := j], workers := s.workers[w := wk]);
      NoSharing(t.workers) && RunningHeld(t)
  {
    var t := s.(jobs := s.jobs[id := j], workers := s.workers[w := wk]);
    hide StartsOk, HeldOk, CountsOk;
    forall k | k in t.jobs && t.jobs[k].status == Running ensures exists v :: HeldBy(t.workers, v, k) {
      if k == id {
        assert HeldBy(t.workers, w, id);
      } else {
        var v :| HeldBy(s.workers, v, k);
        assert HeldBy(t.workers, v, k);
      }
    }
  }

  lemma OneJobJobs(s: State, w: WorkerId, id: Id, j: Job, wk: Worker)
    requires JobsOk(s.jobs) && DedupeOk(s.jobs) && OneJob(s, w, id, j, wk)
    ensures JobsOk(s.jobs[id := j]) && DedupeOk(s.jobs[id := j])
  {
    hide StartsOk, HeldOk, CountsOk;
  }

  lemma OneJobOk(s: State, w: WorkerId, id: Id, j: Job, wk: Worker)
    requires Inv(s) && OneJob(s, w, id, j, wk)
    ensures Inv(s.(jobs := s.jobs[id := j], workers := s.workers[w := wk]))
  {
    hide WorkersOk, NoSharing, RunningHeld, JobsOk, DedupeOk, OneJob;
    OneJobHolds(s, w, id, j, wk);
    OneJobApart(s, w, id, j, wk);
    OneJobJobs(s, w, id, j, wk);
  }

  /** What a worker's statement does to its job and to itself. */
  lemma WorkerShape(s: State, act: Action, t: State)
    requires (act.Start? || act.WriteSuccess? || act.WriteFailure?) && Step(s, act) == Some(t)
    ensures act.w in s.workers && s.workers[act.w].fate == AtWork
    ensures act.Start? == (s.workers[act.w].phase == Idle)
    ensures var wk := s.workers[act.w];
      var id := if act.Start? then act.id else wk.phase.id;
      && id in wk.todo && id in s.jobs && id in t.jobs && act.w in t.workers
      && t == s.(jobs := s.jobs[id := t.jobs[id]], workers := s.workers[act.w := t.workers[act.w]])
      && OneStatement(s.jobs[id], wk, id, t.jobs[id], t.workers[act.w], act, s.now)
  {
    hide Success, Failure, CountFailure, Begin;
    assert forall id :: id in s.jobs ==> s.jobs[id := s.jobs[id]] == s.jobs;
  }

  predicate OneStatement(j: Job, wk: Worker, id: Id, k: Job, wl: Worker, act: Action, now: int)
    requires id in wk.todo
  {
    match act
    case Start(_, _, ok) => k == j.(starts := j.starts + 1) && wl == Begin(wk, id, ok)
    case WriteSuccess(_, throws) =>
      wk.phase == Ran(id)
      && if throws then k == j && wl == wk.(phase := Threw(id), thrown := wk.thrown + 1)
         else k == Success(j, wk.todo[id]) && wl == wk.(phase := Idle, todo := wk.todo - {id})
    case WriteFailure(_, throws) =>
      var counted := CountFailure(wk, wk.todo[id]);
      wk.phase == Threw(id)
      && if throws then k == j && wl == counted.(phase := Idle, fate := Aborted)
         else k == Failure(j, wk.todo[id], now) && wl == counted.(phase := Idle, todo := wk.todo - {id})
    case _ => false
  }

  lemma StatementCounts(j: Job, wk: Worker, id: Id, k: Job, wl: Worker, act: Action, now: int)
    requires id in wk.todo && OneStatement(j, wk, id, k, wl, act, now) && CountsOk(wk) && (act.Start? ==> wk.phase == Idle) && wk.fate == AtWork
    ensures CountsOk(wl) && (wl.phase == Idle || wl.phase.id == id)
  {
  }

  lemma StatementStarts(jobs: map<Id, Job>, wk: Worker, id: Id, k: Job, wl: Worker, act: Action, now: int)
    requires id in wk.todo && HeldOk(jobs, wk, id) && OneStatement(jobs[id], wk, id, k, wl, act, now)
    requires StartsOk(jobs[id]) && (act.Start? ==> wk.phase == Idle) && wk.fate == AtWork
    ensures StartsOk(k) && k.dedupe == jobs[id].dedupe
    ensures (wl.todo == wk.todo && HeldOk(jobs[id := k], wl, id)) || (wl.todo == wk.todo - {id} && k.status != Running)
  {
  }

  lemma WorkerOk(s: State, act: Action, t: State)
    requires (act.Start? || act.WriteSuccess? || act.WriteFailure?) && Inv(s) && Step(s, act) == Some(t)
    ensures Inv(t)
  {
    WorkerShape(s, act, t);
    var wk, wl := s.workers[act.w], t.workers[act.w];
    var id := if act.Start? then act.id else wk.phase.id;
    assert CountsOk(wk) && HeldOk(s.jobs, wk, id) && StartsOk(s.jobs[id]);
    hide Step, WorkersOk, NoSharing, RunningHeld, JobsOk, DedupeOk, OneStatement, StartsOk, HeldOk;
    StatementCounts(s.jobs[id], wk, id, t.jobs[id], wl, act, s.now);
    StatementStarts(s.jobs, wk, id, t.jobs[id], wl, act, s.now);
    assert wk.phase == Idle || wk.phase.id == id;
    OneJobOk(s, act.w, id, t.jobs[id], wl);
  }

  lemma RetryOk(s: State, act: Action, t: State)
    requires act.Retry? && Inv(s) && Step(s, act) == Some(t)
    ensures Inv(t)
  {
    if t != s {
      assert t.jobs[act.id].dedupe == s.jobs[act.id].dedupe && StartsOk(s.jobs[act.id]) && StartsOk(t.jobs[act.id]);
      assert t == s.(jobs := s.jobs[act.id := t.jobs[act.id]]) && t.jobs[act.id].status == Pending;
      hide Step, StartsOk, HeldOk;
      SameHolds(s, t);
    }
  }

  /** A batch that is killed keeps what it holds. */
  lemma CrashOk(s: State, act: Action, t: State)
    requires act.Crash? && Inv(s) && Step(s, act) == Some(t)
    ensures Inv(t)
  {
    assert t == s.(workers := s.workers[act.w := s.workers[act.w].(fate := Killed)]) && s.workers[act.w].fate == AtWork;
    hide Step, DedupeOk, JobsOk;
    forall w, id | w in t.workers && id in t.workers[w].todo ensures HeldOk(t.jobs, t.workers[w], id) {
      assert HeldOk(s.jobs, s.workers[w], id);
    }
    forall id | id in t.jobs && t.jobs[id].status == Running ensures exists w :: HeldBy(t.workers, w, id) {
      var w :| HeldBy(s.workers, w, id);
      assert HeldBy(t.workers, w, id);
    }
  }

  lemma StepOk(s: State, act: Action, t: State)
    requires Inv(s) && Step(s, act) == Some(t)
    ensures Inv(t)
  {
    match act
    case Schedule(_, _, _, _) => ScheduleOk(s, act, t);
    case Claim(_, _, _) =>
      ClaimedHolds(s, act, t);
      ClaimedJobs(s, act, t);
      ClaimedApart(s, act, t);
      ClaimedRunning(s, act, t);
    case Start(_, _, _) => WorkerOk(s, act, t);
    case WriteSuccess(_, _) => WorkerOk(s, act, t);
    case WriteFailure(_, _) => WorkerOk(s, act, t);
    case Crash(_) => CrashOk(s, act, t);
    case Retry(_) => RetryOk(s, act, t);
    case Tick(_) => assert t == s.(now := t.now);
  }

  lemma {:induction false} TraceInv(trace: seq<State>, acts: seq<Action>, now: int, i: nat)
    requires IsTrace(trace, acts, now) && i < |trace|
    ensures Inv(trace[i])
    decreases i
  {
    if i > 0 {
      TraceInv(trace, acts, now, i - 1);
      hide Inv, Step;
      assert Step(trace[i - 1], acts[i - 1]) == Some(trace[i]);
      StepOk(trace[i - 1], acts[i - 1], trace[i]);
    }
  }

  // ---------------------------------------------------------------- main results

  /** No job is ever held by two workers, and a job is running exactly while one holds it. */
  lemma HeldOnce(trace: seq<State>, acts: seq<Action>, now: int, i: nat, w: WorkerId, v: WorkerId, id: Id)
    requires IsTrace(trace, acts, now) && i < |trace|
    ensures HeldBy(trace[i].workers, w, id) && HeldBy(trace[i].workers, v, id) ==> w == v
    ensures id in trace[i].jobs ==> (trace[i].jobs[id].status == Running <==> exists u :: HeldBy(trace[i].workers, u, id))
  {
    TraceInv(trace, acts, now, i);
    var s := trace[i];
    if u :| HeldBy(s.workers, u, id) {
      assert HeldOk(s.jobs, s.workers[u], id);
    }
  }

  /** Handler calls for a job number at most its maximum, one at least, plus one for each
      time it was revived from the dead letters. */
  lemma StartsBounded(trace: seq<State>, acts: seq<Action>, now: int, i: nat, id: Id)
    requires IsTrace(trace, acts, now) && i < |trace| && id in trace[i].jobs
    ensures var j := trace[i].jobs[id];
      j.starts <= (if j.maxAttempts < 1 then 1 else j.maxAttempts) + j.retries
  {
    TraceInv(trace, acts, now, i);
    assert StartsOk(trace[i].jobs[id]);
  }

  /** A job that failed last time is buried exactly when its attempts are used up. */
  lemma BuriedIffExhausted(trace: seq<State>, acts: seq<Action>, now: int, i: nat, id: Id)
    requires IsTrace(trace, acts, now) && i < |trace| && id in trace[i].jobs && trace[i].jobs[id].status in {Failed, Dead}
    ensures trace[i].jobs[id].status == Dead <==> trace[i].jobs[id].attempts >= trace[i].jobs[id].maxAttempts
  {
    TraceInv(trace, acts, now, i);
    assert StartsOk(trace[i].jobs[id]);
  }

  /** A dedupe key names at most one job, at every moment. */
  lemma DedupeIsUnique(trace: seq<State>, acts: seq<Action>, now: int, i: nat, a: Id, b: Id)
    requires IsTrace(trace, acts, now) && i < |trace| && a in trace[i].jobs && b in trace[i].jobs
    requires trace[i].jobs[a].dedupe.Some? && trace[i].jobs[a].dedupe == trace[i].jobs[b].dedupe
    ensures a == b
  {
    TraceInv(trace, acts, now, i);
  }

  lemma SucceededStep(s: State, act: Action, t: State, id: Id)
    requires Inv(s) && Step(s, act) == Some(t) && id in s.jobs && s.jobs[id].status == Succeeded
    ensures id in t.jobs && t.jobs[id] == s.jobs[id]
  {
    if act.Start? || act.WriteSuccess? || act.WriteFailure? {
      WorkerShape(s, act, t);
      hide Step;
      NotHeld(s, id, act.w);
    }
  }

  /** A job recorded as succeeded is never claimed, started or changed again. */
  lemma {:induction false} SucceededIsFinal(trace: seq<State>, acts: seq<Action>, now: int, i: nat, j: nat, id: Id)
    requires IsTrace(trace, acts, now) && i <= j < |trace| && id in trace[i].jobs && trace[i].jobs[id].status == Succeeded
    ensures id in trace[j].jobs && trace[j].jobs[id] == trace[i].jobs[id]
    decreases j
  {
    if i < j {
      SucceededIsFinal(trace, acts, now, i, j - 1, id);
      TraceInv(trace, acts, now, j - 1);
      hide Inv, Step;
      assert Step(trace[j - 1], acts[j - 1]) == Some(trace[j]);
      SucceededStep(trace[j - 1], acts[j - 1], trace[j], id);
    }
  }

  /** A worker between jobs has counted each run once when none of its success updates
      failed, and only then. */
  lemma CountsAgreeIff(trace: seq<State>, acts: seq<Action>, now: int, i: nat, w: WorkerId)
    requires IsTrace(trace, acts, now) && i < |trace| && w in trace[i].workers && trace[i].workers[w].phase == Idle
    ensures var wk := trace[i].workers[w];
      wk.ran == wk.succeeded + wk.failed + wk.dead <==> wk.thrown == 0
  {
    TraceInv(trace, acts, now, i);
    assert CountsOk(trace[i].workers[w]);
  }

  // ---------------------------------------------------------------- jobs that stay running

  /** Everything but a statement of a batch leaves running jobs and stopped batches alone. */
  lemma OtherShape(s: State, act: Action, t: State, w: WorkerId, id: Id)
    requires !(act.Start? || act.WriteSuccess? || act.WriteFailure?) && Step(s, act) == Some(t)
    ensures w in s.workers && s.workers[w].fate != AtWork ==> w in t.workers && t.workers[w] == s.workers[w]
    ensures id in s.jobs && s.jobs[id].status == Running ==> id in t.jobs && t.jobs[id] == s.jobs[id]
  {
    hide DedupeTaken;
  }

  /** A running job left over in a batch that was aborted or killed. */
  predicate Lost(s: State, w: WorkerId, id: Id) {
    HeldBy(s.workers, w, id) && s.workers[w].fate != AtWork && id in s.jobs && s.jobs[id].status == Running
  }

  lemma LostWhenStopped(s: State, w: WorkerId, id: Id)
    requires WorkersOk(s) && HeldBy(s.workers, w, id) && s.workers[w].fate != AtWork
    ensures Lost(s, w, id)
  {
    assert HeldOk(s.jobs, s.workers[w], id);
  }

  lemma LostStep(s: State, act: Action, t: State, w: WorkerId, id: Id)
    requires Inv(s) && Step(s, act) == Some(t) && Lost(s, w, id)
    ensures Lost(t, w, id) && t.jobs[id] == s.jobs[id]
  {
    assert forall v :: HeldBy(s.workers, v, id) ==> v == w;
    hide Step, WorkersOk, RunningHeld, JobsOk, DedupeOk, NoSharing;
    if act.Start? || act.WriteSuccess? || act.WriteFailure? {
      WorkerShape(s, act, t);
      hide OneStatement;
      assert act.w != w && !HeldBy(s.workers, act.w, id);
    } else {
      OtherShape(s, act, t, w, id);
    }
  }

  /** The jobs that an aborted or killed batch had left stay running for ever: no worker,
      retry or later claim reaches them. */
  lemma {:induction false} AbandonedForever(trace: seq<State>, acts: seq<Action>, now: int, i: nat, j: nat, w: WorkerId, id: Id)
    requires IsTrace(trace, acts, now) && i <= j < |trace| && HeldBy(trace[i].workers, w, id) && trace[i].workers[w].fate != AtWork
    ensures Lost(trace[i], w, id) && Lost(trace[j], w, id) && trace[j].jobs[id] == trace[i].jobs[id]
    decreases j
  {
    if i == j {
      TraceInv(trace, acts, now, i);
      LostWhenStopped(trace[i], w, id);
    } else {
      AbandonedForever(trace, acts, now, i, j - 1, w, id);
      TraceInv(trace, acts, now, j - 1);
      hide Inv, Step;
      assert Step(trace[j - 1], acts[j - 1]) == Some(trace[j]);
      LostStep(trace[j - 1], acts[j - 1], trace[j], w, id);
    }
  }

  /** Where further statements lead. */
  ghost function Exec(s: State, acts: seq<Action>): Option<State>
    decreases |acts|
  {
    if acts == [] then Some(s)
    else
      match Step(s, acts[0])
      case None => None
      case Some(t) => Exec(t, acts[1..])
  }

  predicate Recorded(s: State, id: Id) { id in s.jobs && s.jobs[id].status in {Succeeded, Failed, Dead} }

  /** Some continuation records how the job went. */
  ghost predicate Recordable(s: State, id: Id) { exists acts :: Exec(s, acts).Some? && Recorded(Exec(s, acts).value, id) }

  lemma {:induction false} LostAfter(s: State, acts: seq<Action>, w: WorkerId, id: Id)
    requires Inv(s) && Lost(s, w, id) && Exec(s, acts).Some?
    ensures Lost(Exec(s, acts).value, w, id)
    decreases |acts|
  {
    if acts != [] {
      var t := Step(s, acts[0]).value;
      StepOk(s, acts[0], t);
      LostStep(s, acts[0], t, w, id);
      hide Inv, Lost, Step;
      LostAfter(t, acts[1..], w, id);
    }
  }

  /** A batch between jobs can take any job it holds to its success. */
  lemma IdleRecords(s: State, w: WorkerId, id: Id)
    requires WorkersOk(s) && HeldBy(s.workers, w, id) && s.workers[w].fate == AtWork && s.workers[w].phase == Idle
    ensures Recordable(s, id)
  {
    assert HeldOk(s.jobs, s.workers[w], id);
    var t := Step(s, Start(w, id, true)).value;
    var u := Step(t, WriteSuccess(w, false)).value;
    var acts := [Start(w, id, true), WriteSuccess(w, false)];
    hide WorkersOk;
    assert acts[1..] == [WriteSuccess(w, false)] && acts[1..][1..] == [];
    assert Exec(u, []) == Some(u);
    assert Exec(t, acts[1..]) == Some(u);
    assert Exec(s, acts) == Some(u) && Recorded(u, id);
  }

  /** The statement that ends the job a batch is busy with. */
  lemma BusyRecords(s: State, w: WorkerId) returns (act: Action, t: State)
    requires Inv(s) && w in s.workers && s.workers[w].fate == AtWork && s.workers[w].phase != Idle
    ensures Step(s, act) == Some(t) && Recorded(t, s.workers[w].phase.id)
    ensures w in t.workers && t.workers[w].fate == AtWork && t.workers[w].phase == Idle
    ensures t.workers[w].todo == s.workers[w].todo - {s.workers[w].phase.id}
  {
    var k := s.workers[w].phase.id;
    assert k in s.workers[w].todo && HeldOk(s.jobs, s.workers[w], k);
    act := if s.workers[w].phase.Ran? then WriteSuccess(w, false) else WriteFailure(w, false);
    t := Step(s, act).value;
  }

  lemma HolderRecords(s: State, w: WorkerId, id: Id)
    requires Inv(s) && HeldBy(s.workers, w, id) && s.workers[w].fate == AtWork
    ensures Recordable(s, id)
  {
    if s.workers[w].phase == Idle {
      IdleRecords(s, w, id);
    } else {
      var act, t := BusyRecords(s, w);
      StepOk(s, act, t);
      hide Inv, Recorded, Step;
      if s.workers[w].phase.id == id {
        assert [act][1..] == [] && Exec(t, []) == Some(t);
        assert Exec(s, [act]) == Some(t);
      } else {
        assert HeldBy(t.workers, w, id);
        assert WorkersOk(t) by { InvWorkers(t); }
        IdleRecords(t, w, id);
        var acts :| Exec(t, acts).Some? && Recorded(Exec(t, acts).value, id);
        assert ([act] + acts)[1..] == acts;
        assert Exec(s, [act] + acts) == Exec(t, acts);
      }
    }
  }

  lemma InvWorkers(s: State)
    requires Inv(s)
    ensures WorkersOk(s)
  {
  }

  /** At every moment of every run, how a claimed job went can still be recorded if and only
      if the batch that holds it was neither aborted nor killed. */
  lemma RecordableIff(trace: seq<State>, acts: seq<Action>, now: int, i: nat, w: WorkerId, id: Id)
    requires IsTrace(trace, acts, now) && i < |trace| && HeldBy(trace[i].workers, w, id)
    ensures Recordable(trace[i], id) <==> trace[i].workers[w].fate == AtWork
  {
    TraceInv(trace, acts, now, i);
    HeldRecordableIff(trace[i], w, id);
  }

  lemma HeldRecordableIff(s: State, w: WorkerId, id: Id)
    requires Inv(s) && HeldBy(s.workers, w, id)
    ensures Recordable(s, id) <==> s.workers[w].fate == AtWork
  {
    if s.workers[w].fate == AtWork {
      HolderRecords(s, w, id);
    } else {
      LostWhenStopped(s, w, id);
      forall acts | Exec(s, acts).Some? ensures !Recorded(Exec(s, acts).value, id) {
        LostAfter(s, acts, w, id);
      }
    }
  }

  /** Runs in which no failure update throws, and in which no batch is killed. */
  ghost predicate Permitted(recording: bool, living: bool, acts: seq<Action>) {
    forall i :: 0 <= i < |acts| ==>
      (recording ==> !(acts[i].WriteFailure? && acts[i].throws)) && (living ==> !acts[i].Crash?)
  }

  lemma NobodyStops(s: State, act: Action, t: State)
    requires Step(s, act) == Some(t) && !act.Crash? && !(act.WriteFailure? && act.throws)
    requires forall w :: w in s.workers ==> s.workers[w].fate == AtWork
    ensures forall w :: w in t.workers ==> t.workers[w].fate == AtWork
  {
    hide DedupeTaken, IsBatch, Success, Failure, Backoff, Exhausted, ClaimAll;
  }

  lemma {:induction false} AllAtWork(trace: seq<State>, acts: seq<Action>, now: int, i: nat)
    requires IsTrace(trace, acts, now) && Permitted(true, true, acts) && i < |trace|
    ensures forall w :: w in trace[i].workers ==> trace[i].workers[w].fate == AtWork
    decreases i
  {
    if i > 0 {
      AllAtWork(trace, acts, now, i - 1);
      hide Step;
      assert Step(trace[i - 1], acts[i - 1]) == Some(trace[i]);
      NobodyStops(trace[i - 1], acts[i - 1], trace[i]);
    }
  }

  ghost predicate AllRecordable(s: State) {
    forall id :: id in s.jobs && s.jobs[id].status == Running ==> Recordable(s, id)
  }

  lemma StrictRun(trace: seq<State>, acts: seq<Action>, now: int, i: nat)
    requires IsTrace(trace, acts, now) && Permitted(true, true, acts) && i < |trace|
    ensures AllRecordable(trace[i])
  {
    TraceInv(trace, acts, now, i);
    AllAtWork(trace, acts, now, i);
    forall id | id in trace[i].jobs && trace[i].jobs[id].status == Running ensures Recordable(trace[i], id) {
      var w :| HeldBy(trace[i].workers, w, id);
      HeldRecordableIff(trace[i], w, id);
    }
  }

  lemma PermittedMeans(recording: bool, living: bool, acts: seq<Action>)
    ensures Permitted(recording, living, acts) <==>
      && (recording ==> forall k :: 0 <= k < |acts| && acts[k].WriteFailure? ==> !acts[k].throws)
      && (living ==> forall k :: 0 <= k < |acts| ==> !acts[k].Crash?)
  {
  }

  /** Every running job of every reachable state can still be recorded exactly when failure
      updates do not throw and workers are not killed in mid-batch. */
  lemma NothingIsLostIff(recording: bool, living: bool)
    ensures (forall trace: seq<State>, acts: seq<Action>, now, i, id ::
        && IsTrace(trace, acts, now)
        && (recording ==> forall k :: 0 <= k < |acts| && acts[k].WriteFailure? ==> !acts[k].throws)
        && (living ==> forall k :: 0 <= k < |acts| ==> !acts[k].Crash?)
        && 0 <= i < |trace| && id in trace[i].jobs && trace[i].jobs[id].status == Running
        ==> Recordable(trace[i], id))
      <==> recording && living
  {
    if recording && living {
      forall trace: seq<State>, acts: seq<Action>, now, i, id |
        && IsTrace(trace, acts, now)
        && (forall k :: 0 <= k < |acts| && acts[k].WriteFailure? ==> !acts[k].throws) && (forall k :: 0 <= k < |acts| ==> !acts[k].Crash?)
        && 0 <= i < |trace| && id in trace[i].jobs && trace[i].jobs[id].status == Running
        ensures Recordable(trace[i], id)
      {
        PermittedMeans(true, true, acts);
        StrictRun(trace, acts, now, i);
      }
    } else {
      var trace, acts;
      if recording {
        trace, acts := WorkerKilled();
      } else {
        trace, acts := BatchAbandoned();
      }
      assert Permitted(recording, living, acts);
      PermittedMeans(recording, living, acts);
      RecordableIff(trace, acts, 0, |acts|, 0, "j");
      assert !Recordable(trace[|acts|], "j");
    }
  }

  // ---------------------------------------------------------------- the failures happen

  lemma Extend(trace: seq<State>, acts: seq<Action>, now: int, act: Action, t: State)
    requires IsTrace(trace, acts, now) && Step(trace[|acts|], act) == Some(t)
    ensures IsTrace(trace + [t], acts + [act], now)
  {
    hide Step;
    var tr, ac := trace + [t], acts + [act];
    forall i | 0 <= i < |ac| ensures Step(tr[i], ac[i]) == Some(tr[i + 1]) {
      if i < |acts| {
        assert Step(trace[i], acts[i]) == Some(trace[i + 1]);
      }
    }
  }

  const ONE := Job(None, Pending, 0, 5, 0, 0, 0)

  /** One job, claimed by worker 0, whose handler is done. */
  function Started1(ok: bool): State {
    State(map["j" := ONE.(status := Running, starts := 1)],
          map[0 := Begin(Worker(map["j" := Claimed(0, 5)], Idle, AtWork, 0, 0, 0, 0, 0), "j", ok)], 0)
  }

  lemma OneStarted(ok: bool) returns (trace: seq<State>, acts: seq<Action>)
    ensures IsTrace(trace, acts, 0) && trace[|acts|] == Started1(ok) && Permitted(true, true, acts)
  {
    var s0 := State(map[], map[], 0);
    var s1 := State(map["j" := ONE], map[], 0);
    var wk := Worker(map["j" := Claimed(0, 5)], Idle, AtWork, 0, 0, 0, 0, 0);
    var s2 := State(map["j" := ONE.(status := Running)], map[0 := wk], 0);
    assert Step(s0, Schedule("j", None, 0, 5)) == Some(s1);
    Extend([s0], [], 0, Schedule("j", None, 0, 5), s1);
    assert IsBatch(s1, {"j"}, 20);
    assert ClaimAll(s1.jobs, {"j"}) == s2.jobs;
    var claimed := Step(s1, Claim(0, {"j"}, 20)).value;
    assert 0 in claimed.workers && claimed.workers[0].todo == wk.todo;
    assert claimed.workers == s2.workers;
    Extend([s0] + [s1], [] + [Schedule("j", None, 0, 5)], 0, Claim(0, {"j"}, 20), s2);
    assert Step(s2, Start(0, "j", ok)).value.jobs == Started1(ok).jobs;
    assert Step(s2, Start(0, "j", ok)).value.workers == Started1(ok).workers;
    Extend([s0] + [s1] + [s2], [] + [Schedule("j", None, 0, 5)] + [Claim(0, {"j"}, 20)], 0, Start(0, "j", ok), Started1(ok));
    trace := [s0] + [s1] + [s2] + [Started1(ok)];
    acts := [] + [Schedule("j", None, 0, 5)] + [Claim(0, {"j"}, 20)] + [Start(0, "j", ok)];
  }

  /** A success whose update throws: one run, counted as a success and as a failure. */
  lemma CountedTwice() returns (trace: seq<State>, acts: seq<Action>)
    ensures IsTrace(trace, acts, 0) && 0 in trace[|acts|].workers
    ensures var wk := trace[|acts|].workers[0];
      wk.phase == Idle && wk.todo == map[] && wk.ran == 1 && wk.succeeded == 1 && wk.failed == 1 && wk.dead == 0
  {
    trace, acts := OneStarted(true);
    var s3 := Started1(true);
    var s4 := Step(s3, WriteSuccess(0, true)).value;
    Extend(trace, acts, 0, WriteSuccess(0, true), s4);
    var s5 := Step(s4, WriteFailure(0, false)).value;
    Extend(trace + [s4], acts + [WriteSuccess(0, true)], 0, WriteFailure(0, false), s5);
    trace, acts := trace + [s4] + [s5], acts + [WriteSuccess(0, true)] + [WriteFailure(0, false)];
    assert s5.workers[0].todo == map[];
  }

  /** A failure whose update throws: the batch is aborted and still holds the job. */
  lemma BatchAbandoned() returns (trace: seq<State>, acts: seq<Action>)
    ensures IsTrace(trace, acts, 0) && Lost(trace[|acts|], 0, "j") && Permitted(false, true, acts)
  {
    trace, acts := OneStarted(false);
    var s4 := Step(Started1(false), WriteFailure(0, true)).value;
    Extend(trace, acts, 0, WriteFailure(0, true), s4);
    trace, acts := trace + [s4], acts + [WriteFailure(0, true)];
  }

  /** A worker killed while its handler runs: no update throws, and the job is lost too. */
  lemma WorkerKilled() returns (trace: seq<State>, acts: seq<Action>)
    ensures IsTrace(trace, acts, 0) && Lost(trace[|acts|], 0, "j") && Permitted(true, false, acts)
  {
    trace, acts := OneStarted(true);
    var s4 := Step(Started1(true), Crash(0)).value;
    Extend(trace, acts, 0, Crash(0), s4);
    trace, acts := trace + [s4], acts + [Crash(0)];
  }

  // ---------------------------------------------------------------- one batch, run by itself

  /** How a job of the batch turns out: whether its handler throws, and whether the update
      that records a success, or a failure, does. */
  datatype Course = Course(handlerThrows: bool, successThrows: bool, failureThrows: bool)

  /** A claimed row and what becomes of it. */
  datatype Turn = Turn(id: Id, claimed: Claimed, course: Course)

  predicate Fails(c: Course) { c.handlerThrows || c.successThrows }

  predicate Aborts(c: Course) { Fails(c) && c.failureThrows }

  /** What the row of a job ends as. */
  function Outcome(j: Job, turn: Turn, now: int): Job {
    var started := j.(starts := j.starts + 1);
    if !Fails(turn.course) then Success(started, turn.claimed)
    else if turn.course.failureThrows then started
    else Failure(started, turn.claimed, now)
  }

  /** A claimed batch: different rows of the table. */
  ghost predicate IsClaim(batch: seq<Turn>, jobs: map<Id, Job>) {
    && (forall i, k :: 0 <= i < k < |batch| ==> batch[i].id != batch[k].id)
    && (forall i :: 0 <= i < |batch| ==> batch[i].id in jobs)
  }

  /** No update recording a success fails. */
  ghost predicate SuccessesRecorded(batch: seq<Turn>) {
    forall i :: 0 <= i < |batch| ==> batch[i].course.handlerThrows || !batch[i].course.successThrows
  }

  /** How many jobs of a batch have a handler that returns. */
  function CountFine(batch: seq<Turn>): nat {
    if batch == [] then 0 else CountFine(batch[..|batch| - 1]) + (if batch[|batch| - 1].course.handlerThrows then 0 else 1)
  }

  /** How many jobs of a batch end as failures. */
  function CountWrong(batch: seq<Turn>): nat {
    if batch == [] then 0 else CountWrong(batch[..|batch| - 1]) + (if Fails(batch[|batch| - 1].course) then 1 else 0)
  }

  predicate Buries(turn: Turn) { Fails(turn.course) && Exhausted(turn.claimed) }

  /** How many of these used up their attempts. */
  function CountDead(batch: seq<Turn>): nat {
    if batch == [] then 0 else CountDead(batch[..|batch| - 1]) + (if Buries(batch[|batch| - 1]) then 1 else 0)
  }

  /** The counters after the first n turns. */
  ghost predicate Counted(batch: seq<Turn>, n: nat, succeeded: nat, failed: nat, dead: nat)
    requires n <= |batch|
  {
    succeeded == CountFine(batch[..n]) && failed + dead == CountWrong(batch[..n]) && dead == CountDead(batch[..n])
  }

  lemma CountNext(batch: seq<Turn>, n: nat, succeeded: nat, failed: nat, dead: nat)
    requires n < |batch| && Counted(batch, n, succeeded, failed, dead)
    ensures Counted(batch, n + 1, succeeded + (if batch[n].course.handlerThrows then 0 else 1),
                    failed + (if Fails(batch[n].course) && !Exhausted(batch[n].claimed) then 1 else 0),
                    dead + (if Fails(batch[n].course) && Exhausted(batch[n].claimed) then 1 else 0))
  {
    assert batch[..n + 1][..n] == batch[..n];
  }

  predicate HandlerThrew(t: Turn) { t.course.handlerThrows }

  /** The counts are the numbers of such turns. */
  lemma {:induction false} CountsAreTurns(batch: seq<Turn>)
    ensures CountFine(batch) == |set i | 0 <= i < |batch| && !HandlerThrew(batch[i])|
    ensures CountDead(batch) == |set i | 0 <= i < |batch| && Buries(batch[i])|
    ensures CountWrong(batch) == |set i | 0 <= i < |batch| && Fails(batch[i].course)|
    ensures CountWrong(batch) - CountDead(batch) == |set i | 0 <= i < |batch| && Fails(batch[i].course) && !Buries(batch[i])|
  {
    if batch != [] {
      var n := |batch| - 1;
      var front := batch[..n];
      CountsAreTurns(front);
      hide Fails, Buries, HandlerThrew;
      SetNext((set i | 0 <= i < n && !HandlerThrew(front[i])), (set i | 0 <= i < n + 1 && !HandlerThrew(batch[i])), n);
      SetNext((set i | 0 <= i < n && Buries(front[i])), (set i | 0 <= i < n + 1 && Buries(batch[i])), n);
      SetNext((set i | 0 <= i < n && Fails(front[i].course)), (set i | 0 <= i < n + 1 && Fails(batch[i].course)), n);
      SetNext((set i | 0 <= i < n && Fails(front[i].course) && !Buries(front[i])),
              (set i | 0 <= i < n + 1 && Fails(batch[i].course) && !Buries(batch[i])), n);
    }
  }

  lemma SetNext(front: set<int>, all: set<int>, n: nat)
    requires n !in front && (forall i :: i in all && i != n ==> i in front) && (forall i :: i in front ==> i in all)
    ensures |all| == |front| + (if n in all then 1 else 0)
  {
    forall i ensures i in all <==> i in front || (i == n && n in all) {
    }
    if n in all {
      assert all == front + {n};
    } else {
      assert all == front;
    }
  }

  class Runner {
    var jobs: map<Id, Job>

    constructor (jobs: map<Id, Job>)
      ensures this.jobs == jobs
    {
      this.jobs := jobs;
    }

    /** One turn of the loop: the handler, then the update that records how it went. The
        success counter moves before the success is recorded. */
    method RunOne(turn: Turn, now: int) returns (succeeded: nat, failed: nat, dead: nat, aborted: bool)
      requires turn.id in jobs
      modifies this
      ensures jobs == old(jobs)[turn.id := Outcome(old(jobs)[turn.id], turn, now)] && aborted == Aborts(turn.course)
      ensures succeeded == (if turn.course.handlerThrows then 0 else 1)
      ensures failed == (if Fails(turn.course) && !Exhausted(turn.claimed) then 1 else 0)
      ensures dead == (if Fails(turn.course) && Exhausted(turn.claimed) then 1 else 0)
    {
      succeeded, failed, dead := 0, 0, 0;
      var id := turn.id;
      jobs := jobs[id := jobs[id].(starts := jobs[id].starts + 1)];
      var threw := turn.course.handlerThrows;
      if !threw {
        succeeded := 1;
        threw := turn.course.successThrows;
        if !threw {
          jobs := jobs[id := Success(jobs[id], turn.claimed)];
        }
      }
      if threw {
        if Exhausted(turn.claimed) {
          dead := 1;
        } else {
          failed := 1;
        }
        if turn.course.failureThrows {
          return succeeded, failed, dead, true;
        }
        jobs := jobs[id := Failure(jobs[id], turn.claimed, now)];
      }
      return succeeded, failed, dead, false;
    }

    /** The loop of runDueJobs over a claimed batch. It stops early only when recording a
        failure fails, and then the rows it had left stay as the claim made them. */
    method RunBatch(batch: seq<Turn>, now: int) returns (ran: nat, succeeded: nat, failed: nat, dead: nat, completed: bool)
      requires IsClaim(batch, jobs)
      modifies this
      ensures ran <= |batch| && jobs.Keys == old(jobs).Keys
      ensures forall i :: 0 <= i < ran ==> jobs[batch[i].id] == Outcome(old(jobs)[batch[i].id], batch[i], now)
      ensures forall id :: id in jobs && (forall i :: 0 <= i < ran ==> batch[i].id != id) ==> jobs[id] == old(jobs)[id]
      ensures completed ==> ran == |batch| && forall i :: 0 <= i < |batch| ==> !Aborts(batch[i].course)
      ensures !completed ==> ran > 0 && Aborts(batch[ran - 1].course) && forall i :: 0 <= i < ran - 1 ==> !Aborts(batch[i].course)
      ensures Counted(batch, ran, succeeded, failed, dead)
    {
      ran, succeeded, failed, dead, completed := 0, 0, 0, 0, true;
      ghost var before := jobs;
      assert RanOk(before, jobs, batch, now, 0);
      assert Counted(batch, 0, 0, 0, 0);
      hide IsClaim, RanOk, Outcome, Exhausted, Fails, Aborts, SuccessesRecorded, Counted, SoFar, Buries;
      SoFarStart(batch);
      while ran < |batch| && completed
        invariant ran <= |batch| && RanOk(before, jobs, batch, now, ran)
        invariant SoFar(batch, ran, completed) && Counted(batch, ran, succeeded, failed, dead)
      {
        CountNext(batch, ran, succeeded, failed, dead);
        SoFarNext(batch, ran);
        RanNext(before, jobs, batch, now, ran);
        var s, f, d, aborted := RunOne(batch[ran], now);
        ran, succeeded, failed, dead, completed := ran + 1, succeeded + s, failed + f, dead + d, !aborted;
      }
      BatchRan(before, jobs, batch, now, ran, completed);
    }
  }

  /** Where the loop leaves the rows. */
  lemma BatchRan(before: map<Id, Job>, jobs: map<Id, Job>, batch: seq<Turn>, now: int, ran: nat, completed: bool)
    requires ran <= |batch| && RanOk(before, jobs, batch, now, ran) && SoFar(batch, ran, completed) && !(ran < |batch| && completed)
    ensures jobs.Keys == before.Keys
    ensures forall i :: 0 <= i < ran ==> batch[i].id in before && jobs[batch[i].id] == Outcome(before[batch[i].id], batch[i], now)
    ensures forall id :: id in jobs && (forall i :: 0 <= i < ran ==> batch[i].id != id) ==> jobs[id] == before[id]
    ensures completed ==> ran == |batch| && forall i :: 0 <= i < |batch| ==> !Aborts(batch[i].course)
    ensures !completed ==> ran > 0 && Aborts(batch[ran - 1].course) && forall i :: 0 <= i < ran - 1 ==> !Aborts(batch[i].course)
  {
    hide *;
    SoFarEnd(batch, ran, completed);
    RowsRan(before, jobs, batch, now, ran);
  }

  lemma RowsRan(before: map<Id, Job>, jobs: map<Id, Job>, batch: seq<Turn>, now: int, n: nat)
    requires n <= |batch| && RanOk(before, jobs, batch, now, n)
    ensures jobs.Keys == before.Keys
    ensures forall i :: 0 <= i < n ==> batch[i].id in before && jobs[batch[i].id] == Outcome(before[batch[i].id], batch[i], now)
    ensures forall id :: id in jobs && (forall i :: 0 <= i < n ==> batch[i].id != id) ==> jobs[id] == before[id]
  {
    hide Outcome;
    forall id | id in jobs && (forall i :: 0 <= i < n ==> batch[i].id != id) ensures jobs[id] == before[id] {
      if i :| n <= i < |batch| && batch[i].id == id {
        assert jobs[batch[i].id] == before[batch[i].id];
      }
    }
  }

  /** What the counters of a batch say: how many handlers returned, how many jobs failed with
      attempts left and how many without. They add up to the jobs run exactly when every
      success was recorded. */
  lemma BatchCounts(batch: seq<Turn>, n: nat, succeeded: nat, failed: nat, dead: nat)
    requires n <= |batch| && Counted(batch, n, succeeded, failed, dead)
    ensures n == succeeded + failed + dead <==> forall i :: 0 <= i < n ==> batch[i].course.handlerThrows || !batch[i].course.successThrows
    ensures succeeded == |set i | 0 <= i < n && !batch[i].course.handlerThrows|
    ensures dead == |set i | 0 <= i < n && Buries(batch[i])|
    ensures failed == |set i | 0 <= i < n && Fails(batch[i].course) && !Buries(batch[i])|
  {
    var ran := batch[..n];
    CountsOverlap(ran);
    CountsAreTurns(ran);
    hide Fails, Buries, CountFine, CountWrong, CountDead;
    assert (set i | 0 <= i < n && !batch[i].course.handlerThrows) == set i | 0 <= i < |ran| && !HandlerThrew(ran[i]);
    assert (set i | 0 <= i < n && Buries(batch[i])) == set i | 0 <= i < |ran| && Buries(ran[i]);
    assert (set i | 0 <= i < n && Fails(batch[i].course) && !Buries(batch[i]))
      == set i | 0 <= i < |ran| && Fails(ran[i].course) && !Buries(ran[i]);
    assert SuccessesRecorded(ran) <==> forall i :: 0 <= i < n ==> batch[i].course.handlerThrows || !batch[i].course.successThrows by {
      assert forall i :: 0 <= i < n ==> ran[i] == batch[i];
    }
  }

  /** While the loop runs, only the last job it did may have aborted it. */
  ghost predicate SoFar(batch: seq<Turn>, ran: nat, completed: bool)
    requires ran <= |batch|
  {
    && (forall i :: 0 <= i < ran - 1 ==> !Aborts(batch[i].course))
    && (completed <==> !(ran > 0 && Aborts(batch[ran - 1].course)))
  }

  lemma SoFarStart(batch: seq<Turn>)
    ensures SoFar(batch, 0, true)
  {
  }

  lemma SoFarNext(batch: seq<Turn>, ran: nat)
    requires ran < |batch| && SoFar(batch, ran, true)
    ensures SoFar(batch, ran + 1, !Aborts(batch[ran].course))
  {
    hide Aborts;
  }

  /** The batch was finished, or stopped at the first job whose failure could not be
      recorded. */
  lemma SoFarEnd(batch: seq<Turn>, ran: nat, completed: bool)
    requires ran <= |batch| && SoFar(batch, ran, completed) && !(ran < |batch| && completed)
    ensures completed ==> ran == |batch| && forall i :: 0 <= i < |batch| ==> !Aborts(batch[i].course)
    ensures !completed ==> ran > 0 && Aborts(batch[ran - 1].course) && forall i :: 0 <= i < ran - 1 ==> !Aborts(batch[i].course)
  {
    hide Aborts;
  }

  /** The first n jobs of a batch have had their turn, and no other row has changed. */
  ghost predicate RanOk(before: map<Id, Job>, jobs: map<Id, Job>, batch: seq<Turn>, now: int, n: nat)
    requires n <= |batch|
  {
    && jobs.Keys == before.Keys && IsClaim(batch, jobs)
    && (forall i :: 0 <= i < |batch| ==>
      jobs[batch[i].id] == if i < n then Outcome(before[batch[i].id], batch[i], now) else before[batch[i].id])
    && (forall id :: id in jobs && (forall i :: 0 <= i < |batch| ==> batch[i].id != id) ==> jobs[id] == before[id])
  }

  lemma RanNext(before: map<Id, Job>, jobs: map<Id, Job>, batch: seq<Turn>, now: int, n: nat)
    requires n < |batch| && RanOk(before, jobs, batch, now, n)
    ensures batch[n].id in jobs
    ensures RanOk(before, jobs[batch[n].id := Outcome(jobs[batch[n].id], batch[n], now)], batch, now, n + 1)
  {
    hide Outcome;
  }

  /** Every job counts as a success or a failure, and as both when its success update
      failed. */
  lemma {:induction false} CountsOverlap(batch: seq<Turn>)
    ensures var both := CountFine(batch) + CountWrong(batch);
      both >= |batch| && (both == |batch| <==> SuccessesRecorded(batch))
  {
    if batch != [] {
      var front := batch[..|batch| - 1];
      CountsOverlap(front);
      assert forall i :: 0 <= i < |front| ==> front[i] == batch[i];
    }
  }
}
