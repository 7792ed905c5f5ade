/** Per-tenant data keys: fetching and rotation as they run statement by statement, with any
    number of callers interleaved. One tenant is modelled; the statements of different
    tenants never touch the same row. */
module Keys {
  import opened Basics

  type Id = nat
  type Key = nat
  type Version = nat

  datatype Row = Row(key: Key, active: bool)
  type Rows = map<Version, Row>

  datatype Goal = Use | Rotate

  /** Where a caller of getTenantDek or rotateTenantDek is. One that stops on the way is gone. */
  datatype Pc =
    | Reading(goal: Goal)
    | Creating(goal: Goal)
    | Retiring(version: Version)
    | Adding(version: Version)
    | Got(version: Version, dek: Key)
    | Rotated(version: Version)
    | Failed

  datatype State = State(rows: Rows, callers: map<Id, Pc>)

  datatype Action =
    | Begin(id: Id, goal: Goal)
    | Run(id: Id, found: Option<Version>, random: Key)
    | Crash(id: Id)

  /** The SELECT of the active key with the highest version. */
  ghost predicate IsRead(rows: Rows, found: Option<Version>) {
    match found
    case None => forall v :: v in rows ==> !rows[v].active
    case Some(v) => v in rows && rows[v].active && forall w :: w in rows && rows[w].active ==> w <= v
  }

  function RetireAll(rows: Rows): Rows { map v | v in rows :: rows[v].(active := false) }

  function After(goal: Goal, version: Version, dek: Key): Pc {
    if goal == Use then Got(version, dek) else Retiring(version)
  }

  /** One statement. The unique index on the version makes a repeated INSERT fail. */
  function Statement(rows: Rows, pc: Pc, found: Option<Version>, random: Key): (Rows, Pc)
    requires pc.Reading? && found.Some? ==> found.value in rows
  {
    match pc
    case Reading(goal) => (rows, if found.None? then Creating(goal) else After(goal, found.value, rows[found.value].key))
    case Creating(goal) => if 1 in rows then (rows, Failed) else (rows[1 := Row(random, true)], After(goal, 1, random))
    case Retiring(v) => (RetireAll(rows), Adding(v))
    case Adding(v) => if v + 1 in rows then (rows, Failed) else (rows[v + 1 := Row(random, true)], Rotated(v + 1))
    case _ => (rows, pc)
  }

  ghost function Step(s: State, act: Action): Option<State> {
    match act
    case Begin(id, goal) => if id in s.callers then None else Some(s.(callers := s.callers[id := Reading(goal)]))
    case Run(id, found, random) =>
      if id !in s.callers || (s.callers[id].Reading? && !IsRead(s.rows, found)) then None
      else
        var (rows, pc) := Statement(s.rows, s.callers[id], found, random);
        Some(State(rows, s.callers[id := pc]))
    case Crash(id) => if id in s.callers then Some(s.(callers := s.callers - {id})) else None
  }

  ghost predicate IsTrace(trace: seq<State>, acts: seq<Action>) {
    && |trace| == |acts| + 1 && trace[0] == State(map[], map[])
    && forall i :: 0 <= i < |acts| ==> Step(trace[i], acts[i]) == Some(trace[i + 1])
  }

  // ---------------------------------------------------------------- the invariant

  /** The versions are exactly 1..n, and no version but n is active. */
  ghost predicate Contiguous(rows: Rows, n: nat) {
    && (forall v :: v in rows <==> 1 <= v <= n)
    && (forall v :: v in rows && rows[v].active ==> v == n)
  }

  /** A caller never runs ahead of the table, and a rotation that retired version n leaves
      no key active until version n + 1 is there. */
  ghost predicate CallerOk(rows: Rows, n: nat, pc: Pc) {
    match pc
    case Retiring(v) => 1 <= v <= n
    case Adding(v) => 1 <= v <= n && (v == n ==> forall w :: w in rows ==> !rows[w].active)
    case Got(v, dek) => v in rows && rows[v].key == dek
    case Rotated(v) => v in rows
    case _ => true
  }

  ghost predicate Inv(s: State, n: nat) {
    Contiguous(s.rows, n) && forall id :: id in s.callers ==> CallerOk(s.rows, n, s.callers[id])
  }

  /** Rows are only ever added, and a key never changes. */
  ghost predicate KeysKept(rows: Rows, later: Rows) {
    forall v :: v in rows ==> v in later && later[v].key == rows[v].key
  }

  function Grown(rows: Rows, n: nat, pc: Pc): nat {
    if (pc.Creating? && 1 !in rows) || (pc.Adding? && pc.version + 1 !in rows) then n + 1 else n
  }

  lemma StatementOk(rows: Rows, n: nat, pc: Pc, found: Option<Version>, random: Key)
    requires Contiguous(rows, n) && CallerOk(rows, n, pc) && (pc.Reading? ==> IsRead(rows, found))
    ensures var (later, q) := Statement(rows, pc, found, random);
      Contiguous(later, Grown(rows, n, pc)) && CallerOk(later, Grown(rows, n, pc), q) && KeysKept(rows, later)
  {
    match pc
    case Reading(_) =>
    case Creating(_) =>
    case Retiring(v) =>
    case Adding(v) =>
    case _ =>
  }

  /** What one caller does keeps what every other caller relies on. */
  lemma OthersOk(rows: Rows, n: nat, pc: Pc, found: Option<Version>, random: Key, other: Pc)
    requires Contiguous(rows, n) && CallerOk(rows, n, pc) && CallerOk(rows, n, other) && (pc.Reading? ==> IsRead(rows, found))
    ensures CallerOk(Statement(rows, pc, found, random).0, Grown(rows, n, pc), other)
  {
    StatementOk(rows, n, pc, found, random);
    match other
    case Adding(v) =>
    case _ =>
  }

  lemma StepOk(s: State, n: nat, act: Action, t: State) returns (m: nat)
    requires Inv(s, n) && Step(s, act) == Some(t)
    ensures Inv(t, m) && KeysKept(s.rows, t.rows)
  {
    m := n;
    if act.Run? {
      var pc := s.callers[act.id];
      m := Grown(s.rows, n, pc);
      StatementOk(s.rows, n, pc, act.found, act.random);
      forall id | id in t.callers ensures CallerOk(t.rows, m, t.callers[id]) {
        if id != act.id {
          OthersOk(s.rows, n, pc, act.found, act.random, s.callers[id]);
        }
      }
    }
  }

  lemma {:induction false} TraceInv(trace: seq<State>, acts: seq<Action>, i: nat) returns (n: nat)
    requires IsTrace(trace, acts) && i < |trace|
    ensures Inv(trace[i], n)
    decreases i
  {
    if i == 0 {
      n := 0;
    } else {
      var k := TraceInv(trace, acts, i - 1);
      assert Step(trace[i - 1], acts[i - 1]) == Some(trace[i]);
      n := StepOk(trace[i - 1], k, acts[i - 1], trace[i]);
    }
  }

  // ---------------------------------------------------------------- main results

  /** However fetches and rotations interleave, a tenant's versions are 1..n and none but n
      is active. */
  lemma VersionsContiguous(trace: seq<State>, acts: seq<Action>, i: nat)
    requires IsTrace(trace, acts) && i < |trace|
    ensures exists n :: Contiguous(trace[i].rows, n)
  {
    var n := TraceInv(trace, acts, i);
  }

  /** A version once written keeps its key in every later state. */
  lemma {:induction false} KeysNeverChange(trace: seq<State>, acts: seq<Action>, i: nat, j: nat)
    requires IsTrace(trace, acts) && i <= j < |trace|
    ensures KeysKept(trace[i].rows, trace[j].rows)
    decreases j
  {
    if i < j {
      KeysNeverChange(trace, acts, i, j - 1);
      var n := TraceInv(trace, acts, j - 1);
      assert Step(trace[j - 1], acts[j - 1]) == Some(trace[j]);
      var m := StepOk(trace[j - 1], n, acts[j - 1], trace[j]);
    }
  }

  /** A caller that was handed version v was handed the key stored under v, for good. */
  lemma FetchedKeyStays(trace: seq<State>, acts: seq<Action>, i: nat, j: nat, id: Id)
    requires IsTrace(trace, acts) && i <= j < |trace| && id in trace[i].callers && trace[i].callers[id].Got?
    ensures var pc := trace[i].callers[id];
      pc.version in trace[j].rows && trace[j].rows[pc.version].key == pc.dek
  {
    var n := TraceInv(trace, acts, i);
    assert CallerOk(trace[i].rows, n, trace[i].callers[id]);
    KeysNeverChange(trace, acts, i, j);
  }

  // ---------------------------------------------------------------- when a key is there

  /** On its way through a rotation. */
  predicate Rotating(pc: Pc) { pc == Reading(Rotate) || pc == Creating(Rotate) || pc.Retiring? || pc.Adding? }

  /** The caller's check before it rotates: no other rotation is on its way. */
  ghost predicate OneRotation(s: State) {
    forall a, b :: a in s.callers && b in s.callers && Rotating(s.callers[a]) && Rotating(s.callers[b]) ==> a == b
  }

  /** A rotation stops for good between its two statements. */
  predicate CutShort(s: State, act: Action) { act.Crash? && act.id in s.callers && s.callers[act.id].Adding? }

  predicate BetweenStatements(s: State) { exists id :: id in s.callers && s.callers[id].Adding? }

  /** The newest version, if there is one, is active, unless a rotation is between its two
      statements. */
  ghost predicate Served(s: State) {
    forall n :: 1 <= n && Contiguous(s.rows, n) && !BetweenStatements(s) ==> s.rows[n].active
  }

  /** Runs in which rotations wait for each other, and in which none is cut short. */
  ghost predicate Permitted(serial: bool, uncut: bool, trace: seq<State>, acts: seq<Action>)
    requires |trace| == |acts| + 1
  {
    && (serial ==> forall i :: 0 <= i < |trace| ==> OneRotation(trace[i]))
    && (uncut ==> forall i :: 0 <= i < |acts| ==> !CutShort(trace[i], acts[i]))
  }

  /** A rotation on its way is about the newest version, which is active until it is
      retired. */
  ghost predicate RotationOk(s: State, n: nat) {
    && (forall id :: id in s.callers && (s.callers[id].Retiring? || s.callers[id].Adding?) ==> s.callers[id].version == n)
    && (1 <= n && !BetweenStatements(s) ==> n in s.rows && s.rows[n].active)
  }

  lemma OneVersionCount(rows: Rows, n: nat, m: nat)
    requires Contiguous(rows, n) && Contiguous(rows, m)
    ensures n == m
  {
    assert n >= 1 ==> n in rows;
    assert m >= 1 ==> m in rows;
  }

  lemma RunKeepsRotation(s: State, n: nat, act: Action, t: State)
    requires act.Run? && Inv(s, n) && OneRotation(s) && RotationOk(s, n) && Step(s, act) == Some(t)
    ensures RotationOk(t, Grown(s.rows, n, s.callers[act.id]))
  {
    var pc := s.callers[act.id];
    assert CallerOk(s.rows, n, pc);
    assert forall id :: id in s.callers && id != act.id ==> id in t.callers && t.callers[id] == s.callers[id];
    assert Rotating(pc) ==> forall id :: id in s.callers && id != act.id ==> !Rotating(s.callers[id]);
    if id :| id in s.callers && id != act.id && s.callers[id].Adding? {
      assert t.callers[id].Adding?;
    }
    if t.callers[act.id].Adding? {
      assert BetweenStatements(t);
    }
  }

  lemma StepKeepsRotation(s: State, n: nat, act: Action, t: State) returns (m: nat)
    requires Inv(s, n) && OneRotation(s) && RotationOk(s, n) && Step(s, act) == Some(t) && !CutShort(s, act)
    ensures Inv(t, m) && RotationOk(t, m)
  {
    m := StepOk(s, n, act, t);
    if act.Run? {
      var pc := s.callers[act.id];
      StatementOk(s.rows, n, pc, act.found, act.random);
      OneVersionCount(t.rows, m, Grown(s.rows, n, pc));
      RunKeepsRotation(s, n, act, t);
    } else {
      OneVersionCount(t.rows, m, n);
      if id :| id in s.callers && s.callers[id].Adding? {
        assert id in t.callers && t.callers[id].Adding?;
      }
    }
  }

  lemma {:induction false} SerialisedRun(trace: seq<State>, acts: seq<Action>, i: nat) returns (n: nat)
    requires IsTrace(trace, acts) && Permitted(true, true, trace, acts) && i < |trace|
    ensures Inv(trace[i], n) && RotationOk(trace[i], n)
    decreases i
  {
    if i == 0 {
      n := 0;
    } else {
      var k := SerialisedRun(trace, acts, i - 1);
      hide Step, Inv, RotationOk, OneRotation;
      assert Step(trace[i - 1], acts[i - 1]) == Some(trace[i]) && OneRotation(trace[i - 1]);
      n := StepKeepsRotation(trace[i - 1], k, acts[i - 1], trace[i]);
    }
  }

  /** With rotations waiting for each other and none cut short, any number of fetches in
      between, the newest version is active in every state of every run but between a
      rotation's two statements. */
  lemma SerialisedServes(trace: seq<State>, acts: seq<Action>, i: nat)
    requires IsTrace(trace, acts) && Permitted(true, true, trace, acts) && i < |trace|
    ensures Served(trace[i])
  {
    var n := SerialisedRun(trace, acts, i);
    forall m | 1 <= m && Contiguous(trace[i].rows, m) && !BetweenStatements(trace[i]) ensures trace[i].rows[m].active {
      OneVersionCount(trace[i].rows, n, m);
    }
  }

  /** In such a run a fetch that reads then is handed the newest version. */
  lemma SerialisedFetch(trace: seq<State>, acts: seq<Action>, i: nat, n: nat)
    requires IsTrace(trace, acts) && Permitted(true, true, trace, acts) && i < |acts| && acts[i].Run?
    requires acts[i].id in trace[i].callers && trace[i].callers[acts[i].id] == Reading(Use)
    requires 1 <= n && Contiguous(trace[i].rows, n) && !BetweenStatements(trace[i])
    ensures n in trace[i].rows && acts[i].id in trace[i + 1].callers
    ensures trace[i + 1].callers[acts[i].id] == Got(n, trace[i].rows[n].key)
  {
    SerialisedServes(trace, acts, i);
    assert Step(trace[i], acts[i]) == Some(trace[i + 1]);
  }

  /** Every run keeps a key available exactly when rotations wait for each other and none is
      cut short: without either, some run ends with no key active and no rotation on its way. */
  lemma ServedIffSerialised(serial: bool, uncut: bool, a: Key, b: Key, c: Key)
    ensures (forall trace, acts, i :: IsTrace(trace, acts) && Permitted(serial, uncut, trace, acts) && 0 <= i < |trace| ==> Served(trace[i]))
      <==> serial && uncut
  {
    if serial && uncut {
      forall trace, acts, i | IsTrace(trace, acts) && Permitted(serial, uncut, trace, acts) && 0 <= i < |trace| ensures Served(trace[i]) {
        SerialisedServes(trace, acts, i);
      }
    } else if !serial {
      var trace, acts := OverlappingRotationsHalt(a, b, c);
      NobodyCrashes(trace, acts);
      HaltedIsUnserved(trace[|acts|], 2);
      assert Permitted(serial, uncut, trace, acts);
    } else {
      var trace, acts := StoppedRotationHalts(a);
      HaltedIsUnserved(trace[|acts|], 1);
      assert Permitted(serial, uncut, trace, acts);
    }
  }

  lemma NobodyCrashes(trace: seq<State>, acts: seq<Action>)
    requires |trace| == |acts| + 1 && forall i :: 0 <= i < |acts| ==> !acts[i].Crash?
    ensures Permitted(false, true, trace, acts)
  {
  }

  lemma HaltedIsUnserved(s: State, n: nat)
    requires Halted(s, n) && forall id :: id in s.callers ==> !s.callers[id].Adding?
    ensures !Served(s)
  {
    assert n in s.rows && Contiguous(s.rows, n) && !BetweenStatements(s);
  }

  // ---------------------------------------------------------------- no key, for good

  /** Version n is retired and n + 1 was never inserted. */
  ghost predicate Halted(s: State, n: nat) {
    1 <= n && Contiguous(s.rows, n) && forall v :: v in s.rows ==> !s.rows[v].active
  }

  /** A rotation that read version n has yet to insert n + 1. */
  predicate Pending(s: State, n: nat) {
    exists id :: id in s.callers && s.callers[id] in {Retiring(n), Adding(n)}
  }

  lemma HaltedStep(s: State, n: nat, act: Action, t: State)
    requires Inv(s, n) && Halted(s, n) && !Pending(s, n) && Step(s, act) == Some(t)
    ensures Inv(t, n) && Halted(t, n) && !Pending(t, n) && t.rows == s.rows
    ensures forall id :: id in t.callers && t.callers[id].Got? ==> id in s.callers && s.callers[id] == t.callers[id]
  {
    var m := StepOk(s, n, act, t);
    if act.Run? {
      assert CallerOk(s.rows, n, s.callers[act.id]);
      assert RetireAll(s.rows) == s.rows;
    }
  }

  /** With version n retired and every rotation that read it finished, failed or gone, the
      tenant never gets a key again: every later fetch tries to insert version 1 and fails on
      the unique index. */
  lemma {:induction false} HaltedForever(trace: seq<State>, acts: seq<Action>, i: nat, j: nat, n: nat)
    requires IsTrace(trace, acts) && i <= j < |trace|
    requires Inv(trace[i], n) && Halted(trace[i], n) && !Pending(trace[i], n)
    ensures Inv(trace[j], n) && Halted(trace[j], n) && !Pending(trace[j], n) && trace[j].rows == trace[i].rows
    ensures forall id :: id in trace[j].callers && trace[j].callers[id].Got? ==>
      id in trace[i].callers && trace[i].callers[id] == trace[j].callers[id]
    decreases j
  {
    hide Halted, Pending, Step;
    if i < j {
      HaltedForever(trace, acts, i, j - 1, n);
      assert Step(trace[j - 1], acts[j - 1]) == Some(trace[j]);
      HaltedStep(trace[j - 1], n, acts[j - 1], trace[j]);
    }
  }

  /** The halt is exactly the absence of a pending rotation: any caller still on its way to
      insert n + 1 brings the tenant back in at most two statements. */
  lemma PendingRecovers(s: State, n: nat, random: Key) returns (acts: seq<Action>, t: State)
    requires Inv(s, n) && Halted(s, n) && Pending(s, n)
    ensures 1 <= |acts| <= 2
    ensures |acts| == 1 ==> Step(s, acts[0]) == Some(t)
    ensures |acts| == 2 ==> exists u :: Step(s, acts[0]) == Some(u) && Step(u, acts[1]) == Some(t)
    ensures n + 1 in t.rows && t.rows[n + 1] == Row(random, true)
  {
    var id :| id in s.callers && s.callers[id] in {Retiring(n), Adding(n)};
    var run := Run(id, None, random);
    var u := Step(s, run).value;
    if s.callers[id] == Adding(n) {
      acts, t := [run], u;
    } else {
      assert n + 1 !in u.rows;
      acts, t := [run, run], Step(u, run).value;
    }
  }

  lemma Extend(trace: seq<State>, acts: seq<Action>, s: State, act: Action, t: State)
    requires IsTrace(trace, acts) && s == trace[|acts|] && Step(s, act) == Some(t)
    ensures IsTrace(trace + [t], acts + [act])
  {
    hide Step;
    var tr, ac := trace + [t], acts + [act];
    forall i | 0 <= i < |ac| ensures Step(tr[i], ac[i]) == Some(tr[i + 1]) {
      if i < |acts| {
        assert Step(trace[i], acts[i]) == Some(trace[i + 1]);
      }
    }
  }

  function BothRetiring(a: Key): State { State(map[1 := Row(a, true)], map[0 := Retiring(1), 1 := Retiring(1)]) }

  /** A rotation of a new tenant that stops between its two statements leaves it halted, with
      nobody left to recover it. */
  lemma StoppedRotationHalts(a: Key) returns (trace: seq<State>, acts: seq<Action>)
    ensures IsTrace(trace, acts) && (forall i :: 0 <= i < |trace| ==> OneRotation(trace[i]))
    ensures Halted(trace[|acts|], 1) && !Pending(trace[|acts|], 1) && trace[|acts|].callers == map[]
  {
    trace, acts := OneRetiring(a);
    var s3 := trace[3];
    var s4 := State(map[1 := Row(a, false)], map[0 := Adding(1)]);
    var s5 := State(map[1 := Row(a, false)], map[]);
    assert RetireAll(s3.rows) == s4.rows;
    assert Step(s3, Run(0, None, a)).value.callers == s4.callers;
    Extend(trace, acts, s3, Run(0, None, a), s4);
    assert Step(s4, Crash(0)).value.callers == s5.callers;
    Extend(trace + [s4], acts + [Run(0, None, a)], s4, Crash(0), s5);
    trace, acts := trace + [s4] + [s5], acts + [Run(0, None, a)] + [Crash(0)];
  }

  /** A new tenant's rotation has created version 1 and is about to retire it. */
  lemma OneRetiring(a: Key) returns (trace: seq<State>, acts: seq<Action>)
    ensures IsTrace(trace, acts) && |acts| == 3 && trace[3] == State(map[1 := Row(a, true)], map[0 := Retiring(1)])
    ensures (forall i :: 0 <= i < 4 ==> trace[i].callers.Keys <= {0}) && forall i :: 0 <= i < 3 ==> !acts[i].Crash?
  {
    var s0 := State(map[], map[]);
    var s1 := State(map[], map[0 := Reading(Rotate)]);
    var s2 := State(map[], map[0 := Creating(Rotate)]);
    var s3 := State(map[1 := Row(a, true)], map[0 := Retiring(1)]);
    assert Step(s0, Begin(0, Rotate)).value.callers == s1.callers;
    Extend([s0], [], s0, Begin(0, Rotate), s1);
    assert Step(s1, Run(0, None, a)).value.callers == s2.callers;
    Extend([s0, s1], [Begin(0, Rotate)], s1, Run(0, None, a), s2);
    assert Step(s2, Run(0, None, a)).value.callers == s3.callers;
    Extend([s0, s1, s2], [Begin(0, Rotate), Run(0, None, a)], s2, Run(0, None, a), s3);
    trace, acts := [s0, s1, s2, s3], [Begin(0, Rotate), Run(0, None, a), Run(0, None, a)];
    assert [s0, s1, s2] + [s3] == trace && [Begin(0, Rotate), Run(0, None, a)] + [Run(0, None, a)] == acts;
  }

  /** Two rotations of a new tenant can both read version 1 before either goes on. */
  lemma BothRead(a: Key) returns (trace: seq<State>, acts: seq<Action>)
    ensures IsTrace(trace, acts) && trace[|acts|] == BothRetiring(a) && forall i :: 0 <= i < |acts| ==> !acts[i].Crash?
  {
    trace, acts := OneRetiring(a);
    var s4 := State(map[1 := Row(a, true)], map[0 := Retiring(1), 1 := Reading(Rotate)]);
    SecondReads(trace, acts, trace[3], s4, a);
    trace, acts := trace + [s4] + [BothRetiring(a)], acts + [Begin(1, Rotate)] + [Run(1, Some(1), a)];
  }

  lemma SecondReads(trace: seq<State>, acts: seq<Action>, s3: State, s4: State, a: Key)
    requires IsTrace(trace, acts) && trace[|acts|] == s3
    requires s3 == State(map[1 := Row(a, true)], map[0 := Retiring(1)])
    requires s4 == State(map[1 := Row(a, true)], map[0 := Retiring(1), 1 := Reading(Rotate)])
    ensures IsTrace(trace + [s4] + [BothRetiring(a)], acts + [Begin(1, Rotate)] + [Run(1, Some(1), a)])
  {
    assert Step(s3, Begin(1, Rotate)).value.callers == s4.callers;
    Extend(trace, acts, s3, Begin(1, Rotate), s4);
    assert IsRead(s4.rows, Some(1));
    assert Step(s4, Run(1, Some(1), a)).value.callers == BothRetiring(a).callers;
    Extend(trace + [s4], acts + [Begin(1, Rotate)], s4, Run(1, Some(1), a), BothRetiring(a));
  }

  /** When one of them then finishes before the other retires, the other retires version 2,
      fails to insert it again, and the tenant is halted with nobody left to recover it. */
  lemma OverlappingRotationsHalt(a: Key, b: Key, c: Key) returns (trace: seq<State>, acts: seq<Action>)
    ensures IsTrace(trace, acts)
    ensures Halted(trace[|acts|], 2) && !Pending(trace[|acts|], 2)
    ensures trace[|acts|].callers == map[0 := Rotated(2), 1 := Failed] && forall i :: 0 <= i < |acts| ==> !acts[i].Crash?
  {
    trace, acts := BothRead(a);
    var s0 := BothRetiring(a);
    var s1 := State(map[1 := Row(a, false)], map[0 := Adding(1), 1 := Retiring(1)]);
    var s2 := State(map[1 := Row(a, false), 2 := Row(b, true)], map[0 := Rotated(2), 1 := Retiring(1)]);
    var s3 := State(map[1 := Row(a, false), 2 := Row(b, false)], map[0 := Rotated(2), 1 := Adding(1)]);
    var s4 := State(map[1 := Row(a, false), 2 := Row(b, false)], map[0 := Rotated(2), 1 := Failed]);
    FirstFinishes(trace, acts, s0, s1, s2, a, b);
    trace, acts := trace + [s1] + [s2], acts + [Run(0, None, b)] + [Run(0, None, b)];
    SecondFails(trace, acts, s2, s3, s4, a, b, c);
    trace, acts := trace + [s3] + [s4], acts + [Run(1, None, c)] + [Run(1, None, c)];
  }

  lemma FirstFinishes(trace: seq<State>, acts: seq<Action>, s0: State, s1: State, s2: State, a: Key, b: Key)
    requires IsTrace(trace, acts) && trace[|acts|] == s0 == BothRetiring(a)
    requires s1 == State(map[1 := Row(a, false)], map[0 := Adding(1), 1 := Retiring(1)])
    requires s2 == State(map[1 := Row(a, false), 2 := Row(b, true)], map[0 := Rotated(2), 1 := Retiring(1)])
    ensures IsTrace(trace + [s1] + [s2], acts + [Run(0, None, b)] + [Run(0, None, b)])
  {
    assert RetireAll(s0.rows) == s1.rows;
    assert Step(s0, Run(0, None, b)).value.callers == s1.callers;
    Extend(trace, acts, s0, Run(0, None, b), s1);
    assert Step(s1, Run(0, None, b)).value.callers == s2.callers && Step(s1, Run(0, None, b)).value.rows == s2.rows;
    Extend(trace + [s1], acts + [Run(0, None, b)], s1, Run(0, None, b), s2);
  }

  lemma SecondFails(trace: seq<State>, acts: seq<Action>, s2: State, s3: State, s4: State, a: Key, b: Key, c: Key)
    requires IsTrace(trace, acts) && trace[|acts|] == s2
    requires s2 == State(map[1 := Row(a, false), 2 := Row(b, true)], map[0 := Rotated(2), 1 := Retiring(1)])
    requires s3 == State(map[1 := Row(a, false), 2 := Row(b, false)], map[0 := Rotated(2), 1 := Adding(1)])
    requires s4 == State(map[1 := Row(a, false), 2 := Row(b, false)], map[0 := Rotated(2), 1 := Failed])
    ensures IsTrace(trace + [s3] + [s4], acts + [Run(1, None, c)] + [Run(1, None, c)])
    ensures Halted(s4, 2) && !Pending(s4, 2)
  {
    assert RetireAll(s2.rows) == s3.rows;
    assert Step(s2, Run(1, None, c)).value.callers == s3.callers;
    Extend(trace, acts, s2, Run(1, None, c), s3);
    assert Step(s3, Run(1, None, c)).value.callers == s4.callers;
    Extend(trace + [s3], acts + [Run(1, None, c)], s3, Run(1, None, c), s4);
  }

  // ---------------------------------------------------------------- one caller at a time

  /** The table as one caller after another sees it: rotations that run to their end keep
      exactly the newest version active. */
  class TenantKeys {
    var rows: Rows
    ghost var n: nat

    ghost predicate Valid()
      reads this
    {
      Contiguous(rows, n) && (n >= 1 ==> rows[n].active)
    }

    constructor ()
      ensures Valid() && rows == map[]
    {
      rows, n := map[], 0;
    }

    /** getTenantDek. */
    method Fetch(random: Key) returns (version: Version, dek: Key)
      requires Valid()
      modifies this
      ensures Valid() && version == n && n in rows && rows[n] == Row(dek, true)
      ensures rows == if old(rows) == map[] then map[1 := Row(random, true)] else old(rows)
      ensures old(n) >= 1 ==> n == old(n)
    {
      if newest: Version :| newest in rows && rows[newest].active {
        return newest, rows[newest].key;
      } else {
        assert old(n) == 0;
        rows := rows[1 := Row(random, true)];
        n := 1;
        return 1, random;
      }
    }

    /** rotateTenantDek. */
    method Rotate(random: Key, next: Key) returns (version: Version)
      requires Valid()
      modifies this
      ensures Valid() && version == n && n in rows && rows[n] == Row(next, true) && KeysKept(old(rows), rows)
      ensures n == if old(rows) == map[] then 2 else old(n) + 1
      ensures old(rows) == map[] ==> rows[1].key == random
    {
      var current, _ := Fetch(random);
      rows := RetireAll(rows);
      version := current + 1;
      rows := rows[version := Row(next, true)];
      n := version;
    }

    /** getTenantDekVersion: retired versions still decrypt. */
    method FetchVersion(version: Version) returns (dek: Option<Key>)
      requires Valid()
      ensures dek.Some? <==> 1 <= version <= n
      ensures dek.Some? ==> dek.value == rows[version].key
    {
      return if version in rows then Some(rows[version].key) else None;
    }
  }
}
