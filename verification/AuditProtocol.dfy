/** appendAudit under any number of concurrent callers, one SQL statement at a time:
    begin, take the advisory lock, read the head, insert, commit or roll back. */
module AuditProtocol {
  import opened Basics
  import opened Json
  import opened AuditChain

  type CallId = nat
  type Session = nat

  datatype Phase = Begun | Locked | HeadRead(head: string) | Inserted

  /** One withTransaction in flight and the database session it runs on. */
  datatype Call = Call(session: Session, phase: Phase)

  /** Rows committed so far in commit order, rows inserted but not committed by session,
      the session holding the advisory lock, and the identity sequence. */
  datatype State = State(
    committed: seq<Row>, pending: map<Session, seq<Row>>, holder: Option<Session>,
    calls: map<CallId, Call>, nextSeq: nat)

  datatype Action =
    | Begin(c: CallId, session: Session)
    | Lock(c: CallId)
    | ReadHead(c: CallId)
    | Insert(c: CallId, event: Event, stored: Value, ip: Option<string>)
    | Commit(c: CallId)
    | Rollback(c: CallId)

  function Init(): State { State([], map[], None, map[], 1) }

  function Pending(s: State, x: Session): seq<Row> {
    if x in s.pending then s.pending[x] else []
  }

  /** What a statement on a session sees: committed rows and the session's own. */
  function Visible(s: State, x: Session): seq<Row> {
    s.committed + Pending(s, x)
  }

  function InsertBySeq(row: Row, rows: seq<Row>): seq<Row> {
    if rows == [] || row.seqNo <= rows[0].seqNo then [row] + rows else [rows[0]] + InsertBySeq(row, rows[1..])
  }

  function OrderBySeq(rows: seq<Row>): seq<Row> {
    if rows == [] then [] else InsertBySeq(rows[0], OrderBySeq(rows[1..]))
  }

  predicate HashTaken(rows: seq<Row>, hash: string) {
    exists i :: 0 <= i < |rows| && rows[i].eventHash == hash
  }

  function SetPhase(s: State, c: CallId, p: Phase): State
    requires c in s.calls
  {
    s.(calls := s.calls[c := s.calls[c].(phase := p)])
  }

  predicate Busy(s: State, x: Session) {
    exists c :: c in s.calls && s.calls[c].session == x
  }

  /** One statement; None when it cannot run now. With exclusive sessions a transaction
      starts on a client that no other transaction is using. */
  ghost function Step(dg: Digest, exclusive: bool, s: State, act: Action): Option<State> {
    match act
    case Begin(c, x) =>
      if c in s.calls || (exclusive && Busy(s, x)) then None
      else Some(s.(calls := s.calls[c := Call(x, Begun)]))
    case Lock(c) =>
      if c !in s.calls || !s.calls[c].phase.Begun? then None
      else if s.holder == None || s.holder == Some(s.calls[c].session) then
        Some(SetPhase(s, c, Locked).(holder := Some(s.calls[c].session)))
      else None
    case ReadHead(c) =>
      if c !in s.calls || !s.calls[c].phase.Locked? then None
      else Some(SetPhase(s, c, HeadRead(HeadHash(OrderBySeq(Visible(s, s.calls[c].session))))))
    case Insert(c, e, stored, ip) =>
      if c !in s.calls || !s.calls[c].phase.HeadRead? || !StoredFaithfully(e, stored) then None
      else
        var x := s.calls[c].session;
        var row := NextRow(dg, s.nextSeq, e, stored, ip, s.calls[c].phase.head);
        if HashTaken(Visible(s, x), row.eventHash) then None
        else Some(SetPhase(s, c, Inserted).(pending := s.pending[x := Pending(s, x) + [row]], nextSeq := s.nextSeq + 1))
    case Commit(c) =>
      if c !in s.calls || !s.calls[c].phase.Inserted? then None
      else Some(Finish(s, c).(committed := Visible(s, s.calls[c].session)))
    case Rollback(c) =>
      if c !in s.calls then None else Some(Finish(s, c))
  }

  /** The end of a transaction drops its session's rows in flight and its lock. */
  function Finish(s: State, c: CallId): State
    requires c in s.calls
  {
    var x := s.calls[c].session;
    s.(pending := s.pending[x := []], calls := s.calls - {c},
       holder := if s.holder == Some(x) then None else s.holder)
  }

  ghost function Exec(dg: Digest, exclusive: bool, s: State, acts: seq<Action>): Option<State>
    decreases |acts|
  {
    if acts == [] then Some(s)
    else
      match Step(dg, exclusive, s, acts[0])
      case None => None
      case Some(t) => Exec(dg, exclusive, t, acts[1..])
  }

  // ---------------------------------------------------------------- rows in sequence order

  ghost predicate SeqSorted(rows: seq<Row>) {
    forall i, j :: 0 <= i < j < |rows| ==> rows[i].seqNo < rows[j].seqNo
  }

  lemma {:induction false} OrderOfSorted(rows: seq<Row>)
    requires SeqSorted(rows)
    ensures OrderBySeq(rows) == rows
  {
    if rows != [] {
      OrderOfSorted(rows[1..]);
      assert rows == [rows[0]] + rows[1..];
    }
  }

  // ---------------------------------------------------------------- the invariant

  ghost predicate LogOk(dg: Digest, rows: seq<Row>, nextSeq: nat) {
    && ReadsMeaning(dg) && SeqSorted(rows) && Chained(dg, rows) && RowsWf(rows)
    && forall i :: 0 <= i < |rows| ==> rows[i].seqNo < nextSeq
  }

  ghost predicate CallOk(dg: Digest, s: State, c: Call) {
    var mine := Pending(s, c.session);
    match c.phase
    case Begun => mine == []
    case Locked => s.holder == Some(c.session) && mine == []
    case HeadRead(head) => s.holder == Some(c.session) && mine == [] && head == HeadHash(s.committed)
    case Inserted => s.holder == Some(c.session) && LogOk(dg, s.committed + mine, s.nextSeq)
  }

  ghost predicate Inv(dg: Digest, s: State) {
    && LogOk(dg, s.committed, s.nextSeq)
    && (forall c :: c in s.calls ==> CallOk(dg, s, s.calls[c]))
    && (forall c, d :: c in s.calls && d in s.calls && s.calls[c].session == s.calls[d].session ==> c == d)
    && (forall x :: x in s.pending && s.pending[x] != [] ==> Busy(s, x))
  }

  lemma LogOkLater(dg: Digest, rows: seq<Row>, n: nat, m: nat)
    requires LogOk(dg, rows, n) && n <= m
    ensures LogOk(dg, rows, m)
  {
  }

  lemma InsertedLogOk(dg: Digest, rows: seq<Row>, n: nat, e: Event, stored: Value, ip: Option<string>)
    requires LogOk(dg, rows, n) && StoredFaithfully(e, stored)
    ensures LogOk(dg, rows + [NextRow(dg, n, e, stored, ip, HeadHash(rows))], n + 1)
  {
    AppendKeepsChain(dg, rows, n, e, stored, ip);
  }

  /** While one call is past the lock, every other call is waiting before it. */
  lemma OthersWait(dg: Digest, s: State, c: CallId, d: CallId)
    requires Inv(dg, s) && c in s.calls && d in s.calls && c != d && !s.calls[c].phase.Begun?
    ensures s.calls[d].phase.Begun? && Pending(s, s.calls[d].session) == []
    ensures s.calls[d].session != s.calls[c].session
  {
    assert CallOk(dg, s, s.calls[c]) && CallOk(dg, s, s.calls[d]);
  }

  lemma PendingStaysOwned(s: State, t: State)
    requires forall x :: x in s.pending && s.pending[x] != [] ==> Busy(s, x)
    requires forall c :: c in s.calls ==> c in t.calls && t.calls[c].session == s.calls[c].session
    requires forall x :: x in t.pending && t.pending[x] != [] ==> (x in s.pending && s.pending[x] != []) || Busy(s, x)
    ensures forall x :: x in t.pending && t.pending[x] != [] ==> Busy(t, x)
  {
    forall x | x in t.pending && t.pending[x] != [] ensures Busy(t, x) {
      assert Busy(s, x);
      var d :| d in s.calls && s.calls[d].session == x;
      assert t.calls[d].session == x;
    }
  }

  /** What an insert changes, when the log is in order. */
  lemma InsertEffect(dg: Digest, s: State, act: Action)
    requires act.Insert? && Inv(dg, s) && Step(dg, true, s, act).Some?
    ensures act.c in s.calls
    ensures var t, x := Step(dg, true, s, act).value, s.calls[act.c].session;
      && t.committed == s.committed && t.holder == s.holder == Some(x) && t.nextSeq == s.nextSeq + 1
      && t.calls == s.calls[act.c := Call(x, Inserted)] && !s.calls[act.c].phase.Begun?
      && t.pending == s.pending[x := [NextRow(dg, s.nextSeq, act.event, act.stored, act.ip, HeadHash(s.committed))]]
      && LogOk(dg, s.committed + t.pending[x], t.nextSeq)
  {
    assert CallOk(dg, s, s.calls[act.c]);
    InsertedLogOk(dg, s.committed, s.nextSeq, act.event, act.stored, act.ip);
    var row := NextRow(dg, s.nextSeq, act.event, act.stored, act.ip, HeadHash(s.committed));
    assert Pending(s, s.calls[act.c].session) + [row] == [row];
  }

  lemma InsertKeepsInv(dg: Digest, s: State, act: Action)
    requires act.Insert? && Inv(dg, s) && Step(dg, true, s, act).Some?
    ensures Inv(dg, Step(dg, true, s, act).value)
  {
    InsertEffect(dg, s, act);
    var t := Step(dg, true, s, act).value;
    LogOkLater(dg, s.committed, s.nextSeq, t.nextSeq);
    forall d | d in t.calls && d != act.c ensures CallOk(dg, t, t.calls[d]) {
      OthersWait(dg, s, act.c, d);
    }
    assert Busy(s, s.calls[act.c].session);
    PendingStaysOwned(s, t);
  }

  lemma FinishKeepsInv(dg: Digest, s: State, act: Action)
    requires (act.Commit? || act.Rollback?) && Inv(dg, s) && Step(dg, true, s, act).Some?
    ensures Inv(dg, Step(dg, true, s, act).value)
  {
    var t := Step(dg, true, s, act).value;
    var x := s.calls[act.c].session;
    assert CallOk(dg, s, s.calls[act.c]);
    forall d | d in t.calls ensures CallOk(dg, t, t.calls[d]) {
      assert CallOk(dg, s, s.calls[d]);
      assert s.calls[d].session != x;
    }
    forall y | y in t.pending && t.pending[y] != [] ensures Busy(t, y) {
      assert y != x && Busy(s, y);
      var d :| d in s.calls && s.calls[d].session == y;
      assert t.calls[d].session == y;
    }
  }

  lemma OtherKeepsInv(dg: Digest, s: State, act: Action)
    requires (act.Begin? || act.Lock? || act.ReadHead?) && Inv(dg, s) && Step(dg, true, s, act).Some?
    ensures Inv(dg, Step(dg, true, s, act).value)
  {
    var t := Step(dg, true, s, act).value;
    if act.ReadHead? {
      assert CallOk(dg, s, s.calls[act.c]);
      assert Visible(s, s.calls[act.c].session) == s.committed;
      OrderOfSorted(s.committed);
    }
    if act.Begin? {
      assert Pending(s, act.session) == [];
    }
    forall d | d in t.calls ensures CallOk(dg, t, t.calls[d]) {
      if d in s.calls {
        assert CallOk(dg, s, s.calls[d]);
      }
    }
    PendingStaysOwned(s, t);
  }

  lemma StepKeepsInv(dg: Digest, s: State, act: Action)
    requires Inv(dg, s) && Step(dg, true, s, act).Some?
    ensures Inv(dg, Step(dg, true, s, act).value)
  {
    match act
    case Insert(_, _, _, _) => InsertKeepsInv(dg, s, act);
    case Commit(_) => FinishKeepsInv(dg, s, act);
    case Rollback(_) => FinishKeepsInv(dg, s, act);
    case _ => OtherKeepsInv(dg, s, act);
  }

  lemma {:induction false} RunKeepsInv(dg: Digest, s: State, acts: seq<Action>)
    requires Inv(dg, s) && Exec(dg, true, s, acts).Some?
    ensures Inv(dg, Exec(dg, true, s, acts).value)
    decreases |acts|
  {
    if acts != [] {
      StepKeepsInv(dg, s, acts[0]);
      RunKeepsInv(dg, Step(dg, true, s, acts[0]).value, acts[1..]);
    }
  }

  // ---------------------------------------------------------------- main results

  /** verifyAuditChain over the committed rows in seq order. */
  predicate Verifies(dg: Digest, s: State) {
    Chained(dg, OrderBySeq(s.committed))
  }

  /** With a session of its own for every transaction the chain never forks, in any interleaving. */
  lemma ExclusiveNeverForks(dg: Digest, acts: seq<Action>)
    requires ReadsMeaning(dg) && Exec(dg, true, Init(), acts).Some?
    ensures Verifies(dg, Exec(dg, true, Init(), acts).value)
  {
    RunKeepsInv(dg, Init(), acts);
    OrderOfSorted(Exec(dg, true, Init(), acts).value.committed);
  }

  /** Two appends that read the head before either inserts. */
  function ForkingRun(e: Event, f: Event): seq<Action> {
    [Begin(0, 0), Begin(1, 0), Lock(0), Lock(1), ReadHead(0), ReadHead(1),
     Insert(0, e, e.details, None), Insert(1, f, f.details, None), Commit(0)]
  }

  /** Both calls have read the empty head while holding the same lock. */
  ghost predicate BothRead(s: State) {
    && s.committed == [] && Pending(s, 0) == [] && s.nextSeq == 1 && 0 in s.calls && 1 in s.calls
    && s.calls[0] == Call(0, HeadRead("")) && s.calls[1] == Call(0, HeadRead(""))
  }

  lemma BothReadReached(dg: Digest, e: Event, f: Event) returns (s: State)
    ensures BothRead(s) && Exec(dg, false, Init(), ForkingRun(e, f)) == Exec(dg, false, s, ForkingRun(e, f)[6..])
  {
    var acts := ForkingRun(e, f);
    var s1 := Step(dg, false, Init(), acts[0]).value;
    var s2 := Step(dg, false, s1, acts[1]).value;
    var s3 := Step(dg, false, s2, acts[2]).value;
    var s4 := Step(dg, false, s3, acts[3]).value;
    var s5 := Step(dg, false, s4, acts[4]).value;
    s := Step(dg, false, s5, acts[5]).value;
    ExecTwice(dg, false, Init(), acts, s2);
    ExecTwice(dg, false, s2, acts[2..], s4);
    ExecTwice(dg, false, s4, acts[4..], s);
    assert acts[2..][2..] == acts[4..] && acts[4..][2..] == acts[6..];
  }

  lemma BothInsert(dg: Digest, e: Event, f: Event, s: State)
    requires EventWf(e) && EventWf(f) && dg(e, "") != dg(f, "") && BothRead(s)
    ensures Exec(dg, false, s, ForkingRun(e, f)[6..]).Some?
    ensures Exec(dg, false, s, ForkingRun(e, f)[6..]).value.committed
         == [NextRow(dg, 1, e, e.details, None, ""), NextRow(dg, 2, f, f.details, None, "")]
  {
    var acts := ForkingRun(e, f)[6..];
    var r1, r2 := NextRow(dg, 1, e, e.details, None, ""), NextRow(dg, 2, f, f.details, None, "");
    assert Visible(s, 0) == [];
    var s7 := Step(dg, false, s, acts[0]).value;
    assert Visible(s7, 0) == [r1] && !HashTaken([r1], r2.eventHash);
    var s8 := Step(dg, false, s7, acts[1]).value;
    assert Visible(s8, 0) == [r1, r2];
    ExecTwice(dg, false, s, acts, s8);
    assert acts[2..] == [Commit(0)] && [Commit(0)][1..] == [];
  }

  /** On one shared session the advisory lock is granted again to its holder, both appends
      link to the same parent, and the verifier rejects the committed rows. */
  lemma SharedSessionForks(dg: Digest, e: Event, f: Event)
    requires ReadsMeaning(dg) && (forall x, p :: dg(x, p) != "") && EventWf(e) && EventWf(f) && dg(e, "") != dg(f, "")
    ensures Exec(dg, false, Init(), ForkingRun(e, f)).Some?
    ensures !Verifies(dg, Exec(dg, false, Init(), ForkingRun(e, f)).value)
  {
    var s := BothReadReached(dg, e, f);
    BothInsert(dg, e, f, s);
    var rows := [NextRow(dg, 1, e, e.details, None, ""), NextRow(dg, 2, f, f.details, None, "")];
    OrderOfSorted(rows);
    assert rows[..1][0] == rows[0];
    assert !LinkedAt(dg, rows, 1);
  }

  lemma ExecTwice(dg: Digest, exclusive: bool, s: State, acts: seq<Action>, t: State)
    requires |acts| >= 2 && Step(dg, exclusive, s, acts[0]).Some?
    requires Step(dg, exclusive, Step(dg, exclusive, s, acts[0]).value, acts[1]) == Some(t)
    ensures Exec(dg, exclusive, s, acts) == Exec(dg, exclusive, t, acts[2..])
  {
    assert acts[1..][0] == acts[1] && acts[1..][1..] == acts[2..];
  }

  /** The chain is safe from forks in every run exactly when sessions are exclusive. */
  lemma ForkFreeIffExclusive(dg: Digest, exclusive: bool, e: Event, f: Event)
    requires ReadsMeaning(dg) && (forall x, p :: dg(x, p) != "") && EventWf(e) && EventWf(f) && dg(e, "") != dg(f, "")
    ensures (forall acts :: Exec(dg, exclusive, Init(), acts).Some? ==> Verifies(dg, Exec(dg, exclusive, Init(), acts).value)) <==> exclusive
  {
    if exclusive {
      forall acts | Exec(dg, exclusive, Init(), acts).Some? ensures Verifies(dg, Exec(dg, exclusive, Init(), acts).value) {
        ExclusiveNeverForks(dg, acts);
      }
    } else {
      SharedSessionForks(dg, e, f);
    }
  }

  /** In every reachable state where the lock is free, a transaction on an idle session runs
      from its begin to its commit and adds exactly its own row: the next number, the event
      with the details as stored, the address, the last committed hash, and the digest. */
  lemma AppendCommits(dg: Digest, acts: seq<Action>, c: CallId, x: Session, e: Event, stored: Value, ip: Option<string>)
    requires ReadsMeaning(dg) && Exec(dg, true, Init(), acts).Some?
    requires var s := Exec(dg, true, Init(), acts).value;
      && c !in s.calls && !Busy(s, x) && s.holder == None && StoredFaithfully(e, stored)
      && forall i :: 0 <= i < |s.committed| ==> s.committed[i].eventHash != dg(e, HeadHash(s.committed))
    ensures var s := Exec(dg, true, Init(), acts).value;
      var head := if s.committed == [] then "" else s.committed[|s.committed| - 1].eventHash;
      var t := Exec(dg, true, s, [Begin(c, x), Lock(c), ReadHead(c), Insert(c, e, stored, ip), Commit(c)]);
      && t.Some? && t.value.committed == s.committed + [Row(s.nextSeq, e.(details := stored), ip, head, dg(e, head))]
      && t.value.calls == s.calls && t.value.holder == None && t.value.nextSeq == s.nextSeq + 1
  {
    RunKeepsInv(dg, Init(), acts);
    var s := Exec(dg, true, Init(), acts).value;
    IdleSession(dg, s, x);
    assert !HashTaken(s.committed, dg(e, HeadHash(s.committed)));
    hide *;
    AppendRuns(dg, s, c, x, e, stored, ip);
    HeadIs(s.committed);
  }

  lemma HeadIs(rows: seq<Row>)
    ensures HeadHash(rows) == if rows == [] then "" else rows[|rows| - 1].eventHash
  {
  }

  lemma AppendRuns(dg: Digest, s: State, c: CallId, x: Session, e: Event, stored: Value, ip: Option<string>)
    requires c !in s.calls && !Busy(s, x) && s.holder == None && Pending(s, x) == [] && OrderBySeq(s.committed) == s.committed
    requires StoredFaithfully(e, stored) && !HashTaken(s.committed, dg(e, HeadHash(s.committed)))
    ensures var head := HeadHash(s.committed);
      var t := Exec(dg, true, s, [Begin(c, x), Lock(c), ReadHead(c), Insert(c, e, stored, ip), Commit(c)]);
      && t.Some? && t.value.committed == s.committed + [Row(s.nextSeq, e.(details := stored), ip, head, dg(e, head))]
      && t.value.calls == s.calls && t.value.holder == None && t.value.nextSeq == s.nextSeq + 1
  {
    var u := HeadIsRead(dg, s, c, x);
    hide *;
    SamePending(s, u, x);
    InsertCommits(dg, u, c, x, e, stored, ip);
    assert [Begin(c, x), Lock(c), ReadHead(c), Insert(c, e, stored, ip), Commit(c)]
      == [Begin(c, x), Lock(c), ReadHead(c)] + [Insert(c, e, stored, ip), Commit(c)];
    ExecChained(dg, true, s, [Begin(c, x), Lock(c), ReadHead(c)], [Insert(c, e, stored, ip), Commit(c)]);
    assert u.calls - {c} == s.calls;
  }

  lemma SamePending(s: State, u: State, x: Session)
    requires u.pending == s.pending
    ensures Pending(u, x) == Pending(s, x)
  {
  }

  lemma IdleSession(dg: Digest, s: State, x: Session)
    requires Inv(dg, s) && !Busy(s, x)
    ensures Pending(s, x) == [] && OrderBySeq(s.committed) == s.committed
  {
    OrderOfSorted(s.committed);
  }

  lemma {:induction false} ExecChained(dg: Digest, exclusive: bool, s: State, a: seq<Action>, b: seq<Action>)
    requires Exec(dg, exclusive, s, a).Some?
    ensures Exec(dg, exclusive, s, a + b) == Exec(dg, exclusive, Exec(dg, exclusive, s, a).value, b)
    decreases |a|
  {
    hide Step;
    if a == [] {
      assert [] + b == b;
    } else {
      assert (a + b)[0] == a[0] && (a + b)[1..] == a[1..] + b;
      ExecChained(dg, exclusive, Step(dg, exclusive, s, a[0]).value, a[1..], b);
    }
  }

  /** The first three statements of an append, from an idle session and a free lock. */
  lemma HeadIsRead(dg: Digest, s: State, c: CallId, x: Session) returns (u: State)
    requires c !in s.calls && !Busy(s, x) && s.holder == None && Pending(s, x) == [] && OrderBySeq(s.committed) == s.committed
    ensures Exec(dg, true, s, [Begin(c, x), Lock(c), ReadHead(c)]) == Some(u)
    ensures u == s.(calls := s.calls[c := Call(x, HeadRead(HeadHash(s.committed)))], holder := Some(x))
  {
    var run := [Begin(c, x), Lock(c), ReadHead(c)];
    var s1 := Step(dg, true, s, run[0]).value;
    var s2 := Step(dg, true, s1, run[1]).value;
    assert Pending(s2, x) == [] && Visible(s2, x) == s.committed + [] == s.committed;
    u := Step(dg, true, s2, run[2]).value;
    assert u.calls == s.calls[c := Call(x, HeadRead(HeadHash(s.committed)))];
    ExecTwice(dg, true, s, run, s2);
    assert run[2..] == [ReadHead(c)] && [ReadHead(c)][1..] == [];
  }

  /** The last two: the row goes in and is committed, and the lock is free again. */
  lemma InsertCommits(dg: Digest, s: State, c: CallId, x: Session, e: Event, stored: Value, ip: Option<string>)
    requires c in s.calls && s.calls[c] == Call(x, HeadRead(HeadHash(s.committed))) && s.holder == Some(x) && Pending(s, x) == []
    requires StoredFaithfully(e, stored) && !HashTaken(s.committed, dg(e, HeadHash(s.committed)))
    ensures var head := HeadHash(s.committed);
      var t := Exec(dg, true, s, [Insert(c, e, stored, ip), Commit(c)]);
      && t.Some? && t.value.committed == s.committed + [Row(s.nextSeq, e.(details := stored), ip, head, dg(e, head))]
      && t.value.calls == s.calls - {c} && t.value.holder == None && t.value.nextSeq == s.nextSeq + 1
  {
    var run := [Insert(c, e, stored, ip), Commit(c)];
    var row := Row(s.nextSeq, e.(details := stored), ip, HeadHash(s.committed), dg(e, HeadHash(s.committed)));
    assert Visible(s, x) == s.committed && Pending(s, x) + [row] == [row];
    var s1 := Step(dg, true, s, run[0]).value;
    assert Visible(s1, x) == s.committed + [row];
    var s2 := Step(dg, true, s1, run[1]).value;
    assert s2.calls == s.calls - {c};
    ExecTwice(dg, true, s, run, s2);
    assert run[2..] == [];
  }

  /** No step rewrites the committed log: it stays or grows at the end by larger sequence numbers. */
  lemma CommittedOnlyGrows(dg: Digest, s: State, act: Action)
    requires Inv(dg, s) && Step(dg, true, s, act).Some?
    ensures s.committed <= Step(dg, true, s, act).value.committed
    ensures SeqSorted(Step(dg, true, s, act).value.committed)
  {
    StepKeepsInv(dg, s, act);
  }
}
