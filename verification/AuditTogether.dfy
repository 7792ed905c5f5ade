/** The append protocol and the export job over one log: any number of appenders in flight,
    statement by statement, while the job exports what has been committed. */
module AuditTogether {
  import opened Basics
  import opened Json
  import opened AuditChain
  import opened Hashing
  import P = AuditProtocol
  import X = AuditExport
  import AuditTamper

  /** The export job sees the committed rows. */
  datatype State = State(log: P.State, job: X.State)

  datatype Action = Audit(a: P.Action) | Job(x: X.Action)

  ghost function Step(dg: Digest, s: State, act: Action): Option<State> {
    match act
    case Audit(a) =>
      var t := P.Step(dg, true, s.log, a);
      if t.None? then None else Some(State(t.value, s.job.(log := t.value.committed)))
    case Job(x) =>
      if x.Append? then None
      else
        var t := X.Step(s.job, x);
        if t.None? then None else Some(s.(job := t.value))
  }

  ghost function Exec(dg: Digest, s: State, acts: seq<Action>): Option<State>
    decreases |acts|
  {
    if acts == [] then Some(s)
    else
      match Step(dg, s, acts[0])
      case None => None
      case Some(t) => Exec(dg, t, acts[1..])
  }

  function Init(): State { State(P.Init(), X.Init()) }

  /** Neither side waits for the other: a statement of the protocol can run whenever it can
      on the log alone, and one of the export job whenever it can on the job's tables. */
  lemma NeitherWaits(dg: Digest, s: State, a: P.Action, x: X.Action)
    ensures Step(dg, s, Audit(a)).Some? <==> P.Step(dg, true, s.log, a).Some?
    ensures Step(dg, s, Audit(a)).Some? ==>
      var t := Step(dg, s, Audit(a)).value;
      P.Step(dg, true, s.log, a) == Some(t.log) && t.job == s.job.(log := t.log.committed)
    ensures !x.Append? ==> (Step(dg, s, Job(x)).Some? <==> X.Step(s.job, x).Some?)
    ensures !x.Append? && X.Step(s.job, x).Some? ==> Step(dg, s, Job(x)) == Some(State(s.log, X.Step(s.job, x).value))
  {
    hide P.Step, X.Step;
  }

  // ---------------------------------------------------------------- the invariant

  ghost predicate Positive(rows: seq<Row>) { forall i :: 0 <= i < |rows| ==> rows[i].seqNo >= 1 }

  /** The identity sequence starts at 1. */
  ghost predicate Numbered(s: P.State) {
    1 <= s.nextSeq && Positive(s.committed) && forall x :: x in s.pending ==> Positive(s.pending[x])
  }

  ghost predicate Inv(dg: Digest, s: State) { P.Inv(dg, s.log) && Numbered(s.log) && s.job.log == s.log.committed }

  lemma NumberedKept(dg: Digest, s: P.State, a: P.Action)
    requires Numbered(s) && P.Step(dg, true, s, a).Some?
    ensures Numbered(P.Step(dg, true, s, a).value)
  {
  }

  /** What a protocol step adds to the committed rows. */
  function Added(s: P.State, t: P.State): seq<Row>
    requires s.committed <= t.committed
  {
    t.committed[|s.committed|..]
  }

  function Appends(rows: seq<Row>): seq<X.Action> { if rows == [] then [] else [X.Append(rows[0])] + Appends(rows[1..]) }

  /** Rows that continue a log in order can be appended to it one after the other. */
  lemma {:induction false} AppendsRun(job: X.State, rows: seq<Row>)
    requires P.SeqSorted(job.log + rows) && Positive(rows)
    ensures X.Exec(job, Appends(rows)) == Some(job.(log := job.log + rows))
    decreases |rows|
  {
    if rows == [] {
      assert job.log + [] == job.log;
    } else {
      var all := job.log + rows;
      forall i | 0 <= i < |job.log| ensures job.log[i].seqNo < rows[0].seqNo {
        assert all[i] == job.log[i] && all[|job.log|] == rows[0];
      }
      var next := job.(log := job.log + [rows[0]]);
      assert X.Step(job, X.Append(rows[0])) == Some(next);
      assert next.log + rows[1..] == all;
      AppendsRun(next, rows[1..]);
      assert Appends(rows)[1..] == Appends(rows[1..]);
    }
  }

  /** Every step of the append protocol leaves the log as the export job sees it alone, or
      is a run of the appends that job's own machine allows: the lock makes the rows arrive
      in sequence order, whatever transactions are in flight. */
  lemma ProtocolStepIsAppends(dg: Digest, s: State, a: P.Action)
    requires Inv(dg, s) && P.Step(dg, true, s.log, a).Some?
    ensures var t := P.Step(dg, true, s.log, a).value;
      && s.log.committed <= t.committed && P.Inv(dg, t) && Numbered(t)
      && X.Exec(s.job, Appends(Added(s.log, t))) == Some(s.job.(log := t.committed))
  {
    P.StepKeepsInv(dg, s.log, a);
    P.CommittedOnlyGrows(dg, s.log, a);
    NumberedKept(dg, s.log, a);
    var t := P.Step(dg, true, s.log, a).value;
    var rows := Added(s.log, t);
    hide P.Step, P.Inv, X.Exec, X.Step;
    assert s.job.log + rows == t.committed;
    AppendsRun(s.job, rows);
  }

  lemma StepKeepsInv(dg: Digest, s: State, act: Action)
    requires Inv(dg, s) && Step(dg, s, act).Some?
    ensures Inv(dg, Step(dg, s, act).value)
  {
    if act.Audit? {
      ProtocolStepIsAppends(dg, s, act.a);
    } else {
      JobKeepsLog(s.job, act.x);
    }
  }

  lemma JobKeepsLog(job: X.State, x: X.Action)
    requires !x.Append? && X.Step(job, x).Some?
    ensures X.Step(job, x).value.log == job.log
  {
  }

  // ---------------------------------------------------------------- runs

  lemma {:induction false} ExecChained(s: X.State, a: seq<X.Action>, b: seq<X.Action>)
    requires X.Exec(s, a).Some?
    ensures X.Exec(s, a + b) == X.Exec(X.Exec(s, a).value, b)
    decreases |a|
  {
    if a == [] {
      assert [] + b == b;
    } else {
      assert (a + b)[0] == a[0] && (a + b)[1..] == a[1..] + b;
      ExecChained(X.Step(s, a[0]).value, a[1..], b);
    }
  }

  /** A run of both machines is, for the export job, a run of its own machine, so everything
      proved of that machine holds with the append protocol in its place. */
  lemma {:induction false} JobRuns(dg: Digest, s: State, acts: seq<Action>) returns (run: seq<X.Action>)
    requires Inv(dg, s) && Exec(dg, s, acts).Some?
    ensures Inv(dg, Exec(dg, s, acts).value)
    ensures X.Exec(s.job, run) == Some(Exec(dg, s, acts).value.job)
    decreases |acts|
  {
    if acts == [] {
      run := [];
    } else {
      var t := Step(dg, s, acts[0]).value;
      var first: seq<X.Action>;
      if acts[0].Audit? {
        ProtocolStepIsAppends(dg, s, acts[0].a);
        first := Appends(Added(s.log, t.log));
      } else {
        first := [acts[0].x];
        assert first[1..] == [] && X.Exec(t.job, []) == Some(t.job);
      }
      StepKeepsInv(dg, s, acts[0]);
      assert X.Exec(s.job, first) == Some(t.job);
      hide Step, Inv;
      var rest := JobRuns(dg, t, acts[1..]);
      ExecChained(s.job, first, rest);
      run := first + rest;
    }
  }

  lemma InitInv(dg: Digest)
    requires ReadsMeaning(dg)
    ensures Inv(dg, Init())
  {
  }

  /** With appenders in flight, the exported segments are exactly the committed log up to the
      high-water mark and each recorded head is its segment's last hash. */
  lemma ExportsCoverCommitted(dg: Digest, acts: seq<Action>)
    requires ReadsMeaning(dg) && Exec(dg, Init(), acts).Some?
    ensures var s := Exec(dg, Init(), acts).value;
      s.job.log == s.log.committed && X.SegmentsCoverPrefix(s.job) && X.HeadsMatch(s.job)
  {
    InitInv(dg);
    var run := JobRuns(dg, Init(), acts);
    X.ExportsCoverPrefix(run);
  }

  // ---------------------------------------------------------------- no late row

  /** A segment of a log stays as it is, and every row that comes later lies beyond it. */
  ghost predicate Settled(log: seq<Row>, later: seq<Row>, e: X.Export) {
    && log <= later && X.Segment(later, e) == X.Segment(log, e)
    && forall k :: |log| <= k < |later| ==> later[k].seqNo > e.toSeq
  }

  lemma {:induction false} AppendedLater(log: seq<Row>, rows: seq<Row>, e: X.Export)
    requires P.SeqSorted(log + rows) && X.ListedOk(log, e)
    ensures Settled(log, log + rows, e)
    decreases |rows|
  {
    if rows == [] {
      assert log + [] == log;
    } else {
      var front, last := rows[..|rows| - 1], rows[|rows| - 1];
      assert log + rows == (log + front) + [last];
      SortedFront(log + front, last);
      AppendedLater(log, front, e);
      ListedLater(log, front, e);
      X.SegmentStable(log + front, last, e);
      var later := log + rows;
      forall k | |log| <= k < |later| ensures later[k].seqNo > e.toSeq {
        if k < |later| - 1 {
          assert later[k] == (log + front)[k];
        }
      }
    }
  }

  lemma SortedFront(log: seq<Row>, row: Row)
    requires P.SeqSorted(log + [row])
    ensures P.SeqSorted(log)
  {
    forall i, j | 0 <= i < j < |log| ensures log[i].seqNo < log[j].seqNo {
      assert (log + [row])[i] == log[i] && (log + [row])[j] == log[j];
    }
  }

  lemma {:induction false} ListedLater(log: seq<Row>, rows: seq<Row>, e: X.Export)
    requires P.SeqSorted(log + rows) && X.ListedOk(log, e)
    ensures X.ListedOk(log + rows, e)
    decreases |rows|
  {
    if rows == [] {
      assert log + [] == log;
    } else {
      var front, last := rows[..|rows| - 1], rows[|rows| - 1];
      assert log + rows == (log + front) + [last];
      SortedFront(log + front, last);
      ListedLater(log, front, e);
      X.ListedStable(log + front, last, e);
    }
  }

  lemma {:induction false} CommittedGrows(dg: Digest, s: State, acts: seq<Action>)
    requires Inv(dg, s) && Exec(dg, s, acts).Some?
    ensures Inv(dg, Exec(dg, s, acts).value) && s.log.committed <= Exec(dg, s, acts).value.log.committed
    decreases |acts|
  {
    if acts != [] {
      var t := Step(dg, s, acts[0]).value;
      StepKeepsInv(dg, s, acts[0]);
      if acts[0].Audit? {
        ProtocolStepIsAppends(dg, s, acts[0].a);
      }
      assert s.log.committed <= t.log.committed;
      hide Step, Inv;
      CommittedGrows(dg, t, acts[1..]);
    }
  }

  lemma ExportSettled(dg: Digest, acts: seq<Action>, more: seq<Action>, i: nat)
    requires ReadsMeaning(dg) && Exec(dg, Init(), acts).Some? && Exec(dg, Exec(dg, Init(), acts).value, more).Some?
    requires i < |Exec(dg, Init(), acts).value.job.exports|
    ensures var s := Exec(dg, Init(), acts).value;
      Settled(s.log.committed, Exec(dg, s, more).value.log.committed, s.job.exports[i])
  {
    InitInv(dg);
    var run := JobRuns(dg, Init(), acts);
    var s := Exec(dg, Init(), acts).value;
    X.RunKeepsInv(X.Init(), run);
    assert X.FileOk(s.job, s.job.exports[i]);
    CommittedGrows(dg, s, more);
    var t := Exec(dg, s, more).value;
    var rows := t.log.committed[|s.log.committed|..];
    assert s.log.committed + rows == t.log.committed;
    assert P.SeqSorted(t.log.committed);
    hide Exec, Inv, X.Exec, X.Segment;
    AppendedLater(s.log.committed, rows, s.job.exports[i]);
  }

  /** Once a segment is recorded, with any transactions in flight then, no row committed at
      any later moment of the run falls at or before its end, and the segment of the log
      stays what was exported. */
  lemma NoLateCommit(dg: Digest, acts: seq<Action>, more: seq<Action>, i: nat)
    requires ReadsMeaning(dg) && Exec(dg, Init(), acts).Some? && Exec(dg, Exec(dg, Init(), acts).value, more).Some?
    requires i < |Exec(dg, Init(), acts).value.job.exports|
    ensures var s := Exec(dg, Init(), acts).value;
      var rows, later, e := s.log.committed, Exec(dg, s, more).value.log.committed, s.job.exports[i];
      && rows <= later && X.Segment(later, e) == X.Segment(rows, e)
      && forall k :: |rows| <= k < |later| ==> later[k].seqNo > e.toSeq
  {
    ExportSettled(dg, acts, more, i);
    hide Exec, X.Segment;
  }

  // ---------------------------------------------------------------- the chain's own digest

  /** Under the digest the platform computes, appenders on sessions of their own leave a log
      that verifies in every reachable state. */
  lemma PlatformNeverForks(h: Hash, acts: seq<P.Action>)
    requires P.Exec(AuditTamper.ChainDigest(h), true, P.Init(), acts).Some?
    ensures P.Verifies(AuditTamper.ChainDigest(h), P.Exec(AuditTamper.ChainDigest(h), true, P.Init(), acts).value)
  {
    AuditTamper.ChainDigestReadsMeaning(h);
    P.ExclusiveNeverForks(AuditTamper.ChainDigest(h), acts);
  }
}
