/** Several export jobs at once, and when their segments still follow one another. */
module AuditOverlap {
  import opened Basics
  import opened AuditChain
  import X = AuditExport

  /** The log with its exports, and where each job is. */
  datatype State = State(base: X.State, jobs: map<nat, X.Phase>)

  datatype Action = Commit(row: Row) | Run(k: nat, act: X.Action)

  function PhaseOf(s: State, k: nat): X.Phase { if k in s.jobs then s.jobs[k] else X.Idle }

  /** The tables as job k sees them. */
  function View(s: State, k: nat): X.State { s.base.(job := PhaseOf(s, k)) }

  function Step(s: State, act: Action): Option<State> {
    match act
    case Commit(row) =>
      var t := X.Step(s.base, X.Append(row));
      if t.None? then None else Some(s.(base := t.value))
    case Run(k, a) =>
      if a.Append? then None
      else
        var t := X.Step(View(s, k), a);
        if t.None? then None else Some(State(t.value.(job := X.Idle), s.jobs[k := t.value.job]))
  }

  function Exec(s: State, acts: seq<Action>): Option<State>
    decreases |acts|
  {
    if acts == [] then Some(s)
    else match Step(s, acts[0]) case None => None case Some(t) => Exec(t, acts[1..])
  }

  function Init(): State { State(X.Init(), map[]) }

  // ---------------------------------------------------------------- one job after another

  predicate Busy(s: State, k: nat) { PhaseOf(s, k) != X.Idle }

  ghost predicate OneBusy(s: State) { forall k: nat, m: nat :: Busy(s, k) && Busy(s, m) ==> k == m }

  /** No export begins before the one at work has ended. */
  ghost predicate Serial(s: State, acts: seq<Action>)
    decreases |acts|
  {
    OneBusy(s) && (acts != [] && Step(s, acts[0]).Some? ==> Serial(Step(s, acts[0]).value, acts[1..]))
  }

  /** No job but k is at work. */
  ghost predicate Alone(s: State, k: nat) { s.base.job == X.Idle && forall m: nat :: Busy(s, m) ==> m == k }

  /** An idle job that takes a statement begins an export or stays idle. */
  lemma IdleStep(x: X.State, a: X.Action)
    requires x.job == X.Idle && !a.Append? && X.Step(x, a).Some?
    ensures X.Step(x, a).value.job == X.Idle ==> X.Step(x, a).value == x
  {
  }

  lemma CommitStep(s: State, k: nat, row: Row, t: State)
    requires Alone(s, k) && Step(s, Commit(row)) == Some(t)
    ensures Alone(t, k) && X.Step(View(s, k), X.Append(row)) == Some(View(t, k))
  {
    assert forall m: nat :: Busy(t, m) == Busy(s, m);
  }

  /** While jobs wait for each other a statement of any of them is one of a single job. */
  lemma SerialStep(s: State, k: nat, m: nat, a: X.Action, t: State) returns (l: nat, run: seq<X.Action>)
    requires Alone(s, k) && Step(s, Run(m, a)) == Some(t) && OneBusy(t)
    ensures Alone(t, l) && X.Exec(View(s, k), run) == Some(View(t, l))
  {
    assert forall n: nat :: n != m ==> Busy(t, n) == Busy(s, n);
    assert Busy(s, m) ==> m == k;
    assert X.Exec(View(t, m), []) == Some(View(t, m));
    if m == k || !Busy(s, k) {
      l, run := m, [a];
      assert View(s, m) == View(s, k);
      assert run[1..] == [] && X.Step(View(s, m), a) == Some(View(t, m));
    } else {
      l, run := k, [];
      IdleStep(View(s, m), a);
      assert Busy(t, k);
    }
  }

  lemma {:induction false} ExecChained(x: X.State, a: seq<X.Action>, b: seq<X.Action>)
    requires X.Exec(x, a).Some?
    ensures X.Exec(x, a + b) == X.Exec(X.Exec(x, a).value, b)
    decreases |a|
  {
    if a == [] {
      assert [] + b == b;
    } else {
      assert (a + b)[0] == a[0] && (a + b)[1..] == a[1..] + b;
      ExecChained(X.Step(x, a[0]).value, a[1..], b);
    }
  }

  lemma {:induction false} SerialRun(s: State, acts: seq<Action>, k: nat) returns (l: nat, run: seq<X.Action>)
    requires Alone(s, k) && Serial(s, acts) && Exec(s, acts).Some?
    ensures X.Exec(View(s, k), run) == Some(View(Exec(s, acts).value, l))
    decreases |acts|
  {
    if acts == [] {
      l, run := k, [];
    } else {
      var t := Step(s, acts[0]).value;
      var mid, first: seq<X.Action>;
      if acts[0].Commit? {
        CommitStep(s, k, acts[0].row, t);
        mid, first := k, [X.Append(acts[0].row)];
        assert first[1..] == [] && X.Exec(View(t, k), []) == Some(View(t, k));
      } else {
        assert OneBusy(t);
        mid, first := SerialStep(s, k, acts[0].k, acts[0].act, t);
      }
      hide Alone, OneBusy, X.Step;
      var rest: seq<X.Action>;
      l, rest := SerialRun(t, acts[1..], mid);
      ExecChained(View(s, k), first, rest);
      run := first + rest;
    }
  }

  lemma SerialCovers(acts: seq<Action>)
    requires Exec(Init(), acts).Some? && Serial(Init(), acts)
    ensures X.SegmentsCoverPrefix(Exec(Init(), acts).value.base)
  {
    var l, run := SerialRun(Init(), acts, 0);
    assert View(Init(), 0) == X.Init();
    X.ExportsCoverPrefix(run);
    SameTables(X.Exec(X.Init(), run).value, Exec(Init(), acts).value.base);
  }

  lemma SameTables(x: X.State, y: X.State)
    requires x.log == y.log && x.exports == y.exports && X.SegmentsCoverPrefix(x)
    ensures X.SegmentsCoverPrefix(y)
  {
  }

  // ---------------------------------------------------------------- two at once

  lemma {:induction false} Joined(s: State, acts: seq<Action>, more: seq<Action>)
    requires Exec(s, acts).Some?
    ensures Exec(s, acts + more) == Exec(Exec(s, acts).value, more)
    decreases |acts|
  {
    if acts == [] {
      assert [] + more == more;
    } else {
      assert (acts + more)[0] == acts[0] && (acts + more)[1..] == acts[1..] + more;
      Joined(Step(s, acts[0]).value, acts[1..], more);
    }
  }

  function ExportActs(k: nat): seq<Action> { [Run(k, X.List), Run(k, X.ReadFull), Run(k, X.Put), Run(k, X.Record)] }

  function OneRow(r: Row): X.Export { X.Export(1, 1, r.eventHash, 1, 1) }

  /** A job that has read an empty high-water mark exports the one row there is. */
  lemma ExportsTheRow(s: State, k: nat, r: Row)
    requires s.base.log == [r] && r.seqNo == 1 && s.base.job == X.Idle && PhaseOf(s, k) == X.Marked(1)
    ensures var t := Exec(s, ExportActs(k));
      && t.Some? && t.value.base.log == [r] && t.value.base.job == X.Idle && t.value.base.exports == s.base.exports + [OneRow(r)]
      && forall m: nat :: m != k ==> PhaseOf(t.value, m) == PhaseOf(s, m)
  {
    assert [r][1..] == [];
    assert X.From([r], 1) == [r];
    var e := OneRow(r);
    var s1 := s.(jobs := s.jobs[k := X.Listed(e)]);
    assert Step(s, Run(k, X.List)) == Some(s1);
    var s2 := s1.(jobs := s1.jobs[k := X.Read(e, [r])]);
    assert Step(s1, Run(k, X.ReadFull)) == Some(s2);
    var s3 := State(s2.base.(files := s2.base.files[(1, 1) := [r]]), s2.jobs[k := X.Stored(e)]);
    assert Step(s2, Run(k, X.Put)) == Some(s3);
    var s4 := State(s3.base.(exports := s3.base.exports + [e]), s3.jobs[k := X.Idle]);
    assert Step(s3, Run(k, X.Record)) == Some(s4);
    hide Step;
    assert ExportActs(k)[1..][1..][1..][1..] == [];
    assert Exec(s4, []) == Some(s4);
    assert Exec(s3, ExportActs(k)[1..][1..][1..]) == Some(s4);
    assert Exec(s2, ExportActs(k)[1..][1..]) == Some(s4);
    assert Exec(s1, ExportActs(k)[1..]) == Some(s4);
  }

  /** Two exports that both read the mark before either records export the same row twice. */
  lemma OverlapExportsTwice(r: Row) returns (acts: seq<Action>)
    requires r.seqNo == 1
    ensures Exec(Init(), acts).Some?
    ensures var x := Exec(Init(), acts).value.base;
      x.log == [r] && x.exports == [OneRow(r), OneRow(r)] && !X.SegmentsCoverPrefix(x)
  {
    var begin := [Commit(r), Run(0, X.ReadMark), Run(1, X.ReadMark)];
    var s1 := State(X.Init().(log := [r]), map[]);
    assert [] + [r] == [r];
    assert Step(Init(), Commit(r)) == Some(s1);
    var s2 := State(s1.base, map[0 := X.Marked(1)]);
    assert Step(s1, Run(0, X.ReadMark)) == Some(s2);
    var s3 := State(s1.base, map[0 := X.Marked(1), 1 := X.Marked(1)]);
    assert Step(s2, Run(1, X.ReadMark)) == Some(s3);
    hide Step, X.SegmentsCoverPrefix;
    assert begin[1..][1..][1..] == [] && Exec(s3, []) == Some(s3);
    assert Exec(s2, begin[1..][1..]) == Some(s3);
    assert Exec(s1, begin[1..]) == Some(s3);
    assert Exec(Init(), begin) == Some(s3);
    ExportsTheRow(s3, 0, r);
    var s4 := Exec(s3, ExportActs(0)).value;
    ExportsTheRow(s4, 1, r);
    hide Exec, ExportActs;
    Joined(Init(), begin, ExportActs(0));
    Joined(Init(), begin + ExportActs(0), ExportActs(1));
    acts := begin + ExportActs(0) + ExportActs(1);
    TwiceIsNoPrefix(r, Exec(Init(), acts).value.base);
  }

  lemma TwiceIsNoPrefix(r: Row, x: X.State)
    requires r.seqNo == 1 && x.log == [r] && x.exports == [OneRow(r), OneRow(r)]
    ensures !X.SegmentsCoverPrefix(x)
  {
    var e := OneRow(r);
    assert [r][1..] == [];
    assert X.From([r], 1) == [r];
    assert X.Cut([r][1..], 2) == 0 && X.Cut([r], 2) == 1;
    assert X.Segment([r], e) == [r];
    assert x.exports[..1] == [e] && [e][..0] == [];
    assert X.Concat([r], [e]) == X.Concat([r], []) + [r];
    assert |X.Concat([r], x.exports)| == 2;
  }

  /** The exported segments are the log up to the high-water mark in every run if and only if
      exports wait for each other. */
  lemma ConsecutiveIffSerial(serial: bool, r: Row)
    requires r.seqNo == 1
    ensures (forall acts :: Exec(Init(), acts).Some? && (serial ==> Serial(Init(), acts)) ==>
        X.SegmentsCoverPrefix(Exec(Init(), acts).value.base)) <==> serial
  {
    if serial {
      forall acts | Exec(Init(), acts).Some? && Serial(Init(), acts) ensures X.SegmentsCoverPrefix(Exec(Init(), acts).value.base) {
        SerialCovers(acts);
      }
    } else {
      var acts := OverlapExportsTwice(r);
    }
  }
}
