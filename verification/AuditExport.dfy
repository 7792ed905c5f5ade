/** The audit.export job, one statement at a time, against a log that keeps growing:
    read the high-water mark, list the segment, read it again in full, store, record. */
module AuditExport {
  import opened Basics
  import opened AuditChain
  import AuditProtocol

  const SEGMENT_LIMIT: nat := 5000

  /** A row of audit_exports, with the length of the log at the job's two reads. */
  datatype Export = Export(fromSeq: nat, toSeq: nat, headHash: string, listedAt: nat, readAt: nat)

  datatype Phase =
    | Idle
    | Marked(fromSeq: nat)
    | Listed(e: Export)
    | Read(e: Export, lines: seq<Row>)
    | Stored(e: Export)

  /** The committed log in seq order, the bookkeeping rows, object storage, and the one
      export job in flight. A storage reference is named by its two bounds. */
  datatype State = State(log: seq<Row>, exports: seq<Export>, files: map<(nat, nat), seq<Row>>, job: Phase)

  datatype Action =
    | Append(row: Row)
    | ReadMark
    | List
    | ReadFull
    | Put
    | Record
    | Crash

  function From(log: seq<Row>, fromSeq: nat): seq<Row> {
    if log == [] then []
    else (if log[0].seqNo >= fromSeq then [log[0]] else []) + From(log[1..], fromSeq)
  }

  /** WHERE seq >= fromSeq ORDER BY seq LIMIT 5000 over a log in seq order. */
  function Select(log: seq<Row>, fromSeq: nat): seq<Row> {
    var rows := From(log, fromSeq);
    if |rows| <= SEGMENT_LIMIT then rows else rows[..SEGMENT_LIMIT]
  }

  /** The largest to_seq recorded, or 0. */
  function HighWater(exports: seq<Export>): nat {
    if exports == [] then 0
    else
      var rest := HighWater(exports[1..]);
      if exports[0].toSeq >= rest then exports[0].toSeq else rest
  }

  function Step(s: State, act: Action): Option<State> {
    match act
    case Append(row) =>
      if (forall i :: 0 <= i < |s.log| ==> s.log[i].seqNo < row.seqNo) && row.seqNo >= 1
      then Some(s.(log := s.log + [row])) else None
    case ReadMark => if s.job.Idle? then Some(s.(job := Marked(HighWater(s.exports) + 1))) else None
    case List =>
      if !s.job.Marked? then None
      else
        var rows := Select(s.log, s.job.fromSeq);
        if rows == [] then Some(s.(job := Idle))
        else
          var last := rows[|rows| - 1];
          Some(s.(job := Listed(Export(s.job.fromSeq, last.seqNo, last.eventHash, |s.log|, |s.log|))))
    case ReadFull =>
      if !s.job.Listed? then None
      else Some(s.(job := Read(s.job.e.(readAt := |s.log|), Select(s.log, s.job.e.fromSeq))))
    case Put =>
      if !s.job.Read? then None
      else Some(s.(files := s.files[(s.job.e.fromSeq, s.job.e.toSeq) := s.job.lines], job := Stored(s.job.e)))
    case Record =>
      if !s.job.Stored? then None
      else Some(s.(exports := s.exports + [s.job.e], job := Idle))
    case Crash => Some(s.(job := Idle))
  }

  function Exec(s: State, acts: seq<Action>): Option<State>
    decreases |acts|
  {
    if acts == [] then Some(s)
    else match Step(s, acts[0]) case None => None case Some(t) => Exec(t, acts[1..])
  }

  function Init(): State { State([], [], map[], Idle) }

  // ---------------------------------------------------------------- positions in the log

  /** How many rows come before fromSeq. */
  function Cut(log: seq<Row>, fromSeq: nat): (n: nat)
    ensures n <= |log|
  {
    if log == [] || log[0].seqNo >= fromSeq then 0 else 1 + Cut(log[1..], fromSeq)
  }

  function Min(a: nat, b: nat): nat { if a <= b then a else b }

  lemma {:induction false} FromIsSlice(log: seq<Row>, fromSeq: nat)
    requires AuditProtocol.SeqSorted(log)
    ensures From(log, fromSeq) == log[Cut(log, fromSeq)..]
  {
    if log != [] {
      FromIsSlice(log[1..], fromSeq);
      assert log == [log[0]] + log[1..];
    }
  }

  lemma SelectIsSlice(log: seq<Row>, fromSeq: nat)
    requires AuditProtocol.SeqSorted(log)
    ensures var lo := Cut(log, fromSeq); Select(log, fromSeq) == log[lo..Min(lo + SEGMENT_LIMIT, |log|)]
  {
    FromIsSlice(log, fromSeq);
  }

  lemma {:induction false} CutBounds(log: seq<Row>, fromSeq: nat)
    ensures var n := Cut(log, fromSeq);
      (forall i :: 0 <= i < n ==> log[i].seqNo < fromSeq) && (n < |log| ==> log[n].seqNo >= fromSeq)
  {
    if log != [] && log[0].seqNo < fromSeq {
      CutBounds(log[1..], fromSeq);
      assert log == [log[0]] + log[1..];
    }
  }

  /** A position is fixed by the rows around it. */
  lemma CutIs(log: seq<Row>, fromSeq: nat, n: nat)
    requires AuditProtocol.SeqSorted(log) && n <= |log|
    requires n > 0 ==> log[n - 1].seqNo < fromSeq
    requires n < |log| ==> log[n].seqNo >= fromSeq
    ensures Cut(log, fromSeq) == n
  {
    CutBounds(log, fromSeq);
  }

  /** A row that exists keeps its position when rows are appended. */
  lemma CutStable(log: seq<Row>, row: Row, fromSeq: nat)
    requires AuditProtocol.SeqSorted(log + [row]) && Cut(log, fromSeq) < |log|
    ensures Cut(log + [row], fromSeq) == Cut(log, fromSeq)
  {
    var c := Cut(log, fromSeq);
    CutBounds(log, fromSeq);
    assert c > 0 ==> (log + [row])[c - 1] == log[c - 1];
    CutIs(log + [row], fromSeq, c);
  }

  // ---------------------------------------------------------------- the invariant

  function End(log: seq<Row>, e: Export): nat {
    Min(Cut(log, e.fromSeq) + SEGMENT_LIMIT, e.listedAt)
  }

  /** The listed bounds are those of a nonempty stretch of the log. */
  ghost predicate ListedOk(log: seq<Row>, e: Export) {
    var lo, hi := Cut(log, e.fromSeq), End(log, e);
    && 1 <= e.fromSeq && lo < hi && e.listedAt <= e.readAt <= |log|
    && e.toSeq == log[hi - 1].seqNo && e.headHash == log[hi - 1].eventHash
  }

  ghost predicate LinesOk(log: seq<Row>, e: Export, lines: seq<Row>) {
    var lo := Cut(log, e.fromSeq);
    ListedOk(log, e) && lines == log[lo..Min(lo + SEGMENT_LIMIT, e.readAt)]
  }

  ghost predicate FileOk(s: State, e: Export) {
    (e.fromSeq, e.toSeq) in s.files && LinesOk(s.log, e, s.files[(e.fromSeq, e.toSeq)])
  }

  function LastTo(exports: seq<Export>): nat {
    if exports == [] then 0 else exports[|exports| - 1].toSeq
  }

  ghost predicate JobOk(s: State) {
    match s.job
    case Idle => true
    case Marked(f) => f == LastTo(s.exports) + 1
    case Listed(e) => e.fromSeq == LastTo(s.exports) + 1 && ListedOk(s.log, e)
    case Read(e, lines) => e.fromSeq == LastTo(s.exports) + 1 && LinesOk(s.log, e, lines)
    case Stored(e) => e.fromSeq == LastTo(s.exports) + 1 && FileOk(s, e)
  }

  /** Each export starts right after the one before it. */
  ghost predicate FollowsAt(exports: seq<Export>, i: nat)
    requires i < |exports|
  {
    exports[i].fromSeq == (if i == 0 then 0 else exports[i - 1].toSeq) + 1 && exports[i].fromSeq <= exports[i].toSeq
  }

  ghost predicate Consecutive(exports: seq<Export>) {
    forall i :: 0 <= i < |exports| ==> FollowsAt(exports, i)
  }

  ghost predicate Inv(s: State) {
    && AuditProtocol.SeqSorted(s.log) && (forall i :: 0 <= i < |s.log| ==> s.log[i].seqNo >= 1)
    && Consecutive(s.exports)
    && (forall i :: 0 <= i < |s.exports| ==> FileOk(s, s.exports[i]))
    && JobOk(s)
  }

  lemma {:induction false} ToIncreases(exports: seq<Export>, i: nat)
    requires Consecutive(exports) && i < |exports|
    ensures exports[i].toSeq <= LastTo(exports) && exports[i].fromSeq <= LastTo(exports)
    decreases |exports| - i
  {
    assert FollowsAt(exports, i);
    if i + 1 < |exports| {
      assert FollowsAt(exports, i + 1);
      ToIncreases(exports, i + 1);
    }
  }

  lemma {:induction false} HighWaterIs(exports: seq<Export>, top: nat)
    requires forall i :: 0 <= i < |exports| ==> exports[i].toSeq <= top
    requires exports != [] ==> exports[|exports| - 1].toSeq == top
    requires exports == [] ==> top == 0
    ensures HighWater(exports) == top
  {
    if |exports| == 1 {
      assert exports[1..] == [];
    } else if exports != [] {
      HighWaterIs(exports[1..], top);
    }
  }

  lemma LinesOkAppend(log: seq<Row>, row: Row, e: Export, lines: seq<Row>)
    requires AuditProtocol.SeqSorted(log + [row])
    ensures ListedOk(log, e) ==> ListedOk(log + [row], e)
    ensures LinesOk(log, e, lines) ==> LinesOk(log + [row], e, lines)
  {
    if ListedOk(log, e) {
      CutStable(log, row, e.fromSeq);
      var hi := End(log, e);
      assert (log + [row])[hi - 1] == log[hi - 1];
    }
  }

  lemma ToAtLeastFrom(s: State, e: Export)
    requires AuditProtocol.SeqSorted(s.log) && ListedOk(s.log, e)
    ensures e.fromSeq <= e.toSeq
  {
    var lo, hi := Cut(s.log, e.fromSeq), End(s.log, e);
    CutBounds(s.log, e.fromSeq);
    assert s.log[lo].seqNo <= s.log[hi - 1].seqNo;
  }

  lemma AppendKeepsInv(s: State, row: Row)
    requires Inv(s) && Step(s, Append(row)).Some?
    ensures Inv(Step(s, Append(row)).value)
  {
    var t := Step(s, Append(row)).value;
    forall i | 0 <= i < |s.exports| ensures FileOk(t, t.exports[i]) {
      var e := s.exports[i];
      assert FileOk(s, e);
      LinesOkAppend(s.log, row, e, s.files[(e.fromSeq, e.toSeq)]);
    }
    match s.job
    case Idle =>
    case Marked(_) =>
    case Listed(e) => LinesOkAppend(s.log, row, e, []);
    case Read(e, lines) => LinesOkAppend(s.log, row, e, lines);
    case Stored(e) => LinesOkAppend(s.log, row, e, s.files[(e.fromSeq, e.toSeq)]);
  }

  lemma ListOk(log: seq<Row>, fromSeq: nat)
    requires AuditProtocol.SeqSorted(log) && fromSeq >= 1 && Select(log, fromSeq) != []
    ensures var rows := Select(log, fromSeq); var last := rows[|rows| - 1];
      ListedOk(log, Export(fromSeq, last.seqNo, last.eventHash, |log|, |log|))
  {
    SelectIsSlice(log, fromSeq);
  }

  lemma PutKeepsInv(s: State)
    requires Inv(s) && Step(s, Put).Some?
    ensures Inv(Step(s, Put).value)
  {
    var t := Step(s, Put).value;
    forall i | 0 <= i < |s.exports| ensures FileOk(t, t.exports[i]) {
      assert FileOk(s, s.exports[i]);
      ToIncreases(s.exports, i);
    }
  }

  lemma RecordKeepsInv(s: State)
    requires Inv(s) && Step(s, Record).Some?
    ensures Inv(Step(s, Record).value)
  {
    var t := Step(s, Record).value;
    ToAtLeastFrom(s, s.job.e);
    forall i | 0 <= i < |t.exports| ensures FollowsAt(t.exports, i) && FileOk(t, t.exports[i]) {
      assert i < |s.exports| ==> FollowsAt(s.exports, i) && FileOk(s, s.exports[i]);
    }
  }

  /** Only the job moves. */
  lemma JobMoveKeepsInv(s: State, job: Phase)
    requires Inv(s) && JobOk(s.(job := job))
    ensures Inv(s.(job := job))
  {
    var t := s.(job := job);
    forall i | 0 <= i < |s.exports| ensures FileOk(t, t.exports[i]) {
      assert FileOk(s, s.exports[i]);
    }
  }

  lemma MarkIsLast(s: State)
    requires Inv(s)
    ensures HighWater(s.exports) == LastTo(s.exports)
  {
    forall i | 0 <= i < |s.exports| ensures s.exports[i].toSeq <= LastTo(s.exports) {
      ToIncreases(s.exports, i);
    }
    HighWaterIs(s.exports, LastTo(s.exports));
  }

  lemma ReadFullOk(s: State)
    requires Inv(s) && s.job.Listed?
    ensures LinesOk(s.log, s.job.e.(readAt := |s.log|), Select(s.log, s.job.e.fromSeq))
  {
    SelectIsSlice(s.log, s.job.e.fromSeq);
  }

  lemma StepKeepsInv(s: State, act: Action)
    requires Inv(s) && Step(s, act).Some?
    ensures Inv(Step(s, act).value)
  {
    match act
    case Append(row) => AppendKeepsInv(s, row);
    case Put => PutKeepsInv(s);
    case Record => RecordKeepsInv(s);
    case ReadMark =>
      MarkIsLast(s);
      JobMoveKeepsInv(s, Step(s, act).value.job);
    case List =>
      if Select(s.log, s.job.fromSeq) != [] {
        ListOk(s.log, s.job.fromSeq);
      }
      JobMoveKeepsInv(s, Step(s, act).value.job);
    case ReadFull =>
      ReadFullOk(s);
      JobMoveKeepsInv(s, Step(s, act).value.job);
    case Crash => JobMoveKeepsInv(s, Idle);
  }

  lemma {:induction false} RunKeepsInv(s: State, acts: seq<Action>)
    requires Inv(s) && Exec(s, acts).Some?
    ensures Inv(Exec(s, acts).value)
    decreases |acts|
  {
    if acts != [] {
      StepKeepsInv(s, acts[0]);
      RunKeepsInv(Step(s, acts[0]).value, acts[1..]);
    }
  }

  // ---------------------------------------------------------------- main results

  /** The rows an export accounts for: those between its bounds. */
  function Segment(log: seq<Row>, e: Export): seq<Row> {
    var rows := From(log, e.fromSeq);
    var n := Cut(rows, e.toSeq + 1);
    rows[..n]
  }

  lemma EndIsCut(log: seq<Row>, e: Export)
    requires AuditProtocol.SeqSorted(log) && ListedOk(log, e)
    ensures Cut(log, e.toSeq + 1) == End(log, e)
  {
    CutIs(log, e.toSeq + 1, End(log, e));
  }

  lemma CutOfSuffix(log: seq<Row>, lo: nat, fromSeq: nat)
    requires AuditProtocol.SeqSorted(log) && lo <= Cut(log, fromSeq)
    ensures Cut(log[lo..], fromSeq) == Cut(log, fromSeq) - lo
  {
    CutBounds(log, fromSeq);
    CutIs(log[lo..], fromSeq, Cut(log, fromSeq) - lo);
  }

  lemma SegmentIsSlice(log: seq<Row>, e: Export)
    requires AuditProtocol.SeqSorted(log) && ListedOk(log, e)
    ensures Segment(log, e) == log[Cut(log, e.fromSeq)..End(log, e)]
  {
    var lo := Cut(log, e.fromSeq);
    FromIsSlice(log, e.fromSeq);
    EndIsCut(log, e);
    CutOfSuffix(log, lo, e.toSeq + 1);
  }

  function Concat(log: seq<Row>, exports: seq<Export>): seq<Row> {
    if exports == [] then [] else Concat(log, exports[..|exports| - 1]) + Segment(log, exports[|exports| - 1])
  }

  lemma TileStep(log: seq<Row>, before: seq<Export>, e: Export)
    requires AuditProtocol.SeqSorted(log) && ListedOk(log, e) && e.fromSeq == LastTo(before) + 1
    requires Concat(log, before) == log[..Cut(log, e.fromSeq)]
    ensures Concat(log, before + [e]) == log[..Cut(log, e.toSeq + 1)]
  {
    hide Segment, Cut;
    assert (before + [e])[..|before|] == before;
    SegmentIsSlice(log, e);
    EndIsCut(log, e);
    assert log[..Cut(log, e.fromSeq)] + log[Cut(log, e.fromSeq)..End(log, e)] == log[..End(log, e)];
  }

  lemma TileNext(log: seq<Row>, exports: seq<Export>, n: nat)
    requires AuditProtocol.SeqSorted(log) && Consecutive(exports) && n < |exports| && ListedOk(log, exports[n])
    requires Concat(log, exports[..n]) == log[..Cut(log, LastTo(exports[..n]) + 1)]
    ensures Concat(log, exports[..n + 1]) == log[..Cut(log, LastTo(exports[..n + 1]) + 1)]
  {
    hide Segment, Cut, Concat, ListedOk;
    assert FollowsAt(exports, n);
    TileStep(log, exports[..n], exports[n]);
    assert exports[..n + 1] == exports[..n] + [exports[n]];
  }

  lemma {:induction false} SegmentsTile(log: seq<Row>, exports: seq<Export>, n: nat)
    requires AuditProtocol.SeqSorted(log) && (forall i :: 0 <= i < |log| ==> log[i].seqNo >= 1)
    requires Consecutive(exports) && n <= |exports| && forall i :: 0 <= i < |exports| ==> ListedOk(log, exports[i])
    ensures Concat(log, exports[..n]) == log[..Cut(log, LastTo(exports[..n]) + 1)]
  {
    hide ListedOk, FollowsAt, Segment;
    if n == 0 {
      CutIs(log, 1, 0);
    } else {
      SegmentsTile(log, exports, n - 1);
      TileNext(log, exports, n - 1);
    }
  }

  /** A recorded export names its segment's last row. */
  ghost predicate HeadMatches(log: seq<Row>, e: Export) {
    var seg := Segment(log, e);
    seg != [] && seg[|seg| - 1].seqNo == e.toSeq && HeadHash(seg) == e.headHash
  }

  lemma ListedHeadMatches(log: seq<Row>, e: Export)
    requires AuditProtocol.SeqSorted(log) && ListedOk(log, e)
    ensures HeadMatches(log, e)
  {
    SegmentIsSlice(log, e);
  }

  /** The recorded segments, end to end, are exactly the log up to the high-water mark. */
  ghost predicate SegmentsCoverPrefix(s: State) {
    Concat(s.log, s.exports) == s.log[..Cut(s.log, HighWater(s.exports) + 1)]
  }

  /** Each recorded head is the hash of its segment's last row. */
  ghost predicate HeadsMatch(s: State) { forall i :: 0 <= i < |s.exports| ==> HeadMatches(s.log, s.exports[i]) }

  lemma Covered(log: seq<Row>, exports: seq<Export>)
    requires AuditProtocol.SeqSorted(log) && (forall i :: 0 <= i < |log| ==> log[i].seqNo >= 1)
    requires Consecutive(exports) && forall i :: 0 <= i < |exports| ==> ListedOk(log, exports[i])
    ensures Concat(log, exports) == log[..Cut(log, LastTo(exports) + 1)]
  {
    hide ListedOk, Consecutive, Concat, Cut;
    SegmentsTile(log, exports, |exports|);
    assert exports[..|exports|] == exports;
  }

  /** In every reachable state the segments cover the log's prefix and their heads match. */
  lemma ExportsCoverPrefix(acts: seq<Action>)
    requires Exec(Init(), acts).Some?
    ensures SegmentsCoverPrefix(Exec(Init(), acts).value) && HeadsMatch(Exec(Init(), acts).value)
  {
    RunKeepsInv(Init(), acts);
    InvCovers(Exec(Init(), acts).value);
    hide *;
  }

  lemma InvCovers(s: State)
    requires Inv(s)
    ensures SegmentsCoverPrefix(s) && HeadsMatch(s)
  {
    hide JobOk, HeadMatches, ListedOk, FileOk, HighWater, LastTo, Concat, Cut;
    AllListed(s);
    MarkIsLast(s);
    Covered(s.log, s.exports);
  }

  lemma AllListed(s: State)
    requires Inv(s)
    ensures forall i :: 0 <= i < |s.exports| ==> ListedOk(s.log, s.exports[i]) && HeadMatches(s.log, s.exports[i])
  {
    hide JobOk, HeadMatches, Consecutive;
    forall i | 0 <= i < |s.exports| ensures ListedOk(s.log, s.exports[i]) && HeadMatches(s.log, s.exports[i]) {
      assert FileOk(s, s.exports[i]);
      ListedHeadMatches(s.log, s.exports[i]);
    }
  }

  lemma LinesAgainstSegment(log: seq<Row>, e: Export, lines: seq<Row>)
    requires AuditProtocol.SeqSorted(log) && LinesOk(log, e, lines)
    ensures Segment(log, e) <= lines
    ensures lines == Segment(log, e) <==> (e.readAt == e.listedAt || |Segment(log, e)| == SEGMENT_LIMIT)
  {
    SegmentIsSlice(log, e);
    var lo, hi, end := Cut(log, e.fromSeq), End(log, e), Min(Cut(log, e.fromSeq) + SEGMENT_LIMIT, e.readAt);
    assert log[lo..end][..hi - lo] == log[lo..hi];
    assert |log[lo..end]| == end - lo && |log[lo..hi]| == hi - lo;
  }

  /** The stored file always starts with the segment, and holds nothing else exactly when no
      row was committed between the job's two reads or the segment is full. */
  lemma FileIsSegmentIff(acts: seq<Action>, i: nat)
    requires Exec(Init(), acts).Some? && i < |Exec(Init(), acts).value.exports|
    ensures var s := Exec(Init(), acts).value; var e := s.exports[i];
      && (e.fromSeq, e.toSeq) in s.files
      && Segment(s.log, e) <= s.files[(e.fromSeq, e.toSeq)]
      && (s.files[(e.fromSeq, e.toSeq)] == Segment(s.log, e) <==>
            (e.readAt == e.listedAt || |Segment(s.log, e)| == SEGMENT_LIMIT))
  {
    RunKeepsInv(Init(), acts);
    var s := Exec(Init(), acts).value;
    var e := s.exports[i];
    assert FileOk(s, e);
    LinesAgainstSegment(s.log, e, s.files[(e.fromSeq, e.toSeq)]);
  }

  // ---------------------------------------------------------------- the exports, spelled out

  /** What a segment query returns: of the rows from fromSeq on the first 5000. */
  lemma SelectMeans(log: seq<Row>, fromSeq: nat) returns (lo: nat, hi: nat)
    requires AuditProtocol.SeqSorted(log)
    ensures lo <= hi <= |log| && Select(log, fromSeq) == log[lo..hi] && (hi == |log| || hi == lo + 5000) && hi <= lo + 5000
    ensures forall i :: 0 <= i < |log| ==> (log[i].seqNo >= fromSeq <==> lo <= i)
  {
    lo := Cut(log, fromSeq);
    hi := Min(lo + SEGMENT_LIMIT, |log|);
    SelectIsSlice(log, fromSeq);
    CutBounds(log, fromSeq);
    hide Cut, Select;
  }

  /** The high-water mark is the largest bound recorded. */
  lemma {:induction false} HighWaterIsMax(exports: seq<Export>)
    ensures exports == [] ==> HighWater(exports) == 0
    ensures exports != [] ==> exists i :: 0 <= i < |exports| && exports[i].toSeq == HighWater(exports)
    ensures forall i :: 0 <= i < |exports| ==> exports[i].toSeq <= HighWater(exports)
  {
    if exports != [] {
      HighWaterIsMax(exports[1..]);
      assert exports == [exports[0]] + exports[1..];
      if exports[0].toSeq < HighWater(exports[1..]) {
        var i :| 0 <= i < |exports| - 1 && exports[1..][i].toSeq == HighWater(exports[1..]);
        assert exports[i + 1].toSeq == HighWater(exports);
      } else {
        assert exports[0].toSeq == HighWater(exports);
      }
    }
  }

  /** Where the rows of an export begin: after those of the export before it. */
  lemma BeginsAfter(s: State, i: nat)
    requires Inv(s) && i < |s.exports|
    ensures var e, lo := s.exports[i], Cut(s.log, s.exports[i].fromSeq);
      && e.fromSeq == (if i == 0 then 1 else s.exports[i - 1].toSeq + 1)
      && (i == 0 ==> lo == 0) && (i > 0 ==> 0 < lo <= |s.log| && s.log[lo - 1].seqNo == s.exports[i - 1].toSeq)
  {
    assert FollowsAt(s.exports, i) && FileOk(s, s.exports[i]);
    if i == 0 {
      CutIs(s.log, 1, 0);
    } else {
      assert FileOk(s, s.exports[i - 1]);
      EndIsCut(s.log, s.exports[i - 1]);
    }
  }

  /** In every reachable state export i is that of one stretch of the log, of one to 5000
      rows: it follows on the export before it, or begins the log; it names the stretch's last
      row by number and hash; its file starts with the stretch and is exactly it if and only
      if no row came between the two reads or the stretch is full. */
  lemma ExportSpelledOut(acts: seq<Action>, i: nat) returns (lo: nat, hi: nat)
    requires Exec(Init(), acts).Some? && i < |Exec(Init(), acts).value.exports|
    ensures var s := Exec(Init(), acts).value;
      var e := s.exports[i];
      && lo < hi <= |s.log| && hi <= lo + 5000
      && e.fromSeq == (if i == 0 then 1 else s.exports[i - 1].toSeq + 1)
      && (i == 0 ==> lo == 0) && (i > 0 ==> lo > 0 && s.log[lo - 1].seqNo == s.exports[i - 1].toSeq)
      && e.toSeq == s.log[hi - 1].seqNo && e.headHash == s.log[hi - 1].eventHash
      && (e.fromSeq, e.toSeq) in s.files && s.log[lo..hi] <= s.files[(e.fromSeq, e.toSeq)]
      && (s.files[(e.fromSeq, e.toSeq)] == s.log[lo..hi] <==> e.readAt == e.listedAt || hi == lo + 5000)
  {
    RunKeepsInv(Init(), acts);
    var s := Exec(Init(), acts).value;
    var e := s.exports[i];
    lo, hi := Cut(s.log, e.fromSeq), Cut(s.log, e.toSeq + 1);
    BeginsAfter(s, i);
    assert FileOk(s, e);
    EndIsCut(s.log, e);
    SegmentIsSlice(s.log, e);
    LinesAgainstSegment(s.log, e, s.files[(e.fromSeq, e.toSeq)]);
    hide Inv, Exec, Segment, Cut;
  }

  /** Committed between List and ReadFull, a row gets into the file and not into the segment. */
  lemma FileCanExceedSegment(r: Row, q: Row)
    requires r.seqNo == 1 && q.seqNo == 2
    ensures var acts := [Append(r), ReadMark, List, Append(q), ReadFull, Put, Record];
      Exec(Init(), acts).Some?
      && var s := Exec(Init(), acts).value;
        |s.exports| == 1 && (1, 1) in s.files && Segment(s.log, s.exports[0]) == [r] && s.files[(1, 1)] == [r, q]
  {
    var s1 := State([r], [], map[], Idle);
    var s2 := State([r], [], map[], Marked(1));
    var e := Export(1, 1, r.eventHash, 1, 1);
    var s3 := State([r], [], map[], Listed(e));
    var s4 := State([r, q], [], map[], Listed(e));
    var s5 := State([r, q], [], map[], Read(e.(readAt := 2), [r, q]));
    var s6 := State([r, q], [], map[(1, 1) := [r, q]], Stored(e.(readAt := 2)));
    var s7 := State([r, q], [e.(readAt := 2)], map[(1, 1) := [r, q]], Idle);
    SmallLogs(r, q);
    assert Step(Init(), Append(r)) == Some(s1) && Step(s1, ReadMark) == Some(s2);
    assert Step(s2, List) == Some(s3) && Step(s3, Append(q)) == Some(s4);
    assert Step(s4, ReadFull) == Some(s5) && Step(s5, Put) == Some(s6);
    assert s6.exports + [e.(readAt := 2)] == s7.exports && Step(s6, Record) == Some(s7);
    ExecSeven(Init(), Append(r), ReadMark, List, Append(q), ReadFull, Put, Record, s1, s2, s3, s4, s5, s6, s7);
  }

  lemma SmallLogs(r: Row, q: Row)
    requires r.seqNo == 1 && q.seqNo == 2
    ensures Select([r], 1) == [r] && Select([r, q], 1) == [r, q] && [] + [r] == [r] && [r] + [q] == [r, q]
    ensures From([r, q], 1) == [r, q] && Cut([r, q], 2) == 1
  {
    assert [r, q][1..] == [q] && [q][1..] == [] && [r][1..] == [];
    assert From([q], 1) == [q] && From([r], 1) == [r] && From([r, q], 1) == [r] + [q];
  }

  lemma ExecSeven(s: State, a: Action, b: Action, c: Action, d: Action, e: Action, f: Action, g: Action,
                  s1: State, s2: State, s3: State, s4: State, s5: State, s6: State, s7: State)
    requires Step(s, a) == Some(s1) && Step(s1, b) == Some(s2) && Step(s2, c) == Some(s3) && Step(s3, d) == Some(s4)
    requires Step(s4, e) == Some(s5) && Step(s5, f) == Some(s6) && Step(s6, g) == Some(s7)
    ensures Exec(s, [a, b, c, d, e, f, g]) == Some(s7)
  {
    hide Step;
    assert [g][1..] == [] && [f, g][1..] == [g] && [e, f, g][1..] == [f, g] && [d, e, f, g][1..] == [e, f, g];
    assert [c, d, e, f, g][1..] == [d, e, f, g] && [b, c, d, e, f, g][1..] == [c, d, e, f, g];
    assert [a, b, c, d, e, f, g][1..] == [b, c, d, e, f, g];
    assert Exec(s7, []) == Some(s7);
    assert Exec(s6, [g]) == Some(s7);
    assert Exec(s5, [f, g]) == Some(s7);
    assert Exec(s4, [e, f, g]) == Some(s7);
    assert Exec(s3, [d, e, f, g]) == Some(s7);
    assert Exec(s2, [c, d, e, f, g]) == Some(s7);
    assert Exec(s1, [b, c, d, e, f, g]) == Some(s7);
  }

  lemma ListedStable(log: seq<Row>, row: Row, e: Export)
    requires AuditProtocol.SeqSorted(log + [row]) && ListedOk(log, e)
    ensures ListedOk(log + [row], e)
  {
    CutStable(log, row, e.fromSeq);
  }

  lemma SegmentStable(log: seq<Row>, row: Row, e: Export)
    requires AuditProtocol.SeqSorted(log + [row]) && ListedOk(log, e)
    ensures row.seqNo > e.toSeq && Segment(log + [row], e) == Segment(log, e)
  {
    assert AuditProtocol.SeqSorted(log) by {
      assert forall i :: 0 <= i < |log| ==> (log + [row])[i] == log[i];
    }
    assert (log + [row])[|log|] == row && (log + [row])[End(log, e) - 1].seqNo == e.toSeq;
    LinesOkAppend(log, row, e, []);
    CutStable(log, row, e.fromSeq);
    SegmentIsSlice(log, e);
    SegmentIsSlice(log + [row], e);
  }

  /** A row committed later comes after every exported bound, and no segment changes. */
  lemma NoLateRow(acts: seq<Action>, row: Row, i: nat)
    requires Exec(Init(), acts).Some? && i < |Exec(Init(), acts).value.exports|
    requires Step(Exec(Init(), acts).value, Append(row)).Some?
    ensures var s := Exec(Init(), acts).value;
      row.seqNo > s.exports[i].toSeq && Segment(s.log + [row], s.exports[i]) == Segment(s.log, s.exports[i])
  {
    RunKeepsInv(Init(), acts);
    var s := Exec(Init(), acts).value;
    assert FileOk(s, s.exports[i]);
    SegmentStable(s.log, row, s.exports[i]);
  }

  // ---------------------------------------------------------------- one export, uninterrupted

  function Then(s: Option<State>, act: Action): Option<State> { if s.None? then None else Step(s.value, act) }

  /** The tables and object storage as the job runs on them by itself. */
  class Exporter {
    var log: seq<Row>
    var exports: seq<Export>
    var files: map<(nat, nat), seq<Row>>

    function Now(): State
      reads this
    {
      State(log, exports, files, Idle)
    }

    constructor (log: seq<Row>)
      ensures Now() == Init().(log := log)
    {
      this.log, exports, files := log, [], map[];
    }

    /** audit.export: nothing new means nothing recorded; otherwise the job's statements run
        through, the file holds the very rows of the segment, and the head hash is the hash
        of its last row. */
    method RunExport() returns (exported: bool)
      modifies this
      ensures log == old(log) && (exported <==> Select(log, HighWater(old(exports)) + 1) != [])
      ensures !exported ==> Now() == old(Now()) && Then(Step(old(Now()), ReadMark), List) == Some(Now())
      ensures exported ==> Then(Then(Then(Then(Step(old(Now()), ReadMark), List), ReadFull), Put), Record) == Some(Now())
      ensures exported ==>
        var rows, e := Select(log, HighWater(old(exports)) + 1), exports[|exports| - 1];
        && exports == old(exports) + [e] && e.fromSeq == HighWater(old(exports)) + 1
        && files == old(files)[(e.fromSeq, e.toSeq) := rows]
        && e.toSeq == rows[|rows| - 1].seqNo && e.headHash == HeadHash(rows)
    {
      var fromSeq := HighWater(exports) + 1;
      var rows := Select(log, fromSeq);
      if rows == [] {
        return false;
      }
      var lines := Select(log, fromSeq);
      var last := rows[|rows| - 1];
      files := files[(fromSeq, last.seqNo) := lines];
      exports := exports + [Export(fromSeq, last.seqNo, last.eventHash, |log|, |log|)];
      return true;
    }
  }
}
