/** The hash-chained audit table: its rows, the verifier's loop, and appending.
    The digest is a parameter here; AuditTamper supplies the real one. */
module AuditChain {
  import opened Basics
  import opened Json

  /** What a caller hands to appendAudit; optional fields already defaulted to null. */
  datatype Event = Event(
    organisationId: Option<string>, actorType: string, actorId: string, action: string,
    resourceType: string, resourceId: Option<string>, requestId: Option<string>,
    outcome: string, details: Value)

  /** A row of audit_events as it is read back. The address field is stored but not hashed. */
  datatype Row = Row(seqNo: nat, event: Event, ipMinimised: Option<string>, previousHash: string, eventHash: string)

  /** The digest of an event and the hash before it. */
  type Digest = (Event, string) -> string

  /** Details are a JSON object. */
  ghost predicate EventWf(e: Event) {
    e.details.Obj? && Wf(e.details)
  }

  /** Two events say the same: equal columns, and details equal up to key order. */
  ghost predicate SameEvent(a: Event, b: Event) {
    a.(details := Null) == b.(details := Null) && Meaning(a.details) == Meaning(b.details)
  }

  /** The digest does not depend on the order of keys. */
  ghost predicate ReadsMeaning(d: Digest) {
    forall a, b, p :: EventWf(a) && EventWf(b) && SameEvent(a, b) ==> d(a, p) == d(b, p)
  }

  function HeadHash(rows: seq<Row>): string {
    if rows == [] then "" else rows[|rows| - 1].eventHash
  }

  /** Row i is linked to what precedes it. */
  predicate LinkedAt(d: Digest, rows: seq<Row>, i: nat)
    requires i < |rows|
  {
    && rows[i].previousHash == HeadHash(rows[..i])
    && rows[i].eventHash == d(rows[i].event, rows[i].previousHash)
  }

  /** Every row is linked. */
  predicate Chained(d: Digest, rows: seq<Row>) {
    forall i :: 0 <= i < |rows| ==> LinkedAt(d, rows, i)
  }

  ghost predicate RowsWf(rows: seq<Row>) {
    forall i :: 0 <= i < |rows| ==> EventWf(rows[i].event)
  }

  lemma LinkMeans(d: Digest, rows: seq<Row>, i: nat)
    requires i < |rows|
    ensures LinkedAt(d, rows, i) <==>
      && rows[i].previousHash == (if i == 0 then "" else rows[i - 1].eventHash)
      && rows[i].eventHash == d(rows[i].event, rows[i].previousHash)
  {
    assert i > 0 ==> rows[..i][i - 1] == rows[i - 1];
  }

  lemma ChainedMeans(d: Digest, rows: seq<Row>)
    ensures Chained(d, rows) <==> forall i :: 0 <= i < |rows| ==>
      && rows[i].previousHash == (if i == 0 then "" else rows[i - 1].eventHash)
      && rows[i].eventHash == d(rows[i].event, rows[i].previousHash)
  {
    if Chained(d, rows) {
      forall i | 0 <= i < |rows|
        ensures rows[i].previousHash == (if i == 0 then "" else rows[i - 1].eventHash)
        ensures rows[i].eventHash == d(rows[i].event, rows[i].previousHash)
      {
        LinkMeans(d, rows, i);
      }
    } else {
      var i :| 0 <= i < |rows| && !LinkedAt(d, rows, i);
      LinkMeans(d, rows, i);
    }
  }

  /** verifyAuditChain over the rows in seq order. */
  method VerifyAuditChain(d: Digest, rows: seq<Row>) returns (ok: bool)
    ensures ok <==> Chained(d, rows)
    ensures ok <==> forall i :: 0 <= i < |rows| ==>
      && rows[i].previousHash == (if i == 0 then "" else rows[i - 1].eventHash)
      && rows[i].eventHash == d(rows[i].event, rows[i].previousHash)
  {
    ChainedMeans(d, rows);
    var previous := "";
    var i := 0;
    while i < |rows|
      invariant 0 <= i <= |rows|
      invariant previous == HeadHash(rows[..i])
      invariant forall j :: 0 <= j < i ==> LinkedAt(d, rows, j)
    {
      var row := rows[i];
      if row.previousHash != previous {
        assert !LinkedAt(d, rows, i);
        return false;
      }
      var recomputed := d(row.event, previous);
      if recomputed != row.eventHash {
        assert !LinkedAt(d, rows, i);
        return false;
      }
      previous := row.eventHash;
      i := i + 1;
      assert rows[..i][i - 1] == row;
    }
    return true;
  }

  /** A prefix of a verified log verifies. */
  lemma ChainedPrefix(d: Digest, rows: seq<Row>, n: nat)
    requires Chained(d, rows) && n <= |rows|
    ensures Chained(d, rows[..n])
  {
    forall i | 0 <= i < n ensures LinkedAt(d, rows[..n], i) {
      assert LinkedAt(d, rows, i);
      assert rows[..n][..i] == rows[..i];
    }
  }

  /** jsonb hands the details back with the same meaning, keys in an order of its own. */
  ghost predicate StoredFaithfully(e: Event, stored: Value) {
    EventWf(e) && stored.Obj? && Wf(stored) && Meaning(stored) == Meaning(e.details)
  }

  /** The row appendAudit inserts after a given head. */
  function NextRow(d: Digest, seqNo: nat, e: Event, stored: Value, ip: Option<string>, head: string): Row {
    Row(seqNo, e.(details := stored), ip, head, d(e, head))
  }

  /** A row appended to a verified log verifies, whatever order the stored details come back in. */
  lemma AppendKeepsChain(d: Digest, rows: seq<Row>, seqNo: nat, e: Event, stored: Value, ip: Option<string>)
    requires ReadsMeaning(d) && Chained(d, rows) && StoredFaithfully(e, stored)
    ensures Chained(d, rows + [NextRow(d, seqNo, e, stored, ip, HeadHash(rows))])
  {
    var row := NextRow(d, seqNo, e, stored, ip, HeadHash(rows));
    var after := rows + [row];
    assert EventWf(row.event) && SameEvent(e, row.event);
    forall i | 0 <= i < |after| ensures LinkedAt(d, after, i) {
      if i < |rows| {
        assert LinkedAt(d, rows, i);
        assert after[..i] == rows[..i];
      } else {
        assert after[..i] == rows;
      }
    }
  }

  /** The audit_events table behind its lock: one appendAudit at a time. */
  class AuditTable {
    const digest: Digest
    var rows: seq<Row>
    var nextSeq: nat

    ghost predicate Valid() reads this {
      && ReadsMeaning(digest) && Chained(digest, rows) && RowsWf(rows)
      && (forall i :: 0 <= i < |rows| ==> rows[i].seqNo < nextSeq)
      && (forall i, j :: 0 <= i < j < |rows| ==> rows[i].seqNo < rows[j].seqNo)
    }

    constructor (digest: Digest)
      requires ReadsMeaning(digest)
      ensures Valid() && rows == [] && this.digest == digest
    {
      this.digest := digest;
      rows := [];
      nextSeq := 1;
    }

    /** appendAudit once the guard has passed: read the head, hash, insert. */
    method AppendAudit(e: Event, stored: Value, ip: Option<string>) returns (eventHash: string)
      requires Valid() && StoredFaithfully(e, stored)
      modifies this
      ensures Valid()
      ensures rows == old(rows) + [NextRow(digest, old(nextSeq), e, stored, ip, HeadHash(old(rows)))]
      ensures var row := rows[|rows| - 1];
        && row.seqNo == old(nextSeq) && row.event == e.(details := stored) && row.ipMinimised == ip
        && row.previousHash == (if old(rows) == [] then "" else old(rows)[|old(rows)| - 1].eventHash)
        && row.eventHash == eventHash == digest(e, row.previousHash)
      ensures nextSeq == old(nextSeq) + 1 && eventHash == HeadHash(rows)
      ensures forall i, j :: 0 <= i < j < |rows| ==> rows[i].seqNo < rows[j].seqNo
    {
      var previousHash := if rows == [] then "" else rows[|rows| - 1].eventHash;
      eventHash := digest(e, previousHash);
      AppendKeepsChain(digest, rows, nextSeq, e, stored, ip);
      rows := rows + [Row(nextSeq, e.(details := stored), ip, previousHash, eventHash)];
      nextSeq := nextSeq + 1;
    }
  }
}
