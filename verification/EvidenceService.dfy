/** The evidence service run by one caller: whole retentions, fetches, deletions and the
    retention sweep, each made of the statements of module Evidence. */
module EvidenceService {
  import opened Basics
  import opened Evidence
  import Secrets

  datatype Refusal = NoPurpose | NotFuture

  /** What JavaScript's trim removes. */
  predicate IsSpace(c: char) {
    var n := c as int;
    || 0x09 <= n <= 0x0D || n == 0x20 || n == 0xA0 || n == 0x1680 || 0x2000 <= n <= 0x200A
    || n == 0x2028 || n == 0x2029 || n == 0x202F || n == 0x205F || n == 0x3000 || n == 0xFEFF
  }

  predicate Blank(s: string) { forall i :: 0 <= i < |s| ==> IsSpace(s[i]) }

  /** Live rows whose retention has run out. */
  function Expired(s: Store): set<Id> { set id | id in s.rows && !s.rows[id].deleted && s.rows[id].expiresAt <= s.now }

  /** Live rows about a subject, and those of them the organisation owns. */
  function EvidenceOf(s: Store, subject: Subject): set<Id> {
    set id | id in s.rows && !s.rows[id].deleted && s.rows[id].subject == Some(subject)
  }

  function OwnedOf(s: Store, org: Org, subject: Subject): set<Id> {
    set id | id in EvidenceOf(s, subject) && s.rows[id].org == org
  }

  function MarkAll(rows: map<Id, Row>, ids: set<Id>): map<Id, Row> {
    map id | id in rows :: if id in ids then rows[id].(deleted := true) else rows[id]
  }

  /** Rows and storage agree and nothing is half done. */
  ghost predicate Settled(open: Open, s: Store) { Inv(open, s) && s.drafts == map[] && s.erasing == {} }

  /** With nothing half done, an object in storage is the object of a live row. */
  lemma SettledStorage(open: Open, s: Store, ref: string)
    requires Settled(open, s)
    ensures ref in s.objects <==> exists id :: Live(s, id) && ref == RefOf(s.rows[id].org, id)
  {
    hide RefOf, Unseal;
    if ref in s.objects {
      var id :| Owns(s, id, ref);
      assert Live(s, id) && ref == RefOf(s.rows[id].org, id);
    }
    if id :| Live(s, id) && ref == RefOf(s.rows[id].org, id) {
      assert Present(s, id) && RowOf(s, id) == s.rows[id];
      BackedHasObject(open, s, id, s.rows[id]);
    }
  }

  lemma BackedHasObject(open: Open, s: Store, id: Id, row: Row)
    requires Backed(open, s, id, row)
    ensures RefOf(row.org, id) in s.objects
  {
  }

  class Service {
    const seal: Seal
    const open: Open
    var s: Store

    ghost predicate Valid()
      reads this
    {
      Secrets.Ideal(seal, open) && Settled(open, s)
    }

    constructor (seal: Seal, open: Open, now: int)
      requires Secrets.Ideal(seal, open)
      ensures Valid() && s == Init(now) && this.seal == seal && this.open == open
    {
      this.seal, this.open, this.s := seal, open, Init(now);
    }

    /** retain. The identifier is new and the key version is one of the tenant's. */
    method Retain(org: Org, id: Id, version: nat, nonce: nat, bytes: Bytes, purpose: string, expiresAt: int,
                  subject: Option<Subject>)
      returns (refusal: Option<Refusal>)
      requires Valid() && IsUuid(org) && IsUuid(id) && id !in s.retained && version in KeysOf(s, org)
      modifies this
      ensures Valid()
      ensures refusal == if Blank(purpose) then Some(NoPurpose) else if expiresAt <= old(s).now then Some(NotFuture) else None
      ensures refusal.Some? ==> s == old(s)
      ensures refusal.None? ==>
        && s.rows == old(s).rows[id := Row(org, version, expiresAt, false, subject)] && s.keys == old(s).keys
        && s.retained == old(s).retained[id := bytes] && s.now == old(s).now
        && s.objects == old(s).objects["evidence/" + org + "/" + id :=
             "enc1:" + seal(old(s).keys[org][version].key, nonce, bytes, org + ":evidence:" + id)]
        && Evidence.Fetch(open, s, org, id) == Ok(bytes)
    {
      if Blank(purpose) {
        return Some(NoPurpose);
      }
      if expiresAt <= s.now {
        return Some(NotFuture);
      }
      ghost var s0 := s;
      s := Put(seal, s, org, id, version, nonce, bytes, expiresAt, subject);
      StepOk(seal, open, s0, DoPut(org, id, version, nonce, bytes, expiresAt, subject), s);
      ghost var s1 := s;
      s := Insert(s, id);
      StepOk(seal, open, s1, DoInsert(id), s);
      FetchExact(open, s, org, id);
      return None;
    }

    /** fetch, after authorisation. */
    method Fetch(org: Org, id: Id) returns (r: Result)
      requires Valid()
      ensures r == if id in s.rows && !s.rows[id].deleted && s.rows[id].org == org && id in s.retained then Ok(s.retained[id]) else Err(NotFound)
    {
      FetchExact(open, s, org, id);
      return Evidence.Fetch(open, s, org, id);
    }

    /** deleteObject: a second call finds no row to mark and does nothing. */
    method DeleteObject(org: Org, id: Id)
      requires Valid()
      modifies this
      ensures Valid()
      ensures s == if CanMark(old(s), org, id) then Erase(Mark(old(s), id), id) else old(s)
      ensures CanMark(old(s), org, id) ==> s.rows == MarkAll(old(s).rows, {id})
      ensures if id in old(s).rows && old(s).rows[id].org == org && !old(s).rows[id].deleted
        then s.rows == old(s).rows[id := old(s).rows[id].(deleted := true)] && s.objects == old(s).objects - {"evidence/" + org + "/" + id}
        else s == old(s)
      ensures s == old(s).(rows := s.rows, objects := s.objects)
    {
      hide Inv;
      if !CanMark(s, org, id) {
        return;
      }
      RemovalOk(seal, open, s, org, id);
      MarkSelf(s.rows, id);
      s := Mark(s, id);
      s := Erase(s, id);
    }

    /** The deletion loop over a subject's evidence: each live row of the subject is deleted
        if the organisation owns it, and all of them are counted. */
    method DeleteForSubject(org: Org, subject: Subject) returns (count: nat)
      requires Valid()
      modifies this
      ensures Valid() && count == |set id | id in old(s).rows && old(s).rows[id].subject == Some(subject) && !old(s).rows[id].deleted|
      ensures s.rows.Keys == old(s).rows.Keys
      ensures forall id :: id in s.rows ==>
        (if old(s).rows[id].subject == Some(subject) && old(s).rows[id].org == org then s.rows[id] == old(s).rows[id].(deleted := true)
         else s.rows[id] == old(s).rows[id])
      ensures s == old(s).(rows := s.rows, objects := s.objects)
    {
      hide Settled, MarkAll, Secrets.Ideal, OwnedOf;
      ghost var s0 := s;
      var selected := EvidenceOf(s, subject);
      var todo := selected;
      ghost var owned := OwnedOf(s, org, subject);
      MarkNone(s.rows);
      assert (selected - todo) * owned == {};
      while todo != {}
        invariant Valid() && todo <= selected
        invariant s == s0.(rows := MarkAll(s0.rows, (selected - todo) * owned), objects := s.objects)
        decreases |todo|
      {
        var id :| id in todo;
        OwnedTurn(s0, s, org, subject, selected - todo, id);
        DeleteObject(org, id);
        assert selected - todo + {id} == selected - (todo - {id});
        todo := todo - {id};
      }
      OwnedAll(s0, org, subject);
      assert selected - {} == selected;
      OwnedRows(s0, org, subject);
      return |selected|;
    }

    /** purgeExpired: afterwards no live row is past its expiry, every other row is as it
        was, and the count is the number of rows that were expired. */
    method PurgeExpired() returns (count: nat)
      requires Valid()
      modifies this
      ensures Valid() && s.rows.Keys == old(s).rows.Keys
      ensures forall id :: id in s.rows ==>
        (if !old(s).rows[id].deleted && old(s).rows[id].expiresAt <= old(s).now then s.rows[id] == old(s).rows[id].(deleted := true)
         else s.rows[id] == old(s).rows[id])
      ensures count == |set id | id in old(s).rows && !old(s).rows[id].deleted && old(s).rows[id].expiresAt <= old(s).now|
      ensures forall id :: id in old(s).rows && !old(s).rows[id].deleted && old(s).rows[id].expiresAt > old(s).now ==>
        id in s.retained && Evidence.Fetch(open, s, old(s).rows[id].org, id) == Ok(old(s).retained[id])
      ensures s == old(s).(rows := s.rows, objects := s.objects)
    {
      hide Settled, MarkAll, Secrets.Ideal;
      var expired := Expired(s);
      var todo := expired;
      MarkNone(s.rows);
      assert expired - todo == {};
      while todo != {}
        invariant Valid() && todo <= expired && expired == Expired(old(s))
        invariant s.rows == MarkAll(old(s).rows, expired - todo)
        invariant s == old(s).(rows := s.rows, objects := s.objects)
        decreases |todo|
      {
        var id :| id in todo;
        StillExpired(old(s), s, expired - todo, id);
        DeleteObject(s.rows[id].org, id);
        MarkOneMore(old(s).rows, expired - todo, id);
        assert expired - todo + {id} == expired - (todo - {id});
        todo := todo - {id};
      }
      assert expired - {} == expired;
      ExpiredRows(old(s));
      UnexpiredFetched(open, old(s), s);
      return |expired|;
    }
  }

  /** One turn of the deletion loop marks the row when the organisation owns it, and is
      otherwise a turn that does nothing. */
  lemma OwnedTurn(s: Store, t: Store, org: Org, subject: Subject, done: set<Id>, id: Id)
    requires t == s.(rows := MarkAll(s.rows, done * OwnedOf(s, org, subject)), objects := t.objects)
    requires id in EvidenceOf(s, subject) && id !in done
    ensures CanMark(t, org, id) <==> id in OwnedOf(s, org, subject)
    ensures MarkAll(t.rows, if CanMark(t, org, id) then {id} else {}) == MarkAll(s.rows, (done + {id}) * OwnedOf(s, org, subject))
    ensures MarkAll(t.rows, {}) == t.rows
  {
  }

  lemma MarkSelf(rows: map<Id, Row>, id: Id)
    requires id in rows
    ensures MarkAll(rows, {id}) == rows[id := rows[id].(deleted := true)]
  {
  }

  lemma MarkOneMore(rows: map<Id, Row>, done: set<Id>, id: Id)
    ensures MarkAll(MarkAll(rows, done), {id}) == MarkAll(rows, done + {id})
  {
  }

  lemma OwnedAll(s: Store, org: Org, subject: Subject)
    ensures EvidenceOf(s, subject) * OwnedOf(s, org, subject) == OwnedOf(s, org, subject)
  {
  }

  lemma MarkNone(rows: map<Id, Row>)
    ensures MarkAll(rows, {}) == rows
  {
  }

  /** An expired row that has not had its turn is still there to be deleted. */
  lemma StillExpired(s: Store, t: Store, done: set<Id>, id: Id)
    requires t == s.(rows := MarkAll(s.rows, done), objects := t.objects) && id in Expired(s) && id !in done
    ensures id in t.rows && CanMark(t, t.rows[id].org, id)
  {
  }

  /** The rows the sweep marks and counts. */
  lemma ExpiredRows(s: Store)
    ensures Expired(s) == set id | id in s.rows && !s.rows[id].deleted && s.rows[id].expiresAt <= s.now
    ensures var rows := MarkAll(s.rows, Expired(s));
      && rows.Keys == s.rows.Keys
      && forall id :: id in rows ==>
        (if !s.rows[id].deleted && s.rows[id].expiresAt <= s.now then rows[id] == s.rows[id].(deleted := true) else rows[id] == s.rows[id])
  {
  }

  lemma UnexpiredFetched(open: Open, s: Store, t: Store)
    requires Settled(open, t) && t == s.(rows := MarkAll(s.rows, Expired(s)), objects := t.objects)
    ensures forall id :: id in s.rows && !s.rows[id].deleted && s.rows[id].expiresAt > s.now ==>
      id in t.retained && Evidence.Fetch(open, t, s.rows[id].org, id) == Ok(s.retained[id])
  {
    forall id | id in s.rows && !s.rows[id].deleted && s.rows[id].expiresAt > s.now
      ensures id in t.retained && Evidence.Fetch(open, t, s.rows[id].org, id) == Ok(s.retained[id])
    {
      FetchExact(open, t, s.rows[id].org, id);
      assert t.rows[id] == s.rows[id] && Live(t, id);
      hide Evidence.Fetch, AllBacked, NothingElse, MarkAll;
    }
  }

  lemma OwnedRows(s: Store, org: Org, subject: Subject)
    ensures EvidenceOf(s, subject) == set id | id in s.rows && s.rows[id].subject == Some(subject) && !s.rows[id].deleted
    ensures var rows := MarkAll(s.rows, OwnedOf(s, org, subject));
      && rows.Keys == s.rows.Keys
      && forall id :: id in rows ==>
        (if s.rows[id].subject == Some(subject) && s.rows[id].org == org then rows[id] == s.rows[id].(deleted := true)
         else rows[id] == s.rows[id])
  {
    assert forall r: Row :: r.deleted ==> r == r.(deleted := true);
  }

  lemma RemovalOk(seal: Seal, open: Open, s: Store, org: Org, id: Id)
    requires Secrets.Ideal(seal, open) && Settled(open, s) && CanMark(s, org, id)
    ensures var t := Erase(Mark(s, id), id);
      Settled(open, t) && t.rows == MarkAll(s.rows, {id}) && t == s.(rows := t.rows, objects := t.objects)
  {
    hide Inv, RefOf;
    var u := Mark(s, id);
    StepOk(seal, open, s, DoMark(org, id), u);
    StepOk(seal, open, u, DoErase(id), Erase(u, id));
  }

  lemma FetchExact(open: Open, s: Store, org: Org, id: Id)
    requires Inv(open, s)
    ensures Evidence.Fetch(open, s, org, id)
      == if Live(s, id) && s.rows[id].org == org && id in s.retained then Ok(s.retained[id]) else Err(NotFound)
  {
    hide Unseal, NothingElse;
    if Live(s, id) {
      assert Present(s, id) && RowOf(s, id) == s.rows[id];
    }
  }
}
