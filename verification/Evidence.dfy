/** Retained evidence: rows in the database, ciphertext in object storage, and the statements
    that keep the two in agreement while retentions, deletions, purges and key rotations
    interleave. */
module Evidence {
  import opened Basics
  import Keys
  import Secrets

  type Org = string
  type Id = string
  type Bytes = string
  type Subject = nat
  type Seal = Secrets.Seal
  type Open = Secrets.Open

  /** Identifiers are UUIDs in text form. */
  predicate IsUuid(s: string) { |s| == 36 }

  datatype Row = Row(org: Org, version: nat, expiresAt: int, deleted: bool, subject: Option<Subject>)

  /** drafts have been put into storage and not yet inserted; erasing are marked deleted and
      not yet removed from storage. retained remembers what each identifier was given. */
  datatype Store = Store(
    now: int, rows: map<Id, Row>, objects: map<string, string>, keys: map<Org, Keys.Rows>,
    drafts: map<Id, Row>, erasing: set<Id>, retained: map<Id, Bytes>)

  function RefOf(org: Org, id: Id): string { "evidence/" + org + "/" + id }

  function Aad(org: Org, id: Id): string { org + ":evidence:" + id }

  function KeysOf(s: Store, org: Org): Keys.Rows { if org in s.keys then s.keys[org] else map[] }

  // ---------------------------------------------------------------- the statements

  predicate CanPut(s: Store, org: Org, id: Id, version: nat, expiresAt: int) {
    && IsUuid(org) && IsUuid(id) && id !in s.retained && version in KeysOf(s, org) && expiresAt > s.now
  }

  /** storage.put of the freshly encrypted bytes. */
  function Put(seal: Seal, s: Store, org: Org, id: Id, version: nat, nonce: nat, bytes: Bytes, expiresAt: int, subject: Option<Subject>): Store
    requires CanPut(s, org, id, version, expiresAt)
  {
    var text := "enc1:" + seal(KeysOf(s, org)[version].key, nonce, bytes, Aad(org, id));
    s.(objects := s.objects[RefOf(org, id) := text],
       drafts := s.drafts[id := Row(org, version, expiresAt, false, subject)],
       retained := s.retained[id := bytes])
  }

  function Insert(s: Store, id: Id): Store
    requires id in s.drafts
  {
    s.(rows := s.rows[id := s.drafts[id]], drafts := s.drafts - {id})
  }

  /** The UPDATE of a deletion hits a row at most once. */
  predicate CanMark(s: Store, org: Org, id: Id) { id in s.rows && s.rows[id].org == org && !s.rows[id].deleted }

  function Mark(s: Store, id: Id): Store
    requires id in s.rows
  {
    s.(rows := s.rows[id := s.rows[id].(deleted := true)], erasing := s.erasing + {id})
  }

  /** storage.delete. */
  function Erase(s: Store, id: Id): Store
    requires id in s.rows
  {
    s.(objects := s.objects - {RefOf(s.rows[id].org, id)}, erasing := s.erasing - {id})
  }

  datatype Action =
    | DoPut(org: Org, id: Id, version: nat, nonce: nat, bytes: Bytes, expiresAt: int, subject: Option<Subject>)
    | DoInsert(id: Id)
    | DoMark(org: Org, id: Id)
    | DoErase(id: Id)
    | KeyStep(org: Org, rows: Keys.Rows)
    | Tick(now: int)

  /** A key step is any statement of the tenant's fetches and rotations. */
  ghost function Step(seal: Seal, s: Store, act: Action): Option<Store> {
    match act
    case DoPut(org, id, version, nonce, bytes, expiresAt, subject) =>
      if CanPut(s, org, id, version, expiresAt) then Some(Put(seal, s, org, id, version, nonce, bytes, expiresAt, subject)) else None
    case DoInsert(id) => if id in s.drafts then Some(Insert(s, id)) else None
    case DoMark(org, id) => if CanMark(s, org, id) then Some(Mark(s, id)) else None
    case DoErase(id) => if id in s.erasing && id in s.rows then Some(Erase(s, id)) else None
    case KeyStep(org, rows) => if Keys.KeysKept(KeysOf(s, org), rows) then Some(s.(keys := s.keys[org := rows])) else None
    case Tick(now) => if now < s.now then None else Some(s.(now := now))
  }

  function Init(now: int): Store { Store(now, map[], map[], map[], map[], {}, map[]) }

  ghost predicate IsTrace(seal: Seal, trace: seq<Store>, acts: seq<Action>, now: int) {
    && |trace| == |acts| + 1 && trace[0] == Init(now)
    && forall i :: 0 <= i < |acts| ==> Step(seal, trace[i], acts[i]) == Some(trace[i + 1])
  }

  // ---------------------------------------------------------------- reading

  datatype Error = NotFound | MissingObject | NotEnvelope | NotAuthentic
  datatype Result = Ok(bytes: Bytes) | Err(error: Error)

  predicate Live(s: Store, id: Id) { id in s.rows && !s.rows[id].deleted }

  /** What decrypting the object of a row gives, by the keys and objects of one moment. */
  function Unseal(open: Open, keys: Keys.Rows, objects: map<string, string>, id: Id, row: Row): Result {
    if RefOf(row.org, id) !in objects then Err(MissingObject)
    else
      var stored := objects[RefOf(row.org, id)];
      if |stored| < 5 || stored[..5] != "enc1:" || row.version !in keys then Err(NotEnvelope)
      else
        var plain := open(keys[row.version].key, stored[5..], Aad(row.org, id));
        if plain.None? then Err(NotAuthentic) else Ok(plain.value)
  }

  /** fetch, after authorisation. */
  function Fetch(open: Open, s: Store, org: Org, id: Id): Result {
    if !Live(s, id) || s.rows[id].org != org then Err(NotFound)
    else Unseal(open, KeysOf(s, org), s.objects, id, s.rows[id])
  }

  // ---------------------------------------------------------------- the invariant

  /** A row, or a row to be, whose object is in storage and opens to what was retained. */
  ghost predicate Backed(open: Open, s: Store, id: Id, row: Row) {
    id in s.retained && IsUuid(row.org) && Unseal(open, KeysOf(s, row.org), s.objects, id, row) == Ok(s.retained[id])
  }

  /** A draft, a live row, or a deleted row not yet erased: its object is in storage. */
  predicate Present(s: Store, id: Id) { id in s.drafts || Live(s, id) || id in s.erasing }

  function RowOf(s: Store, id: Id): Row {
    if id in s.drafts then s.drafts[id] else if id in s.rows then s.rows[id] else Row("", 0, 0, true, None)
  }

  /** The identifier an object in storage belongs to. */
  predicate Owns(s: Store, id: Id, ref: string) {
    Present(s, id) && ref == RefOf(RowOf(s, id).org, id)
  }

  ghost predicate Known(s: Store) {
    && (forall id :: id in s.retained <==> id in s.rows || id in s.drafts)
    && (forall id :: id in s.retained ==> IsUuid(id) && IsUuid(RowOf(s, id).org))
    && (forall id :: id in s.drafts ==> id !in s.rows && !s.drafts[id].deleted)
    && (forall id :: id in s.erasing ==> id in s.rows && s.rows[id].deleted)
  }

  ghost predicate AllBacked(open: Open, s: Store) {
    forall id :: Present(s, id) ==> Backed(open, s, id, RowOf(s, id))
  }

  /** Storage holds the objects of drafts, live rows and rows being erased, and nothing else. */
  ghost predicate NothingElse(s: Store) {
    forall ref :: ref in s.objects ==> exists id :: Owns(s, id, ref)
  }

  ghost predicate Inv(open: Open, s: Store) { Known(s) && AllBacked(open, s) && NothingElse(s) }

  lemma RefInjective(org: Org, id: Id, org2: Org, id2: Id)
    requires IsUuid(org) && IsUuid(org2) && IsUuid(id) && IsUuid(id2)
    ensures RefOf(org, id) == RefOf(org2, id2) <==> org == org2 && id == id2
  {
    var r, r2 := RefOf(org, id), RefOf(org2, id2);
    assert r[9..45] == org && r2[9..45] == org2 && r[46..] == id && r2[46..] == id2;
  }

  lemma PutBacked(seal: Seal, open: Open, s: Store, org: Org, id: Id, version: nat, nonce: nat, bytes: Bytes, expiresAt: int, subject: Option<Subject>)
    requires Secrets.Ideal(seal, open) && CanPut(s, org, id, version, expiresAt)
    ensures var t := Put(seal, s, org, id, version, nonce, bytes, expiresAt, subject); Backed(open, t, id, t.drafts[id])
  {
    var box := seal(KeysOf(s, org)[version].key, nonce, bytes, Aad(org, id));
    assert ("enc1:" + box)[..5] == "enc1:" && ("enc1:" + box)[5..] == box;
  }

  /** Writing or erasing one object leaves every other identifier's object alone. */
  lemma OtherBacked(open: Open, s: Store, t: Store, k: Id, row: Row, id: Id, org: Org)
    requires Backed(open, s, k, row) && k != id && IsUuid(k) && IsUuid(id) && IsUuid(org)
    requires t.keys == s.keys && k in t.retained && t.retained[k] == s.retained[k]
    requires forall ref :: ref in s.objects && ref != RefOf(org, id) ==> ref in t.objects && t.objects[ref] == s.objects[ref]
    ensures Backed(open, t, k, row)
  {
    RefInjective(row.org, k, org, id);
  }

  /** A statement that leaves the objects alone and only adds keys. */
  lemma CalmStep(open: Open, s: Store, t: Store)
    requires AllBacked(open, s) && NothingElse(s) && t.objects == s.objects && t.retained == s.retained
    requires forall org :: Keys.KeysKept(KeysOf(s, org), KeysOf(t, org))
    requires forall k :: Present(t, k) <==> Present(s, k)
    requires forall k :: RowOf(t, k).org == RowOf(s, k).org && RowOf(t, k).version == RowOf(s, k).version
    ensures AllBacked(open, t) && NothingElse(t)
  {
    hide RefOf, RowOf, Present, KeysOf, Keys.KeysKept, Unseal;
    forall k | Present(t, k) ensures Backed(open, t, k, RowOf(t, k)) {
      BackedCalm(open, s, t, k, RowOf(s, k), RowOf(t, k));
    }
    forall ref | ref in t.objects ensures exists k :: Owns(t, k, ref) {
      var k :| Owns(s, k, ref);
      assert Owns(t, k, ref);
    }
  }

  lemma BackedCalm(open: Open, s: Store, t: Store, id: Id, row: Row, later: Row)
    requires Backed(open, s, id, row) && later.org == row.org && later.version == row.version
    requires t.objects == s.objects && t.retained == s.retained && Keys.KeysKept(KeysOf(s, row.org), KeysOf(t, row.org))
    ensures Backed(open, t, id, later)
  {
  }

  lemma PutKnown(seal: Seal, s: Store, org: Org, id: Id, version: nat, nonce: nat, bytes: Bytes, expiresAt: int, subject: Option<Subject>)
    requires Known(s) && CanPut(s, org, id, version, expiresAt)
    ensures Known(Put(seal, s, org, id, version, nonce, bytes, expiresAt, subject))
  {
    hide RefOf, Aad;
  }

  lemma PutAllBacked(seal: Seal, open: Open, s: Store, org: Org, id: Id, version: nat, nonce: nat, bytes: Bytes, expiresAt: int, subject: Option<Subject>)
    requires Secrets.Ideal(seal, open) && Known(s) && AllBacked(open, s) && CanPut(s, org, id, version, expiresAt)
    ensures AllBacked(open, Put(seal, s, org, id, version, nonce, bytes, expiresAt, subject))
  {
    var t := Put(seal, s, org, id, version, nonce, bytes, expiresAt, subject);
    PutBacked(seal, open, s, org, id, version, nonce, bytes, expiresAt, subject);
    hide Backed, RefOf, Aad;
    forall k | Present(t, k) ensures Backed(open, t, k, RowOf(t, k)) {
      if k != id {
        OtherBacked(open, s, t, k, RowOf(s, k), id, org);
      }
    }
  }

  lemma PutNothingElse(seal: Seal, s: Store, org: Org, id: Id, version: nat, nonce: nat, bytes: Bytes, expiresAt: int, subject: Option<Subject>)
    requires Known(s) && NothingElse(s) && CanPut(s, org, id, version, expiresAt)
    ensures NothingElse(Put(seal, s, org, id, version, nonce, bytes, expiresAt, subject))
  {
    var t := Put(seal, s, org, id, version, nonce, bytes, expiresAt, subject);
    hide RefOf, Aad;
    forall ref | ref in t.objects ensures exists k :: Owns(t, k, ref) {
      if ref in s.objects {
        var k :| Owns(s, k, ref);
        assert Owns(t, k, ref);
      } else {
        assert Owns(t, id, ref);
      }
    }
  }

  lemma InsertOk(open: Open, s: Store, id: Id)
    requires Inv(open, s) && id in s.drafts
    ensures Inv(open, Insert(s, id))
  {
    hide AllBacked, NothingElse;
    CalmStep(open, s, Insert(s, id));
  }

  lemma MarkOk(open: Open, s: Store, org: Org, id: Id)
    requires Inv(open, s) && CanMark(s, org, id)
    ensures Inv(open, Mark(s, id))
  {
    hide AllBacked, NothingElse;
    CalmStep(open, s, Mark(s, id));
  }

  lemma EraseAllBacked(open: Open, s: Store, id: Id)
    requires Known(s) && AllBacked(open, s) && id in s.erasing && id in s.rows
    ensures AllBacked(open, Erase(s, id))
  {
    var t, org := Erase(s, id), s.rows[id].org;
    assert IsUuid(id) && IsUuid(RowOf(s, id).org);
    hide Backed, RefOf;
    forall k | Present(t, k) ensures Backed(open, t, k, RowOf(t, k)) {
      OtherBacked(open, s, t, k, RowOf(s, k), id, org);
    }
  }

  lemma EraseNothingElse(s: Store, id: Id)
    requires Known(s) && NothingElse(s) && id in s.erasing && id in s.rows
    ensures NothingElse(Erase(s, id))
  {
    var t := Erase(s, id);
    hide RefOf;
    forall ref | ref in t.objects ensures exists k :: Owns(t, k, ref) {
      var k :| Owns(s, k, ref);
      assert Owns(t, k, ref);
    }
  }

  lemma KeyStepOk(open: Open, s: Store, org: Org, rows: Keys.Rows)
    requires Inv(open, s) && Keys.KeysKept(KeysOf(s, org), rows)
    ensures Inv(open, s.(keys := s.keys[org := rows]))
  {
    hide AllBacked, NothingElse;
    CalmStep(open, s, s.(keys := s.keys[org := rows]));
  }

  lemma TickOk(open: Open, s: Store, now: int)
    requires Inv(open, s)
    ensures Inv(open, s.(now := now))
  {
    hide AllBacked, NothingElse;
    CalmStep(open, s, s.(now := now));
  }

  lemma StepOk(seal: Seal, open: Open, s: Store, act: Action, t: Store)
    requires Secrets.Ideal(seal, open) && Inv(open, s) && Step(seal, s, act) == Some(t)
    ensures Inv(open, t)
  {
    hide Put, Insert, Mark, Known, AllBacked, NothingElse, Secrets.Ideal;
    match act
    case DoPut(org, id, version, nonce, bytes, expiresAt, subject) =>
      PutKnown(seal, s, org, id, version, nonce, bytes, expiresAt, subject);
      PutAllBacked(seal, open, s, org, id, version, nonce, bytes, expiresAt, subject);
      PutNothingElse(seal, s, org, id, version, nonce, bytes, expiresAt, subject);
    case DoInsert(id) => InsertOk(open, s, id);
    case DoMark(org, id) => MarkOk(open, s, org, id);
    case DoErase(id) =>
      EraseKnown(s, id);
      EraseAllBacked(open, s, id);
      EraseNothingElse(s, id);
    case KeyStep(org, rows) => KeyStepOk(open, s, org, rows);
    case Tick(now) => TickOk(open, s, now);
  }

  lemma EraseKnown(s: Store, id: Id)
    requires Known(s) && id in s.rows
    ensures Known(Erase(s, id))
  {
    hide RefOf;
  }

  lemma {:induction false} TraceInv(seal: Seal, open: Open, trace: seq<Store>, acts: seq<Action>, now: int, i: nat)
    requires Secrets.Ideal(seal, open) && IsTrace(seal, trace, acts, now) && i < |trace|
    ensures Inv(open, trace[i])
    decreases i
  {
    if i == 0 {
    } else {
      TraceInv(seal, open, trace, acts, now, i - 1);
      hide Inv, Step, Secrets.Ideal;
      assert Step(seal, trace[i - 1], acts[i - 1]) == Some(trace[i]);
      StepOk(seal, open, trace[i - 1], acts[i - 1], trace[i]);
    }
  }

  // ---------------------------------------------------------------- main results

  /** At every moment of every run, rows and storage agree: fetch returns exactly what was
      retained for a live row of the organisation and refuses everything else, so a live row
      is never found without its object or under a key that does not open it. */
  lemma FetchIsExact(seal: Seal, open: Open, trace: seq<Store>, acts: seq<Action>, now: int, i: nat, org: Org, id: Id)
    requires Secrets.Ideal(seal, open) && IsTrace(seal, trace, acts, now) && i < |trace|
    ensures var s := trace[i];
      Fetch(open, s, org, id) == if Live(s, id) && s.rows[id].org == org && id in s.retained then Ok(s.retained[id]) else Err(NotFound)
  {
    TraceInv(seal, open, trace, acts, now, i);
    hide Unseal, NothingElse, Secrets.Ideal, Step;
    if Live(trace[i], id) {
      assert Present(trace[i], id) && RowOf(trace[i], id) == trace[i].rows[id];
    }
  }

  /** Storage never holds an object that no draft, live row or unfinished deletion accounts
      for, and every draft and live row has its object. */
  lemma StorageIsExact(seal: Seal, open: Open, trace: seq<Store>, acts: seq<Action>, now: int, i: nat, id: Id, ref: string)
    requires Secrets.Ideal(seal, open) && IsTrace(seal, trace, acts, now) && i < |trace|
    ensures ref in trace[i].objects ==> exists k :: Owns(trace[i], k, ref)
    ensures Present(trace[i], id) ==> RefOf(RowOf(trace[i], id).org, id) in trace[i].objects
  {
    TraceInv(seal, open, trace, acts, now, i);
  }

  /** What an identifier was given never changes, a row keeps its owner and key version, a
      deleted row stays deleted, and only a deletion of that row takes it out of service. */
  ghost predicate Later(s: Store, t: Store, id: Id) {
    && (forall org :: Keys.KeysKept(KeysOf(s, org), KeysOf(t, org)))
    && (id in s.retained ==> id in t.retained && t.retained[id] == s.retained[id])
    && (id in s.rows ==>
      && id in t.rows && t.rows[id] == s.rows[id].(deleted := t.rows[id].deleted)
      && (s.rows[id].deleted ==> t.rows[id].deleted))
  }

  lemma StepKeeps(seal: Seal, s: Store, act: Action, t: Store, id: Id)
    requires Known(s) && Step(seal, s, act) == Some(t)
    ensures Later(s, t, id)
    ensures Live(s, id) && !(act.DoMark? && act.id == id) ==> Live(t, id)
    ensures act.DoPut? && act.id == id ==> id in t.retained && t.retained[id] == act.bytes
  {
    hide RefOf, Aad;
  }

  lemma LaterStill(s: Store, u: Store, t: Store, id: Id)
    requires Later(s, u, id) && Later(u, t, id)
    ensures Later(s, t, id)
  {
    hide KeysOf;
    forall org ensures Keys.KeysKept(KeysOf(s, org), KeysOf(t, org)) {
      assert Keys.KeysKept(KeysOf(s, org), KeysOf(u, org)) && Keys.KeysKept(KeysOf(u, org), KeysOf(t, org));
    }
  }

  lemma {:induction false} RunKeeps(seal: Seal, open: Open, trace: seq<Store>, acts: seq<Action>, now: int, i: nat, j: nat, id: Id)
    requires Secrets.Ideal(seal, open) && IsTrace(seal, trace, acts, now) && i <= j < |trace|
    ensures Later(trace[i], trace[j], id)
    decreases j
  {
    if i == j {
      hide IsTrace;
      assert Later(trace[i], trace[i], id);
    } else {
      hide Later, Secrets.Ideal;
      RunKeeps(seal, open, trace, acts, now, i, j - 1, id);
      TraceInv(seal, open, trace, acts, now, j - 1);
      hide Step, Known, AllBacked, NothingElse;
      assert Step(seal, trace[j - 1], acts[j - 1]) == Some(trace[j]);
      StepKeeps(seal, trace[j - 1], acts[j - 1], trace[j], id);
      LaterStill(trace[i], trace[j - 1], trace[j], id);
    }
  }

  /** No step of acts[i..j] deletes the row. */
  ghost predicate Undeleted(acts: seq<Action>, i: nat, j: nat, id: Id)
    requires j <= |acts|
  {
    forall k :: i <= k < j ==> !(acts[k].DoMark? && acts[k].id == id)
  }

  lemma {:induction false} StaysLive(seal: Seal, open: Open, trace: seq<Store>, acts: seq<Action>, now: int, i: nat, j: nat, id: Id)
    requires Secrets.Ideal(seal, open) && IsTrace(seal, trace, acts, now) && i <= j < |trace|
    requires Live(trace[i], id) && Undeleted(acts, i, j, id)
    ensures Live(trace[j], id)
    decreases j
  {
    hide Step, Secrets.Ideal, Later, Live, Known, AllBacked, NothingElse;
    if i < j {
      StaysLive(seal, open, trace, acts, now, i, j - 1, id);
      TraceInv(seal, open, trace, acts, now, j - 1);
      assert Step(seal, trace[j - 1], acts[j - 1]) == Some(trace[j]);
      StepKeeps(seal, trace[j - 1], acts[j - 1], trace[j], id);
    }
  }

  /** Bytes retained at step i are what every later fetch of that row returns while nobody
      deletes it, through any other retentions, deletions, purges and key rotations. */
  lemma RetainedBytesComeBack(seal: Seal, open: Open, trace: seq<Store>, acts: seq<Action>, now: int, i: nat, k: nat, j: nat)
    requires Secrets.Ideal(seal, open) && IsTrace(seal, trace, acts, now) && i < k <= j <= |acts|
    requires acts[i].DoPut? && Live(trace[k], acts[i].id) && trace[k].rows[acts[i].id].org == acts[i].org
    requires Undeleted(acts, k, j, acts[i].id)
    ensures Fetch(open, trace[j], acts[i].org, acts[i].id) == Ok(acts[i].bytes)
  {
    var id := acts[i].id;
    TraceInv(seal, open, trace, acts, now, i);
    assert Step(seal, trace[i], acts[i]) == Some(trace[i + 1]);
    StepKeeps(seal, trace[i], acts[i], trace[i + 1], id);
    RunKeeps(seal, open, trace, acts, now, i + 1, j, id);
    RunKeeps(seal, open, trace, acts, now, k, j, id);
    StaysLive(seal, open, trace, acts, now, k, j, id);
    hide Fetch, Step, Known, Secrets.Ideal;
    FetchIsExact(seal, open, trace, acts, now, j, acts[i].org, id);
  }

  /** fetch reads the row, then the object, then the key. With other statements in between
      it still returns the retained bytes, or finds the object gone and then the row was
      deleted after the first read. */
  lemma FetchAcrossMoments(seal: Seal, open: Open, trace: seq<Store>, acts: seq<Action>, now: int, i: nat, j: nat, k: nat, id: Id)
    requires Secrets.Ideal(seal, open) && IsTrace(seal, trace, acts, now) && i <= j <= k < |trace| && Live(trace[i], id)
    ensures id in trace[i].retained && id in trace[j].rows
    ensures var row := trace[i].rows[id];
      var r := Unseal(open, KeysOf(trace[k], row.org), trace[j].objects, id, row);
      r == Ok(trace[i].retained[id]) || (r == Err(MissingObject) && trace[j].rows[id].deleted)
  {
    TraceInv(seal, open, trace, acts, now, i);
    TraceInv(seal, open, trace, acts, now, j);
    RunKeeps(seal, open, trace, acts, now, i, j, id);
    RunKeeps(seal, open, trace, acts, now, j, k, id);
    var s, row := trace[j], trace[i].rows[id];
    assert id !in s.drafts && RowOf(s, id) == s.rows[id];
    if Present(s, id) {
      UnsealLater(open, s, KeysOf(trace[k], row.org), id, RowOf(s, id), row);
    } else {
      ObjectGone(s, id);
    }
  }

  lemma UnsealLater(open: Open, s: Store, keys: Keys.Rows, id: Id, row: Row, read: Row)
    requires Backed(open, s, id, row) && read.org == row.org && read.version == row.version
    requires Keys.KeysKept(KeysOf(s, row.org), keys)
    ensures Unseal(open, keys, s.objects, id, read) == Ok(s.retained[id])
  {
  }

  /** An erased row's object is not in storage under any other identifier's name. */
  lemma ObjectGone(s: Store, id: Id)
    requires Known(s) && NothingElse(s) && id in s.rows && !Present(s, id)
    ensures RefOf(s.rows[id].org, id) !in s.objects
  {
    var ref := RefOf(s.rows[id].org, id);
    assert IsUuid(id) && IsUuid(RowOf(s, id).org);
    hide RefOf;
    if ref in s.objects {
      var k :| Owns(s, k, ref);
      RefInjective(s.rows[id].org, id, RowOf(s, k).org, k);
    }
  }
}
