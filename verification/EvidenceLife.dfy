/** What can be fetched and what is stored after a run, told from the statements of the run
    alone: which bytes were uploaded, inserted, marked deleted and removed. */
module EvidenceLife {
  import opened Basics
  import opened Evidence
  import Keys
  import Secrets

  // ---------------------------------------------------------------- statements of a run

  ghost predicate InsertedIn(acts: seq<Action>, lo: nat, hi: nat, id: Id) {
    exists k :: lo <= k < hi && k < |acts| && acts[k] == DoInsert(id)
  }

  ghost predicate MarkedIn(acts: seq<Action>, lo: nat, hi: nat, id: Id) {
    exists k :: lo <= k < hi && k < |acts| && acts[k].DoMark? && acts[k].id == id
  }

  ghost predicate RemovedIn(acts: seq<Action>, lo: nat, hi: nat, id: Id) {
    exists k :: lo <= k < hi && k < |acts| && acts[k] == DoErase(id)
  }

  predicate Uploads(act: Action, org: Org, id: Id) { act.DoPut? && act.org == org && act.id == id }

  lemma OneMore(acts: seq<Action>, lo: nat, j: nat, id: Id)
    requires lo <= j < |acts|
    ensures InsertedIn(acts, lo, j + 1, id) <==> InsertedIn(acts, lo, j, id) || acts[j] == DoInsert(id)
    ensures MarkedIn(acts, lo, j + 1, id) <==> MarkedIn(acts, lo, j, id) || (acts[j].DoMark? && acts[j].id == id)
    ensures RemovedIn(acts, lo, j + 1, id) <==> RemovedIn(acts, lo, j, id) || acts[j] == DoErase(id)
  {
  }

  // ---------------------------------------------------------------- one identifier's life

  /** What a store holds about one identifier. */
  datatype Trail = Trail(draft: Option<Row>, row: Option<Row>, erasing: bool, bytes: Option<Bytes>)

  function TrailOf(s: Store, id: Id): Trail {
    Trail(if id in s.drafts then Some(s.drafts[id]) else None, if id in s.rows then Some(s.rows[id]) else None,
          id in s.erasing, if id in s.retained then Some(s.retained[id]) else None)
  }

  lemma TrailStep(seal: Seal, s: Store, act: Action, t: Store, id: Id)
    requires Known(s) && Step(seal, s, act) == Some(t)
    ensures var a, b := TrailOf(s, id), TrailOf(t, id);
      && (act.DoPut? && act.id == id ==>
            a.bytes == None && IsUuid(act.org) && IsUuid(id)
            && b == Trail(Some(Row(act.org, act.version, act.expiresAt, false, act.subject)), None, false, Some(act.bytes)))
      && (act == DoInsert(id) ==> a.draft.Some? && b == a.(draft := None, row := a.draft))
      && (act.DoMark? && act.id == id ==>
            a.row.Some? && !a.row.value.deleted && act.org == a.row.value.org
            && b == a.(row := Some(a.row.value.(deleted := true)), erasing := true))
      && (act == DoErase(id) ==> a.erasing && b == a.(erasing := false))
      && (!(act.DoPut? && act.id == id) && act != DoInsert(id) && !(act.DoMark? && act.id == id) && act != DoErase(id) ==> b == a)
  {
    hide RefOf, Aad;
  }

  /** The trail of an identifier some statements after its upload. */
  ghost predicate TrailAt(s: Store, put: Action, inserted: bool, marked: bool, removed: bool)
    requires put.DoPut?
  {
    var row := Row(put.org, put.version, put.expiresAt, marked, put.subject);
    TrailOf(s, put.id) == Trail(if inserted then None else Some(row), if inserted then Some(row) else None, marked && !removed, Some(put.bytes))
    && (marked ==> inserted) && (removed ==> marked)
  }

  lemma TrailNext(seal: Seal, s: Store, act: Action, t: Store, put: Action, inserted: bool, marked: bool, removed: bool)
    requires Known(s) && Step(seal, s, act) == Some(t) && put.DoPut? && TrailAt(s, put, inserted, marked, removed)
    ensures TrailAt(t, put, inserted || act == DoInsert(put.id), marked || (act.DoMark? && act.id == put.id), removed || act == DoErase(put.id))
  {
    TrailStep(seal, s, act, t, put.id);
    hide Step, TrailOf, Known;
  }

  /** The last statement of a run, on a store in order. */
  lemma LastStep(seal: Seal, open: Open, trace: seq<Store>, acts: seq<Action>, now: int, j: nat)
    requires Secrets.Ideal(seal, open) && IsTrace(seal, trace, acts, now) && 0 < j < |trace|
    ensures |trace| == |acts| + 1 && Known(trace[j - 1]) && Step(seal, trace[j - 1], acts[j - 1]) == Some(trace[j])
  {
    TraceInv(seal, open, trace, acts, now, j - 1);
  }

  lemma JustUploaded(seal: Seal, s: Store, put: Action, t: Store)
    requires Known(s) && Step(seal, s, put) == Some(t) && put.DoPut?
    ensures TrailAt(t, put, false, false, false)
  {
    TrailStep(seal, s, put, t, put.id);
    hide Step, TrailOf, Known;
  }

  lemma NothingYet(acts: seq<Action>, i: nat, id: Id)
    ensures !InsertedIn(acts, i, i, id) && !MarkedIn(acts, i, i, id) && !RemovedIn(acts, i, i, id)
  {
  }

  lemma LifeNext(seal: Seal, s: Store, t: Store, acts: seq<Action>, i: nat, j: nat)
    requires i < j < |acts| && acts[i].DoPut? && Known(s) && Step(seal, s, acts[j]) == Some(t)
    requires var id := acts[i].id; TrailAt(s, acts[i], InsertedIn(acts, i + 1, j, id), MarkedIn(acts, i + 1, j, id), RemovedIn(acts, i + 1, j, id))
    ensures var id := acts[i].id;
      TrailAt(t, acts[i], InsertedIn(acts, i + 1, j + 1, id), MarkedIn(acts, i + 1, j + 1, id), RemovedIn(acts, i + 1, j + 1, id))
  {
    var id := acts[i].id;
    hide *;
    OneMore(acts, i + 1, j, id);
    TrailNext(seal, s, acts[j], t, acts[i], InsertedIn(acts, i + 1, j, id), MarkedIn(acts, i + 1, j, id), RemovedIn(acts, i + 1, j, id));
  }

  lemma {:induction false} Life(seal: Seal, open: Open, trace: seq<Store>, acts: seq<Action>, now: int, i: nat, j: nat)
    requires Secrets.Ideal(seal, open) && IsTrace(seal, trace, acts, now) && i < j < |trace| && acts[i].DoPut?
    ensures var id := acts[i].id;
      TrailAt(trace[j], acts[i], InsertedIn(acts, i + 1, j, id), MarkedIn(acts, i + 1, j, id), RemovedIn(acts, i + 1, j, id))
    decreases j
  {
    var id := acts[i].id;
    hide *;
    LastStep(seal, open, trace, acts, now, j);
    if i + 1 < j {
      Life(seal, open, trace, acts, now, i, j - 1);
      LifeNext(seal, trace[j - 1], trace[j], acts, i, j - 1);
    } else {
      NothingYet(acts, j, id);
      JustUploaded(seal, trace[i], acts[i], trace[j]);
    }
  }

  /** Whatever is known of an identifier goes back to its upload. */
  lemma {:induction false} Uploaded(seal: Seal, open: Open, trace: seq<Store>, acts: seq<Action>, now: int, j: nat, id: Id) returns (i: nat)
    requires Secrets.Ideal(seal, open) && IsTrace(seal, trace, acts, now) && j < |trace| && id in trace[j].retained
    ensures i < j && acts[i].DoPut? && acts[i].id == id
    decreases j
  {
    assert j > 0;
    TraceInv(seal, open, trace, acts, now, j - 1);
    assert Step(seal, trace[j - 1], acts[j - 1]) == Some(trace[j]);
    hide Step, Secrets.Ideal, AllBacked, NothingElse;
    TrailStep(seal, trace[j - 1], acts[j - 1], trace[j], id);
    if id in trace[j - 1].retained {
      i := Uploaded(seal, open, trace, acts, now, j - 1, id);
    } else {
      i := j - 1;
    }
  }

  // ---------------------------------------------------------------- main results

  /** Statement i uploaded these bytes for the organisation, a later one inserted the row, and
      none up to j marked it deleted. */
  ghost predicate InService(acts: seq<Action>, i: nat, j: nat, org: Org, id: Id, bytes: Bytes) {
    && i < j && i < |acts| && Uploads(acts[i], org, id) && acts[i].bytes == bytes
    && InsertedIn(acts, i + 1, j, id) && !MarkedIn(acts, i + 1, j, id)
  }

  /** At every moment of every run a fetch returns bytes exactly when they were uploaded for
      that organisation and identifier, the row was inserted and nobody has deleted it since;
      nothing else is ever returned, and every other answer is that nothing was found. */
  lemma FetchIff(seal: Seal, open: Open, trace: seq<Store>, acts: seq<Action>, now: int, j: nat, org: Org, id: Id)
    requires Secrets.Ideal(seal, open) && IsTrace(seal, trace, acts, now) && j < |trace|
    ensures forall bytes :: Fetch(open, trace[j], org, id) == Ok(bytes) <==> exists i :: InService(acts, i, j, org, id, bytes)
    ensures Fetch(open, trace[j], org, id).Err? ==> Fetch(open, trace[j], org, id) == Err(NotFound)
  {
    FetchIsExact(seal, open, trace, acts, now, j, org, id);
    TraceInv(seal, open, trace, acts, now, j);
    var s := trace[j];
    hide IsTrace, Fetch, InsertedIn, MarkedIn, RemovedIn, AllBacked, NothingElse, Secrets.Ideal;
    forall i, bytes | InService(acts, i, j, org, id, bytes) ensures Fetch(open, s, org, id) == Ok(bytes) {
      Life(seal, open, trace, acts, now, i, j);
    }
    if Fetch(open, s, org, id).Ok? {
      var i := Uploaded(seal, open, trace, acts, now, j, id);
      Life(seal, open, trace, acts, now, i, j);
      assert InService(acts, i, j, org, id, acts[i].bytes);
    }
  }

  /** Statement i uploaded the object and none up to j removed it. */
  ghost predicate Stored(acts: seq<Action>, i: nat, j: nat, org: Org, id: Id) {
    i < j && i < |acts| && Uploads(acts[i], org, id) && !RemovedIn(acts, i + 1, j, id)
  }

  /** An object is in storage exactly when it was uploaded and not removed, and it is removed
      only after its row was marked deleted. */
  lemma StoredIff(seal: Seal, open: Open, trace: seq<Store>, acts: seq<Action>, now: int, j: nat, org: Org, id: Id)
    requires Secrets.Ideal(seal, open) && IsTrace(seal, trace, acts, now) && j < |trace| && IsUuid(org) && IsUuid(id)
    ensures "evidence/" + org + "/" + id in trace[j].objects <==> exists i :: Stored(acts, i, j, org, id)
    ensures forall i :: 0 <= i < j && i < |acts| && Uploads(acts[i], org, id) && RemovedIn(acts, i + 1, j, id) ==> MarkedIn(acts, i + 1, j, id)
  {
    TraceInv(seal, open, trace, acts, now, j);
    var s, ref := trace[j], "evidence/" + org + "/" + id;
    assert ref == RefOf(org, id);
    hide IsTrace, RefOf, InsertedIn, MarkedIn, RemovedIn, Secrets.Ideal;
    forall i: nat | i < j && i < |acts| && Uploads(acts[i], org, id)
      ensures RemovedIn(acts, i + 1, j, id) ==> MarkedIn(acts, i + 1, j, id)
      ensures !RemovedIn(acts, i + 1, j, id) ==> ref in s.objects
    {
      Life(seal, open, trace, acts, now, i, j);
      if !RemovedIn(acts, i + 1, j, id) {
        StorageIsExact(seal, open, trace, acts, now, j, id, ref);
      }
    }
    if ref in s.objects {
      StorageIsExact(seal, open, trace, acts, now, j, id, ref);
      var k :| Owns(s, k, ref);
      RefInjective(RowOf(s, k).org, k, org, id);
      var i := Uploaded(seal, open, trace, acts, now, j, k);
      Life(seal, open, trace, acts, now, i, j);
      assert Stored(acts, i, j, org, id);
    }
  }
}
