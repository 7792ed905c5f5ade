/** Retentions and deletions that stop halfway: an upload whose row is never inserted, and a
    deletion that marked its row and never removed the object. Which objects then stay in
    storage for good. */
module EvidenceLeak {
  import opened Basics
  import opened Evidence
  import Keys
  import Secrets

  /** The store, and the identifiers whose retention or deletion stopped halfway. */
  datatype State = State(store: Store, stopped: set<Id>)

  datatype Action = Other(act: Evidence.Action) | Stop(id: Id)

  predicate HalfDone(s: Store, id: Id) { id in s.drafts || id in s.erasing }

  /** The statement that would finish what was begun. */
  predicate Finishes(act: Evidence.Action, id: Id) { (act.DoInsert? || act.DoErase?) && act.id == id }

  ghost function Step(seal: Seal, s: State, act: Action): Option<State> {
    match act
    case Stop(id) => if HalfDone(s.store, id) then Some(s.(stopped := s.stopped + {id})) else None
    case Other(a) =>
      if (a.DoInsert? || a.DoErase?) && a.id in s.stopped then None
      else
        var t := Evidence.Step(seal, s.store, a);
        if t.None? then None else Some(s.(store := t.value))
  }

  ghost function Exec(seal: Seal, s: State, acts: seq<Action>): Option<State>
    decreases |acts|
  {
    if acts == [] then Some(s)
    else
      match Step(seal, s, acts[0])
      case None => None
      case Some(t) => Exec(seal, t, acts[1..])
  }

  function Init(now: int): State { State(Evidence.Init(now), {}) }

  ghost predicate Ok(open: Open, s: State) { Inv(open, s.store) && forall id :: id in s.stopped ==> HalfDone(s.store, id) }

  lemma StepOk(seal: Seal, open: Open, s: State, act: Action, t: State)
    requires Secrets.Ideal(seal, open) && Ok(open, s) && Step(seal, s, act) == Some(t)
    ensures Ok(open, t) && s.stopped <= t.stopped
  {
    if act.Other? {
      Evidence.StepOk(seal, open, s.store, act.act, t.store);
      assert Known(s.store);
      hide Inv, Known;
      forall id | id in s.stopped ensures HalfDone(t.store, id) {
        StaysHalfDone(seal, s.store, act.act, t.store, id);
      }
    }
  }

  lemma StaysHalfDone(seal: Seal, s: Store, a: Evidence.Action, t: Store, id: Id)
    requires Evidence.Step(seal, s, a) == Some(t) && HalfDone(s, id) && !Finishes(a, id)
    ensures HalfDone(t, id)
  {
    hide RefOf, Aad, CanMark;
  }

  lemma {:induction false} ExecOk(seal: Seal, open: Open, s: State, acts: seq<Action>)
    requires Secrets.Ideal(seal, open) && Ok(open, s) && Exec(seal, s, acts).Some?
    ensures Ok(open, Exec(seal, s, acts).value) && s.stopped <= Exec(seal, s, acts).value.stopped
    decreases |acts|
  {
    if acts != [] {
      var t := Step(seal, s, acts[0]).value;
      StepOk(seal, open, s, acts[0], t);
      hide Ok, Step, Secrets.Ideal;
      ExecOk(seal, open, t, acts[1..]);
    }
  }

  // ---------------------------------------------------------------- who is left in storage

  /** The identifier's object, named as at the moment of its upload. */
  ghost predicate Holds(s: State, id: Id) { RefOf(RowOf(s.store, id).org, id) in s.store.objects }

  /** Whatever happens next, the object stays in storage, and no fetch ever returns it. */
  ghost predicate Leaked(seal: Seal, open: Open, s: State, id: Id) {
    forall acts :: Exec(seal, s, acts).Some? ==> Holds(Exec(seal, s, acts).value, id) && !Live(Exec(seal, s, acts).value.store, id)
  }

  lemma StoppedHolds(open: Open, s: State, id: Id)
    requires Ok(open, s) && id in s.stopped
    ensures Holds(s, id) && !Live(s.store, id)
  {
    assert Present(s.store, id) && Backed(open, s.store, id, RowOf(s.store, id));
    hide RefOf;
  }

  /** Some continuation takes the object out of storage. */
  lemma Removable(seal: Seal, open: Open, s: State, id: Id) returns (acts: seq<Action>)
    requires Ok(open, s) && Present(s.store, id) && id !in s.stopped
    ensures Exec(seal, s, acts).Some? && !Holds(Exec(seal, s, acts).value, id)
  {
    hide RefOf, Backed, Secrets.Ideal;
    assert Exec(seal, s, []) == Some(s);
    if id in s.store.drafts {
      var t := s.(store := Insert(s.store, id));
      assert Step(seal, s, Other(DoInsert(id))) == Some(t);
      acts := LiveRemovable(seal, t, id);
      acts := Before(seal, s, Other(DoInsert(id)), t, acts);
    } else if Live(s.store, id) {
      acts := LiveRemovable(seal, s, id);
    } else {
      acts := ErasingRemovable(seal, s, id);
    }
  }

  lemma Before(seal: Seal, s: State, act: Action, t: State, more: seq<Action>) returns (acts: seq<Action>)
    requires Step(seal, s, act) == Some(t)
    ensures Exec(seal, s, acts) == Exec(seal, t, more)
  {
    acts := [act] + more;
    assert acts[1..] == more;
    hide Step;
  }

  lemma LiveRemovable(seal: Seal, s: State, id: Id) returns (acts: seq<Action>)
    requires Live(s.store, id) && id !in s.stopped && id !in s.store.drafts
    ensures Exec(seal, s, acts).Some? && !Holds(Exec(seal, s, acts).value, id)
  {
    hide RefOf;
    var t := s.(store := Mark(s.store, id));
    var act := Other(DoMark(s.store.rows[id].org, id));
    assert Step(seal, s, act) == Some(t);
    acts := ErasingRemovable(seal, t, id);
    acts := Before(seal, s, act, t, acts);
  }

  lemma ErasingRemovable(seal: Seal, s: State, id: Id) returns (acts: seq<Action>)
    requires id in s.store.erasing && id in s.store.rows && id !in s.stopped && id !in s.store.drafts
    ensures Exec(seal, s, acts).Some? && !Holds(Exec(seal, s, acts).value, id)
  {
    hide RefOf;
    var t := s.(store := Erase(s.store, id));
    assert Exec(seal, t, []) == Some(t);
    acts := Before(seal, s, Other(DoErase(id)), t, []);
  }

  lemma InitOk(open: Open, now: int)
    ensures Ok(open, Init(now))
  {
  }

  /** At every moment of every run, the object of a retention, a live row or an unfinished
      deletion is leaked if and only if that retention or deletion stopped halfway. */
  lemma LeakedIff(seal: Seal, open: Open, acts: seq<Action>, now: int, id: Id)
    requires Secrets.Ideal(seal, open) && Exec(seal, Init(now), acts).Some?
    requires Present(Exec(seal, Init(now), acts).value.store, id)
    ensures Leaked(seal, open, Exec(seal, Init(now), acts).value, id) <==> id in Exec(seal, Init(now), acts).value.stopped
  {
    InitOk(open, now);
    ExecOk(seal, open, Init(now), acts);
    var s := Exec(seal, Init(now), acts).value;
    hide Ok, Holds, Step, Secrets.Ideal;
    if id in s.stopped {
      forall more | Exec(seal, s, more).Some? ensures Holds(Exec(seal, s, more).value, id) && !Live(Exec(seal, s, more).value.store, id) {
        ExecOk(seal, open, s, more);
        StoppedHolds(open, Exec(seal, s, more).value, id);
      }
    } else {
      var more := Removable(seal, open, s, id);
    }
  }

  // ---------------------------------------------------------------- runs that leak

  ghost predicate NothingStops(acts: seq<Action>) { forall i :: 0 <= i < |acts| ==> !acts[i].Stop? }

  lemma {:induction false} NobodyStopped(seal: Seal, s: State, acts: seq<Action>)
    requires Exec(seal, s, acts).Some? && NothingStops(acts)
    ensures Exec(seal, s, acts).value.stopped == s.stopped
    decreases |acts|
  {
    if acts != [] {
      assert !acts[0].Stop?;
      NobodyStopped(seal, Step(seal, s, acts[0]).value, acts[1..]);
    }
  }

  ghost predicate NothingLeaks(seal: Seal, open: Open, unstopped: bool) {
    forall acts, now, id :: Exec(seal, Init(now), acts).Some? && (unstopped ==> NothingStops(acts)) ==>
      LeakFree(seal, open, Exec(seal, Init(now), acts).value, id)
  }

  ghost predicate LeakFree(seal: Seal, open: Open, s: State, id: Id) { Present(s.store, id) ==> !Leaked(seal, open, s, id) }

  /** A retention that stops between its put and its insert leaves its object for good. */
  lemma UploadLeaks(seal: Seal, open: Open, org: Org, id: Id, key: Keys.Key, bytes: Bytes) returns (acts: seq<Action>)
    requires Secrets.Ideal(seal, open) && IsUuid(org) && IsUuid(id)
    ensures Exec(seal, Init(0), acts).Some?
    ensures var s := Exec(seal, Init(0), acts).value; Present(s.store, id) && id in s.stopped && Leaked(seal, open, s, id)
  {
    var keys: Keys.Rows := map[1 := Keys.Row(key, true)];
    var a0, a1, a2 := Other(KeyStep(org, keys)), Other(DoPut(org, id, 1, 0, bytes, 1, None)), Stop(id);
    var s0 := Init(0);
    var s1 := Step(seal, s0, a0).value;
    assert CanPut(s1.store, org, id, 1, 1);
    var s2 := s1.(store := Put(seal, s1.store, org, id, 1, 0, bytes, 1, None));
    assert Step(seal, s1, a1) == Some(s2);
    var s3 := s2.(stopped := s2.stopped + {id});
    assert Step(seal, s2, a2) == Some(s3);
    assert Exec(seal, s3, []) == Some(s3);
    acts := Before(seal, s2, a2, s3, []);
    acts := Before(seal, s1, a1, s2, acts);
    acts := Before(seal, s0, a0, s1, acts);
    LeakedIff(seal, open, acts, 0, id);
  }

  /** So does a deletion that stops between its update and the removal. */
  lemma DeletionLeaks(seal: Seal, open: Open, org: Org, id: Id, key: Keys.Key, bytes: Bytes) returns (acts: seq<Action>)
    requires Secrets.Ideal(seal, open) && IsUuid(org) && IsUuid(id)
    ensures Exec(seal, Init(0), acts).Some?
    ensures var s := Exec(seal, Init(0), acts).value;
      id in s.store.rows && s.store.rows[id].deleted && id in s.stopped && Leaked(seal, open, s, id)
  {
    var keys: Keys.Rows := map[1 := Keys.Row(key, true)];
    var a0, a1, a2 := Other(KeyStep(org, keys)), Other(DoPut(org, id, 1, 0, bytes, 1, None)), Other(DoInsert(id));
    var a3, a4 := Other(DoMark(org, id)), Stop(id);
    var s0 := Init(0);
    var s1 := Step(seal, s0, a0).value;
    assert CanPut(s1.store, org, id, 1, 1);
    var s2 := s1.(store := Put(seal, s1.store, org, id, 1, 0, bytes, 1, None));
    assert Step(seal, s1, a1) == Some(s2);
    var s3 := s2.(store := Insert(s2.store, id));
    assert Step(seal, s2, a2) == Some(s3);
    var s4 := s3.(store := Mark(s3.store, id));
    assert Step(seal, s3, a3) == Some(s4);
    var s5 := s4.(stopped := s4.stopped + {id});
    assert Step(seal, s4, a4) == Some(s5);
    assert id in s5.store.rows && s5.store.rows[id].deleted && Present(s5.store, id);
    assert Exec(seal, s5, []) == Some(s5);
    hide Put, Insert, Mark, Step;
    acts := Before(seal, s4, a4, s5, []);
    acts := Before(seal, s3, a3, s4, acts);
    acts := Before(seal, s2, a2, s3, acts);
    acts := Before(seal, s1, a1, s2, acts);
    acts := Before(seal, s0, a0, s1, acts);
    LeakedIff(seal, open, acts, 0, id);
  }

  /** No object is ever leaked if and only if no retention and no deletion stops halfway. */
  lemma NothingLeaksIff(seal: Seal, open: Open, unstopped: bool, org: Org, id: Id, key: Keys.Key, bytes: Bytes)
    requires Secrets.Ideal(seal, open) && IsUuid(org) && IsUuid(id)
    ensures NothingLeaks(seal, open, unstopped) <==> unstopped
  {
    if unstopped {
      forall acts, now, k | Exec(seal, Init(now), acts).Some? && NothingStops(acts)
        ensures LeakFree(seal, open, Exec(seal, Init(now), acts).value, k)
      {
        NobodyStopped(seal, Init(now), acts);
        if Present(Exec(seal, Init(now), acts).value.store, k) {
          LeakedIff(seal, open, acts, now, k);
        }
      }
    } else {
      var acts := UploadLeaks(seal, open, org, id, key, bytes);
      assert !LeakFree(seal, open, Exec(seal, Init(0), acts).value, id);
    }
  }
}
