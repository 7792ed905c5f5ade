/** The retention sweep among other callers: selecting, then for each selected row the
    deletion's UPDATE and the removal from storage, with any other statements in between. */
module EvidencePurge {
  import opened Basics
  import opened Evidence
  import EvidenceService
  import Secrets

  datatype Phase = Off | Sweeping(todo: set<Id>) | Removing(id: Id, todo: set<Id>)

  /** The store with one sweep at work: when it selected, which rows there were and which it
      selected then, and which its own UPDATE has marked. */
  datatype State = State(store: Store, phase: Phase, at: int, known: set<Id>, selected: set<Id>, mine: set<Id>)

  datatype Action = Other(act: Evidence.Action) | Select | MarkNext(id: Id) | Remove | Finish

  ghost function Step(seal: Seal, s: State, act: Action): Option<State> {
    match act
    case Other(a) =>
      var t := Evidence.Step(seal, s.store, a);
      if t.None? then None else Some(s.(store := t.value))
    case Select =>
      if s.phase != Off then None
      else
        var ids := EvidenceService.Expired(s.store);
        Some(State(s.store, Sweeping(ids), s.store.now, s.store.rows.Keys, ids, {}))
    case MarkNext(id) =>
      if !s.phase.Sweeping? || id !in s.phase.todo || id !in s.store.rows then None
      else if CanMark(s.store, s.store.rows[id].org, id) then
        Some(s.(store := Mark(s.store, id), phase := Removing(id, s.phase.todo - {id}), mine := s.mine + {id}))
      else Some(s.(phase := Sweeping(s.phase.todo - {id})))
    case Remove =>
      if !s.phase.Removing? || s.phase.id !in s.store.rows then None
      else
        var store := if s.phase.id in s.store.erasing then Erase(s.store, s.phase.id) else s.store;
        Some(s.(store := store, phase := Sweeping(s.phase.todo)))
    case Finish => if s.phase == Sweeping({}) then Some(s.(phase := Off)) else None
  }

  ghost predicate IsTrace(seal: Seal, trace: seq<State>, acts: seq<Action>, now: int) {
    && |trace| == |acts| + 1 && trace[0] == State(Init(now), Off, now, {}, {}, {})
    && forall i :: 0 <= i < |acts| ==> Step(seal, trace[i], acts[i]) == Some(trace[i + 1])
  }

  // ---------------------------------------------------------------- the invariant

  function Todo(s: State): set<Id> { if s.phase.Off? then {} else s.phase.todo }

  predicate InHand(s: State, id: Id) { s.phase.Removing? && s.phase.id == id }

  predicate Deleted(s: Store, id: Id) { id in s.rows && s.rows[id].deleted }

  ghost predicate SelectedOk(s: State) {
    && s.mine <= s.selected && Todo(s) <= s.selected
    && forall id :: id in s.selected ==>
      id in s.store.rows && s.store.rows[id].expiresAt <= s.at && (id !in Todo(s) ==> Deleted(s.store, id))
  }

  ghost predicate MineOk(s: State) {
    forall id :: id in s.mine ==> Deleted(s.store, id) && (id in s.store.erasing ==> InHand(s, id))
  }

  /** A row known at selection and past its expiry then is live only while its turn has not
      come. */
  ghost predicate KnownOk(s: State) {
    forall id :: id in s.known ==>
      id in s.store.rows && (Live(s.store, id) && s.store.rows[id].expiresAt <= s.at ==> id in Todo(s))
  }

  ghost predicate SweepOk(s: State) { SelectedOk(s) && MineOk(s) && KnownOk(s) }

  /** A statement keeps rows, their expiry and their deletion, and puts no deleted row back
      into removal. */
  ghost predicate RowsKept(s: Store, t: Store) {
    forall id :: id in s.rows ==>
      && id in t.rows && t.rows[id].expiresAt == s.rows[id].expiresAt && (s.rows[id].deleted ==> t.rows[id].deleted)
      && (s.rows[id].deleted && id !in s.erasing ==> id !in t.erasing)
  }

  lemma StatementKeepsRows(seal: Seal, s: Store, a: Evidence.Action, t: Store)
    requires Known(s) && Evidence.Step(seal, s, a) == Some(t)
    ensures RowsKept(s, t)
  {
    hide RefOf, Aad;
  }

  lemma SweepLater(s: State, t: State)
    requires SweepOk(s) && RowsKept(s.store, t.store) && t == s.(store := t.store)
    ensures SweepOk(t)
  {
  }

  lemma SelectOk(s: State)
    requires s.phase == Off
    ensures var ids := EvidenceService.Expired(s.store);
      SweepOk(State(s.store, Sweeping(ids), s.store.now, s.store.rows.Keys, ids, {}))
  {
  }

  lemma TurnOk(seal: Seal, s: State, act: Action, t: State)
    requires Known(s.store) && SweepOk(s) && Step(seal, s, act) == Some(t) && (act.MarkNext? || act.Remove? || act.Finish?)
    ensures SweepOk(t)
  {
  }

  lemma StoreOk(seal: Seal, open: Open, s: State, act: Action, t: State)
    requires Secrets.Ideal(seal, open) && Inv(open, s.store) && Step(seal, s, act) == Some(t)
    ensures Inv(open, t.store)
  {
    match act
    case Other(a) => Evidence.StepOk(seal, open, s.store, a, t.store);
    case MarkNext(id) =>
      if CanMark(s.store, s.store.rows[id].org, id) {
        Evidence.StepOk(seal, open, s.store, DoMark(s.store.rows[id].org, id), t.store);
      }
    case Remove =>
      if s.phase.id in s.store.erasing {
        Evidence.StepOk(seal, open, s.store, DoErase(s.phase.id), t.store);
      }
    case _ =>
  }

  lemma {:induction false} TraceOk(seal: Seal, open: Open, trace: seq<State>, acts: seq<Action>, now: int, i: nat)
    requires Secrets.Ideal(seal, open) && IsTrace(seal, trace, acts, now) && i < |trace|
    ensures Inv(open, trace[i].store) && SweepOk(trace[i])
    decreases i
  {
    if i > 0 {
      TraceOk(seal, open, trace, acts, now, i - 1);
      var s, act, t := trace[i - 1], acts[i - 1], trace[i];
      assert Step(seal, s, act) == Some(t);
      assert Known(s.store);
      hide Inv, SweepOk, Secrets.Ideal, Known;
      StoreOk(seal, open, s, act, t);
      match act
      case Other(a) =>
        StatementKeepsRows(seal, s.store, a, t.store);
        SweepLater(s, t);
      case Select => SelectOk(s);
      case _ => TurnOk(seal, s, act, t);
    }
  }

  // ---------------------------------------------------------------- main result

  /** When a sweep comes to its end, whatever ran in between: every row it selected was past
      its expiry and is marked deleted, it marked no other row itself, the object of every row it marked itself is gone from storage, and a live row
      past its expiry at the time of selection was inserted after it. */
  lemma SweepLeavesNothing(seal: Seal, open: Open, trace: seq<State>, acts: seq<Action>, now: int, i: nat, id: Id)
    requires Secrets.Ideal(seal, open) && IsTrace(seal, trace, acts, now) && i < |trace| && trace[i].phase == Sweeping({})
    ensures var s := trace[i];
      && (id in s.selected ==> Deleted(s.store, id))
      && (id in s.selected ==> s.store.rows[id].expiresAt <= s.at)
      && (id in s.mine ==> id in s.selected)
      && (id in s.mine ==> id in s.store.rows && RefOf(s.store.rows[id].org, id) !in s.store.objects)
      && (Live(s.store, id) && s.store.rows[id].expiresAt <= s.at ==> id !in s.known)
  {
    TraceOk(seal, open, trace, acts, now, i);
    var s := trace[i];
    hide NothingElse, AllBacked, RefOf, Secrets.Ideal, Step;
    if id in s.mine {
      assert !Present(s.store, id);
      ObjectGone(s.store, id);
    }
  }

  // ---------------------------------------------------------------- a sweep goes on and ends

  /** A sweep stands in nobody's way: any other statement runs just as without one. */
  lemma OthersGoOn(seal: Seal, s: State, a: Evidence.Action)
    ensures Step(seal, s, Other(a)).Some? <==> Evidence.Step(seal, s.store, a).Some?
    ensures Step(seal, s, Other(a)).Some? ==>
      Step(seal, s, Other(a)) == Some(s.(store := Evidence.Step(seal, s.store, a).value))
  {
    hide Evidence.Step;
  }

  ghost function Exec(seal: Seal, s: State, acts: seq<Action>): Option<State>
    decreases |acts|
  {
    if acts == [] then Some(s)
    else
      match Step(seal, s, acts[0])
      case None => None
      case Some(t) => Exec(seal, t, acts[1..])
  }

  lemma Before(seal: Seal, s: State, act: Action, t: State, more: seq<Action>) returns (acts: seq<Action>)
    requires Step(seal, s, act) == Some(t)
    ensures acts == [act] + more && Exec(seal, s, acts) == Exec(seal, t, more)
  {
    acts := [act] + more;
    assert acts[1..] == more;
    hide Step;
  }

  predicate OwnStatement(act: Action) { act.MarkNext? || act.Remove? }

  ghost predicate OwnStatements(acts: seq<Action>) { forall i :: 0 <= i < |acts| ==> OwnStatement(acts[i]) }

  /** Everything that is still to be done has a row. */
  ghost predicate Doable(s: State) { Todo(s) <= s.store.rows.Keys && (s.phase.Removing? ==> s.phase.id in s.store.rows) }

  lemma {:induction false} SweepsOn(seal: Seal, s: State) returns (acts: seq<Action>, t: State)
    requires s.phase.Sweeping? && Doable(s)
    ensures OwnStatements(acts) && Exec(seal, s, acts) == Some(t) && t.phase == Sweeping({}) && t.at == s.at && t.selected == s.selected
    decreases |s.phase.todo|, 0
  {
    if s.phase.todo == {} {
      acts, t := [], s;
    } else {
      var id :| id in s.phase.todo;
      var u := Step(seal, s, MarkNext(id)).value;
      var rest := s.phase.todo - {id};
      assert u.store.rows.Keys == s.store.rows.Keys && u.at == s.at && u.selected == s.selected;
      if u.phase == Sweeping(rest) {
        acts, t := SweepsOn(seal, u);
      } else {
        assert u.phase == Removing(id, rest);
        acts, t := RemovesOn(seal, u);
      }
      hide Step, OwnStatement;
      acts := Before(seal, s, MarkNext(id), u, acts);
      assert OwnStatement(MarkNext(id)) by {
        IsOwn(id);
      }
    }
  }

  lemma IsOwn(id: Id)
    ensures OwnStatement(MarkNext(id)) && OwnStatement(Remove)
  {
  }

  lemma {:induction false} RemovesOn(seal: Seal, s: State) returns (acts: seq<Action>, t: State)
    requires s.phase.Removing? && Doable(s)
    ensures OwnStatements(acts) && Exec(seal, s, acts) == Some(t) && t.phase == Sweeping({}) && t.at == s.at && t.selected == s.selected
    decreases |s.phase.todo|, 1
  {
    var u := Step(seal, s, Remove).value;
    assert u.phase == Sweeping(s.phase.todo) && u.store.rows == s.store.rows && u.at == s.at && u.selected == s.selected;
    acts, t := SweepsOn(seal, u);
    hide Step, OwnStatement;
    acts := Before(seal, s, Remove, u, acts);
    IsOwn("");
  }

  lemma {:induction false} HandHasRow(seal: Seal, open: Open, trace: seq<State>, acts: seq<Action>, now: int, i: nat)
    requires Secrets.Ideal(seal, open) && IsTrace(seal, trace, acts, now) && i < |trace| && trace[i].phase.Removing?
    ensures trace[i].phase.id in trace[i].store.rows
    decreases i
  {
    if i > 0 {
      TraceOk(seal, open, trace, acts, now, i - 1);
      var s, act, t := trace[i - 1], acts[i - 1], trace[i];
      assert Step(seal, s, act) == Some(t);
      if act.Other? {
        HandHasRow(seal, open, trace, acts, now, i - 1);
        StatementKeepsRows(seal, s.store, act.act, t.store);
      }
    }
  }

  /** At every moment of every run with a sweep at work, some statements of its own bring it
      to its end. */
  lemma SweepEnds(seal: Seal, open: Open, trace: seq<State>, acts: seq<Action>, now: int, i: nat) returns (more: seq<Action>, t: State)
    requires Secrets.Ideal(seal, open) && IsTrace(seal, trace, acts, now) && i < |trace| && trace[i].phase != Off
    ensures (forall k :: 0 <= k < |more| ==> more[k].MarkNext? || more[k].Remove?)
    ensures Exec(seal, trace[i], more) == Some(t) && t.phase == Sweeping({}) && t.at == trace[i].at && t.selected == trace[i].selected
  {
    TraceOk(seal, open, trace, acts, now, i);
    if trace[i].phase.Removing? {
      HandHasRow(seal, open, trace, acts, now, i);
    }
    hide IsTrace, Step, Inv, Secrets.Ideal;
    assert Doable(trace[i]);
    if trace[i].phase.Sweeping? {
      more, t := SweepsOn(seal, trace[i]);
    } else {
      more, t := RemovesOn(seal, trace[i]);
    }
  }
}
