/** The redaction guard in front of the audit log, and exactly how far it reaches. */
module AuditGuard {
  import opened Json

  /** The guard's two regular expressions, as predicates on a key and on a string value. */
  datatype Patterns = Patterns(forbiddenKey: string -> bool, suspicious: string -> bool)

  /** assertSafeDetails does not throw: it looks at every key and string, and descends into
      objects that are not arrays. */
  predicate GuardAccepts(p: Patterns, fs: seq<Field>)
    decreases fs
  {
    fs == [] ||
    (&& !p.forbiddenKey(fs[0].key)
     && (fs[0].value.Str? ==> !p.suspicious(fs[0].value.s))
     && (fs[0].value.Obj? ==> GuardAccepts(p, fs[0].value.fields))
     && GuardAccepts(p, fs[1..]))
  }

  /** No forbidden key and no suspicious string anywhere, arrays included. */
  ghost predicate SafeEverywhere(p: Patterns, v: Value)
    decreases v
  {
    match v
    case Str(s) => !p.suspicious(s)
    case Arr(items) => forall i :: 0 <= i < |items| ==> SafeEverywhere(p, items[i])
    case Obj(fs) => forall i :: 0 <= i < |fs| ==> !p.forbiddenKey(fs[i].key) && SafeEverywhere(p, fs[i].value)
    case _ => true
  }

  /** The value with every array emptied. */
  ghost function EmptyArrays(v: Value): Value
    decreases v, 0
  {
    match v
    case Arr(_) => Arr([])
    case Obj(fs) => Obj(EmptyArraysIn(fs))
    case _ => v
  }

  ghost function EmptyArraysIn(fs: seq<Field>): seq<Field>
    decreases fs, 0
  {
    if fs == [] then [] else [Field(fs[0].key, EmptyArrays(fs[0].value))] + EmptyArraysIn(fs[1..])
  }

  lemma SafeCons(p: Patterns, f: Field, rest: seq<Field>)
    ensures SafeEverywhere(p, Obj([f] + rest))
      <==> !p.forbiddenKey(f.key) && SafeEverywhere(p, f.value) && SafeEverywhere(p, Obj(rest))
  {
    var fs := [f] + rest;
    assert fs[0] == f && forall i :: 0 <= i < |rest| ==> fs[i + 1] == rest[i];
    assert forall i :: 1 <= i < |fs| ==> fs[i] == rest[i - 1];
  }

  /** The guard accepts details exactly when they would be safe everywhere with their arrays
      emptied: what an array holds, at any depth, is never looked at. */
  lemma {:induction false} GuardReach(p: Patterns, fs: seq<Field>)
    ensures GuardAccepts(p, fs) <==> SafeEverywhere(p, EmptyArrays(Obj(fs)))
    decreases fs
  {
    if fs != [] {
      GuardReach(p, fs[1..]);
      if fs[0].value.Obj? {
        GuardReach(p, fs[0].value.fields);
      }
      SafeCons(p, Field(fs[0].key, EmptyArrays(fs[0].value)), EmptyArraysIn(fs[1..]));
    }
  }

  ghost predicate NoArrays(v: Value)
    decreases v
  {
    match v
    case Arr(_) => false
    case Obj(fs) => forall i :: 0 <= i < |fs| ==> NoArrays(fs[i].value)
    case _ => true
  }

  lemma {:induction false} NoArraysUnchanged(fs: seq<Field>)
    requires forall i :: 0 <= i < |fs| ==> NoArrays(fs[i].value)
    ensures EmptyArraysIn(fs) == fs
    decreases fs
  {
    if fs != [] {
      if fs[0].value.Obj? {
        NoArraysUnchanged(fs[0].value.fields);
      }
      NoArraysUnchanged(fs[1..]);
      assert fs == [fs[0]] + fs[1..];
    }
  }

  /** On details without arrays the guard does keep every forbidden key and suspicious string out. */
  lemma GuardCompleteWithoutArrays(p: Patterns, fs: seq<Field>)
    requires NoArrays(Obj(fs))
    ensures GuardAccepts(p, fs) <==> SafeEverywhere(p, Obj(fs))
  {
    NoArraysUnchanged(fs);
    GuardReach(p, fs);
  }

  /** Whatever the value's arrays hold is safe. */
  ghost predicate ArraysSafe(p: Patterns, v: Value)
    decreases v
  {
    match v
    case Arr(items) => forall i :: 0 <= i < |items| ==> SafeEverywhere(p, items[i])
    case Obj(fs) => forall i :: 0 <= i < |fs| ==> ArraysSafe(p, fs[i].value)
    case _ => true
  }

  lemma ArraysSafeCons(p: Patterns, f: Field, rest: seq<Field>)
    ensures ArraysSafe(p, Obj([f] + rest)) <==> ArraysSafe(p, f.value) && ArraysSafe(p, Obj(rest))
  {
    var fs := [f] + rest;
    assert fs[0] == f && forall i :: 0 <= i < |rest| ==> fs[i + 1] == rest[i];
    assert forall i :: 1 <= i < |fs| ==> fs[i] == rest[i - 1];
  }

  /** Details are safe exactly when the guard accepts them and their arrays hold nothing
      unsafe. */
  lemma {:induction false} SafeIsAcceptedAndArraysSafe(p: Patterns, fs: seq<Field>)
    ensures SafeEverywhere(p, Obj(fs)) <==> GuardAccepts(p, fs) && ArraysSafe(p, Obj(fs))
    decreases fs
  {
    if fs != [] {
      SafeIsAcceptedAndArraysSafe(p, fs[1..]);
      if fs[0].value.Obj? {
        SafeIsAcceptedAndArraysSafe(p, fs[0].value.fields);
      }
      assert fs == [fs[0]] + fs[1..];
      SafeCons(p, fs[0], fs[1..]);
      ArraysSafeCons(p, fs[0], fs[1..]);
    }
  }

  /** The guard keeps everything unsafe out, and nothing else, exactly when details that are
      safe once their arrays are emptied hold nothing unsafe in those arrays. */
  lemma GuardCompleteIff(p: Patterns, fs: seq<Field>)
    ensures (GuardAccepts(p, fs) <==> SafeEverywhere(p, Obj(fs)))
      <==> (SafeEverywhere(p, EmptyArrays(Obj(fs))) ==> ArraysSafe(p, Obj(fs)))
  {
    GuardReach(p, fs);
    SafeIsAcceptedAndArraysSafe(p, fs);
  }

  /** An array lets any value past the guard. */
  lemma ArrayPassesGuard(p: Patterns, key: string, v: Value)
    requires !p.forbiddenKey(key)
    ensures GuardAccepts(p, [Field(key, Arr([v]))])
    ensures SafeEverywhere(p, Obj([Field(key, Arr([v]))])) <==> SafeEverywhere(p, v)
  {
    var fs := [Field(key, Arr([v]))];
    assert fs[1..] == [];
    assert forall i :: 0 <= i < |fs| ==> fs[i] == fs[0];
    assert SafeEverywhere(p, Arr([v])) <==> SafeEverywhere(p, [v][0]);
    assert fs[0].value == Arr([v]);
  }
}
