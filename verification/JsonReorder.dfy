/** What sortKeysDeep forgets of a value: the order of keys, at every depth, and nothing else. */
module JsonReorder {
  import opened Json
  import opened JsonCanonical
  import opened JsonSchemes

  ghost predicate SameEntry(f: Field, g: Field)
    decreases f, 0
  {
    f.key == g.key && Reordered(f.value, g.value)
  }

  ghost predicate HasMatch(f: Field, gs: seq<Field>)
    decreases f, 1
  {
    exists j :: 0 <= j < |gs| && SameEntry(f, gs[j])
  }

  ghost predicate IsMatch(fs: seq<Field>, g: Field)
    decreases fs, 0
  {
    exists i :: 0 <= i < |fs| && SameEntry(fs[i], g)
  }

  ghost predicate Matched(fs: seq<Field>, gs: seq<Field>)
    decreases fs, 1
  {
    (forall i :: 0 <= i < |fs| ==> HasMatch(fs[i], gs)) && (forall j :: 0 <= j < |gs| ==> IsMatch(fs, gs[j]))
  }

  /** One value with its objects' keys in another order. */
  ghost predicate Reordered(v: Value, w: Value)
    decreases v, 0
  {
    match v
    case Arr(items) => w.Arr? && |w.items| == |items| && forall i :: 0 <= i < |items| ==> Reordered(items[i], w.items[i])
    case Obj(fs) => w.Obj? && Matched(fs, w.fields)
    case _ => w == v
  }

  lemma SortedOne(fs: seq<Field>, i: nat)
    requires i < |fs|
    ensures Field(fs[i].key, SortKeysDeep(fs[i].value)) in SortValues(fs)
  {
    SortValuesAt(fs, i);
  }

  lemma SortedFrom(fs: seq<Field>, f: Field) returns (i: nat)
    requires f in SortValues(fs)
    ensures i < |fs| && f == Field(fs[i].key, SortKeysDeep(fs[i].value))
  {
    if fs != [] {
      SortValuesAt(fs, 0);
    }
    i :| 0 <= i < |SortValues(fs)| && SortValues(fs)[i] == f;
    SortValuesAt(fs, i);
  }

  /** The fields an object ends up with, in the one order its keys allow. */
  lemma SortedObject(fs: seq<Field>)
    requires WfFields(fs)
    ensures var r := FromEntries(Sort(LexLess, SortValues(fs)));
      Sorted(CanonLess, r) && SameFields(r, SortValues(fs)) && DistinctKeys(r)
  {
    SortValuesNormalises(fs);
    FromSortedEntries(SortValues(fs));
    CanonIsStrictOrder();
    SortedDistinct(CanonLess, AllKeys(), FromEntries(Sort(LexLess, SortValues(fs))));
  }

  lemma SameResult(fs: seq<Field>, gs: seq<Field>)
    requires WfFields(fs) && WfFields(gs)
    ensures SortKeysDeep(Obj(fs)) == SortKeysDeep(Obj(gs)) <==> SameFields(SortValues(fs), SortValues(gs))
  {
    var r, q := FromEntries(Sort(LexLess, SortValues(fs))), FromEntries(Sort(LexLess, SortValues(gs)));
    assert SortKeysDeep(Obj(fs)) == Obj(r) && SortKeysDeep(Obj(gs)) == Obj(q);
    SortedObject(fs);
    SortedObject(gs);
    hide *;
    if SameFields(SortValues(fs), SortValues(gs)) {
      SameThrough(r, SortValues(fs), SortValues(gs), q);
      CanonicalUnique(r, q);
    } else if r == q {
      SameThrough(SortValues(fs), r, q, SortValues(gs));
    }
  }

  /** Having the same fields is an equivalence. */
  lemma SameThrough(a: seq<Field>, b: seq<Field>, c: seq<Field>, d: seq<Field>)
    requires (SameFields(a, b) || SameFields(b, a)) && (b == c || SameFields(b, c)) && (SameFields(c, d) || SameFields(d, c))
    ensures SameFields(a, d)
  {
  }

  lemma CanonicalUnique(r: seq<Field>, q: seq<Field>)
    requires Sorted(CanonLess, r) && Sorted(CanonLess, q) && SameFields(r, q)
    ensures r == q
  {
    CanonIsStrictOrder();
    SortedUnique(CanonLess, AllKeys(), r, q);
  }

  lemma {:induction false} ReorderedSorts(v: Value, w: Value)
    requires Wf(v) && Wf(w) && Reordered(v, w)
    ensures SortKeysDeep(v) == SortKeysDeep(w)
    decreases v, 1
  {
    match v
    case Arr(items) =>
      SortedItemsLength(items);
      SortedItemsLength(w.items);
      forall i | 0 <= i < |items| ensures SortItems(items)[i] == SortItems(w.items)[i] {
        SortItemsAt(items, i);
        SortItemsAt(w.items, i);
        ReorderedSorts(items[i], w.items[i]);
      }
      assert SortItems(items) == SortItems(w.items);
    case Obj(fs) =>
      ReorderedValues(fs, w.fields);
      SameResult(fs, w.fields);
    case _ =>
  }

  lemma {:induction false} ReorderedValues(fs: seq<Field>, gs: seq<Field>)
    requires WfFields(fs) && WfFields(gs) && Matched(fs, gs)
    ensures SameFields(SortValues(fs), SortValues(gs))
    decreases fs, 3
  {
    forall f ensures f in SortValues(fs) <==> f in SortValues(gs) {
      hide SortValues, Matched, WfFields;
      if f in SortValues(fs) {
        MatchedFrom(fs, gs, f);
      } else if f in SortValues(gs) {
        MatchedTo(fs, gs, f);
      }
    }
  }

  lemma {:induction false} MatchedFrom(fs: seq<Field>, gs: seq<Field>, f: Field)
    requires WfFields(fs) && WfFields(gs) && Matched(fs, gs) && f in SortValues(fs)
    ensures f in SortValues(gs)
    decreases fs, 2
  {
    hide SortKeysDeep, SortValues, SameEntry, WfFields;
    var i := SortedFrom(fs, f);
    assert HasMatch(fs[i], gs);
    var j :| 0 <= j < |gs| && SameEntry(fs[i], gs[j]);
    EntrySorts(fs, gs, i, j);
  }

  lemma {:induction false} MatchedTo(fs: seq<Field>, gs: seq<Field>, f: Field)
    requires WfFields(fs) && WfFields(gs) && Matched(fs, gs) && f in SortValues(gs)
    ensures f in SortValues(fs)
    decreases fs, 2
  {
    hide SortKeysDeep, SortValues, SameEntry, WfFields;
    var j := SortedFrom(gs, f);
    assert IsMatch(fs, gs[j]);
    var i :| 0 <= i < |fs| && SameEntry(fs[i], gs[j]);
    EntrySorts(fs, gs, i, j);
  }

  lemma {:induction false} EntrySorts(fs: seq<Field>, gs: seq<Field>, i: nat, j: nat)
    requires WfFields(fs) && WfFields(gs) && i < |fs| && j < |gs| && SameEntry(fs[i], gs[j])
    ensures var f := Field(fs[i].key, SortKeysDeep(fs[i].value));
      f == Field(gs[j].key, SortKeysDeep(gs[j].value)) && f in SortValues(fs) && f in SortValues(gs)
    decreases fs, 0
  {
    hide SortKeysDeep, SortValues, Reordered;
    ReorderedSorts(fs[i].value, gs[j].value);
    SortedOne(fs, i);
    SortedOne(gs, j);
  }

  lemma {:induction false} SortsReordered(v: Value, w: Value)
    requires Wf(v) && Wf(w) && SortKeysDeep(v) == SortKeysDeep(w)
    ensures Reordered(v, w)
    decreases v, 1
  {
    match v
    case Arr(items) =>
      SortedItemsLength(items);
      SortedItemsLength(w.items);
      forall i | 0 <= i < |items| ensures Reordered(items[i], w.items[i]) {
        SortItemsAt(items, i);
        SortItemsAt(w.items, i);
        SortsReordered(items[i], w.items[i]);
      }
    case Obj(fs) =>
      SameResult(fs, w.fields);
      ValuesMatched(fs, w.fields);
    case _ =>
  }

  lemma {:induction false} ValuesMatched(fs: seq<Field>, gs: seq<Field>)
    requires WfFields(fs) && WfFields(gs) && SameFields(SortValues(fs), SortValues(gs))
    ensures Matched(fs, gs)
    decreases fs, 0
  {
    hide SortKeysDeep, SortValues, Reordered;
    forall i | 0 <= i < |fs| ensures HasMatch(fs[i], gs) {
      SortedOne(fs, i);
      var j := SortedFrom(gs, Field(fs[i].key, SortKeysDeep(fs[i].value)));
      SortsReordered(fs[i].value, gs[j].value);
      assert SameEntry(fs[i], gs[j]);
    }
    forall j | 0 <= j < |gs| ensures IsMatch(fs, gs[j]) {
      SortedOne(gs, j);
      var i := SortedFrom(fs, Field(gs[j].key, SortKeysDeep(gs[j].value)));
      SortsReordered(fs[i].value, gs[j].value);
      assert SameEntry(fs[i], gs[j]);
    }
  }

  /** Two values are sorted to the same one exactly when they differ in the order of keys
      alone, at any depth. */
  lemma SortKeysDeepIff(v: Value, w: Value)
    requires Wf(v) && Wf(w)
    ensures SortKeysDeep(v) == SortKeysDeep(w) <==> Reordered(v, w)
  {
    if Reordered(v, w) {
      ReorderedSorts(v, w);
    }
    if SortKeysDeep(v) == SortKeysDeep(w) {
      SortsReordered(v, w);
    }
  }

  // ---------------------------------------------------------------- values as JSON holds them

  /** Nothing undefined and no number that is not finite: a value read back from storage. */
  ghost predicate Stored(v: Value)
    decreases v
  {
    match v
    case Undefined => false
    case NonFinite => false
    case Arr(items) => forall i :: 0 <= i < |items| ==> Stored(items[i])
    case Obj(fs) => forall i :: 0 <= i < |fs| ==> Stored(fs[i].value)
    case _ => true
  }

  ghost predicate StoredFields(fs: seq<Field>) { forall i :: 0 <= i < |fs| ==> Stored(fs[i].value) }

  lemma {:induction false} ItemsMeaningAt(items: seq<Value>, i: nat)
    requires i < |items|
    ensures |ItemsMeaning(items)| == |items| && ItemsMeaning(items)[i] == Meaning(items[i])
  {
    if i > 0 {
      ItemsMeaningAt(items[1..], i - 1);
    } else if |items| > 1 {
      ItemsMeaningAt(items[1..], 0);
    }
  }

  /** A field means the same as the field of its key in an object with the same meaning. */
  lemma FieldFound(fs: seq<Field>, gs: seq<Field>, i: nat) returns (j: nat)
    requires DistinctKeys(fs) && DistinctKeys(gs) && FieldsMeaning(fs) == FieldsMeaning(gs)
    requires i < |fs| && !fs[i].value.Undefined?
    ensures j < |gs| && gs[j].key == fs[i].key && Meaning(gs[j].value) == Meaning(fs[i].value)
  {
    MeaningAt(fs, i);
    MeaningKeys(gs, fs[i].key);
    j :| 0 <= j < |gs| && gs[j].key == fs[i].key && !gs[j].value.Undefined?;
    MeaningAt(gs, j);
  }

  lemma {:induction false} SameMeaningReordered(v: Value, w: Value)
    requires Wf(v) && Wf(w) && Stored(v) && Stored(w) && Meaning(v) == Meaning(w)
    ensures Reordered(v, w)
    decreases v, 1
  {
    match v
    case Arr(items) =>
      assert items != [] <==> w.items != [];
      if items != [] {
        ItemsMeaningAt(items, 0);
        ItemsMeaningAt(w.items, 0);
      }
      forall i | 0 <= i < |items| ensures Reordered(items[i], w.items[i]) {
        ItemsMeaningAt(items, i);
        ItemsMeaningAt(w.items, i);
        SameMeaningReordered(items[i], w.items[i]);
      }
    case Obj(fs) =>
      MeaningMatched(fs, w.fields);
    case _ =>
  }

  lemma {:induction false} MeaningMatched(fs: seq<Field>, gs: seq<Field>)
    requires WfFields(fs) && WfFields(gs) && StoredFields(fs) && StoredFields(gs) && FieldsMeaning(fs) == FieldsMeaning(gs)
    ensures Matched(fs, gs)
    decreases fs, 0
  {
    hide Reordered, Meaning, FieldsMeaning;
    forall i | 0 <= i < |fs| ensures HasMatch(fs[i], gs) {
      var j := FieldFound(fs, gs, i);
      SameMeaningReordered(fs[i].value, gs[j].value);
      assert SameEntry(fs[i], gs[j]);
    }
    forall j | 0 <= j < |gs| ensures IsMatch(fs, gs[j]) {
      var i := FieldFound(gs, fs, j);
      SameMeaningReordered(fs[i].value, gs[j].value);
      assert SameEntry(fs[i], gs[j]);
    }
  }

  /** On values as storage returns them, sortKeysDeep gives one result for each meaning. */
  lemma SortedMeaningIff(v: Value, w: Value)
    requires Wf(v) && Wf(w) && Stored(v) && Stored(w)
    ensures SortKeysDeep(v) == SortKeysDeep(w) <==> Meaning(v) == Meaning(w)
  {
    SortKeysDeepNormalises(v);
    SortKeysDeepNormalises(w);
    if Meaning(v) == Meaning(w) {
      SameMeaningReordered(v, w);
      ReorderedSorts(v, w);
    }
  }

  /** Elsewhere it does not: a field that is undefined is sorted along and means nothing. */
  lemma UndefinedFieldSorted(key: string)
    ensures var v, w := Obj([Field(key, Undefined)]), Obj([]);
      Wf(v) && Wf(w) && Meaning(v) == Meaning(w) && SortKeysDeep(v) != SortKeysDeep(w)
  {
    var v, w := Obj([Field(key, Undefined)]), Obj([]);
    assert [Field(key, Undefined)][1..] == [];
    OnlyEmptySortsEmpty(v, w);
  }

  lemma OnlyEmptySortsEmpty(v: Value, w: Value)
    requires Wf(v) && Wf(w) && v.Obj? && w == Obj([]) && v.fields != []
    ensures SortKeysDeep(v) != SortKeysDeep(w)
  {
    if SortKeysDeep(v) == SortKeysDeep(w) {
      SortsReordered(v, w);
      assert false;
    }
  }
}
