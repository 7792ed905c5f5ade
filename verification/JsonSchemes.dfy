/** The platform's digest and the engine's hash the same text of a value exactly when the
    value keeps to what the two printers have in common. */
module JsonSchemes {
  import opened Basics
  import opened Json
  import opened JsonCanonical
  import opened JsonOrder
  import opened EngineJson

  /** Strings and keys up to the tilde, numbers both print alike and finite, and no array
      index out of text order among any object's keys. */
  ghost predicate Agrees(num: string -> string, v: Value)
    decreases v
  {
    match v
    case Null => true
    case Undefined => false
    case NonFinite => false
    case Bool(_) => true
    case Num(t) => num(t) == t
    case Str(s) => Ascii(s)
    case Arr(items) => forall i :: 0 <= i < |items| ==> Agrees(num, items[i])
    case Obj(fs) => (forall i :: 0 <= i < |fs| ==> Ascii(fs[i].key) && Agrees(num, fs[i].value)) && IndicesAgree(Keys(fs))
  }

  // ---------------------------------------------------------------- the two sorts

  lemma {:induction false} SortItemsAt(items: seq<Value>, i: nat)
    requires i < |items|
    ensures |SortItems(items)| == |items| && SortItems(items)[i] == SortKeysDeep(items[i])
  {
    if i > 0 {
      SortItemsAt(items[1..], i - 1);
    } else if |items| > 1 {
      SortItemsAt(items[1..], 0);
    }
  }

  lemma {:induction false} SortValuesAt(fs: seq<Field>, i: nat)
    requires i < |fs|
    ensures |SortValues(fs)| == |fs| && SortValues(fs)[i] == Field(fs[i].key, SortKeysDeep(fs[i].value))
  {
    if i > 0 {
      SortValuesAt(fs[1..], i - 1);
    } else if |fs| > 1 {
      SortValuesAt(fs[1..], 0);
    }
  }

  lemma {:induction false} CodeTransitive(a: string, b: string, c: string)
    requires CodeLess(a, b) && CodeLess(b, c)
    ensures CodeLess(a, c)
  {
    if a != [] && a[0] == b[0] == c[0] {
      CodeTransitive(a[1..], b[1..], c[1..]);
    }
  }

  lemma {:induction false} CodeTotal(a: string, b: string)
    ensures a != b ==> CodeLess(a, b) || CodeLess(b, a)
    ensures !CodeLess(a, a)
    decreases |a|
  {
    if a != [] {
      if b != [] && a[0] == b[0] {
        assert a == [a[0]] + a[1..] && b == [b[0]] + b[1..];
        CodeTotal(a[1..], b[1..]);
      } else {
        CodeTotal(a[1..], []);
      }
    }
  }

  lemma CodeIsStrictOrder()
    ensures StrictOrder(CodeLess, AllKeys())
  {
    forall a, b, c | CodeLess(a, b) && CodeLess(b, c) ensures CodeLess(a, c) {
      CodeTransitive(a, b, c);
    }
    forall a, b ensures !CodeLess(a, a) && (a != b ==> CodeLess(a, b) || CodeLess(b, a)) {
      CodeTotal(a, b);
    }
  }

  /** On ASCII the two orders are one. */
  lemma {:induction false} AsciiOrder(a: string, b: string)
    requires Ascii(a) && Ascii(b)
    ensures CodeLess(a, b) == LexLess(a, b)
  {
    if a != [] && b != [] && a[0] == b[0] {
      AsciiOrder(a[1..], b[1..]);
    }
  }

  lemma AsciiSorted(fs: seq<Field>)
    requires forall i :: 0 <= i < |fs| ==> Ascii(fs[i].key)
    ensures Sorted(CodeLess, fs) <==> Sorted(LexLess, fs)
  {
    hide CodeLess, LexLess, Ascii;
    forall i, j | 0 <= i < j < |fs| ensures CodeLess(fs[i].key, fs[j].key) == LexLess(fs[i].key, fs[j].key) {
      AsciiOrder(fs[i].key, fs[j].key);
    }
  }

  /** The engine's sort keeps what is printed printable. */
  lemma {:induction false} EngineSortOk(v: Value)
    requires Wf(v) && Defined(v)
    ensures Wf(EngineSort(v)) && Defined(EngineSort(v))
    decreases v
  {
    match v
    case Arr(items) =>
      forall i | 0 <= i < |items| ensures Wf(EngineSort(items[i])) && Defined(EngineSort(items[i])) {
        EngineSortOk(items[i]);
      }
    case Obj(fs) =>
      var es := EngineSortValues(fs);
      forall i | 0 <= i < |fs| ensures Wf(es[i].value) && Defined(es[i].value) {
        EngineSortOk(fs[i].value);
      }
      SortedFields(CodeLess, es);
    case _ =>
  }

  /** Sorting fields by either order permutes them. */
  lemma SortedFields(less: (string, string) -> bool, es: seq<Field>)
    requires less == CodeLess || less == LexLess
    requires DistinctKeys(es) && forall i :: 0 <= i < |es| ==> Wf(es[i].value) && Defined(es[i].value)
    ensures var r := Sort(less, es);
      && Sorted(less, r) && SameFields(r, es) && DistinctKeys(r) && forall i :: 0 <= i < |r| ==> Wf(r[i].value) && Defined(r[i].value)
  {
    CodeIsStrictOrder();
    LexIsStrictOrder();
    SortSorts(less, AllKeys(), es);
    SortedDistinct(less, AllKeys(), Sort(less, es));
    var r := Sort(less, es);
    forall i | 0 <= i < |r| ensures Wf(r[i].value) && Defined(r[i].value) {
      assert r[i] in es;
    }
  }

  lemma {:induction false} CanonicalDefined(v: Value)
    requires Wf(v) && Defined(v)
    ensures Defined(SortKeysDeep(v))
    decreases v
  {
    match v
    case Arr(items) =>
      forall i | 0 <= i < |SortItems(items)| ensures Defined(SortItems(items)[i]) {
        SortedItemsLength(items);
        SortItemsAt(items, i);
        CanonicalDefined(items[i]);
      }
    case Obj(fs) =>
      SortValuesNormalises(fs);
      var es := SortValues(fs);
      forall i | 0 <= i < |es| ensures Defined(es[i].value) {
        SortValuesAt(fs, i);
        CanonicalDefined(fs[i].value);
      }
      FromSortedEntries(es);
      var r := FromEntries(Sort(LexLess, es));
      forall i | 0 <= i < |r| ensures Defined(r[i].value) {
        assert r[i] in es;
      }
    case _ =>
  }

  lemma {:induction false} SortedItemsLength(items: seq<Value>)
    ensures |SortItems(items)| == |items|
  {
    if items != [] {
      SortedItemsLength(items[1..]);
    }
  }

  // ---------------------------------------------------------------- agreeing values print alike

  /** The two sorts agree, and so do the printers on the result. */
  lemma {:induction false} AgreeingSorts(num: string -> string, v: Value)
    requires Wf(v) && Agrees(num, v)
    ensures EngineSort(v) == SortKeysDeep(v)
    decreases v
  {
    match v
    case Arr(items) =>
      SortedItemsLength(items);
      forall i | 0 <= i < |items| ensures EngineSortItems(items)[i] == SortItems(items)[i] {
        SortItemsAt(items, i);
        AgreeingSorts(num, items[i]);
      }
      assert EngineSortItems(items) == SortItems(items);
    case Obj(fs) =>
      SortValuesNormalises(fs);
      var es := SortValues(fs);
      forall i | 0 <= i < |fs| ensures EngineSortValues(fs)[i] == es[i] {
        SortValuesAt(fs, i);
        AgreeingSorts(num, fs[i].value);
      }
      assert EngineSortValues(fs) == es;
      AgreeingOrder(es);
    case _ =>
  }

  lemma AgreeingOrder(es: seq<Field>)
    requires DistinctKeys(es) && (forall i :: 0 <= i < |es| ==> Ascii(es[i].key)) && IndicesAgree(Keys(es))
    ensures Sort(CodeLess, es) == FromEntries(Sort(LexLess, es))
  {
    PlainOrderIff(es);
    CodeIsStrictOrder();
    LexIsStrictOrder();
    SortSorts(CodeLess, AllKeys(), es);
    SortSorts(LexLess, AllKeys(), es);
    var r, s := Sort(CodeLess, es), Sort(LexLess, es);
    hide Sort, FromEntries, Sorted, IndicesAgree, StrictOrder, CodeLess, LexLess, Ascii;
    forall i | 0 <= i < |r| ensures Ascii(r[i].key) {
      assert r[i] in es;
    }
    AsciiSorted(r);
    SortedUnique(LexLess, AllKeys(), r, s);
  }

  /** What the printers have in common, whatever the order of keys. */
  ghost predicate Alike(num: string -> string, v: Value)
    decreases v
  {
    match v
    case Undefined => false
    case NonFinite => false
    case Num(t) => num(t) == t
    case Str(s) => Ascii(s)
    case Arr(items) => forall i :: 0 <= i < |items| ==> Alike(num, items[i])
    case Obj(fs) => forall i :: 0 <= i < |fs| ==> Ascii(fs[i].key) && Alike(num, fs[i].value)
    case _ => true
  }

  lemma {:induction false} AlikeStrings(num: string -> string, s: string)
    requires Ascii(s)
    ensures EscAll(Engine(num), s) == EscAll(Platform, s)
  {
    if s != [] {
      EngineStartsAscii(s[0]);
      AlikeStrings(num, s[1..]);
    }
  }

  lemma {:induction false} AlikePrints(num: string -> string, v: Value)
    requires Alike(num, v)
    ensures Print(Engine(num), v) == Print(Platform, v)
    decreases v, 1
  {
    match v
    case Str(s) => AlikeStrings(num, s);
    case Arr(items) => AlikeItems(num, items, true);
    case Obj(fs) => AlikeFields(num, fs, true);
    case _ =>
  }

  lemma {:induction false} AlikeItems(num: string -> string, items: seq<Value>, first: bool)
    requires forall i :: 0 <= i < |items| ==> Alike(num, items[i])
    ensures PrintItems(Engine(num), items, first) == PrintItems(Platform, items, first)
    decreases items, 0
  {
    if items != [] {
      AlikePrints(num, items[0]);
      AlikeItems(num, items[1..], false);
    }
  }

  lemma {:induction false} AlikeFields(num: string -> string, fs: seq<Field>, first: bool)
    requires forall i :: 0 <= i < |fs| ==> Ascii(fs[i].key) && Alike(num, fs[i].value)
    ensures PrintFields(Engine(num), fs, first) == PrintFields(Platform, fs, first)
    decreases fs, 0
  {
    if fs != [] {
      AlikeStrings(num, fs[0].key);
      AlikePrints(num, fs[0].value);
      AlikeFields(num, fs[1..], false);
    }
  }

  lemma {:induction false} AgreeingAlike(num: string -> string, v: Value)
    requires Wf(v) && Agrees(num, v)
    ensures Alike(num, EngineSort(v))
    decreases v
  {
    match v
    case Arr(items) =>
      forall i | 0 <= i < |items| ensures Alike(num, EngineSortItems(items)[i]) {
        AgreeingAlike(num, items[i]);
      }
    case Obj(fs) =>
      var es := EngineSortValues(fs);
      forall i | 0 <= i < |fs| ensures Ascii(es[i].key) && Alike(num, es[i].value) {
        AgreeingAlike(num, fs[i].value);
      }
      CodeIsStrictOrder();
      SortSorts(CodeLess, AllKeys(), es);
      var r := Sort(CodeLess, es);
      forall i | 0 <= i < |r| ensures Ascii(r[i].key) && Alike(num, r[i].value) {
        assert r[i] in es;
      }
    case _ =>
  }

  // ---------------------------------------------------------------- values that print alike agree

  /** A field of an object, found in both sorted forms at one place. */
  lemma FieldInBoth(num: string -> string, fs: seq<Field>, k: nat)
    requires k < |fs| && DistinctKeys(fs)
    requires var xs, ys := FromEntries(Sort(LexLess, SortValues(fs))), Sort(CodeLess, EngineSortValues(fs));
      |xs| == |ys| && forall i :: 0 <= i < |xs| ==> SameField(Platform, xs[i], Engine(num), ys[i])
    ensures Ascii(fs[k].key) && Same(Platform, SortKeysDeep(fs[k].value), Engine(num), EngineSort(fs[k].value))
  {
    var es, hs := SortValues(fs), EngineSortValues(fs);
    SortValuesAt(fs, k);
    DistinctSorted(fs);
    FromSortedEntries(es);
    CodeIsStrictOrder();
    SortSorts(CodeLess, AllKeys(), hs);
    var xs, ys := FromEntries(Sort(LexLess, es)), Sort(CodeLess, hs);
    hide Sort, FromEntries, SortValues, EngineSortValues, Sorted, StrictOrder, CodeLess, LexLess, Ascii, Same;
    assert es[k] in xs;
    var i :| 0 <= i < |xs| && xs[i] == es[k];
    assert SameField(Platform, xs[i], Engine(num), ys[i]) && ys[i] in hs;
    var j :| 0 <= j < |hs| && hs[j] == ys[i];
    assert fs[j].key == fs[k].key;
  }

  lemma DistinctSorted(fs: seq<Field>)
    requires DistinctKeys(fs)
    ensures |SortValues(fs)| == |fs| && DistinctKeys(SortValues(fs)) && Keys(SortValues(fs)) == Keys(fs)
    ensures DistinctKeys(EngineSortValues(fs)) && Keys(EngineSortValues(fs)) == Keys(fs)
  {
    var es := SortValues(fs);
    if fs != [] {
      SortValuesAt(fs, 0);
    }
    forall i | 0 <= i < |fs| ensures es[i].key == fs[i].key {
      SortValuesAt(fs, i);
    }
  }

  /** Sorted forms with the same keys in the same places have their indices in text order. */
  lemma OrdersAgree(num: string -> string, fs: seq<Field>)
    requires DistinctKeys(fs)
    requires var xs, ys := FromEntries(Sort(LexLess, SortValues(fs))), Sort(CodeLess, EngineSortValues(fs));
      |xs| == |ys| && forall i :: 0 <= i < |xs| ==> SameField(Platform, xs[i], Engine(num), ys[i])
    ensures IndicesAgree(Keys(fs))
  {
    var es, hs := SortValues(fs), EngineSortValues(fs);
    DistinctSorted(fs);
    FromSortedEntries(es);
    CodeIsStrictOrder();
    SortSorts(CodeLess, AllKeys(), hs);
    var xs, ys := FromEntries(Sort(LexLess, es)), Sort(CodeLess, hs);
    assert forall i :: 0 <= i < |xs| ==> SameField(Platform, xs[i], Engine(num), ys[i]);
    hide Sort, FromEntries, SortValues, EngineSortValues, StrictOrder, CodeLess, LexLess, Ascii, Same, IndicesAgree;
    assert forall i :: 0 <= i < |xs| ==> xs[i].key == ys[i].key && Ascii(xs[i].key);
    assert Sorted(CodeLess, xs);
    AsciiSorted(xs);
    CanonicalIsLex(xs);
    SameFieldsSameKeys(xs, es);
  }

  lemma {:induction false} SameAgrees(num: string -> string, v: Value)
    requires Wf(v) && Defined(v) && Same(Platform, SortKeysDeep(v), Engine(num), EngineSort(v))
    ensures Agrees(num, v)
    decreases v
  {
    match v
    case Arr(items) =>
      SortedItemsLength(items);
      forall i | 0 <= i < |items| ensures Agrees(num, items[i]) {
        SortItemsAt(items, i);
        SameAgrees(num, items[i]);
      }
    case Obj(fs) =>
      OrdersAgree(num, fs);
      forall k | 0 <= k < |fs| ensures Ascii(fs[k].key) && Agrees(num, fs[k].value) {
        FieldInBoth(num, fs, k);
        SameAgrees(num, fs[k].value);
      }
    case _ =>
  }

  // ---------------------------------------------------------------- main results

  /** The platform's and the engine's digests hash one text of a value if and only if every
      string and key stays within ASCII below DEL, every number prints alike, and no array
      index among an object's keys is out of text order. */
  lemma SchemesAgreeIff(num: string -> string, v: Value)
    requires Wf(v) && Defined(v) && PrintsNumbers(Engine(num))
    ensures CanonicalText(v) == EngineText(num, v) <==> Agrees(num, v)
  {
    SortKeysDeepNormalises(v);
    CanonicalDefined(v);
    EngineSortOk(v);
    var x, y := SortKeysDeep(v), EngineSort(v);
    PlatformIsText(x);
    hide SortKeysDeep, EngineSort, Print, Text, Wf, Defined, Same, Agrees;
    if CanonicalText(v) == EngineText(num, v) {
      assert Print(Platform, x) + [] == Print(Platform, x) && Print(Engine(num), y) + [] == Print(Engine(num), y);
      PrintSplits(Platform, x, [], Engine(num), y, []);
      SameAgrees(num, v);
    }
    if Agrees(num, v) {
      AgreeingSorts(num, v);
      AgreeingAlike(num, v);
      AlikePrints(num, y);
    }
  }

  /** The digests differ on the same condition, as long as the hash does not collide on the
      two texts. */
  lemma DigestsAgreeIff(h: string -> string, num: string -> string, previous: string, v: Value)
    requires Wf(v) && Defined(v) && PrintsNumbers(Engine(num))
    requires h(previous + CanonicalText(v)) == h(previous + EngineText(num, v)) ==> previous + CanonicalText(v) == previous + EngineText(num, v)
    ensures h(previous + CanonicalText(v)) == h(previous + EngineText(num, v)) <==> Agrees(num, v)
  {
    SchemesAgreeIff(num, v);
    var a, b := previous + CanonicalText(v), previous + EngineText(num, v);
    assert a[|previous|..] == CanonicalText(v) && b[|previous|..] == EngineText(num, v);
  }

  /** Two keys beyond ASCII whose UTF-16 and code point orders differ, though neither is an
      array index: the platform's order is plain, and the texts still differ. */
  lemma SurrogatesSortFirst(num: string -> string, v: Value, w: Value)
    requires Wf(v) && Wf(w) && Defined(v) && Defined(w) && PrintsNumbers(Engine(num))
    ensures var fs := [Field(['\U{E000}'], v), Field(['\U{10000}'], w)];
      && IndicesAgree(Keys(fs)) && LexLess(fs[1].key, fs[0].key) && CodeLess(fs[0].key, fs[1].key)
      && CanonicalText(Obj(fs)) != EngineText(num, Obj(fs))
  {
    var fs := [Field(['\U{E000}'], v), Field(['\U{10000}'], w)];
    assert forall k :: k in Keys(fs) ==> k == fs[0].key || k == fs[1].key;
    assert !IsIndexKey(fs[0].key) && !IsIndexKey(fs[1].key) by {
      assert !('0' <= fs[0].key[0] <= '9') && !('0' <= fs[1].key[0] <= '9');
    }
    assert !Ascii(fs[0].key) by {
      assert fs[0].key[0] as int > 126;
    }
    SchemesAgreeIff(num, Obj(fs));
  }

  /** Array indices out of order make the texts differ too. */
  lemma NineAndTenDiffer(num: string -> string, v: Value, w: Value)
    requires Wf(v) && Wf(w) && Defined(v) && Defined(w) && PrintsNumbers(Engine(num))
    ensures CanonicalText(Obj([Field("9", v), Field("10", w)])) != EngineText(num, Obj([Field("9", v), Field("10", w)]))
  {
    NineBeforeTen(v, w);
    SchemesAgreeIff(num, Obj([Field("9", v), Field("10", w)]));
  }
}
