/** The canonical text names a value's meaning: two values hash the same text exactly
    when they differ in nothing but key order and unprintable parts. */
module JsonCanonical {
  import opened Basics
  import opened Decimal
  import opened Json

  // ---------------------------------------------------------------- parsing what was printed

  lemma ParseEscaped(c: char, rest: string)
    ensures ParseChar(Escape(c) + rest) == Some((c, rest))
  {
    var e := Escape(c);
    assert (e + rest)[|e|..] == rest;
    if c as int < 32 && e[1] == 'u' {
      var hi, lo := c as int / 16, c as int % 16;
      assert HexValue(HexDigit(hi)) == Some(hi) && HexValue(HexDigit(lo)) == Some(lo);
      assert (e + rest)[2..6] == ['0', '0', HexDigit(hi), HexDigit(lo)];
    }
  }

  lemma {:induction false} ParseEscapedAll(s: string, rest: string)
    ensures ParseString(EscapeAll(s) + ['\"'] + rest) == Some((s, rest))
  {
    var t := EscapeAll(s) + ['\"'] + rest;
    if s == [] {
      assert t == ['\"'] + rest;
    } else {
      var tail := EscapeAll(s[1..]) + ['\"'] + rest;
      assert t == Escape(s[0]) + tail;
      ParseEscaped(s[0], tail);
      ParseEscapedAll(s[1..], rest);
      assert t[0] != '\"';
      assert [s[0]] + s[1..] == s;
    }
  }

  lemma {:induction false} NumPrefixSplits(t: string, rest: string)
    requires forall i :: 0 <= i < |t| ==> IsNumChar(t[i])
    requires rest == [] || !IsNumChar(rest[0])
    ensures NumPrefix(t + rest) == |t|
  {
    if t == [] {
      assert t + rest == rest;
    } else {
      assert (t + rest)[1..] == t[1..] + rest;
      NumPrefixSplits(t[1..], rest);
    }
  }

  lemma ParseNumText(n: string, rest: string)
    requires IsNumText(n) && (rest == [] || !IsNumChar(rest[0]))
    ensures ParseScalar(n + rest) == Some((DNum(n), rest))
  {
    var t := n + rest;
    NumPrefixSplits(n, rest);
    assert t[0] == n[0];
    assert t[..|n|] == n && t[|n|..] == rest;
  }

  lemma ParseStrText(s: string, rest: string)
    ensures ParseScalar(Quote(s) + rest) == Some((DStr(s), rest))
  {
    var t := Quote(s) + rest;
    assert t[1..] == EscapeAll(s) + ['\"'] + rest;
    assert t[0] == '\"';
    ParseEscapedAll(s, rest);
  }

  lemma ParseScalarText(v: Value, rest: string)
    requires Wf(v) && !v.Arr? && !v.Obj?
    requires rest == [] || !IsNumChar(rest[0])
    ensures ParseValue(Text(v) + rest) == Some((Meaning(v), rest))
  {
    var t := Text(v) + rest;
    match v
    case Bool(b) => assert t[if b then 4 else 5..] == rest;
    case Num(n) => ParseNumText(n, rest);
    case Str(s) => ParseStrText(s, rest);
    case Null | Undefined | NonFinite => assert t[4..] == rest;
  }

  /** JSON.parse undoes JSON.stringify up to meaning, whatever text follows. */
  lemma {:induction false} ParseText(v: Value, rest: string)
    requires Wf(v)
    requires rest == [] || !IsNumChar(rest[0])
    ensures ParseValue(Text(v) + rest) == Some((Meaning(v), rest))
    decreases v, 1
  {
    hide ParseValue, ParseItems, ParseFields, ParseScalar, IsNumText;
    match v
    case Arr(items) =>
      ParseItemsText(items, rest);
      if items != [] { TextStarts(items[0]); }
      ParseBrackets(ItemsText(items, true), ItemsText(items, false), ItemsMeaning(items), rest);
    case Obj(fs) =>
      ParseFieldsText(fs, rest);
      FieldsTextFirst(fs);
      ParseBraces(FieldsText(fs, true), FieldsText(fs, false), FieldsMeaning(fs), rest);
    case _ => ParseScalarText(v, rest);
  }

  lemma UnfoldArray(s: string, u: string)
    requires |s| > 1 && s[0] == '[' && s[1] != ']' && u == [','] + s[1..]
    ensures ParseItems(u).Some? ==> ParseValue(s) == Some((DArr(ParseItems(u).value.0), ParseItems(u).value.1))
  {
  }

  lemma UnfoldObject(s: string, u: string)
    requires |s| > 1 && s[0] == '{' && s[1] != '}' && u == [','] + s[1..]
    ensures ParseFields(u).Some? ==> ParseValue(s) == Some((DObj(ParseFields(u).value.0), ParseFields(u).value.1))
  {
  }

  lemma ParseEmpty(rest: string)
    ensures ParseValue(['[', ']'] + rest) == Some((DArr([]), rest)) && ParseItems([']'] + rest) == Some(([], rest))
    ensures ParseValue(['{', '}'] + rest) == Some((DObj(map[]), rest)) && ParseFields(['}'] + rest) == Some((map[], rest))
  {
    assert (['[', ']'] + rest)[2..] == rest && (['{', '}'] + rest)[2..] == rest;
  }

  /** A bracketed text read with and without the comma the parser puts in front. */
  lemma Opened(open: char, text: string, tail: string, close: char, rest: string)
    requires if text == "" then tail == "" else tail == [','] + text && text[0] != close
    ensures var s := [open] + text + [close] + rest;
      if text == "" then s == [open, close] + rest && tail + [close] + rest == [close] + rest
      else |s| > 1 && s[0] == open && s[1] != close && tail + [close] + rest == [','] + s[1..]
  {
  }

  /** A whole array, from the text of its items with and without the leading comma. */
  lemma ParseBrackets(text: string, tail: string, items: seq<Data>, rest: string)
    requires if text == "" then tail == "" else tail == [','] + text && text[0] != ']'
    requires ParseItems(tail + [']'] + rest) == Some((items, rest))
    ensures ParseValue(['['] + text + [']'] + rest) == Some((DArr(items), rest))
  {
    Opened('[', text, tail, ']', rest);
    if text == "" {
      ParseEmpty(rest);
    } else {
      UnfoldArray(['['] + text + [']'] + rest, tail + [']'] + rest);
    }
  }

  /** A whole object, likewise. */
  lemma ParseBraces(text: string, tail: string, m: map<string, Data>, rest: string)
    requires if text == "" then tail == "" else tail == [','] + text && text[0] != '}'
    requires ParseFields(tail + ['}'] + rest) == Some((m, rest))
    ensures ParseValue(['{'] + text + ['}'] + rest) == Some((DObj(m), rest))
  {
    Opened('{', text, tail, '}', rest);
    if text == "" {
      ParseEmpty(rest);
    } else {
      UnfoldObject(['{'] + text + ['}'] + rest, tail + ['}'] + rest);
    }
  }

  /** A printed value never starts with a closing bracket. */
  lemma TextStarts(v: Value)
    requires Wf(v)
    ensures Text(v) != "" && Text(v)[0] != ']'
  {
  }

  /** The comma is the only difference between the first member and the others. */
  lemma {:induction false} FieldsTextFirst(fs: seq<Field>)
    ensures FieldsText(fs, true) == "" ==> FieldsText(fs, false) == ""
    ensures FieldsText(fs, true) != "" ==> FieldsText(fs, false) == "," + FieldsText(fs, true)
    ensures FieldsText(fs, true) != "" ==> FieldsText(fs, true)[0] == '\"'
  {
    hide Text, EscapeAll;
    if fs != [] && fs[0].value.Undefined? {
      FieldsTextFirst(fs[1..]);
    } else if fs != [] {
      var member := Quote(fs[0].key) + ":" + Text(fs[0].value) + FieldsText(fs[1..], false);
      assert FieldsText(fs, true) == member && FieldsText(fs, false) == "," + member;
      assert member[0] == '\"';
    }
  }

  lemma {:induction false} ParseItemsText(items: seq<Value>, rest: string)
    requires WfItems(items)
    ensures ParseItems(ItemsText(items, false) + "]" + rest) == Some((ItemsMeaning(items), rest))
    decreases items, 2
  {
    var t := ItemsText(items, false) + "]" + rest;
    if items == [] {
      assert t == "]" + rest;
    } else {
      var tail := ItemsText(items[1..], false) + "]" + rest;
      assert t == "," + Text(items[0]) + tail;
      assert t[1..] == Text(items[0]) + tail;
      assert tail[0] == if |items| == 1 then ']' else ',';
      ParseText(items[0], tail);
      ParseItemsText(items[1..], rest);
    }
  }

  /** One step of the object parser, from what its sub-parsers return. */
  lemma ParseFieldsStep(s: string, key: string, afterKey: string, d: Data, tail: string, m: map<string, Data>, rest: string)
    requires |s| >= 2 && s[0] == ',' && s[1] == '\"'
    requires ParseString(s[2..]) == Some((key, afterKey)) && afterKey != [] && afterKey[0] == ':'
    requires ParseValue(afterKey[1..]) == Some((d, tail)) && ParseFields(tail) == Some((m, rest)) && key !in m
    ensures ParseFields(s) == Some((m[key := d], rest))
  {
  }

  /** One printed member followed by the rest of an object. */
  lemma ParseMember(key: string, value: string, d: Data, tail: string, m: map<string, Data>, rest: string)
    requires ParseValue(value + tail) == Some((d, tail))
    requires ParseFields(tail) == Some((m, rest)) && key !in m
    ensures ParseFields("," + Quote(key) + ":" + value + tail) == Some((m[key := d], rest))
  {
    var afterKey := [':'] + (value + tail);
    var body := EscapeAll(key) + ['\"'] + afterKey;
    var t := "," + Quote(key) + ":" + value + tail;
    assert t == [',', '\"'] + body;
    assert t[2..] == body;
    ParseEscapedAll(key, afterKey);
    assert afterKey[1..] == value + tail;
    ParseFieldsStep(t, key, afterKey, d, tail, m, rest);
  }

  lemma {:induction false} ParseFieldsText(fs: seq<Field>, rest: string)
    requires WfFields(fs)
    ensures ParseFields(FieldsText(fs, false) + "}" + rest) == Some((FieldsMeaning(fs), rest))
    decreases fs, 2
  {
    var t := FieldsText(fs, false) + "}" + rest;
    if fs == [] {
      assert t == "}" + rest;
    } else {
      ParseFieldsText(fs[1..], rest);
      if !fs[0].value.Undefined? {
        var key, v := fs[0].key, fs[0].value;
        var tail := FieldsText(fs[1..], false) + "}" + rest;
        assert t == "," + Quote(key) + ":" + Text(v) + tail;
        FieldsTextFirst(fs[1..]);
        assert tail[0] == '}' || tail[0] == ',';
        ParseText(v, tail);
        MeaningKeys(fs[1..], key);
        ParseMember(key, Text(v), Meaning(v), tail, FieldsMeaning(fs[1..]), rest);
      }
    }
  }

  // ---------------------------------------------------------------- fields as a map

  ghost predicate SameFields(fs: seq<Field>, gs: seq<Field>) {
    forall f :: f in fs <==> f in gs
  }

  lemma {:induction false} MeaningKeys(fs: seq<Field>, key: string)
    ensures key in FieldsMeaning(fs) <==> exists i :: 0 <= i < |fs| && fs[i].key == key && !fs[i].value.Undefined?
  {
    if fs != [] {
      MeaningKeys(fs[1..], key);
      assert forall i :: 0 <= i < |fs[1..]| ==> fs[1..][i] == fs[i + 1];
      if i :| 0 <= i < |fs| && fs[i].key == key && !fs[i].value.Undefined? && i > 0 {
        assert fs[1..][i - 1] == fs[i];
      }
    }
  }

  lemma {:induction false} MeaningAt(fs: seq<Field>, i: nat)
    requires DistinctKeys(fs) && i < |fs| && !fs[i].value.Undefined?
    ensures fs[i].key in FieldsMeaning(fs) && FieldsMeaning(fs)[fs[i].key] == Meaning(fs[i].value)
  {
    if i > 0 {
      assert fs[1..][i - 1] == fs[i];
      MeaningAt(fs[1..], i - 1);
    }
  }

  /** The map an object means does not depend on the order of its fields. */
  lemma SameFieldsSameMeaning(fs: seq<Field>, gs: seq<Field>)
    requires DistinctKeys(fs) && DistinctKeys(gs) && SameFields(fs, gs)
    ensures FieldsMeaning(fs) == FieldsMeaning(gs)
  {
    var m, n := FieldsMeaning(fs), FieldsMeaning(gs);
    forall k ensures k in m <==> k in n {
      MeaningKeys(fs, k);
      MeaningKeys(gs, k);
      if i :| 0 <= i < |fs| && fs[i].key == k && !fs[i].value.Undefined? {
        assert fs[i] in gs;
      }
      if i :| 0 <= i < |gs| && gs[i].key == k && !gs[i].value.Undefined? {
        assert gs[i] in fs;
      }
    }
    forall k | k in m ensures m[k] == n[k] {
      MeaningKeys(fs, k);
      var i :| 0 <= i < |fs| && fs[i].key == k && !fs[i].value.Undefined?;
      assert fs[i] in gs;
      var j :| 0 <= j < |gs| && gs[j] == fs[i];
      MeaningAt(fs, i);
      MeaningAt(gs, j);
    }
  }

  /** Two objects with the same keys in the same order mean the same exactly when their
      values do, one by one. */
  lemma SameKeysIff(fs: seq<Field>, gs: seq<Field>)
    requires |fs| == |gs| && DistinctKeys(fs) && forall i :: 0 <= i < |fs| ==> fs[i].key == gs[i].key
    requires forall i :: 0 <= i < |fs| ==> !fs[i].value.Undefined? && !gs[i].value.Undefined?
    ensures FieldsMeaning(fs) == FieldsMeaning(gs) <==> forall i :: 0 <= i < |fs| ==> Meaning(fs[i].value) == Meaning(gs[i].value)
  {
    if FieldsMeaning(fs) == FieldsMeaning(gs) {
      forall i | 0 <= i < |fs| ensures Meaning(fs[i].value) == Meaning(gs[i].value) {
        MeaningAt(fs, i);
        MeaningAt(gs, i);
      }
    } else if forall i :: 0 <= i < |fs| ==> Meaning(fs[i].value) == Meaning(gs[i].value) {
      SameValuesSameMeaning(fs, gs);
    }
  }

  lemma {:induction false} SameValuesSameMeaning(fs: seq<Field>, gs: seq<Field>)
    requires |fs| == |gs| && forall i :: 0 <= i < |fs| ==> fs[i].key == gs[i].key
    requires forall i :: 0 <= i < |fs| ==> !fs[i].value.Undefined? && !gs[i].value.Undefined?
    requires forall i :: 0 <= i < |fs| ==> Meaning(fs[i].value) == Meaning(gs[i].value)
    ensures FieldsMeaning(fs) == FieldsMeaning(gs)
  {
    if fs != [] {
      SameValuesSameMeaning(fs[1..], gs[1..]);
    }
  }

  // ---------------------------------------------------------------- sorting

  ghost predicate StrictOrder(less: (string, string) -> bool, keys: iset<string>) {
    && (forall a :: a in keys ==> !less(a, a))
    && (forall a, b, c :: a in keys && b in keys && c in keys && less(a, b) && less(b, c) ==> less(a, c))
    && (forall a, b :: a in keys && b in keys && a != b ==> less(a, b) || less(b, a))
  }

  ghost predicate Sorted(less: (string, string) -> bool, fs: seq<Field>) {
    forall i, j :: 0 <= i < j < |fs| ==> less(fs[i].key, fs[j].key)
  }

  ghost predicate KeysIn(fs: seq<Field>, keys: iset<string>) {
    forall i :: 0 <= i < |fs| ==> fs[i].key in keys
  }

  lemma {:induction false} InsertSorts(less: (string, string) -> bool, keys: iset<string>, f: Field, fs: seq<Field>)
    requires StrictOrder(less, keys) && KeysIn(fs, keys) && f.key in keys
    requires Sorted(less, fs)
    requires forall i :: 0 <= i < |fs| ==> fs[i].key != f.key
    ensures Sorted(less, Insert(less, f, fs))
    ensures SameFields(Insert(less, f, fs), [f] + fs)
  {
    var r := Insert(less, f, fs);
    if fs == [] || less(f.key, fs[0].key) {
    } else {
      InsertSorts(less, keys, f, fs[1..]);
      var tail := Insert(less, f, fs[1..]);
      forall j | 1 <= j < |r| ensures less(r[0].key, r[j].key) {
        assert r[j] in tail;
        assert r[j] in [f] + fs[1..];
      }
      forall i, j | 0 <= i < j < |r| ensures less(r[i].key, r[j].key) {
        if i > 0 {
          assert r[i] == tail[i - 1] && r[j] == tail[j - 1];
        }
      }
      forall g ensures g in r <==> g in [f] + fs {
        assert fs == [fs[0]] + fs[1..];
      }
    }
  }

  lemma {:induction false} SortSorts(less: (string, string) -> bool, keys: iset<string>, fs: seq<Field>)
    requires StrictOrder(less, keys) && KeysIn(fs, keys) && DistinctKeys(fs)
    ensures Sorted(less, Sort(less, fs)) && SameFields(Sort(less, fs), fs) && KeysIn(Sort(less, fs), keys)
  {
    if fs != [] {
      SortSorts(less, keys, fs[1..]);
      var rest := Sort(less, fs[1..]);
      forall i | 0 <= i < |rest| ensures rest[i].key != fs[0].key {
        assert rest[i] in fs[1..];
      }
      InsertSorts(less, keys, fs[0], rest);
      assert fs == [fs[0]] + fs[1..];
      forall i | 0 <= i < |Sort(less, fs)| ensures Sort(less, fs)[i].key in keys {
        assert Sort(less, fs)[i] in [fs[0]] + rest;
        assert Sort(less, fs)[i] in fs;
      }
    }
  }

  lemma SortedDistinct(less: (string, string) -> bool, keys: iset<string>, fs: seq<Field>)
    requires StrictOrder(less, keys) && KeysIn(fs, keys) && Sorted(less, fs)
    ensures DistinctKeys(fs)
  {
    forall i, j | 0 <= i < j < |fs| ensures fs[i].key != fs[j].key {
      assert less(fs[i].key, fs[j].key);
      assert fs[i].key in keys;
    }
  }

  // ---------------------------------------------------------------- the two key orders

  ghost function AllKeys(): iset<string> { iset k: string | |k| >= 0 }

  ghost function IndexKeys(): iset<string> { iset k: string | IsIndexKey(k) }

  lemma {:induction false} LexTransitive(a: string, b: string, c: string)
    requires LexLess(a, b) && LexLess(b, c)
    ensures LexLess(a, c)
  {
    if a != [] && CodeUnitRank(a[0]) == CodeUnitRank(b[0]) == CodeUnitRank(c[0]) {
      LexTransitive(a[1..], b[1..], c[1..]);
    }
  }

  lemma {:induction false} LexTotal(a: string, b: string)
    ensures a != b ==> LexLess(a, b) || LexLess(b, a)
    ensures !LexLess(a, a)
    decreases |a|
  {
    if a != [] {
      if b != [] && a[0] == b[0] {
        assert a == [a[0]] + a[1..] && b == [b[0]] + b[1..];
        LexTotal(a[1..], b[1..]);
      } else {
        LexTotal(a[1..], []);
      }
    }
  }

  lemma LexIsStrictOrder()
    ensures StrictOrder(LexLess, AllKeys())
  {
    forall a, b, c | LexLess(a, b) && LexLess(b, c) ensures LexLess(a, c) {
      LexTransitive(a, b, c);
    }
    forall a, b ensures !LexLess(a, a) && (a != b ==> LexLess(a, b) || LexLess(b, a)) {
      LexTotal(a, b);
    }
  }

  lemma {:induction false} LeadingDigitCounts(s: string)
    requires s != [] && AllDigits(s) && s[0] != '0'
    ensures Number(s) >= 1
  {
    if |s| > 1 {
      LeadingDigitCounts(s[..|s| - 1]);
    }
  }

  /** Decimal texts without leading zeros name different numbers. */
  lemma {:induction false} DigitsInjective(a: string, b: string)
    requires a != [] && b != [] && AllDigits(a) && AllDigits(b)
    requires (a[0] == '0' ==> |a| == 1) && (b[0] == '0' ==> |b| == 1)
    requires Number(a) == Number(b)
    ensures a == b
  {
    var p, q := a[..|a| - 1], b[..|b| - 1];
    assert a == p + [a[|a| - 1]] && b == q + [b[|b| - 1]];
    if |a| > 1 { LeadingDigitCounts(p); }
    if |b| > 1 { LeadingDigitCounts(q); }
    assert Number(p) == Number(q) && a[|a| - 1] == b[|b| - 1];
    if |a| > 1 && |b| > 1 {
      DigitsInjective(p, q);
    }
  }

  lemma IndexIsStrictOrder()
    ensures StrictOrder(IndexLess, IndexKeys())
  {
    forall a, b | IsIndexKey(a) && IsIndexKey(b) && a != b ensures IndexLess(a, b) || IndexLess(b, a) {
      if Number(a) == Number(b) {
        DigitsInjective(a, b);
      }
    }
  }

  /** The order in which a canonical object enumerates its keys. */
  predicate CanonLess(a: string, b: string) {
    if IsIndexKey(a) then !IsIndexKey(b) || IndexLess(a, b)
    else !IsIndexKey(b) && LexLess(a, b)
  }

  lemma CanonIsStrictOrder()
    ensures StrictOrder(CanonLess, AllKeys())
  {
    LexIsStrictOrder();
    IndexIsStrictOrder();
    forall a, b ensures !CanonLess(a, a) && (a != b ==> CanonLess(a, b) || CanonLess(b, a)) {
      if IsIndexKey(a) { assert a in IndexKeys(); }
      if IsIndexKey(b) { assert b in IndexKeys(); }
      assert a in AllKeys() && b in AllKeys();
    }
    forall a, b, c | CanonLess(a, b) && CanonLess(b, c) ensures CanonLess(a, c) {
      assert a in AllKeys() && b in AllKeys() && c in AllKeys();
    }
  }

  // ---------------------------------------------------------------- sortKeysDeep

  ghost predicate SortedDeep(v: Value)
    decreases v
  {
    match v
    case Arr(items) => forall i :: 0 <= i < |items| ==> SortedDeep(items[i])
    case Obj(fs) => Sorted(CanonLess, fs) && forall i :: 0 <= i < |fs| ==> SortedDeep(fs[i].value)
    case _ => true
  }

  ghost predicate SortedValues(fs: seq<Field>) {
    forall i :: 0 <= i < |fs| ==> SortedDeep(fs[i].value)
  }

  ghost predicate WfValues(fs: seq<Field>) {
    forall i :: 0 <= i < |fs| ==> Wf(fs[i].value)
  }

  lemma {:induction false} SplitMember(fs: seq<Field>, f: Field)
    ensures f in IndexFields(fs) <==> f in fs && IsIndexKey(f.key)
    ensures f in NameFields(fs) <==> f in fs && !IsIndexKey(f.key)
  {
    if fs != [] {
      SplitMember(fs[1..], f);
      assert fs == [fs[0]] + fs[1..];
    }
  }

  lemma SortedCons(less: (string, string) -> bool, f: Field, fs: seq<Field>)
    requires Sorted(less, fs) && forall g :: g in fs ==> less(f.key, g.key)
    ensures Sorted(less, [f] + fs)
  {
  }

  /** Filtering keeps the order, whatever it is. */
  lemma {:induction false} SplitKeepsOrder(fs: seq<Field>)
    requires Sorted(LexLess, fs)
    ensures Sorted(LexLess, NameFields(fs)) && Sorted(LexLess, IndexFields(fs))
  {
    if fs != [] {
      SplitKeepsOrder(fs[1..]);
      forall g | g in fs[1..] ensures LexLess(fs[0].key, g.key) {
        var i :| 0 <= i < |fs[1..]| && fs[1..][i] == g;
        assert fs[i + 1] == g;
      }
      forall g ensures g in NameFields(fs[1..]) || g in IndexFields(fs[1..]) ==> g in fs[1..] {
        SplitMember(fs[1..], g);
      }
      SortedCons(LexLess, fs[0], NameFields(fs[1..]));
      SortedCons(LexLess, fs[0], IndexFields(fs[1..]));
    }
  }

  /** Sorting the entries and building an object from them enumerates in the canonical order. */
  lemma FromSortedEntries(fs: seq<Field>)
    requires DistinctKeys(fs)
    ensures var r := FromEntries(Sort(LexLess, fs)); Sorted(CanonLess, r) && SameFields(r, fs)
  {
    LexIsStrictOrder();
    IndexIsStrictOrder();
    SortSorts(LexLess, AllKeys(), fs);
    var s := Sort(LexLess, fs);
    SplitKeepsOrder(s);
    forall f ensures (f in IndexFields(s) <==> f in s && IsIndexKey(f.key)) && (f in NameFields(s) <==> f in s && !IsIndexKey(f.key)) {
      SplitMember(s, f);
    }
    SortedDistinct(LexLess, AllKeys(), IndexFields(s));
    SortSorts(IndexLess, IndexKeys(), IndexFields(s));
    var idx, names := Sort(IndexLess, IndexFields(s)), NameFields(s);
    forall i | 0 <= i < |idx| ensures IsIndexKey(idx[i].key) {
      assert idx[i].key in IndexKeys();
    }
    forall f ensures f in idx + names <==> f in fs {
      assert f in IndexFields(s) + names <==> f in s;
    }
  }

  /** sortKeysDeep keeps the meaning and leaves every object in the canonical order. */
  lemma {:induction false} SortKeysDeepNormalises(v: Value)
    requires Wf(v)
    ensures Wf(SortKeysDeep(v)) && SortedDeep(SortKeysDeep(v))
    ensures Meaning(SortKeysDeep(v)) == Meaning(v)
    ensures SortKeysDeep(v).Undefined? <==> v.Undefined?
    decreases v, 1
  {
    match v
    case Arr(items) => SortItemsNormalises(items);
    case Obj(fs) =>
      SortValuesNormalises(fs);
      var es := SortValues(fs);
      assert DistinctKeys(es);
      FromSortedEntries(es);
      var r := FromEntries(Sort(LexLess, es));
      CanonIsStrictOrder();
      SortedDistinct(CanonLess, AllKeys(), r);
      SameFieldsSameMeaning(r, es);
      forall i | 0 <= i < |r| ensures Wf(r[i].value) && SortedDeep(r[i].value) {
        assert r[i] in es;
      }
    case _ =>
  }

  lemma {:induction false} SortItemsNormalises(items: seq<Value>)
    requires WfItems(items)
    ensures WfItems(SortItems(items)) && |SortItems(items)| == |items|
    ensures forall i :: 0 <= i < |items| ==> SortedDeep(SortItems(items)[i])
    ensures ItemsMeaning(SortItems(items)) == ItemsMeaning(items)
    decreases items, 0
  {
    if items != [] {
      SortKeysDeepNormalises(items[0]);
      SortItemsNormalises(items[1..]);
      assert SortItems(items)[1..] == SortItems(items[1..]);
    }
  }

  lemma {:induction false} SortValuesNormalises(fs: seq<Field>)
    requires WfValues(fs)
    ensures |SortValues(fs)| == |fs| && WfValues(SortValues(fs)) && SortedValues(SortValues(fs))
    ensures forall i :: 0 <= i < |fs| ==> SortValues(fs)[i].key == fs[i].key
    ensures FieldsMeaning(SortValues(fs)) == FieldsMeaning(fs)
    decreases fs, 0
  {
    if fs != [] {
      SortKeysDeepNormalises(fs[0].value);
      assert forall i :: 0 <= i < |fs[1..]| ==> fs[1..][i] == fs[i + 1];
      SortValuesNormalises(fs[1..]);
      assert SortValues(fs)[1..] == SortValues(fs[1..]);
    }
  }

  // ---------------------------------------------------------------- one text per meaning

  lemma {:induction false} TextDetermined(x: Value, y: Value)
    requires Wf(x) && Wf(y) && SortedDeep(x) && SortedDeep(y) && Meaning(x) == Meaning(y)
    ensures Text(x) == Text(y)
    decreases x, 1
  {
    match x
    case Arr(items) => ItemsTextDetermined(items, y.items, true);
    case Obj(fs) => FieldsTextDetermined(fs, y.fields, true);
    case _ =>
  }

  lemma {:induction false} ItemsTextDetermined(xs: seq<Value>, ys: seq<Value>, first: bool)
    requires WfItems(xs) && WfItems(ys)
    requires forall i :: 0 <= i < |xs| ==> SortedDeep(xs[i])
    requires forall i :: 0 <= i < |ys| ==> SortedDeep(ys[i])
    requires ItemsMeaning(xs) == ItemsMeaning(ys)
    ensures ItemsText(xs, first) == ItemsText(ys, first)
    decreases xs, 0
  {
    if xs != [] && ys != [] {
      assert ItemsMeaning(xs)[0] == ItemsMeaning(ys)[0];
      assert ItemsMeaning(xs)[1..] == ItemsMeaning(xs[1..]) && ItemsMeaning(ys)[1..] == ItemsMeaning(ys[1..]);
      TextDetermined(xs[0], ys[0]);
      ItemsTextDetermined(xs[1..], ys[1..], false);
    }
  }

  /** In a sorted list no later field has the first key. */
  lemma HeadKeyIsLeast(fs: seq<Field>)
    requires fs != [] && Sorted(CanonLess, fs) && !fs[0].value.Undefined?
    ensures fs[0].key !in FieldsMeaning(fs[1..])
    ensures fs[0].key in FieldsMeaning(fs)
    ensures forall k :: k in FieldsMeaning(fs) && k != fs[0].key ==> CanonLess(fs[0].key, k)
    ensures FieldsMeaning(fs) - {fs[0].key} == FieldsMeaning(fs[1..])
  {
    CanonIsStrictOrder();
    forall k | k in FieldsMeaning(fs[1..]) ensures CanonLess(fs[0].key, k) && k != fs[0].key {
      MeaningKeys(fs[1..], k);
      var i :| 0 <= i < |fs[1..]| && fs[1..][i].key == k && !fs[1..][i].value.Undefined?;
      assert CanonLess(fs[0].key, fs[i + 1].key);
      assert k in AllKeys();
    }
  }

  lemma {:induction false} FieldsTextDetermined(fs: seq<Field>, gs: seq<Field>, first: bool)
    requires WfFields(fs) && WfFields(gs) && SortedValues(fs) && SortedValues(gs)
    requires Sorted(CanonLess, fs) && Sorted(CanonLess, gs)
    requires FieldsMeaning(fs) == FieldsMeaning(gs)
    ensures FieldsText(fs, first) == FieldsText(gs, first)
    decreases fs, 0, |gs|
  {
    if fs != [] && fs[0].value.Undefined? {
      FieldsTextDetermined(fs[1..], gs, first);
    } else if gs != [] && gs[0].value.Undefined? {
      FieldsTextDetermined(fs, gs[1..], first);
    } else if fs != [] && gs != [] {
      HeadKeyIsLeast(fs);
      HeadKeyIsLeast(gs);
      CanonIsStrictOrder();
      assert fs[0].key in AllKeys() && gs[0].key in AllKeys();
      assert fs[0].key == gs[0].key by {
        assert fs[0].key in FieldsMeaning(gs) && gs[0].key in FieldsMeaning(fs);
      }
      assert Meaning(fs[0].value) == FieldsMeaning(fs)[fs[0].key] == Meaning(gs[0].value);
      TextDetermined(fs[0].value, gs[0].value);
      FieldsTextDetermined(fs[1..], gs[1..], false);
    } else if fs != [] {
      HeadKeyIsLeast(fs);
    } else if gs != [] {
      HeadKeyIsLeast(gs);
    }
  }

  /** Main result: the hashed text identifies the meaning. Reading a stored value back with
      its keys in any order at any depth hashes the same text; any other change hashes another. */
  lemma CanonicalIff(v: Value, w: Value)
    requires Wf(v) && Wf(w)
    ensures CanonicalText(v) == CanonicalText(w) <==> Meaning(v) == Meaning(w)
  {
    SortKeysDeepNormalises(v);
    SortKeysDeepNormalises(w);
    var x, y := SortKeysDeep(v), SortKeysDeep(w);
    ParseText(x, "");
    ParseText(y, "");
    assert Text(x) + "" == Text(x) && Text(y) + "" == Text(y);
    if Meaning(v) == Meaning(w) {
      TextDetermined(x, y);
    }
  }

  /** JSON.parse reads the canonical text back to the meaning it came from. */
  lemma CanonicalParses(v: Value)
    requires Wf(v)
    ensures ParseValue(CanonicalText(v)) == Some((Meaning(v), ""))
  {
    SortKeysDeepNormalises(v);
    ParseText(SortKeysDeep(v), "");
    assert CanonicalText(v) + "" == CanonicalText(v);
  }

  /** A strictly sorted list is determined by its fields. */
  lemma {:induction false} SortedUnique(less: (string, string) -> bool, keys: iset<string>, fs: seq<Field>, gs: seq<Field>)
    requires StrictOrder(less, keys) && KeysIn(fs, keys) && KeysIn(gs, keys)
    requires Sorted(less, fs) && Sorted(less, gs) && SameFields(fs, gs)
    ensures fs == gs
  {
    assert fs != [] ==> fs[0] in gs;
    assert gs != [] ==> gs[0] in fs;
    if fs != [] && gs != [] {
      assert fs[0] == gs[0] by {
        assert forall k :: 0 < k < |gs| ==> less(gs[0].key, gs[k].key);
        assert forall k :: 0 < k < |fs| ==> less(fs[0].key, fs[k].key);
        var i :| 0 <= i < |gs| && gs[i] == fs[0];
        var j :| 0 <= j < |fs| && fs[j] == gs[0];
        assert fs[0].key in keys && gs[0].key in keys;
      }
      forall f ensures f in fs[1..] <==> f in gs[1..] {
        TailMembers(less, keys, fs, f);
        TailMembers(less, keys, gs, f);
      }
      SortedUnique(less, keys, fs[1..], gs[1..]);
      assert fs == [fs[0]] + fs[1..] && gs == [gs[0]] + gs[1..];
    }
  }

  lemma TailMembers(less: (string, string) -> bool, keys: iset<string>, fs: seq<Field>, f: Field)
    requires StrictOrder(less, keys) && KeysIn(fs, keys) && Sorted(less, fs) && fs != []
    ensures f in fs[1..] <==> f in fs && f != fs[0]
  {
    if f in fs[1..] {
      var i :| 0 <= i < |fs[1..]| && fs[1..][i] == f;
      assert less(fs[0].key, fs[i + 1].key) && fs[0].key in keys;
    }
    if f in fs && f != fs[0] {
      var i :| 0 <= i < |fs| && fs[i] == f;
      assert fs[1..][i - 1] == f;
    }
  }

  lemma {:induction false} SortedDeepIsFixed(v: Value)
    requires Wf(v) && SortedDeep(v)
    ensures SortKeysDeep(v) == v
    decreases v, 1
  {
    match v
    case Arr(items) => SortItemsFixed(items);
    case Obj(fs) =>
      SortValuesFixed(fs);
      FromSortedEntries(fs);
      CanonIsStrictOrder();
      SortedUnique(CanonLess, AllKeys(), FromEntries(Sort(LexLess, fs)), fs);
    case _ =>
  }

  lemma {:induction false} SortItemsFixed(items: seq<Value>)
    requires WfItems(items) && forall i :: 0 <= i < |items| ==> SortedDeep(items[i])
    ensures SortItems(items) == items
    decreases items, 0
  {
    if items != [] {
      SortedDeepIsFixed(items[0]);
      SortItemsFixed(items[1..]);
      assert items == [items[0]] + items[1..];
    }
  }

  lemma {:induction false} SortValuesFixed(fs: seq<Field>)
    requires WfValues(fs) && SortedValues(fs)
    ensures SortValues(fs) == fs
    decreases fs, 0
  {
    if fs != [] {
      SortedDeepIsFixed(fs[0].value);
      SortValuesFixed(fs[1..]);
      assert fs == [fs[0]] + fs[1..];
    }
  }

  /** sortKeysDeep is idempotent. */
  lemma SortKeysDeepIdempotent(v: Value)
    requires Wf(v)
    ensures SortKeysDeep(SortKeysDeep(v)) == SortKeysDeep(v)
  {
    SortKeysDeepNormalises(v);
    SortedDeepIsFixed(SortKeysDeep(v));
  }
}
