/** When the canonical form's key order is plain sorted order, which JavaScript sorts by
    UTF-16 code unit. */
module JsonOrder {
  import opened Decimal
  import opened Json
  import opened JsonCanonical

  ghost function Keys(fs: seq<Field>): set<string> { set i | 0 <= i < |fs| :: fs[i].key }

  /** No array index among the keys comes elsewhere in numeric order, or ahead of the names,
      than it does in text order. */
  ghost predicate IndicesAgree(keys: set<string>) {
    forall a, b :: a in keys && b in keys && IsIndexKey(a) ==> IndexAgrees(a, b)
  }

  predicate IndexAgrees(a: string, b: string)
    requires IsIndexKey(a)
  {
    if IsIndexKey(b) then IndexLess(a, b) ==> LexLess(a, b) else LexLess(a, b)
  }

  lemma NotBoth(a: string, b: string)
    ensures !(CanonLess(a, b) && CanonLess(b, a))
  {
    CanonIsStrictOrder();
    assert a in AllKeys() && b in AllKeys();
  }

  lemma InCanonicalOrder(fs: seq<Field>, i: nat, j: nat)
    requires Sorted(CanonLess, fs) && i < |fs| && j < |fs| && CanonLess(fs[i].key, fs[j].key)
    ensures i < j
  {
    NotBoth(fs[i].key, fs[j].key);
    hide CanonLess;
  }

  lemma CanonicalIsLex(fs: seq<Field>)
    requires Sorted(CanonLess, fs)
    ensures Sorted(LexLess, fs) <==> IndicesAgree(Keys(fs))
  {
    hide IsIndexKey, IndexLess, LexLess;
    if IndicesAgree(Keys(fs)) {
      forall i, j | 0 <= i < j < |fs| ensures LexLess(fs[i].key, fs[j].key) {
        assert CanonLess(fs[i].key, fs[j].key) && fs[i].key in Keys(fs) && fs[j].key in Keys(fs);
        assert IsIndexKey(fs[i].key) ==> IndexAgrees(fs[i].key, fs[j].key);
      }
    }
    if Sorted(LexLess, fs) {
      forall a, b | a in Keys(fs) && b in Keys(fs) && IsIndexKey(a) ensures IndexAgrees(a, b) {
        var i :| 0 <= i < |fs| && fs[i].key == a;
        var j :| 0 <= j < |fs| && fs[j].key == b;
        if CanonLess(a, b) {
          InCanonicalOrder(fs, i, j);
        }
      }
    }
  }

  lemma SameFieldsSameKeys(fs: seq<Field>, gs: seq<Field>)
    requires SameFields(fs, gs)
    ensures Keys(fs) == Keys(gs)
  {
    forall k ensures k in Keys(fs) <==> k in Keys(gs) {
      if i :| 0 <= i < |fs| && fs[i].key == k {
        assert fs[i] in gs;
      }
      if i :| 0 <= i < |gs| && gs[i].key == k {
        assert gs[i] in fs;
      }
    }
  }

  /** The canonical object enumerates its keys in plain sorted order exactly when its array
      indices agree with that order. */
  lemma PlainOrderIff(fs: seq<Field>)
    requires DistinctKeys(fs)
    ensures FromEntries(Sort(LexLess, fs)) == Sort(LexLess, fs) <==> IndicesAgree(Keys(fs))
  {
    var r, s := FromEntries(Sort(LexLess, fs)), Sort(LexLess, fs);
    FromSortedEntries(fs);
    LexIsStrictOrder();
    SortSorts(LexLess, AllKeys(), fs);
    hide Sort, FromEntries, IndexFields, NameFields, Sorted, IsIndexKey;
    CanonicalIsLex(r);
    SameFieldsSameKeys(r, fs);
    if Sorted(LexLess, r) {
      SortedUnique(LexLess, AllKeys(), r, s);
    }
  }

  /** An object with the keys "9" and "10" is one whose order differs. */
  lemma NineBeforeTen(v: Value, w: Value)
    ensures var fs := [Field("9", v), Field("10", w)];
      DistinctKeys(fs) && !IndicesAgree(Keys(fs)) && FromEntries(Sort(LexLess, fs)) != Sort(LexLess, fs)
  {
    var fs := [Field("9", v), Field("10", w)];
    assert fs[0].key in Keys(fs) && fs[1].key in Keys(fs);
    assert Number("9") == 9;
    assert "10"[..1] == "1" && Number("1") == 1 && Number("10") == 10;
    assert IsIndexKey("9") && IsIndexKey("10") && IndexLess("9", "10") && !LexLess("9", "10");
    assert DistinctKeys(fs);
    PlainOrderIff(fs);
  }

  // ---------------------------------------------------------------- UTF-16

  /** A character's code units: one, or a surrogate pair. */
  function Units(c: char): seq<nat> {
    var n := c as int;
    if n < 0x10000 then [n] else [0xD800 + (n - 0x10000) / 0x400, 0xDC00 + (n - 0x10000) % 0x400]
  }

  function Utf16(s: string): seq<nat> { if s == [] then [] else Units(s[0]) + Utf16(s[1..]) }

  /** The dictionary order of numbers. */
  predicate Below(x: seq<nat>, y: seq<nat>) {
    if y == [] then false
    else if x == [] then true
    else if x[0] != y[0] then x[0] < y[0]
    else Below(x[1..], y[1..])
  }

  /** The first characters that differ decide, by their code units. */
  lemma DifferentUnits(c: char, d: char, x: seq<nat>, y: seq<nat>)
    requires c != d
    ensures Below(Units(c) + x, Units(d) + y) <==> CodeUnitRank(c) < CodeUnitRank(d)
    ensures CodeUnitRank(c) != CodeUnitRank(d)
  {
    var m, n := c as int, d as int;
    var u, v := Units(c) + x, Units(d) + y;
    assert u[0] == Units(c)[0] && v[0] == Units(d)[0];
    if m >= 0x10000 && n >= 0x10000 && (m - 0x10000) / 0x400 == (n - 0x10000) / 0x400 {
      assert u[1..][0] == Units(c)[1] && v[1..][0] == Units(d)[1];
    }
  }

  lemma SameUnits(p: seq<nat>, x: seq<nat>, y: seq<nat>)
    requires 1 <= |p| <= 2
    ensures Below(p + x, p + y) <==> Below(x, y)
  {
    assert (p + x)[1..] == p[1..] + x && (p + y)[1..] == p[1..] + y;
    if |p| == 2 {
      assert (p[1..] + x)[1..] == x && (p[1..] + y)[1..] == y;
    } else {
      assert p[1..] + x == x && p[1..] + y == y;
    }
  }

  /** The order by which keys are sorted is the order of their UTF-16 code units. */
  lemma {:induction false} SortOrderIsUtf16(a: string, b: string)
    ensures LexLess(a, b) <==> Below(Utf16(a), Utf16(b))
  {
    if a != [] && b != [] {
      if a[0] == b[0] {
        SortOrderIsUtf16(a[1..], b[1..]);
        SameUnits(Units(a[0]), Utf16(a[1..]), Utf16(b[1..]));
      } else {
        DifferentUnits(a[0], b[0], Utf16(a[1..]), Utf16(b[1..]));
      }
    }
  }
}
