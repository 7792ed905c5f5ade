/** The engine's canonical text, json.dumps with sorted keys and without spaces, beside the
    platform's, and when two printed values are the same. */
module EngineJson {
  import opened Basics
  import opened Decimal
  import opened Json
  import opened JsonCanonical

  /** Who prints. A number is named by the platform's text for it; num is the text the engine
      prints for the same number. */
  datatype Printer = Platform | Engine(num: string -> string)

  // ---------------------------------------------------------------- strings

  function Hex4(n: nat): string
    requires n < 0x10000
  {
    ['\\', 'u', HexDigit(n / 4096), HexDigit(n / 256 % 16), HexDigit(n / 16 % 16), HexDigit(n % 16)]
  }

  /** ensure_ascii: everything outside the printable ASCII range becomes one \uXXXX per
      UTF-16 code unit. */
  function EscapeAscii(c: char): string {
    var n := c as int;
    if n <= 126 then Escape(c)
    else if n < 0x10000 then Hex4(n)
    else Hex4(0xD800 + (n - 0x10000) / 0x400) + Hex4(0xDC00 + (n - 0x10000) % 0x400)
  }

  function Esc(p: Printer, c: char): string { if p.Platform? then Escape(c) else EscapeAscii(c) }

  function EscAll(p: Printer, s: string): string {
    if s == [] then [] else Esc(p, s[0]) + EscAll(p, s[1..])
  }

  function Quoted(p: Printer, s: string): string { ['\"'] + EscAll(p, s) + ['\"'] }

  // ---------------------------------------------------------------- values

  /** The engine has no undefined value. */
  ghost predicate Defined(v: Value)
    decreases v
  {
    match v
    case Undefined => false
    case Arr(items) => forall i :: 0 <= i < |items| ==> Defined(items[i])
    case Obj(fs) => forall i :: 0 <= i < |fs| ==> Defined(fs[i].value)
    case _ => true
  }

  function NumText(p: Printer, t: string): string { if p.Platform? then t else p.num(t) }

  ghost predicate PrintsNumbers(p: Printer) { forall t :: IsNumText(t) ==> IsNumText(NumText(p, t)) }

  /** The engine prints a number that is not finite as such, the platform as null. */
  function Print(p: Printer, v: Value): string
    decreases v, 0
  {
    match v
    case Null => "null"
    case Undefined => "null"
    case NonFinite => if p.Platform? then "null" else "NaN"
    case Bool(b) => if b then "true" else "false"
    case Num(t) => NumText(p, t)
    case Str(s) => Quoted(p, s)
    case Arr(items) => "[" + PrintItems(p, items, true) + "]"
    case Obj(fs) => "{" + PrintFields(p, fs, true) + "}"
  }

  function PrintItems(p: Printer, items: seq<Value>, first: bool): string
    decreases items, 0
  {
    if items == [] then "" else (if first then "" else ",") + Print(p, items[0]) + PrintItems(p, items[1..], false)
  }

  function PrintFields(p: Printer, fs: seq<Field>, first: bool): string
    decreases fs, 0
  {
    if fs == [] then ""
    else (if first then "" else ",") + Quoted(p, fs[0].key) + ":" + Print(p, fs[0].value) + PrintFields(p, fs[1..], false)
  }

  /** The order of Python's sort on strings: by code point. */
  predicate CodeLess(a: string, b: string) {
    if b == [] then false
    else if a == [] then true
    else if a[0] != b[0] then a[0] < b[0]
    else CodeLess(a[1..], b[1..])
  }

  /** sort_keys, at every depth. */
  function EngineSort(v: Value): Value
    decreases v, 0
  {
    match v
    case Arr(items) => Arr(EngineSortItems(items))
    case Obj(fs) => Obj(Sort(CodeLess, EngineSortValues(fs)))
    case _ => v
  }

  function EngineSortItems(items: seq<Value>): (r: seq<Value>)
    ensures |r| == |items| && forall i :: 0 <= i < |r| ==> r[i] == EngineSort(items[i])
    decreases items, 0
  {
    if items == [] then [] else [EngineSort(items[0])] + EngineSortItems(items[1..])
  }

  function EngineSortValues(fs: seq<Field>): (r: seq<Field>)
    ensures |r| == |fs| && forall i :: 0 <= i < |r| ==> r[i] == Field(fs[i].key, EngineSort(fs[i].value))
    decreases fs, 0
  {
    if fs == [] then [] else [Field(fs[0].key, EngineSort(fs[0].value))] + EngineSortValues(fs[1..])
  }

  /** The text the engine's digest hashes. */
  function EngineText(num: string -> string, v: Value): string { Print(Engine(num), EngineSort(v)) }

  // ---------------------------------------------------------------- the platform's printer is Text

  lemma {:induction false} PlatformString(s: string)
    ensures EscAll(Platform, s) == EscapeAll(s)
  {
    if s != [] {
      PlatformString(s[1..]);
    }
  }

  lemma {:induction false} PlatformIsText(v: Value)
    requires Defined(v)
    ensures Print(Platform, v) == Text(v)
    decreases v, 1
  {
    match v
    case Str(s) => PlatformString(s);
    case Arr(items) => PlatformItems(items, true);
    case Obj(fs) => PlatformFields(fs, true);
    case _ =>
  }

  lemma {:induction false} PlatformItems(items: seq<Value>, first: bool)
    requires forall i :: 0 <= i < |items| ==> Defined(items[i])
    ensures PrintItems(Platform, items, first) == ItemsText(items, first)
    decreases items, 0
  {
    if items != [] {
      PlatformIsText(items[0]);
      PlatformItems(items[1..], false);
    }
  }

  lemma {:induction false} PlatformFields(fs: seq<Field>, first: bool)
    requires forall i :: 0 <= i < |fs| ==> Defined(fs[i].value)
    ensures PrintFields(Platform, fs, first) == FieldsText(fs, first)
    decreases fs, 0
  {
    if fs != [] {
      PlatformString(fs[0].key);
      PlatformIsText(fs[0].value);
      PlatformFields(fs[1..], false);
    }
  }

  // ---------------------------------------------------------------- one character at a time

  lemma HexDigits(a: nat, b: nat)
    requires a < 16 && b < 16 && HexDigit(a) == HexDigit(b)
    ensures a == b
  {
  }

  lemma Nibbles(n: nat)
    requires n < 0x10000
    ensures n == 4096 * (n / 4096) + 256 * (n / 256 % 16) + 16 * (n / 16 % 16) + n % 16
  {
    assert n == 16 * (n / 16) + n % 16;
    assert n / 16 == 16 * (n / 256) + n / 16 % 16;
    assert n / 256 == 16 * (n / 4096) + n / 256 % 16;
  }

  lemma Hex4Splits(n: nat, r: string, m: nat, q: string)
    requires n < 0x10000 && m < 0x10000 && Hex4(n) + r == Hex4(m) + q
    ensures n == m && r == q
  {
    var x, y := Hex4(n) + r, Hex4(m) + q;
    assert x[2] == y[2] && x[3] == y[3] && x[4] == y[4] && x[5] == y[5];
    assert r == x[6..] && q == y[6..];
    Nibbles(n);
    Nibbles(m);
    SameNibbles(n / 4096, n / 256 % 16, n / 16 % 16, n % 16, m / 4096, m / 256 % 16, m / 16 % 16, m % 16);
    hide HexDigit, Hex4;
  }

  lemma SameNibbles(a: nat, b: nat, c: nat, d: nat, e: nat, f: nat, g: nat, h: nat)
    requires a < 16 && b < 16 && c < 16 && d < 16 && e < 16 && f < 16 && g < 16 && h < 16
    requires HexDigit(a) == HexDigit(e) && HexDigit(b) == HexDigit(f) && HexDigit(c) == HexDigit(g) && HexDigit(d) == HexDigit(h)
    ensures a == e && b == f && c == g && d == h
  {
    HexDigits(a, e);
    HexDigits(b, f);
    HexDigits(c, g);
    HexDigits(d, h);
  }

  /** The two \u escapes of a character beyond the basic plane. */
  lemma PairSplits(n: nat, r: string, m: nat, q: string)
    requires 0x10000 <= n < 0x110000 && 0x10000 <= m < 0x110000
    requires Hex4(0xD800 + (n - 0x10000) / 0x400) + Hex4(0xDC00 + (n - 0x10000) % 0x400) + r
      == Hex4(0xD800 + (m - 0x10000) / 0x400) + Hex4(0xDC00 + (m - 0x10000) % 0x400) + q
    ensures n == m && r == q
  {
    var a, b := 0xD800 + (n - 0x10000) / 0x400, 0xDC00 + (n - 0x10000) % 0x400;
    var c, d := 0xD800 + (m - 0x10000) / 0x400, 0xDC00 + (m - 0x10000) % 0x400;
    assert Hex4(a) + Hex4(b) + r == Hex4(a) + (Hex4(b) + r) && Hex4(c) + Hex4(d) + q == Hex4(c) + (Hex4(d) + q);
    Hex4Splits(a, Hex4(b) + r, c, Hex4(d) + q);
    Hex4Splits(b, r, d, q);
  }

  lemma HexBack(n: nat)
    requires n < 16
    ensures HexValue(HexDigit(n)) == Some(n)
  {
  }

  /** Reading one \u escape gives its code unit back, unless that is half a surrogate pair. */
  lemma ParseHex4(n: nat, r: string)
    requires n < 0x10000
    ensures ParseChar(Hex4(n) + r) == if n < 0xD800 || 0xE000 <= n then Some((n as char, r)) else None
  {
    var x := Hex4(n) + r;
    Nibbles(n);
    HexBack(n / 4096);
    HexBack(n / 256 % 16);
    HexBack(n / 16 % 16);
    HexBack(n % 16);
    assert x[2] == HexDigit(n / 4096) && x[3] == HexDigit(n / 256 % 16) && x[4] == HexDigit(n / 16 % 16) && x[5] == HexDigit(n % 16);
    assert x[6..] == r;
    hide HexDigit, HexValue;
  }

  /** The first escape of a character, read back: the character, or nothing for one beyond
      the basic plane. */
  lemma ParseEsc(c: char, r: string)
    ensures ParseChar(EscapeAscii(c) + r) == if c as int < 0x10000 then Some((c, r)) else None
  {
    var n := c as int;
    if n <= 126 {
      ParseEscaped(c, r);
    } else if n < 0x10000 {
      ParseHex4(n, r);
    } else {
      var u, v := 0xD800 + (n - 0x10000) / 0x400, 0xDC00 + (n - 0x10000) % 0x400;
      ParseHex4(u, Hex4(v) + r);
      assert EscapeAscii(c) + r == Hex4(u) + (Hex4(v) + r);
    }
  }

  lemma AsciiSplits(c: char, r: string, d: char, q: string)
    requires EscapeAscii(c) + r == EscapeAscii(d) + q
    ensures c == d && r == q
  {
    ParseEsc(c, r);
    ParseEsc(d, q);
    hide ParseChar, Escape, Hex4;
    if c as int >= 0x10000 {
      PairSplits(c as int, r, d as int, q);
    }
  }

  /** Either printer's escape of one character, against the engine's of another. */
  lemma EscSplits(p: Printer, c: char, r: string, e: Printer, d: char, q: string)
    requires e.Engine? && Esc(p, c) + r == Esc(e, d) + q
    ensures c == d && r == q && (p.Platform? ==> c as int <= 126)
  {
    EngineStartsAscii(c);
    EngineStartsAscii(d);
    assert (Esc(p, c) + r)[0] == Esc(p, c)[0] && (Esc(e, d) + q)[0] == Esc(e, d)[0];
    assert Esc(p, c) == EscapeAscii(c);
    hide EscapeAscii, Escape, Esc;
    AsciiSplits(c, r, d, q);
  }

  lemma EngineStartsAscii(c: char)
    ensures EscapeAscii(c) != "" && EscapeAscii(c)[0] as int <= 126 && EscapeAscii(c)[0] != '\"'
    ensures Escape(c) != "" && Escape(c)[0] != '\"' && (c as int > 126 ==> Escape(c)[0] == c)
    ensures c as int <= 126 ==> Escape(c) == EscapeAscii(c)
  {
  }

  // ---------------------------------------------------------------- whole texts

  lemma Glue(a: string, b: string, c: string, r: string)
    ensures a + b + c + r == a + (b + c + r)
  {
  }

  lemma StartsWith(a: string, b: string)
    requires a != ""
    ensures (a + b)[0] == a[0]
  {
  }

  /** A string's body starts with its closing quote only when it is empty. */
  lemma BodyStarts(p: Printer, s: string, r: string)
    ensures var x := EscAll(p, s) + ['\"'] + r;
      && (x[0] == '\"' <==> s == []) && (s == [] ==> x == ['\"'] + r)
      && (s != [] ==> x == Esc(p, s[0]) + (EscAll(p, s[1..]) + ['\"'] + r))
  {
    if s == [] {
      assert [] + ['\"'] + r == ['\"'] + r;
    } else {
      EngineStartsAscii(s[0]);
      hide Escape, EscapeAscii;
      Glue(Esc(p, s[0]), EscAll(p, s[1..]), ['\"'], r);
      StartsWith(Esc(p, s[0]), EscAll(p, s[1..]) + ['\"'] + r);
    }
  }

  predicate Ascii(s: string) { forall i :: 0 <= i < |s| ==> s[i] as int <= 126 }

  /** A string's text ends where it ends, and the platform's is the engine's only for
      characters up to the tilde. */
  lemma {:induction false} StringSplits(p: Printer, s: string, r: string, e: Printer, t: string, q: string)
    requires e.Engine? && EscAll(p, s) + ['\"'] + r == EscAll(e, t) + ['\"'] + q
    ensures s == t && r == q && (p.Platform? ==> Ascii(s))
    decreases |s|
  {
    hide Esc, EscAll;
    BodyStarts(p, s, r);
    BodyStarts(e, t, q);
    if s == [] {
      assert (['\"'] + r)[1..] == r && (['\"'] + q)[1..] == q;
    } else {
      EscSplits(p, s[0], EscAll(p, s[1..]) + ['\"'] + r, e, t[0], EscAll(e, t[1..]) + ['\"'] + q);
      StringSplits(p, s[1..], r, e, t[1..], q);
      assert s == [s[0]] + s[1..] && t == [t[0]] + t[1..];
    }
  }

  lemma QuotedSplits(p: Printer, s: string, r: string, e: Printer, t: string, q: string)
    requires e.Engine? && Quoted(p, s) + r == Quoted(e, t) + q
    ensures s == t && r == q && (p.Platform? ==> Ascii(s))
  {
    assert (Quoted(p, s) + r)[1..] == EscAll(p, s) + ['\"'] + r && (Quoted(e, t) + q)[1..] == EscAll(e, t) + ['\"'] + q;
    StringSplits(p, s, r, e, t, q);
  }

  /** Two values print the same: equal but for the numbers' names and for null standing in
      for a number that is not finite; strings within ASCII when the platform is one of the
      printers. */
  ghost predicate Same(p: Printer, x: Value, e: Printer, y: Value)
    decreases x
  {
    match x
    case Null => y == Null
    case Undefined => false
    case NonFinite => if p.Platform? then y == Null else y == NonFinite
    case Bool(b) => y == Bool(b)
    case Num(t) => y.Num? && NumText(p, t) == NumText(e, y.text)
    case Str(s) => y == Str(s) && (p.Platform? ==> Ascii(s))
    case Arr(items) => y.Arr? && |y.items| == |items| && forall i :: 0 <= i < |items| ==> Same(p, items[i], e, y.items[i])
    case Obj(fs) => y.Obj? && |y.fields| == |fs| && forall i :: 0 <= i < |fs| ==> SameField(p, fs[i], e, y.fields[i])
  }

  ghost predicate SameField(p: Printer, f: Field, e: Printer, g: Field)
    decreases f
  {
    f.key == g.key && (p.Platform? ==> Ascii(f.key)) && Same(p, f.value, e, g.value)
  }

  predicate Ends(r: string) { r == [] || !IsNumChar(r[0]) }

  /** A printed value's first character tells what kind of value it is. */
  function Kind(c: char): nat {
    if c == 'n' then 0 else if c == 't' then 1 else if c == 'f' then 2 else if c == '\"' then 3
    else if c == '[' then 4 else if c == '{' then 5 else if c == 'N' then 6 else if '0' <= c <= '9' || c == '-' then 7 else 8
  }

  function KindOf(p: Printer, v: Value): nat {
    match v
    case Null => 0
    case Undefined => 0
    case NonFinite => if p.Platform? then 0 else 6
    case Bool(b) => if b then 1 else 2
    case Str(_) => 3
    case Arr(_) => 4
    case Obj(_) => 5
    case Num(_) => 7
  }

  lemma PrintStarts(p: Printer, v: Value, r: string)
    requires Wf(v) && PrintsNumbers(p)
    ensures Print(p, v) != "" && Kind((Print(p, v) + r)[0]) == KindOf(p, v)
  {
    assert (Print(p, v) + r)[0] == Print(p, v)[0];
  }

  lemma {:induction false} NumbersSplit(t: string, r: string, u: string, q: string)
    requires IsNumText(t) && IsNumText(u) && Ends(r) && Ends(q) && t + r == u + q
    ensures t == u && r == q
  {
    NumPrefixSplits(t, r);
    NumPrefixSplits(u, q);
    assert t == (t + r)[..|t|] && r == (t + r)[|t|..] && u == (u + q)[..|u|] && q == (u + q)[|u|..];
  }

  lemma Inner(open: string, body: string, close: string, r: string)
    requires |open| == 1
    ensures (open + body + close + r)[1..] == body + close + r
  {
  }

  /** A printed value ends where it ends, and prints as another does only when they are the
      same. */
  lemma {:induction false} PrintSplits(p: Printer, x: Value, r: string, e: Printer, y: Value, q: string)
    requires e.Engine? && PrintsNumbers(p) && PrintsNumbers(e) && Wf(x) && Wf(y) && Defined(x) && Defined(y)
    requires Ends(r) && Ends(q) && Print(p, x) + r == Print(e, y) + q
    ensures Same(p, x, e, y) && r == q
    decreases x, 1
  {
    PrintStarts(p, x, r);
    PrintStarts(e, y, q);
    hide PrintItems, PrintFields, IsNumChar, Quoted, Kind;
    match x
    case Arr(items) =>
      Inner("[", PrintItems(p, items, true), "]", r);
      Inner("[", PrintItems(e, y.items, true), "]", q);
      ItemsSplit(p, items, r, e, y.items, q, true);
    case Obj(fs) =>
      Inner("{", PrintFields(p, fs, true), "}", r);
      Inner("{", PrintFields(e, y.fields, true), "}", q);
      FieldsSplit(p, fs, r, e, y.fields, q, true);
    case _ => ScalarsSplit(p, x, r, e, y, q);
  }

  lemma ScalarsSplit(p: Printer, x: Value, r: string, e: Printer, y: Value, q: string)
    requires e.Engine? && PrintsNumbers(p) && PrintsNumbers(e) && Wf(x) && Wf(y) && Defined(x) && Defined(y) && !x.Arr? && !x.Obj?
    requires Ends(r) && Ends(q) && Print(p, x) + r == Print(e, y) + q && KindOf(p, x) == KindOf(e, y)
    ensures Same(p, x, e, y) && r == q
  {
    var n, m := |Print(p, x)|, |Print(e, y)|;
    assert r == (Print(p, x) + r)[n..] && q == (Print(e, y) + q)[m..];
    match x
    case Str(s) => QuotedSplits(p, s, r, e, y.s, q);
    case Num(t) => NumbersSplit(NumText(p, t), r, NumText(e, y.text), q);
    case _ =>
  }

  lemma {:induction false} ItemsSplit(p: Printer, xs: seq<Value>, r: string, e: Printer, ys: seq<Value>, q: string, first: bool)
    requires e.Engine? && PrintsNumbers(p) && PrintsNumbers(e)
    requires (forall i :: 0 <= i < |xs| ==> Wf(xs[i]) && Defined(xs[i])) && forall i :: 0 <= i < |ys| ==> Wf(ys[i]) && Defined(ys[i])
    requires PrintItems(p, xs, first) + "]" + r == PrintItems(e, ys, first) + "]" + q
    ensures |xs| == |ys| && r == q && forall i :: 0 <= i < |xs| ==> Same(p, xs[i], e, ys[i])
    decreases xs, 0
  {
    ItemsStart(p, xs, r, first);
    ItemsStart(e, ys, q, first);
    if xs == [] {
      assert ("]" + r)[1..] == r && ("]" + q)[1..] == q;
    } else {
      var a, b := PrintItems(p, xs[1..], false) + "]" + r, PrintItems(e, ys[1..], false) + "]" + q;
      ItemsStart(p, xs[1..], r, false);
      ItemsStart(e, ys[1..], q, false);
      SkipComma(first, Print(p, xs[0]) + a, Print(e, ys[0]) + b);
      PrintSplits(p, xs[0], a, e, ys[0], b);
      ItemsSplit(p, xs[1..], r, e, ys[1..], q, false);
    }
  }

  lemma SkipComma(first: bool, a: string, b: string)
    requires Comma(first) + a == Comma(first) + b
    ensures a == b
  {
    assert first ==> "" + a == a && "" + b == b;
    assert !first ==> ("," + a)[1..] == a && ("," + b)[1..] == b;
  }

  function Comma(first: bool): string { if first then "" else "," }

  lemma GlueItem(first: bool, a: string, b: string, close: string, r: string)
    requires a != "" && |close| == 1
    ensures Comma(first) + a + b + close + r == Comma(first) + (a + (b + close + r))
    ensures (Comma(first) + (a + (b + close + r)))[0] == if first then a[0] else ','
  {
    assert "" + (a + (b + close + r)) == a + (b + close + r);
  }

  lemma NotBracket(p: Printer, v: Value)
    requires Wf(v) && PrintsNumbers(p)
    ensures Print(p, v) != "" && Print(p, v)[0] != ']'
  {
    PrintStarts(p, v, "");
    assert Print(p, v) + "" == Print(p, v);
  }

  /** The rest of an array starts with its bracket exactly when no item is left. */
  lemma ItemsStart(p: Printer, xs: seq<Value>, r: string, first: bool)
    requires PrintsNumbers(p) && forall i :: 0 <= i < |xs| ==> Wf(xs[i])
    ensures var t := PrintItems(p, xs, first) + "]" + r;
      && (t[0] == ']' <==> xs == []) && (!first ==> Ends(t)) && (xs == [] ==> t == "]" + r)
      && (xs != [] ==> t == Comma(first) + (Print(p, xs[0]) + (PrintItems(p, xs[1..], false) + "]" + r)))
  {
    if xs == [] {
      assert "" + "]" + r == "]" + r;
    } else {
      NotBracket(p, xs[0]);
      assert PrintItems(p, xs, first) == Comma(first) + Print(p, xs[0]) + PrintItems(p, xs[1..], false);
      hide Print, PrintItems, Wf, PrintsNumbers;
      GlueItem(first, Print(p, xs[0]), PrintItems(p, xs[1..], false), "]", r);
    }
  }

  lemma {:induction false} FieldsSplit(p: Printer, fs: seq<Field>, r: string, e: Printer, gs: seq<Field>, q: string, first: bool)
    requires e.Engine? && PrintsNumbers(p) && PrintsNumbers(e)
    requires forall i :: 0 <= i < |fs| ==> Wf(fs[i].value) && Defined(fs[i].value)
    requires forall i :: 0 <= i < |gs| ==> Wf(gs[i].value) && Defined(gs[i].value)
    requires PrintFields(p, fs, first) + "}" + r == PrintFields(e, gs, first) + "}" + q
    ensures |fs| == |gs| && r == q && forall i :: 0 <= i < |fs| ==> SameField(p, fs[i], e, gs[i])
    decreases fs, 0
  {
    FieldsStart(p, fs, r, first);
    FieldsStart(e, gs, q, first);
    if fs == [] {
      assert ("}" + r)[1..] == r && ("}" + q)[1..] == q;
    } else {
      var a, b := PrintFields(p, fs[1..], false) + "}" + r, PrintFields(e, gs[1..], false) + "}" + q;
      var v, w := Print(p, fs[0].value) + a, Print(e, gs[0].value) + b;
      FieldsStart(p, fs[1..], r, false);
      FieldsStart(e, gs[1..], q, false);
      hide Quoted, Print, PrintFields, IsNumChar, Wf, Defined;
      SkipComma(first, Quoted(p, fs[0].key) + (":" + v), Quoted(e, gs[0].key) + (":" + w));
      QuotedSplits(p, fs[0].key, ":" + v, e, gs[0].key, ":" + w);
      assert (":" + v)[1..] == v && (":" + w)[1..] == w;
      PrintSplits(p, fs[0].value, a, e, gs[0].value, b);
      FieldsSplit(p, fs[1..], r, e, gs[1..], q, false);
    }
  }

  lemma GlueField(first: bool, k: string, v: string, b: string, r: string)
    requires k != ""
    ensures Comma(first) + k + ":" + v + b + "}" + r == Comma(first) + (k + (":" + (v + (b + "}" + r))))
    ensures (Comma(first) + (k + (":" + (v + (b + "}" + r)))))[0] == if first then k[0] else ','
  {
    var body := k + (":" + (v + (b + "}" + r)));
    assert "" + body == body;
    assert Comma(first) + k + ":" + v + b + "}" + r == Comma(first) + body;
  }

  lemma FieldsStart(p: Printer, fs: seq<Field>, r: string, first: bool)
    ensures var t := PrintFields(p, fs, first) + "}" + r;
      && (t[0] == '}' <==> fs == []) && (!first ==> Ends(t)) && (fs == [] ==> t == "}" + r)
      && (fs != [] ==>
        t == Comma(first) + (Quoted(p, fs[0].key) + (":" + (Print(p, fs[0].value) + (PrintFields(p, fs[1..], false) + "}" + r)))))
  {
    if fs == [] {
      assert "" + "}" + r == "}" + r;
    } else {
      assert Quoted(p, fs[0].key) != "" && Quoted(p, fs[0].key)[0] == '\"';
      hide Quoted, Print;
      GlueField(first, Quoted(p, fs[0].key), Print(p, fs[0].value), PrintFields(p, fs[1..], false), r);
    }
  }
}
