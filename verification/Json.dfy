/** Plain JSON values and the canonical text under the audit chain:
    sortKeysDeep followed by JSON.stringify, and JSON.parse as its inverse. */
module Json {
  import opened Basics
  import opened Decimal

  /** A value as JavaScript holds it. An object is the list of its own properties in
      enumeration order. A finite number is named by the text JavaScript prints for it;
      NaN and the infinities are NonFinite. */
  datatype Value =
    | Null
    | Undefined
    | NonFinite
    | Bool(b: bool)
    | Num(text: string)
    | Str(s: string)
    | Arr(items: seq<Value>)
    | Obj(fields: seq<Field>)

  datatype Field = Field(key: string, value: Value)

  /** What a value says once key order and unprintable parts are forgotten. */
  datatype Data =
    | DNull
    | DBool(b: bool)
    | DNum(text: string)
    | DStr(s: string)
    | DArr(items: seq<Data>)
    | DObj(fields: map<string, Data>)

  // ---------------------------------------------------------------- well-formedness

  predicate IsNumChar(c: char) {
    '0' <= c <= '9' || c == '-' || c == '+' || c == '.' || c == 'e'
  }

  predicate IsNumText(t: string) {
    |t| > 0 && ('0' <= t[0] <= '9' || t[0] == '-') && forall i :: 0 <= i < |t| ==> IsNumChar(t[i])
  }

  ghost predicate DistinctKeys(fs: seq<Field>) {
    forall i, j :: 0 <= i < j < |fs| ==> fs[i].key != fs[j].key
  }

  /** Every object has distinct keys and every number has a number's text, at any depth. */
  ghost predicate Wf(v: Value)
    decreases v
  {
    match v
    case Num(t) => IsNumText(t)
    case Arr(items) => forall i :: 0 <= i < |items| ==> Wf(items[i])
    case Obj(fs) => DistinctKeys(fs) && forall i :: 0 <= i < |fs| ==> Wf(fs[i].value)
    case _ => true
  }

  ghost predicate WfFields(fs: seq<Field>) {
    DistinctKeys(fs) && forall i :: 0 <= i < |fs| ==> Wf(fs[i].value)
  }

  ghost predicate WfItems(items: seq<Value>) {
    forall i :: 0 <= i < |items| ==> Wf(items[i])
  }

  // ---------------------------------------------------------------- meaning

  ghost function Meaning(v: Value): Data
    decreases v, 0
  {
    match v
    case Null => DNull
    case Undefined => DNull
    case NonFinite => DNull
    case Bool(b) => DBool(b)
    case Num(t) => DNum(t)
    case Str(s) => DStr(s)
    case Arr(items) => DArr(ItemsMeaning(items))
    case Obj(fs) => DObj(FieldsMeaning(fs))
  }

  ghost function ItemsMeaning(items: seq<Value>): seq<Data>
    decreases items, 0
  {
    if items == [] then [] else [Meaning(items[0])] + ItemsMeaning(items[1..])
  }

  ghost function FieldsMeaning(fs: seq<Field>): map<string, Data>
    decreases fs, 0
  {
    if fs == [] then map[]
    else if fs[0].value.Undefined? then FieldsMeaning(fs[1..])
    else FieldsMeaning(fs[1..])[fs[0].key := Meaning(fs[0].value)]
  }

  // ---------------------------------------------------------------- sortKeysDeep

  /** Position of a character among UTF-16 code units: a character outside the basic
      plane starts with a surrogate, which sorts between U+D7FF and U+E000. */
  function CodeUnitRank(c: char): int {
    var n := c as int;
    if n < 0xD800 then n else if n >= 0x10000 then n - 0x2800 else n + 0x100000
  }

  /** The order of Array.prototype.sort on strings. */
  predicate LexLess(a: string, b: string) {
    if b == [] then false
    else if a == [] then true
    else if CodeUnitRank(a[0]) != CodeUnitRank(b[0]) then CodeUnitRank(a[0]) < CodeUnitRank(b[0])
    else LexLess(a[1..], b[1..])
  }

  /** An array index: the decimal text, without leading zeros, of a number below 2^32 - 1. */
  predicate IsIndexKey(k: string) {
    && 0 < |k|
    && AllDigits(k)
    && (k[0] == '0' ==> |k| == 1)
    && Number(k) < 0xFFFF_FFFF
  }

  predicate IndexLess(a: string, b: string) {
    AllDigits(a) && AllDigits(b) && Number(a) < Number(b)
  }

  function Insert(less: (string, string) -> bool, f: Field, fs: seq<Field>): seq<Field> {
    if fs == [] || less(f.key, fs[0].key) then [f] + fs else [fs[0]] + Insert(less, f, fs[1..])
  }

  function Sort(less: (string, string) -> bool, fs: seq<Field>): seq<Field> {
    if fs == [] then [] else Insert(less, fs[0], Sort(less, fs[1..]))
  }

  function IndexFields(fs: seq<Field>): seq<Field> {
    if fs == [] then [] else (if IsIndexKey(fs[0].key) then [fs[0]] else []) + IndexFields(fs[1..])
  }

  function NameFields(fs: seq<Field>): seq<Field> {
    if fs == [] then [] else (if IsIndexKey(fs[0].key) then [] else [fs[0]]) + NameFields(fs[1..])
  }

  /** Object.fromEntries: own properties enumerate array indices first, in numeric order,
      then the other keys in the order they were added. */
  function FromEntries(entries: seq<Field>): seq<Field> {
    Sort(IndexLess, IndexFields(entries)) + NameFields(entries)
  }

  function SortKeysDeep(v: Value): Value
    decreases v, 0
  {
    match v
    case Arr(items) => Arr(SortItems(items))
    case Obj(fs) => Obj(FromEntries(Sort(LexLess, SortValues(fs))))
    case _ => v
  }

  function SortItems(items: seq<Value>): seq<Value>
    decreases items, 0
  {
    if items == [] then [] else [SortKeysDeep(items[0])] + SortItems(items[1..])
  }

  function SortValues(fs: seq<Field>): seq<Field>
    decreases fs, 0
  {
    if fs == [] then [] else [Field(fs[0].key, SortKeysDeep(fs[0].value))] + SortValues(fs[1..])
  }

  // ---------------------------------------------------------------- JSON.stringify

  function HexDigit(n: nat): char
    requires n < 16
  {
    if n < 10 then ('0' as int + n) as char else ('a' as int + n - 10) as char
  }

  function Escape(c: char): string {
    if c == '\"' then ['\\', '\"']
    else if c == '\\' then ['\\', '\\']
    else if c as int == 8 then ['\\', 'b']
    else if c as int == 9 then ['\\', 't']
    else if c as int == 10 then ['\\', 'n']
    else if c as int == 12 then ['\\', 'f']
    else if c as int == 13 then ['\\', 'r']
    else if (c as int) < 32 then ['\\', 'u', '0', '0', HexDigit(c as int / 16), HexDigit(c as int % 16)]
    else [c]
  }

  function EscapeAll(s: string): string {
    if s == [] then [] else Escape(s[0]) + EscapeAll(s[1..])
  }

  function Quote(s: string): string {
    ['\"'] + EscapeAll(s) + ['\"']
  }

  /** JSON.stringify. An undefined property is skipped; an undefined item prints as null. */
  function Text(v: Value): string
    decreases v, 0
  {
    match v
    case Null => "null"
    case Undefined => "null"
    case NonFinite => "null"
    case Bool(b) => if b then "true" else "false"
    case Num(t) => t
    case Str(s) => Quote(s)
    case Arr(items) => "[" + ItemsText(items, true) + "]"
    case Obj(fs) => "{" + FieldsText(fs, true) + "}"
  }

  function ItemsText(items: seq<Value>, first: bool): string
    decreases items, 0
  {
    if items == [] then ""
    else (if first then "" else ",") + Text(items[0]) + ItemsText(items[1..], false)
  }

  function FieldsText(fs: seq<Field>, first: bool): string
    decreases fs, 0
  {
    if fs == [] then ""
    else if fs[0].value.Undefined? then FieldsText(fs[1..], first)
    else (if first then "" else ",") + Quote(fs[0].key) + ":" + Text(fs[0].value) + FieldsText(fs[1..], false)
  }

  /** The text that is hashed: JSON.stringify(sortKeysDeep(v)). */
  function CanonicalText(v: Value): string {
    Text(SortKeysDeep(v))
  }

  // ---------------------------------------------------------------- JSON.parse

  function HexValue(c: char): Option<nat> {
    if '0' <= c <= '9' then Some(c as int - '0' as int)
    else if 'a' <= c <= 'f' then Some(c as int - 'a' as int + 10)
    else if 'A' <= c <= 'F' then Some(c as int - 'A' as int + 10)
    else None
  }

  /** One character of a string body, with what follows it; None at a closing quote. */
  function ParseChar(s: string): (r: Option<(char, string)>)
    ensures r.Some? ==> |r.value.1| < |s|
  {
    if s == [] || s[0] == '\"' || (s[0] as int) < 32 then None
    else if s[0] != '\\' then Some((s[0], s[1..]))
    else if |s| == 1 then None
    else if s[1] == '\"' || s[1] == '\\' || s[1] == '/' then Some((s[1], s[2..]))
    else if s[1] == 'b' then Some((8 as char, s[2..]))
    else if s[1] == 't' then Some((9 as char, s[2..]))
    else if s[1] == 'n' then Some((10 as char, s[2..]))
    else if s[1] == 'f' then Some((12 as char, s[2..]))
    else if s[1] == 'r' then Some((13 as char, s[2..]))
    else if s[1] != 'u' || |s| < 6 then None
    else
      match (HexValue(s[2]), HexValue(s[3]), HexValue(s[4]), HexValue(s[5]))
      case (Some(a), Some(b), Some(c), Some(d)) =>
        var n := a * 4096 + b * 256 + c * 16 + d;
        if n < 0xD800 || 0xE000 <= n < 0x10000 then Some((n as char, s[6..])) else None
      case _ => None
  }

  /** The body of a string up to and including its closing quote. */
  function ParseString(s: string): (r: Option<(string, string)>)
    ensures r.Some? ==> |r.value.1| < |s|
    decreases |s|
  {
    if s == [] then None
    else if s[0] == '\"' then Some(("", s[1..]))
    else
      match ParseChar(s)
      case None => None
      case Some(p) =>
        match ParseString(p.1)
        case None => None
        case Some(q) => Some(([p.0] + q.0, q.1))
  }

  function NumPrefix(s: string): (n: nat)
    ensures n <= |s|
  {
    if s == [] || !IsNumChar(s[0]) then 0 else 1 + NumPrefix(s[1..])
  }

  /** JSON.parse on text without white space: the value and the text after it. */
  ghost function ParseValue(s: string): (r: Option<(Data, string)>)
    ensures r.Some? ==> |r.value.1| < |s|
    decreases |s|, 1
  {
    if s == [] then None
    else if s[0] == '[' then
      if |s| > 1 && s[1] == ']' then Some((DArr([]), s[2..]))
      else
        match ParseItems([','] + s[1..])
        case None => None
        case Some(p) => Some((DArr(p.0), p.1))
    else if s[0] == '{' then
      if |s| > 1 && s[1] == '}' then Some((DObj(map[]), s[2..]))
      else
        match ParseFields([','] + s[1..])
        case None => None
        case Some(p) => Some((DObj(p.0), p.1))
    else ParseScalar(s)
  }

  /** A value that is neither an array nor an object. */
  ghost function ParseScalar(s: string): (r: Option<(Data, string)>)
    requires s != []
    ensures r.Some? ==> |r.value.1| < |s|
  {
    if s[0] == '\"' then
      match ParseString(s[1..])
      case None => None
      case Some(p) => Some((DStr(p.0), p.1))
    else if "null" <= s then Some((DNull, s[4..]))
    else if "true" <= s then Some((DBool(true), s[4..]))
    else if "false" <= s then Some((DBool(false), s[5..]))
    else if NumPrefix(s) > 0 then Some((DNum(s[..NumPrefix(s)]), s[NumPrefix(s)..]))
    else None
  }

  /** The rest of an array: a closing bracket, or a comma and another item. */
  ghost function ParseItems(s: string): (r: Option<(seq<Data>, string)>)
    ensures r.Some? ==> |r.value.1| < |s|
    decreases |s|, 0
  {
    if s == [] then None
    else if s[0] == ']' then Some(([], s[1..]))
    else if s[0] != ',' then None
    else
      match ParseValue(s[1..])
      case None => None
      case Some(p) =>
        match ParseItems(p.1)
        case None => None
        case Some(q) => Some(([p.0] + q.0, q.1))
  }

  /** The rest of an object. A repeated key keeps its last value. */
  ghost function ParseFields(s: string): (r: Option<(map<string, Data>, string)>)
    ensures r.Some? ==> |r.value.1| < |s|
    decreases |s|, 0
  {
    if s == [] then None
    else if s[0] == '}' then Some((map[], s[1..]))
    else if |s| < 2 || s[0] != ',' || s[1] != '\"' then None
    else
      match ParseString(s[2..])
      case None => None
      case Some(k) =>
        if k.1 == [] || k.1[0] != ':' then None
        else
          match ParseValue(k.1[1..])
          case None => None
          case Some(p) =>
            match ParseFields(p.1)
            case None => None
            case Some(q) => Some((if k.0 in q.0 then q.0 else q.0[k.0 := p.0], q.1))
  }
}
