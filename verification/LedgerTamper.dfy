/** Tampering with the engine's ledger, down to the text its digest hashes: the head before,
    then the event as JSON with sorted keys, its stored link included. */
module LedgerTamper {
  import opened Basics
  import opened Json
  import opened JsonCanonical
  import opened EngineJson
  import opened JsonSchemes
  import opened Hashing
  import opened Ledger

  type Body = seq<Field>

  /** A number of the engine is named by the engine's own text for it. */
  function OwnText(t: string): string { t }

  /** The event as the digest sees it. */
  function Event(body: Body, link: string): Value { Obj(body + [Field("previous_hash", Str(link))]) }

  ghost predicate BodyOk(body: Body) { forall link :: Wf(Event(body, link)) && Defined(Event(body, link)) }

  function Preimage(body: Body, link: string, previous: string): string { previous + EngineText(OwnText, Event(body, link)) }

  function EngineDigest(h: Hash): Digest<Body> {
    (body: Body, link: string, previous: string) => h(Preimage(body, link, previous))
  }

  // ---------------------------------------------------------------- two texts, spelled out

  /** Beyond printable ASCII every UTF-16 code unit becomes one escape of four lower-case
      hexadecimal digits. */
  lemma EscapesSpelledOut()
    ensures EscapeAscii(0xE9 as char) == "\\u00e9" && EscapeAscii(0x7F as char) == "\\u007f" && EscapeAscii('~') == "~"
    ensures EscapeAscii(0x1F600 as char) == "\\ud83d\\ude00" && EscapeAscii('\n') == "\\n" && EscapeAscii('\"') == "\\\""
  {
    PairSpelledOut();
  }

  lemma PairSpelledOut()
    ensures EscapeAscii(0x1F600 as char) == "\\ud83d\\ude00"
  {
    assert Hex4(0xD83D) == "\\ud83d" && Hex4(0xDE00) == "\\ude00";
  }

  /** The hash before, then the event with its link among its own names, in their order. */
  lemma HashedEntry(h: Hash, ok: bool, link: string, previous: string)
    requires IsHex(link)
    ensures EngineDigest(h)([Field("result", Bool(ok))], link, previous)
      == h(previous
        + ("{" + ("\"previous_hash\"" + ":" + ("\"" + link + "\"") + ("," + "\"result\"" + ":" + (if ok then "true" else "false"))) + "}"))
  {
    assert EngineDigest(h)([Field("result", Bool(ok))], link, previous) == h(Preimage([Field("result", Bool(ok))], link, previous));
    TwoSorted(Field("result", Bool(ok)), Field("previous_hash", Str(link)));
    EntryText(ok, link);
    hide EngineSort, Print;
    assert Event([Field("result", Bool(ok))], link) == Obj([Field("result", Bool(ok))] + [Field("previous_hash", Str(link))]);
  }

  lemma TwoSorted(f: Field, g: Field)
    requires f.key == "result" && g.key == "previous_hash" && !f.value.Arr? && !f.value.Obj? && !g.value.Arr? && !g.value.Obj?
    ensures EngineSort(Obj([f] + [g])) == Obj([g, f])
  {
    assert [f] + [g] == [f, g] && [f, g][1..] == [g] && [g][1..] == [];
    assert EngineSortValues([g]) == [g];
    assert EngineSortValues([f, g]) == [f, g];
    assert CodeLess(g.key, f.key) && !CodeLess(f.key, g.key);
    assert Insert(CodeLess, g, []) == [g] && Insert(CodeLess, f, []) == [f];
    assert Sort(CodeLess, [g]) == [g];
    assert Insert(CodeLess, f, [g]) == [g, f];
  }

  lemma EntryText(ok: bool, link: string)
    requires IsHex(link)
    ensures Print(Engine(OwnText), Obj([Field("previous_hash", Str(link)), Field("result", Bool(ok))]))
      == "{" + ("\"previous_hash\"" + ":" + ("\"" + link + "\"") + ("," + "\"result\"" + ":" + (if ok then "true" else "false"))) + "}"
  {
    var p, f, g := Engine(OwnText), Field("result", Bool(ok)), Field("previous_hash", Str(link));
    assert [g, f][1..] == [f] && [f][1..] == [];
    PlainKeys();
    HexPlain(link);
    KeyTexts();
    assert Quoted(p, link) == "\"" + link + "\"";
    hide EscAll, Quoted;
    assert PrintFields(p, [], false) == "";
    var last := "," + "\"result\"" + ":" + (if ok then "true" else "false");
    assert PrintFields(p, [f], false) == last + "" == last;
    var first := "\"previous_hash\"" + ":" + ("\"" + link + "\"");
    assert "" + "\"previous_hash\"" == "\"previous_hash\"";
    assert PrintFields(p, [g, f], true) == first + last;
    assert first + last == "\"previous_hash\"" + ":" + ("\"" + link + "\"") + last;
  }

  lemma KeyTexts()
    ensures Quoted(Engine(OwnText), "previous_hash") == "\"previous_hash\"" && Quoted(Engine(OwnText), "result") == "\"result\""
  {
    PlainKeys();
    hide EscAll;
  }

  lemma PlainKeys()
    ensures EscAll(Engine(OwnText), "previous_hash") == "previous_hash" && EscAll(Engine(OwnText), "result") == "result"
  {
    PlainText("previous_hash");
    PlainText("result");
  }

  lemma PlainChar(c: char)
    requires ' ' <= c <= '~' && c != '\"' && c != '\\'
    ensures Esc(Engine(OwnText), c) == [c]
  {
  }

  lemma {:induction false} PlainText(s: string)
    requires forall i :: 0 <= i < |s| ==> ' ' <= s[i] <= '~' && s[i] != '\"' && s[i] != '\\'
    ensures EscAll(Engine(OwnText), s) == s
  {
    if s != [] {
      PlainText(s[1..]);
      PlainChar(s[0]);
      assert s == [s[0]] + s[1..];
      hide Esc;
    }
  }

  lemma HexPlain(s: string)
    requires IsHex(s)
    ensures EscAll(Engine(OwnText), s) == s
  {
    PlainText(s);
  }

  // ---------------------------------------------------------------- the text names the value

  /** Printed the same by the engine and named by its own numbers, two values are one. */
  lemma {:induction false} SameIsEqual(x: Value, y: Value)
    requires Same(Engine(OwnText), x, Engine(OwnText), y)
    ensures x == y
    decreases x
  {
    match x
    case Arr(items) =>
      forall i | 0 <= i < |items| ensures items[i] == y.items[i] {
        SameIsEqual(items[i], y.items[i]);
      }
    case Obj(fs) =>
      forall i | 0 <= i < |fs| ensures fs[i] == y.fields[i] {
        assert SameField(Engine(OwnText), fs[i], Engine(OwnText), y.fields[i]);
        SameIsEqual(fs[i].value, y.fields[i].value);
      }
    case _ =>
  }

  /** The engine's text is the same for two values exactly when they are equal up to the
      order of keys at every depth. */
  lemma EngineTextIff(v: Value, w: Value)
    requires Wf(v) && Defined(v) && Wf(w) && Defined(w)
    ensures EngineText(OwnText, v) == EngineText(OwnText, w) <==> EngineSort(v) == EngineSort(w)
  {
    EngineSortOk(v);
    EngineSortOk(w);
    var p, x, y := Engine(OwnText), EngineSort(v), EngineSort(w);
    hide EngineSort, Print;
    if Print(p, x) == Print(p, y) {
      assert Print(p, x) + [] == Print(p, y) + [];
      PrintSplits(p, x, [], p, y, []);
      SameIsEqual(x, y);
    }
  }

  lemma ObjectStarts(v: Value)
    requires v.Obj?
    ensures EngineText(OwnText, v) != "" && EngineText(OwnText, v)[0] == '{'
  {
  }

  /** The hashed text identifies the head before and the event, up to key order. */
  lemma PreimageIff(a: Body, k: string, p: string, b: Body, l: string, q: string)
    requires BodyOk(a) && BodyOk(b) && (p == "" || IsHex(p)) && (q == "" || IsHex(q))
    ensures Preimage(a, k, p) == Preimage(b, l, q) <==> p == q && EngineSort(Event(a, k)) == EngineSort(Event(b, l))
  {
    var v, w := Event(a, k), Event(b, l);
    assert Wf(v) && Defined(v) && Wf(w) && Defined(w);
    ObjectStarts(v);
    ObjectStarts(w);
    EngineTextIff(v, w);
    hide EngineText, EngineSort, Event;
    if Preimage(a, k, p) == Preimage(b, l, q) {
      SplitPreimage(p, EngineText(OwnText, v), q, EngineText(OwnText, w));
    }
  }

  // ---------------------------------------------------------------- two ledgers with one head

  /** Every text hashed on a ledger that verifies. */
  ghost function Texts(entries: seq<Entry<Body>>): set<string> {
    if entries == [] then {}
    else
      var last := entries[|entries| - 1];
      Texts(entries[..|entries| - 1]) + {Preimage(last.body, last.previousHash, last.previousHash)}
  }

  ghost predicate Verified(h: Hash, entries: seq<Entry<Body>>) {
    HexHash(h) && Chained(EngineDigest(h), entries) && forall i :: 0 <= i < |entries| ==> BodyOk(entries[i].body)
  }

  /** The same links, hashes and events, up to key order. */
  ghost predicate SameEntry(a: Entry<Body>, b: Entry<Body>) {
    && a.previousHash == b.previousHash && a.eventHash == b.eventHash
    && EngineSort(Event(a.body, a.previousHash)) == EngineSort(Event(b.body, b.previousHash))
  }

  lemma HeadIsHash(h: Hash, entries: seq<Entry<Body>>)
    requires Verified(h, entries)
    ensures if entries == [] then Head(entries) == "" else IsHex(Head(entries)) && Head(entries) != ""
  {
    if entries != [] {
      var last := entries[|entries| - 1];
      assert Linked(EngineDigest(h), last, Head(entries[..|entries| - 1]));
      assert IsHex(h(Preimage(last.body, last.previousHash, last.previousHash)));
    }
  }

  lemma Front(h: Hash, entries: seq<Entry<Body>>)
    requires Verified(h, entries) && entries != []
    ensures var front, last := entries[..|entries| - 1], entries[|entries| - 1];
      && Verified(h, front) && last.previousHash == Head(front) && BodyOk(last.body)
      && last.eventHash == Head(entries) == h(Preimage(last.body, last.previousHash, last.previousHash))
  {
    hide BodyOk;
  }

  lemma TextsFront(entries: seq<Entry<Body>>)
    requires entries != []
    ensures var last := entries[|entries| - 1];
      Texts(entries) == Texts(entries[..|entries| - 1]) + {Preimage(last.body, last.previousHash, last.previousHash)}
  {
  }

  lemma FewerTexts(h: Hash, s: set<string>, t: set<string>, s1: set<string>, t1: set<string>)
    requires NoCollision(h, s + t) && s1 <= s && t1 <= t
    ensures NoCollision(h, s1 + t1)
  {
  }

  lemma NotTheSame(h: Hash, texts: set<string>, x: string, y: string)
    requires NoCollision(h, texts) && x in texts && y in texts && h(x) == h(y)
    ensures x == y
  {
  }

  lemma LastEntries(h: Hash, a: seq<Entry<Body>>, b: seq<Entry<Body>>)
    requires Verified(h, a) && Verified(h, b) && a != [] && b != [] && Head(a) == Head(b)
    requires NoCollision(h, Texts(a) + Texts(b))
    ensures SameEntry(a[|a| - 1], b[|b| - 1]) && Head(a[..|a| - 1]) == Head(b[..|b| - 1])
    ensures NoCollision(h, Texts(a[..|a| - 1]) + Texts(b[..|b| - 1]))
  {
    var x, y, front, rest := a[|a| - 1], b[|b| - 1], a[..|a| - 1], b[..|b| - 1];
    Front(h, a);
    Front(h, b);
    HeadIsHash(h, front);
    HeadIsHash(h, rest);
    TextsFront(a);
    TextsFront(b);
    hide Verified, BodyOk, EngineSort, Event, Preimage, IsHex, Texts, NoCollision, Head;
    FewerTexts(h, Texts(a), Texts(b), Texts(front), Texts(rest));
    NotTheSame(h, Texts(a) + Texts(b), Preimage(x.body, x.previousHash, x.previousHash), Preimage(y.body, y.previousHash, y.previousHash));
    PreimageIff(x.body, x.previousHash, x.previousHash, y.body, y.previousHash, y.previousHash);
  }

  ghost predicate SameEntries(a: seq<Entry<Body>>, b: seq<Entry<Body>>) {
    |a| == |b| && forall i :: 0 <= i < |a| ==> SameEntry(a[i], b[i])
  }

  lemma OneMore(a: seq<Entry<Body>>, b: seq<Entry<Body>>)
    requires a != [] && b != [] && SameEntries(a[..|a| - 1], b[..|b| - 1]) && SameEntry(a[|a| - 1], b[|b| - 1])
    ensures SameEntries(a, b)
  {
    hide SameEntry;
    forall i | 0 <= i < |a| ensures SameEntry(a[i], b[i]) {
      if i < |a| - 1 {
        assert SameEntry(a[..|a| - 1][i], b[..|b| - 1][i]);
      }
    }
  }

  lemma {:induction false} SameUnlessCollision(h: Hash, a: seq<Entry<Body>>, b: seq<Entry<Body>>)
    requires Verified(h, a) && Verified(h, b) && Head(a) == Head(b)
    requires NoCollision(h, Texts(a) + Texts(b))
    ensures SameEntries(a, b)
    decreases |a|
  {
    HeadIsHash(h, a);
    HeadIsHash(h, b);
    hide Texts, SameEntry, NoCollision, SameEntries, IsHex, Verified;
    if a == [] {
      assert b == [];
      NoneSame(a, b);
    } else {
      Front(h, a);
      Front(h, b);
      LastEntries(h, a, b);
      hide Head;
      SameUnlessCollision(h, a[..|a| - 1], b[..|b| - 1]);
      OneMore(a, b);
    }
  }

  /** Two ledgers that verify under the engine's digest and end in the same hash have the
      same length and, entry by entry, the same links, hashes and events up to key order, or
      two different texts that the verifications hash have one hash. */
  lemma TamperEvident(h: Hash, a: seq<Entry<Body>>, b: seq<Entry<Body>>)
    requires Verified(h, a) && Verified(h, b) && Head(a) == Head(b)
    ensures
      || (|a| == |b| && forall i :: 0 <= i < |a| ==>
            && a[i].previousHash == b[i].previousHash && a[i].eventHash == b[i].eventHash
            && EngineSort(Event(a[i].body, a[i].previousHash)) == EngineSort(Event(b[i].body, b[i].previousHash)))
      || exists x, y :: x in Texts(a) + Texts(b) && y in Texts(a) + Texts(b) && x != y && h(x) == h(y)
  {
    hide EngineSort, Event, Texts, Verified;
    if NoCollision(h, Texts(a) + Texts(b)) {
      SameUnlessCollision(h, a, b);
      hide SameEntry, NoCollision;
      forall i | 0 <= i < |a|
        ensures a[i].previousHash == b[i].previousHash && a[i].eventHash == b[i].eventHash
        ensures EngineSort(Event(a[i].body, a[i].previousHash)) == EngineSort(Event(b[i].body, b[i].previousHash))
      {
        assert SameEntry(a[i], b[i]);
        SameEntryMeans(a[i], b[i]);
      }
    }
  }

  lemma SameEntryMeans(a: Entry<Body>, b: Entry<Body>)
    requires SameEntry(a, b)
    ensures a.previousHash == b.previousHash && a.eventHash == b.eventHash
    ensures EngineSort(Event(a.body, a.previousHash)) == EngineSort(Event(b.body, b.previousHash))
  {
    hide EngineSort, Event;
  }

  lemma NoneSame(a: seq<Entry<Body>>, b: seq<Entry<Body>>)
    requires a == [] && b == []
    ensures SameEntries(a, b)
  {
  }
}
