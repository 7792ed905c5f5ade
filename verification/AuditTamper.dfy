/** The chain's own digest, hash(previous + canonical JSON), and what a verified head hash
    says about the whole log. */
module AuditTamper {
  import opened Basics
  import opened Json
  import JsonCanonical
  import opened AuditChain
  import opened Hashing

  function OrNull(s: Option<string>): Value {
    match s case None => Null case Some(t) => Str(t)
  }

  /** The object that is hashed. */
  function EventFields(e: Event): seq<Field> {
    [Field("organisationId", OrNull(e.organisationId)), Field("actorType", Str(e.actorType)),
     Field("actorId", Str(e.actorId)), Field("action", Str(e.action)),
     Field("resourceType", Str(e.resourceType)), Field("resourceId", OrNull(e.resourceId)),
     Field("requestId", OrNull(e.requestId)), Field("outcome", Str(e.outcome)),
     Field("details", e.details)]
  }

  function Preimage(e: Event, previous: string): string {
    previous + CanonicalText(Obj(EventFields(e)))
  }

  function ChainDigest(h: Hash): Digest {
    (e: Event, previous: string) => h(Preimage(e, previous))
  }

  // ---------------------------------------------------------------- hashing up to meaning

  lemma EventFieldsWf(e: Event)
    requires EventWf(e)
    ensures |EventFields(e)| == 9 && WfFields(EventFields(e))
    ensures forall i :: 0 <= i < 9 ==> !EventFields(e)[i].value.Undefined?
  {
  }

  ghost predicate SameMeaningAt(fs: seq<Field>, gs: seq<Field>, i: nat)
    requires i < |fs| && i < |gs|
  {
    Meaning(fs[i].value) == Meaning(gs[i].value)
  }

  lemma EventFieldsIff(a: Event, b: Event)
    ensures forall i :: 0 <= i < 9 ==> EventFields(a)[i].key == EventFields(b)[i].key
    ensures (forall i :: 0 <= i < 9 ==> SameMeaningAt(EventFields(a), EventFields(b), i)) <==> SameEvent(a, b)
  {
    FirstFieldsIff(a, b);
    LastFieldsIff(a, b);
  }

  lemma FirstFieldsIff(a: Event, b: Event)
    ensures (forall i :: 0 <= i < 4 ==> SameMeaningAt(EventFields(a), EventFields(b), i))
      <==> a.organisationId == b.organisationId && a.actorType == b.actorType && a.actorId == b.actorId && a.action == b.action
  {
    var fs, gs := EventFields(a), EventFields(b);
    assert SameMeaningAt(fs, gs, 0) <==> a.organisationId == b.organisationId;
    assert SameMeaningAt(fs, gs, 1) <==> a.actorType == b.actorType;
    assert SameMeaningAt(fs, gs, 2) <==> a.actorId == b.actorId;
    assert SameMeaningAt(fs, gs, 3) <==> a.action == b.action;
  }

  lemma LastFieldsIff(a: Event, b: Event)
    ensures (forall i :: 4 <= i < 9 ==> SameMeaningAt(EventFields(a), EventFields(b), i))
      <==> (a.resourceType == b.resourceType && a.resourceId == b.resourceId && a.requestId == b.requestId
            && a.outcome == b.outcome && Meaning(a.details) == Meaning(b.details))
  {
    var fs, gs := EventFields(a), EventFields(b);
    assert SameMeaningAt(fs, gs, 4) <==> a.resourceType == b.resourceType;
    assert SameMeaningAt(fs, gs, 5) <==> a.resourceId == b.resourceId;
    assert SameMeaningAt(fs, gs, 6) <==> a.requestId == b.requestId;
    assert SameMeaningAt(fs, gs, 7) <==> a.outcome == b.outcome;
    assert SameMeaningAt(fs, gs, 8) <==> Meaning(a.details) == Meaning(b.details);
  }

  lemma SameFieldsTextIff(fs: seq<Field>, gs: seq<Field>)
    requires WfFields(fs) && WfFields(gs) && |fs| == |gs|
    requires forall i :: 0 <= i < |fs| ==> fs[i].key == gs[i].key && !fs[i].value.Undefined? && !gs[i].value.Undefined?
    ensures CanonicalText(Obj(fs)) == CanonicalText(Obj(gs))
       <==> forall i :: 0 <= i < |fs| ==> SameMeaningAt(fs, gs, i)
  {
    JsonCanonical.CanonicalIff(Obj(fs), Obj(gs));
    JsonCanonical.SameKeysIff(fs, gs);
    assert forall i :: 0 <= i < |fs| ==> (SameMeaningAt(fs, gs, i) <==> Meaning(fs[i].value) == Meaning(gs[i].value));
  }

  /** Two events hash the same text exactly when they say the same. */
  lemma SameTextIffSameEvent(a: Event, b: Event)
    requires EventWf(a) && EventWf(b)
    ensures CanonicalText(Obj(EventFields(a))) == CanonicalText(Obj(EventFields(b))) <==> SameEvent(a, b)
  {
    EventFieldsWf(a);
    EventFieldsWf(b);
    EventFieldsIff(a, b);
    SameFieldsTextIff(EventFields(a), EventFields(b));
  }

  /** Rows written by appendAudit re-verify: the digest ignores the order in which stored
      details come back, at any depth. */
  lemma ChainDigestReadsMeaning(h: Hash)
    ensures ReadsMeaning(ChainDigest(h))
  {
    forall a, b, p | EventWf(a) && EventWf(b) && SameEvent(a, b) ensures ChainDigest(h)(a, p) == ChainDigest(h)(b, p) {
      SameTextIffSameEvent(a, b);
      assert Preimage(a, p) == Preimage(b, p);
    }
  }

  // ---------------------------------------------------------------- what the hashed text says

  /** An optional column as JSON holds it. */
  function DataOrNull(s: Option<string>): Data {
    match s case None => DNull case Some(t) => DStr(t)
  }

  lemma FieldIn(fs: seq<Field>, i: nat, key: string)
    requires DistinctKeys(fs) && i < |fs| && fs[i].key == key && !fs[i].value.Undefined?
    ensures key in FieldsMeaning(fs) && FieldsMeaning(fs)[key] == Meaning(fs[i].value)
  {
    JsonCanonical.MeaningAt(fs, i);
  }

  /** The object that is hashed holds each column under its own name and nothing else. */
  lemma ColumnsMeaning(e: Event)
    requires EventWf(e)
    ensures FieldsMeaning(EventFields(e)) == map[
      "organisationId" := DataOrNull(e.organisationId), "actorType" := DStr(e.actorType), "actorId" := DStr(e.actorId),
      "action" := DStr(e.action), "resourceType" := DStr(e.resourceType), "resourceId" := DataOrNull(e.resourceId),
      "requestId" := DataOrNull(e.requestId), "outcome" := DStr(e.outcome), "details" := Meaning(e.details)]
  {
    NamesAre(e);
    FirstColumns(e);
    LastColumns(e);
    hide EventFields, FieldsMeaning, Meaning, DataOrNull;
    NineEntries(FieldsMeaning(EventFields(e)), DataOrNull(e.organisationId), DStr(e.actorType), DStr(e.actorId), DStr(e.action),
      DStr(e.resourceType), DataOrNull(e.resourceId), DataOrNull(e.requestId), DStr(e.outcome), Meaning(e.details));
  }

  lemma FirstColumns(e: Event)
    requires EventWf(e) && FieldsMeaning(EventFields(e)).Keys == NAMES
    ensures var m := FieldsMeaning(EventFields(e));
      && m["organisationId"] == DataOrNull(e.organisationId) && m["actorType"] == DStr(e.actorType)
      && m["actorId"] == DStr(e.actorId) && m["action"] == DStr(e.action) && m["resourceType"] == DStr(e.resourceType)
  {
    EventFieldsWf(e);
    var fs := EventFields(e);
    FieldIn(fs, 0, "organisationId");
    FieldIn(fs, 1, "actorType");
    FieldIn(fs, 2, "actorId");
    FieldIn(fs, 3, "action");
    FieldIn(fs, 4, "resourceType");
    hide FieldsMeaning;
  }

  lemma LastColumns(e: Event)
    requires EventWf(e) && FieldsMeaning(EventFields(e)).Keys == NAMES
    ensures var m := FieldsMeaning(EventFields(e));
      && m["resourceId"] == DataOrNull(e.resourceId) && m["requestId"] == DataOrNull(e.requestId)
      && m["outcome"] == DStr(e.outcome) && m["details"] == Meaning(e.details)
  {
    EventFieldsWf(e);
    var fs := EventFields(e);
    FieldIn(fs, 5, "resourceId");
    FieldIn(fs, 6, "requestId");
    FieldIn(fs, 7, "outcome");
    FieldIn(fs, 8, "details");
    hide FieldsMeaning;
  }

  lemma NineEntries(m: map<string, Data>, a: Data, b: Data, c: Data, d: Data, f: Data, g: Data, h: Data, i: Data, j: Data)
    requires m.Keys == NAMES
    requires m["organisationId"] == a && m["actorType"] == b && m["actorId"] == c && m["action"] == d && m["resourceType"] == f
    requires m["resourceId"] == g && m["requestId"] == h && m["outcome"] == i && m["details"] == j
    ensures m == map["organisationId" := a, "actorType" := b, "actorId" := c, "action" := d, "resourceType" := f,
      "resourceId" := g, "requestId" := h, "outcome" := i, "details" := j]
  {
  }

  lemma NamesAre(e: Event)
    requires EventWf(e)
    ensures FieldsMeaning(EventFields(e)).Keys == NAMES
  {
    EventFieldsWf(e);
    var fs, m := EventFields(e), FieldsMeaning(EventFields(e));
    forall k ensures k in m <==> k in NAMES {
      if k in m {
        NoOtherName(e, k);
      } else if k in NAMES {
        var i := NamePlace(e, k);
        FieldIn(fs, i, k);
        assert false;
      }
    }
  }

  lemma NamePlace(e: Event, k: string) returns (i: nat)
    requires k in NAMES
    ensures i < |EventFields(e)| && EventFields(e)[i].key == k
  {
    i := if k == "organisationId" then 0 else if k == "actorType" then 1 else if k == "actorId" then 2 else if k == "action" then 3
      else if k == "resourceType" then 4 else if k == "resourceId" then 5 else if k == "requestId" then 6 else if k == "outcome" then 7 else 8;
  }

  const NAMES: set<string> :=
    {"organisationId", "actorType", "actorId", "action", "resourceType", "resourceId", "requestId", "outcome", "details"}

  lemma NoOtherName(e: Event, k: string)
    requires k in FieldsMeaning(EventFields(e))
    ensures k in NAMES
  {
    JsonCanonical.MeaningKeys(EventFields(e), k);
    var i :| 0 <= i < |EventFields(e)| && EventFields(e)[i].key == k;
    hide FieldsMeaning;
    NameAt(e, i);
  }

  lemma NameAt(e: Event, i: nat)
    requires i < |EventFields(e)|
    ensures EventFields(e)[i].key in NAMES
  {
  }

  /** The digest of an event is the hash of the previous hash followed by one JSON text, and
      that text read back is the event: nine names, each with its own column. */
  lemma DigestText(h: Hash, e: Event, previous: string) returns (text: string)
    requires EventWf(e)
    ensures ChainDigest(h)(e, previous) == h(previous + text)
    ensures ParseValue(text) == Some((DObj(map[
      "organisationId" := DataOrNull(e.organisationId), "actorType" := DStr(e.actorType), "actorId" := DStr(e.actorId),
      "action" := DStr(e.action), "resourceType" := DStr(e.resourceType), "resourceId" := DataOrNull(e.resourceId),
      "requestId" := DataOrNull(e.requestId), "outcome" := DStr(e.outcome), "details" := Meaning(e.details)]), ""))
  {
    text := CanonicalText(Obj(EventFields(e)));
    assert Preimage(e, previous) == previous + text;
    EventFieldsWf(e);
    ColumnsMeaning(e);
    JsonCanonical.CanonicalParses(Obj(EventFields(e)));
    hide FieldsMeaning, EventFields, CanonicalText, ParseValue;
  }

  // ---------------------------------------------------------------- tamper evidence

  /** Every text the verifier hashes on this log. */
  ghost function Hashed(rows: seq<Row>): set<string> {
    set i | 0 <= i < |rows| :: Preimage(rows[i].event, rows[i].previousHash)
  }

  ghost predicate SameHashedFields(a: seq<Row>, b: seq<Row>) {
    && |a| == |b|
    && forall i :: 0 <= i < |a| ==>
         SameEvent(a[i].event, b[i].event) && a[i].previousHash == b[i].previousHash && a[i].eventHash == b[i].eventHash
  }

  lemma CanonicalObjectStarts(fs: seq<Field>)
    ensures CanonicalText(Obj(fs)) != "" && CanonicalText(Obj(fs))[0] == '{'
  {
  }

  /** The hashed text identifies both the link and what the event says. */
  lemma PreimageIff(a: Event, p: string, b: Event, q: string)
    requires EventWf(a) && EventWf(b)
    requires (p == "" || IsHex(p)) && (q == "" || IsHex(q))
    ensures Preimage(a, p) == Preimage(b, q) <==> p == q && SameEvent(a, b)
  {
    CanonicalObjectStarts(EventFields(a));
    CanonicalObjectStarts(EventFields(b));
    SameTextIffSameEvent(a, b);
    if Preimage(a, p) == Preimage(b, q) {
      SplitPreimage(p, CanonicalText(Obj(EventFields(a))), q, CanonicalText(Obj(EventFields(b))));
    }
  }

  lemma HeadIsHash(h: Hash, rows: seq<Row>)
    requires HexHash(h) && Chained(ChainDigest(h), rows)
    ensures HeadHash(rows) == "" <==> rows == []
    ensures rows != [] ==> IsHex(HeadHash(rows))
  {
    if rows != [] {
      assert LinkedAt(ChainDigest(h), rows, |rows| - 1);
      assert IsHex(h(Preimage(rows[|rows| - 1].event, rows[|rows| - 1].previousHash)));
    }
  }

  ghost predicate Verified(h: Hash, rows: seq<Row>) {
    HexHash(h) && RowsWf(rows) && Chained(ChainDigest(h), rows)
  }

  lemma VerifiedPrefix(h: Hash, rows: seq<Row>, n: nat)
    requires Verified(h, rows) && n <= |rows|
    ensures Verified(h, rows[..n]) && Hashed(rows[..n]) <= Hashed(rows)
  {
    ChainedPrefix(ChainDigest(h), rows, n);
    forall t | t in Hashed(rows[..n]) ensures t in Hashed(rows) {
      var i :| 0 <= i < n && t == Preimage(rows[..n][i].event, rows[..n][i].previousHash);
      assert rows[..n][i] == rows[i];
    }
  }

  /** One step back from a shared head: the last rows agree, and so do the heads before them. */
  lemma SameLastRow(h: Hash, a: seq<Row>, b: seq<Row>)
    requires Verified(h, a) && Verified(h, b) && a != [] && b != [] && HeadHash(a) == HeadHash(b)
    requires NoCollision(h, Hashed(a) + Hashed(b))
    ensures SameEvent(a[|a| - 1].event, b[|b| - 1].event) && a[|a| - 1].previousHash == b[|b| - 1].previousHash
    ensures HeadHash(a[..|a| - 1]) == HeadHash(b[..|b| - 1])
  {
    var x, y := a[|a| - 1], b[|b| - 1];
    assert LinkedAt(ChainDigest(h), a, |a| - 1) && LinkedAt(ChainDigest(h), b, |b| - 1);
    assert Preimage(x.event, x.previousHash) in Hashed(a) && Preimage(y.event, y.previousHash) in Hashed(b);
    VerifiedPrefix(h, a, |a| - 1);
    VerifiedPrefix(h, b, |b| - 1);
    HeadIsHash(h, a[..|a| - 1]);
    HeadIsHash(h, b[..|b| - 1]);
    PreimageIff(x.event, x.previousHash, y.event, y.previousHash);
  }

  lemma StepBack(h: Hash, a: seq<Row>, b: seq<Row>)
    requires Verified(h, a) && Verified(h, b) && a != [] && b != []
    requires NoCollision(h, Hashed(a) + Hashed(b))
    ensures Verified(h, a[..|a| - 1]) && Verified(h, b[..|b| - 1])
    ensures NoCollision(h, Hashed(a[..|a| - 1]) + Hashed(b[..|b| - 1]))
  {
    hide Verified, Hashed;
    VerifiedPrefix(h, a, |a| - 1);
    VerifiedPrefix(h, b, |b| - 1);
  }

  lemma SameByLastRow(a: seq<Row>, b: seq<Row>)
    requires a != [] && b != [] && SameHashedFields(a[..|a| - 1], b[..|b| - 1])
    requires SameEvent(a[|a| - 1].event, b[|b| - 1].event) && a[|a| - 1].previousHash == b[|b| - 1].previousHash
    requires HeadHash(a) == HeadHash(b)
    ensures SameHashedFields(a, b)
  {
    var p, q := a[..|a| - 1], b[..|b| - 1];
    assert forall i :: 0 <= i < |p| ==> p[i] == a[i] && q[i] == b[i];
  }

  lemma {:induction false} SameUnlessCollision(h: Hash, a: seq<Row>, b: seq<Row>)
    requires Verified(h, a) && Verified(h, b) && HeadHash(a) == HeadHash(b)
    requires NoCollision(h, Hashed(a) + Hashed(b))
    ensures SameHashedFields(a, b)
    decreases |a|
  {
    HeadIsHash(h, a);
    HeadIsHash(h, b);
    if a != [] && b != [] {
      SameLastRow(h, a, b);
      StepBack(h, a, b);
      SameUnlessCollision(h, a[..|a| - 1], b[..|b| - 1]);
      SameByLastRow(a, b);
    }
  }

  /** Main result: two logs that verify and end in the same head hash have the same length and
      agree row by row on every hashed field, or two different texts hashed on them have one
      hash. */
  lemma TamperEvident(h: Hash, a: seq<Row>, b: seq<Row>)
    requires Verified(h, a) && Verified(h, b) && HeadHash(a) == HeadHash(b)
    ensures
      || (|a| == |b| && forall i :: 0 <= i < |a| ==>
            SameEvent(a[i].event, b[i].event) && a[i].previousHash == b[i].previousHash && a[i].eventHash == b[i].eventHash)
      || exists x, y :: x in Hashed(a) + Hashed(b) && y in Hashed(a) + Hashed(b) && x != y && h(x) == h(y)
  {
    if NoCollision(h, Hashed(a) + Hashed(b)) {
      SameUnlessCollision(h, a, b);
    }
  }

  /** Changing a stored row of a verified log in any hashed field, while its head hash is
      known, makes verification fail, or else the hash collides. */
  lemma EditedRowFails(h: Hash, rows: seq<Row>, i: nat, row: Row)
    requires Verified(h, rows) && EventWf(row.event) && i < |rows|
    requires !SameEvent(rows[i].event, row.event) && HeadHash(rows[i := row]) == HeadHash(rows)
    ensures var edited := rows[i := row];
      || !Chained(ChainDigest(h), edited)
      || exists x, y :: x in Hashed(rows) + Hashed(edited) && y in Hashed(rows) + Hashed(edited) && x != y && h(x) == h(y)
  {
    var edited := rows[i := row];
    assert edited[i] == row;
    if Chained(ChainDigest(h), edited) {
      TamperEvident(h, rows, edited);
    }
  }
}
