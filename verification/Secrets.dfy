/** Secrets at rest: the stored text `v<version>.enc1:<box>`, printed on encryption and parsed
    back on decryption, under the tenant keys as they rotate. */
module Secrets {
  import opened Basics
  import opened Decimal
  import Keys

  type Key = Keys.Key
  type Nonce = nat

  /** Authenticated encryption and its opening, over printed boxes. */
  type Seal = (Key, Nonce, string, string) -> string
  type Open = (Key, string, string) -> Option<string>

  predicate LineBreak(c: char) { c in {'\n', '\r', '\U{2028}', '\U{2029}'} }

  predicate OneLine(s: string) { forall i :: 0 <= i < |s| ==> !LineBreak(s[i]) }

  /** An ideal box: printed on one line, and inside by the key and context that sealed it and
      by no other. */
  ghost predicate Ideal(seal: Seal, open: Open) {
    && (forall k, n, m, a :: seal(k, n, m, a) != "" && OneLine(seal(k, n, m, a)))
    && (forall k, n, m, a, j, b :: open(j, seal(k, n, m, a), b) == if j == k && b == a then Some(m) else None)
  }

  // ---------------------------------------------------------------- the stored text

  /** How many digits a text starts with. */
  function DigitRun(s: string): (d: nat)
    ensures d <= |s| && AllDigits(s[..d]) && (d < |s| ==> !IsDigit(s[d]))
  {
    if s == "" || !IsDigit(s[0]) then 0
    else
      var d := DigitRun(s[1..]);
      assert s[..d + 1] == [s[0]] + s[1..][..d];
      d + 1
  }

  lemma DigitRunIs(ds: string, rest: string)
    requires AllDigits(ds) && (rest != "" ==> !IsDigit(rest[0]))
    ensures DigitRun(ds + rest) == |ds|
  {
    var s, d := ds + rest, DigitRun(ds + rest);
    assert forall i :: 0 <= i < |ds| ==> s[i] == ds[i];
    assert forall i :: 0 <= i < d ==> s[..d][i] == s[i];
    assert |ds| < |s| ==> s[|ds|] == rest[0];
  }

  /** The digits and the box of a text matching /^v(\d+)\.(enc1:.+)$/. */
  function Match(stored: string): (r: Option<(string, string)>)
    ensures r.Some? ==> AllDigits(r.value.0) && |r.value.1| > 5
  {
    if stored == "" || stored[0] != 'v' then None
    else
      var rest := stored[1..];
      var d := DigitRun(rest);
      var tail := rest[d..];
      if d > 0 && |tail| > 6 && tail[..6] == ".enc1:" && OneLine(tail[6..]) then Some((rest[..d], tail[1..])) else None
  }

  function Printed(version: nat, box: string): string { "v" + Digits(version) + ".enc1:" + box }

  /** Printing and parsing are inverse: the version and the box come back whole. */
  lemma PrintedMatches(version: nat, box: string)
    requires box != "" && OneLine(box)
    ensures Match(Printed(version, box)) == Some((Digits(version), "enc1:" + box)) && Number(Digits(version)) == version
  {
    DigitsBack(version);
    var ds, tail := Digits(version), ".enc1:" + box;
    DigitRunIs(ds, tail);
    var stored := Printed(version, box);
    assert stored[1..] == ds + tail;
    assert (ds + tail)[|ds|..] == tail && (ds + tail)[..|ds|] == ds;
    assert tail[..6] == ".enc1:" && tail[6..] == box && tail[1..] == "enc1:" + box;
  }

  // ---------------------------------------------------------------- encrypting and decrypting

  /** The context a secret is bound to; no organisation stands for the platform. */
  function Aad(org: Option<string>, context: string): string {
    (if org.Some? then org.value else "platform") + ":" + context
  }

  datatype Error = VersionNotFound | NotAuthentic
  datatype Result = Ok(plaintext: string) | Err(error: Error)

  function Encrypt(seal: Seal, version: nat, dek: Key, nonce: Nonce, org: Option<string>, context: string, plaintext: string): string {
    Printed(version, seal(dek, nonce, plaintext, Aad(org, context)))
  }

  /** Text of any other form is a value stored before encryption was introduced. */
  function Decrypt(open: Open, rows: Keys.Rows, org: Option<string>, context: string, stored: string): Result {
    var found := Match(stored);
    if found.None? then Ok(stored)
    else
      var version := Number(found.value.0);
      if version !in rows then Err(VersionNotFound)
      else
        var inside := open(rows[version].key, found.value.1[5..], Aad(org, context));
        if inside.None? then Err(NotAuthentic) else Ok(inside.value)
  }

  lemma DecryptPrinted(seal: Seal, open: Open, rows: Keys.Rows, version: nat, dek: Key, nonce: Nonce,
                       org: Option<string>, context: string, plaintext: string, org2: Option<string>, context2: string)
    requires Ideal(seal, open) && version in rows
    ensures Decrypt(open, rows, org2, context2, Encrypt(seal, version, dek, nonce, org, context, plaintext))
      == if rows[version].key == dek && Aad(org2, context2) == Aad(org, context) then Ok(plaintext) else Err(NotAuthentic)
  {
    var box := seal(dek, nonce, plaintext, Aad(org, context));
    PrintedMatches(version, box);
    assert ("enc1:" + box)[5..] == box;
  }

  /** Every secret encrypted under a key fetched at some moment of a run decrypts to its
      plaintext at every later moment, whatever rotations come between. */
  lemma SecretsDecryptForever(seal: Seal, open: Open, trace: seq<Keys.State>, acts: seq<Keys.Action>, i: nat, j: nat, id: Keys.Id,
                              nonce: Nonce, org: Option<string>, context: string, plaintext: string)
    requires Ideal(seal, open) && Keys.IsTrace(trace, acts) && i <= j < |trace|
    requires id in trace[i].callers && trace[i].callers[id].Got?
    ensures var got := trace[i].callers[id];
      Decrypt(open, trace[j].rows, org, context, Encrypt(seal, got.version, got.dek, nonce, org, context, plaintext)) == Ok(plaintext)
  {
    var got := trace[i].callers[id];
    Keys.FetchedKeyStays(trace, acts, i, j, id);
    DecryptPrinted(seal, open, trace[j].rows, got.version, got.dek, nonce, org, context, plaintext, org, context);
  }

  predicate Colonless(org: Option<string>) {
    org.Some? ==> org.value != "platform" && forall i :: 0 <= i < |org.value| ==> org.value[i] != ':'
  }

  /** The printed context tells the organisation and the context apart. */
  lemma AadInjective(org: Option<string>, context: string, org2: Option<string>, context2: string)
    requires Colonless(org) && Colonless(org2)
    ensures Aad(org, context) == Aad(org2, context2) <==> org == org2 && context == context2
  {
    var o, o2 := if org.Some? then org.value else "platform", if org2.Some? then org2.value else "platform";
    var x, y := Aad(org, context), Aad(org2, context2);
    if x == y {
      assert forall i :: 0 <= i < |o| ==> x[i] == o[i];
      assert forall i :: 0 <= i < |o2| ==> y[i] == o2[i];
      assert x[|o|] == ':' && y[|o2|] == ':';
      assert o == x[..|o|] && o2 == y[..|o2|];
      assert context == x[|o| + 1..] && context2 == y[|o2| + 1..];
    }
  }

  /** A stored secret copied to another context or another organisation's row is refused,
      even when the key is the same. */
  lemma SecretsAreBound(seal: Seal, open: Open, rows: Keys.Rows, version: nat, dek: Key, nonce: Nonce,
                        org: Option<string>, context: string, plaintext: string, org2: Option<string>, context2: string)
    requires Ideal(seal, open) && version in rows && rows[version].key == dek && Colonless(org) && Colonless(org2)
    ensures Decrypt(open, rows, org2, context2, Encrypt(seal, version, dek, nonce, org, context, plaintext)).Ok?
      <==> org == org2 && context == context2
  {
    DecryptPrinted(seal, open, rows, version, dek, nonce, org, context, plaintext, org2, context2);
    AadInjective(org, context, org2, context2);
  }
}
