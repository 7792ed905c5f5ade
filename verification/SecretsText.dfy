/** Which stored texts are secrets and which are read as they stand. */
module SecretsText {
  import opened Basics
  import opened Decimal
  import opened Secrets
  import Keys

  /** The stored form: a v, digits, the marker and a nonempty rest on one line. */
  ghost predicate HasForm(stored: string, digits: string, box: string) {
    && stored == "v" + digits + ".enc1:" + box && digits != "" && box != ""
    && (forall i :: 0 <= i < |digits| ==> '0' <= digits[i] <= '9')
    && (forall i :: 0 <= i < |box| ==> box[i] !in {'\n', '\r', '\U{2028}', '\U{2029}'})
  }

  lemma FormMatches(stored: string, digits: string, box: string)
    requires HasForm(stored, digits, box)
    ensures Match(stored) == Some((digits, "enc1:" + box))
  {
    var tail := ".enc1:" + box;
    DigitRunIs(digits, tail);
    assert stored == ['v'] + (digits + tail) && stored[1..] == digits + tail;
    hide DigitRun;
    assert (digits + tail)[|digits|..] == tail && (digits + tail)[..|digits|] == digits;
    assert tail[..6] == ".enc1:" && tail[6..] == box;
    Marked(tail);
  }

  lemma MatchedParts(stored: string)
    requires Match(stored).Some?
    ensures var rest := stored[1..];
      var d := DigitRun(rest);
      var box := rest[d..][6..];
      && stored == "v" + rest[..d] + ".enc1:" + box && Match(stored) == Some((rest[..d], "enc1:" + box))
      && d > 0 && box != "" && OneLine(box)
  {
    var rest := stored[1..];
    var d := DigitRun(rest);
    var tail := rest[d..];
    hide DigitRun, OneLine, AllDigits;
    Marked(tail);
    assert stored == ['v'] + rest && rest == rest[..d] + tail;
  }

  lemma Marked(tail: string)
    requires |tail| > 6 && tail[..6] == ".enc1:"
    ensures tail == ".enc1:" + tail[6..] && tail[1..] == "enc1:" + tail[6..]
  {
    assert tail == tail[..6] + tail[6..];
    assert tail[1..] == tail[..6][1..] + tail[6..];
    assert ".enc1:"[1..] == "enc1:";
  }

  /** Parsing finds exactly the texts of that form, and their parts. */
  lemma MatchIff(stored: string, digits: string, box: string)
    ensures Match(stored) == Some((digits, "enc1:" + box)) <==> HasForm(stored, digits, box)
  {
    if HasForm(stored, digits, box) {
      FormMatches(stored, digits, box);
    }
    if Match(stored) == Some((digits, "enc1:" + box)) {
      MatchedParts(stored);
      var found := stored[1..][DigitRun(stored[1..])..][6..];
      hide Match, DigitRun;
      assert ("enc1:" + found)[5..] == found && ("enc1:" + box)[5..] == box;
    }
  }

  /** What is found always has the marker. */
  lemma MatchedForm(stored: string) returns (digits: string, box: string)
    requires Match(stored).Some?
    ensures Match(stored) == Some((digits, "enc1:" + box))
  {
    MatchedParts(stored);
    digits, box := Match(stored).value.0, stored[1..][DigitRun(stored[1..])..][6..];
  }

  /** Text that has not the stored form is read as it stands. */
  lemma PlainTextRead(open: Open, rows: Keys.Rows, org: Option<string>, context: string, stored: string)
    requires forall digits, box :: !HasForm(stored, digits, box)
    ensures Decrypt(open, rows, org, context, stored) == Ok(stored)
  {
    if Match(stored).Some? {
      var digits, box := MatchedForm(stored);
      MatchIff(stored, digits, box);
      assert false;
    }
  }

  /** Text of that form is opened under the key of its version, and no other, and with the
      organisation, or the platform, and the context around a colon. */
  lemma StoredFormRead(open: Open, rows: Keys.Rows, org: Option<string>, context: string, digits: string, box: string)
    requires HasForm("v" + digits + ".enc1:" + box, digits, box)
    ensures AllDigits(digits)
    ensures var version := Number(digits);
      var inside := if version in rows then open(rows[version].key, box, (if org.Some? then org.value else "platform") + ":" + context) else None;
      Decrypt(open, rows, org, context, "v" + digits + ".enc1:" + box)
      == if version !in rows then Err(VersionNotFound) else if inside.None? then Err(NotAuthentic) else Ok(inside.value)
  {
    MatchIff("v" + digits + ".enc1:" + box, digits, box);
    assert ("enc1:" + box)[5..] == box;
  }
}
