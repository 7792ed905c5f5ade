/** TD3 and TD1 readings: which fields are checked, how the status follows, and which
    alterations of a reading the checks find. */
module Documents {
  import opened Basics
  import Decimal
  import opened Mrz

  datatype Status = Passed | Review | Failed

  datatype Reason =
    | StructureInvalid | DocNumberCheckFailed | BirthDateCheckFailed | ExpiryDateCheckFailed
    | PersonalNumberCheckFailed | CompositeCheckFailed | DocumentExpired | MrzConsistent

  datatype Date = Date(year: int, month: int, day: int)

  // ---------------------------------------------------------------- expiry

  function Pair(s: string, i: nat): int
    requires i + 1 < |s| && Decimal.IsDigit(s[i]) && Decimal.IsDigit(s[i + 1])
  {
    10 * (s[i] - '0') as int + (s[i + 1] - '0') as int
  }

  predicate Leap(y: int) { y % 4 == 0 && (y % 100 != 0 || y % 400 == 0) }

  function DaysIn(y: int, m: int): int
    requires 1 <= m <= 12
  {
    if m == 2 then (if Leap(y) then 29 else 28) else if m in {4, 6, 9, 11} then 30 else 31
  }

  /** Expiry dates are always in this century. None when the field is no date. */
  function ExpiryDate(s: string): Option<Date> {
    if |s| != 6 || exists i :: 0 <= i < 6 && !Decimal.IsDigit(s[i]) then None
    else
      var y, m, d := 2000 + Pair(s, 0), Pair(s, 2), Pair(s, 4);
      if 1 <= m <= 12 && 1 <= d <= DaysIn(y, m) then Some(Date(y, m, d)) else None
  }

  /** A day of the years 2000 to 2099 that exists. */
  predicate IsDay(d: Date) { 2000 <= d.year < 2100 && 1 <= d.month <= 12 && 1 <= d.day <= DaysIn(d.year, d.month) }

  function Field(d: Date): string
    requires IsDay(d)
  {
    Decimal.Padded(d.year - 2000, 2) + Decimal.Padded(d.month, 2) + Decimal.Padded(d.day, 2)
  }

  lemma TwoDigits(n: nat)
    requires n < 100
    ensures |Decimal.Padded(n, 2)| == 2 && Decimal.AllDigits(Decimal.Padded(n, 2)) && Pair(Decimal.Padded(n, 2), 0) == n
  {
    Decimal.PaddedBack(n, 2);
    var s := Decimal.Padded(n, 2);
    assert s[..1][..0] == "" && s[..1] == [s[0]];
    assert Decimal.Number(s[..1]) == (s[0] - '0') as int;
  }

  /** Every day the field can name is read back as that day, and nothing that is no day is
      read as one. */
  lemma ExpiryRoundTrip(d: Date, s: string)
    ensures IsDay(d) ==> ExpiryDate(Field(d)) == Some(d)
    ensures ExpiryDate(s).Some? ==> IsDay(ExpiryDate(s).value)
  {
    if IsDay(d) {
      TwoDigits(d.year - 2000);
      TwoDigits(d.month);
      TwoDigits(d.day);
      var y, m, k := Decimal.Padded(d.year - 2000, 2), Decimal.Padded(d.month, 2), Decimal.Padded(d.day, 2);
      hide Decimal.Padded;
      var f := y + m + k;
      assert f[0] == y[0] && f[1] == y[1] && f[2] == m[0] && f[3] == m[1] && f[4] == k[0] && f[5] == k[1];
      assert Pair(f, 0) == Pair(y, 0) && Pair(f, 2) == Pair(m, 0) && Pair(f, 4) == Pair(k, 0);
    }
  }

  predicate Before(a: Date, b: Date) {
    a.year < b.year || (a.year == b.year && (a.month < b.month || (a.month == b.month && a.day < b.day)))
  }

  /** An expiry that resolves and has passed; one that does not resolve is not checked. */
  predicate Expired(field: string, today: Date) { ExpiryDate(field).Some? && Before(ExpiryDate(field).value, today) }

  // ---------------------------------------------------------------- status of a reading

  predicate AllFiller(s: string) { forall i :: 0 <= i < |s| ==> s[i] == '<' }

  predicate Good(data: string, c: char) { (Decimal.IsDigit(c) || c == '<') && Digit(data) == Some(Value(c)) }

  function StatusOf(sound: bool, expired: bool): Status { if !sound then Failed else if expired then Review else Passed }

  function Td3Composite(l2: string): string
    requires |l2| == 44
  {
    l2[0..10] + l2[13..20] + l2[21..43]
  }

  /** Every check of a passport's second line holds. */
  predicate Td3Sound(l2: string)
    requires |l2| == 44
  {
    && Good(l2[0..9], l2[9]) && Good(l2[13..19], l2[19]) && Good(l2[21..27], l2[27])
    && (AllFiller(l2[28..42]) || Good(l2[28..42], l2[42]))
    && Good(Td3Composite(l2), l2[43])
  }

  function Td3Status(l2: string, today: Date): Status
    requires |l2| == 44
  {
    StatusOf(Td3Sound(l2), Expired(l2[21..27], today))
  }

  function Td1Composite(l1: string, l2: string): string
    requires |l1| == |l2| == 30
  {
    l1[5..30] + l2[0..7] + l2[8..15] + l2[18..29]
  }

  predicate Td1Sound(l1: string, l2: string)
    requires |l1| == |l2| == 30
  {
    && Good(l1[5..14], l1[14]) && Good(l2[0..6], l2[6]) && Good(l2[8..14], l2[14])
    && Good(Td1Composite(l1, l2), l2[29])
  }

  function Td1Status(l1: string, l2: string, today: Date): Status
    requires |l1| == |l2| == 30
  {
    StatusOf(Td1Sound(l1, l2), Expired(l2[8..14], today))
  }

  // ---------------------------------------------------------------- the parsers

  predicate IsHard(r: Reason) {
    r in {StructureInvalid, DocNumberCheckFailed, BirthDateCheckFailed, ExpiryDateCheckFailed,
          PersonalNumberCheckFailed, CompositeCheckFailed}
  }

  /** _digit_ok: the check digit is computed only when the digit's place holds a digit or a
      filler. */
  method CheckField(data: string, c: char) returns (r: Check)
    ensures r == DigitOk(data, c) && (r == Check.Good <==> Good(data, c))
  {
    GoodIff(data, c);
    if c != '<' && !Decimal.IsDigit(c) {
      return Bad;
    }
    var d := CheckDigit(data);
    if d.None? {
      return Raised;
    }
    if c == '<' {
      return if d.value == 0 || (data != "" && forall i :: 0 <= i < |data| ==> data[i] == '<') then Check.Good else Bad;
    }
    return if d.value == (c - '0') as nat then Check.Good else Bad;
  }

  function OneIf(failed: bool, r: Reason): seq<Reason> { if failed then [r] else [] }

  /** The failed checks of the fields of a reading, in the order they are made. */
  function Hard(doc: string, d1: char, birth: string, d2: char, expiry: string, d3: char, personal: string, d4: char,
                whole: string, d5: char): seq<Reason>
  {
    OneIf(!Good(doc, d1), DocNumberCheckFailed) + OneIf(!Good(birth, d2), BirthDateCheckFailed)
    + OneIf(!Good(expiry, d3), ExpiryDateCheckFailed)
    + OneIf(!AllFiller(personal) && !Good(personal, d4), PersonalNumberCheckFailed)
    + OneIf(!Good(whole, d5), CompositeCheckFailed)
  }

  function Td3Hard(l2: string): (h: seq<Reason>)
    requires |l2| == 44
    ensures h == [] <==> Td3Sound(l2)
  {
    Hard(l2[0..9], l2[9], l2[13..19], l2[19], l2[21..27], l2[27], l2[28..42], l2[42], Td3Composite(l2), l2[43])
  }

  /** A card has no personal number to check. */
  function Td1Hard(l1: string, l2: string): (h: seq<Reason>)
    requires |l1| == |l2| == 30
    ensures h == [] <==> Td1Sound(l1, l2)
  {
    Hard(l1[5..14], l1[14], l2[0..6], l2[6], l2[8..14], l2[14], "", '<', Td1Composite(l1, l2), l2[29])
  }

  /** The failed checks, then the expiry, or the all-clear. */
  function Reasons(hard: seq<Reason>, expired: bool): seq<Reason> {
    hard + (if expired then [DocumentExpired] else if hard == [] then [MrzConsistent] else [])
  }

  lemma Td1CompositeAt(l1: string, l2: string, i: nat)
    requires |l1| == |l2| == 30 && i < 50
    ensures |Td1Composite(l1, l2)| == 50
    ensures Td1Composite(l1, l2)[i]
      == if i < 25 then l1[i + 5] else if i < 32 then l2[i - 25] else if i < 39 then l2[i - 24] else l2[i - 21]
  {
  }

  /** A check that stops the parse: the digit's place asks for the digit, and some character
      of the field is outside the alphabet. */
  predicate Stops(data: string, c: char) { (Decimal.IsDigit(c) || c == '<') && !AllKnown(data) }

  predicate SomeStops(doc: string, d1: char, birth: string, d2: char, expiry: string, d3: char, personal: string, d4: char,
                      whole: string, d5: char)
  {
    Stops(doc, d1) || Stops(birth, d2) || Stops(expiry, d3) || Stops(personal, d4) || Stops(whole, d5)
  }

  /** The reasons of a reading: the failed checks in order, or the structure alone when a
      check stops the parse. */
  function Td3Reasons(l2: string, today: Date): seq<Reason>
    requires |l2| == 44
  {
    if SomeStops(l2[0..9], l2[9], l2[13..19], l2[19], l2[21..27], l2[27], l2[28..42], l2[42], Td3Composite(l2), l2[43]) then [StructureInvalid]
    else Reasons(Td3Hard(l2), Expired(l2[21..27], today))
  }

  function Td1Reasons(l1: string, l2: string, today: Date): seq<Reason>
    requires |l1| == |l2| == 30
  {
    if SomeStops(l1[5..14], l1[14], l2[0..6], l2[6], l2[8..14], l2[14], "", '<', Td1Composite(l1, l2), l2[29]) then [StructureInvalid]
    else Reasons(Td1Hard(l1, l2), Expired(l2[8..14], today))
  }

  lemma StopsNotGood(data: string, c: char)
    requires Stops(data, c)
    ensures !Good(data, c) && !AllFiller(data)
  {
  }

  /** No reading with such a check is sound. */
  lemma StoppedFails(doc: string, d1: char, birth: string, d2: char, expiry: string, d3: char, personal: string, d4: char,
                     whole: string, d5: char)
    requires SomeStops(doc, d1, birth, d2, expiry, d3, personal, d4, whole, d5)
    ensures Hard(doc, d1, birth, d2, expiry, d3, personal, d4, whole, d5) != []
  {
    if Stops(doc, d1) {
      StopsNotGood(doc, d1);
    } else if Stops(birth, d2) {
      StopsNotGood(birth, d2);
    } else if Stops(expiry, d3) {
      StopsNotGood(expiry, d3);
    } else if Stops(personal, d4) {
      StopsNotGood(personal, d4);
    } else {
      StopsNotGood(whole, d5);
    }
  }

  /** _finalise: hard reasons fail the reading, any other sends it to review. */
  method Finalise(reasons: seq<Reason>, expiry: string, today: Date) returns (status: Status, all: seq<Reason>)
    requires forall r :: r in reasons ==> IsHard(r)
    ensures status == StatusOf(reasons == [], Expired(expiry, today))
    ensures all == Reasons(reasons, Expired(expiry, today))
    ensures all == [MrzConsistent] <==> status == Passed
  {
    all := reasons;
    if Expired(expiry, today) {
      all := all + [DocumentExpired];
    }
    assert reasons != [] ==> reasons[0] in all && IsHard(reasons[0]);
    if r :| r in all && IsHard(r) {
      status := Failed;
      assert all == [MrzConsistent] ==> r == MrzConsistent;
    } else if all != [] {
      status := Review;
      assert all[0] == DocumentExpired;
    } else {
      status := Passed;
      all := all + [MrzConsistent];
    }
  }

  /** Adds a reason when a field is bad; a character outside the alphabet stops the parse. */
  method AddCheck(reasons: seq<Reason>, data: string, c: char, reason: Reason) returns (out: seq<Reason>, raised: bool)
    requires IsHard(reason) && forall r :: r in reasons ==> IsHard(r)
    ensures raised <==> Stops(data, c)
    ensures !raised ==> out == reasons + OneIf(!Good(data, c), reason)
    ensures forall r :: r in out ==> IsHard(r)
  {
    var r := CheckField(data, c);
    if r == Raised {
      return reasons, true;
    }
    return if r == Bad then reasons + [reason] else reasons, false;
  }

  lemma FillersRead(data: string, c: char)
    requires AllFiller(data)
    ensures !Stops(data, c)
  {
  }

  /** The checks one after the other; the first character outside the alphabet ends them. */
  method RunChecks(doc: string, d1: char, birth: string, d2: char, expiry: string, d3: char, personal: string, d4: char,
                   whole: string, d5: char)
    returns (reasons: seq<Reason>, raised: bool)
    ensures raised <==> SomeStops(doc, d1, birth, d2, expiry, d3, personal, d4, whole, d5)
    ensures !raised ==> reasons == Hard(doc, d1, birth, d2, expiry, d3, personal, d4, whole, d5)
    ensures forall r :: r in reasons ==> IsHard(r)
  {
    hide Good, AllFiller, Stops;
    reasons, raised := AddCheck([], doc, d1, DocNumberCheckFailed);
    if raised {
      return;
    }
    reasons, raised := AddCheck(reasons, birth, d2, BirthDateCheckFailed);
    if raised {
      return;
    }
    reasons, raised := AddCheck(reasons, expiry, d3, ExpiryDateCheckFailed);
    if raised {
      return;
    }
    if !AllFiller(personal) {
      reasons, raised := AddCheck(reasons, personal, d4, PersonalNumberCheckFailed);
      if raised {
        return;
      }
    } else {
      assert !Stops(personal, d4) by {
        FillersRead(personal, d4);
      }
    }
    reasons, raised := AddCheck(reasons, whole, d5, CompositeCheckFailed);
  }

  method ParseTd3(l2: string, today: Date) returns (status: Status, reasons: seq<Reason>)
    requires |l2| == 44
    ensures status == Td3Status(l2, today)
    ensures reasons == [MrzConsistent] <==> status == Passed
    ensures reasons == Td3Reasons(l2, today)
  {
    hide Good, AllFiller, Expired, Hard, Td3Composite, AllKnown, SomeStops;
    var raised;
    reasons, raised := RunChecks(l2[0..9], l2[9], l2[13..19], l2[19], l2[21..27], l2[27], l2[28..42], l2[42], Td3Composite(l2), l2[43]);
    if raised {
      StoppedFails(l2[0..9], l2[9], l2[13..19], l2[19], l2[21..27], l2[27], l2[28..42], l2[42], Td3Composite(l2), l2[43]);
      assert Td3Hard(l2) != [];
      return Failed, [StructureInvalid];
    }
    assert reasons == Td3Hard(l2);
    status, reasons := Finalise(reasons, l2[21..27], today);
  }

  method ParseTd1(l1: string, l2: string, today: Date) returns (status: Status, reasons: seq<Reason>)
    requires |l1| == |l2| == 30
    ensures status == Td1Status(l1, l2, today)
    ensures reasons == [MrzConsistent] <==> status == Passed
    ensures reasons == Td1Reasons(l1, l2, today)
  {
    hide Good, AllFiller, Expired, Hard, Td1Composite, SomeStops;
    var raised;
    reasons, raised := RunChecks(l1[5..14], l1[14], l2[0..6], l2[6], l2[8..14], l2[14], "", '<', Td1Composite(l1, l2), l2[29]);
    if raised {
      StoppedFails(l1[5..14], l1[14], l2[0..6], l2[6], l2[8..14], l2[14], "", '<', Td1Composite(l1, l2), l2[29]);
      assert Td1Hard(l1, l2) != [];
      return Failed, [StructureInvalid];
    }
    assert reasons == Td1Hard(l1, l2);
    status, reasons := Finalise(reasons, l2[8..14], today);
  }

  // ---------------------------------------------------------------- the two layouts

  function Strip(s: string): string
    decreases |s|
  {
    if s != "" && Blank(s[0]) then Strip(s[1..])
    else if s != "" && Blank(s[|s| - 1]) then Strip(s[..|s| - 1])
    else s
  }

  /** What Python's strip removes. */
  predicate Blank(c: char) {
    var n := c as int;
    || 0x09 <= n <= 0x0D || 0x1C <= n <= 0x20 || n == 0x85 || n == 0xA0 || n == 0x1680 || 0x2000 <= n <= 0x200A
    || n == 0x2028 || n == 0x2029 || n == 0x202F || n == 0x205F || n == 0x3000
  }

  function UpperAll(s: string): string { seq(|s|, i requires 0 <= i < |s| => Upper(s[i])) }

  function Cleaned(lines: seq<string>): seq<string> {
    if lines == [] then []
    else (if Strip(lines[0]) == "" then [] else [UpperAll(Strip(lines[0]))]) + Cleaned(lines[1..])
  }

  predicate IsTd3(lines: seq<string>) { |lines| == 2 && |lines[0]| == 44 && |lines[1]| == 44 }

  predicate IsTd1(lines: seq<string>) { |lines| == 3 && |lines[0]| == 30 && |lines[1]| == 30 && |lines[2]| == 30 }

  /** parse_mrz: a reading is judged by its layout, and any other shape fails. */
  method ParseMrz(lines: seq<string>, today: Date) returns (status: Status, reasons: seq<Reason>)
    ensures var c := Cleaned(lines);
      if |c| == 2 && |c[0]| == 44 && |c[1]| == 44 then status == Td3Status(c[1], today) && reasons == Td3Reasons(c[1], today)
      else if |c| == 3 && |c[0]| == 30 && |c[1]| == 30 && |c[2]| == 30 then
        status == Td1Status(c[0], c[1], today) && reasons == Td1Reasons(c[0], c[1], today)
      else status == Failed && reasons == [StructureInvalid]
    ensures reasons == [MrzConsistent] <==> status == Passed
  {
    var cleaned := Cleaned(lines);
    if IsTd3(cleaned) {
      status, reasons := ParseTd3(cleaned[1], today);
    } else if IsTd1(cleaned) {
      status, reasons := ParseTd1(cleaned[0], cleaned[1], today);
    } else {
      return Failed, [StructureInvalid];
    }
  }

  // ---------------------------------------------------------------- readings that pass

  function Whole(doc: string, d1: char, birth: string, d2: char, expiry: string, d3: char, personal: string, d4: char): string {
    doc + [d1] + birth + [d2] + expiry + [d3] + personal + [d4]
  }

  /** A second line put together from its fields and digits. */
  function Line(doc: string, d1: char, nation: string, birth: string, d2: char, sex: char, expiry: string, d3: char,
                personal: string, d4: char, d5: char): string
  {
    doc + [d1] + nation + birth + [d2] + [sex] + expiry + [d3] + personal + [d4] + [d5]
  }

  lemma LineParts(doc: string, d1: char, nation: string, birth: string, d2: char, sex: char, expiry: string, d3: char,
                  personal: string, d4: char, d5: char)
    requires |doc| == 9 && |nation| == 3 && |birth| == 6 && |expiry| == 6 && |personal| == 14
    ensures var l2 := Line(doc, d1, nation, birth, d2, sex, expiry, d3, personal, d4, d5);
      && |l2| == 44 && l2[0..9] == doc && l2[9] == d1 && l2[13..19] == birth && l2[19] == d2 && l2[21..27] == expiry && l2[27] == d3
      && l2[28..42] == personal && l2[42] == d4 && l2[43] == d5
      && Td3Composite(l2) == Whole(doc, d1, birth, d2, expiry, d3, personal, d4)
  {
    var l2 := Line(doc, d1, nation, birth, d2, sex, expiry, d3, personal, d4, d5);
    assert l2[0..10] == doc + [d1] && l2[13..20] == birth + [d2] && l2[21..43] == expiry + [d3] + personal + [d4];
  }

  /** The digit to print after a field. */
  function Computed(data: string): (c: char)
    requires AllKnown(data)
    ensures Decimal.IsDigit(c) && Good(data, c)
  {
    Decimal.Digit(Digit(data).value)
  }

  /** Any fields in the alphabet, printed with their computed digits, make a line that
      passes until it expires: no check asks for more than the digits. */
  lemma ComputedDigitsPass(doc: string, nation: string, birth: string, sex: char, expiry: string, personal: string, today: Date)
    requires |doc| == 9 && |nation| == 3 && |birth| == 6 && |expiry| == 6 && |personal| == 14
    requires AllKnown(doc) && AllKnown(birth) && AllKnown(expiry) && AllKnown(personal)
    ensures var d1, d2, d3, d4 := Computed(doc), Computed(birth), Computed(expiry), Computed(personal);
      var whole := Whole(doc, d1, birth, d2, expiry, d3, personal, d4);
      AllKnown(whole)
      && var l2 := Line(doc, d1, nation, birth, d2, sex, expiry, d3, personal, d4, Computed(whole));
        |l2| == 44 && Td3Status(l2, today) == if Expired(expiry, today) then Review else Passed
  {
    var d1, d2, d3, d4 := Computed(doc), Computed(birth), Computed(expiry), Computed(personal);
    var whole := Whole(doc, d1, birth, d2, expiry, d3, personal, d4);
    LineParts(doc, d1, nation, birth, d2, sex, expiry, d3, personal, d4, Computed(whole));
    hide Good, AllFiller, Td3Composite, Line, Expired, Digit;
  }

  // ---------------------------------------------------------------- altered readings

  /** The character's value modulo 10 tells it from the one it replaces, or it is not in the
      alphabet at all. */
  predicate Differs(c: char, d: char) { !Mrz.Known(c) || (Mrz.Known(d) && Value(c) % 10 != Value(d) % 10) }

  lemma ReplacedNotGood(data: string, k: nat, c: char, digit: char)
    requires k < |data| && Good(data, digit) && Differs(c, data[k])
    ensures !Good(data[k := c], digit)
  {
    if Mrz.Known(c) {
      SubstitutionDetectedIff(data, k, c);
    } else {
      assert data[k := c][k] == c;
    }
  }

  lemma SwappedNotGood(data: string, k: nat, digit: char)
    requires k + 1 < |data| && Good(data, digit) && Value(data[k]) % 5 != Value(data[k + 1]) % 5
    ensures !Good(Swapped(data, k, k + 1), digit)
  {
    SwapDetectedIff(data, k, k + 1);
  }

  /** Positions of a passport's second line that the composite covers. */
  predicate Td3Covered(k: nat) { k < 10 || 13 <= k < 20 || 21 <= k < 43 }

  function Td3Index(k: nat): nat
    requires Td3Covered(k)
  {
    if k < 10 then k else if k < 20 then k - 3 else k - 4
  }

  lemma Td3CompositeReplaced(l2: string, k: nat, c: char)
    requires |l2| == 44 && Td3Covered(k)
    ensures Td3Composite(l2)[Td3Index(k)] == l2[k]
    ensures Td3Composite(l2[k := c]) == Td3Composite(l2)[Td3Index(k) := c]
  {
    var a, b := Td3Composite(l2[k := c]), Td3Composite(l2)[Td3Index(k) := c];
    assert forall i :: 0 <= i < 10 ==> a[i] == l2[k := c][i] && Td3Composite(l2)[i] == l2[i];
    assert forall i :: 10 <= i < 17 ==> a[i] == l2[k := c][i + 3] && Td3Composite(l2)[i] == l2[i + 3];
    assert forall i :: 17 <= i < 39 ==> a[i] == l2[k := c][i + 4] && Td3Composite(l2)[i] == l2[i + 4];
  }

  /** A sound passport reading with one character of the covered positions replaced by one
      of another value modulo 10, or of no value, fails. */
  lemma Td3SubstitutionFails(l2: string, k: nat, c: char, today: Date)
    requires |l2| == 44 && (k < 10 || 13 <= k < 20 || 21 <= k < 43) && Td3Status(l2, today) != Failed && Differs(c, l2[k])
    ensures Td3Status(l2[k := c], today) == Failed
  {
    hide Good, AllFiller, Expired;
    Td3CompositeReplaced(l2, k, c);
    ReplacedNotGood(Td3Composite(l2), Td3Index(k), c, l2[43]);
  }

  /** Neighbours of the covered positions changing places fail the reading when their values
      differ modulo 5. */
  lemma Td3SwapFails(l2: string, k: nat, today: Date)
    requires |l2| == 44 && (k < 9 || 13 <= k < 19 || 21 <= k < 42) && Td3Status(l2, today) != Failed
    requires Mrz.Known(l2[k]) && Mrz.Known(l2[k + 1]) && Value(l2[k]) % 5 != Value(l2[k + 1]) % 5
    ensures Td3Status(Swapped(l2, k, k + 1), today) == Failed
  {
    var first, i := l2[k := l2[k + 1]], Td3Index(k);
    Td3CompositeReplaced(l2, k, l2[k + 1]);
    Td3CompositeReplaced(l2, k + 1, l2[k]);
    Td3CompositeReplaced(first, k + 1, l2[k]);
    hide Good, AllFiller, Expired, Td3Composite;
    var whole := Td3Composite(l2);
    assert whole[i] == l2[k] && whole[i + 1] == l2[k + 1];
    assert Td3Composite(Swapped(l2, k, k + 1)) == Swapped(whole, i, i + 1);
    WholeSwapped(whole, i, l2[43]);
  }

  lemma WholeSwapped(whole: string, i: nat, digit: char)
    requires i + 1 < |whole| && Good(whole, digit) && Mrz.Known(whole[i]) && Mrz.Known(whole[i + 1])
    requires Value(whole[i]) % 5 != Value(whole[i + 1]) % 5
    ensures !Good(Swapped(whole, i, i + 1), digit)
  {
    SwappedNotGood(whole, i, digit);
  }

  /** The composite digit itself: any other digit's value fails the reading, and so does
      anything that is no digit and no filler. */
  lemma Td3DigitFails(l2: string, c: char, today: Date)
    requires |l2| == 44 && Td3Status(l2, today) != Failed && (!(Decimal.IsDigit(c) || c == '<') || Value(c) != Value(l2[43]))
    ensures Td3Status(l2[43 := c], today) == Failed
  {
    assert Td3Composite(l2[43 := c]) == Td3Composite(l2);
  }

  lemma SameValueSameGood(data: string, k: nat, c: char, digit: char)
    requires k < |data| && Mrz.Known(c) && Mrz.Known(data[k]) && Value(c) % 10 == Value(data[k]) % 10
    ensures Good(data[k := c], digit) == Good(data, digit)
  {
    if AllKnown(data) {
      SubstitutionDetectedIff(data, k, c);
    } else {
      var i :| 0 <= i < |data| && !Mrz.Known(data[i]);
      assert !Mrz.Known(data[k := c][i]);
    }
  }

  /** In the document number the checks find a substitution exactly when it changes the
      value modulo 10: '0' for 'A', 'K' or 'U', '1' for 'B', 'L' or 'V', and so on, go by. */
  lemma DocNumberSubstitutionIff(l2: string, k: nat, c: char, today: Date)
    requires |l2| == 44 && k < 9 && Td3Status(l2, today) != Failed
    ensures Mrz.Known(l2[k])
    ensures Td3Status(l2[k := c], today) == if Differs(c, l2[k]) then Failed else Td3Status(l2, today)
  {
    assert l2[k] == l2[0..9][k];
    if Differs(c, l2[k]) {
      Td3SubstitutionFails(l2, k, c, today);
    } else {
      var m := l2[k := c];
      assert m[0..9] == l2[0..9][k := c];
      assert m[13..19] == l2[13..19] && m[21..27] == l2[21..27] && m[28..42] == l2[28..42];
      Td3CompositeReplaced(l2, k, c);
      hide Good, AllFiller, Expired, Td3Composite;
      SameValueSameGood(l2[0..9], k, c, l2[9]);
      SameValueSameGood(Td3Composite(l2), k, c, l2[43]);
    }
  }

  /** Nationality and sex are outside every check: no change there is found. */
  lemma UncoveredUnchecked(l2: string, k: nat, c: char, today: Date)
    requires |l2| == 44 && (10 <= k < 13 || k == 20)
    ensures Td3Status(l2[k := c], today) == Td3Status(l2, today)
  {
    var m := l2[k := c];
    assert m[0..9] == l2[0..9] && m[13..19] == l2[13..19] && m[21..27] == l2[21..27] && m[28..42] == l2[28..42];
    assert m[0..10] == l2[0..10] && m[13..20] == l2[13..20] && m[21..43] == l2[21..43];
  }

  // ---------------------------------------------------------------- the same for cards

  /** Positions of a card's lines that the composite covers, and where they are in it. */
  predicate Td1Covered(line: nat, k: nat) {
    if line == 0 then 5 <= k < 30 else line == 1 && (k < 7 || 8 <= k < 15 || 18 <= k < 29)
  }

  function Td1Index(line: nat, k: nat): nat
    requires Td1Covered(line, k)
  {
    if line == 0 then k - 5 else if k < 7 then k + 25 else if k < 15 then k + 24 else k + 21
  }

  lemma Td1CompositeReplaced(l1: string, l2: string, line: nat, k: nat, c: char)
    requires |l1| == |l2| == 30 && Td1Covered(line, k)
    ensures Td1Index(line, k) < |Td1Composite(l1, l2)|
    ensures Td1Composite(l1, l2)[Td1Index(line, k)] == if line == 0 then l1[k] else l2[k]
    ensures var m1, m2 := if line == 0 then l1[k := c] else l1, if line == 0 then l2 else l2[k := c];
      Td1Composite(m1, m2) == Td1Composite(l1, l2)[Td1Index(line, k) := c]
  {
    var m1, m2 := if line == 0 then l1[k := c] else l1, if line == 0 then l2 else l2[k := c];
    var a, b := Td1Composite(m1, m2), Td1Composite(l1, l2)[Td1Index(line, k) := c];
    Td1CompositeAt(l1, l2, Td1Index(line, k));
    hide Td1Composite;
    forall i | 0 <= i < 50 ensures |a| == 50 && a[i] == b[i] {
      Td1CompositeAt(l1, l2, i);
      Td1CompositeAt(m1, m2, i);
    }
  }

  lemma Td1SubstitutionFails(l1: string, l2: string, line: nat, k: nat, c: char, today: Date)
    requires |l1| == |l2| == 30 && (if line == 0 then 5 <= k < 30 else line == 1 && (k < 7 || 8 <= k < 15 || 18 <= k < 29))
    requires Td1Status(l1, l2, today) != Failed
    requires Differs(c, if line == 0 then l1[k] else l2[k])
    ensures Td1Status(if line == 0 then l1[k := c] else l1, if line == 0 then l2 else l2[k := c], today) == Failed
  {
    hide Good, Expired, Td1Composite;
    Td1CompositeReplaced(l1, l2, line, k, c);
    ReplacedNotGood(Td1Composite(l1, l2), Td1Index(line, k), c, l2[29]);
  }

  lemma Td1SwapFails(l1: string, l2: string, line: nat, k: nat, today: Date)
    requires |l1| == |l2| == 30 && (if line == 0 then 5 <= k < 29 else line == 1 && (k < 6 || 8 <= k < 14 || 18 <= k < 28))
    requires Td1Status(l1, l2, today) != Failed
    requires var l := if line == 0 then l1 else l2;
      Mrz.Known(l[k]) && Mrz.Known(l[k + 1]) && Value(l[k]) % 5 != Value(l[k + 1]) % 5
    ensures Td1Status(if line == 0 then Swapped(l1, k, k + 1) else l1, if line == 0 then l2 else Swapped(l2, k, k + 1), today) == Failed
  {
    var l, i, whole := if line == 0 then l1 else l2, Td1Index(line, k), Td1Composite(l1, l2);
    var m1, m2 := if line == 0 then l1[k := l[k + 1]] else l1, if line == 0 then l2 else l2[k := l[k + 1]];
    Td1CompositeReplaced(l1, l2, line, k, l[k + 1]);
    Td1CompositeReplaced(l1, l2, line, k + 1, l[k]);
    Td1CompositeReplaced(m1, m2, line, k + 1, l[k]);
    hide Good, Expired, Td1Composite;
    assert whole[i] == l[k] && whole[i + 1] == l[k + 1];
    WholeSwapped(whole, i, l2[29]);
  }
}
