/** What a reading's status means in terms of the printed fields, the calendar and the day. */
module DocumentsMeaning {
  import opened Basics
  import Decimal
  import opened Mrz
  import opened Documents

  // ---------------------------------------------------------------- the printed fields

  /** The digit printed after a field is the computed one, or a filler where that is zero. */
  predicate Printed(data: string, c: char) {
    AllKnown(data) && (('0' <= c <= '9' && Digit(data) == Some((c - '0') as nat)) || (c == '<' && Digit(data) == Some(0)))
  }

  lemma GoodIsPrinted(data: string, c: char)
    ensures Documents.Good(data, c) <==> Printed(data, c)
  {
    if '0' <= c <= '9' {
      assert Value(c) == (c - '0') as nat;
    }
  }

  /** A passport's second line, by its printed fields: it fails unless the four fields and
      the whole without nationality and sex carry their digits, an empty personal number
      needing none; then the expiry decides. */
  lemma PassportRead(doc: string, d1: char, nation: string, birth: string, d2: char, sex: char, expiry: string, d3: char,
                     personal: string, d4: char, d5: char, today: Date)
    requires |doc| == 9 && |nation| == 3 && |birth| == 6 && |expiry| == 6 && |personal| == 14
    ensures var l2 := doc + [d1] + nation + birth + [d2] + [sex] + expiry + [d3] + personal + [d4] + [d5];
      |l2| == 44
      && (Td3Status(l2, today) != Failed <==>
        && Printed(doc, d1) && Printed(birth, d2) && Printed(expiry, d3)
        && ((forall i :: 0 <= i < 14 ==> personal[i] == '<') || Printed(personal, d4))
        && Printed(doc + [d1] + birth + [d2] + expiry + [d3] + personal + [d4], d5))
      && (Td3Status(l2, today) == Passed <==> Td3Status(l2, today) != Failed && !Expired(expiry, today))
  {
    LineParts(doc, d1, nation, birth, d2, sex, expiry, d3, personal, d4, d5);
    GoodIsPrinted(doc, d1);
    GoodIsPrinted(birth, d2);
    GoodIsPrinted(expiry, d3);
    GoodIsPrinted(personal, d4);
    GoodIsPrinted(Whole(doc, d1, birth, d2, expiry, d3, personal, d4), d5);
    hide Documents.Good, Printed, Td3Composite, Expired;
  }

  lemma CardParts(head: string, doc: string, d1: char, more: string,
                  birth: string, d2: char, sex: char, expiry: string, d3: char, nation: string, optional: string, d4: char)
    requires |head| == 5 && |doc| == 9 && |more| == 15 && |birth| == 6 && |expiry| == 6 && |nation| == 3 && |optional| == 11
    ensures var l1, l2 := head + doc + [d1] + more, birth + [d2] + [sex] + expiry + [d3] + nation + optional + [d4];
      && |l1| == |l2| == 30 && l1[5..14] == doc && l1[14] == d1
      && l2[0..6] == birth && l2[6] == d2 && l2[8..14] == expiry && l2[14] == d3 && l2[29] == d4
      && Td1Composite(l1, l2) == doc + [d1] + more + birth + [d2] + expiry + [d3] + optional
  {
    var l1, l2 := head + doc + [d1] + more, birth + [d2] + [sex] + expiry + [d3] + nation + optional + [d4];
    assert l1[5..30] == doc + [d1] + more;
    assert l2[0..7] == birth + [d2] && l2[8..15] == expiry + [d3] && l2[18..29] == optional;
  }

  /** The two checked lines of a card, likewise. */
  lemma CardRead(head: string, doc: string, d1: char, more: string,
                 birth: string, d2: char, sex: char, expiry: string, d3: char, nation: string, optional: string, d4: char, today: Date)
    requires |head| == 5 && |doc| == 9 && |more| == 15 && |birth| == 6 && |expiry| == 6 && |nation| == 3 && |optional| == 11
    ensures var l1, l2 := head + doc + [d1] + more, birth + [d2] + [sex] + expiry + [d3] + nation + optional + [d4];
      |l1| == |l2| == 30
      && (Td1Status(l1, l2, today) != Failed <==>
        && Printed(doc, d1) && Printed(birth, d2) && Printed(expiry, d3)
        && Printed(doc + [d1] + more + birth + [d2] + expiry + [d3] + optional, d4))
      && (Td1Status(l1, l2, today) == Passed <==> Td1Status(l1, l2, today) != Failed && !Expired(expiry, today))
  {
    CardParts(head, doc, d1, more, birth, d2, sex, expiry, d3, nation, optional, d4);
    GoodIsPrinted(doc, d1);
    GoodIsPrinted(birth, d2);
    GoodIsPrinted(expiry, d3);
    GoodIsPrinted(doc + [d1] + more + birth + [d2] + expiry + [d3] + optional, d4);
    hide Documents.Good, Printed, Td1Composite, Expired;
  }

  // ---------------------------------------------------------------- the calendar

  /** The days there are: the months' lengths, and a leap day every fourth year. */
  lemma Calendar(d: Date)
    requires 2000 <= d.year < 2100 && 1 <= d.month <= 12
    ensures IsDay(d) <==> 1 <= d.day <= [31, if d.year % 4 == 0 then 29 else 28, 31, 30, 31, 30, 31, 31, 30, 31, 30, 31][d.month - 1]
  {
  }

  /** A document is past its day when today's number as year, month and day is greater. */
  lemma ExpiredIff(field: string, today: Date)
    requires 1 <= today.month <= 12 && 1 <= today.day <= 31
    ensures Expired(field, today) <==>
      exists d :: IsDay(d) && Field(d) == field && 10000 * d.year + 100 * d.month + d.day < 10000 * today.year + 100 * today.month + today.day
  {
    ExpiryRoundTrip(today, field);
    if ExpiryDate(field).Some? {
      ReadBack(field);
    }
    forall d | IsDay(d) && Field(d) == field ensures ExpiryDate(field) == Some(d) {
      ExpiryRoundTrip(d, field);
    }
  }

  /** What is read as a day is that day printed. */
  lemma ReadBack(s: string)
    requires ExpiryDate(s).Some?
    ensures IsDay(ExpiryDate(s).value) && Field(ExpiryDate(s).value) == s
  {
    PairPrinted(s, 0);
    PairPrinted(s, 2);
    PairPrinted(s, 4);
    assert s == s[0..2] + s[2..4] + s[4..6];
  }

  lemma PairPrinted(s: string, i: nat)
    requires i + 1 < |s| && Decimal.IsDigit(s[i]) && Decimal.IsDigit(s[i + 1])
    ensures 0 <= Pair(s, i) < 100 && Decimal.Padded(Pair(s, i), 2) == s[i..i + 2]
  {
    var n := Pair(s, i);
    DigitBack(s[i]);
    DigitBack(s[i + 1]);
    assert s[i..i + 2] == [s[i], s[i + 1]];
    if n < 10 {
      assert Decimal.Zeros(1) == "0";
    } else {
      assert n / 10 == (s[i] - '0') as int && n % 10 == (s[i + 1] - '0') as int;
      assert Decimal.Digits(n / 10) == [s[i]];
    }
  }

  lemma DigitBack(c: char)
    requires Decimal.IsDigit(c)
    ensures Decimal.Digit((c - '0') as nat) == c
  {
  }

  // ---------------------------------------------------------------- what is stripped

  predicate AllBlank(s: string) { forall i :: 0 <= i < |s| ==> Blank(s[i]) }

  /** Blanks at either end go and nothing else does. */
  lemma {:induction false} StripEnds(front: string, s: string, back: string)
    requires AllBlank(front) && AllBlank(back) && s != "" && !Blank(s[0]) && !Blank(s[|s| - 1])
    ensures Strip(front + s + back) == s
    decreases |front| + |back|
  {
    var all := front + s + back;
    if front != "" {
      assert all[1..] == front[1..] + s + back;
      StripEnds(front[1..], s, back);
    } else if back != "" {
      assert all[0] == s[0] && all[|all| - 1] == back[|back| - 1];
      assert all[..|all| - 1] == front + s + back[..|back| - 1];
      StripEnds(front, s, back[..|back| - 1]);
    } else {
      assert all == s;
    }
  }

  lemma {:induction false} StripBlank(s: string)
    requires AllBlank(s)
    ensures Strip(s) == ""
  {
    if s != "" {
      StripBlank(s[1..]);
    }
  }

  /** The white space that goes. */
  lemma BlankIff(c: char)
    ensures Blank(c) <==> c as int in {9, 10, 11, 12, 13, 28, 29, 30, 31, 32, 0x85, 0xA0, 0x1680, 0x2000, 0x2001, 0x2002, 0x2003, 0x2004,
                                       0x2005, 0x2006, 0x2007, 0x2008, 0x2009, 0x200A, 0x2028, 0x2029, 0x202F, 0x205F, 0x3000}
  {
  }

  lemma {:induction false} CleanedJoin(a: seq<string>, b: seq<string>)
    ensures Cleaned(a + b) == Cleaned(a) + Cleaned(b)
  {
    if a == [] {
      assert a + b == b;
    } else {
      CleanedJoin(a[1..], b);
      assert (a + b)[1..] == a[1..] + b;
    }
  }

  /** Cleaning a reading: line by line, an empty or blank one goes and of any other what is
      left is the text between its blanks, with its letters raised. */
  lemma CleanedIs(before: seq<string>, line: string, after: seq<string>, front: string, s: string, back: string)
    requires line == front + s + back && AllBlank(front) && AllBlank(back) && (s != "" ==> !Blank(s[0]) && !Blank(s[|s| - 1]))
    ensures Cleaned([]) == []
    ensures Cleaned(before + [line] + after)
      == Cleaned(before)
        + (if s == "" then [] else [seq(|s|, i requires 0 <= i < |s| => if 'a' <= s[i] <= 'z' then s[i] - 32 as char else s[i])])
        + Cleaned(after)
  {
    CleanedJoin(before + [line], after);
    CleanedJoin(before, [line]);
    if s == "" {
      StripBlank(line);
    } else {
      StripEnds(front, s, back);
      assert UpperAll(s) == seq(|s|, i requires 0 <= i < |s| => if 'a' <= s[i] <= 'z' then s[i] - 32 as char else s[i]);
    }
    assert [line][1..] == [];
  }
}
