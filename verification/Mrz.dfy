/** Machine-readable zones: the 7-3-1 check digit and the TD3 and TD1 readings that rest on
    it (section 4.9 of ICAO Doc 9303 Part 3). Text is ASCII. */
module Mrz {
  import opened Basics
  import Decimal

  // ---------------------------------------------------------------- check digits

  predicate Known(c: char) { '0' <= Upper(c) <= '9' || 'A' <= Upper(c) <= 'Z' || c == '<' }

  function Value(c: char): nat
    requires Known(c)
  {
    var u := Upper(c);
    if c == '<' then 0 else if u <= '9' then (u - '0') as nat else (u - 'A') as nat + 10
  }

  predicate AllKnown(data: string) { forall i :: 0 <= i < |data| ==> Known(data[i]) }

  function Weight(i: nat): nat { if i % 3 == 0 then 7 else if i % 3 == 1 then 3 else 1 }

  function Total(data: string, n: nat): nat
    requires n <= |data| && AllKnown(data)
  {
    if n == 0 then 0 else Total(data, n - 1) + Value(data[n - 1]) * Weight(n - 1)
  }

  /** None stands for the ValueError a character outside the alphabet raises. */
  function Digit(data: string): Option<nat> { if AllKnown(data) then Some(Total(data, |data|) % 10) else None }

  method CheckDigit(data: string) returns (r: Option<nat>)
    ensures r == Digit(data)
  {
    var total := 0;
    for i := 0 to |data|
      invariant forall k :: 0 <= k < i ==> Known(data[k])
      invariant AllKnown(data) ==> total == Total(data, i)
    {
      if !Known(data[i]) {
        return None;
      }
      total := total + Value(data[i]) * Weight(i);
    }
    return Some(total % 10);
  }

  // ---------------------------------------------------------------- what a check digit is

  const ALPHABET := "0123456789ABCDEFGHIJKLMNOPQRSTUVWXYZ"

  /** A character is worth its place among the digits and letters, in either case, and the
      filler nothing; nothing else is read. */
  lemma ValueIsPlace(c: char, v: nat)
    ensures Known(c) && Value(c) == v <==> (c == '<' && v == 0) || (v < 36 && ALPHABET[v] == Upper(c))
  {
    Numerals(v);
    Letters(v);
  }

  lemma Numerals(v: nat)
    ensures v < 10 ==> ALPHABET[v] == '0' + v as char
  {
  }

  lemma Letters(v: nat)
    ensures 10 <= v < 36 ==> ALPHABET[v] == 'A' + (v - 10) as char
  {
  }

  lemma {:induction false} SamePrefix(data: string, c: char, n: nat)
    requires n <= |data| && AllKnown(data) && Known(c)
    ensures AllKnown(data + [c]) && Total(data + [c], n) == Total(data, n)
  {
    if n > 0 {
      SamePrefix(data, c, n - 1);
    }
  }

  lemma NextDigit(data: string, c: char)
    requires AllKnown(data) && Known(c)
    ensures Digit(data).Some? && Digit(data + [c]) == Some((Digit(data).value + Weight(|data|) * Value(c)) % 10)
  {
    SamePrefix(data, c, |data|);
    ModPlus(Total(data, |data|), Value(c) * Weight(|data|));
  }

  lemma ModPlus(t: int, x: int)
    ensures (t % 10 + x) % 10 == (t + x) % 10
  {
  }

  lemma NextOfThree(data: string, c: char, w: nat)
    requires AllKnown(data) && Known(c) && w == (if |data| % 3 == 0 then 7 else if |data| % 3 == 1 then 3 else 1)
    ensures Digit(data).Some? && Digit(data + [c]) == Some((Digit(data).value + w * Value(c)) % 10)
  {
    NextDigit(data, c);
  }

  lemma ModTwice(d: int, a: int, b: int, c: int)
    ensures ((d + a) % 10 + b) % 10 == (d + a + b) % 10
    ensures ((d + a + b) % 10 + c) % 10 == (d + a + b + c) % 10
  {
    ModPlus(d + a, b);
    ModPlus(d + a + b, c);
  }

  /** Three more characters, after a multiple of three, add seven times the first, three times
      the second and the third itself. */
  lemma DigitByThrees(data: string, x: char, y: char, z: char)
    requires |data| % 3 == 0 && AllKnown(data) && Known(x) && Known(y) && Known(z)
    ensures Digit("") == Some(0) && Digit(data).Some?
    ensures Digit(data + [x]) == Some((Digit(data).value + 7 * Value(x)) % 10)
    ensures Digit(data + [x, y]) == Some((Digit(data).value + 7 * Value(x) + 3 * Value(y)) % 10)
    ensures Digit(data + [x, y, z]) == Some((Digit(data).value + 7 * Value(x) + 3 * Value(y) + Value(z)) % 10)
  {
    assert AllKnown(data + [x]) && AllKnown(data + [x] + [y]);
    assert Digit("") == Some(0);
    assert data + [x] + [y] == data + [x, y] && data + [x] + [y] + [z] == data + [x, y, z];
    NextOfThree(data, x, 7);
    NextOfThree(data + [x], y, 3);
    NextOfThree(data + [x] + [y], z, 1);
    hide *;
    ModTwice(Digit(data).value, 7 * Value(x), 3 * Value(y), Value(z));
  }

  /** The digits of the standard's two examples (section 4.9). */
  lemma WorkedDigits()
    ensures Digit("520727") == Some(3) && Digit("AB2134<<<") == Some(5)
  {
    Numerical();
    Alphanumerical();
  }

  lemma Numerical()
    ensures Digit("520727") == Some(3)
  {
    assert AllKnown("520") && Value('5') == 5 && Value('2') == 2 && Value('0') == 0 && Value('7') == 7;
    assert "" + ['5', '2', '0'] == "520" && "520" + ['7', '2', '7'] == "520727";
    hide *;
    DigitByThrees("", '5', '2', '0');
    DigitByThrees("520", '7', '2', '7');
  }

  lemma Alphanumerical()
    ensures Digit("AB2134<<<") == Some(5)
  {
    assert AllKnown("AB2134") && Value('A') == 10 && Value('B') == 11 && Value('2') == 2;
    assert Value('1') == 1 && Value('3') == 3 && Value('4') == 4 && Value('<') == 0;
    assert "" + ['A', 'B', '2'] == "AB2" && "AB2" + ['1', '3', '4'] == "AB2134" && "AB2134" + ['<', '<', '<'] == "AB2134<<<";
    assert AllKnown("AB2");
    hide *;
    DigitByThrees("", 'A', 'B', '2');
    DigitByThrees("AB2", '1', '3', '4');
    DigitByThrees("AB2134", '<', '<', '<');
  }

  // ---------------------------------------------------------------- what a check digit detects

  lemma {:induction false} TotalReplaced(data: string, k: nat, c: char, n: nat)
    requires k < |data| && n <= |data| && AllKnown(data) && Known(c)
    ensures Total(data[k := c], n)
      == Total(data, n) + (if k < n then Value(c) * Weight(k) - Value(data[k]) * Weight(k) else 0)
  {
    if n > 0 {
      TotalReplaced(data, k, c, n - 1);
    }
  }

  lemma TensDrop(q: int, x: int)
    ensures (10 * q + x) % 10 == x % 10
  {
  }

  lemma SmallMultiples(r: int)
    requires 0 <= r < 10
    ensures (7 * r) % 10 == 0 <==> r == 0
    ensures (3 * r) % 10 == 0 <==> r == 0
  {
    if r > 0 {
      assert r in {1, 2, 3, 4, 5, 6, 7, 8, 9};
    }
  }

  lemma UnitMultiples(d: int)
    ensures (d * 7) % 10 == 0 <==> d % 10 == 0
    ensures (d * 3) % 10 == 0 <==> d % 10 == 0
  {
    var q, r := d / 10, d % 10;
    SmallMultiples(r);
    TensDrop(7 * q, 7 * r);
    TensDrop(3 * q, 3 * r);
    assert d == 10 * q + r;
    assert d * 7 == 10 * (7 * q) + 7 * r && d * 3 == 10 * (3 * q) + 3 * r;
  }

  lemma UnitWeight(k: nat, a: int, b: int, t: int)
    ensures (t + a * Weight(k) - b * Weight(k)) % 10 == t % 10 <==> (a - b) % 10 == 0
  {
    var w := Weight(k);
    assert w in {7, 3, 1};
    UnitMultiples(a - b);
    AddTen(t, (a - b) * w);
    assert t + a * w - b * w == t + (a - b) * w;
    hide Weight;
  }

  /** One substituted character changes the digit exactly when the values differ modulo 10. */
  lemma SubstitutionDetectedIff(data: string, k: nat, c: char)
    requires k < |data| && AllKnown(data) && Known(c)
    ensures Digit(data[k := c]) != Digit(data) <==> Value(c) % 10 != Value(data[k]) % 10
  {
    TotalReplaced(data, k, c, |data|);
    UnitWeight(k, Value(c), Value(data[k]), Total(data, |data|));
    ModTen(Value(c), Value(data[k]));
    hide Value, Weight, Total;
  }

  lemma ModTen(a: int, b: int)
    ensures (a - b) % 10 == 0 <==> a % 10 == b % 10
  {
  }

  function Swapped(data: string, i: nat, j: nat): string
    requires i < j < |data|
  {
    data[i := data[j]][j := data[i]]
  }

  lemma TotalSwapped(data: string, i: nat, j: nat)
    requires i < j < |data| && AllKnown(data)
    ensures AllKnown(Swapped(data, i, j))
    ensures Total(Swapped(data, i, j), |data|)
      == Total(data, |data|) + (Value(data[j]) - Value(data[i])) * (Weight(i) - Weight(j))
  {
    var first := data[i := data[j]];
    TotalReplaced(data, i, data[j], |data|);
    TotalReplaced(first, j, data[i], |data|);
    Distribute(Value(data[j]), Value(data[i]), Weight(i), Weight(j));
  }

  lemma Distribute(a: int, b: int, v: int, w: int)
    ensures (a - b) * (v - w) == a * v - b * v + b * w - a * w
  {
  }

  lemma AddTen(t: int, x: int)
    ensures (t + x) % 10 == t % 10 <==> x % 10 == 0
  {
  }

  lemma SmallEvens(r: int)
    requires 0 <= r < 5
    ensures (4 * r) % 10 == 0 <==> r == 0
    ensures (2 * r) % 10 == 0 <==> r == 0
    ensures (6 * r) % 10 == 0 <==> r == 0
  {
    if r > 0 {
      assert r in {1, 2, 3, 4};
    }
  }

  lemma Multiples(d: int)
    ensures (d * 4) % 10 == 0 <==> d % 5 == 0
    ensures (d * 2) % 10 == 0 <==> d % 5 == 0
    ensures (d * 6) % 10 == 0 <==> d % 5 == 0
  {
    var q, r := d / 5, d % 5;
    SmallEvens(r);
    TensDrop(2 * q, 4 * r);
    TensDrop(q, 2 * r);
    TensDrop(3 * q, 6 * r);
    assert d == 5 * q + r;
    assert d * 4 == 10 * (2 * q) + 4 * r && d * 2 == 10 * q + 2 * r && d * 6 == 10 * (3 * q) + 6 * r;
  }

  lemma Negated(x: int)
    ensures (-x) % 10 == 0 <==> x % 10 == 0
  {
  }

  /** Weights at a distance of a multiple of 3 agree; others differ by an even number that
      is no multiple of 5. */
  lemma EvenDifference(i: nat, j: nat, d: int, t: int)
    requires i < j
    ensures (t + d * (Weight(i) - Weight(j))) % 10 == t % 10 <==> (j - i) % 3 == 0 || d % 5 == 0
  {
    var w := Weight(i) - Weight(j);
    assert (j - i) % 3 == 0 <==> i % 3 == j % 3;
    assert w in {0, 4, -4, 2, -2, 6, -6} && (w == 0 <==> i % 3 == j % 3);
    AddTen(t, d * w);
    Multiples(d);
    if w < 0 {
      Negated(d * -w);
      assert -(d * -w) == d * w;
    }
    hide Weight;
  }

  /** Two characters changing places change the digit exactly when their distance is not a
      multiple of 3 and their values differ modulo 5; for neighbours, when they differ
      modulo 5. */
  lemma SwapDetectedIff(data: string, i: nat, j: nat)
    requires i < j < |data| && AllKnown(data)
    ensures Digit(Swapped(data, i, j)) != Digit(data) <==> (j - i) % 3 != 0 && Value(data[i]) % 5 != Value(data[j]) % 5
  {
    TotalSwapped(data, i, j);
    EvenDifference(i, j, Value(data[j]) - Value(data[i]), Total(data, |data|));
    ModFive(Value(data[j]), Value(data[i]));
  }

  lemma ModFive(a: int, b: int)
    ensures (a - b) % 5 == 0 <==> a % 5 == b % 5
  {
  }

  // ---------------------------------------------------------------- a field and its digit

  datatype Check = Good | Bad | Raised

  function DigitOk(data: string, c: char): Check {
    if c == '<' then
      (match Digit(data)
       case None => Raised
       case Some(d) => if d == 0 || (data != "" && forall i :: 0 <= i < |data| ==> data[i] == '<') then Good else Bad)
    else if !Decimal.IsDigit(c) then Bad
    else (match Digit(data) case None => Raised case Some(d) => if d == (c - '0') as nat then Good else Bad)
  }

  lemma {:induction false} FillersTotal(data: string, n: nat)
    requires n <= |data| && forall i :: 0 <= i < |data| ==> data[i] == '<'
    ensures Total(data, n) == 0
  {
    if n > 0 {
      FillersTotal(data, n - 1);
    }
  }

  /** A filler in the digit's place is accepted exactly where a zero would be. */
  lemma FillerIsZero(data: string)
    ensures DigitOk(data, '<') == DigitOk(data, '0')
  {
    if forall i :: 0 <= i < |data| ==> data[i] == '<' {
      FillersTotal(data, |data|);
    }
  }

  /** A field is good exactly when its digit is the one computed from it. */
  lemma GoodIff(data: string, c: char)
    ensures DigitOk(data, c) == Good <==> (Decimal.IsDigit(c) || c == '<') && Digit(data) == Some(Value(c))
  {
    FillerIsZero(data);
  }
}
