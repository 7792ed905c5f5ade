/** Decimal numbers as text. */
module Decimal {
  predicate IsDigit(c: char) { '0' <= c <= '9' }

  predicate AllDigits(s: string) { forall i :: 0 <= i < |s| ==> IsDigit(s[i]) }

  function Digit(d: nat): char
    requires d < 10
  {
    "0123456789"[d]
  }

  function Digits(n: nat): string { if n < 10 then [Digit(n)] else Digits(n / 10) + [Digit(n % 10)] }

  function Number(s: string): nat
    requires AllDigits(s)
  {
    if s == "" then 0 else 10 * Number(s[..|s| - 1]) + (s[|s| - 1] as int - '0' as int)
  }

  lemma {:induction false} DigitsBack(n: nat)
    ensures Digits(n) != "" && AllDigits(Digits(n)) && Number(Digits(n)) == n
  {
    if n >= 10 {
      DigitsBack(n / 10);
      assert Digits(n)[..|Digits(n)| - 1] == Digits(n / 10);
    } else {
      assert Digits(n)[..0] == "";
    }
  }

  /** A number below a power of ten prints in that many digits at most. */
  lemma {:induction false} DigitsFit(n: nat, width: nat)
    requires width > 0 && n < Ten(width)
    ensures |Digits(n)| <= width
    decreases width
  {
    if n >= 10 {
      DigitsFit(n / 10, width - 1);
    }
  }

  function Ten(k: nat): nat { if k == 0 then 1 else 10 * Ten(k - 1) }

  function Zeros(k: nat): string { seq(k, _ => '0') }

  /** Padding with leading zeros to a width. */
  function Padded(n: nat, width: nat): string {
    if |Digits(n)| < width then Zeros(width - |Digits(n)|) + Digits(n) else Digits(n)
  }

  lemma {:induction false} ZerosWeighNothing(k: nat, s: string)
    requires AllDigits(s)
    ensures AllDigits(Zeros(k) + s) && Number(Zeros(k) + s) == Number(s)
    decreases |s| + k
  {
    if s != "" {
      ZerosWeighNothing(k, s[..|s| - 1]);
      assert (Zeros(k) + s)[..k + |s| - 1] == Zeros(k) + s[..|s| - 1];
    } else if k > 0 {
      ZerosWeighNothing(k - 1, "");
      assert Zeros(k) + "" == Zeros(k) && Zeros(k)[..k - 1] == Zeros(k - 1) + "";
    }
  }

  /** Padding fills the width exactly and keeps the number. */
  lemma PaddedBack(n: nat, width: nat)
    requires width > 0 && n < Ten(width)
    ensures |Padded(n, width)| == width && AllDigits(Padded(n, width)) && Number(Padded(n, width)) == n
  {
    hide Digits, Number, Ten, AllDigits;
    DigitsFit(n, width);
    DigitsBack(n);
    ZerosWeighNothing(width - |Digits(n)|, Digits(n));
    assert Zeros(0) + Digits(n) == Digits(n);
  }
}
