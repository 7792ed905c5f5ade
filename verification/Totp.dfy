/** Time-based one-time passwords: base32 (section 6 of RFC 4648), truncation (section 5.3 of
    RFC 4226) and the accepted time steps (section 4 of RFC 6238). */
module Totp {
  import opened Basics
  import opened Decimal

  const B32 := "ABCDEFGHIJKLMNOPQRSTUVWXYZ234567"

  type Bits = seq<bool>

  predicate Byte(b: nat) { b < 256 }

  predicate AllBytes(bytes: seq<nat>) { forall i :: 0 <= i < |bytes| ==> Byte(bytes[i]) }

  // ---------------------------------------------------------------- bit strings

  function Two(k: nat): nat { if k == 0 then 1 else 2 * Two(k - 1) }

  /** A number written in binary, padded to a width. */
  function Bin(n: nat, width: nat): (b: Bits)
    ensures |b| == width
  {
    if width == 0 then [] else Bin(n / 2, width - 1) + [n % 2 == 1]
  }

  /** A bit string read in binary. */
  function Val(bits: Bits): nat {
    if bits == [] then 0 else 2 * Val(bits[..|bits| - 1]) + (if bits[|bits| - 1] then 1 else 0)
  }

  lemma {:induction false} BinOfVal(bits: Bits)
    ensures Bin(Val(bits), |bits|) == bits && Val(bits) < Two(|bits|)
  {
    if bits != [] {
      var front := bits[..|bits| - 1];
      BinOfVal(front);
      assert Val(bits) / 2 == Val(front);
    }
  }

  lemma {:induction false} ValOfBin(n: nat, width: nat)
    requires n < Two(width)
    ensures Val(Bin(n, width)) == n
  {
    if width > 0 {
      ValOfBin(n / 2, width - 1);
      assert Bin(n, width)[..width - 1] == Bin(n / 2, width - 1);
    }
  }

  /** The bits of a byte string, eight a byte. */
  function ByteBits(bytes: seq<nat>): (b: Bits)
    ensures |b| == 8 * |bytes|
  {
    if bytes == [] then [] else ByteBits(bytes[..|bytes| - 1]) + Bin(bytes[|bytes| - 1], 8)
  }

  lemma {:induction false} ByteBitsAt(bytes: seq<nat>, i: nat)
    requires i < |bytes|
    ensures ByteBits(bytes)[8 * i..8 * i + 8] == Bin(bytes[i], 8)
    decreases |bytes|
  {
    var n := |bytes| - 1;
    var all, front := ByteBits(bytes), ByteBits(bytes[..n]);
    assert all == front + Bin(bytes[n], 8) && |front| == 8 * n;
    hide ByteBits;
    if i < n {
      ByteBitsAt(bytes[..n], i);
      assert all[8 * i..8 * i + 8] == front[8 * i..8 * i + 8];
    } else {
      assert all[8 * n..8 * n + 8] == Bin(bytes[n], 8);
    }
  }

  // ---------------------------------------------------------------- base32

  function Char(bits: Bits): char
    requires |bits| == 5
  {
    BinOfVal(bits);
    assert Two(5) == 32;
    B32[Val(bits)]
  }

  /** One character for every whole group of five bits; a shorter rest is dropped. */
  function Chars(bits: Bits): (s: string)
    ensures |s| == |bits| / 5
  {
    if |bits| < 5 then [] else [Char(bits[..5])] + Chars(bits[5..])
  }

  function Encode(bytes: seq<nat>): string { Chars(ByteBits(bytes)) }

  /** The encoding loop of generateTotpSecret. */
  method EncodeSecret(bytes: seq<nat>) returns (out: string)
    ensures out == Encode(bytes)
  {
    var bits: Bits := [];
    for k := 0 to |bytes|
      invariant bits == ByteBits(bytes[..k])
    {
      assert bytes[..k + 1][..k] == bytes[..k];
      bits := bits + Bin(bytes[k], 8);
    }
    assert bytes[..|bytes|] == bytes;
    out := "";
    var i := 0;
    while i + 5 <= |bits|
      invariant i <= |bits| && out + Chars(bits[i..]) == Chars(bits)
    {
      assert bits[i..][..5] == bits[i..i + 5] && bits[i..][5..] == bits[i + 5..];
      assert out + ([Char(bits[i..i + 5])] + Chars(bits[i + 5..])) == (out + [Char(bits[i..i + 5])]) + Chars(bits[i + 5..]);
      out := out + [Char(bits[i..i + 5])];
      i := i + 5;
    }
    assert out + [] == out;
  }

  function IndexOf(c: char): Option<nat> {
    if 'A' <= c <= 'Z' then Some((c - 'A') as nat) else if '2' <= c <= '7' then Some((c - '2') as nat + 26) else None
  }

  /** The alphabet's characters in order: the letters, then the digits from two. */
  function Symbol(i: nat): char
    requires i < 32
  {
    if i < 26 then 'A' + i as char else '2' + (i - 26) as char
  }

  lemma Alphabet(i: nat)
    requires i < 32
    ensures B32[i] == Symbol(i)
  {
    assert i < 16 ==> B32[i] == Symbol(i);
  }

  lemma IndexInverse(i: nat)
    requires i < 32
    ensures IndexOf(B32[i]) == Some(i)
  {
    Alphabet(i);
    hide B32;
  }

  function Unpadded(s: string): string { if s != "" && s[|s| - 1] == '=' then Unpadded(s[..|s| - 1]) else s }

  predicate InAlphabet(s: string) { forall i :: 0 <= i < |s| ==> IndexOf(Upper(s[i])).Some? }

  /** Five bits for every character. */
  function CharBits(s: string): (b: Bits)
    requires InAlphabet(s)
    ensures |b| == 5 * |s|
  {
    if s == "" then [] else CharBits(s[..|s| - 1]) + Bin(IndexOf(Upper(s[|s| - 1])).value, 5)
  }

  function Decode(secret: string): Option<seq<nat>> {
    var s := Unpadded(secret);
    if !InAlphabet(s) then None else Some(BytesOf(CharBits(s)))
  }

  /** One byte for every whole group of eight bits. */
  function BytesOf(bits: Bits): (r: seq<nat>)
    ensures |r| == |bits| / 8
  {
    seq(|bits| / 8, i requires 0 <= i < |bits| / 8 => Val(bits[8 * i..8 * i + 8]))
  }

  /** base32Decode; None stands for the error a character outside the alphabet raises. */
  method DecodeSecret(secret: string) returns (r: Option<seq<nat>>)
    ensures r == Decode(secret)
  {
    var s := Unpadded(secret);
    var bits: Bits := [];
    hide Val, Bin, Two;
    for k := 0 to |s|
      invariant InAlphabet(s[..k]) && bits == CharBits(s[..k])
    {
      var idx := IndexOf(Upper(s[k]));
      if idx.None? {
        return None;
      }
      assert s[..k + 1][..k] == s[..k];
      bits := bits + Bin(idx.value, 5);
    }
    assert s[..|s|] == s;
    var bytes := new nat[|bits| / 8];
    for i := 0 to bytes.Length
      invariant forall j :: 0 <= j < i ==> bytes[j] == BytesOf(bits)[j]
    {
      bytes[i] := Val(bits[i * 8..i * 8 + 8]);
    }
    assert bytes[..] == BytesOf(bits) && s == Unpadded(secret);
    return Some(bytes[..]);
  }

  lemma {:induction false} UnpaddedSame(s: string)
    requires s == "" || s[|s| - 1] != '='
    ensures Unpadded(s) == s
  {
  }

  lemma Fives(n: nat)
    requires n >= 5
    ensures n / 5 * 5 == 5 + (n - 5) / 5 * 5
  {
  }

  lemma TakeApart(bits: Bits, a: nat, b: nat)
    requires a + b <= |bits|
    ensures bits[..a + b] == bits[..a] + bits[a..][..b]
  {
  }

  lemma CharBack(bits: Bits)
    requires |bits| == 5
    ensures IndexOf(Upper(Char(bits))).Some? && Bin(IndexOf(Upper(Char(bits))).value, 5) == bits && Char(bits) != '='
  {
    BinOfVal(bits);
    assert Two(5) == 32;
    hide Val, Bin, Two;
    IndexInverse(Val(bits));
    Alphabet(Val(bits));
    hide B32;
  }

  lemma {:induction false} CharsBack(bits: Bits)
    ensures InAlphabet(Chars(bits)) && CharBits(Chars(bits)) == bits[..|bits| / 5 * 5]
    ensures forall i :: 0 <= i < |Chars(bits)| ==> Chars(bits)[i] != '='
    decreases |bits|
  {
    if |bits| >= 5 {
      CharsBack(bits[5..]);
      CharBack(bits[..5]);
      assert Chars(bits) == [Char(bits[..5])] + Chars(bits[5..]);
      hide Chars, Char, CharBits, Bin, IndexOf, Upper;
      CharBitsFront(Char(bits[..5]), Chars(bits[5..]));
      Fives(|bits|);
      TakeApart(bits, 5, (|bits| - 5) / 5 * 5);
    }
  }

  lemma {:induction false} CharBitsFront(c: char, s: string)
    requires IndexOf(Upper(c)).Some? && InAlphabet(s)
    ensures InAlphabet([c] + s) && CharBits([c] + s) == Bin(IndexOf(Upper(c)).value, 5) + CharBits(s)
  {
    var t := [c] + s;
    if s != "" {
      CharBitsFront(c, s[..|s| - 1]);
      assert t[..|t| - 1] == [c] + s[..|s| - 1];
    } else {
      assert t == [c] && t[..0] == "";
    }
  }

  /** Decoding an encoded byte string gives back its longest prefix of whole bytes within
      the encoded bits. */
  lemma DecodeEncode(bytes: seq<nat>)
    requires AllBytes(bytes)
    ensures Decode(Encode(bytes)) == Some(bytes[..8 * |bytes| / 5 * 5 / 8])
  {
    var bits, n := ByteBits(bytes), 8 * |bytes| / 5 * 5;
    CharsBack(bits);
    UnpaddedSame(Encode(bytes));
    var kept := bits[..n];
    var out := BytesOf(kept);
    forall i | 0 <= i < n / 8 ensures out[i] == bytes[i] {
      ByteBitsAt(bytes, i);
      assert kept[8 * i..8 * i + 8] == bits[8 * i..8 * i + 8];
      assert Two(8) == 256;
      ValOfBin(bytes[i], 8);
    }
    assert out == bytes[..n / 8] && CharBits(Encode(bytes)) == kept;
  }

  /** The round trip is whole exactly when the length is a multiple of five; the twenty-byte
      secrets the generator makes are. */
  lemma RoundTripIff(bytes: seq<nat>)
    requires AllBytes(bytes)
    ensures Decode(Encode(bytes)) == Some(bytes) <==> |bytes| % 5 == 0
  {
    DecodeEncode(bytes);
    var n := |bytes|;
    assert 8 * n / 5 * 5 / 8 == n <==> n % 5 == 0 by { FiveEighths(n); }
    assert bytes[..n] == bytes;
  }

  lemma FiveEighths(n: nat)
    ensures 8 * n / 5 * 5 / 8 == n <==> n % 5 == 0
  {
    var k, r := n / 5, n % 5;
    assert n == 5 * k + r && 8 * n / 5 == 8 * k + 8 * r / 5;
    if r == 0 {
      assert 8 * n / 5 * 5 == 8 * n;
    } else {
      assert 8 * r / 5 * 5 < 8 * r;
    }
  }

  // ---------------------------------------------------------------- codes

  const STEP_MS := 30000

  /** Every digest is twenty bytes. */
  predicate IsDigest(d: seq<nat>) { |d| == 20 && AllBytes(d) }

  /** HMAC-SHA-1 of a key and a message. */
  type Hmac = (seq<nat>, seq<nat>) -> seq<nat>

  ghost predicate IsHmac(hmac: Hmac) { forall key, msg :: IsDigest(hmac(key, msg)) }

  function TwoTo64(): int { 0x1_0000_0000_0000_0000 }

  /** A counter as eight bytes, most significant first. */
  function BigEndian(n: nat, width: nat): (m: seq<nat>)
    ensures |m| == width && AllBytes(m)
  {
    if width == 0 then [] else BigEndian(n / 256, width - 1) + [n % 256]
  }

  function Message(counter: int): seq<nat> { BigEndian(counter % TwoTo64(), 8) }

  /** The four bytes a digest's last byte points at, with the sign bit cleared. */
  function Truncated(d: seq<nat>): nat
    requires IsDigest(d)
  {
    var o := d[19] % 16;
    (d[o] % 128) * 0x100_0000 + d[o + 1] * 0x1_0000 + d[o + 2] * 0x100 + d[o + 3]
  }

  function CodeOf(d: seq<nat>): string
    requires IsDigest(d)
  {
    Padded(Truncated(d) % 1000000, 6)
  }

  /** Truncation reads inside the digest, fits in 31 bits, and yields six digits that spell
      its last six decimal places. */
  lemma SixDigits(d: seq<nat>)
    requires IsDigest(d)
    ensures d[19] % 16 + 3 <= 18 && Truncated(d) < 0x8000_0000
    ensures |CodeOf(d)| == 6 && AllDigits(CodeOf(d)) && Number(CodeOf(d)) == Truncated(d) % 1000000
  {
    var o := d[19] % 16;
    assert Byte(d[o]) && Byte(d[o + 1]) && Byte(d[o + 2]) && Byte(d[o + 3]);
    assert Ten(6) == 1000000;
    PaddedBack(Truncated(d) % 1000000, 6);
  }

  /** The truncated number is those four bytes read most significant first, less the sign
      bit. */
  lemma TruncatedIsBigEndian(d: seq<nat>)
    requires IsDigest(d)
    ensures var o := d[19] % 16;
      BigEndian(Truncated(d) + d[o] / 128 * 0x8000_0000, 4) == d[o..o + 4]
  {
    var o := d[19] % 16;
    var a, b, c, e := d[o], d[o + 1], d[o + 2], d[o + 3];
    assert Byte(a) && Byte(b) && Byte(c) && Byte(e);
    assert a == a / 128 * 128 + a % 128;
    var two, three, n := a * 256 + b, (a * 256 + b) * 256 + c, Truncated(d) + a / 128 * 0x8000_0000;
    FourBytes(a, b, c, e, two, three, n);
    assert d[o..o + 4] == [a, b, c, e];
  }

  lemma OneMoreByte(front: nat, bytes: seq<nat>, b: nat, n: nat, width: nat)
    requires Byte(b) && n == front * 256 + b && BigEndian(front, width) == bytes
    ensures BigEndian(n, width + 1) == bytes + [b]
  {
    assert n / 256 == front && n % 256 == b;
  }

  lemma FourBytes(a: nat, b: nat, c: nat, e: nat, two: nat, three: nat, four: nat)
    requires Byte(a) && Byte(b) && Byte(c) && Byte(e)
    requires two == a * 256 + b && three == two * 256 + c && four == three * 256 + e
    ensures BigEndian(four, 4) == [a, b, c, e]
  {
    assert BigEndian(0, 0) == [];
    hide BigEndian, AllBytes;
    OneMoreByte(0, [], a, a, 0);
    OneMoreByte(a, [a], b, two, 1);
    OneMoreByte(two, [a, b], c, three, 2);
    OneMoreByte(three, [a, b, c], e, four, 3);
  }

  const EXAMPLE: seq<nat> :=
    [0x1f, 0x86, 0x98, 0x69, 0x0e, 0x02, 0xca, 0x16, 0x61, 0x85, 0x50, 0xef, 0x7f, 0x19, 0xda, 0x8e, 0x94, 0x5b, 0x55, 0x5a]

  lemma ExampleTruncated()
    ensures IsDigest(EXAMPLE) && Truncated(EXAMPLE) == 0x50ef7f19
  {
  }

  lemma ExampleDigits()
    ensures Digits(872921) == "872921"
  {
    assert Digits(872) == "872";
    assert Digits(87292) == "87292";
  }

  /** The worked example of section 5.4 of RFC 4226. */
  lemma WorkedExample()
    ensures IsDigest(EXAMPLE) && CodeOf(EXAMPLE) == "872921"
  {
    ExampleTruncated();
    ExampleDigits();
    hide EXAMPLE, Truncated, IsDigest, Digits;
    assert 0x50ef7f19 % 1000000 == 872921;
  }

  function Counter(atMs: int): int { atMs / STEP_MS }

  function CodeFor(hmac: Hmac, key: seq<nat>, counter: int): string
    requires IsHmac(hmac)
  {
    CodeOf(hmac(key, Message(counter)))
  }

  /** totpCode; None stands for the error a malformed secret raises. */
  function TotpCode(hmac: Hmac, secret: string, atMs: int): Option<string>
    requires IsHmac(hmac)
  {
    match Decode(secret)
    case None => None
    case Some(key) => Some(CodeFor(hmac, key, Counter(atMs)))
  }

  function VerifyTotp(hmac: Hmac, secret: string, code: string, atMs: int): Option<bool>
    requires IsHmac(hmac)
  {
    match Decode(secret)
    case None => None
    case Some(key) =>
      Some(code == TotpCode(hmac, secret, atMs - STEP_MS).value || code == TotpCode(hmac, secret, atMs).value
        || code == TotpCode(hmac, secret, atMs + STEP_MS).value)
  }

  /** A code of one of three consecutive steps. */
  ghost predicate CodeAround(hmac: Hmac, key: seq<nat>, code: string, counter: int)
    requires IsHmac(hmac)
  {
    exists c :: counter - 1 <= c <= counter + 1 && code == CodeFor(hmac, key, c)
  }

  /** What is accepted at a moment: the codes of the step it lies in and of the two beside. */
  lemma AcceptedIff(hmac: Hmac, secret: string, code: string, atMs: int)
    requires IsHmac(hmac) && Decode(secret).Some?
    ensures VerifyTotp(hmac, secret, code, atMs) == Some(true) <==> CodeAround(hmac, Decode(secret).value, code, Counter(atMs))
  {
    hide CodeFor, Decode;
    var key, c := Decode(secret).value, Counter(atMs);
    StepBeside(atMs);
    assert VerifyTotp(hmac, secret, code, atMs) == Some(true)
      <==> (code == CodeFor(hmac, key, c - 1) || code == CodeFor(hmac, key, c) || code == CodeFor(hmac, key, c + 1));
    hide VerifyTotp, Counter;
    ThreeSteps(hmac, key, code, c);
  }

  lemma StepBeside(atMs: int)
    ensures Counter(atMs - STEP_MS) == Counter(atMs) - 1 && Counter(atMs + STEP_MS) == Counter(atMs) + 1
  {
  }

  lemma ThreeSteps(hmac: Hmac, key: seq<nat>, code: string, counter: int)
    requires IsHmac(hmac)
    ensures CodeAround(hmac, key, code, counter)
      <==> (code == CodeFor(hmac, key, counter - 1) || code == CodeFor(hmac, key, counter) || code == CodeFor(hmac, key, counter + 1))
  {
    hide CodeFor;
    if c :| counter - 1 <= c <= counter + 1 && code == CodeFor(hmac, key, c) {
      assert c == counter - 1 || c == counter || c == counter + 1;
    }
  }

  /** A code made at g is accepted at every moment within thirty seconds of g, before or
      after. */
  lemma AcceptedNearby(hmac: Hmac, secret: string, g: int, t: int)
    requires IsHmac(hmac) && Decode(secret).Some? && -STEP_MS <= t - g <= STEP_MS
    ensures VerifyTotp(hmac, secret, TotpCode(hmac, secret, g).value, t) == Some(true)
  {
    var code := TotpCode(hmac, secret, g).value;
    AcceptedIff(hmac, secret, code, t);
    hide CodeFor, Decode, VerifyTotp;
    assert Counter(t) - 1 <= Counter(g) <= Counter(t) + 1 && code == CodeFor(hmac, Decode(secret).value, Counter(g));
  }

  /** A minute or more away, it is accepted only if it happens to be the code of one of the
      three steps around that moment as well. */
  lemma AcceptedFarAway(hmac: Hmac, secret: string, g: int, t: int) returns (c: int)
    requires IsHmac(hmac) && Decode(secret).Some? && (t - g >= 2 * STEP_MS || g - t >= 2 * STEP_MS)
    requires VerifyTotp(hmac, secret, TotpCode(hmac, secret, g).value, t) == Some(true)
    ensures c != Counter(g) && Counter(t) - 1 <= c <= Counter(t) + 1
    ensures CodeFor(hmac, Decode(secret).value, c) == CodeFor(hmac, Decode(secret).value, Counter(g))
  {
    var code := TotpCode(hmac, secret, g).value;
    AcceptedIff(hmac, secret, code, t);
    hide CodeFor, Decode, VerifyTotp;
    c :| Counter(t) - 1 <= c <= Counter(t) + 1 && code == CodeFor(hmac, Decode(secret).value, c);
  }

  lemma {:induction false} BigEndianInjective(n: nat, m: nat, width: nat)
    requires BigEndian(n, width) == BigEndian(m, width) && n < Pow256(width) && m < Pow256(width)
    ensures n == m
    decreases width
  {
    if width > 0 {
      var a, b := BigEndian(n, width), BigEndian(m, width);
      assert a[..width - 1] == BigEndian(n / 256, width - 1) && b[..width - 1] == BigEndian(m / 256, width - 1);
      assert a[width - 1] == n % 256 && b[width - 1] == m % 256;
      BigEndianInjective(n / 256, m / 256, width - 1);
    }
  }

  function Pow256(k: nat): nat { if k == 0 then 1 else 256 * Pow256(k - 1) }

  lemma PowEight()
    ensures Pow256(8) == TwoTo64()
  {
    assert Pow256(2) == 0x1_0000;
    assert Pow256(4) == 0x1_0000_0000;
    assert Pow256(6) == 0x1_0000_0000_0000;
  }

  /** Different steps hash different messages. */
  lemma MessagesDiffer(a: int, b: int)
    requires 0 <= a < TwoTo64() && 0 <= b < TwoTo64()
    ensures Message(a) == Message(b) <==> a == b
  {
    hide BigEndian, Pow256;
    PowEight();
    if Message(a) == Message(b) {
      BigEndianInjective(a, b, 8);
    }
  }
}
