/** The texts, bytes and steps of a one-time password as numbers: what base32 writes, what
    is hashed for a step, and which step a moment lies in. */
module TotpNumbers {
  import opened Basics
  import opened Totp

  // ---------------------------------------------------------------- base32

  /** A character's place in the alphabet of section 6 of RFC 4648. */
  function Place(c: char): nat {
    if 'A' <= c <= 'Z' then c as nat - 'A' as nat else if '2' <= c <= '7' then c as nat - '2' as nat + 26 else 0
  }

  /** Text read as one number in base 32, most significant first. */
  function Base32(s: string): nat { if s == [] then 0 else 32 * Base32(s[..|s| - 1]) + Place(s[|s| - 1]) }

  /** Bytes read as one number, most significant first. */
  function FromBytes(bytes: seq<nat>): nat {
    if bytes == [] then 0 else 256 * FromBytes(bytes[..|bytes| - 1]) + bytes[|bytes| - 1]
  }

  lemma {:induction false} ValConcat(a: Bits, b: Bits)
    ensures Val(a + b) == Val(a) * Two(|b|) + Val(b)
    decreases |b|
  {
    if b == [] {
      assert a + [] == a;
    } else {
      var n := |b| - 1;
      assert (a + b)[..|a| + n] == a + b[..n] && (a + b)[|a| + n] == b[n];
      ValConcat(a, b[..n]);
      Doubled(Val(a), Two(n));
      ValStep(a + b);
      ValStep(b);
      hide Val;
    }
  }

  lemma ValStep(b: Bits)
    requires b != []
    ensures Val(b) == 2 * Val(b[..|b| - 1]) + (if b[|b| - 1] then 1 else 0)
  {
  }

  lemma Doubled(v: nat, p: nat)
    ensures v * (2 * p) == 2 * (v * p)
  {
  }

  lemma TwoEight()
    ensures Two(8) == 256
  {
    assert Two(4) == 16;
  }

  lemma AppendByte(a: Bits, byte: nat)
    requires byte < 256
    ensures Val(a + Bin(byte, 8)) == 256 * Val(a) + byte
  {
    TwoEight();
    hide Val, Bin, Two;
    ValConcat(a, Bin(byte, 8));
    ValOfBin(byte, 8);
  }

  lemma LastByte(bytes: seq<nat>)
    requires bytes != []
    ensures ByteBits(bytes) == ByteBits(bytes[..|bytes| - 1]) + Bin(bytes[|bytes| - 1], 8)
    ensures FromBytes(bytes) == 256 * FromBytes(bytes[..|bytes| - 1]) + bytes[|bytes| - 1]
  {
  }

  lemma {:induction false} ByteBitsVal(bytes: seq<nat>)
    requires AllBytes(bytes)
    ensures Val(ByteBits(bytes)) == FromBytes(bytes)
  {
    if bytes != [] {
      hide Val, ByteBits, FromBytes, Bin;
      assert Byte(bytes[|bytes| - 1]);
      ByteBitsVal(bytes[..|bytes| - 1]);
      LastByte(bytes);
      AppendByte(ByteBits(bytes[..|bytes| - 1]), bytes[|bytes| - 1]);
    } else {
      assert ByteBits(bytes) == [];
    }
  }

  lemma {:induction false} Base32Front(c: char, s: string)
    ensures Base32([c] + s) == Place(c) * Two(5 * |s|) + Base32(s)
  {
    if s == [] {
      assert ([c] + s)[..0] == [] && [c] + s == [c];
    } else {
      var n := |s| - 1;
      assert ([c] + s)[..n + 1] == [c] + s[..n] && ([c] + s)[n + 1] == s[n];
      Base32Front(c, s[..n]);
      FiveMore(5 * n);
      var p, q := Two(5 * n), Two(5 * n + 5);
      assert 32 * (Place(c) * p) == Place(c) * (32 * p);
      hide Base32, Two, Place;
    }
  }

  lemma FiveMore(k: nat)
    ensures Two(k + 5) == 32 * Two(k)
  {
    assert Two(k + 2) == 4 * Two(k);
    assert Two(k + 4) == 4 * Two(k + 2);
  }

  lemma CharPlace(bits: Bits)
    requires |bits| == 5
    ensures Place(Char(bits)) == Val(bits)
  {
    BinOfVal(bits);
    assert Two(5) == 32;
    Alphabet(Val(bits));
    hide B32, Val, Bin, Two;
  }

  lemma {:induction false} CharsNumber(bits: Bits)
    ensures Base32(Chars(bits)) == Val(bits[..|bits| / 5 * 5])
    decreases |bits|
  {
    if |bits| >= 5 {
      var m := (|bits| - 5) / 5 * 5;
      CharsNumber(bits[5..]);
      Base32Front(Char(bits[..5]), Chars(bits[5..]));
      CharPlace(bits[..5]);
      Fives(|bits|);
      TakeApart(bits, 5, m);
      ValConcat(bits[..5], bits[5..][..m]);
      assert 5 * |Chars(bits[5..])| == m;
      hide Base32, Val, Two, Place, Char;
    } else {
      assert bits[..0] == [];
    }
  }

  /** Encoding writes the byte string's number in base 32, less the bits of a last incomplete
      group. */
  lemma EncodeIsBase32(bytes: seq<nat>)
    requires AllBytes(bytes)
    ensures |Encode(bytes)| == 8 * |bytes| / 5 && Two(8 * |bytes| % 5) > 0
    ensures Base32(Encode(bytes)) == FromBytes(bytes) / Two(8 * |bytes| % 5)
    ensures forall i :: 0 <= i < |Encode(bytes)| ==> 'A' <= Encode(bytes)[i] <= 'Z' || '2' <= Encode(bytes)[i] <= '7'
  {
    var bits := ByteBits(bytes);
    hide Chars, Base32, FromBytes, Two, Val, ByteBits;
    ByteBitsVal(bytes);
    EncodedNumber(bits);
    InSymbols(bits);
    TwoPositive(|bits| % 5);
  }

  lemma {:induction false} TwoPositive(k: nat)
    ensures Two(k) > 0
  {
    if k > 0 {
      TwoPositive(k - 1);
    }
  }

  lemma EncodedNumber(bits: Bits)
    ensures Two(|bits| % 5) > 0 && Base32(Chars(bits)) == Val(bits) / Two(|bits| % 5)
  {
    var n := |bits| / 5 * 5;
    var front, rest := bits[..n], bits[n..];
    assert bits == front + rest && |rest| == |bits| % 5;
    hide Chars, Base32, Two, Val;
    CharsNumber(bits);
    ValConcat(front, rest);
    BinOfVal(rest);
    TwoPositive(|rest|);
    QuotientIs(Val(bits), Val(front), Two(|rest|), Val(rest));
  }

  lemma QuotientIs(x: nat, q: nat, m: nat, r: nat)
    requires x == q * m + r && r < m
    ensures x / m == q
  {
    var k := x / m;
    assert x == k * m + x % m;
    if k > q {
      Grows(k, q + 1, m);
    } else if k < q {
      Grows(q, k + 1, m);
    }
  }

  lemma Grows(a: nat, b: nat, m: nat)
    requires a >= b
    ensures a * m >= b * m
  {
  }

  lemma {:induction false} InSymbols(bits: Bits)
    ensures forall i :: 0 <= i < |Chars(bits)| ==> 'A' <= Chars(bits)[i] <= 'Z' || '2' <= Chars(bits)[i] <= '7'
    decreases |bits|
  {
    if |bits| >= 5 {
      InSymbols(bits[5..]);
      BinOfVal(bits[..5]);
      assert Two(5) == 32;
      Alphabet(Val(bits[..5]));
      hide B32, Val, Bin, Two;
    }
  }

  /** Padding and lower case make no difference to what is decoded. */
  lemma PaddingIgnored(s: string)
    ensures Decode(s + "=") == Decode(s)
  {
    assert (s + "=")[..|s|] == s;
  }

  lemma CaseIgnored(s: string, t: string)
    requires |t| == |s| && forall i :: 0 <= i < |s| ==> t[i] == if 'a' <= s[i] <= 'z' then s[i] - 32 as char else s[i]
    ensures Decode(t) == Decode(s)
  {
    SameUnpadded(s, t);
    var x, y := Unpadded(s), Unpadded(t);
    assert InAlphabet(x) == InAlphabet(y) by {
      assert forall i :: 0 <= i < |x| ==> Upper(x[i]) == Upper(y[i]);
    }
    if InAlphabet(x) {
      SameBits(x, y);
    }
  }

  lemma {:induction false} SameUnpadded(s: string, t: string)
    requires |t| == |s| && forall i :: 0 <= i < |s| ==> t[i] == if 'a' <= s[i] <= 'z' then s[i] - 32 as char else s[i]
    ensures |Unpadded(t)| == |Unpadded(s)|
    ensures forall i :: 0 <= i < |Unpadded(s)| ==> Upper(Unpadded(t)[i]) == Upper(Unpadded(s)[i])
  {
    if s != "" && s[|s| - 1] == '=' {
      SameUnpadded(s[..|s| - 1], t[..|t| - 1]);
    }
  }

  lemma {:induction false} SameBits(s: string, t: string)
    requires |t| == |s| && InAlphabet(s) && InAlphabet(t) && forall i :: 0 <= i < |s| ==> Upper(t[i]) == Upper(s[i])
    ensures CharBits(t) == CharBits(s)
  {
    if s != "" {
      SameBits(s[..|s| - 1], t[..|t| - 1]);
    }
  }

  // ---------------------------------------------------------------- steps and messages

  /** The step of a moment is the thirty seconds it lies in, counted from the epoch. */
  lemma CounterIff(atMs: int, c: int)
    ensures Counter(atMs) == c <==> 30000 * c <= atMs < 30000 * c + 30000
  {
  }

  /** The eight bytes that are hashed, read most significant first, are the counter. */
  lemma MessageIsCounter(c: int)
    requires 0 <= c < TwoTo64()
    ensures |Message(c)| == 8 && AllBytes(Message(c)) && FromBytes(Message(c)) == c
  {
    PowEight();
    hide BigEndian, Pow256, FromBytes;
    BytesBack(c, 8);
  }

  lemma {:induction false} BytesBack(n: nat, width: nat)
    requires n < Pow256(width)
    ensures FromBytes(BigEndian(n, width)) == n
    decreases width
  {
    if width > 0 {
      BytesBack(n / 256, width - 1);
      assert BigEndian(n, width)[..width - 1] == BigEndian(n / 256, width - 1);
    }
  }
}
