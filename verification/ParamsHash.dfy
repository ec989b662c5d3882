/**
 The hash that ties saved state to the parameters it was saved under: 64-bit FNV-1a over the parameters, each
 followed by a separator byte. A `u64` is a natural number below 2^64; multiplication wraps around.
 */
module ParamsHash {
  import opened Sequences
  import opened Utf8

  const MODULUS: nat := 0x1_0000_0000_0000_0000
  const OFFSET_BASIS: nat := 14695981039346656037
  const PRIME: nat := 1099511628211
  /** The multiplicative inverse of the prime modulo 2^64. */
  const INVERSE: nat := 14886173955864302971

  const HASH_DIGITS: nat := 16

  type U64 = n: nat | n < MODULUS witness 0

  function Xor(a: nat, b: nat): nat
    decreases a + b
  {
    if a == 0 && b == 0 then 0 else Xor(a / 2, b / 2) * 2 + (a + b) % 2
  }

  lemma {:induction false} XorUndoes(a: nat, b: nat)
    ensures Xor(Xor(a, b), b) == a
    decreases a + b
  {
    if a != 0 || b != 0 {
      var high, low := Xor(a / 2, b / 2), (a + b) % 2;
      XorUndoes(a / 2, b / 2);
      XorBits(high, low, b);
      Parity(a, b);
    }
  }

  lemma Parity(a: nat, b: nat)
    ensures ((a + b) % 2 + b) % 2 == a % 2
  {
  }

  lemma {:induction false} XorCommutes(a: nat, b: nat)
    ensures Xor(a, b) == Xor(b, a)
    decreases a + b
  {
    if a != 0 || b != 0 {
      XorCommutes(a / 2, b / 2);
    }
  }

  lemma XorBits(high: nat, low: nat, b: nat)
    requires low < 2
    ensures Xor(high * 2 + low, b) == Xor(high, b / 2) * 2 + (low + b) % 2
  {
    var x := high * 2 + low;
    assert x / 2 == high && (x + b) % 2 == (low + b) % 2;
    if x == 0 && b == 0 {
      assert Xor(0, 0) == 0;
    }
  }

  function Pow(base: nat, k: nat): nat {
    if k == 0 then 1 else Pow(base, k - 1) * base
  }

  // Only the low bits change.
  lemma {:induction false} XorKeepsHighBits(a: nat, b: nat, k: nat)
    requires b < Pow(2, k) && Pow(2, k) > 0
    ensures Xor(a, b) / Pow(2, k) == a / Pow(2, k)
  {
    if k == 0 {
      XorZero(a);
    } else {
      var p := Pow(2, k - 1);
      assert p > 0 && b / 2 < p;
      XorKeepsHighBits(a / 2, b / 2, k - 1);
      XorHalves(a, b);
      HalveFirst(a, p);
      HalveFirst(Xor(a, b), p);
    }
  }

  lemma XorHalves(a: nat, b: nat)
    ensures Xor(a, b) / 2 == Xor(a / 2, b / 2)
  {
    if a == 0 && b == 0 {
      assert Xor(0, 0) == 0;
    }
  }

  lemma HalveFirst(a: nat, p: nat)
    requires p > 0
    ensures a / (p * 2) == a / 2 / p
  {
    var q, r := a / 2 / p, a / 2 % p;
    assert a == (q * p + r) * 2 + a % 2;
    assert a == q * (p * 2) + (r * 2 + a % 2) && r * 2 + a % 2 < p * 2;
    Quotient(a, p * 2, q, r * 2 + a % 2);
  }

  lemma Quotient(a: nat, d: nat, q: nat, r: nat)
    requires d > 0 && a == q * d + r && r < d
    ensures a / d == q
  {
    var e := a / d - q;
    assert e * d == r - a % d;
    if e != 0 {
      Apart(e, d);
    }
  }

  lemma Apart(e: int, d: nat)
    requires e != 0 && d > 0
    ensures e * d >= d || e * d + d <= 0
  {
  }

  lemma {:induction false} XorZero(a: nat)
    ensures Xor(a, 0) == a
  {
    if a != 0 {
      XorZero(a / 2);
    }
  }

  lemma XorStaysInRange(h: U64, b: Byte)
    ensures Xor(h, b) < MODULUS
  {
    assert Pow(2, 2) == 4 && Pow(2, 4) == 16 && Pow(2, 6) == 64 && Pow(2, 8) == 256;
    XorKeepsHighBits(h, b, 8);
  }

  function Mix(h: U64, b: Byte): U64 {
    Xor(h, b) * PRIME % MODULUS
  }

  /** Undoes `Mix`. */
  function Unmix(h: U64, b: Byte): U64 {
    XorStaysInRange(h * INVERSE % MODULUS, b);
    Xor(h * INVERSE % MODULUS, b)
  }

  lemma Reduce(x: nat, q: nat, r: nat)
    requires x == q * MODULUS + r && r < MODULUS
    ensures x % MODULUS == r
  {
  }

  lemma WrapUndoes(x: U64)
    ensures (x * PRIME % MODULUS) * INVERSE % MODULUS == x
    ensures (x * INVERSE % MODULUS) * PRIME % MODULUS == x
  {
    var k := PRIME * INVERSE / MODULUS;
    assert PRIME * INVERSE == k * MODULUS + 1;
    var q, p := x * PRIME / MODULUS, x * INVERSE / MODULUS;
    Reduce((x * PRIME % MODULUS) * INVERSE, x * k - q * INVERSE, x);
    Reduce((x * INVERSE % MODULUS) * PRIME, x * k - p * PRIME, x);
  }

  // Each step is a bijection on 64-bit states.
  lemma MixIsBijective(h: U64, b: Byte)
    ensures Unmix(Mix(h, b), b) == h && Mix(Unmix(h, b), b) == h
  {
    XorStaysInRange(h, b);
    WrapUndoes(Xor(h, b));
    XorUndoes(h, b);
    XorUndoes(h * INVERSE % MODULUS, b);
    WrapUndoes(h);
  }

  /** The bytes that are hashed: every parameter followed by the separator. */
  function Stream(params: seq<string>): seq<Byte> {
    if params == [] then [] else Encode(params[0]) + [SEPARATOR] + Stream(params[1..])
  }

  function Fold(h: U64, bytes: seq<Byte>): U64
    decreases |bytes|
  {
    if bytes == [] then h else Fold(Mix(h, bytes[0]), bytes[1..])
  }

  /** A digit of a lower-case hexadecimal number. */
  function HexDigit(d: nat): char
    requires d < 16
  {
    if d < 10 then (48 + d) as char else (87 + d) as char
  }

  /** The last `width` hexadecimal digits, zero-padded. */
  function Hex(n: nat, width: nat): string {
    if width == 0 then [] else Hex(n / 16, width - 1) + [HexDigit(n % 16)]
  }

  function ParamsHash(params: seq<string>): string {
    Hex(Fold(OFFSET_BASIS, Stream(params)), HASH_DIGITS)
  }

  lemma {:induction false} FoldAppend(h: U64, x: seq<Byte>, y: seq<Byte>)
    ensures Fold(h, x + y) == Fold(Fold(h, x), y)
    decreases |x|
  {
    if x == [] {
      assert x + y == y;
    } else {
      assert (x + y)[1..] == x[1..] + y;
      FoldAppend(Mix(h, x[0]), x[1..], y);
    }
  }

  lemma FoldOne(h: U64, x: seq<Byte>, b: Byte)
    ensures Fold(h, x + [b]) == Mix(Fold(h, x), b)
  {
    FoldAppend(h, x, [b]);
    assert [b][1..] == [];
  }

  lemma {:induction false} StreamAppend(params: seq<string>, p: string)
    ensures Stream(params + [p]) == Stream(params) + (Encode(p) + [SEPARATOR])
  {
    if params == [] {
      assert params + [p] == [p] && [p][1..] == [];
    } else {
      StreamAppend(params[1..], p);
      assert (params + [p])[1..] == params[1..] + [p];
      Regroup(Encode(params[0]) + [SEPARATOR], Stream(params[1..]), Encode(p) + [SEPARATOR]);
    }
  }

  /** One byte into the running state. */
  method Absorb(hash: U64, byte: Byte) returns (next: U64)
    ensures next == Mix(hash, byte)
  {
    XorStaysInRange(hash, byte);
    next := Xor(hash, byte);
    next := next * PRIME % MODULUS;
  }

  /** One parameter and its separator. */
  method AbsorbParam(hash: U64, bytes: seq<Byte>) returns (next: U64)
    ensures next == Fold(hash, bytes + [SEPARATOR])
  {
    next := hash;
    for k := 0 to |bytes|
      invariant next == Fold(hash, bytes[..k])
    {
      FoldOne(hash, bytes[..k], bytes[k]);
      assert bytes[..k + 1] == bytes[..k] + [bytes[k]];
      next := Absorb(next, bytes[k]);
    }
    assert bytes[..|bytes|] == bytes;
    FoldOne(hash, bytes, SEPARATOR);
    next := Absorb(next, SEPARATOR);
  }

  method ComputeParamsHash(params: seq<string>) returns (r: string)
    ensures r == ParamsHash(params)
  {
    var hash: U64 := OFFSET_BASIS;
    for i := 0 to |params|
      invariant hash == Fold(OFFSET_BASIS, Stream(params[..i]))
    {
      var bytes := Encode(params[i]);
      FoldAppend(OFFSET_BASIS, Stream(params[..i]), bytes + [SEPARATOR]);
      StreamAppend(params[..i], params[i]);
      assert params[..i + 1] == params[..i] + [params[i]];
      hash := AbsorbParam(hash, bytes);
    }
    assert params[..|params|] == params;
    return Hex(hash, HASH_DIGITS);
  }

  // -- collisions --

  // Two byte strings without separators, each followed by a separator and anything, are equal part by part.
  lemma SeparatorSplits(p: seq<Byte>, q: seq<Byte>, x: seq<Byte>, y: seq<Byte>)
    requires SEPARATOR !in p && SEPARATOR !in q
    requires p + [SEPARATOR] + x == q + [SEPARATOR] + y
    ensures p == q && x == y
  {
    var s, t := p + [SEPARATOR] + x, q + [SEPARATOR] + y;
    assert s[|p|] == SEPARATOR && t[|q|] == SEPARATOR;
    assert forall i :: 0 <= i < |p| ==> s[i] == p[i] && p[i] in p;
    assert forall i :: 0 <= i < |q| ==> t[i] == q[i] && q[i] in q;
    assert |p| == |q|;
    assert s[..|p|] == p && t[..|q|] == q;
    assert s[|p| + 1..] == x && t[|q| + 1..] == y;
  }

  // Different parameter lists feed different byte streams to the hash.
  lemma {:induction false} StreamInjective(ps: seq<string>, qs: seq<string>)
    requires Stream(ps) == Stream(qs)
    ensures ps == qs
  {
    if ps != [] && qs != [] {
      NeverSeparator(ps[0]);
      NeverSeparator(qs[0]);
      SeparatorSplits(Encode(ps[0]), Encode(qs[0]), Stream(ps[1..]), Stream(qs[1..]));
      EncodeInjective(ps[0], qs[0]);
      StreamInjective(ps[1..], qs[1..]);
    }
  }

  lemma {:induction false} FoldInjectiveInState(g: U64, h: U64, bytes: seq<Byte>)
    requires Fold(g, bytes) == Fold(h, bytes)
    ensures g == h
    decreases |bytes|
  {
    if bytes != [] {
      FoldInjectiveInState(Mix(g, bytes[0]), Mix(h, bytes[0]), bytes[1..]);
      MixIsBijective(g, bytes[0]);
      MixIsBijective(h, bytes[0]);
    }
  }

  lemma MixInjectiveInByte(h: U64, b: Byte, c: Byte)
    requires Mix(h, b) == Mix(h, c)
    ensures b == c
  {
    XorStaysInRange(h, b);
    XorStaysInRange(h, c);
    WrapUndoes(Xor(h, b));
    WrapUndoes(Xor(h, c));
    XorCommutes(h, b);
    XorCommutes(h, c);
    XorUndoes(b, h);
    XorUndoes(c, h);
  }

  lemma {:induction false} HexInjective(m: nat, n: nat, width: nat)
    requires Hex(m, width) == Hex(n, width) && m < Pow(16, width) && n < Pow(16, width)
    ensures m == n
  {
    if width > 0 {
      assert m / 16 < Pow(16, width - 1) && n / 16 < Pow(16, width - 1);
      var x, y := Hex(m / 16, width - 1), Hex(n / 16, width - 1);
      assert (x + [HexDigit(m % 16)])[|x|] == (y + [HexDigit(n % 16)])[|x|];
      assert Hex(m, width)[..|Hex(m, width)| - 1] == x && Hex(n, width)[..|Hex(n, width)| - 1] == y;
      HexInjective(m / 16, n / 16, width - 1);
    }
  }

  predicate IsHexDigit(c: char) {
    '0' <= c <= '9' || 'a' <= c <= 'f'
  }

  /** The number that hexadecimal digits stand for, the most significant one first. */
  function HexValue(s: string): nat {
    if s == [] then 0
    else
      var c := s[|s| - 1];
      16 * HexValue(s[..|s| - 1]) + if c <= '9' then DigitFrom(c, '0') else 10 + DigitFrom(c, 'a')
  }

  function DigitFrom(c: char, first: char): nat {
    if first <= c then c as nat - first as nat else 0
  }

  // The digits are those of the number, in lower case and padded to their width.
  lemma {:induction false} HexReadsBack(n: nat, width: nat)
    requires n < Pow(16, width)
    ensures |Hex(n, width)| == width && forall c :: c in Hex(n, width) ==> IsHexDigit(c)
    ensures HexValue(Hex(n, width)) == n
  {
    if width > 0 {
      assert n / 16 < Pow(16, width - 1);
      HexReadsBack(n / 16, width - 1);
      assert Hex(n, width)[..width - 1] == Hex(n / 16, width - 1);
    }
  }

  lemma SixteenDigitsSuffice()
    ensures Pow(16, HASH_DIGITS) == MODULUS
  {
    assert Pow(16, 2) == 0x100 && Pow(16, 4) == 0x1_0000 && Pow(16, 6) == 0x100_0000;
    assert Pow(16, 8) == 0x1_0000_0000 && Pow(16, 10) == 0x100_0000_0000 && Pow(16, 12) == 0x1_0000_0000_0000;
    assert Pow(16, 14) == 0x100_0000_0000_0000;
  }

  /** The streams have equal length and differ in exactly one byte. */
  ghost predicate DifferInOneByte(x: seq<Byte>, y: seq<Byte>) {
    |x| == |y| && exists k: nat :: DifferAt(x, y, k)
  }

  predicate DifferAt(x: seq<Byte>, y: seq<Byte>, k: nat)
    requires |x| == |y|
  {
    k < |x| && forall i :: 0 <= i < |x| ==> (x[i] != y[i] <==> i == k)
  }

  lemma OneByteChangesTheState(x: seq<Byte>, y: seq<Byte>)
    requires DifferInOneByte(x, y)
    ensures Fold(OFFSET_BASIS, x) != Fold(OFFSET_BASIS, y)
  {
    var k: nat :| DifferAt(x, y, k);
    var p, rest := x[..k], x[k + 1..];
    var g := Fold(OFFSET_BASIS, p);
    assert x == p + [x[k]] + rest && y == p + [y[k]] + rest;
    FoldAppend(OFFSET_BASIS, p + [x[k]], rest);
    FoldAppend(OFFSET_BASIS, p + [y[k]], rest);
    FoldOne(OFFSET_BASIS, p, x[k]);
    FoldOne(OFFSET_BASIS, p, y[k]);
    if Fold(OFFSET_BASIS, x) == Fold(OFFSET_BASIS, y) {
      FoldInjectiveInState(Mix(g, x[k]), Mix(g, y[k]), rest);
      MixInjectiveInByte(g, x[k], y[k]);
    }
  }

  // Parameter lists whose streams differ in exactly one byte never share a hash, so state saved under one is
  // never resumed under the other.
  lemma OneByteChangesTheHash(ps: seq<string>, qs: seq<string>)
    requires DifferInOneByte(Stream(ps), Stream(qs))
    ensures ParamsHash(ps) != ParamsHash(qs)
  {
    OneByteChangesTheState(Stream(ps), Stream(qs));
    SixteenDigitsSuffice();
    if ParamsHash(ps) == ParamsHash(qs) {
      HexInjective(Fold(OFFSET_BASIS, Stream(ps)), Fold(OFFSET_BASIS, Stream(qs)), HASH_DIGITS);
    }
  }

  // -- known values --

  lemma XorIs(a: nat, b: nat, high: nat)
    requires a > 0 && Xor(a / 2, b / 2) == high
    ensures Xor(a, b) == high * 2 + (a + b) % 2
  {
  }

  lemma XorOfBasis()
    ensures Xor(OFFSET_BASIS, 0x61) == 0xCBF2_9CE4_8422_2344
  {
    XorZero(114812351869895750);
    XorIs(229624703739791500, 1, 114812351869895750);
    XorIs(459249407479583001, 3, 229624703739791501);
    XorIs(918498814959166002, 6, 459249407479583002);
    XorIs(1836997629918332004, 12, 918498814959166004);
    XorIs(3673995259836664009, 24, 1836997629918332008);
    XorIs(7347990519673328018, 48, 3673995259836664017);
    XorIs(14695981039346656037, 97, 7347990519673328034);
  }

  // The published test vectors of FNV-1a for the empty input and for the letter `a`.
  lemma MatchesPublishedVectors()
    ensures Fold(OFFSET_BASIS, []) == 0xCBF2_9CE4_8422_2325
    ensures Fold(OFFSET_BASIS, [0x61]) == 0xAF63_DC4C_8601_EC8C
  {
    XorOfBasis();
    assert 0xCBF2_9CE4_8422_2344 * PRIME == 875948729822 * MODULUS + 0xAF63_DC4C_8601_EC8C;
    Reduce(0xCBF2_9CE4_8422_2344 * PRIME, 875948729822, 0xAF63_DC4C_8601_EC8C);
    FoldOne(OFFSET_BASIS, [], 0x61);
    assert [] + [0x61 as Byte] == [0x61];
  }

  // The hash of any parameters is sixteen lower-case digits that stand for their FNV-1a state.
  lemma HashStandsForState(params: seq<string>)
    ensures |ParamsHash(params)| == 16 && forall c :: c in ParamsHash(params) ==> IsHexDigit(c)
    ensures HexValue(ParamsHash(params)) == Fold(OFFSET_BASIS, Stream(params))
  {
    SixteenDigitsSuffice();
    HexReadsBack(Fold(OFFSET_BASIS, Stream(params)), HASH_DIGITS);
  }
}
