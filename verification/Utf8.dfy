/** The UTF-8 form of a string, RFC 3629. */
module Utf8 {
  import opened Sequences

  type Byte = b: nat | b < 256 witness 0

  const SEPARATOR: Byte := 0xFF

  function Continuation(n: nat): Byte {
    0x80 + n % 64
  }

  function EncodeChar(c: char): (bytes: seq<Byte>)
    ensures 1 <= |bytes| <= 4
  {
    var n := c as nat;
    if n < 0x80 then [n]
    else if n < 0x800 then [0xC0 + n / 64, Continuation(n)]
    else if n < 0x1_0000 then [0xE0 + n / 64 / 64, Continuation(n / 64), Continuation(n)]
    else [0xF0 + n / 64 / 64 / 64, Continuation(n / 64 / 64), Continuation(n / 64), Continuation(n)]
  }

  function Encode(s: string): seq<Byte> {
    if s == [] then [] else EncodeChar(s[0]) + Encode(s[1..])
  }

  /** How many bytes a character starting with this byte has. */
  function Width(first: Byte): nat {
    if first < 0x80 then 1 else if first < 0xE0 then 2 else if first < 0xF0 then 3 else 4
  }

  function DecodeChar(bytes: seq<int>): int
    requires 1 <= |bytes| <= 4
  {
    if |bytes| == 1 then bytes[0]
    else if |bytes| == 2 then (bytes[0] - 0xC0) * 64 + (bytes[1] - 0x80)
    else if |bytes| == 3 then ((bytes[0] - 0xE0) * 64 + (bytes[1] - 0x80)) * 64 + (bytes[2] - 0x80)
    else (((bytes[0] - 0xF0) * 64 + (bytes[1] - 0x80)) * 64 + (bytes[2] - 0x80)) * 64 + (bytes[3] - 0x80)
  }

  lemma CharRoundTrip(c: char)
    ensures DecodeChar(EncodeChar(c)) == c as int
    ensures Width(EncodeChar(c)[0]) == |EncodeChar(c)|
    ensures SEPARATOR !in EncodeChar(c)
  {
  }

  // The separator byte occurs in no encoded string.
  lemma {:induction false} NeverSeparator(s: string)
    ensures SEPARATOR !in Encode(s)
  {
    if s != [] {
      CharRoundTrip(s[0]);
      NeverSeparator(s[1..]);
    }
  }

  // No two characters followed by anything start with the same bytes.
  lemma CharsArePrefixFree(c: char, d: char, x: seq<Byte>, y: seq<Byte>)
    requires EncodeChar(c) + x == EncodeChar(d) + y
    ensures c == d && x == y
  {
    var p, q := EncodeChar(c), EncodeChar(d);
    CharRoundTrip(c);
    CharRoundTrip(d);
    assert (p + x)[0] == p[0] && (q + y)[0] == q[0];
    assert (p + x)[..|p|] == p && (q + y)[..|q|] == q;
    assert (p + x)[|p|..] == x && (q + y)[|q|..] == y;
  }

  lemma {:induction false} EncodeInjective(s: string, t: string)
    requires Encode(s) == Encode(t)
    ensures s == t
  {
    if s != [] && t != [] {
      CharsArePrefixFree(s[0], t[0], Encode(s[1..]), Encode(t[1..]));
      EncodeInjective(s[1..], t[1..]);
    }
  }

  lemma {:induction false} EncodeAppend(s: string, t: string)
    ensures Encode(s + t) == Encode(s) + Encode(t)
  {
    if s == [] {
      assert s + t == t;
    } else {
      EncodeAppend(s[1..], t);
      assert (s + t)[1..] == s[1..] + t;
      Regroup(EncodeChar(s[0]), Encode(s[1..]), Encode(t));
    }
  }
}
