/** UTF-8 as the host runtime writes and reads it: a broken sequence reads as one U+FFFD (section 3.9 of the Unicode
    Standard). */
module Utf8 {
  import opened Bytes

  const REPLACEMENT: char := '\U{FFFD}'

  function EncodeChar(c: char): (bytes: seq<Byte>)
    ensures 1 <= |bytes| <= 4
  {
    var n := c as int;
    if n < 0x80 then [n]
    else if n < 0x800 then [0xC0 + n / 64, 0x80 + n % 64]
    else if n < 0x10000 then [0xE0 + n / 4096, 0x80 + n / 64 % 64, 0x80 + n % 64]
    else [0xF0 + n / 262144, 0x80 + n / 4096 % 64, 0x80 + n / 64 % 64, 0x80 + n % 64]
  }

  function Encode(s: string): seq<Byte> {
    if s == "" then [] else EncodeChar(s[0]) + Encode(s[1..])
  }

  predicate Continues(b: seq<Byte>, i: nat) { i < |b| && 0x80 <= b[i] <= 0xBF }

  /** The second byte a lead byte allows, so that no overlong form, surrogate or value past U+10FFFF is read. */
  predicate Second(b: seq<Byte>)
    requires b != []
  {
    && Continues(b, 1)
    && (b[0] == 0xE0 ==> 0xA0 <= b[1]) && (b[0] == 0xED ==> b[1] <= 0x9F)
    && (b[0] == 0xF0 ==> 0x90 <= b[1]) && (b[0] == 0xF4 ==> b[1] <= 0x8F)
  }

  /** The first character of a buffer and the number of bytes it takes. */
  function First(b: seq<Byte>): (r: (char, nat))
    requires b != []
    ensures 1 <= r.1 <= |b|
  {
    var lead := b[0];
    if lead < 0x80 then (lead as char, 1)
    else if lead < 0xC2 || lead > 0xF4 || !Second(b) then (REPLACEMENT, 1)
    else if lead < 0xE0 then (((lead as int - 0xC0) * 64 + b[1] - 0x80) as char, 2)
    else if !Continues(b, 2) then (REPLACEMENT, 2)
    else if lead < 0xF0 then
      (((lead as int - 0xE0) * 4096 + (b[1] as int - 0x80) * 64 + b[2] - 0x80) as char, 3)
    else if !Continues(b, 3) then (REPLACEMENT, 3)
    else (((lead as int - 0xF0) * 262144 + (b[1] as int - 0x80) * 4096 + (b[2] as int - 0x80) * 64
           + b[3] - 0x80) as char, 4)
  }

  function Decode(b: seq<Byte>): string
    decreases |b|
  {
    if b == [] then "" else [First(b).0] + Decode(b[First(b).1..])
  }

  lemma TwoBytes(n: nat, b: seq<Byte>)
    requires 0x80 <= n < 0x800 && |b| >= 2 && b[0] == 0xC0 + n / 64 && b[1] == 0x80 + n % 64
    ensures First(b) == (n as char, 2)
  {
    assert 2 <= n / 64 < 32;
  }

  lemma ThreeBytes(n: nat, b: seq<Byte>)
    requires 0x800 <= n < 0xD800 || 0xE000 <= n < 0x10000
    requires |b| >= 3 && b[0] == 0xE0 + n / 4096 && b[1] == 0x80 + n / 64 % 64 && b[2] == 0x80 + n % 64
    ensures First(b) == (n as char, 3)
  {
    assert n == n / 4096 * 4096 + n / 64 % 64 * 64 + n % 64;
  }

  lemma FourDigits(n: nat, w: nat, x: nat, y: nat, z: nat)
    requires 0x10000 <= n < 0x110000 && w == n / 262144 && x == n / 4096 % 64 && y == n / 64 % 64 && z == n % 64
    ensures n == w * 262144 + x * 4096 + y * 64 + z && w <= 4 && x < 64 && y < 64 && z < 64
    ensures (w == 0 ==> x >= 16) && (w == 4 ==> x <= 15)
  {
  }

  lemma FourBytes(n: nat, b: seq<Byte>)
    requires 0x10000 <= n < 0x110000
    requires |b| >= 4 && b[0] == 0xF0 + n / 262144 && b[1] == 0x80 + n / 4096 % 64 && b[2] == 0x80 + n / 64 % 64
             && b[3] == 0x80 + n % 64
    ensures First(b) == (n as char, 4)
  {
    FourDigits(n, n / 262144, n / 4096 % 64, n / 64 % 64, n % 64);
  }

  lemma FirstOfEncoded(c: char, rest: seq<Byte>)
    ensures First(EncodeChar(c) + rest) == (c, |EncodeChar(c)|)
  {
    var n, e := c as int, EncodeChar(c);
    var b := e + rest;
    assert forall i :: 0 <= i < |e| ==> b[i] == e[i];
    if n >= 0x10000 {
      FourBytes(n, b);
    } else if n >= 0x800 {
      ThreeBytes(n, b);
    } else if n >= 0x80 {
      TwoBytes(n, b);
    }
  }

  lemma {:induction false} DecodeEncoded(s: string, rest: seq<Byte>)
    ensures Decode(Encode(s) + rest) == s + Decode(rest)
  {
    if s == "" {
      assert Encode(s) + rest == rest && s + Decode(rest) == Decode(rest);
    } else {
      var tail := Encode(s[1..]) + rest;
      assert Encode(s) + rest == EncodeChar(s[0]) + tail;
      FirstOfEncoded(s[0], tail);
      assert (EncodeChar(s[0]) + tail)[|EncodeChar(s[0])|..] == tail;
      DecodeEncoded(s[1..], rest);
      assert [s[0]] + (s[1..] + Decode(rest)) == s + Decode(rest);
    }
  }

  /** Decoding gives back what was encoded. */
  lemma RoundTrip(s: string)
    ensures Decode(Encode(s)) == s
  {
    DecodeEncoded(s, []);
    assert Encode(s) + [] == Encode(s) && s + Decode([]) == s;
  }
}
