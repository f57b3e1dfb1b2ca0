/** Byte buffers: bounded little-endian reads, and finding a piece inside a larger buffer. */
module Bytes {
  import opened Options

  type Byte = b: int | 0 <= b < 256

  function Le16(v: int): seq<Byte> { [v % 256, v / 256 % 256] }

  function Le32(v: int): seq<Byte> { [v % 256, v / 256 % 256, v / 65536 % 256, v / 16777216 % 256] }

  /** A read outside the buffer throws. */
  function U16(b: seq<Byte>, at: int): Option<nat> {
    if at < 0 || |b| < at + 2 then None
    else
      var b0: int, b1: int := b[at], b[at + 1];
      Some(b0 + 256 * b1)
  }

  function U32(b: seq<Byte>, at: int): Option<nat> {
    if at < 0 || |b| < at + 4 then None
    else
      var b0: int, b1: int, b2: int, b3: int := b[at], b[at + 1], b[at + 2], b[at + 3];
      Some(b0 + 256 * b1 + 65536 * b2 + 16777216 * b3)
  }

  /** A slice clamped to the buffer. */
  function Slice(b: seq<Byte>, from: nat, to: nat): seq<Byte>
    requires from <= to
  {
    if |b| < from then [] else if |b| < to then b[from..] else b[from..to]
  }

  predicate At(b: seq<Byte>, at: nat, piece: seq<Byte>) {
    at + |piece| <= |b| && b[at..at + |piece|] == piece
  }

  lemma AtSplit(b: seq<Byte>, at: nat, x: seq<Byte>, y: seq<Byte>)
    requires At(b, at, x + y)
    ensures At(b, at, x) && At(b, at + |x|, y)
  {
    var p := b[at..at + |x + y|];
    assert p[..|x|] == x && p[|x|..] == y;
    assert b[at..at + |x|] == p[..|x|];
    assert b[at + |x|..at + |x| + |y|] == p[|x|..];
  }

  lemma AtSlice(b: seq<Byte>, at: nat, piece: seq<Byte>)
    requires At(b, at, piece)
    ensures Slice(b, at, at + |piece|) == piece
  {
  }

  lemma U16At(b: seq<Byte>, at: nat, v: int)
    requires 0 <= v < 0x10000 && At(b, at, Le16(v))
    ensures U16(b, at) == Some(v)
  {
    var p := Le16(v);
    assert b[at] == p[0] && b[at + 1] == p[1];
  }

  lemma U32At(b: seq<Byte>, at: nat, v: int)
    requires 0 <= v < 0x1_0000_0000 && At(b, at, Le32(v))
    ensures U32(b, at) == Some(v)
  {
    var p := Le32(v);
    assert b[at] == p[0] && b[at + 1] == p[1] && b[at + 2] == p[2] && b[at + 3] == p[3];
    assert v == v % 256 + 256 * (v / 256);
    assert v / 256 == v / 256 % 256 + 256 * (v / 65536);
    assert v / 65536 == v / 65536 % 256 + 256 * (v / 16777216);
  }
}
