/** What reading UTF-8 makes of any bytes, whole characters or not. */
module Utf8Laws {
  import opened Bytes
  import opened Utf8

  /** The first `k` bytes are the beginning of a character that is longer. */
  ghost predicate Begins(b: seq<Byte>, k: nat) {
    k <= |b| && exists c: char :: k < |EncodeChar(c)| && EncodeChar(c)[..k] == b[..k]
  }

  lemma Starts(b: seq<Byte>, k: nat, c: char)
    requires k <= |b| && k < |EncodeChar(c)| && EncodeChar(c)[..k] == b[..k]
    ensures Begins(b, k)
  {
  }

  lemma TwoWhole(x: nat, y: nat, n: nat)
    requires 2 <= x < 32 && y < 64 && n == x * 64 + y
    ensures 0x80 <= n < 0x800 && EncodeChar(n as char) == [0xC0 + x, 0x80 + y]
  {
    assert n / 64 == x && n % 64 == y;
  }

  lemma ThreeWhole(x: nat, y: nat, z: nat, n: nat)
    requires x < 16 && y < 64 && z < 64 && n == x * 4096 + y * 64 + z
    requires (x == 0 ==> y >= 32) && (x == 13 ==> y < 32)
    ensures (0x800 <= n < 0xD800 || 0xE000 <= n < 0x10000)
            && EncodeChar(n as char) == [0xE0 + x, 0x80 + y, 0x80 + z]
  {
    assert n / 4096 == x && n / 64 == x * 64 + y && n % 64 == z;
    assert (x * 64 + y) % 64 == y;
  }

  lemma FourWhole(w: nat, x: nat, y: nat, z: nat, n: nat)
    requires w <= 4 && x < 64 && y < 64 && z < 64 && n == w * 262144 + x * 4096 + y * 64 + z
    requires (w == 0 ==> x >= 16) && (w == 4 ==> x < 16)
    ensures 0x10000 <= n < 0x110000 && EncodeChar(n as char) == [0xF0 + w, 0x80 + x, 0x80 + y, 0x80 + z]
  {
    assert n / 262144 == w && n / 4096 == w * 64 + x && n / 64 == (w * 64 + x) * 64 + y && n % 64 == z;
    assert (w * 64 + x) % 64 == x && ((w * 64 + x) * 64 + y) % 64 == y;
  }

  lemma ThreeByteStart(b: seq<Byte>)
    requires |b| >= 2 && 0xE0 <= b[0] < 0xF0 && Second(b)
    ensures Begins(b, 2)
  {
    var high: nat, low: nat := b[0] - 0xE0, b[1] - 0x80;
    var n := high * 4096 + low * 64;
    ThreeWhole(high, low, 0, n);
    assert EncodeChar(n as char)[..2] == [b[0], b[1]] == b[..2];
    Starts(b, 2, n as char);
  }

  lemma FourByteStart(b: seq<Byte>, last: nat)
    requires |b| >= 2 && 0xF0 <= b[0] <= 0xF4 && Second(b) && last < 64
    ensures var n := (b[0] as int - 0xF0) * 262144 + (b[1] as int - 0x80) * 4096 + last * 64;
            0x10000 <= n < 0x110000 && EncodeChar(n as char) == [b[0], b[1], 0x80 + last, 0x80]
  {
    var top: nat, high: nat := b[0] - 0xF0, b[1] - 0x80;
    FourWhole(top, high, last, 0, top * 262144 + high * 4096 + last * 64);
  }

  lemma FourByteBegins(b: seq<Byte>)
    requires |b| >= 2 && 0xF0 <= b[0] <= 0xF4 && Second(b)
    ensures Begins(b, 2) && (Continues(b, 2) ==> Begins(b, 3))
  {
    FourByteStart(b, 0);
    var n := (b[0] as int - 0xF0) * 262144 + (b[1] as int - 0x80) * 4096;
    assert EncodeChar(n as char)[..2] == b[..2];
    Starts(b, 2, n as char);
    if Continues(b, 2) {
      var last: nat := b[2] - 0x80;
      FourByteStart(b, last);
      assert EncodeChar((n + last * 64) as char)[..3] == b[..3];
      Starts(b, 3, (n + last * 64) as char);
    }
  }

  /** Every encoding has a lead byte and second byte that the reader admits, and continuation bytes behind them. */
  lemma EncodingIsAdmitted(c: char)
    ensures var e := EncodeChar(c);
            && (|e| > 1 ==> 0xC2 <= e[0] <= 0xF4 && Second(e) && (|e| == 2 <==> e[0] < 0xE0))
            && (|e| > 2 ==> Continues(e, 2) && (|e| == 3 <==> e[0] < 0xF0))
            && (|e| > 3 ==> Continues(e, 3))
  {
    var n := c as int;
    if n >= 0x10000 {
      FourDigits(n, n / 262144, n / 4096 % 64, n / 64 % 64, n % 64);
    } else if n >= 0x800 {
      assert n == n / 4096 * 4096 + n / 64 % 64 * 64 + n % 64;
    }
  }

  /** Nothing longer than what the reader replaces begins a character. */
  lemma ReplacesEnough(b: seq<Byte>, k: nat)
    requires b != [] && k == First(b).1 && First(b).0 == REPLACEMENT && k < |b|
    ensures !Begins(b, k + 1)
  {
    forall c: char | k + 1 < |EncodeChar(c)| ensures EncodeChar(c)[..k + 1] != b[..k + 1] {
      var e := EncodeChar(c);
      EncodingIsAdmitted(c);
      assert forall i :: 0 <= i <= k ==> e[..k + 1][i] == e[i] && b[..k + 1][i] == b[i];
    }
  }

  /** A buffer that starts with a whole character is read as it; otherwise one U+FFFD stands for one byte, or for
      as many as begin a character, and never for more (section 3.9 of the Unicode Standard). */
  lemma FirstReadsExactly(b: seq<Byte>)
    requires b != []
    ensures forall c: char :: EncodeChar(c) <= b ==> First(b) == (c, |EncodeChar(c)|)
    ensures (forall c: char :: !(EncodeChar(c) <= b)) ==>
              var (read, k) := First(b);
              && read == REPLACEMENT && (k == 1 || Begins(b, k)) && (k < |b| ==> !Begins(b, k + 1))
  {
    forall c: char | EncodeChar(c) <= b ensures First(b) == (c, |EncodeChar(c)|) {
      assert b == EncodeChar(c) + b[|EncodeChar(c)|..];
      FirstOfEncoded(c, b[|EncodeChar(c)|..]);
    }
    if forall c: char :: !(EncodeChar(c) <= b) {
      NotWholeIsReplaced(b);
      if First(b).1 < |b| {
        ReplacesEnough(b, First(b).1);
      }
    }
  }

  lemma NotWholeIsReplaced(b: seq<Byte>)
    requires b != [] && forall c: char :: !(EncodeChar(c) <= b)
    ensures First(b).0 == REPLACEMENT && (First(b).1 == 1 || Begins(b, First(b).1))
  {
    WholeIsEncoded(b);
    var k := First(b).1;
    if k > 1 {
      if b[0] < 0xF0 { ThreeByteStart(b); } else { FourByteBegins(b); }
    }
  }

  /** What is not replaced is the encoding of what is read. */
  lemma WholeIsEncoded(b: seq<Byte>)
    requires b != []
    ensures First(b).0 == REPLACEMENT || EncodeChar(First(b).0) <= b
    ensures First(b).1 == 4 || (First(b).1 == 3 && b[0] < 0xF0) || (First(b).1 == 2 && b[0] < 0xE0) ==>
              EncodeChar(First(b).0) <= b
  {
    var (c, k) := First(b);
    if b[0] < 0x80 {
      assert EncodeChar(c) == [b[0]] == b[..1];
    } else if k == 2 && b[0] < 0xE0 {
      TwoWhole(b[0] - 0xC0, b[1] - 0x80, (b[0] as int - 0xC0) * 64 + b[1] - 0x80);
    } else if k == 3 && b[0] < 0xF0 {
      ThreeWhole(b[0] - 0xE0, b[1] - 0x80, b[2] - 0x80,
                 (b[0] as int - 0xE0) * 4096 + (b[1] as int - 0x80) * 64 + b[2] - 0x80);
    } else if k == 4 {
      FourWhole(b[0] - 0xF0, b[1] - 0x80, b[2] - 0x80, b[3] - 0x80,
                (b[0] as int - 0xF0) * 262144 + (b[1] as int - 0x80) * 4096 + (b[2] as int - 0x80) * 64
                + b[3] - 0x80);
    }
  }
}
