/** Which texts are IPv4 prefixes, and which block each of them is. */
module CidrText {
  import opened Cidr
  import opened Digits
  import opened Options
  import Strings

  /** One to three decimal digits. */
  predicate Octet(s: string) {
    0 < |s| < 4 && forall i :: 0 <= i < |s| ==> 48 <= s[i] as int <= 57
  }

  /** A prefix length in decimal, without a leading zero. */
  function LengthText(prefix: nat): string
    requires prefix <= 32
  {
    if prefix < 10 then [(48 + prefix) as char] else [(48 + prefix / 10) as char, (48 + prefix % 10) as char]
  }

  function Text(a: string, b: string, c: string, d: string, prefix: nat): string
    requires prefix <= 32
  {
    a + "." + b + "." + c + "." + d + "/" + LengthText(prefix)
  }

  function Start(a: string, b: string, c: string, d: string): nat {
    16777216 * Number(a) + 65536 * Number(b) + 256 * Number(c) + Number(d)
  }

  lemma LengthIs(prefix: nat)
    requires prefix <= 32
    ensures PrefixText(LengthText(prefix)) && Number(LengthText(prefix)) == prefix
    ensures '/' !in LengthText(prefix)
  {
    var s := LengthText(prefix);
    if prefix < 10 {
      assert s[..0] == "" && Number(s) == Number(s[..0]) * 10 + Value(s[0]);
    } else {
      TwoDigits(s);
    }
  }

  lemma TwoDigits(s: string)
    requires |s| == 2
    ensures Number(s) == Value(s[0]) * 10 + Value(s[1])
  {
    assert s[..1] == [s[0]] && [s[0]][..0] == "";
    assert Number([s[0]]) == Number([s[0]][..0]) * 10 + Value(s[0]);
  }

  lemma LengthOf(s: string)
    requires PrefixText(s)
    ensures Number(s) <= 32 && s == LengthText(Number(s))
  {
    PrefixNumber(s);
    if |s| == 1 {
      assert s[..0] == "" && Number(s) == Number(s[..0]) * 10 + Value(s[0]);
    } else {
      TwoDigits(s);
    }
  }

  lemma JoinedIs(parts: seq<string>, length: string)
    requires |parts| == 4
    ensures Strings.Join([Strings.Join(parts, "."), length], "/")
              == parts[0] + "." + parts[1] + "." + parts[2] + "." + parts[3] + "/" + length
  {
    var a, b, c, d := parts[0], parts[1], parts[2], parts[3];
    assert parts[1..] == [b, c, d] && [b, c, d][1..] == [c, d] && [c, d][1..] == [d];
    assert Strings.Join([c, d], ".") == c + "." + Strings.Join([d], ".");
    assert Strings.Join([b, c, d], ".") == b + "." + Strings.Join([c, d], ".");
    assert Strings.Join(parts, ".") == a + "." + Strings.Join([b, c, d], ".");
    assert a + "." + (b + "." + (c + "." + d)) == a + "." + b + "." + c + "." + d;
    var address := Strings.Join(parts, ".");
    assert [address, length][1..] == [length];
    assert Strings.Join([address, length], "/") == address + "/" + Strings.Join([length], "/");
  }

  /** Splitting such a text gives its pieces. */
  lemma Pieces(parts: seq<string>, length: string)
    requires |parts| == 4 && (forall part :: part in parts ==> Octet(part)) && '/' !in length
    ensures Strings.Split(Strings.Join([Strings.Join(parts, "."), length], "/"), '/')
              == [Strings.Join(parts, "."), length]
    ensures Strings.Split(Strings.Join(parts, "."), '.') == parts
  {
    forall part | part in parts ensures '.' !in part && '/' !in part {
      assert Octet(part);
    }
    Strings.SplitJoin(parts, '.');
    JoinHasNo(parts, '.', '/');
    Strings.SplitJoin([Strings.Join(parts, "."), length], '/');
  }

  lemma StartOf(parts: seq<string>)
    requires |parts| == 4
    ensures Address(Numbers(parts)) == Start(parts[0], parts[1], parts[2], parts[3])
  {
    var octets := Numbers(parts);
    assert octets == [octets[0], octets[1], octets[2], octets[3]];
    FourOctets(octets[0], octets[1], octets[2], octets[3]);
  }

  lemma AlignedExactly(n: nat, size: nat)
    requires size >= 1
    ensures n / size * size == n <==> n % size == 0
  {
    assert n == n / size * size + n % size;
  }

  lemma ParsePieces(text: string, address: string, length: string, parts: seq<string>, octets: seq<nat>, start: nat,
                    prefix: nat)
    requires Strings.Split(text, '/') == [address, length] && Strings.Split(address, '.') == parts && |parts| == 4
             && PrefixText(length)
    requires (forall part :: part in parts ==> OctetText(part)) && Numbers(parts) == octets
    requires Number(length) == prefix <= 32 && Address(octets) == start
    ensures Parse(text) == if (forall octet :: octet in octets ==> octet <= 255)
                              && start / Size(prefix) * Size(prefix) == start
                           then Some(Block(start, prefix)) else None
  {
  }

  lemma AllFour(octets: seq<nat>, w: nat, x: nat, y: nat, z: nat)
    requires octets == [w, x, y, z]
    ensures (forall octet :: octet in octets ==> octet <= 255) <==> w <= 255 && x <= 255 && y <= 255 && z <= 255
  {
    assert w in octets && x in octets && y in octets && z in octets;
  }

  /** Four octets and a length are accepted exactly when no octet exceeds 255 and no address bit is set below the
      prefix, and the block starts at the address the octets spell, most significant first. */
  lemma TextParsesExactly(a: string, b: string, c: string, d: string, prefix: nat)
    requires Octet(a) && Octet(b) && Octet(c) && Octet(d) && prefix <= 32
    ensures Parse(Text(a, b, c, d, prefix)) ==
              if Number(a) <= 255 && Number(b) <= 255 && Number(c) <= 255 && Number(d) <= 255
                 && Start(a, b, c, d) % Power(32 - prefix) == 0
              then Some(Block(Start(a, b, c, d), prefix)) else None
  {
    var parts, length := [a, b, c, d], LengthText(prefix);
    JoinedIs(parts, length);
    LengthIs(prefix);
    Pieces(parts, length);
    StartOf(parts);
    AlignedExactly(Start(a, b, c, d), Size(prefix));
    var octets := Numbers(parts);
    assert octets == [Number(a), Number(b), Number(c), Number(d)];
    AllFour(octets, Number(a), Number(b), Number(c), Number(d));
    assert forall part :: part in parts ==> OctetText(part);
    ParsePieces(Text(a, b, c, d, prefix), Strings.Join(parts, "."), length, parts, octets, Start(a, b, c, d), prefix);
  }

  /** And nothing else is accepted. */
  lemma OnlyTextsParse(text: string) returns (a: string, b: string, c: string, d: string, prefix: nat)
    requires Parse(text).Some?
    ensures prefix <= 32 && text == Text(a, b, c, d, prefix)
    ensures Octet(a) && Octet(b) && Octet(c) && Octet(d)
  {
    var halves := Strings.Split(text, '/');
    var parts := Strings.Split(halves[0], '.');
    assert OctetText(parts[0]) && OctetText(parts[1]) && OctetText(parts[2]) && OctetText(parts[3]);
    a, b, c, d, prefix := parts[0], parts[1], parts[2], parts[3], Number(halves[1]);
    LengthOf(halves[1]);
    Strings.JoinSplit(text, '/');
    Strings.JoinSplit(halves[0], '.');
    assert halves == [Strings.Join(parts, "."), LengthText(prefix)];
    JoinedIs(parts, LengthText(prefix));
  }
}
