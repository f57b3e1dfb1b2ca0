/** IPv4 prefixes: which texts are accepted, when two blocks overlap, and what a passing preflight means. */
module Cidr {
  import opened Digits
  import opened Options
  import Strings

  /** The block of addresses `start .. start + Size(prefix)`. */
  datatype Block = Block(start: nat, prefix: nat)

  predicate OctetText(s: string) { 1 <= |s| <= 3 && AllDigits(s) }

  /** One digit, 10 to 29, or 30 to 32, without a leading zero. */
  predicate PrefixText(s: string) {
    || (|s| == 1 && AllDigits(s))
    || (|s| == 2 && AllDigits(s) && (s[0] == '1' || s[0] == '2'))
    || (|s| == 2 && AllDigits(s) && s[0] == '3' && s[1] <= '2')
  }

  function Power(n: nat): (p: nat)
    ensures p >= 1
  {
    if n == 0 then 1 else 2 * Power(n - 1)
  }

  function Size(prefix: nat): (size: nat)
    requires prefix <= 32
    ensures size >= 1
  {
    Power(32 - prefix)
  }

  function Address(octets: seq<nat>): nat {
    if octets == [] then 0 else Address(octets[..|octets| - 1]) * 256 + octets[|octets| - 1]
  }

  function Numbers(parts: seq<string>): (r: seq<nat>)
    ensures |r| == |parts| && forall i :: 0 <= i < |parts| ==> r[i] == Number(parts[i])
  {
    if parts == [] then [] else [Number(parts[0])] + Numbers(parts[1..])
  }

  /** Accepts four octets and a prefix length, when no bit is set below the prefix. */
  function Parse(text: string): (block: Option<Block>)
    ensures block.Some? ==> block.value.prefix <= 32 && block.value.start % Size(block.value.prefix) == 0
  {
    var halves := Strings.Split(text, '/');
    if |halves| != 2 || !PrefixText(halves[1]) then None
    else
      var parts := Strings.Split(halves[0], '.');
      if |parts| != 4 || exists part <- parts :: !OctetText(part) then None
      else
        PrefixNumber(halves[1]);
        var octets, prefix := Numbers(parts), Number(halves[1]);
        if exists octet <- octets :: octet > 255 then None
        else if Address(octets) / Size(prefix) * Size(prefix) != Address(octets) then None
        else
          Aligned(Address(octets), Size(prefix));
          Some(Block(Address(octets), prefix))
  }

  lemma PrefixNumber(s: string)
    requires PrefixText(s)
    ensures Number(s) <= 32
  {
    if |s| == 2 {
      assert s[..1][..0] == "" && s[..1][0] == s[0];
      assert Number(s[..1]) == Number(s[..1][..0]) * 10 + Value(s[0]);
    } else {
      assert s[..0] == "";
    }
  }

  lemma Aligned(n: nat, size: nat)
    requires size >= 1 && n / size * size == n
    ensures n % size == 0
  {
  }

  // ---------------------------------------------------------------- addresses

  /** Section 3.1 of RFC 4632: an address is in a block when their leading `prefix` bits agree. */
  predicate Contains(b: Block, address: nat)
    requires b.prefix <= 32
  {
    address / Size(b.prefix) == b.start / Size(b.prefix)
  }

  predicate ValidBlock(b: Block) { b.prefix <= 32 && b.start % Size(b.prefix) == 0 }

  function Last(b: Block): nat
    requires b.prefix <= 32
  {
    b.start + Size(b.prefix) - 1
  }

  predicate Overlap(a: Block, b: Block)
    requires a.prefix <= 32 && b.prefix <= 32
  {
    a.start <= Last(b) && b.start <= Last(a)
  }

  lemma Quotient(n: nat, size: nat, start: nat)
    requires size >= 1 && start % size == 0
    ensures n / size == start / size <==> start <= n < start + size
  {
    var q := start / size;
    assert start == q * size;
    assert n == n / size * size + n % size;
    if n / size < q {
      assert (n / size + 1) * size <= q * size;
    } else if n / size > q {
      assert (q + 1) * size <= n / size * size;
    }
  }

  /** The leading bits agree exactly between the block's first and last address. */
  lemma ContainsIsRange(b: Block, address: nat)
    requires ValidBlock(b)
    ensures Contains(b, address) <==> b.start <= address <= Last(b)
  {
    Quotient(address, Size(b.prefix), b.start);
  }

  /** Overlap is reported exactly when some address lies in both blocks. */
  lemma OverlapExactly(a: Block, b: Block)
    requires ValidBlock(a) && ValidBlock(b)
    ensures Overlap(a, b) <==> exists address: nat :: Contains(a, address) && Contains(b, address)
  {
    if Overlap(a, b) {
      var address := if a.start <= b.start then b.start else a.start;
      ContainsIsRange(a, address);
      ContainsIsRange(b, address);
    }
    forall address: nat | Contains(a, address) && Contains(b, address) ensures Overlap(a, b) {
      ContainsIsRange(a, address);
      ContainsIsRange(b, address);
    }
  }

  lemma Doubled(a: nat, b: nat, c: nat)
    requires c == a * b
    ensures 2 * c == 2 * a * b
  {
  }

  lemma {:induction false} PowerSplits(i: nat, j: nat)
    ensures Power(i + j) == Power(i) * Power(j)
  {
    if i > 0 {
      PowerSplits(i - 1, j);
      Doubled(Power(i - 1), Power(j), Power(i + j - 1));
    }
  }

  lemma Multiples(x: nat, y: nat, m: nat)
    requires m >= 1 && x % m == 0 && y % m == 0 && x < y
    ensures x + m <= y
  {
    var p, q := x / m, y / m;
    assert x == p * m && y == q * m;
    if q <= p {
      ProductsInOrder(q, p, m);
      assert false;
    }
    ProductsInOrder(p + 1, q, m);
    assert (p + 1) * m == x + m;
  }

  lemma MultipleOfMultiple(n: nat, k: nat, m: nat)
    requires k >= 1 && m >= 1 && n % (k * m) == 0
    ensures n % m == 0
  {
    assert k * m >= 1;
    var q := n / (k * m);
    assert n == q * (k * m) == q * k * m;
    MultipleHasNoRemainder(q * k, m);
  }

  lemma MultipleHasNoRemainder(q: nat, m: nat)
    requires m >= 1
    ensures q * m % m == 0
  {
    var n := q * m;
    var d := q - n / m;
    assert n == n / m * m + n % m;
    assert d * m == n % m by {
      assert d * m == q * m - n / m * m;
    }
    assert d >= 1 ==> d * m >= m;
    assert d <= -1 ==> d * m + m <= 0;
  }

  predicate Inside(a: Block, b: Block)
    requires a.prefix <= 32 && b.prefix <= 32
  {
    b.start <= a.start && Last(a) <= Last(b)
  }

  /** Overlapping blocks are nested: the one with the longer prefix lies inside the other. */
  lemma OverlappingAreNested(a: Block, b: Block)
    requires ValidBlock(a) && ValidBlock(b) && Overlap(a, b)
    ensures if a.prefix >= b.prefix then Inside(a, b) else Inside(b, a)
  {
    if a.prefix >= b.prefix { LongerIsInside(a, b); } else { LongerIsInside(b, a); }
  }

  lemma LongerIsInside(a: Block, b: Block)
    requires ValidBlock(a) && ValidBlock(b) && Overlap(a, b) && a.prefix >= b.prefix
    ensures Inside(a, b)
  {
    var m, k := Size(a.prefix), Power(a.prefix - b.prefix);
    PowerSplits(a.prefix - b.prefix, 32 - a.prefix);
    assert Size(b.prefix) == k * m;
    MultipleOfMultiple(b.start, k, m);
    if a.start < b.start { Multiples(a.start, b.start, m); }
    EndAligned(b.start, k, m);
    Multiples(a.start, b.start + Size(b.prefix), m);
  }

  lemma EndAligned(start: nat, k: nat, m: nat)
    requires k >= 1 && m >= 1 && start % m == 0
    ensures (start + k * m) % m == 0
  {
    assert start + k * m == (start / m + k) * m;
    MultipleHasNoRemainder(start / m + k, m);
  }

  // ---------------------------------------------------------------- the preflight

  datatype Preflight = Passed | Collision | Unreadable

  /** Both texts are readable and their blocks have no address in common. */
  ghost predicate Apart(subnet: string, other: string) {
    && Parse(subnet).Some? && Parse(other).Some?
    && forall address: nat :: !(Contains(Parse(subnet).value, address) && Contains(Parse(other).value, address))
  }

  ghost predicate Meet(subnet: string, other: string) {
    && Parse(subnet).Some? && Parse(other).Some?
    && exists address: nat :: Contains(Parse(subnet).value, address) && Contains(Parse(other).value, address)
  }

  /** The collision check: it passes exactly when every candidate is apart from the subnet, and otherwise the first
      one that is not decides. */
  method AssertNoCollision(subnet: string, observed: seq<string>) returns (r: Preflight)
    ensures r.Passed? <==> forall i :: 0 <= i < |observed| ==> Apart(subnet, observed[i])
    ensures r.Collision? <==> exists i :: 0 <= i < |observed| && Meet(subnet, observed[i])
                                          && forall k :: 0 <= k < i ==> Apart(subnet, observed[k])
    ensures r.Unreadable? <==> exists i :: 0 <= i < |observed|
                                           && (Parse(subnet).None? || Parse(observed[i]).None?)
                                           && forall k :: 0 <= k < i ==> Apart(subnet, observed[k])
  {
    for i := 0 to |observed|
      invariant forall k :: 0 <= k < i ==> Apart(subnet, observed[k])
    {
      var left, right := Parse(subnet), Parse(observed[i]);
      if left.None? || right.None? { return Unreadable; }
      OverlapExactly(left.value, right.value);
      if Overlap(left.value, right.value) { return Collision; }
    }
    return Passed;
  }

  // ---------------------------------------------------------------- the pool

  function ThreeDigits(n: nat): string
    requires n < 1000
  {
    ['0' + (n / 100) as char, '0' + (n / 10 % 10) as char, '0' + (n % 10) as char]
  }

  /** The /24 of a private second and third octet, both written with three digits. */
  function PoolText(b: nat, c: nat): string
    requires 100 <= b < 256 && 100 <= c < 256
  {
    Strings.Join([Strings.Join(["10", ThreeDigits(b), ThreeDigits(c), "0"], "."), "24"], "/")
  }

  lemma ThreeDigitsNumber(n: nat)
    requires n < 1000
    ensures OctetText(ThreeDigits(n)) && Number(ThreeDigits(n)) == n && '.' !in ThreeDigits(n) && '/' !in ThreeDigits(n)
  {
    var s := ThreeDigits(n);
    ThreeDigitText(s);
    assert n == n / 100 * 100 + n / 10 % 10 * 10 + n % 10;
  }

  lemma ThreeDigitText(s: string)
    requires |s| == 3
    ensures Number(s) == Value(s[0]) * 100 + Value(s[1]) * 10 + Value(s[2])
  {
    assert s[..2][..1] == [s[0]] && [s[0]][..0] == "" && s[..2][1] == s[1];
    assert Number([s[0]]) == Number([s[0]][..0]) * 10 + Value(s[0]);
    assert Number(s[..2]) == Number(s[..2][..1]) * 10 + Value(s[1]);
  }

  lemma SmallNumbers()
    ensures Number("10") == 10 && Number("0") == 0 && Number("24") == 24
  {
    assert "10"[..1] == "1" && "24"[..1] == "2" && "1"[..0] == "" && "2"[..0] == "" && "0"[..0] == "";
    assert Number("1") == 1 && Number("2") == 2;
  }

  lemma PoolSplits(b: nat, c: nat)
    requires 100 <= b < 256 && 100 <= c < 256
    ensures var parts := ["10", ThreeDigits(b), ThreeDigits(c), "0"];
            && Strings.Split(PoolText(b, c), '/') == [Strings.Join(parts, "."), "24"]
            && Strings.Split(Strings.Join(parts, "."), '.') == parts
  {
    var parts := ["10", ThreeDigits(b), ThreeDigits(c), "0"];
    ThreeDigitsNumber(b);
    ThreeDigitsNumber(c);
    Strings.SplitJoin(parts, '.');
    JoinHasNo(parts, '.', '/');
    Strings.SplitJoin([Strings.Join(parts, "."), "24"], '/');
  }

  lemma {:induction false} JoinHasNo(parts: seq<string>, separator: char, c: char)
    requires c != separator && forall part :: part in parts ==> c !in part
    ensures c !in Strings.Join(parts, [separator])
  {
    if |parts| > 0 { assert c !in parts[0]; }
    if |parts| > 1 { JoinHasNo(parts[1..], separator, c); }
  }

  lemma PowerEight()
    ensures Power(8) == 256
  {
    assert Power(1) == 2 && Power(2) == 4 && Power(3) == 8 && Power(4) == 16;
    assert Power(5) == 32 && Power(6) == 64 && Power(7) == 128;
  }

  lemma OneMore(octets: seq<nat>, octet: nat)
    ensures Address(octets + [octet]) == Address(octets) * 256 + octet
  {
    assert (octets + [octet])[..|octets|] == octets;
  }

  lemma FourOctets(a: nat, b: nat, c: nat, d: nat)
    ensures Address([a, b, c, d]) == ((a * 256 + b) * 256 + c) * 256 + d
  {
    assert [] + [a] == [a] && [a] + [b] == [a, b] && [a, b] + [c] == [a, b, c] && [a, b, c] + [d] == [a, b, c, d];
    OneMore([], a);
    OneMore([a], b);
    OneMore([a, b], c);
    OneMore([a, b, c], d);
  }

  lemma PoolOctets(b: nat, c: nat)
    requires 100 <= b < 256 && 100 <= c < 256
    ensures Numbers(["10", ThreeDigits(b), ThreeDigits(c), "0"]) == [10, b, c, 0]
  {
    SmallNumbers();
    ThreeDigitsNumber(b);
    ThreeDigitsNumber(c);
    var parts := ["10", ThreeDigits(b), ThreeDigits(c), "0"];
    assert parts[0] == "10" && parts[1] == ThreeDigits(b) && parts[2] == ThreeDigits(c) && parts[3] == "0";
  }

  lemma ParseOfParts(text: string, address: string, length: string, parts: seq<string>, octets: seq<nat>, start: nat,
                     prefix: nat)
    requires Strings.Split(text, '/') == [address, length] && Strings.Split(address, '.') == parts && |parts| == 4
             && PrefixText(length)
    requires (forall part :: part in parts ==> OctetText(part)) && Numbers(parts) == octets
             && forall octet :: octet in octets ==> octet <= 255
    requires Number(length) == prefix <= 32 && Address(octets) == start && start / Size(prefix) * Size(prefix) == start
    ensures Parse(text) == Some(Block(start, prefix))
  {
  }

  lemma PoolPartTexts(b: nat, c: nat)
    requires 100 <= b < 256 && 100 <= c < 256
    ensures forall part :: part in ["10", ThreeDigits(b), ThreeDigits(c), "0"] ==> OctetText(part)
  {
    ThreeDigitsNumber(b);
    ThreeDigitsNumber(c);
    assert OctetText("10") && OctetText("0");
  }

  lemma PoolParses(b: nat, c: nat)
    requires 100 <= b < 256 && 100 <= c < 256
    ensures Parse(PoolText(b, c)) == Some(Block(((10 * 256 + b) * 256 + c) * 256, 24))
  {
    var parts, start := ["10", ThreeDigits(b), ThreeDigits(c), "0"], ((10 * 256 + b) * 256 + c) * 256;
    PoolSplits(b, c);
    PoolOctets(b, c);
    PoolPartTexts(b, c);
    FourOctets(10, b, c, 0);
    assert Size(24) == 256 by { PowerEight(); }
    assert Number("24") == 24 by { SmallNumbers(); }
    assert PrefixText("24");
    ParseOfParts(PoolText(b, c), Strings.Join(parts, "."), "24", parts, [10, b, c, 0], start, 24);
  }

  lemma Slash24Disjoint(n: nat, n': nat, address: nat)
    requires n != n'
    ensures !(Contains(Block(n * 256, 24), address) && Contains(Block(n' * 256, 24), address))
  {
    PowerEight();
    MultipleHasNoRemainder(n, 256);
    MultipleHasNoRemainder(n', 256);
    ContainsIsRange(Block(n * 256, 24), address);
    ContainsIsRange(Block(n' * 256, 24), address);
  }

  /** Different subnets written this way share no address. */
  lemma PoolTextsDisjoint(b: nat, c: nat, b': nat, c': nat, address: nat)
    requires 100 <= b < 256 && 100 <= c < 256 && 100 <= b' < 256 && 100 <= c' < 256 && (b != b' || c != c')
    ensures Parse(PoolText(b, c)).Some? && Parse(PoolText(b', c')).Some?
    ensures !(Contains(Parse(PoolText(b, c)).value, address) && Contains(Parse(PoolText(b', c')).value, address))
  {
    PoolParses(b, c);
    PoolParses(b', c');
    Slash24Disjoint((10 * 256 + b) * 256 + c, (10 * 256 + b') * 256 + c', address);
  }
}
