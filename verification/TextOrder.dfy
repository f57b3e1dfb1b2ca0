/** The host language's string order: code unit by code unit in UTF-16, so not by code point. */
module TextOrder {
  import Sorting

  function CharUnits(c: char): seq<nat> {
    if c as int < 0x10000 then [c as int]
    else [0xD800 + (c as int - 0x10000) / 0x400, 0xDC00 + (c as int - 0x10000) % 0x400]
  }

  function Units(s: string): seq<nat> {
    if s == "" then [] else CharUnits(s[0]) + Units(s[1..])
  }

  predicate LexLe(a: seq<nat>, b: seq<nat>) {
    a == [] || (b != [] && (a[0] < b[0] || (a[0] == b[0] && LexLe(a[1..], b[1..]))))
  }

  predicate TextLe(a: string, b: string) { LexLe(Units(a), Units(b)) }

  /** Section 2.1 of RFC 2781: a character is its own unit, or a high and a low surrogate that give it back. */
  lemma CharUnitsAre(c: char)
    ensures var u, code := CharUnits(c), c as int;
            if code < 0x10000 then u == [code]
            else && |u| == 2 && 0xD800 <= u[0] < 0xDC00 && 0xDC00 <= u[1] < 0xE000
                 && 0x10000 + (u[0] - 0xD800) * 0x400 + (u[1] - 0xDC00) == code
  {
  }

  /** The first difference decides; a text comes before its own extensions. */
  lemma {:induction false} FirstDifferenceDecides(a: seq<nat>, b: seq<nat>, k: nat)
    requires k <= |a| && k <= |b| && a[..k] == b[..k] && (k < |a| && k < |b| ==> a[k] != b[k])
    ensures LexLe(a, b) <==> k == |a| || (k < |b| && a[k] < b[k])
  {
    if k > 0 {
      assert a[0] == a[..k][0] == b[..k][0] == b[0];
      assert a[1..][..k - 1] == a[..k][1..] == b[..k][1..] == b[1..][..k - 1];
      FirstDifferenceDecides(a[1..], b[1..], k - 1);
    }
  }

  // ---------------------------------------------------------------- a total order

  lemma {:induction false} LexTotal(a: seq<nat>, b: seq<nat>)
    ensures LexLe(a, b) || LexLe(b, a)
  {
    if a != [] && b != [] { LexTotal(a[1..], b[1..]); }
  }

  lemma {:induction false} LexAntisymmetric(a: seq<nat>, b: seq<nat>)
    requires LexLe(a, b) && LexLe(b, a)
    ensures a == b
  {
    if a != [] {
      LexAntisymmetric(a[1..], b[1..]);
      assert a == [a[0]] + a[1..] && b == [b[0]] + b[1..];
    }
  }

  lemma {:induction false} LexTransitive(a: seq<nat>, b: seq<nat>, c: seq<nat>)
    requires LexLe(a, b) && LexLe(b, c)
    ensures LexLe(a, c)
  {
    if a != [] && a[0] == b[0] == c[0] { LexTransitive(a[1..], b[1..], c[1..]); }
  }

  /** A character's units tell where it ends, so a text can be read back from its units. */
  lemma {:induction false} UnitsInjective(a: string, b: string)
    requires Units(a) == Units(b)
    ensures a == b
  {
    if a != "" && b != "" {
      var u := Units(a);
      assert u[0] == CharUnits(a[0])[0] == CharUnits(b[0])[0];
      assert |CharUnits(a[0])| == |CharUnits(b[0])|;
      assert CharUnits(a[0]) == u[..|CharUnits(a[0])|] == CharUnits(b[0]);
      SameChar(a[0], b[0]);
      assert Units(a[1..]) == u[|CharUnits(a[0])|..] == Units(b[1..]);
      UnitsInjective(a[1..], b[1..]);
    }
  }

  lemma SameChar(a: char, b: char)
    requires CharUnits(a) == CharUnits(b)
    ensures a == b
  {
    if |CharUnits(a)| == 2 {
      var x, y := a as int - 0x10000, b as int - 0x10000;
      assert CharUnits(a)[0] == CharUnits(b)[0] && CharUnits(a)[1] == CharUnits(b)[1];
      assert x / 0x400 == y / 0x400 && x % 0x400 == y % 0x400;
      assert a as int == b as int;
    } else {
      assert CharUnits(a)[0] == CharUnits(b)[0];
    }
  }

  lemma TextOrderIsTotal()
    ensures Sorting.TotalOrder(TextLe)
  {
    forall a: string, b: string ensures TextLe(a, b) || TextLe(b, a) { LexTotal(Units(a), Units(b)); }
    forall a: string, b: string | TextLe(a, b) && TextLe(b, a) ensures a == b {
      LexAntisymmetric(Units(a), Units(b));
      UnitsInjective(a, b);
    }
    forall a: string, b: string, c: string | TextLe(a, b) && TextLe(b, c) ensures TextLe(a, c) {
      LexTransitive(Units(a), Units(b), Units(c));
    }
  }
}
