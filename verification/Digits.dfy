/** Runs of decimal digits: their value, and the order that padded runs share with it. */
module Digits {
  predicate Digit(c: char) { '0' <= c <= '9' }

  predicate AllDigits(s: string) { forall i :: 0 <= i < |s| ==> Digit(s[i]) }

  function Value(c: char): nat {
    if Digit(c) then c as int - '0' as int else 0
  }

  /** The value of a run of digits. */
  function Number(s: string): nat {
    if s == "" then 0 else Number(s[..|s| - 1]) * 10 + Value(s[|s| - 1])
  }

  function Ten(n: nat): (p: nat)
    ensures p >= 1
  {
    if n == 0 then 1 else 10 * Ten(n - 1)
  }

  function PadStart(s: string, width: nat): string
    decreases width - |s|
  {
    if |s| >= width then s else PadStart("0" + s, width)
  }

  function PadEnd(s: string, width: nat): string
    decreases width - |s|
  {
    if |s| >= width then s else PadEnd(s + "0", width)
  }

  /** Negative, zero or positive as the first difference decides; a prefix comes first. */
  function CompareText(a: string, b: string): int {
    if a == "" || b == "" then |a| - |b|
    else if a[0] < b[0] then -1
    else if a[0] > b[0] then 1
    else CompareText(a[1..], b[1..])
  }

  lemma ShiftedBy(v: nat, t: nat, m: nat, d: nat)
    ensures (v * t + m) * 10 + d == v * (10 * t) + (m * 10 + d)
  {
  }

  lemma {:induction false} NumberFromLeft(s: string)
    requires s != "" && AllDigits(s)
    ensures Number(s) == Value(s[0]) * Ten(|s| - 1) + Number(s[1..])
  {
    if |s| == 1 {
      assert s[..0] == "" && s[1..] == "";
    } else {
      var front := s[..|s| - 1];
      NumberFromLeft(front);
      assert front[0] == s[0] && front[1..] == s[1..][..|s| - 2] && s[1..][|s| - 2] == s[|s| - 1];
      ShiftedBy(Value(s[0]), Ten(|s| - 2), Number(front[1..]), Value(s[|s| - 1]));
    }
  }

  lemma {:induction false} NumberBound(s: string)
    requires AllDigits(s)
    ensures Number(s) < Ten(|s|)
  {
    if s != "" { NumberBound(s[..|s| - 1]); }
  }

  lemma ProductsInOrder(p: nat, q: nat, m: nat)
    requires p <= q
    ensures p * m <= q * m
  {
  }

  lemma LeadDecides(x: nat, y: nat, p: nat, m: nat, n: nat)
    requires x < y && m < p && n < p
    ensures x * p + m < y * p + n
  {
    ProductsInOrder(x + 1, y, p);
    assert (x + 1) * p == x * p + p;
  }

  /** On runs of one length, comparing texts compares numbers. */
  lemma {:induction false} CompareIsNumeric(a: string, b: string)
    requires |a| == |b| && AllDigits(a) && AllDigits(b)
    ensures CompareText(a, b) < 0 <==> Number(a) < Number(b)
    ensures CompareText(a, b) == 0 <==> Number(a) == Number(b)
  {
    if a != "" {
      NumberFromLeft(a);
      NumberFromLeft(b);
      NumberBound(a[1..]);
      NumberBound(b[1..]);
      if a[0] < b[0] {
        LeadDecides(Value(a[0]), Value(b[0]), Ten(|a| - 1), Number(a[1..]), Number(b[1..]));
      } else if a[0] > b[0] {
        LeadDecides(Value(b[0]), Value(a[0]), Ten(|a| - 1), Number(b[1..]), Number(a[1..]));
      } else {
        CompareIsNumeric(a[1..], b[1..]);
      }
    }
  }

  lemma {:induction false} PadStartKeeps(s: string, width: nat)
    requires AllDigits(s) && |s| <= width
    ensures |PadStart(s, width)| == width && AllDigits(PadStart(s, width)) && Number(PadStart(s, width)) == Number(s)
    decreases width - |s|
  {
    if |s| < width {
      NumberFromLeft("0" + s);
      assert ("0" + s)[1..] == s;
      PadStartKeeps("0" + s, width);
    }
  }

  lemma Tenfold(n: nat, k: nat, t: nat, scale: nat)
    requires t == n * 10 && scale == 10 * k
    ensures t * k == n * scale
  {
  }

  lemma {:induction false} PadEndScales(s: string, width: nat)
    requires AllDigits(s) && |s| <= width
    ensures |PadEnd(s, width)| == width && AllDigits(PadEnd(s, width))
    ensures Number(PadEnd(s, width)) == Number(s) * Ten(width - |s|)
    decreases width - |s|
  {
    if |s| < width {
      var t := s + "0";
      assert t[..|t| - 1] == s;
      PadEndScales(t, width);
      assert Number(t) == Number(s) * 10;
      Tenfold(Number(s), Ten(width - |t|), Number(t), Ten(width - |s|));
    }
  }

  lemma {:induction false} CompareTextFlips(a: string, b: string)
    ensures CompareText(a, b) < 0 <==> CompareText(b, a) > 0
    ensures CompareText(a, b) == 0 <==> a == b
  {
    if a != "" && b != "" {
      CompareTextFlips(a[1..], b[1..]);
      assert a == [a[0]] + a[1..] && b == [b[0]] + b[1..];
    }
  }

  lemma {:induction false} CompareTextTransitive(a: string, b: string, c: string)
    requires CompareText(a, b) <= 0 && CompareText(b, c) <= 0
    ensures CompareText(a, c) <= 0
  {
    if a != "" && b != "" && c != "" && a[0] == b[0] == c[0] {
      CompareTextTransitive(a[1..], b[1..], c[1..]);
    }
  }
}
