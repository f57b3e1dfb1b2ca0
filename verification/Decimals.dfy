/** Area values: a decimal grammar, and an order on padded texts that is the order of the numbers. */
module Decimals {
  import opened Digits
  import Sorting
  import Strings

  /** A whole part without leading zeros of at most ten digits, and at most two digits after a point. */
  predicate Decimal(text: string) {
    var n := Strings.IndexOf(text, '.');
    && WholeText(text[..n])
    && (n < |text| ==> 1 <= |text[n + 1..]| <= 2 && AllDigits(text[n + 1..]))
  }

  predicate WholeText(s: string) {
    1 <= |s| <= 10 && AllDigits(s) && (s[0] == '0' ==> s == "0")
  }

  function Whole(text: string): string { text[..Strings.IndexOf(text, '.')] }

  function Fraction(text: string): string {
    var n := Strings.IndexOf(text, '.');
    if n == |text| then "" else text[n + 1..]
  }

  /** The value in hundredths. */
  function Hundredths(text: string): nat {
    var f := Fraction(text);
    Number(Whole(text)) * 100 + if |f| == 1 then Number(f) * 10 else Number(f)
  }

  function Compare(left: string, right: string): int {
    var a, b := PadStart(Whole(left), 10), PadStart(Whole(right), 10);
    if a == b then CompareText(PadEnd(Fraction(left), 2), PadEnd(Fraction(right), 2)) else CompareText(a, b)
  }

  lemma Parts(text: string)
    requires Decimal(text)
    ensures AllDigits(Whole(text)) && |Whole(text)| <= 10 && AllDigits(Fraction(text)) && |Fraction(text)| <= 2
  {
  }

  lemma Padded(text: string)
    requires Decimal(text)
    ensures var w, f := PadStart(Whole(text), 10), PadEnd(Fraction(text), 2);
            && |w| == 10 && AllDigits(w) && |f| == 2 && AllDigits(f) && Number(f) < 100
            && Hundredths(text) == Number(w) * 100 + Number(f)
  {
    Parts(text);
    PadStartKeeps(Whole(text), 10);
    PadEndScales(Fraction(text), 2);
    NumberBound(PadEnd(Fraction(text), 2));
    assert Ten(1) == 10 && Ten(2) == 10 * Ten(1);
  }

  /** Comparing two accepted texts compares their values: smaller, equal and larger exactly when they are. */
  lemma CompareIsNumericOrder(left: string, right: string)
    requires Decimal(left) && Decimal(right)
    ensures Compare(left, right) < 0 <==> Hundredths(left) < Hundredths(right)
    ensures Compare(left, right) == 0 <==> Hundredths(left) == Hundredths(right)
  {
    Padded(left);
    Padded(right);
    var a, b := PadStart(Whole(left), 10), PadStart(Whole(right), 10);
    CompareIsNumeric(a, b);
    CompareTextFlips(a, b);
    CompareIsNumeric(PadEnd(Fraction(left), 2), PadEnd(Fraction(right), 2));
  }

  predicate AtMost(left: string, right: string) { Compare(left, right) <= 0 }

  lemma AtMostIsPreorder()
    ensures Sorting.TotalPreorder(AtMost)
  {
    forall a: string, b: string ensures AtMost(a, b) || AtMost(b, a) {
      CompareTextFlips(PadStart(Whole(a), 10), PadStart(Whole(b), 10));
      CompareTextFlips(PadEnd(Fraction(a), 2), PadEnd(Fraction(b), 2));
    }
    forall a: string, b: string, c: string | AtMost(a, b) && AtMost(b, c) ensures AtMost(a, c) {
      AtMostTransitive(a, b, c);
    }
  }

  lemma AtMostTransitive(a: string, b: string, c: string)
    requires AtMost(a, b) && AtMost(b, c)
    ensures AtMost(a, c)
  {
    var x, y, z := PadStart(Whole(a), 10), PadStart(Whole(b), 10), PadStart(Whole(c), 10);
    CompareTextFlips(x, y);
    CompareTextFlips(y, z);
    CompareTextFlips(x, z);
    if x == y == z {
      CompareTextTransitive(PadEnd(Fraction(a), 2), PadEnd(Fraction(b), 2), PadEnd(Fraction(c), 2));
    } else {
      CompareTextTransitive(x, y, z);
      if x == z { CompareTextFlips(y, x); }
    }
  }

  // ---------------------------------------------------------------- the grammar, spelled out

  /** `n` digits at most, and at least one. */
  predicate Run(s: string, n: nat) {
    0 < |s| <= n && forall i :: 0 <= i < |s| ==> 48 <= s[i] as int <= 57
  }

  lemma RunIs(s: string, n: nat)
    ensures Run(s, n) <==> 1 <= |s| <= n && AllDigits(s)
    ensures Run(s, n) ==> '.' !in s
  {
  }

  /** Where the parts of a spelled-out decimal are. */
  lemma PartsOf(whole: string, fraction: string)
    requires '.' !in whole
    ensures Whole(whole) == whole && Fraction(whole) == ""
    ensures Whole(whole + ['.'] + fraction) == whole && Fraction(whole + ['.'] + fraction) == fraction
    ensures Strings.IndexOf(whole + ['.'] + fraction, '.') == |whole| == Strings.IndexOf(whole, '.')
  {
    var text := whole + ['.'] + fraction;
    assert forall i :: 0 <= i < |whole| ==> text[i] == whole[i];
    Strings.IndexOfFirst(whole, '.', |whole|);
    Strings.IndexOfFirst(text, '.', |whole|);
    assert text[..|whole|] == whole && text[|whole| + 1..] == fraction && whole[..|whole|] == whole;
  }

  predicate Spelled(text: string, whole: string, fraction: string) {
    && Run(whole, 10) && (|whole| > 1 ==> whole[0] != '0')
    && (text == whole || (text == whole + ['.'] + fraction && Run(fraction, 2)))
  }

  /** A text is a decimal exactly when it is a run of at most ten digits without a superfluous zero in front, alone
      or followed by a point and one or two digits. */
  lemma DecimalExactly(text: string)
    ensures Decimal(text) <==> exists whole: string, fraction: string :: Spelled(text, whole, fraction)
  {
    if Decimal(text) {
      var n, whole, fraction := Strings.IndexOf(text, '.'), Whole(text), Fraction(text);
      Strings.IndexOfHits(text, '.');
      RunIs(whole, 10);
      RunIs(fraction, 2);
      assert text == if n < |text| then whole + ['.'] + fraction else whole;
      assert Spelled(text, whole, fraction);
    }
    if whole: string, fraction: string :| Spelled(text, whole, fraction) {
      RunIs(whole, 10);
      RunIs(fraction, 2);
      PartsOf(whole, fraction);
      assert whole[0] == '0' ==> whole == "0";
      assert text[..|whole|] == whole;
      assert |whole| < |text| ==> text[|whole| + 1..] == fraction;
    }
  }

  /** The value of a decimal in hundredths: its digits read as numbers, scaled by the missing places. */
  lemma ValueOf(whole: string, fraction: string)
    requires Run(whole, 10) && Run(fraction, 2)
    ensures Hundredths(whole) == 100 * Number(whole)
    ensures Hundredths(whole + ['.'] + fraction)
              == 100 * Number(whole) + if |fraction| == 1 then 10 * Number(fraction) else Number(fraction)
  {
    RunIs(whole, 10);
    PartsOf(whole, fraction);
    assert Number("") == 0;
  }
}
