/** The query string as it is signed: decoded, sorted, and encoded again. */
module SignedQuery {
  import opened Bytes
  import Sorting
  import Strings
  import TextOrder
  import Utf8

  type Pair = (string, string)

  // ---------------------------------------------------------------- reading a query

  function Pluses(s: string): (r: string)
    ensures |r| == |s| && forall i :: 0 <= i < |s| ==> r[i] == if s[i] == '+' then ' ' else s[i]
  {
    seq(|s|, i requires 0 <= i < |s| => if s[i] == '+' then ' ' else s[i])
  }

  predicate HexDigit(b: Byte) { 48 <= b <= 57 || 65 <= b <= 70 || 97 <= b <= 102 }

  function HexValue(b: Byte): (v: int)
    requires HexDigit(b)
    ensures 0 <= v < 16
  {
    var n: int := b;
    if n <= 57 then n - 48 else if n <= 70 then n - 55 else n - 87
  }

  /** A percent sign without two hexadecimal digits stands for itself. */
  function PercentDecode(b: seq<Byte>): seq<Byte>
    decreases |b|
  {
    if b == [] then []
    else if b[0] == 37 && |b| >= 3 && HexDigit(b[1]) && HexDigit(b[2]) then
      [HexValue(b[1]) * 16 + HexValue(b[2])] + PercentDecode(b[3..])
    else [b[0]] + PercentDecode(b[1..])
  }

  function DecodeComponent(s: string): string { Utf8.Decode(PercentDecode(Utf8.Encode(Pluses(s)))) }

  function DecodePiece(piece: string): Pair {
    var n := Strings.IndexOf(piece, '=');
    (DecodeComponent(piece[..n]), if n == |piece| then "" else DecodeComponent(piece[n + 1..]))
  }

  function DecodePieces(pieces: seq<string>): seq<Pair> {
    if pieces == [] then []
    else if pieces[0] == "" then DecodePieces(pieces[1..])
    else [DecodePiece(pieces[0])] + DecodePieces(pieces[1..])
  }

  function DropMark(s: string): string {
    if s != "" && s[0] == '?' then s[1..] else s
  }

  /** One leading question mark goes before the parser is called, and the parser drops one more. */
  function Pairs(query: string): seq<Pair> { DecodePieces(Strings.Split(DropMark(DropMark(query)), '&')) }

  // ---------------------------------------------------------------- writing it

  /** Section 2.3 of RFC 3986. */
  predicate Unreserved(c: char) {
    'A' <= c <= 'Z' || 'a' <= c <= 'z' || '0' <= c <= '9' || c == '-' || c == '_' || c == '.' || c == '~'
  }

  function HexChar(n: nat): char
    requires n < 16
  {
    if n < 10 then '0' + n as char else 'A' + (n - 10) as char
  }

  function EncodeBytes(b: seq<Byte>): string {
    if b == [] then "" else ['%', HexChar(b[0] / 16), HexChar(b[0] % 16)] + EncodeBytes(b[1..])
  }

  function EncodeChar(c: char): string {
    if Unreserved(c) then [c] else EncodeBytes(Utf8.EncodeChar(c))
  }

  function EncodeComponent(s: string): string {
    if s == "" then "" else EncodeChar(s[0]) + EncodeComponent(s[1..])
  }

  function EncodePair(p: Pair): string { EncodeComponent(p.0) + ("=" + EncodeComponent(p.1)) }

  function EncodePairs(pairs: seq<Pair>): (pieces: seq<string>)
    ensures |pieces| == |pairs| && forall i :: 0 <= i < |pairs| ==> pieces[i] == EncodePair(pairs[i])
  {
    if pairs == [] then [] else [EncodePair(pairs[0])] + EncodePairs(pairs[1..])
  }

  /** By key, then by value. */
  predicate PairLe(a: Pair, b: Pair) {
    if a.0 == b.0 then TextOrder.TextLe(a.1, b.1) else TextOrder.TextLe(a.0, b.0)
  }

  function Sorted(query: string): seq<Pair> { Sorting.Sort(Pairs(query), PairLe) }

  function Canonicalize(query: string): string { Strings.Join(EncodePairs(Sorted(query)), "&") }

  // ---------------------------------------------------------------- the order

  lemma PairOrderIsTotal()
    ensures Sorting.TotalOrder(PairLe)
  {
    TextOrder.TextOrderIsTotal();
  }

  // ---------------------------------------------------------------- the alphabet of the output

  predicate Plain(c: char) { Unreserved(c) || c == '%' }

  lemma {:induction false} EncodedBytesPlain(b: seq<Byte>)
    ensures forall i :: 0 <= i < |EncodeBytes(b)| ==> Plain(EncodeBytes(b)[i])
  {
    if b != [] { EncodedBytesPlain(b[1..]); }
  }

  lemma {:induction false} EncodedPlain(s: string)
    ensures forall i :: 0 <= i < |EncodeComponent(s)| ==> Plain(EncodeComponent(s)[i])
  {
    if s != "" {
      EncodedBytesPlain(Utf8.EncodeChar(s[0]));
      EncodedPlain(s[1..]);
    }
  }

  // ---------------------------------------------------------------- a component decodes to itself

  lemma {:induction false} EncodeJoins(a: string, b: string)
    ensures Utf8.Encode(a + b) == Utf8.Encode(a) + Utf8.Encode(b)
  {
    if a == "" {
      assert a + b == b;
    } else {
      assert (a + b)[1..] == a[1..] + b;
      EncodeJoins(a[1..], b);
    }
  }

  lemma DecodesByte(v: Byte, rest: seq<Byte>)
    ensures PercentDecode(Utf8.Encode(['%', HexChar(v / 16), HexChar(v % 16)]) + rest) == [v] + PercentDecode(rest)
  {
    var x, y := HexChar(v / 16), HexChar(v % 16);
    var e := Utf8.Encode(['%', x, y]);
    assert ['%', x, y][1..] == [x, y] && [x, y][1..] == [y] && [y][1..] == "";
    assert Utf8.Encode([y]) == Utf8.EncodeChar(y) + Utf8.Encode("");
    assert Utf8.Encode([x, y]) == Utf8.EncodeChar(x) + Utf8.Encode([y]);
    assert e == Utf8.EncodeChar('%') + Utf8.Encode([x, y]);
    assert e == [37, x as int, y as int];
    var b := e + rest;
    assert b[0] == 37 && b[1] == x as int && b[2] == y as int && b[3..] == rest;
    assert HexValue(b[1]) == v / 16 && HexValue(b[2]) == v % 16;
  }

  lemma FirstThenRest(v: seq<Byte>, decoded: seq<Byte>)
    requires v != []
    ensures [v[0]] + (v[1..] + decoded) == v + decoded
  {
    assert [v[0]] + v[1..] == v;
  }

  lemma {:induction false} DecodesBytes(v: seq<Byte>, rest: seq<Byte>)
    ensures PercentDecode(Utf8.Encode(EncodeBytes(v)) + rest) == v + PercentDecode(rest)
  {
    if v == [] {
      assert Utf8.Encode("") + rest == rest && v + PercentDecode(rest) == PercentDecode(rest);
    } else {
      var head, tail := ['%', HexChar(v[0] / 16), HexChar(v[0] % 16)], EncodeBytes(v[1..]);
      EncodeJoins(head, tail);
      assert Utf8.Encode(head + tail) + rest == Utf8.Encode(head) + (Utf8.Encode(tail) + rest);
      DecodesByte(v[0], Utf8.Encode(tail) + rest);
      DecodesBytes(v[1..], rest);
      FirstThenRest(v, PercentDecode(rest));
    }
  }

  lemma DecodesChar(c: char, rest: seq<Byte>)
    ensures PercentDecode(Utf8.Encode(EncodeChar(c)) + rest) == Utf8.EncodeChar(c) + PercentDecode(rest)
  {
    if Unreserved(c) {
      assert Utf8.Encode([c]) == [c as int];
      assert ([c as int] + rest)[1..] == rest;
    } else {
      DecodesBytes(Utf8.EncodeChar(c), rest);
    }
  }

  lemma {:induction false} DecodesEncoded(s: string)
    ensures PercentDecode(Utf8.Encode(EncodeComponent(s))) == Utf8.Encode(s)
  {
    if s != "" {
      EncodeJoins(EncodeChar(s[0]), EncodeComponent(s[1..]));
      DecodesChar(s[0], Utf8.Encode(EncodeComponent(s[1..])));
      DecodesEncoded(s[1..]);
    }
  }

  lemma ComponentRoundTrip(s: string)
    ensures DecodeComponent(EncodeComponent(s)) == s
  {
    EncodedPlain(s);
    assert Pluses(EncodeComponent(s)) == EncodeComponent(s);
    DecodesEncoded(s);
    Utf8.RoundTrip(s);
  }

  lemma PieceShape(k: string, v: string)
    requires forall i :: 0 <= i < |k| ==> Plain(k[i])
    requires forall i :: 0 <= i < |v| ==> Plain(v[i])
    ensures var piece := k + ("=" + v);
            && Strings.IndexOf(piece, '=') == |k| && |k| < |piece| && piece[..|k|] == k && piece[|k| + 1..] == v
            && '&' !in piece && piece[0] != '?' && '\n' !in piece
  {
    var piece := k + ("=" + v);
    assert forall i :: 0 <= i < |piece| ==>
                         piece[i] == if i < |k| then k[i] else if i == |k| then '=' else v[i - |k| - 1];
    Strings.IndexOfFirst(piece, '=', |k|);
  }

  lemma PieceRoundTrip(p: Pair)
    ensures DecodePiece(EncodePair(p)) == p && EncodePair(p) != "" && '&' !in EncodePair(p) && EncodePair(p)[0] != '?'
    ensures '\n' !in EncodePair(p)
  {
    EncodedPlain(p.0);
    EncodedPlain(p.1);
    PieceShape(EncodeComponent(p.0), EncodeComponent(p.1));
    ComponentRoundTrip(p.0);
    ComponentRoundTrip(p.1);
  }

  lemma {:induction false} PiecesRoundTrip(pairs: seq<Pair>)
    ensures DecodePieces(EncodePairs(pairs)) == pairs
  {
    if pairs != [] {
      PieceRoundTrip(pairs[0]);
      PiecesRoundTrip(pairs[1..]);
    }
  }

  lemma WrittenReadsBack(pairs: seq<Pair>)
    ensures Pairs(Strings.Join(EncodePairs(pairs), "&")) == pairs
  {
    var pieces := EncodePairs(pairs);
    var s := Strings.Join(pieces, "&");
    if pairs == [] {
      assert Strings.Split("", '&') == [""];
      assert DecodePieces([""]) == DecodePieces([]);
    } else {
      forall piece | piece in pieces ensures '&' !in piece {
        var i :| 0 <= i < |pairs| && piece == EncodePair(pairs[i]);
        PieceRoundTrip(pairs[i]);
      }
      Strings.SplitJoin(pieces, '&');
      PieceRoundTrip(pairs[0]);
      assert s[0] == pieces[0][0];
      PiecesRoundTrip(pairs);
    }
  }

  // ---------------------------------------------------------------- what is written and what is read

  predicate UpperHex(c: char) { '0' <= c <= '9' || 'A' <= c <= 'F' }

  /** Letters, digits and four marks stand for themselves; everything else is written as percent signs, each
      with two upper-case hexadecimal digits. */
  lemma CharIsWritten(c: char)
    ensures var plain := 'a' <= c <= 'z' || 'A' <= c <= 'Z' || '0' <= c <= '9' || c in {'-', '_', '.', '~'};
            && (plain ==> EncodeChar(c) == [c])
            && (!plain ==> |EncodeChar(c)| == 3 * |Utf8.EncodeChar(c)|)
            && (!plain ==> forall i :: 0 <= i < |EncodeChar(c)| ==>
                             if i % 3 == 0 then EncodeChar(c)[i] == '%' else UpperHex(EncodeChar(c)[i]))
  {
    BytesAreWritten(Utf8.EncodeChar(c));
  }

  lemma {:induction false} BytesAreWritten(b: seq<Byte>)
    ensures |EncodeBytes(b)| == 3 * |b|
    ensures forall i :: 0 <= i < |EncodeBytes(b)| ==>
              if i % 3 == 0 then EncodeBytes(b)[i] == '%' else UpperHex(EncodeBytes(b)[i])
  {
    if b != [] {
      BytesAreWritten(b[1..]);
      assert forall i :: 3 <= i < |EncodeBytes(b)| ==> EncodeBytes(b)[i] == EncodeBytes(b[1..])[i - 3];
      assert forall i :: 3 <= i ==> (i - 3) % 3 == i % 3;
    }
  }

  /** The value of a hexadecimal digit in either case. */
  function DigitOf(c: char): nat {
    if '0' <= c <= '9' then c as int - '0' as int
    else if 'a' <= c <= 'f' then c as int - 'a' as int + 10
    else if 'A' <= c <= 'F' then c as int - 'A' as int + 10 else 16
  }

  /** A percent sign and two digits in either case are one byte; any other percent sign is itself. */
  lemma PercentIsRead(high: char, low: char, rest: seq<Byte>)
    requires high as int < 256 && low as int < 256
    ensures PercentDecode([37, high as int, low as int] + rest) ==
              if DigitOf(high) < 16 && DigitOf(low) < 16 then [DigitOf(high) * 16 + DigitOf(low)] + PercentDecode(rest)
              else [37] + PercentDecode([high as int, low as int] + rest)
  {
    var b: seq<Byte> := [37, high as int, low as int] + rest;
    assert b[1..] == [high as int, low as int] + rest && b[3..] == rest;
  }

  /** A piece without an equals sign is a key with an empty value. */
  lemma KeyAlone(piece: string)
    requires '=' !in piece
    ensures DecodePiece(piece) == (DecodeComponent(piece), "")
  {
    Strings.IndexOfFirst(piece, '=', |piece|);
    assert piece[..|piece|] == piece;
  }

  // ---------------------------------------------------------------- the laws

  /** Decoding the canonical query gives back exactly the sorted pairs. */
  lemma DecodesToSortedPairs(query: string)
    ensures Pairs(Canonicalize(query)) == Sorted(query)
    ensures multiset(Sorted(query)) == multiset(Pairs(query))
    ensures forall i, j :: 0 <= i < j < |Sorted(query)| ==>
              var (key, value), (key', value') := Sorted(query)[i], Sorted(query)[j];
              if key == key' then TextOrder.TextLe(value, value') else TextOrder.TextLe(key, key')
  {
    WrittenReadsBack(Sorted(query));
    PairOrderIsTotal();
    Sorting.SortSorted(Pairs(query), PairLe);
  }

  /** Two queries sign the same exactly when they carry the same pairs, counted. */
  lemma DependsOnThePairsAlone(a: string, b: string)
    ensures Canonicalize(a) == Canonicalize(b) <==> multiset(Pairs(a)) == multiset(Pairs(b))
  {
    DecodesToSortedPairs(a);
    DecodesToSortedPairs(b);
    PairOrderIsTotal();
    Sorting.SortIsCanonical(Pairs(a), Pairs(b), PairLe);
  }

  /** Canonicalizing twice is canonicalizing once. */
  lemma Idempotent(query: string)
    ensures Canonicalize(Canonicalize(query)) == Canonicalize(query)
  {
    DecodesToSortedPairs(query);
    DependsOnThePairsAlone(Canonicalize(query), query);
  }

  // ---------------------------------------------------------------- the signed text

  datatype Signed = Signed(version: string, keyId: string, projectSlug: string, timestamp: string, requestId: string,
                           verb: string, path: string, query: string, bodyHash: string)

  function Lines(f: Signed): seq<string> {
    [f.version, f.keyId, f.projectSlug, f.timestamp, f.requestId, f.verb, f.path, Canonicalize(f.query), f.bodyHash]
  }

  function CanonicalString(f: Signed): string { Strings.Join(Lines(f), "\n") }

  predicate OneLine(s: string) { forall i :: 0 <= i < |s| ==> s[i] != '\n' }

  predicate OneLineEach(f: Signed) {
    && OneLine(f.version) && OneLine(f.keyId) && OneLine(f.projectSlug) && OneLine(f.timestamp) && OneLine(f.requestId)
    && OneLine(f.verb) && OneLine(f.path) && OneLine(f.bodyHash)
  }

  lemma {:induction false} JoinOneLine(pieces: seq<string>)
    requires forall piece :: piece in pieces ==> OneLine(piece)
    ensures OneLine(Strings.Join(pieces, "&"))
  {
    if |pieces| > 0 { assert OneLine(pieces[0]); }
    if |pieces| > 1 { JoinOneLine(pieces[1..]); }
  }

  /** The query line can hold no line break, whatever was asked. */
  lemma CanonicalQueryIsOneLine(query: string)
    ensures OneLine(Canonicalize(query))
  {
    var pairs := Sorted(query);
    forall piece | piece in EncodePairs(pairs) ensures OneLine(piece) {
      var i :| 0 <= i < |pairs| && piece == EncodePair(pairs[i]);
      PieceRoundTrip(pairs[i]);
    }
    JoinOneLine(EncodePairs(pairs));
  }

  lemma NinePieces(lines: seq<string>)
    requires lines != [] && forall line :: line in lines ==> OneLine(line)
    ensures Strings.Split(Strings.Join(lines, "\n"), '\n') == lines
  {
    forall line | line in lines ensures '\n' !in line { assert OneLine(line); }
    Strings.SplitJoin(lines, '\n');
  }

  lemma LinesOneLine(f: Signed)
    requires OneLineEach(f)
    ensures forall line :: line in Lines(f) ==> OneLine(line)
  {
    CanonicalQueryIsOneLine(f.query);
  }

  /** What the other side reads out of the signed text, line by line. */
  lemma SignedLineByLine(f: Signed)
    requires OneLineEach(f)
    ensures var lines := Strings.Split(CanonicalString(f), '\n');
            && |lines| == 9
            && lines[0] == f.version && lines[1] == f.keyId && lines[2] == f.projectSlug && lines[3] == f.timestamp
            && lines[4] == f.requestId && lines[5] == f.verb && lines[6] == f.path && lines[8] == f.bodyHash
            && Pairs(lines[7]) == Sorting.Sort(Pairs(f.query), PairLe)
  {
    LinesOneLine(f);
    NinePieces(Lines(f));
    DecodesToSortedPairs(f.query);
  }

  /** Two requests sign the same text exactly when they agree in every field, and in the query up to the
      order and spelling of its pairs. */
  lemma CanonicalStringInjective(f: Signed, g: Signed)
    requires OneLineEach(f) && OneLineEach(g)
    ensures CanonicalString(f) == CanonicalString(g) <==>
              f.(query := "") == g.(query := "") && multiset(Pairs(f.query)) == multiset(Pairs(g.query))
  {
    DependsOnThePairsAlone(f.query, g.query);
    if CanonicalString(f) == CanonicalString(g) {
      LinesOneLine(f);
      LinesOneLine(g);
      NinePieces(Lines(f));
      NinePieces(Lines(g));
      LinesTell(f, g);
    }
  }

  lemma LinesTell(f: Signed, g: Signed)
    requires Lines(f) == Lines(g)
    ensures f.(query := "") == g.(query := "") && Canonicalize(f.query) == Canonicalize(g.query)
  {
    var a, b := Lines(f), Lines(g);
    assert a[0] == b[0] && a[1] == b[1] && a[2] == b[2] && a[3] == b[3] && a[4] == b[4];
    assert a[5] == b[5] && a[6] == b[6] && a[7] == b[7] && a[8] == b[8];
  }
}
