/** A reader for printed JSON, after section 2 to 7 of RFC 8259, for texts without insignificant white space. */
module JsonReader {
  import opened Json
  import opened Options
  import Strings

  // ---------------------------------------------------------------- strings

  predicate HexDigit(c: char) { '0' <= c <= '9' || 'a' <= c <= 'f' || 'A' <= c <= 'F' }

  function HexValue(c: char): nat
    requires HexDigit(c)
  {
    if c <= '9' then c as int - '0' as int
    else if c <= 'F' then c as int - 'A' as int + 10 else c as int - 'a' as int + 10
  }

  /** The character behind a backslash in the two-character escapes of section 7. */
  function Unescape(c: char): Option<char> {
    if c == '"' || c == '\\' || c == '/' then Some(c)
    else if c == 'b' then Some('\U{0008}') else if c == 'f' then Some('\U{000C}')
    else if c == 'n' then Some('\U{000A}') else if c == 'r' then Some('\U{000D}') else if c == 't' then Some('\U{0009}')
    else None
  }

  /** The character at the start of a string's text, and what follows it. */
  function ReadChar(s: string): (r: Option<(char, string)>)
    ensures r.Some? ==> |r.value.1| < |s|
  {
    if s == "" || s[0] == '"' || s[0] < ' ' then None
    else if s[0] != '\\' then Some((s[0], s[1..]))
    else if |s| >= 2 && Unescape(s[1]).Some? then Some((Unescape(s[1]).value, s[2..]))
    else if |s| >= 6 && s[1] == 'u' && HexDigit(s[2]) && HexDigit(s[3]) && HexDigit(s[4]) && HexDigit(s[5]) then
      var code := ((HexValue(s[2]) * 16 + HexValue(s[3])) * 16 + HexValue(s[4])) * 16 + HexValue(s[5]);
      if 0xD800 <= code < 0xE000 then None else Some((code as char, s[6..]))
    else None
  }

  /** A string after its opening quote. */
  function ReadString(s: string): (r: Option<(string, string)>)
    ensures r.Some? ==> |r.value.1| < |s|
    decreases |s|
  {
    if s != "" && s[0] == '"' then Some(("", s[1..]))
    else
      var first := ReadChar(s);
      if first.None? then None
      else
        var rest := ReadString(first.value.1);
        if rest.None? then None else Some(([first.value.0] + rest.value.0, rest.value.1))
  }

  // ---------------------------------------------------------------- values

  function NumberEnd(s: string): (n: nat)
    ensures n <= |s| && (forall i :: 0 <= i < n ==> NumberChar(s[i])) && (n < |s| ==> !NumberChar(s[n]))
  {
    if s == "" || !NumberChar(s[0]) then 0 else 1 + NumberEnd(s[1..])
  }

  /** A value at the start of the text, and what follows it. */
  function ReadValue(s: string): (r: Option<(Json, string)>)
    ensures r.Some? ==> |r.value.1| < |s|
    decreases |s|, 0
  {
    if s == "" then None
    else if s[0] == 'n' then if "null" <= s then Some((Null, s[4..])) else None
    else if s[0] == 't' then if "true" <= s then Some((Bool(true), s[4..])) else None
    else if s[0] == 'f' then if "false" <= s then Some((Bool(false), s[5..])) else None
    else if s[0] == '"' then
      var text := ReadString(s[1..]);
      if text.None? then None else Some((Str(text.value.0), text.value.1))
    else if s[0] == '[' then
      if "[]" <= s then Some((Arr([]), s[2..]))
      else
        var items := ReadItems(s[1..]);
        if items.None? then None else Some((Arr(items.value.0), items.value.1))
    else if s[0] == '{' then
      if "{}" <= s then Some((Obj([]), s[2..]))
      else
        var fields := ReadFields(s[1..]);
        if fields.None? then None else Some((Obj(fields.value.0), fields.value.1))
    else
      var n := NumberEnd(s);
      if NumberText(s[..n]) then Some((Num(s[..n]), s[n..])) else None
  }

  /** One or more values between commas, up to the closing bracket. */
  function ReadItems(s: string): (r: Option<(seq<Json>, string)>)
    ensures r.Some? ==> |r.value.1| < |s|
    decreases |s|, 1
  {
    var first := ReadValue(s);
    if first.None? || first.value.1 == "" then None
    else if first.value.1[0] == ']' then Some(([first.value.0], first.value.1[1..]))
    else if first.value.1[0] != ',' then None
    else
      var rest := ReadItems(first.value.1[1..]);
      if rest.None? then None else Some(([first.value.0] + rest.value.0, rest.value.1))
  }

  function ReadField(s: string): (r: Option<(Field, string)>)
    ensures r.Some? ==> |r.value.1| < |s|
    decreases |s|, 1
  {
    if s == "" || s[0] != '"' then None
    else
      var key := ReadString(s[1..]);
      if key.None? || key.value.1 == "" || key.value.1[0] != ':' then None
      else
        var value := ReadValue(key.value.1[1..]);
        if value.None? then None else Some((Field(key.value.0, value.value.0), value.value.1))
  }

  /** One or more fields between commas, up to the closing brace. */
  function ReadFields(s: string): (r: Option<(seq<Field>, string)>)
    ensures r.Some? ==> |r.value.1| < |s|
    decreases |s|, 2
  {
    var first := ReadField(s);
    if first.None? || first.value.1 == "" then None
    else if first.value.1[0] == '}' then Some(([first.value.0], first.value.1[1..]))
    else if first.value.1[0] != ',' then None
    else
      var rest := ReadFields(first.value.1[1..]);
      if rest.None? then None else Some(([first.value.0] + rest.value.0, rest.value.1))
  }

  // ---------------------------------------------------------------- the shape of printed text

  lemma EscapedParts(s: string, x: string)
    ensures var u := Escaped(s) + "\"" + x;
            && u != "" && (u[0] == '"' <==> s == "") && (s == "" ==> u[1..] == x)
            && (s != "" ==> u == Escape(s[0]) + (Escaped(s[1..]) + "\"" + x))
  {
    if s == "" {
      assert Escaped(s) + "\"" + x == "\"" + x;
    } else {
      Parts(Escape(s[0]), Escaped(s[1..]), x);
    }
  }

  lemma Parts(e: string, r: string, x: string)
    requires e != ""
    ensures (e + r) + "\"" + x == e + (r + "\"" + x) && (e + r + "\"" + x)[0] == e[0]
  {
  }

  /** What follows a value: the end of the text, or a delimiter. */
  predicate Ends(x: string) { x == "" || x[0] == ',' || x[0] == ']' || x[0] == '}' }

  lemma FirstCharacter(v: Json)
    requires WellFormed(v)
    ensures Print(v) != "" && Print(v)[0] != ']' && Print(v)[0] != '}' && Print(v)[0] != ','
  {
  }

  lemma Bracketed(open: string, body: string, end: string, x: string)
    requires |open| == 1
    ensures (open + body + end + x)[1..] == body + (end + x)
  {
  }

  /** The rest of a list after its first part. */
  function Rest(parts: seq<string>, end: string): string
    requires parts != []
  {
    if |parts| == 1 then end else "," + (Strings.Join(parts[1..], ",") + end)
  }

  lemma JoinedFirst(parts: seq<string>, end: string)
    requires parts != []
    ensures Strings.Join(parts, ",") + end == parts[0] + Rest(parts, end)
  {
  }

  lemma ItemsStart(a: seq<Json>, x: string)
    requires (forall i :: 0 <= i < |a| ==> WellFormed(a[i])) && x != "" && x[0] == ']'
    ensures (Strings.Join(PrintItems(a), ",") + x)[0] == ']' <==> a == []
  {
    if a != [] {
      FirstCharacter(a[0]);
      JoinedFirst(PrintItems(a), x);
    }
  }

  lemma FieldsStart(a: seq<Field>, x: string)
    requires x != "" && x[0] == '}'
    ensures (Strings.Join(PrintFields(a), ",") + x)[0] == '}' <==> a == []
  {
    if a != [] { JoinedFirst(PrintFields(a), x); }
  }

  lemma Colon(k: string, v: string, x: string)
    ensures (k + ":" + v) + x == k + (":" + (v + x))
  {
  }

  // ---------------------------------------------------------------- printed text reads back

  lemma EscapeReads(c: char, x: string)
    ensures ReadChar(Escape(c) + x) == Some((c, x))
  {
    var s := Escape(c) + x;
    assert s[|Escape(c)|..] == x;
    if |Escape(c)| == 6 {
      assert s[1] == 'u' && s[2] == '0' && s[3] == '0';
      assert s[4] == Hex(c as int / 16) && s[5] == Hex(c as int % 16);
      assert HexValue(s[4]) == c as int / 16 && HexValue(s[5]) == c as int % 16;
    } else if |Escape(c)| == 2 {
      assert s[1] == Escape(c)[1];
    }
  }

  lemma {:induction false} EscapedReads(s: string, x: string)
    ensures ReadString(Escaped(s) + "\"" + x) == Some((s, x))
  {
    EscapedParts(s, x);
    if s != "" {
      var rest := Escaped(s[1..]) + "\"" + x;
      EscapeReads(s[0], rest);
      EscapedReads(s[1..], x);
      assert [s[0]] + s[1..] == s;
    }
  }

  lemma QuoteReads(s: string, x: string)
    ensures var u := Quote(s) + x; u[0] == '"' && ReadString(u[1..]) == Some((s, x))
  {
    assert (Quote(s) + x)[1..] == Escaped(s) + "\"" + x;
    EscapedReads(s, x);
  }

  lemma {:induction false} NumberEndIs(a: string, x: string)
    requires (forall i :: 0 <= i < |a| ==> NumberChar(a[i])) && Ends(x)
    ensures NumberEnd(a + x) == |a|
  {
    if a == "" {
      assert a + x == x;
    } else {
      assert (a + x)[1..] == a[1..] + x;
      NumberEndIs(a[1..], x);
    }
  }

  lemma NumberReads(text: string, x: string)
    requires NumberText(text) && Ends(x)
    ensures ReadValue(text + x) == Some((Num(text), x))
  {
    NumberEndIs(text, x);
    var s := text + x;
    assert s[0] == text[0] && s[..|text|] == text && s[|text|..] == x;
  }

  lemma WordReads(v: Json, x: string)
    requires v.Null? || v.Bool?
    ensures ReadValue(Print(v) + x) == Some((v, x))
  {
    var s := Print(v) + x;
    assert s[|Print(v)|..] == x && Print(v) <= s;
  }

  /** Reading what was printed gives the value back, whatever follows it. */
  lemma {:induction false} PrintReads(v: Json, x: string)
    requires WellFormed(v) && Ends(x)
    ensures ReadValue(Print(v) + x) == Some((v, x))
    decreases v, 2
  {
    if v.Num? {
      NumberReads(v.text, x);
    } else if v.Str? {
      QuoteReads(v.s, x);
    } else if v.Arr? {
      ArrayReads(v.items, x);
    } else if v.Obj? {
      ObjectReads(v.fields, x);
    } else {
      WordReads(v, x);
    }
  }

  lemma {:induction false} ArrayReads(items: seq<Json>, x: string)
    requires forall i :: 0 <= i < |items| ==> WellFormed(items[i])
    ensures ReadValue(Print(Arr(items)) + x) == Some((Arr(items), x))
    decreases items, 1
  {
    var body, s := Strings.Join(PrintItems(items), ","), Print(Arr(items)) + x;
    Bracketed("[", body, "]", x);
    assert s[0] == '[' && s[1..] == body + ("]" + x);
    ItemsStart(items, "]" + x);
    if items == [] {
      assert s == "[]" + x && s[2..] == x;
    } else {
      ItemsRead(items, x);
      assert s[1] == s[1..][0] != ']';
    }
  }

  lemma {:induction false} ItemsRead(items: seq<Json>, x: string)
    requires items != [] && forall i :: 0 <= i < |items| ==> WellFormed(items[i])
    ensures ReadItems(Strings.Join(PrintItems(items), ",") + ("]" + x)) == Some((items, x))
    decreases items, 0
  {
    var parts, end := PrintItems(items), "]" + x;
    JoinedFirst(parts, end);
    var rest := Rest(parts, end);
    PrintReads(items[0], rest);
    if |items| > 1 {
      ItemsRead(items[1..], x);
      assert parts[1..] == PrintItems(items[1..]);
      assert rest[0] == ',' && rest[1..] == Strings.Join(PrintItems(items[1..]), ",") + end;
      assert items == [items[0]] + items[1..];
    } else {
      assert rest[0] == ']' && rest[1..] == x;
      assert items == [items[0]];
    }
  }

  lemma {:induction false} ObjectReads(fields: seq<Field>, x: string)
    requires forall i :: 0 <= i < |fields| ==> WellFormed(fields[i].value)
    ensures ReadValue(Print(Obj(fields)) + x) == Some((Obj(fields), x))
    decreases fields, 1
  {
    var body, s := Strings.Join(PrintFields(fields), ","), Print(Obj(fields)) + x;
    Bracketed("{", body, "}", x);
    assert s[0] == '{' && s[1..] == body + ("}" + x);
    FieldsStart(fields, "}" + x);
    if fields == [] {
      assert s == "{}" + x && s[2..] == x;
    } else {
      FieldsRead(fields, x);
      assert s[1] == s[1..][0] != '}';
    }
  }

  lemma {:induction false} FieldReads(f: Field, x: string)
    requires WellFormed(f.value) && Ends(x)
    ensures ReadField((Quote(f.key) + ":" + Print(f.value)) + x) == Some((f, x))
    decreases f, 3
  {
    Colon(Quote(f.key), Print(f.value), x);
    var value := Print(f.value) + x;
    QuoteReads(f.key, ":" + value);
    assert (":" + value)[1..] == value;
    PrintReads(f.value, x);
  }

  lemma {:induction false} FieldsRead(fields: seq<Field>, x: string)
    requires fields != [] && forall i :: 0 <= i < |fields| ==> WellFormed(fields[i].value)
    ensures ReadFields(Strings.Join(PrintFields(fields), ",") + ("}" + x)) == Some((fields, x))
    decreases fields, 0
  {
    var parts, end := PrintFields(fields), "}" + x;
    JoinedFirst(parts, end);
    var rest := Rest(parts, end);
    FieldReads(fields[0], rest);
    if |fields| > 1 {
      FieldsRead(fields[1..], x);
      assert parts[1..] == PrintFields(fields[1..]);
      assert rest[0] == ',' && rest[1..] == Strings.Join(PrintFields(fields[1..]), ",") + end;
      assert fields == [fields[0]] + fields[1..];
    } else {
      assert rest[0] == '}' && rest[1..] == x;
      assert fields == [fields[0]];
    }
  }

  /** A printed value is JSON, and means that value. */
  lemma PrintRoundTrip(v: Json)
    requires WellFormed(v)
    ensures ReadValue(Print(v)) == Some((v, ""))
  {
    assert Print(v) + "" == Print(v);
    PrintReads(v, "");
  }

  /** So two different values never print the same. */
  lemma PrintInjective(v: Json, w: Json)
    requires WellFormed(v) && WellFormed(w) && Print(v) == Print(w)
    ensures v == w
  {
    PrintRoundTrip(v);
    PrintRoundTrip(w);
  }

  /** Of the spellings a reader accepts the shortest is written: the character itself, an escape of two
      characters, or one of six in lower case. */
  lemma EscapesAreShort(c: char)
    ensures |Escape(c)| == 1 <==> c >= ' ' && c != '"' && c != '\\'
    ensures |Escape(c)| == 2 <==> c in {'"', '\\', '\U{0008}', '\U{0009}', '\U{000A}', '\U{000C}', '\U{000D}'}
    ensures |Escape(c)| != 1 && |Escape(c)| != 2 ==>
              |Escape(c)| == 6 && forall i :: 2 <= i < 6 ==> '0' <= Escape(c)[i] <= '9' || 'a' <= Escape(c)[i] <= 'f'
    ensures '/' !in Escape(c)[1..]
  {
  }
}
