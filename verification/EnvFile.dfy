/** The project's env file: its printer, its parser, and the round trip between them. */
module EnvFile {
  import opened Options
  import Sorting
  import Strings
  import TextOrder

  const HEADER := "# Alpha local runtime credentials. Do" + " not use for production."

  const ORDERED_KEYS: seq<string> := [
    "PROJECT_SLUG", "WP_PORT", "DB_NAME", "DB_USER", "DB_PASSWORD", "DB_ROOT_PASSWORD",
    "WP_ADMIN_USER", "WP_ADMIN_PASSWORD", "WP_APP_PASSWORD_NAME", "WP_APP_PASSWORD"
  ]

  // ---------------------------------------------------------------- parsing

  function DropReturn(line: string): string {
    if line != "" && line[|line| - 1] == '\r' then line[..|line| - 1] else line
  }

  /** The pieces between line feeds, each without the carriage return before its line feed. */
  function SplitLines(s: string): (lines: seq<string>)
    ensures |lines| >= 1
    decreases |s|
  {
    var n := Strings.IndexOf(s, '\n');
    if n == |s| then [s] else [DropReturn(s[..n])] + SplitLines(s[n + 1..])
  }

  /** The key and value a raw line sets; blank lines, comments and lines without '=' set nothing. */
  function Setting(raw: string): Option<(string, string)> {
    var line := Strings.Trim(raw);
    var n := Strings.IndexOf(line, '=');
    if line == "" || line[0] == '#' || n == |line| then None
    else Some((Strings.Trim(line[..n]), Strings.Trim(line[n + 1..])))
  }

  function Put(setting: Option<(string, string)>, env: map<string, string>): map<string, string> {
    if setting.None? then env else env[setting.value.0 := setting.value.1]
  }

  function ReadLines(lines: seq<string>, env: map<string, string>): map<string, string> {
    if lines == [] then env else ReadLines(lines[1..], Put(Setting(lines[0]), env))
  }

  function Parse(content: string): map<string, string> { ReadLines(SplitLines(content), map[]) }

  method ParseEnvContent(content: string) returns (result: map<string, string>)
    ensures result == Parse(content)
  {
    result := map[];
    var lines := SplitLines(content);
    for i := 0 to |lines|
      invariant ReadLines(lines[i..], result) == Parse(content)
    {
      assert lines[i..][0] == lines[i] && lines[i..][1..] == lines[i + 1..];
      var line := Strings.Trim(lines[i]);
      if line == "" || line[0] == '#' { continue; }
      var separator := Strings.IndexOf(line, '=');
      if separator == |line| { continue; }
      result := result[Strings.Trim(line[..separator]) := Strings.Trim(line[separator + 1..])];
    }
  }

  // ---------------------------------------------------------------- printing

  function Listed(keys: seq<string>, env: map<string, string>): (r: seq<string>)
    ensures forall k :: k in r <==> k in keys && k in env
  {
    if keys == [] then []
    else if keys[0] in env then [keys[0]] + Listed(keys[1..], env)
    else Listed(keys[1..], env)
  }

  function Remaining(keys: seq<string>): (r: seq<string>)
    ensures forall k :: k in r <==> k in keys && k !in ORDERED_KEYS
  {
    if keys == [] then []
    else if keys[0] in ORDERED_KEYS then Remaining(keys[1..])
    else [keys[0]] + Remaining(keys[1..])
  }

  function Entries(keys: seq<string>, env: map<string, string>): (lines: seq<string>)
    requires forall k :: k in keys ==> k in env
    ensures |lines| == |keys| && forall i :: 0 <= i < |keys| ==> lines[i] == keys[i] + "=" + env[keys[i]]
  {
    if keys == [] then [] else [keys[0] + "=" + env[keys[0]]] + Entries(keys[1..], env)
  }

  /** `keys` is the order in which the settings object lists its own keys. */
  ghost predicate Enumerates(keys: seq<string>, env: map<string, string>) {
    && (forall k :: k in keys <==> k in env)
    && (forall i, j :: 0 <= i < j < |keys| ==> keys[i] != keys[j])
  }

  function PrintedKeys(env: map<string, string>, keys: seq<string>): (r: seq<string>)
    requires Enumerates(keys, env)
    ensures forall k :: k in r <==> k in env
  {
    var rest := Sorting.Sort(Remaining(keys), TextOrder.TextLe);
    Sorting.SameElements(rest, Remaining(keys));
    Listed(ORDERED_KEYS, env) + rest
  }

  function Serialize(env: map<string, string>, keys: seq<string>): string
    requires Enumerates(keys, env)
  {
    Strings.Join([HEADER] + (Entries(PrintedKeys(env, keys), env) + [""]), "\n")
  }

  lemma {:induction false} EntriesAppend(keys: seq<string>, k: string, env: map<string, string>)
    requires k in env && forall o :: o in keys ==> o in env
    ensures Entries(keys + [k], env) == Entries(keys, env) + [k + "=" + env[k]]
  {
    if keys == [] {
      assert keys + [k] == [k] && [k][1..] == [];
    } else {
      assert (keys + [k])[1..] == keys[1..] + [k];
      EntriesAppend(keys[1..], k, env);
    }
  }

  /** Prints the header and one line per key that is set. */
  method PrintLines(all: seq<string>, env: map<string, string>) returns (lines: seq<string>)
    ensures lines == [HEADER] + Entries(Listed(all, env), env)
  {
    lines := [HEADER];
    for i := 0 to |all|
      invariant lines == [HEADER] + Entries(Listed(all[..i], env), env)
    {
      assert all[..i + 1] == all[..i] + [all[i]];
      ListedAppend(all[..i], [all[i]], env);
      if all[i] !in env { continue; }
      EntriesAppend(Listed(all[..i], env), all[i], env);
      lines := lines + [all[i] + "=" + env[all[i]]];
    }
    assert all[..|all|] == all;
  }

  lemma Regroup(header: string, entries: seq<string>)
    ensures [header] + entries + [""] == [header] + (entries + [""])
  {
  }

  method SerializeEnvFile(env: map<string, string>, keys: seq<string>) returns (content: string)
    requires Enumerates(keys, env)
    ensures content == Serialize(env, keys)
  {
    var rest := Sorting.Sort(Remaining(keys), TextOrder.TextLe);
    Sorting.SameElements(rest, Remaining(keys));
    ListedAppend(ORDERED_KEYS, rest, env);
    ListedAll(rest, env);
    var lines := PrintLines(ORDERED_KEYS + rest, env);
    Regroup(HEADER, Entries(PrintedKeys(env, keys), env));
    content := Strings.Join(lines + [""], "\n");
  }

  lemma {:induction false} ListedAppend(a: seq<string>, b: seq<string>, env: map<string, string>)
    ensures Listed(a + b, env) == Listed(a, env) + Listed(b, env)
  {
    if a == [] {
      assert a + b == b;
    } else {
      assert (a + b)[1..] == a[1..] + b;
      ListedAppend(a[1..], b, env);
    }
  }

  lemma {:induction false} ListedAll(keys: seq<string>, env: map<string, string>)
    requires forall k :: k in keys ==> k in env
    ensures Listed(keys, env) == keys
  {
    if keys != [] { ListedAll(keys[1..], env); }
  }

  // ---------------------------------------------------------------- the order of the keys

  lemma {:induction false} RemainingDistinct(keys: seq<string>)
    requires forall i, j :: 0 <= i < j < |keys| ==> keys[i] != keys[j]
    ensures forall k :: multiset(Remaining(keys))[k] == if k in keys && k !in ORDERED_KEYS then 1 else 0
  {
    if keys != [] {
      assert keys == [keys[0]] + keys[1..];
      RemainingDistinct(keys[1..]);
    }
  }

  /** The file depends on the settings alone, not on the order the object lists them in. */
  lemma PrintingForgetsObjectOrder(env: map<string, string>, keys: seq<string>, others: seq<string>)
    requires Enumerates(keys, env) && Enumerates(others, env)
    ensures Serialize(env, keys) == Serialize(env, others)
  {
    RemainingDistinct(keys);
    RemainingDistinct(others);
    assert multiset(Remaining(keys)) == multiset(Remaining(others));
    TextOrder.TextOrderIsTotal();
    Sorting.SortIsCanonical(Remaining(keys), Remaining(others), TextOrder.TextLe);
  }

  /** The fixed keys come first in their fixed order, then the others in ascending order, each once. */
  lemma FixedKeysThenSorted(env: map<string, string>, keys: seq<string>)
    requires Enumerates(keys, env)
    ensures var fixed := Listed(ORDERED_KEYS, env);
            var printed := PrintedKeys(env, keys);
            && fixed <= printed && Sorting.Sorted(printed[|fixed|..], TextOrder.TextLe)
            && multiset(printed) == multiset(env.Keys)
  {
    TextOrder.TextOrderIsTotal();
    Sorting.SortSorted(Remaining(keys), TextOrder.TextLe);
    var fixed, rest := Listed(ORDERED_KEYS, env), Sorting.Sort(Remaining(keys), TextOrder.TextLe);
    assert (fixed + rest)[|fixed|..] == rest;
    PrintedOnce(env, keys);
  }

  lemma PrintedOnce(env: map<string, string>, keys: seq<string>)
    requires Enumerates(keys, env)
    ensures multiset(PrintedKeys(env, keys)) == multiset(env.Keys)
  {
    RemainingDistinct(keys);
    FixedDistinct();
    FixedOnce(ORDERED_KEYS, env);
    var fixed, rest := Listed(ORDERED_KEYS, env), Sorting.Sort(Remaining(keys), TextOrder.TextLe);
    forall k ensures multiset(fixed + rest)[k] == multiset(env.Keys)[k] {
      assert multiset(fixed + rest)[k] == multiset(fixed)[k] + multiset(Remaining(keys))[k];
    }
  }

  lemma FixedDistinct()
    ensures forall i, j :: 0 <= i < j < |ORDERED_KEYS| ==> ORDERED_KEYS[i] != ORDERED_KEYS[j]
  {
  }

  lemma {:induction false} FixedOnce(fixed: seq<string>, env: map<string, string>)
    requires forall i, j :: 0 <= i < j < |fixed| ==> fixed[i] != fixed[j]
    ensures forall k :: multiset(Listed(fixed, env))[k] == if k in fixed && k in env then 1 else 0
  {
    if fixed != [] {
      assert fixed == [fixed[0]] + fixed[1..];
      FixedOnce(fixed[1..], env);
    }
  }

  // ---------------------------------------------------------------- the round trip

  predicate PrintableLine(line: string) {
    '\n' !in line && (line != "" ==> line[|line| - 1] != '\r')
  }

  lemma FirstLine(line: string, rest: string)
    requires PrintableLine(line)
    ensures SplitLines(line + ("\n" + rest)) == [line] + SplitLines(rest)
  {
    var s := line + ("\n" + rest);
    assert s[|line|] == '\n' && s[..|line|] == line && s[|line| + 1..] == rest;
    Strings.IndexOfFirst(s, '\n', |line|);
  }

  lemma {:induction false} SplitJoin(lines: seq<string>)
    requires lines != [] && forall line :: line in lines ==> PrintableLine(line)
    ensures SplitLines(Strings.Join(lines, "\n")) == lines
  {
    assert PrintableLine(lines[0]);
    if |lines| == 1 {
      Strings.IndexOfFirst(lines[0], '\n', |lines[0]|);
    } else {
      var rest := Strings.Join(lines[1..], "\n");
      assert Strings.Join(lines, "\n") == lines[0] + ("\n" + rest);
      SplitJoin(lines[1..]);
      FirstLine(lines[0], rest);
    }
  }

  predicate PrintableKey(k: string) {
    Strings.Trimmed(k) && '=' !in k && '\n' !in k && (k != "" ==> k[0] != '#')
  }

  predicate PrintableValue(v: string) { Strings.Trimmed(v) && '\n' !in v }

  lemma ReadPrinted(k: string, v: string)
    requires PrintableKey(k) && PrintableValue(v)
    ensures PrintableLine(k + "=" + v) && Setting(k + "=" + v) == Some((k, v))
  {
    var line := k + "=" + v;
    assert v != "" ==> line[|line| - 1] == v[|v| - 1];
    assert v == "" ==> line[|line| - 1] == '=';
    Strings.TrimKeeps(line);
    assert line[|k|] == '=';
    Strings.IndexOfFirst(line, '=', |k|);
    assert line[..|k|] == k && line[|k| + 1..] == v;
    Strings.TrimKeeps(k);
    Strings.TrimKeeps(v);
  }

  function Restricted(keys: seq<string>, env: map<string, string>): map<string, string> {
    map k | k in keys && k in env :: env[k]
  }

  lemma MapStep(keys: seq<string>, env: map<string, string>, acc: map<string, string>)
    requires keys != [] && forall k :: k in keys ==> k in env
    ensures acc[keys[0] := env[keys[0]]] + Restricted(keys[1..], env) == acc + Restricted(keys, env)
  {
    assert keys == [keys[0]] + keys[1..];
  }

  lemma HeaderIsAComment()
    ensures PrintableLine(HEADER) && Setting(HEADER).None?
  {
    assert HEADER[0] == '#' && HEADER[|HEADER| - 1] == '.';
    assert forall i :: 0 <= i < |HEADER| ==> HEADER[i] != '\n';
    Strings.TrimKeeps(HEADER);
  }

  lemma {:induction false} ReadEntries(keys: seq<string>, env: map<string, string>, acc: map<string, string>,
                                       rest: seq<string>)
    requires forall k :: k in keys ==> k in env && PrintableKey(k) && PrintableValue(env[k])
    ensures ReadLines(Entries(keys, env) + rest, acc) == ReadLines(rest, acc + Restricted(keys, env))
  {
    if keys == [] {
      assert Entries(keys, env) + rest == rest;
      assert acc + Restricted(keys, env) == acc;
    } else {
      var k := keys[0];
      ReadPrinted(k, env[k]);
      var lines := Entries(keys, env) + rest;
      assert lines[1..] == Entries(keys[1..], env) + rest;
      ReadEntries(keys[1..], env, acc[k := env[k]], rest);
      MapStep(keys, env, acc);
    }
  }

  lemma PrintableLines(printed: seq<string>, env: map<string, string>)
    requires forall k :: k in printed ==> k in env && PrintableKey(k) && PrintableValue(env[k])
    ensures forall line :: line in Entries(printed, env) ==> PrintableLine(line)
  {
    forall line | line in Entries(printed, env) ensures PrintableLine(line) {
      var i :| 0 <= i < |printed| && line == printed[i] + "=" + env[printed[i]];
      ReadPrinted(printed[i], env[printed[i]]);
    }
  }

  lemma BlankLine(env: map<string, string>)
    ensures ReadLines([""], env) == env
  {
    assert ReadLines([""], env) == ReadLines([], Put(Setting(""), env));
  }

  lemma HeaderSkipped(header: string, lines: seq<string>, env: map<string, string>)
    requires Setting(header).None?
    ensures ReadLines([header] + lines, env) == ReadLines(lines, env)
  {
    assert ([header] + lines)[1..] == lines;
  }

  lemma WholeMap(printed: seq<string>, env: map<string, string>)
    requires forall k :: k in printed <==> k in env
    ensures map[] + Restricted(printed, env) == env
  {
  }

  lemma AllPrintable(header: string, entries: seq<string>)
    requires PrintableLine(header) && forall line :: line in entries ==> PrintableLine(line)
    ensures SplitLines(Strings.Join([header] + (entries + [""]), "\n")) == [header] + (entries + [""])
  {
    var lines := [header] + (entries + [""]);
    SplitJoin(lines);
  }

  /** Parsing the printed file gives back the settings. */
  lemma RoundTrip(env: map<string, string>, keys: seq<string>)
    requires Enumerates(keys, env)
    requires forall k :: k in env ==> PrintableKey(k) && PrintableValue(env[k])
    ensures Parse(Serialize(env, keys)) == env
  {
    var printed := PrintedKeys(env, keys);
    var entries := Entries(printed, env);
    HeaderIsAComment();
    PrintableLines(printed, env);
    AllPrintable(HEADER, entries);
    HeaderSkipped(HEADER, entries + [""], map[]);
    ReadEntries(printed, env, map[], [""]);
    WholeMap(printed, env);
    BlankLine(env);
  }

  // ---------------------------------------------------------------- what parsing means

  function Puts(settings: seq<Option<(string, string)>>, env: map<string, string>): map<string, string> {
    if settings == [] then env else Puts(settings[1..], Put(settings[0], env))
  }

  /** The last setting of `k` gives it `v`. */
  ghost predicate SetLast(settings: seq<Option<(string, string)>>, k: string, v: string) {
    exists i :: 0 <= i < |settings| && settings[i] == Some((k, v)) && NeverSet(settings[i + 1..], k)
  }

  predicate NeverSet(settings: seq<Option<(string, string)>>, k: string) {
    forall i :: 0 <= i < |settings| && settings[i].Some? ==> settings[i].value.0 != k
  }

  lemma NeverSetParts(settings: seq<Option<(string, string)>>, k: string)
    requires settings != []
    ensures NeverSet(settings, k) <==> NeverSet(settings[1..], k) && (settings[0].Some? ==> settings[0].value.0 != k)
  {
    assert settings == [settings[0]] + settings[1..];
  }

  lemma SetLastParts(settings: seq<Option<(string, string)>>, k: string, v: string)
    requires settings != []
    ensures SetLast(settings, k, v) <==>
              SetLast(settings[1..], k, v) || (settings[0] == Some((k, v)) && NeverSet(settings[1..], k))
  {
    var tail := settings[1..];
    if SetLast(tail, k, v) {
      var i :| 0 <= i < |tail| && tail[i] == Some((k, v)) && NeverSet(tail[i + 1..], k);
      assert settings[i + 1] == tail[i] && settings[i + 2..] == tail[i + 1..];
    }
    if SetLast(settings, k, v) {
      var i :| 0 <= i < |settings| && settings[i] == Some((k, v)) && NeverSet(settings[i + 1..], k);
      if i > 0 {
        assert tail[i - 1] == settings[i] && tail[i..] == settings[i + 1..];
      }
    }
  }

  lemma {:induction false} LastPutWins(settings: seq<Option<(string, string)>>, env: map<string, string>, k: string,
                                       v: string)
    ensures (k in Puts(settings, env) && Puts(settings, env)[k] == v) <==>
              SetLast(settings, k, v) || (NeverSet(settings, k) && k in env && env[k] == v)
  {
    if settings != [] {
      LastPutWins(settings[1..], Put(settings[0], env), k, v);
      SetLastParts(settings, k, v);
      NeverSetParts(settings, k);
    }
  }

  lemma {:induction false} LinesAreSettings(lines: seq<string>, settings: seq<Option<(string, string)>>,
                                            env: map<string, string>)
    requires |settings| == |lines| && forall i :: 0 <= i < |lines| ==> settings[i] == Setting(lines[i])
    ensures ReadLines(lines, env) == Puts(settings, env)
  {
    if lines != [] { LinesAreSettings(lines[1..], settings[1..], Put(settings[0], env)); }
  }

  /** A key has the value of the last line that sets it, and no other key is there. */
  lemma LastLineWins(content: string, k: string, v: string)
    ensures var lines := SplitLines(content);
            (k in Parse(content) && Parse(content)[k] == v) <==>
              SetLast(seq(|lines|, i requires 0 <= i < |lines| => Setting(lines[i])), k, v)
  {
    var lines := SplitLines(content);
    var settings := seq(|lines|, i requires 0 <= i < |lines| => Setting(lines[i]));
    LinesAreSettings(lines, settings, map[]);
    LastPutWins(settings, map[], k, v);
  }
}
