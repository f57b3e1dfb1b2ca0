/** The env file as text: what each of its lines sets, and what is printed, character by character. */
module EnvFileText {
  import opened EnvFile
  import opened Options
  import Strings

  // ---------------------------------------------------------------- lines and settings, character by character

  /** A raw line sets a key exactly when, trimmed, it does not begin with '#' and has an '=': the key is what stands
      before the first one and the value what stands behind it, both trimmed. */
  lemma SettingExactly(raw: string, k: string, v: string)
    ensures Setting(raw) == Some((k, v)) <==>
              exists before: string, behind: string ::
                && Strings.Trim(raw) == before + ['='] + behind && '=' !in before
                && Strings.Trim(raw)[0] != '#' && k == Strings.Trim(before) && v == Strings.Trim(behind)
  {
    var line := Strings.Trim(raw);
    var n := Strings.IndexOf(line, '=');
    Strings.IndexOfHits(line, '=');
    if Setting(raw) == Some((k, v)) {
      assert line == line[..n] + ['='] + line[n + 1..];
    }
    if before: string, behind: string :|
      && line == before + ['='] + behind && '=' !in before
      && line[0] != '#' && k == Strings.Trim(before) && v == Strings.Trim(behind)
    {
      Strings.IndexOfFirst(line, '=', |before|);
      assert line[..|before|] == before && line[|before| + 1..] == behind;
    }
  }

  /** The lines are the pieces between line feeds; all but the last lose a carriage return at their end. */
  lemma {:induction false} LinesArePieces(s: string, i: nat)
    requires i < |Strings.Split(s, '\n')|
    ensures |SplitLines(s)| == |Strings.Split(s, '\n')|
    ensures var piece, line := Strings.Split(s, '\n')[i], SplitLines(s)[i];
            if i + 1 < |SplitLines(s)| && |piece| > 0 && piece[|piece| - 1] == '\r' then piece == line + ['\r']
            else line == piece
    decreases |s|
  {
    var n := Strings.IndexOf(s, '\n');
    if n < |s| {
      var rest := s[n + 1..];
      LinesArePieces(rest, if i == 0 then 0 else i - 1);
    }
  }

  // ---------------------------------------------------------------- the printed text

  function Text(keys: seq<string>, env: map<string, string>): string
    requires forall k :: k in keys ==> k in env
  {
    if keys == [] then "" else keys[0] + "=" + env[keys[0]] + "\n" + Text(keys[1..], env)
  }

  lemma {:induction false} JoinEndsLines(first: string, keys: seq<string>, env: map<string, string>)
    requires forall k :: k in keys ==> k in env
    ensures Strings.Join([first] + (Entries(keys, env) + [""]), "\n") == first + "\n" + Text(keys, env)
    decreases |keys|
  {
    var lines := [first] + (Entries(keys, env) + [""]);
    if keys == [] {
      assert lines == [first, ""] && lines[1..] == [""];
    } else {
      var line := keys[0] + "=" + env[keys[0]];
      var rest := [line] + (Entries(keys[1..], env) + [""]);
      assert lines[1..] == rest;
      JoinEndsLines(line, keys[1..], env);
      assert first + "\n" + (line + "\n" + Text(keys[1..], env)) == first + "\n" + Text(keys, env);
    }
  }

  /** The file is the header, then for each printed key its own line: the key, an equals sign, its value. */
  lemma PrintedText(env: map<string, string>, keys: seq<string>)
    requires Enumerates(keys, env)
    ensures Serialize(env, keys) == HEADER + "\n" + Text(PrintedKeys(env, keys), env)
  {
    JoinEndsLines(HEADER, PrintedKeys(env, keys), env);
  }

  lemma {:induction false} ListedInOrder(fixed: seq<string>, env: map<string, string>, a: nat, b: nat)
    returns (i: nat, j: nat)
    requires a < b < |fixed| && fixed[a] in env && fixed[b] in env
    ensures i < j < |Listed(fixed, env)| && Listed(fixed, env)[i] == fixed[a] && Listed(fixed, env)[j] == fixed[b]
  {
    var here := if fixed[0] in env then 1 else 0;
    if a == 0 {
      i := 0;
      assert fixed[1..][b - 1] == fixed[b];
      var place :| 0 <= place < |Listed(fixed[1..], env)| && Listed(fixed[1..], env)[place] == fixed[b];
      j := place + 1;
    } else {
      i, j := ListedInOrder(fixed[1..], env, a - 1, b - 1);
      i, j := i + here, j + here;
    }
  }

  /** Where two fixed keys are set, they are printed in their fixed order, and any fixed key before any other one. */
  lemma FixedInOrder(env: map<string, string>, keys: seq<string>, a: nat, b: nat) returns (i: nat, j: nat)
    requires Enumerates(keys, env) && a < b < |ORDERED_KEYS| && ORDERED_KEYS[a] in env && ORDERED_KEYS[b] in env
    ensures i < j < |PrintedKeys(env, keys)|
    ensures PrintedKeys(env, keys)[i] == ORDERED_KEYS[a] && PrintedKeys(env, keys)[j] == ORDERED_KEYS[b]
    ensures forall n :: 0 <= n < |PrintedKeys(env, keys)| && PrintedKeys(env, keys)[n] !in ORDERED_KEYS ==> j < n
  {
    i, j := ListedInOrder(ORDERED_KEYS, env, a, b);
    assert forall n :: 0 <= n <= j ==> PrintedKeys(env, keys)[n] == Listed(ORDERED_KEYS, env)[n];
  }
}
