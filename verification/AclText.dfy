/** The access-list text of the credential files: a cursor parser that accepts one exact language. */
module AclText {
  import opened Options
  import Sets
  import Strings

  const PREFIX := "D:PAI"
  const SYSTEM_SID := "S-1-5-18"
  const ADMINISTRATORS_SID := "S-1-5-32-544"

  /** How a principal's token is read: an alias, or a normalised identifier. */
  type SidReader = string -> Option<string>

  /** An allow entry for full control, with the flags of a file or a directory. */
  function PrintEntry(flags: string, token: string): string {
    "(" + (Strings.Join(["A", flags, "FA", "", "", token], ";") + ")")
  }

  function PrintEntries(flags: string, tokens: seq<string>): string {
    if tokens == [] then "" else PrintEntry(flags, tokens[0]) + PrintEntries(flags, tokens[1..])
  }

  /** Text that can stand inside a field. */
  predicate FieldText(s: string) { '(' !in s && ')' !in s && ';' !in s }

  /** The token of the entry at the start of the text, and the length of the entry. */
  function ReadEntry(s: string, flags: string): Option<(string, nat)>
    ensures ReadEntry(s, flags).Some? ==> 2 <= ReadEntry(s, flags).value.1 <= |s|
  {
    if s == "" || s[0] != '(' then None
    else
      var close := Strings.IndexOf(s[1..], ')');
      var body := s[1..][..close];
      var fields := Strings.Split(body, ';');
      if close == |s| - 1 || '(' in body || |fields| != 6
         || fields[..5] != ["A", flags, "FA", "", ""] || fields[5] == ""
      then None
      else Some((fields[5], close + 2))
  }

  /** The principals of all entries, to the end of the text. */
  function ReadAccess(s: string, flags: string, sid: SidReader): Option<seq<string>>
    decreases |s|
  {
    if s == "" then Some([])
    else
      var first := ReadEntry(s, flags);
      if first.None? || sid(first.value.0).None? then None
      else Behind([sid(first.value.0).value], ReadAccess(s[first.value.1..], flags, sid))
  }

  function Behind(read: seq<string>, rest: Option<seq<string>>): Option<seq<string>> {
    if rest.None? then None else Some(read + rest.value)
  }

  function ReadSids(tokens: seq<string>, sid: SidReader): Option<seq<string>> {
    if tokens == [] then Some([])
    else if sid(tokens[0]).None? then None
    else Behind([sid(tokens[0]).value], ReadSids(tokens[1..], sid))
  }

  function Parse(descriptor: string, flags: string, sid: SidReader): Option<seq<string>> {
    if !(PREFIX <= descriptor) || descriptor == PREFIX then None else ReadAccess(descriptor[|PREFIX|..], flags, sid)
  }

  /** The cursor moves from entry to entry and collects the principals. */
  method ParseWindowsAclSddl(descriptor: string, flags: string, sid: SidReader) returns (access: Option<seq<string>>)
    ensures access == Parse(descriptor, flags, sid)
  {
    if !(PREFIX <= descriptor) { return None; }
    var cursor, sids: seq<string> := |PREFIX|, [];
    ghost var goal := ReadAccess(descriptor[cursor..], flags, sid);
    BehindNothing(goal);
    while cursor < |descriptor|
      invariant |PREFIX| <= cursor <= |descriptor| && (sids == [] <==> cursor == |PREFIX|)
      invariant goal == Behind(sids, ReadAccess(descriptor[cursor..], flags, sid))
    {
      var entry := ReadEntry(descriptor[cursor..], flags);
      if entry.None? { return None; }
      var read := sid(entry.value.0);
      if read.None? { return None; }
      var next := cursor + entry.value.1;
      assert descriptor[cursor..][entry.value.1..] == descriptor[next..];
      BehindBoth(sids, [read.value], ReadAccess(descriptor[next..], flags, sid));
      sids, cursor := sids + [read.value], next;
    }
    assert descriptor[cursor..] == "";
    if sids == [] { return None; }
    assert sids + [] == sids;
    return Some(sids);
  }

  lemma BehindNothing(rest: Option<seq<string>>)
    ensures Behind([], rest) == rest
  {
    if rest.Some? { assert [] + rest.value == rest.value; }
  }

  lemma BehindBoth(a: seq<string>, b: seq<string>, rest: Option<seq<string>>)
    ensures Behind(a, Behind(b, rest)) == Behind(a + b, rest)
  {
    if rest.Some? { assert a + (b + rest.value) == (a + b) + rest.value; }
  }

  // ---------------------------------------------------------------- the accepted language

  lemma PrintedReads(flags: string, token: string, rest: string)
    requires FieldText(flags) && FieldText(token) && token != ""
    ensures ReadEntry(PrintEntry(flags, token) + rest, flags) == Some((token, |PrintEntry(flags, token)|))
  {
    var fields := ["A", flags, "FA", "", "", token];
    var body := Strings.Join(fields, ";");
    var s := PrintEntry(flags, token) + rest;
    forall part | part in fields ensures FieldText(part) {}
    Strings.SplitJoin(fields, ';');
    JoinedText(fields);
    assert s[1..] == body + (")" + rest);
    assert forall i :: 0 <= i < |body| ==> s[1..][i] == body[i];
    Strings.IndexOfFirst(s[1..], ')', |body|);
    assert s[1..][..|body|] == body;
    assert fields[..5] == ["A", flags, "FA", "", ""];
  }

  lemma {:induction false} JoinedText(parts: seq<string>)
    requires forall part :: part in parts ==> FieldText(part)
    ensures '(' !in Strings.Join(parts, ";") && ')' !in Strings.Join(parts, ";")
  {
    if |parts| > 0 { assert FieldText(parts[0]); }
    if |parts| > 1 { JoinedText(parts[1..]); }
  }

  lemma ReadIsPrinted(s: string, flags: string)
    requires ReadEntry(s, flags).Some?
    ensures var (token, length) := ReadEntry(s, flags).value;
            token != "" && FieldText(token) && s[..length] == PrintEntry(flags, token)
  {
    var close := Strings.IndexOf(s[1..], ')');
    var body := s[1..][..close];
    var fields := Strings.Split(body, ';');
    var token := fields[5];
    Strings.IndexOfHits(s[1..], ')');
    Strings.JoinSplit(body, ';');
    assert fields == fields[..5] + [token] == ["A", flags, "FA", "", "", token];
    assert token in fields;
    TokenText(fields, 5);
    assert s[..close + 2] == "(" + (body + ")");
  }

  lemma {:induction false} TokenText(parts: seq<string>, i: nat)
    requires i < |parts| && '(' !in Strings.Join(parts, ";") && ')' !in Strings.Join(parts, ";")
    ensures '(' !in parts[i] && ')' !in parts[i]
  {
    var all := Strings.Join(parts, ";");
    if |parts| > 1 {
      var rest := Strings.Join(parts[1..], ";");
      assert all == parts[0] + ";" + rest;
      assert forall j :: 0 <= j < |parts[0]| ==> all[j] == parts[0][j];
      assert forall j :: 0 <= j < |rest| ==> all[|parts[0]| + 1 + j] == rest[j];
      if i > 0 { TokenText(parts[1..], i - 1); }
    }
  }

  predicate Tokens(tokens: seq<string>) { forall t :: t in tokens ==> t != "" && FieldText(t) }

  lemma {:induction false} PrintedEntriesRead(flags: string, tokens: seq<string>, sid: SidReader)
    requires FieldText(flags) && Tokens(tokens)
    ensures ReadAccess(PrintEntries(flags, tokens), flags, sid) == ReadSids(tokens, sid)
  {
    if tokens != [] {
      var rest := PrintEntries(flags, tokens[1..]);
      assert tokens[0] in tokens;
      PrintedReads(flags, tokens[0], rest);
      assert (PrintEntry(flags, tokens[0]) + rest)[|PrintEntry(flags, tokens[0])|..] == rest;
      PrintedEntriesRead(flags, tokens[1..], sid);
    }
  }

  lemma {:induction false} AccessIsPrinted(s: string, flags: string, sid: SidReader) returns (tokens: seq<string>)
    requires ReadAccess(s, flags, sid).Some?
    ensures Tokens(tokens) && s == PrintEntries(flags, tokens) && ReadSids(tokens, sid) == ReadAccess(s, flags, sid)
    decreases |s|
  {
    tokens := [];
    if s != "" {
      var (token, length) := ReadEntry(s, flags).value;
      ReadIsPrinted(s, flags);
      var rest := AccessIsPrinted(s[length..], flags, sid);
      tokens := [token] + rest;
      assert s == s[..length] + s[length..];
    }
  }

  /** The parser accepts exactly the prefix followed by one or more allow entries for full control with the
      expected flags, and gives their principals in order. */
  lemma AcceptsExactly(descriptor: string, flags: string, sid: SidReader, sids: seq<string>)
    requires FieldText(flags)
    ensures Parse(descriptor, flags, sid) == Some(sids) <==>
              exists tokens :: tokens != [] && Tokens(tokens) && ReadSids(tokens, sid) == Some(sids)
                               && descriptor == PREFIX + PrintEntries(flags, tokens)
  {
    if Parse(descriptor, flags, sid) == Some(sids) {
      var text := descriptor[|PREFIX|..];
      var tokens := AccessIsPrinted(text, flags, sid);
      assert descriptor == PREFIX + text && text != "";
    }
    forall tokens | tokens != [] && Tokens(tokens) && ReadSids(tokens, sid) == Some(sids)
                    && descriptor == PREFIX + PrintEntries(flags, tokens)
      ensures Parse(descriptor, flags, sid) == Some(sids)
    {
      PrintedEntriesRead(flags, tokens, sid);
      assert descriptor[|PREFIX|..] == PrintEntries(flags, tokens);
    }
  }

  /** The text of an entry, written out. */
  lemma EntryText(flags: string, token: string)
    ensures PrintEntry(flags, token) == "(A;" + flags + ";FA;;;" + token + ")"
  {
    var fields := ["A", flags, "FA", "", "", token];
    assert fields[1..] == [flags, "FA", "", "", token] && [flags, "FA", "", "", token][1..] == ["FA", "", "", token];
    assert ["FA", "", "", token][1..] == ["", "", token] && ["", "", token][1..] == ["", token];
    assert ["", token][1..] == [token];
    assert Strings.Join(["", token], ";") == ";" + token;
    assert Strings.Join(["", "", token], ";") == ";;" + token;
    assert Strings.Join(["FA", "", "", token], ";") == "FA;;;" + token;
    assert Strings.Join([flags, "FA", "", "", token], ";") == flags + ";FA;;;" + token;
    assert Strings.Join(fields, ";") == "A;" + flags + ";FA;;;" + token;
  }

  /** A descriptor for the owner's file with one entry, as the operating system prints it. */
  lemma OneEntry(token: string, sid: SidReader, principal: string)
    requires FieldText(token) && token != "" && sid(token) == Some(principal)
    ensures Parse("D:PAI" + ("(A;" + "" + ";FA;;;" + token + ")"), "", sid) == Some([principal])
  {
    EntryText("", token);
    assert PrintEntries("", [token]) == PrintEntry("", token) + "" == PrintEntry("", token);
    assert [principal] + [] == [principal] && [token][1..] == [];
    assert ReadSids([token], sid) == Some([principal]);
    AcceptsExactly(PREFIX + PrintEntry("", token), "", sid, [principal]);
  }

  // ---------------------------------------------------------------- the expected principals

  /** Three entries for three different principals, all of them allowed. */
  predicate Verified(access: seq<string>, user: string) {
    var allowed, actual := {user, SYSTEM_SID, ADMINISTRATORS_SID}, set s | s in access;
    |allowed| == 3 && |access| == 3 && |actual| == 3 && forall s :: s in actual ==> s in allowed
  }

  /** A verified list grants access to the user, the system and the administrators, and to nobody else. */
  lemma VerifiedMeansExactlyThree(access: seq<string>, user: string)
    requires Verified(access, user)
    ensures user != SYSTEM_SID && user != ADMINISTRATORS_SID
    ensures forall s :: s in access <==> s == user || s == SYSTEM_SID || s == ADMINISTRATORS_SID
    ensures forall i, j :: 0 <= i < j < |access| ==> access[i] != access[j]
  {
    var allowed, actual := {user, SYSTEM_SID, ADMINISTRATORS_SID}, set s | s in access;
    Sets.SubsetOfSameSize(actual, allowed);
    ThreeDistinct(user, SYSTEM_SID, ADMINISTRATORS_SID);
    assert actual == {access[0], access[1], access[2]} by {
      assert forall s :: s in access ==> s == access[0] || s == access[1] || s == access[2];
    }
    ThreeDistinct(access[0], access[1], access[2]);
  }

  lemma ThreeDistinct(a: string, b: string, c: string)
    ensures |{a, b, c}| == 3 ==> a != b && b != c && a != c
  {
    if a == b { assert {a, b, c} == {b, c}; }
    if b == c { assert {a, b, c} == {a, b}; }
    if a == c { assert {a, b, c} == {a, b}; }
  }

  /** And every such list is verified: three entries that name the user and the two well-known principals. */
  lemma ThreeAreVerified(access: seq<string>, user: string)
    requires |access| == 3 && user in access && "S-1-5-18" in access && "S-1-5-32-544" in access
    requires user != "S-1-5-18" && user != "S-1-5-32-544"
    ensures Verified(access, user)
  {
    var actual := set s | s in access;
    var allowed := {user, SYSTEM_SID, ADMINISTRATORS_SID};
    ThreeDistinct(user, SYSTEM_SID, ADMINISTRATORS_SID);
    assert allowed <= actual && actual == {access[0], access[1], access[2]} by {
      assert forall s :: s in access ==> s == access[0] || s == access[1] || s == access[2];
    }
    Sets.SubsetSize(allowed, actual);
    AtMostThree(access[0], access[1], access[2]);
    Sets.SubsetOfSameSize(allowed, actual);
  }

  lemma AtMostThree(a: string, b: string, c: string)
    ensures |{a, b, c}| <= 3
  {
    assert {a, b, c} == {a} + {b} + {c};
  }
}
