/** Project slugs: how one is made from a name, and what counts as one. */
module Slug {
  import Strings

  predicate Alnum(c: char) { 'a' <= c <= 'z' || '0' <= c <= '9' }

  function LowerChar(c: char): char {
    if 'A' <= c <= 'Z' then c - 'A' + 'a' else c
  }

  function Lower(s: string): (r: string)
    ensures |r| == |s| && forall i :: 0 <= i < |s| ==> r[i] == LowerChar(s[i])
  {
    seq(|s|, i requires 0 <= i < |s| => LowerChar(s[i]))
  }

  /** Letters and digits joined by single hyphens. */
  predicate Valid(s: string) {
    && s != "" && Alnum(s[0]) && Alnum(s[|s| - 1])
    && (forall i :: 0 <= i < |s| ==> Alnum(s[i]) || s[i] == '-')
    && (forall i {:trigger s[i]} :: 0 < i < |s| && s[i] == '-' ==> s[i - 1] != '-')
  }

  /** Replaces each run of other characters by one hyphen; `run` says the last character was in a run. */
  function Hyphenate(s: string, run: bool): string {
    if s == "" then ""
    else if Alnum(s[0]) then [s[0]] + Hyphenate(s[1..], false)
    else (if run then "" else "-") + Hyphenate(s[1..], true)
  }

  function StripLeft(s: string): string {
    if s != "" && s[0] == '-' then StripLeft(s[1..]) else s
  }

  function StripRight(s: string): string {
    if s != "" && s[|s| - 1] == '-' then StripRight(s[..|s| - 1]) else s
  }

  function Collapse(s: string): string {
    if |s| < 2 then s
    else if s[0] == '-' && s[1] == '-' then Collapse(s[1..])
    else [s[0]] + Collapse(s[1..])
  }

  function Slugify(name: string): string {
    Collapse(StripRight(StripLeft(Hyphenate(Lower(Strings.Trim(name)), false))))
  }

  // ---------------------------------------------------------------- proofs

  /** Only letters, digits and single hyphens. */
  predicate Clean(s: string) {
    && (forall i :: 0 <= i < |s| ==> Alnum(s[i]) || s[i] == '-')
    && (forall i {:trigger s[i]} :: 0 < i < |s| && s[i] == '-' ==> s[i - 1] != '-')
  }

  lemma {:induction false} HyphenateClean(s: string, run: bool)
    ensures Clean(Hyphenate(s, run))
    ensures run && Hyphenate(s, run) != "" ==> Hyphenate(s, run)[0] != '-'
  {
    if s != "" {
      HyphenateClean(s[1..], !Alnum(s[0]));
    }
  }

  lemma {:induction false} StripLeftClean(s: string)
    requires Clean(s)
    ensures Clean(StripLeft(s)) && (StripLeft(s) != "" ==> StripLeft(s)[0] != '-')
  {
    if s != "" && s[0] == '-' {
      assert Clean(s[1..]) by {
        assert forall i :: 0 <= i < |s[1..]| ==> s[1..][i] == s[i + 1];
      }
      StripLeftClean(s[1..]);
    }
  }

  lemma {:induction false} StripRightClean(s: string)
    requires Clean(s)
    ensures Clean(StripRight(s)) && (StripRight(s) != "" ==> StripRight(s)[|StripRight(s)| - 1] != '-')
    ensures StripRight(s) <= s
  {
    if s != "" && s[|s| - 1] == '-' {
      StripRightClean(s[..|s| - 1]);
    }
  }

  lemma {:induction false} CollapseClean(s: string)
    requires Clean(s)
    ensures Collapse(s) == s
  {
    if |s| >= 2 {
      assert Clean(s[1..]) by {
        assert forall i :: 0 <= i < |s[1..]| ==> s[1..][i] == s[i + 1];
      }
      assert s[1] != '-' || s[0] != '-';
      CollapseClean(s[1..]);
    }
  }

  /** A name yields no slug or a valid one. */
  lemma SlugifyIsValid(name: string)
    ensures Slugify(name) == "" || Valid(Slugify(name))
  {
    var h := Hyphenate(Lower(Strings.Trim(name)), false);
    HyphenateClean(Lower(Strings.Trim(name)), false);
    StripLeftClean(h);
    StripRightClean(StripLeft(h));
    CollapseClean(StripRight(StripLeft(h)));
  }

  lemma {:induction false} HyphenateKeeps(s: string)
    requires Clean(s)
    ensures Hyphenate(s, false) == s
  {
    if s != "" {
      assert Clean(s[1..]) by {
        assert forall i :: 0 <= i < |s[1..]| ==> s[1..][i] == s[i + 1];
      }
      if Alnum(s[0]) {
        HyphenateKeeps(s[1..]);
      } else if |s| > 1 {
        assert Alnum(s[1]);
        HyphenateKeeps(s[1..]);
        assert Hyphenate(s[1..], true) == [s[1]] + Hyphenate(s[1..][1..], false) == Hyphenate(s[1..], false);
      }
    }
  }

  /** A slug is its own slug, so a stored project is found again under its slug. */
  lemma SlugifyKeepsSlugs(s: string)
    requires Valid(s)
    ensures Slugify(s) == s
  {
    SlugIsTrimmed(s);
    SlugIsLower(s);
    SlugIsStripped(s);
    HyphenateKeeps(s);
    CollapseClean(s);
  }

  lemma SlugIsLower(s: string)
    requires Valid(s)
    ensures Lower(s) == s
  {
  }

  lemma SlugIsStripped(s: string)
    requires Valid(s)
    ensures StripRight(StripLeft(s)) == s
  {
    assert s[0] != '-' && s[|s| - 1] != '-';
  }

  lemma SlugIsTrimmed(s: string)
    requires Valid(s)
    ensures Strings.Trim(s) == s
  {
    assert !Strings.Space(s[0]) && !Strings.Space(s[|s| - 1]);
    Strings.TrimKeeps(s);
  }

  // ---------------------------------------------------------------- the words of a name

  /** The runs of letters and digits of a text, in order; `word` is the run that is being read. */
  function Words(s: string, word: string): (words: seq<string>)
    ensures word != "" ==> words != []
  {
    var read := if word == "" then [] else [word];
    if s == "" then read
    else if Alnum(s[0]) then Words(s[1..], word + [s[0]])
    else read + Words(s[1..], "")
  }

  lemma {:induction false} StripRightBehind(front: string, s: string)
    requires s != "" && s[0] != '-'
    ensures StripRight(front + s) == front + StripRight(s)
    decreases |s|
  {
    var all := front + s;
    assert all[|all| - 1] == s[|s| - 1];
    if s[|s| - 1] == '-' {
      assert all[..|all| - 1] == front + s[..|s| - 1];
      StripRightBehind(front, s[..|s| - 1]);
    }
  }

  lemma {:induction false} AfterWord(s: string, word: string)
    requires word != "" && word[|word| - 1] != '-' && word[0] != '-'
    ensures StripRight(word + Hyphenate(s, false)) == Strings.Join(Words(s, word), "-")
    decreases |s|, 1
  {
    if s == "" {
      assert word + "" == word;
    } else if Alnum(s[0]) {
      assert word + ([s[0]] + Hyphenate(s[1..], false)) == (word + [s[0]]) + Hyphenate(s[1..], false);
      AfterWord(s[1..], word + [s[0]]);
    } else {
      assert word + ("-" + Hyphenate(s[1..], true)) == (word + "-") + Hyphenate(s[1..], true);
      AfterGap(s[1..], word);
    }
  }

  lemma {:induction false} AfterGap(s: string, word: string)
    requires word != "" && word[|word| - 1] != '-' && word[0] != '-'
    ensures StripRight((word + "-") + Hyphenate(s, true)) == Strings.Join([word] + Words(s, ""), "-")
    decreases |s|, 0
  {
    var front := word + "-";
    if s == "" {
      assert front + "" == front && front[..|front| - 1] == word && [word] + [] == [word];
      assert StripRight(front) == StripRight(word) == word;
    } else if !Alnum(s[0]) {
      assert "" + Hyphenate(s[1..], true) == Hyphenate(s[1..], true);
      assert [] + Words(s[1..], "") == Words(s[1..], "");
      AfterGap(s[1..], word);
    } else {
      var rest := [s[0]] + Hyphenate(s[1..], false);
      StripRightBehind(front, rest);
      AfterWord(s[1..], [s[0]]);
      assert "" + [s[0]] == [s[0]];
      var words := Words(s[1..], [s[0]]);
      assert ([word] + words)[1..] == words;
    }
  }

  lemma {:induction false} StripJoinsWords(s: string, run: bool)
    ensures StripRight(StripLeft(Hyphenate(s, run))) == Strings.Join(Words(s, ""), "-")
  {
    if s == "" {
    } else if Alnum(s[0]) {
      assert "" + [s[0]] == [s[0]];
      AfterWord(s[1..], [s[0]]);
    } else {
      StripJoinsWords(s[1..], true);
      var rest := Hyphenate(s[1..], true);
      assert ("-" + rest)[1..] == rest && "" + rest == rest;
      assert [] + Words(s[1..], "") == Words(s[1..], "");
    }
  }

  /** A slug is the name's runs of letters and digits, in lower case, joined by single hyphens. */
  lemma SlugifyJoinsTheWords(name: string)
    ensures Slugify(name) == Strings.Join(Words(Lower(Strings.Trim(name)), ""), "-")
  {
    var s := Lower(Strings.Trim(name));
    HyphenateClean(s, false);
    StripLeftClean(Hyphenate(s, false));
    StripRightClean(StripLeft(Hyphenate(s, false)));
    CollapseClean(StripRight(StripLeft(Hyphenate(s, false))));
    StripJoinsWords(s, false);
  }

  const CAPITALS := "ABCDEFGHIJKLMNOPQRSTUVWXYZ"
  const SMALL := "abcdefghijklmnopqrstuvwxyz"

  /** Lower case is the letter at the same place of the alphabet, and everything else as it is. */
  lemma LowerIsByTheAlphabet(c: char, k: nat)
    ensures k < |CAPITALS| ==> LowerChar(CAPITALS[k]) == SMALL[k]
    ensures c !in CAPITALS ==> LowerChar(c) == c
  {
    if 'A' <= c <= 'Z' {
      assert CAPITALS[c as int - 'A' as int] == c;
    }
  }
}
