/** Search patterns (`LikeContains`, internal/httpx/middleware.go) under LIKE with escape
    character backslash (PostgreSQL manual, section 9.7.1). */
module Like {
  /** `strings.NewReplacer` on single characters. */
  function Escaped(q: string): string {
    if q == "" then ""
    else (if q[0] == '\\' || q[0] == '%' || q[0] == '_' then ['\\', q[0]] else [q[0]]) + Escaped(q[1..])
  }

  function LikeContains(q: string): string {
    "%" + Escaped(q) + "%"
  }

  /** Whether `s` matches the whole pattern, characters compared through `fold`. (LIKE rejects
      patterns that end in a bare escape character; `LikeContains` builds none.) */
  predicate Matches(s: string, pattern: string, fold: char -> char)
    decreases |pattern|, |s|
  {
    if pattern == "" then s == ""
    else if pattern[0] == '%' then
      Matches(s, pattern[1..], fold) || (s != "" && Matches(s[1..], pattern, fold))
    else if pattern[0] == '_' then
      s != "" && Matches(s[1..], pattern[1..], fold)
    else if pattern[0] == '\\' && |pattern| >= 2 then
      s != "" && fold(s[0]) == fold(pattern[1]) && Matches(s[1..], pattern[2..], fold)
    else
      s != "" && fold(s[0]) == fold(pattern[0]) && Matches(s[1..], pattern[1..], fold)
  }

  predicate SameUpTo(s: string, t: string, fold: char -> char) {
    |s| == |t| && forall i | 0 <= i < |s| :: fold(s[i]) == fold(t[i])
  }

  /** `q` is a substring of `s`, up to folding. */
  ghost predicate Contains(s: string, q: string, fold: char -> char) {
    exists i :: FoundAt(s, q, i, fold)
  }

  predicate FoundAt(s: string, q: string, i: int, fold: char -> char) {
    0 <= i <= |s| - |q| && SameUpTo(s[i..i + |q|], q, fold)
  }

  lemma {:induction false} PercentMatchesAll(s: string, fold: char -> char)
    ensures Matches(s, "%", fold)
  {
    if s != "" {
      PercentMatchesAll(s[1..], fold);
    }
  }

  /** The escaped text followed by % matches exactly the strings that start with the text. */
  lemma {:induction false} EscapedMatchesPrefix(s: string, q: string, fold: char -> char)
    ensures Matches(s, Escaped(q) + "%", fold) <==> |q| <= |s| && SameUpTo(s[..|q|], q, fold)
    decreases |q|
  {
    if q == "" {
      assert Escaped(q) + "%" == "%";
      PercentMatchesAll(s, fold);
    } else {
      var pattern, rest := Escaped(q) + "%", Escaped(q[1..]) + "%";
      var special := q[0] == '\\' || q[0] == '%' || q[0] == '_';
      assert pattern[if special then 2 else 1..] == rest;
      assert Matches(s, pattern, fold) <==> s != "" && fold(s[0]) == fold(q[0]) && Matches(s[1..], rest, fold);
      if s != "" {
        EscapedMatchesPrefix(s[1..], q[1..], fold);
        if |q| <= |s| {
          assert s[1..][..|q| - 1] == s[..|q|][1..];
          PrefixUpTo(s[..|q|], q, fold);
        }
      }
    }
  }

  lemma PrefixUpTo(s: string, t: string, fold: char -> char)
    requires s != "" && t != ""
    ensures SameUpTo(s, t, fold) <==> fold(s[0]) == fold(t[0]) && SameUpTo(s[1..], t[1..], fold)
  {
    if fold(s[0]) == fold(t[0]) && SameUpTo(s[1..], t[1..], fold) {
      forall i | 0 <= i < |s|
        ensures fold(s[i]) == fold(t[i])
      {
        if i > 0 { assert s[i] == s[1..][i - 1] && t[i] == t[1..][i - 1]; }
      }
    }
  }

  /** For all texts: the pattern built from `q` matches `s` if and only if `q` is a substring
      of `s`, up to the case folding in use. */
  lemma {:induction false} LikeContainsIsSubstring(s: string, q: string, fold: char -> char)
    ensures Matches(s, LikeContains(q), fold) <==> Contains(s, q, fold)
    decreases |s|
  {
    var pattern := LikeContains(q);
    assert pattern[1..] == Escaped(q) + "%";
    EscapedMatchesPrefix(s, q, fold);
    if s != "" {
      LikeContainsIsSubstring(s[1..], q, fold);
    }
    hide Matches;
    ContainsStep(s, q, fold);
  }

  lemma Shift(s: string, i: nat, n: nat)
    requires i + n < |s|
    ensures s[1..][i..i + n] == s[i + 1..i + 1 + n]
  {
    var a, b := s[1..][i..i + n], s[i + 1..i + 1 + n];
    assert |a| == |b| && forall k | 0 <= k < n :: a[k] == b[k];
  }

  lemma ContainsStep(s: string, q: string, fold: char -> char)
    ensures Contains(s, q, fold) <==>
              || (|q| <= |s| && SameUpTo(s[..|q|], q, fold))
              || (s != "" && Contains(s[1..], q, fold))
  {
    hide SameUpTo;
    if |q| <= |s| && SameUpTo(s[..|q|], q, fold) {
      assert s[0..0 + |q|] == s[..|q|];
      assert FoundAt(s, q, 0, fold);
    }
    if s != "" && Contains(s[1..], q, fold) {
      var i :| FoundAt(s[1..], q, i, fold);
      Shift(s, i, |q|);
      assert FoundAt(s, q, i + 1, fold);
    }
    if Contains(s, q, fold) {
      var i :| FoundAt(s, q, i, fold);
      if i == 0 {
        assert s[0..0 + |q|] == s[..|q|];
      } else {
        Shift(s, i - 1, |q|);
        assert FoundAt(s[1..], q, i - 1, fold);
      }
    }
  }

  /** Why it escapes: an underscore stands for any one character. Put between the wildcards as
      they are, an underscore would find every non-empty text, a percent sign every text, and a
      backslash whatever ends in a percent sign. */
  lemma {:induction false} UnescapedSearches(s: string, fold: char -> char)
    ensures Matches(s, "_", fold) <==> |s| == 1
    ensures Matches(s, "%_%", fold) <==> s != ""
    ensures Matches(s, "%%%", fold)
    ensures Matches(s, ['%', '\\', '%'], fold) <==> s != "" && fold(s[|s| - 1]) == fold('%')
  {
    AfterFirst(s, fold);
    if s != "" {
      UnescapedSearches(s[1..], fold);
      PercentMatchesAll(s[1..], fold);
    }
    PercentMatchesAll(s, fold);
  }

  lemma {:induction false} AfterFirst(s: string, fold: char -> char)
    ensures "%_%"[1..] == "_%" && "_%"[1..] == "%" && "%%%"[1..] == "%%" && "%%"[1..] == "%"
    ensures ['%', '\\', '%'][1..] == ['\\', '%'] && ['\\', '%'][2..] == ""
    ensures Matches(s, ['\\', '%'], fold) <==> |s| == 1 && fold(s[0]) == fold('%')
  {
    assert ['\\', '%'][2..] == "";
  }
}
