/** The glob matcher for module patterns, against the usual meaning of `*` and `?`. */
module FnMatch {

  /** The meaning of a pattern: `*` stands for any run of characters, `?` for any one character. */
  ghost predicate Glob(pattern: string, str: string)
  {
    if pattern == "" then str == ""
    else if pattern[0] == '*' then exists k :: 0 <= k <= |str| && Glob(pattern[1..], str[k..])
    else str != "" && (pattern[0] == '?' || pattern[0] == str[0]) && Glob(pattern[1..], str[1..])
  }

  /** What the matcher computes. A character equal to the pattern's is consumed first, even a star. */
  ghost predicate Matches(pattern: string, str: string)
  {
    if pattern == "" then str == ""
    else if str == "" then pattern == "*"
    else if pattern[0] == str[0] || pattern[0] == '?' then Matches(pattern[1..], str[1..])
    else pattern[0] == '*'
         && (|pattern| == 1 || exists k :: 0 <= k < |str| && Matches(pattern[1..], str[k..]))
  }

  method SafeFNMatch(pattern: string, str: string) returns (r: bool)
    ensures r <==> Matches(pattern, str)
    decreases |pattern|, 0
  {
    var p, s := 0, 0;
    while true
      invariant 0 <= p <= |pattern| && 0 <= s <= |str|
      invariant Matches(pattern, str) <==> Matches(pattern[p..], str[s..])
      decreases |pattern| - p
    {
      if p == |pattern| && s == |str| {
        return true;
      }
      if p == |pattern| {
        return false;
      }
      if s == |str| {
        return p + 1 == |pattern| && pattern[p] == '*';
      }
      assert pattern[p..][1..] == pattern[p + 1..] && str[s..][1..] == str[s + 1..];
      if pattern[p] == str[s] || pattern[p] == '?' {
        p := p + 1;
        s := s + 1;
        continue;
      }
      if pattern[p] == '*' {
        if p + 1 == |pattern| {
          return true;
        }
        r := MatchAfterStar(pattern[p + 1..], str[s..]);
        return r;
      }
      return false;
    }
  }

  /** Tries every position but the end for what follows the star. */
  method MatchAfterStar(pattern: string, str: string) returns (r: bool)
    requires str != ""
    ensures r <==> exists k :: 0 <= k < |str| && Matches(pattern, str[k..])
    decreases |pattern|, 1
  {
    var s := 0;
    while s < |str|
      invariant 0 <= s <= |str|
      invariant forall k :: 0 <= k < s ==> !Matches(pattern, str[k..])
    {
      var matched := SafeFNMatch(pattern, str[s..]);
      if matched {
        return true;
      }
      s := s + 1;
    }
    return false;
  }

  /** True always means a match. */
  lemma {:induction false} Sound(pattern: string, str: string)
    requires Matches(pattern, str)
    ensures Glob(pattern, str)
    decreases |pattern|
  {
    if pattern != "" && str == "" {
      assert Glob(pattern[1..], str[0..]);
    } else if pattern != "" && (pattern[0] == str[0] || pattern[0] == '?') {
      Sound(pattern[1..], str[1..]);
    } else if |pattern| == 1 {
      assert Glob(pattern[1..], str[|str|..]);
    } else if pattern != "" {
      var k :| 0 <= k < |str| && Matches(pattern[1..], str[k..]);
      Sound(pattern[1..], str[k..]);
    }
  }

  predicate EndsWithTwoStars(pattern: string)
  {
    |pattern| >= 2 && pattern[|pattern| - 1] == '*' && pattern[|pattern| - 2] == '*'
  }

  predicate AllStars(pattern: string)
  {
    pattern == "" || (pattern[0] == '*' && AllStars(pattern[1..]))
  }

  lemma {:induction false} OnlyStarsMatchNothing(pattern: string)
    requires Glob(pattern, "")
    ensures AllStars(pattern)
    ensures |pattern| >= 2 ==> EndsWithTwoStars(pattern)
  {
    if pattern != "" {
      OnlyStarsMatchNothing(pattern[1..]);
    }
  }

  lemma {:induction false} Complete(pattern: string, str: string)
    requires '*' !in str && !EndsWithTwoStars(pattern)
    requires Glob(pattern, str)
    ensures Matches(pattern, str)
    decreases |pattern|
  {
    if pattern != "" && str == "" {
      OnlyStarsMatchNothing(pattern);
    } else if pattern != "" && pattern[0] != '*' {
      Complete(pattern[1..], str[1..]);
    } else if |pattern| > 1 {
      var k :| 0 <= k <= |str| && Glob(pattern[1..], str[k..]);
      if k == |str| {
        OnlyStarsMatchNothing(pattern[1..]);
      } else {
        Complete(pattern[1..], str[k..]);
      }
    }
  }

  /** The shortest text a pattern matches. */
  function Shortest(pattern: string): (s: string)
    ensures '*' !in s
  {
    if pattern == "" then ""
    else if pattern[0] == '*' then Shortest(pattern[1..])
    else [if pattern[0] == '?' then 'a' else pattern[0]] + Shortest(pattern[1..])
  }

  lemma {:induction false} ShortestMatches(pattern: string)
    ensures Glob(pattern, Shortest(pattern))
  {
    if pattern != "" {
      ShortestMatches(pattern[1..]);
      var s := Shortest(pattern);
      if pattern[0] == '*' {
        assert s[0..] == s;
      } else {
        assert s[1..] == Shortest(pattern[1..]);
      }
    }
  }

  /** With two stars at the end the matcher wants one more character than the pattern needs. */
  lemma {:induction false} TwoStarsWantMore(pattern: string, str: string)
    requires EndsWithTwoStars(pattern) && '*' !in str && |str| <= |Shortest(pattern)|
    ensures !Matches(pattern, str)
    decreases |pattern|
  {
    assert |pattern| == 2 ==> Shortest(pattern) == Shortest(pattern[1..]) == Shortest(pattern[1..][1..]);
    if str != "" {
      if |pattern| > 2 && (pattern[0] == str[0] || pattern[0] == '?') {
        TwoStarsWantMore(pattern[1..], str[1..]);
      } else if |pattern| > 2 {
        forall k | 0 <= k < |str| && pattern[0] == '*'
          ensures !Matches(pattern[1..], str[k..])
        {
          TwoStarsWantMore(pattern[1..], str[k..]);
        }
      }
    }
  }

  /** On texts without a star a pattern is matched correctly exactly when it does not end in two stars. */
  lemma CorrectOnPlainTexts(pattern: string)
    ensures (forall str | '*' !in str :: Matches(pattern, str) <==> Glob(pattern, str))
       <==> !EndsWithTwoStars(pattern)
  {
    if EndsWithTwoStars(pattern) {
      var s := Shortest(pattern);
      ShortestMatches(pattern);
      TwoStarsWantMore(pattern, s);
      assert '*' !in s && Matches(pattern, s) != Glob(pattern, s);
    } else {
      forall str: string | '*' !in str
        ensures Matches(pattern, str) <==> Glob(pattern, str)
      {
        if Matches(pattern, str) { Sound(pattern, str); }
        if Glob(pattern, str) { Complete(pattern, str); }
      }
    }
  }

  lemma {:induction false} WithoutStars(pattern: string, str: string)
    requires '*' !in pattern
    ensures Matches(pattern, str) <==> Glob(pattern, str)
    ensures Matches(pattern, str) ==> |pattern| == |str|
  {
    if pattern != "" && str != "" {
      WithoutStars(pattern[1..], str[1..]);
    }
  }

  /** Pattern u * v against the text u * b v: the star of the text is taken literally. */
  lemma {:induction false} LiteralStar(u: string, v: string)
    requires '*' !in v
    ensures Glob(u + "*" + v, u + "*b" + v) && !Matches(u + "*" + v, u + "*b" + v)
  {
    var pattern, str := u + "*" + v, u + "*b" + v;
    if u == "" {
      assert pattern[1..] == v && str[1..] == "b" + v && str[2..] == v;
      MatchesItself(v);
      WithoutStars(v, "b" + v);
    } else {
      LiteralStar(u[1..], v);
      assert pattern[1..] == u[1..] + "*" + v && str[1..] == u[1..] + "*b" + v;
    }
  }

  lemma {:induction false} MatchesItself(v: string)
    ensures Glob(v, v)
  {
    if v != "" {
      MatchesItself(v[1..]);
    }
  }

  lemma {:induction false} LastStar(pattern: string) returns (u: string, v: string)
    requires '*' in pattern
    ensures pattern == u + "*" + v && '*' !in v
  {
    if '*' in pattern[1..] {
      var w;
      w, v := LastStar(pattern[1..]);
      u := [pattern[0]] + w;
      assert pattern == [pattern[0]] + pattern[1..];
    } else {
      u, v := "", pattern[1..];
    }
  }

  /** On all texts a pattern is matched correctly exactly when it has no star at all. */
  lemma CorrectOnAllTexts(pattern: string)
    ensures (forall str :: Matches(pattern, str) <==> Glob(pattern, str)) <==> '*' !in pattern
  {
    if '*' in pattern {
      var u, v := LastStar(pattern);
      LiteralStar(u, v);
      assert Matches(pattern, u + "*b" + v) != Glob(pattern, u + "*b" + v);
    } else {
      forall str
        ensures Matches(pattern, str) <==> Glob(pattern, str)
      {
        WithoutStars(pattern, str);
      }
    }
  }
}
