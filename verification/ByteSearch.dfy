/** First-occurrence search over raw bytes, and the meaning of "the value after the token". */
module ByteSearch {
  import opened Wrappers
  import opened Strings

  predicate OccursAt(haystack: seq<char>, needle: seq<char>, i: int)
  {
    0 <= i && i + |needle| <= |haystack| && haystack[i..i + |needle|] == needle
  }

  ghost predicate Occurs(haystack: seq<char>, needle: seq<char>)
  {
    exists i :: OccursAt(haystack, needle, i)
  }

  ghost predicate IsFirst(haystack: seq<char>, needle: seq<char>, i: int)
  {
    OccursAt(haystack, needle, i) && forall j :: 0 <= j < i ==> !OccursAt(haystack, needle, j)
  }

  /** Scans the candidate starting positions from left to right. */
  method Memmem(haystack: seq<char>, needle: seq<char>) returns (found: Option<nat>)
    ensures found.None? <==> !Occurs(haystack, needle)
    ensures found.Some? ==> IsFirst(haystack, needle, found.value)
  {
    var lastPossible := |haystack| - |needle|;
    if |needle| == 0 {
      assert OccursAt(haystack, needle, 0);
      return Some(0);
    }
    if |haystack| < |needle| {
      return None;
    }
    var begin := 0;
    while begin <= lastPossible
      invariant 0 <= begin <= lastPossible + 1
      invariant forall j :: 0 <= j < begin ==> !OccursAt(haystack, needle, j)
    {
      OccursByHead(haystack, needle, begin);
      if haystack[begin] == needle[0] && haystack[begin + 1..begin + |needle|] == needle[1..] {
        return Some(begin);
      }
      begin := begin + 1;
    }
    return None;
  }

  lemma OccursByHead(haystack: seq<char>, needle: seq<char>, i: nat)
    requires |needle| > 0 && i + |needle| <= |haystack|
    ensures OccursAt(haystack, needle, i)
        <==> haystack[i] == needle[0] && haystack[i + 1..i + |needle|] == needle[1..]
  {
    assert haystack[i..i + |needle|] == [haystack[i]] + haystack[i + 1..i + |needle|];
    assert needle == [needle[0]] + needle[1..];
  }

  lemma FirstExists(haystack: seq<char>, needle: seq<char>, bound: int) returns (i: int)
    requires OccursAt(haystack, needle, bound)
    ensures IsFirst(haystack, needle, i) && i <= bound
  {
    i := 0;
    while !OccursAt(haystack, needle, i)
      invariant 0 <= i <= bound
      invariant forall j :: 0 <= j < i ==> !OccursAt(haystack, needle, j)
      decreases bound - i
    {
      i := i + 1;
    }
  }

  /** The longest run of digits at the start of `s`, cut at `n` digits. */
  function DigitPrefix(s: seq<char>, n: nat): (d: seq<char>)
    ensures |d| <= n && d <= s
    ensures forall k :: 0 <= k < |d| ==> IsDigit(d[k])
    ensures |d| < n && |d| < |s| ==> !IsDigit(s[|d|])
  {
    if n == 0 || s == [] || !IsDigit(s[0]) then [] else [s[0]] + DigitPrefix(s[1..], n - 1)
  }

  /** A run of digits is determined by its three properties. */
  lemma DigitPrefixUnique(s: seq<char>, n: nat, d: seq<char>)
    requires |d| <= n && d <= s
    requires forall k :: 0 <= k < |d| ==> IsDigit(d[k])
    requires |d| < n && |d| < |s| ==> !IsDigit(s[|d|])
    ensures d == DigitPrefix(s, n)
  {
    var e := DigitPrefix(s, n);
    assert d <= e || e <= d;
  }

  /** What the display should receive for a whole response: the digits after the first token. */
  ghost predicate IsValueOf(response: seq<char>, token: seq<char>, n: nat, digits: seq<char>)
  {
    exists f :: IsFirst(response, token, f) && digits == DigitPrefix(response[f + |token|..], n)
  }

  /** A response has a value exactly when the token is in it. */
  lemma ValueExists(response: seq<char>, token: seq<char>, n: nat)
    ensures Occurs(response, token) <==> exists digits :: IsValueOf(response, token, n, digits)
  {
    if Occurs(response, token) {
      var bound :| OccursAt(response, token, bound);
      var f := FirstExists(response, token, bound);
      assert IsValueOf(response, token, n, DigitPrefix(response[f + |token|..], n));
    }
  }

  /** And it has no other. */
  lemma ValueIsUnique(response: seq<char>, token: seq<char>, n: nat, d: seq<char>, e: seq<char>)
    requires IsValueOf(response, token, n, d) && IsValueOf(response, token, n, e)
    ensures d == e
  {
  }
}
