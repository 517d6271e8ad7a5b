/** Cutting texts in two at a mark, and joining them again. */
module Strings {
  import opened Wrappers

  predicate NulFree(s: string) {
    '\0' !in s
  }

  predicate IsDigit(c: char) {
    '0' <= c <= '9'
  }

  predicate Lacks(s: string, marks: string) {
    forall i :: 0 <= i < |s| ==> s[i] !in marks
  }

  /** Where the first of the marks is, or the length if there is none. */
  function First(s: string, marks: string): (k: nat)
    ensures k <= |s| && (forall i :: 0 <= i < k ==> s[i] !in marks) && (k < |s| ==> s[k] in marks)
  {
    if s == "" || s[0] in marks then 0 else 1 + First(s[1..], marks)
  }

  lemma FirstIs(s: string, marks: string, k: nat)
    requires k <= |s| && (forall i :: 0 <= i < k ==> s[i] !in marks) && (k < |s| ==> s[k] in marks)
    ensures First(s, marks) == k
  {
  }

  function Before(s: string, mark: char): string {
    s[..First(s, [mark])]
  }

  function After(s: string, mark: char): Option<string> {
    var k := First(s, [mark]);
    if k < |s| then Some(s[k + 1..]) else None
  }

  /** A component that is written with its mark in front, if it is there. */
  function Marked(mark: char, component: Option<string>): string {
    match component
    case None => ""
    case Some(s) => [mark] + s
  }

  lemma CutAndJoin(s: string, mark: char)
    ensures Before(s, mark) + Marked(mark, After(s, mark)) == s && mark !in Before(s, mark)
  {
  }

  lemma CutInside(s: string, mark: char, ch: char)
    requires ch !in s
    ensures ch !in Before(s, mark) && ch !in Marked(mark, After(s, mark))
  {
    CutAndJoin(s, mark);
    assert ch !in Before(s, mark) + Marked(mark, After(s, mark));
  }

  lemma JoinAndCut(s: string, mark: char, rest: Option<string>)
    requires mark !in s
    ensures Before(s + Marked(mark, rest), mark) == s && After(s + Marked(mark, rest), mark) == rest
  {
    match rest
    case None =>
      assert s + "" == s;
      FirstIs(s, [mark], |s|);
    case Some(r) =>
      var whole := s + ([mark] + r);
      FirstIs(whole, [mark], |s|);
      assert whole[..|s|] == s && whole[|s| + 1..] == r;
  }
}
