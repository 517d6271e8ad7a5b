/** Copying the components of a URL in memory out into buffers of limited size. */
module UrlParser {
  import opened Wrappers
  import opened Strings
  import opened Numerals
  import opened Url

  /** Memory that starts with a text and its terminator. */
  ghost predicate IsText(memory: seq<char>, text: string) {
    |text| < |memory| && memory[..|text|] == text && memory[|text|] == '\0' && NulFree(text)
  }

  function Segment(text: string, len: nat): string {
    text[..Min(len, |text|)]
  }

  /** A buffer shows the longest prefix of a string that leaves room for the terminator. */
  ghost predicate Holds(dst: array?<char>, s: string)
    reads dst
  {
    dst != null && dst.Length > 0 ==>
      && (forall i :: 0 <= i < Min(|s|, dst.Length - 1) ==> dst[i] == s[i])
      && dst[Min(|s|, dst.Length - 1)] == '\0'
  }

  ghost predicate Apart(buffers: seq<array?<char>>) {
    forall i, j :: 0 <= i < j < |buffers| ==> buffers[i] == null || buffers[i] != buffers[j]
  }

  lemma TextFrom(memory: seq<char>, text: string, k: nat)
    requires IsText(memory, text) && k <= |text|
    ensures IsText(memory[k..], text[k..])
  {
    assert memory[k..][..|text| - k] == memory[..|text|][k..];
  }

  /** Where a character cuts a string in two, if it does. */
  ghost predicate CutAt(s: string, mark: char, at: Option<nat>) {
    match at
    case None => Before(s, mark) == s && After(s, mark) == None
    case Some(k) => k < |s| && Before(s, mark) == s[..k] && After(s, mark) == Some(s[k + 1..])
  }

  method StrchrLen(haystack: seq<char>, needle: char, haystackLength: nat, ghost text: string)
      returns (at: Option<nat>)
    requires IsText(haystack, text)
    ensures CutAt(Segment(text, haystackLength), needle, at)
  {
    var a := 0;
    while a < haystackLength
      invariant a <= |text| && a <= haystackLength
      invariant forall i :: 0 <= i < a ==> text[i] != needle
    {
      assert a < |text| ==> haystack[..|text|][a] == text[a];
      if haystack[a] == '\0' {
        break;
      }
      assert haystack[a] == text[a];
      if haystack[a] == needle {
        FirstIs(Segment(text, haystackLength), [needle], a);
        return Some(a);
      }
      a := a + 1;
    }
    FirstIs(Segment(text, haystackLength), [needle], |Segment(text, haystackLength)|);
    return None;
  }

  method StrchrAnyLen(haystack: seq<char>, needles: string, haystackLength: nat, ghost text: string)
      returns (at: Option<nat>)
    requires IsText(haystack, text)
    ensures var segment := Segment(text, haystackLength);
      at == if First(segment, needles) < |segment| then Some(First(segment, needles)) else None
  {
    var a := 0;
    while a < haystackLength
      invariant a <= |text| && a <= haystackLength
      invariant forall i :: 0 <= i < a ==> text[i] !in needles
    {
      assert a < |text| ==> haystack[..|text|][a] == text[a];
      if haystack[a] == '\0' {
        break;
      }
      assert haystack[a] == text[a];
      if haystack[a] in needles {
        FirstIs(Segment(text, haystackLength), needles, a);
        return Some(a);
      }
      a := a + 1;
    }
    FirstIs(Segment(text, haystackLength), needles, |Segment(text, haystackLength)|);
    return None;
  }

  /** How many cells a copy of the given length into a buffer of the given size reads. */
  function CellsRead(size: nat, len: nat): nat {
    if size == 0 then 0 else Min(len, size - 1)
  }

  /**
   * The length given for the last part of a URL is two too large. In memory that ends with the terminator its copy
   * stays inside exactly if the buffer has no room for both of them; one more cell is enough for any buffer.
   */
  lemma LastPartStaysInside(memory: seq<char>, text: string, part: string, size: nat)
    requires IsText(memory, text) && |part| <= |text|
    ensures CellsRead(size, |part| + 2) <= |memory[|text| - |part|..]|
            <==> |text| + 2 <= |memory| || size <= |part| + 2
  {
  }

  /** Copies of so many characters stay inside the memory, wherever in the text they start. */
  ghost predicate Covers(memory: seq<char>, text: string, len: nat, dst: array?<char>) {
    dst == null || len <= |memory| || |text| + dst.Length <= |memory| + 1
  }

  method SafeStrncpyLen(dst: array?<char>, src: seq<char>, len: nat, ghost text: string)
    requires IsText(src, text) && (dst != null ==> CellsRead(dst.Length, len) <= |src|)
    modifies dst
    ensures Holds(dst, Segment(text, len))
  {
    if dst == null || dst.Length == 0 {
      return;
    }
    var maxLen := if len < dst.Length - 1 then len else dst.Length - 1;
    forall i | 0 <= i < maxLen {
      dst[i] := src[i];
    }
    dst[maxLen] := '\0';
    assert forall i :: 0 <= i < |text| ==> src[..|text|][i] == src[i];
  }

  /** The empty string and the root path are literals. */
  method CopyLiteral(dst: array?<char>, s: string)
    requires |s| <= 1 && NulFree(s)
    modifies dst
    ensures Holds(dst, s)
  {
    SafeStrncpyLen(dst, s + "\0", 1, s);
  }

  class PortCell {
    var value: nat
    constructor ()
    {
      value := 0;
    }
  }

  method ParseScheme(urlPart: seq<char>, len: nat, scheme: array?<char>, port: PortCell?, ghost text: string)
    requires IsText(urlPart, text) && len <= |text|
    modifies scheme, port
    ensures Holds(scheme, text[..len])
    ensures port != null ==> port.value == DefaultPort(text, old(port.value))
  {
    SafeStrncpyLen(scheme, urlPart, len, text);
    if port == null {
      return;
    }
    PrefixInText(urlPart, text, "https");
    PrefixInText(urlPart, text, "http");
    if "https" <= urlPart {
      port.value := 443;
    } else if "http" <= urlPart {
      port.value := 80;
    }
  }

  lemma PrefixInText(memory: seq<char>, text: string, s: string)
    requires IsText(memory, text) && NulFree(s)
    ensures s <= memory <==> s <= text
  {
    if |text| < |s| <= |memory| {
      assert s[|text|] != memory[|text|];
    } else if |s| <= |text| {
      assert memory[..|text|][..|s|] == memory[..|s|];
    }
  }

  method ParseUserAndPassword(urlPart: seq<char>, len: nat, user: array?<char>, password: array?<char>,
                              ghost text: string)
    requires IsText(urlPart, text) && len <= |text| && Apart([user, password])
    modifies user, password
    ensures Holds(user, Before(text[..len], ':'))
    ensures Holds(password, After(text[..len], ':').GetOr(""))
  {
    assert [user, password][0] == user && [user, password][1] == password;
    if user == null && password == null {
      return;
    }
    var colon := StrchrLen(urlPart, ':', len, text);
    if colon.None? {
      SafeStrncpyLen(user, urlPart, len, text);
      CopyLiteral(password, "");
      return;
    }
    SafeStrncpyLen(user, urlPart, colon.value, text);
    assert text[..colon.value] == text[..len][..colon.value];
    CopyRest(password, urlPart, colon.value + 1, len, text);
  }

  /** Copies what is left of a segment from some position on. */
  method CopyRest(dst: array?<char>, urlPart: seq<char>, from: nat, len: nat, ghost text: string)
    requires IsText(urlPart, text) && from <= |Segment(text, len)| && Covers(urlPart, text, len, dst)
    modifies dst
    ensures Holds(dst, Segment(text, len)[from..])
  {
    TextFrom(urlPart, text, from);
    assert Segment(text[from..], len - from) == Segment(text, len)[from..];
    SafeStrncpyLen(dst, urlPart[from..], len - from, text[from..]);
  }

  function PortOf(port: Option<string>, default: nat): nat {
    match port
    case None => default
    case Some(s) => TruncatedPort(Atoi(s))
  }

  method ParseHostAndPort(urlPart: seq<char>, len: nat, host: array?<char>, port: PortCell?, ghost text: string)
    requires IsText(urlPart, text) && len <= |urlPart| && (len < |text| ==> text[len] in PATH_MARKS)
    modifies host, port
    ensures Holds(host, Before(Segment(text, len), ':'))
    ensures port != null ==> port.value == PortOf(After(Segment(text, len), ':'), old(port.value))
  {
    if host == null && port == null {
      return;
    }
    var colon := StrchrLen(urlPart, ':', len, text);
    if colon.None? {
      SafeStrncpyLen(host, urlPart, len, text);
      return;
    }
    assert text[..colon.value] == Segment(text, len)[..colon.value];
    SafeStrncpyLen(host, urlPart, colon.value, text);
    if port != null {
      PortInMemory(urlPart, text, len, colon.value + 1);
      port.value := TruncatedPort(Atoi(UpToNul(urlPart[colon.value + 1..])));
    }
  }

  lemma PortInMemory(memory: seq<char>, text: string, len: nat, k: nat)
    requires IsText(memory, text) && (len < |text| ==> text[len] in PATH_MARKS)
    requires k <= |Segment(text, len)|
    ensures Atoi(UpToNul(memory[k..])) == Atoi(Segment(text, len)[k..])
  {
    var seg := Segment(text, len);
    NumberInMemory(memory, text, k);
    assert text[k..] == seg[k..] + text[|seg|..];
    AtoiStops(seg[k..], text[|seg|..]);
  }

  function UpToNul(memory: seq<char>): string {
    memory[..First(memory, "\0")]
  }

  lemma NumberInMemory(memory: seq<char>, text: string, k: nat)
    requires IsText(memory, text) && k <= |text|
    ensures UpToNul(memory[k..]) == text[k..]
  {
    TextFrom(memory, text, k);
    assert forall i :: 0 <= i < |text| - k ==> memory[k..][..|text| - k][i] == text[k..][i] != '\0';
    FirstIs(memory[k..], "\0", |text| - k);
  }

  ghost predicate HoldCredentials(user: array?<char>, password: array?<char>, c: Option<Credentials>)
    reads user, password
  {
    && Holds(user, if c.Some? then c.value.user else "")
    && Holds(password, if c.Some? then c.value.password.GetOr("") else "")
  }

  ghost predicate HoldAuthority(user: array?<char>, password: array?<char>, host: array?<char>, authority: string)
    reads user, password, host
  {
    && HoldCredentials(user, password, SplitCredentials(authority))
    && Holds(host, Before(HostAndPort(authority), ':'))
  }

  method ParseAuthority(urlPart: seq<char>, len: nat, user: array?<char>, password: array?<char>,
                        host: array?<char>, port: PortCell?, ghost text: string)
    requires IsText(urlPart, text) && len <= |urlPart| && (len < |text| ==> text[len] in PATH_MARKS)
    requires Apart([user, password, host])
    modifies user, password, host, port
    ensures HoldAuthority(user, password, host, Segment(text, len))
    ensures port != null ==> port.value == PortOf(After(HostAndPort(Segment(text, len)), ':'), old(port.value))
  {
    ThreeApart(user, password, host);
    var from := ParseCredentials(urlPart, len, user, password, text);
    ParseHostAndPort(urlPart[from..], len - from, host, port, text[from..]);
  }

  lemma ThreeApart(a: array?<char>, b: array?<char>, c: array?<char>)
    requires Apart([a, b, c])
    ensures Apart([a, b])
    ensures a == null || (a != b && a != c)
    ensures b == null || (b != c && a != b)
  {
    assert [a, b, c][0] == a && [a, b, c][1] == b && [a, b, c][2] == c;
  }

  /** The user and password in front of the host, if they are there; the result is where the host starts. */
  method ParseCredentials(urlPart: seq<char>, len: nat, user: array?<char>, password: array?<char>,
                          ghost text: string) returns (from: nat)
    requires IsText(urlPart, text) && len <= |urlPart| && Apart([user, password])
    modifies user, password
    ensures from <= |Segment(text, len)| && IsText(urlPart[from..], text[from..])
    ensures Segment(text[from..], len - from) == HostAndPort(Segment(text, len))
    ensures HoldCredentials(user, password, SplitCredentials(Segment(text, len)))
  {
    var at := StrchrLen(urlPart, '@', len, text);
    if at.None? {
      assert [user, password][0] == user && [user, password][1] == password;
      CopyLiteral(user, "");
      CopyLiteral(password, "");
      assert urlPart[0..] == urlPart && text[0..] == text;
      return 0;
    }
    assert text[..at.value] == Segment(text, len)[..at.value];
    ParseUserAndPassword(urlPart, at.value, user, password, text);
    from := at.value + 1;
    TextFrom(urlPart, text, from);
    assert Segment(text[from..], len - from) == Segment(text, len)[from..];
  }

  ghost predicate HoldSuffix(path: array?<char>, query: array?<char>, fragment: array?<char>, suffix: string)
    reads path, query, fragment
  {
    && Holds(path, Before(PathAndQuery(suffix), '?'))
    && Holds(query, After(PathAndQuery(suffix), '?').GetOr(""))
    && Holds(fragment, After(suffix, '#').GetOr(""))
  }

  method ParsePathQueryAndFragment(urlPart: seq<char>, length: nat, path: array?<char>, query: array?<char>,
                                   fragment: array?<char>, ghost text: string)
    requires IsText(urlPart, text) && Apart([path, query, fragment])
    requires Covers(urlPart, text, length, path) && Covers(urlPart, text, length, query)
    requires Covers(urlPart, text, length, fragment)
    modifies path, query, fragment
    ensures HoldSuffix(path, query, fragment, Segment(text, length))
  {
    ThreeApart(path, query, fragment);
    if path == null && query == null && fragment == null {
      return;
    }
    var len := CopyPast('#', fragment, urlPart, length, text);
    len := CopyPast('?', query, urlPart, len, text);
    SafeStrncpyLen(path, urlPart, len, text);
  }

  /** Copies what follows a mark, and cuts the segment there. */
  method CopyPast(mark: char, dst: array?<char>, urlPart: seq<char>, len: nat, ghost text: string)
      returns (cut: nat)
    requires IsText(urlPart, text) && Covers(urlPart, text, len, dst)
    modifies dst
    ensures cut <= len && Segment(text, cut) == Before(Segment(text, len), mark)
    ensures cut == len || cut < |text|
    ensures Holds(dst, After(Segment(text, len), mark).GetOr(""))
  {
    var token := StrchrLen(urlPart, mark, len, text);
    if token.None? {
      CopyLiteral(dst, "");
      return len;
    }
    CopyRest(dst, urlPart, token.value + 1, len, text);
    return token.value;
  }

  /** The path that stands for none at all. */
  const ROOT := "/"

  ghost predicate HoldRest(path: array?<char>, query: array?<char>, fragment: array?<char>,
                           pathSuffix: array?<char>, suffix: string)
    reads path, query, fragment, pathSuffix
  {
    && HoldSuffix(path, query, fragment, if suffix == "" then ROOT else suffix)
    && Holds(pathSuffix, if suffix == "" then ROOT else suffix)
  }

  /** Everything from the path on, where the authority may have been the end of the URL. */
  method ParsePathAndFollowing(part: seq<char>, pathStart: Option<nat>, len: nat, path: array?<char>,
                               query: array?<char>, fragment: array?<char>, pathSuffix: array?<char>,
                               ghost text: string)
    requires Apart([path, query, fragment, pathSuffix])
    requires IsText(part, text) && pathStart.GetOr(0) <= |text|
    requires pathStart.Some? ==> |text| - pathStart.value <= len <= |part| - pathStart.value && pathStart.value < |text|
    modifies path, query, fragment, pathSuffix
    ensures HoldRest(path, query, fragment, pathSuffix, if pathStart.None? then "" else text[pathStart.value..])
  {
    FourApart(path, query, fragment, pathSuffix);
    if pathStart.None? {
      CopyLiteral(path, ROOT);
      CopyLiteral(query, "");
      CopyLiteral(fragment, "");
      CopyLiteral(pathSuffix, ROOT);
      CutRoot();
      return;
    }
    var urlPart := part[pathStart.value..];
    TextFrom(part, text, pathStart.value);
    assert Segment(text[pathStart.value..], len) == text[pathStart.value..];
    SafeStrncpyLen(pathSuffix, urlPart, len, text[pathStart.value..]);
    ParsePathQueryAndFragment(urlPart, len, path, query, fragment, text[pathStart.value..]);
  }

  lemma CutRoot()
    ensures PathAndQuery(ROOT) == ROOT && After(ROOT, '#') == None
    ensures Before(ROOT, '?') == ROOT && After(ROOT, '?') == None
  {
    FirstIs(ROOT, "#", 1);
    FirstIs(ROOT, "?", 1);
  }

  lemma FourApart(a: array?<char>, b: array?<char>, c: array?<char>, d: array?<char>)
    requires Apart([a, b, c, d])
    ensures Apart([a, b, c])
    ensures d == null || (d != a && d != b && d != c)
    ensures a == null || (a != b && a != c)
    ensures b == null || b != c
  {
    var s := [a, b, c, d];
    assert s[0] == a && s[1] == b && s[2] == c && s[3] == d;
  }

  /** The part in front of the path; the result is where the path starts, if there is one. */
  method ParseUpToPath(urlPart: seq<char>, len: nat, user: array?<char>, password: array?<char>,
                       host: array?<char>, port: PortCell?, ghost text: string)
      returns (pathStart: Option<nat>, firstPartLength: nat)
    requires IsText(urlPart, text) && |text| <= len <= |urlPart| && Apart([user, password, host])
    modifies user, password, host, port
    ensures firstPartLength <= len && (pathStart.Some? ==> pathStart.value == firstPartLength < |text|)
    ensures (if pathStart.None? then "" else text[pathStart.value..]) == SuffixOf(text)
    ensures HoldAuthority(user, password, host, AuthorityOf(text))
    ensures port != null ==> port.value == PortOf(After(HostAndPort(AuthorityOf(text)), ':'), old(port.value))
  {
    assert Segment(text, len) == text;
    pathStart := StrchrAnyLen(urlPart, PATH_MARKS, len, text);
    firstPartLength := if pathStart.Some? then pathStart.value else len;
    assert Segment(text, firstPartLength) == AuthorityOf(text);
    ParseAuthority(urlPart, firstPartLength, user, password, host, port, text);
  }

  /** An authority follows the scheme, with at least three characters behind its two slashes. */
  predicate HasAuthority(past: string) {
    "//" <= past && |past| - 2 >= 3
  }

  /** What is left of the text past the colon when its length is two too small; a 32-bit size wraps around. */
  function LengthPastScheme(past: string): nat {
    if |past| >= 2 then |past| - 2 else 0x1_0000_0000 + |past| - 2
  }

  /** So the last two characters are lost. */
  lemma SuffixIsCut(past: string)
    ensures Segment(past, LengthPastScheme(past)) == (if |past| < 2 then past else past[..|past| - 2])
    ensures Segment(past, LengthPastScheme(past)) == past <==> |past| < 2
  {
    assert |past| < 2 ==> Segment(past, LengthPastScheme(past)) == past[..|past|] == past;
  }

  /** The parts of a URL whose scheme is followed by something else: all of it is taken for the suffix. */
  ghost predicate HoldSuffixOnly(path: array?<char>, query: array?<char>, fragment: array?<char>,
                                 pathSuffix: array?<char>, past: string)
    reads path, query, fragment, pathSuffix
  {
    var suffix := Segment(past, LengthPastScheme(past));
    HoldSuffix(path, query, fragment, suffix) && Holds(pathSuffix, suffix)
  }

  ghost predicate CoversAll(memory: seq<char>, text: string, len: nat, path: array?<char>, query: array?<char>,
                            fragment: array?<char>, pathSuffix: array?<char>)
  {
    && Covers(memory, text, len, path) && Covers(memory, text, len, query)
    && Covers(memory, text, len, fragment) && Covers(memory, text, len, pathSuffix)
  }

  /**
   * How much memory parsing reads: one cell behind the terminator where an authority follows the scheme, and less
   * where anything else does, unless that is a single character or nothing. Then whole buffers are filled.
   */
  ghost predicate Suffices(memory: seq<char>, past: string, path: array?<char>, query: array?<char>,
                           fragment: array?<char>, pathSuffix: array?<char>)
  {
    if HasAuthority(past) then |past| + 2 <= |memory|
    else CoversAll(memory, past, LengthPastScheme(past), path, query, fragment, pathSuffix)
  }

  method ParseSuffixOnly(urlPart: seq<char>, length: nat, path: array?<char>, query: array?<char>,
                         fragment: array?<char>, pathSuffix: array?<char>, ghost text: string)
    requires IsText(urlPart, text) && length == LengthPastScheme(text)
    requires CoversAll(urlPart, text, length, path, query, fragment, pathSuffix)
    requires Apart([path, query, fragment, pathSuffix])
    modifies path, query, fragment, pathSuffix
    ensures HoldSuffixOnly(path, query, fragment, pathSuffix, text)
  {
    FourApart(path, query, fragment, pathSuffix);
    SafeStrncpyLen(pathSuffix, urlPart, length, text);
    ParsePathQueryAndFragment(urlPart, length, path, query, fragment, text);
  }

  method ParsePastScheme(urlPart: seq<char>, length: nat, user: array?<char>, password: array?<char>,
                         host: array?<char>, port: PortCell?, path: array?<char>, query: array?<char>,
                         fragment: array?<char>, pathSuffix: array?<char>, ghost text: string)
    requires IsText(urlPart, text) && length == LengthPastScheme(text)
    requires Suffices(urlPart, text, path, query, fragment, pathSuffix)
    requires Apart([user, password, host] + [path, query, fragment, pathSuffix])
    modifies if HasAuthority(text) then {user, password, host, port} else {}, path, query, fragment, pathSuffix
    ensures HasAuthority(text) ==>
              && HoldAuthority(user, password, host, AuthorityOf(text[2..]))
              && (port != null ==>
                    port.value == PortOf(After(HostAndPort(AuthorityOf(text[2..])), ':'), old(port.value)))
              && HoldRest(path, query, fragment, pathSuffix, SuffixOf(text[2..]))
    ensures !HasAuthority(text) ==> HoldSuffixOnly(path, query, fragment, pathSuffix, text)
  {
    SevenApart(user, password, host, path, query, fragment, pathSuffix);
    PrefixInText(urlPart, text, "//");
    if length >= 3 && "//" <= urlPart {
      ParsePastSlashes(urlPart, length, user, password, host, port, path, query, fragment, pathSuffix, text);
    } else {
      ParseSuffixOnly(urlPart, length, path, query, fragment, pathSuffix, text);
    }
  }

  method ParsePastSlashes(urlPart: seq<char>, length: nat, user: array?<char>, password: array?<char>,
                          host: array?<char>, port: PortCell?, path: array?<char>, query: array?<char>,
                          fragment: array?<char>, pathSuffix: array?<char>, ghost text: string)
    requires IsText(urlPart, text) && |text| + 2 <= |urlPart|
    requires "//" <= text && length == |text| - 2 >= 3
    requires Apart([user, password, host] + [path, query, fragment, pathSuffix])
    modifies user, password, host, port, path, query, fragment, pathSuffix
    ensures HoldAuthority(user, password, host, AuthorityOf(text[2..]))
    ensures port != null ==> port.value == PortOf(After(HostAndPort(AuthorityOf(text[2..])), ':'), old(port.value))
    ensures HoldRest(path, query, fragment, pathSuffix, SuffixOf(text[2..]))
  {
    SevenApart(user, password, host, path, query, fragment, pathSuffix);
    ghost var rest := text[2..];
    TextFrom(urlPart, text, 2);
    var part, len := urlPart[2..], length + 2;
    var pathStart, firstPartLength := ParseUpToPath(part, len, user, password, host, port, rest);
    ParsePathAndFollowing(part, pathStart, len - firstPartLength, path, query, fragment, pathSuffix, rest);
  }

  lemma SevenApart(a: array?<char>, b: array?<char>, c: array?<char>,
                   d: array?<char>, e: array?<char>, f: array?<char>, g: array?<char>)
    requires Apart([a, b, c] + [d, e, f, g])
    ensures Apart([a, b, c]) && Apart([d, e, f, g])
    ensures a == null || (a != d && a != e && a != f && a != g)
    ensures b == null || (b != d && b != e && b != f && b != g)
    ensures c == null || (c != d && c != e && c != f && c != g)
  {
    var s := [a, b, c] + [d, e, f, g];
    assert s[0] == a && s[1] == b && s[2] == c;
    assert s[3] == d && s[4] == e && s[5] == f && s[6] == g;
  }

  /** strstr for a single character, and strlen. */
  method StrstrColon(url: seq<char>, ghost text: string) returns (delim: Option<nat>, length: nat)
    requires IsText(url, text)
    ensures CutAt(text, ':', delim) && length == |text|
  {
    assert forall i :: 0 <= i < |text| ==> url[i] == url[..|text|][i] == text[i];
    length := 0;
    while url[length] != '\0'
      invariant length <= |text|
      decreases |text| - length
    {
      length := length + 1;
    }
    assert Segment(text, length) == text;
    delim := StrchrLen(url, ':', length, text);
  }

  /** All outputs show the components of the URL; where nothing follows the authority the path is the root. */
  ghost predicate Delivered(c: Components, scheme: array?<char>, user: array?<char>, password: array?<char>,
                            host: array?<char>, path: array?<char>, query: array?<char>, fragment: array?<char>,
                            pathSuffix: array?<char>)
    reads scheme, user, password, host, path, query, fragment, pathSuffix
  {
    var suffix := ComposeSuffix(c.path, c.query, c.fragment);
    && Holds(scheme, c.scheme)
    && HoldCredentials(user, password, c.credentials)
    && Holds(host, c.host)
    && Holds(path, if suffix == "" then ROOT else c.path)
    && Holds(query, c.query.GetOr(""))
    && Holds(fragment, c.fragment.GetOr(""))
    && Holds(pathSuffix, if suffix == "" then ROOT else suffix)
  }

  lemma DeliveredAsSplit(url: string, scheme: array?<char>, user: array?<char>, password: array?<char>,
                         host: array?<char>, path: array?<char>, query: array?<char>, fragment: array?<char>,
                         pathSuffix: array?<char>)
    requires HasSlashes(url) && Holds(scheme, Before(url, ':'))
    requires HoldAuthority(user, password, host, AuthorityOf(PastSlashes(url)))
    requires HoldRest(path, query, fragment, pathSuffix, SuffixOf(PastSlashes(url)))
    ensures Delivered(Split(url), scheme, user, password, host, path, query, fragment, pathSuffix)
  {
    SuffixComposes(SuffixOf(PastSlashes(url)));
    CutRoot();
  }

  lemma EightApart(scheme: array?<char>, user: array?<char>, password: array?<char>, host: array?<char>,
                   path: array?<char>, query: array?<char>, fragment: array?<char>, pathSuffix: array?<char>)
    requires Apart([scheme] + ([user, password, host] + [path, query, fragment, pathSuffix]))
    ensures Apart([user, password, host] + [path, query, fragment, pathSuffix])
    ensures scheme == null ||
      (scheme != user && scheme != password && scheme != host && scheme != path && scheme != query
       && scheme != fragment && scheme != pathSuffix)
  {
    var others := [user, password, host] + [path, query, fragment, pathSuffix];
    var s := [scheme] + others;
    assert s[0] == scheme && forall i :: 0 <= i < |others| ==> s[i + 1] == others[i];
    assert others[0] == user && others[1] == password && others[2] == host;
    assert others[3] == path && others[4] == query && others[5] == fragment && others[6] == pathSuffix;
  }

  /** What follows the first colon. */
  function Past(url: string): string {
    After(url, ':').GetOr("")
  }

  /** The memory behind the colon is enough. */
  ghost predicate Readable(url: seq<char>, text: string, path: array?<char>, query: array?<char>,
                           fragment: array?<char>, pathSuffix: array?<char>)
    requires IsText(url, text)
  {
    Suffices(url[|text| - |Past(text)|..], Past(text), path, query, fragment, pathSuffix)
  }

  /** All outputs as they should be where an authority follows the scheme, and what they show where none does. */
  ghost predicate Shown(text: string, scheme: array?<char>, user: array?<char>, password: array?<char>,
                        host: array?<char>, path: array?<char>, query: array?<char>, fragment: array?<char>,
                        pathSuffix: array?<char>)
    requires ':' in text
    reads scheme, user, password, host, path, query, fragment, pathSuffix
  {
    if HasAuthority(Past(text)) then
      Delivered(Split(text), scheme, user, password, host, path, query, fragment, pathSuffix)
    else Holds(scheme, Before(text, ':')) && HoldSuffixOnly(path, query, fragment, pathSuffix, Past(text))
  }

  function PortShown(text: string, before: nat): nat
    requires ':' in text
  {
    var default := DefaultPort(text, before);
    if HasAuthority(Past(text)) then PortOf(Split(text).port, default) else default
  }

  /** A port written as a numeral is the port, whatever the scheme would give. */
  lemma ExplicitPort(c: Components, n: nat, before: nat)
    requires WellFormed(c) && c.port == Some(Numeral(n, 10, 1)) && n < 0x1_0000
    requires HasAuthority(Past(Compose(c)))
    ensures ':' in Compose(c) && PortShown(Compose(c), before) == n
  {
    ComposeThenSplit(c);
    CanonicalPort(n);
  }

  lemma SchemeStarts(url: string, s: string)
    requires ':' in url && ':' !in s
    ensures s <= url <==> s <= Before(url, ':')
  {
    CutAndJoin(url, ':');
    var scheme := Before(url, ':');
    assert url[|scheme|] == ':';
    assert |scheme| < |s| ==> s[|scheme|] != url[|scheme|];
  }

  /** A missing port is that of the scheme, as far as its first letters are known. */
  lemma MissingPort(url: string, before: nat)
    requires ':' in url && (HasAuthority(Past(url)) ==> Split(url).port == None)
    ensures "https" <= Before(url, ':') ==> PortShown(url, before) == 443
    ensures "http" <= Before(url, ':') && !("https" <= Before(url, ':')) ==> PortShown(url, before) == 80
    ensures !("http" <= Before(url, ':')) ==> PortShown(url, before) == before
  {
    SchemeStarts(url, "https");
    SchemeStarts(url, "http");
  }

  lemma ColonFound(url: seq<char>, text: string, k: nat, path: array?<char>, query: array?<char>,
                   fragment: array?<char>, pathSuffix: array?<char>)
    requires IsText(url, text) && CutAt(text, ':', Some(k)) && Readable(url, text, path, query, fragment, pathSuffix)
    ensures Past(text) == text[k + 1..] && Before(text, ':') == text[..k] && ':' in text
    ensures IsText(url[k + 1..], Past(text)) && k + 1 + |Past(text)| == |text|
    ensures Suffices(url[k + 1..], Past(text), path, query, fragment, pathSuffix)
    ensures HasAuthority(Past(text)) ==> HasSlashes(text) && Past(text)[2..] == PastSlashes(text)
  {
    CutAndJoin(text, ':');
    TextFrom(url, text, k + 1);
  }

  method ParseAllParts(url: seq<char>, schemeLen: nat, totalLen: nat, scheme: array?<char>, user: array?<char>,
                       password: array?<char>, host: array?<char>, port: PortCell?, path: array?<char>,
                       query: array?<char>, fragment: array?<char>, pathSuffix: array?<char>, ghost text: string,
                       ghost past: string) returns (ghost default: nat)
    requires IsText(url, text) && totalLen == |text| == schemeLen + 1 + |past| && IsText(url[schemeLen + 1..], past)
    requires Suffices(url[schemeLen + 1..], past, path, query, fragment, pathSuffix)
    requires Apart([user, password, host] + [path, query, fragment, pathSuffix])
    requires scheme == null ||
      (scheme != user && scheme != password && scheme != host && scheme != path && scheme != query
       && scheme != fragment && scheme != pathSuffix)
    modifies if HasAuthority(past) then {user, password, host} else {}
    modifies scheme, port, path, query, fragment, pathSuffix
    ensures Holds(scheme, text[..schemeLen])
    ensures HasAuthority(past) ==>
              && HoldAuthority(user, password, host, AuthorityOf(past[2..]))
              && HoldRest(path, query, fragment, pathSuffix, SuffixOf(past[2..]))
              && (port != null ==> port.value == PortOf(After(HostAndPort(AuthorityOf(past[2..])), ':'), default))
    ensures !HasAuthority(past) ==>
              HoldSuffixOnly(path, query, fragment, pathSuffix, past) && (port != null ==> port.value == default)
    ensures port != null ==> default == DefaultPort(text, old(port.value))
  {
    ParseScheme(url, schemeLen, scheme, port, text);
    default := if port == null then 0 else port.value;
    var length := if totalLen >= schemeLen + 3 then totalLen - schemeLen - 3
                  else 0x1_0000_0000 + totalLen - schemeLen - 3;
    ParsePastScheme(url[schemeLen + 1..], length, user, password, host, port, path, query, fragment, pathSuffix, past);
  }

  method ParseAroundColon(url: seq<char>, schemeLen: nat, totalLen: nat, scheme: array?<char>, user: array?<char>,
                          password: array?<char>, host: array?<char>, port: PortCell?, path: array?<char>,
                          query: array?<char>, fragment: array?<char>, pathSuffix: array?<char>, ghost text: string)
    requires IsText(url, text) && totalLen == |text| && ':' in text && CutAt(text, ':', Some(schemeLen))
    requires Readable(url, text, path, query, fragment, pathSuffix)
    requires Apart([scheme] + ([user, password, host] + [path, query, fragment, pathSuffix]))
    modifies if HasAuthority(Past(text)) then {user, password, host} else {}
    modifies scheme, port, path, query, fragment, pathSuffix
    ensures Shown(text, scheme, user, password, host, path, query, fragment, pathSuffix)
    ensures port != null ==> port.value == PortShown(text, old(port.value))
  {
    EightApart(scheme, user, password, host, path, query, fragment, pathSuffix);
    ColonFound(url, text, schemeLen, path, query, fragment, pathSuffix);
    ghost var default := ParseAllParts(url, schemeLen, totalLen, scheme, user, password, host, port, path, query,
                                       fragment, pathSuffix, text, Past(text));
    if HasAuthority(Past(text)) {
      DeliveredAsSplit(text, scheme, user, password, host, path, query, fragment, pathSuffix);
    }
  }

  method UrlParseGetParts(url: seq<char>, scheme: array?<char>, user: array?<char>, password: array?<char>,
                          host: array?<char>, port: PortCell?, path: array?<char>, query: array?<char>,
                          fragment: array?<char>, pathSuffix: array?<char>, ghost text: string)
      returns (ok: bool)
    requires IsText(url, text)
    requires ':' in text ==> Readable(url, text, path, query, fragment, pathSuffix)
    requires Apart([scheme] + ([user, password, host] + [path, query, fragment, pathSuffix]))
    modifies if HasAuthority(Past(text)) then {user, password, host} else {}
    modifies if ':' in text then {scheme, path, query, fragment, pathSuffix} else {}, port
    ensures ok <==> ':' in text
    ensures ok ==> Shown(text, scheme, user, password, host, path, query, fragment, pathSuffix)
    ensures port != null ==> port.value == if ok then PortShown(text, old(port.value)) else old(port.value)
  {
    var schemeDelim, totalLen := StrstrColon(url, text);
    if schemeDelim.None? {
      CutAndJoin(text, ':');
      return false;
    }
    CutAndJoin(text, ':');
    ParseAroundColon(url, schemeDelim.value, totalLen, scheme, user, password, host, port, path, query, fragment,
                     pathSuffix, text);
    return true;
  }
}
