/** URLs as texts: splitting one into its components and composing one from them. */
module Url {
  import opened Wrappers
  import opened Numerals
  import opened Strings

  datatype Credentials = Credentials(user: string, password: Option<string>)

  datatype Components = Components(
    scheme: string,
    credentials: Option<Credentials>,
    host: string,
    port: Option<string>,
    path: string,
    query: Option<string>,
    fragment: Option<string>)

  const PATH_MARKS := "/?#"

  function ComposeCredentials(c: Option<Credentials>): string {
    match c
    case None => ""
    case Some(k) => k.user + Marked(':', k.password) + "@"
  }

  function ComposeAuthority(c: Option<Credentials>, host: string, port: Option<string>): string {
    ComposeCredentials(c) + (host + Marked(':', port))
  }

  function ComposeSuffix(path: string, query: Option<string>, fragment: Option<string>): string {
    (path + Marked('?', query)) + Marked('#', fragment)
  }

  function Compose(c: Components): string {
    c.scheme + Marked(':', Some("//" + (ComposeAuthority(c.credentials, c.host, c.port)
                                        + ComposeSuffix(c.path, c.query, c.fragment))))
  }

  predicate WellFormedAuthority(c: Option<Credentials>, host: string, port: Option<string>) {
    && Lacks(ComposeAuthority(c, host, port), PATH_MARKS)
    && ':' !in host
    && (c.Some? ==> ':' !in c.value.user && '@' !in c.value.user && '@' !in Marked(':', c.value.password))
    && (c.None? ==> '@' !in host && '@' !in Marked(':', port))
  }

  predicate WellFormedSuffix(path: string, query: Option<string>, fragment: Option<string>) {
    && (path == "" || path[0] == '/')
    && '?' !in path && '#' !in path && '#' !in Marked('?', query)
  }

  predicate WellFormed(c: Components) {
    && ':' !in c.scheme
    && WellFormedAuthority(c.credentials, c.host, c.port)
    && WellFormedSuffix(c.path, c.query, c.fragment)
  }

  function SplitCredentials(authority: string): Option<Credentials> {
    if After(authority, '@').None? then None
    else Some(Credentials(Before(Before(authority, '@'), ':'), After(Before(authority, '@'), ':')))
  }

  function HostAndPort(authority: string): string {
    After(authority, '@').GetOr(authority)
  }

  function PathAndQuery(suffix: string): string {
    Before(suffix, '#')
  }

  predicate HasSlashes(url: string) {
    ':' in url && "//" <= After(url, ':').GetOr("")
  }

  /** What follows the two slashes. */
  function PastSlashes(url: string): string
    requires HasSlashes(url)
  {
    After(url, ':').GetOr("")[2..]
  }

  function AuthorityOf(rest: string): string {
    rest[..First(rest, PATH_MARKS)]
  }

  function SuffixOf(rest: string): string {
    rest[First(rest, PATH_MARKS)..]
  }

  function Split(url: string): Components
    requires HasSlashes(url)
  {
    var authority, suffix := AuthorityOf(PastSlashes(url)), SuffixOf(PastSlashes(url));
    Components(
      Before(url, ':'),
      SplitCredentials(authority),
      Before(HostAndPort(authority), ':'),
      After(HostAndPort(authority), ':'),
      Before(PathAndQuery(suffix), '?'),
      After(PathAndQuery(suffix), '?'),
      After(suffix, '#'))
  }

  lemma AuthorityComposes(authority: string)
    requires Lacks(authority, PATH_MARKS)
    ensures
      var c, rest := SplitCredentials(authority), HostAndPort(authority);
      && ComposeAuthority(c, Before(rest, ':'), After(rest, ':')) == authority
      && WellFormedAuthority(c, Before(rest, ':'), After(rest, ':'))
  {
    var rest := HostAndPort(authority);
    CutAndJoin(authority, '@');
    CutAndJoin(rest, ':');
    if After(authority, '@').Some? {
      var info := Before(authority, '@');
      CutAndJoin(info, ':');
      CutInside(info, ':', '@');
      assert authority == info + "@" + rest;
    } else {
      CutInside(rest, ':', '@');
    }
  }

  lemma SuffixComposes(suffix: string)
    requires suffix == "" || suffix[0] in PATH_MARKS
    ensures
      var path, query, fragment :=
        Before(PathAndQuery(suffix), '?'), After(PathAndQuery(suffix), '?'), After(suffix, '#');
      ComposeSuffix(path, query, fragment) == suffix && WellFormedSuffix(path, query, fragment)
  {
    var start := PathAndQuery(suffix);
    CutAndJoin(suffix, '#');
    CutAndJoin(start, '?');
    CutInside(start, '?', '#');
  }

  /** The components of any URL put together again are that URL. */
  lemma SplitThenCompose(url: string)
    requires HasSlashes(url)
    ensures WellFormed(Split(url)) && Compose(Split(url)) == url
  {
    PiecesOf(url);
    AuthorityComposes(AuthorityOf(PastSlashes(url)));
    SuffixComposes(SuffixOf(PastSlashes(url)));
  }

  lemma PiecesOf(url: string)
    requires HasSlashes(url)
    ensures
      var rest := PastSlashes(url);
      Before(url, ':') + Marked(':', Some("//" + (AuthorityOf(rest) + SuffixOf(rest)))) == url
    ensures ':' !in Before(url, ':') && Lacks(AuthorityOf(PastSlashes(url)), PATH_MARKS)
    ensures SuffixOf(PastSlashes(url)) == "" || SuffixOf(PastSlashes(url))[0] in PATH_MARKS
  {
    CutAndJoin(url, ':');
    SlashesOff(After(url, ':').GetOr(""));
    assert PastSlashes(url) == AuthorityOf(PastSlashes(url)) + SuffixOf(PastSlashes(url));
  }

  lemma SlashesOff(t: string)
    requires "//" <= t
    ensures t == "//" + t[2..]
  {
  }

  lemma AuthoritySplits(c: Option<Credentials>, host: string, port: Option<string>)
    requires WellFormedAuthority(c, host, port)
    ensures
      var authority := ComposeAuthority(c, host, port);
      && SplitCredentials(authority) == c
      && Before(HostAndPort(authority), ':') == host
      && After(HostAndPort(authority), ':') == port
  {
    var rest := host + Marked(':', port);
    JoinAndCut(host, ':', port);
    match c
    case None =>
      assert ComposeAuthority(c, host, port) == rest;
      NoCredentialsSplit(rest);
    case Some(k) =>
      CredentialsSplit(k, rest);
  }

  lemma NoCredentialsSplit(rest: string)
    requires '@' !in rest
    ensures SplitCredentials(rest) == None && HostAndPort(rest) == rest
  {
  }

  lemma CredentialsSplit(k: Credentials, rest: string)
    requires ':' !in k.user && '@' !in k.user && '@' !in Marked(':', k.password)
    ensures
      var authority := ComposeCredentials(Some(k)) + rest;
      SplitCredentials(authority) == Some(k) && HostAndPort(authority) == rest
  {
    var info := k.user + Marked(':', k.password);
    JoinAndCut(k.user, ':', k.password);
    assert ComposeCredentials(Some(k)) + rest == info + Marked('@', Some(rest));
    JoinAndCut(info, '@', Some(rest));
  }

  lemma SuffixSplits(path: string, query: Option<string>, fragment: Option<string>)
    requires WellFormedSuffix(path, query, fragment)
    ensures
      var suffix := ComposeSuffix(path, query, fragment);
      && (suffix == "" || suffix[0] in PATH_MARKS)
      && Before(PathAndQuery(suffix), '?') == path
      && After(PathAndQuery(suffix), '?') == query
      && After(suffix, '#') == fragment
  {
    JoinAndCut(path + Marked('?', query), '#', fragment);
    JoinAndCut(path, '?', query);
  }

  /** Well-formed components are what is found in the URL made of them. */
  lemma ComposeThenSplit(c: Components)
    requires WellFormed(c)
    ensures HasSlashes(Compose(c)) && Split(Compose(c)) == c
  {
    var authority := ComposeAuthority(c.credentials, c.host, c.port);
    var suffix := ComposeSuffix(c.path, c.query, c.fragment);
    JoinAndCut(c.scheme, ':', Some("//" + (authority + suffix)));
    assert Compose(c)[|c.scheme|] == ':';
    AuthoritySplits(c.credentials, c.host, c.port);
    SuffixSplits(c.path, c.query, c.fragment);
    assert (authority + suffix)[..|authority|] == authority;
    FirstIs(authority + suffix, PATH_MARKS, |authority|);
    assert PastSlashes(Compose(c)) == authority + suffix;
    assert (authority + suffix)[|authority|..] == suffix;
  }

  // Ports.

  function SignedValue(s: string): int {
    if s != "" && s[0] == '-' then -(Value(DigitRun(s[1..], 10), 10) as int)
    else if s != "" && s[0] == '+' then Value(DigitRun(s[1..], 10), 10)
    else Value(DigitRun(s, 10), 10)
  }

  /** The number that atoi reads, as long as it fits an int. */
  function Atoi(s: string): int {
    SignedValue(SkipSpace(s))
  }

  function TruncatedPort(n: int): (p: nat)
    ensures p < 0x1_0000
  {
    n % 0x1_0000
  }

  function DefaultPort(url: string, otherwise: nat): nat {
    if "https" <= url then 443 else if "http" <= url then 80 else otherwise
  }

  /** Reading a number does not depend on the path that may follow it. */
  lemma {:induction false} AtoiStops(s: string, rest: string)
    requires rest == "" || rest[0] in PATH_MARKS
    ensures Atoi(s + rest) == Atoi(s)
  {
    if s != "" && IsSpace(s[0]) {
      assert (s + rest)[1..] == s[1..] + rest;
      AtoiStops(s[1..], rest);
    } else {
      assert s == "" ==> s + rest == rest;
      assert SkipSpace(s + rest) == s + rest;
      SignedValueStops(s, rest);
    }
  }

  lemma SignedValueStops(s: string, rest: string)
    requires rest == "" || rest[0] in PATH_MARKS
    ensures SignedValue(s + rest) == SignedValue(s)
  {
    if s == "" {
      assert s + rest == rest;
      DigitsStop("", rest);
    } else {
      assert (s + rest)[1..] == s[1..] + rest;
      DigitsStop(s[1..], rest);
      DigitsStop(s, rest);
    }
  }

  lemma {:induction false} DigitsStop(s: string, rest: string)
    requires rest == "" || rest[0] in PATH_MARKS
    ensures DigitRun(s + rest, 10) == DigitRun(s, 10)
  {
    if s == "" {
      assert s + rest == rest;
    } else if IsBaseDigit(s[0], 10) {
      assert (s + rest)[1..] == s[1..] + rest;
      DigitsStop(s[1..], rest);
    }
  }

  /** A port written as a numeral is read as that port. */
  lemma CanonicalPort(n: nat)
    requires n < 0x1_0000
    ensures TruncatedPort(Atoi(Numeral(n, 10, 1))) == n
  {
    var s := Numeral(n, 10, 1);
    NumeralIsNumeral(n, 10, 1);
    DigitRunIs(s, 10, "");
    assert s + "" == s;
  }
}
