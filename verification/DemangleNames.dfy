/** Functions and variables with ordinary names: how a compiler mangles them, and what the demangler makes of that. */
module DemangleNames {
  import opened Strings
  import Numerals
  import opened G = DemangleGrammar
  import opened Demangle

  predicate IsIdentifierChar(c: char)
  {
    IsAlpha(c) || IsDigit(c) || c == '_'
  }

  /** The demangler reads its length as a C int. */
  predicate IsIdentifier(id: string)
  {
    && 0 < |id| < 0x8000_0000 && !IsDigit(id[0])
    && forall k :: 0 <= k < |id| ==> IsIdentifierChar(id[k])
  }

  /** Something outside of all scopes, or inside the scopes in front of its own name. */
  datatype Entity = Global(id: string) | Scoped(path: seq<string>)

  predicate IsPath(path: seq<string>)
  {
    path != [] && forall k :: 0 <= k < |path| ==> IsIdentifier(path[k])
  }

  /** The demangler counts the parts of a path in a C short. */
  predicate HasName(e: Entity)
  {
    match e
    case Global(id) => IsIdentifier(id)
    case Scoped(path) => IsPath(path) && |path| <= 0x7fff
  }

  // ---------------------------------------------------------------------------
  // Mangling.

  /** An identifier behind its length. */
  function Counted(id: string): string
  {
    Numerals.Numeral(|id|, 10, 1) + id
  }

  function AllCounted(path: seq<string>): string
  {
    if path == [] then "" else Counted(path[0]) + AllCounted(path[1..])
  }

  /** The symbol of a variable, or with parameters that of a function. */
  function Symbol(e: Entity, parameters: string): string
  {
    match e
    case Global(id) => "_Z" + (Counted(id) + parameters)
    case Scoped(path) => "_ZN" + (AllCounted(path) + ("E" + parameters))
  }

  // ---------------------------------------------------------------------------
  // What is shown.

  function ShownIdentifier(id: string): string
  {
    if |id| > |ANONYMOUS| && ANONYMOUS <= id then ANONYMOUS_TEXT else id
  }

  function ShownPath(path: seq<string>): string
    requires path != []
  {
    ShownIdentifier(path[0]) + if |path| > 1 then "::" + ShownPath(path[1..]) else ""
  }

  function Shown(e: Entity, parameters: string): string
    requires HasName(e)
  {
    (match e case Global(id) => ShownIdentifier(id) case Scoped(path) => ShownPath(path))
    + if parameters != "" then "()" else ""
  }

  /** What must fit in front of the terminator: behind a variable in a scope, a separator as well. */
  function Needed(e: Entity, parameters: string): nat
    requires HasName(e)
  {
    |Shown(e, parameters)| + if e.Scoped? && parameters == "" then 2 else 0
  }

  // ---------------------------------------------------------------------------
  // Reading an identifier behind its length.

  predicate At(w: string, i: nat, s: string)
  {
    i + |s| <= |w| && forall k :: 0 <= k < |s| ==> s[k] == w[i + k]
  }

  lemma AtJoined(w: string, i: nat, a: string, b: string)
    requires At(w, i, a + b)
    ensures At(w, i, a) && At(w, i + |a|, b)
  {
    assert forall k :: 0 <= k < |a| ==> a[k] == (a + b)[k];
    assert forall k :: 0 <= k < |b| ==> b[k] == (a + b)[|a| + k];
  }

  lemma AtEnd(a: string, b: string)
    ensures At(a + b, |a|, b)
  {
  }

  predicate AllDigits(s: string)
  {
    forall k :: 0 <= k < |s| ==> IsDigit(s[k])
  }

  lemma {:induction false} DigitsAreRead(w: string, i: nat, s: string)
    requires At(w, i, s) && AllDigits(s) && Numerals.AllHex(s) && Numerals.Value(s, 10) < 0x8000_0000
    requires forall k :: i <= k < i + |s| ==> IsDigit(w[k])
    ensures DigitsValue(w, i, i + |s|) == Numerals.Value(s, 10)
    decreases |s|
  {
    if s != "" {
      var head, last := s[..|s| - 1], s[|s| - 1];
      assert At(w, i, head) && w[i + |s| - 1] == last;
      assert Numerals.Value(s, 10) == Numerals.Value(head, 10) * 10 + (last as int - '0' as int);
      DigitsAreRead(w, i, head);
    }
  }

  lemma DecimalIsDigit(c: char)
    requires Numerals.IsDigitOf(c, 10)
    ensures IsDigit(c)
  {
  }

  lemma CountIsDigits(n: nat)
    ensures var s := Numerals.Numeral(n, 10, 1);
            s != "" && AllDigits(s) && Numerals.AllHex(s) && Numerals.Value(s, 10) == n
  {
    var s := Numerals.Numeral(n, 10, 1);
    Numerals.NumeralIsNumeral(n, 10, 1);
    forall k | 0 <= k < |s|
      ensures IsDigit(s[k])
    {
      DecimalIsDigit(s[k]);
    }
  }

  lemma FitsInInt(n: nat)
    requires n < 0x8000_0000
    ensures Wrap32(n) == n
  {
  }

  lemma DigitsEndBehind(w: string, i: nat, s: string)
    requires At(w, i, s) && s != "" && AllDigits(s) && i + |s| < |w| && !IsDigit(w[i + |s|])
    ensures DigitsEnd(w, i) == i + |s| && w[i] == s[0]
  {
    var e := i + |s|;
    forall k | i <= k < e
      ensures IsDigit(w[k])
    {
      assert s[k - i] == w[k];
    }
    DigitsEndIs(w, i, e);
  }

  lemma NumberIsRead(w: string, i: nat, s: string)
    requires At(w, i, s) && s != "" && AllDigits(s) && Numerals.AllHex(s) && Numerals.Value(s, 10) < 0x8000_0000
    requires i + |s| < |w| && !IsDigit(w[i + |s|])
    ensures i < |w| && IsDigit(w[i])
    ensures HasNumber(w, i) && NumberEnd(w, i) == i + |s| && NumberValue(w, i) == Numerals.Value(s, 10)
  {
    DigitsEndBehind(w, i, s);
    DigitsAreRead(w, i, s);
    FitsInInt(Numerals.Value(s, 10));
  }

  lemma AnonymousIsSeen(w: string, start: nat, id: string)
    requires At(w, start, id) && |id| > |ANONYMOUS|
    ensures ANONYMOUS <= w[start..] <==> ANONYMOUS <= id
  {
    assert w[start..][..|id|] == id;
  }

  lemma NamedBehindNumber(w: string, i: nat, id: string)
    requires IsIdentifier(id) && i < |w| && IsDigit(w[i])
    requires NumberValue(w, i) == |id| && At(w, NumberEnd(w, i), id)
    ensures PlainName(w, i) && PlainEnd(w, i) == NumberEnd(w, i) + |id| && PlainText(w, i) == ShownIdentifier(id)
  {
    var start := NumberEnd(w, i);
    assert id[0] == w[start] && IsIdentifierChar(id[0]);
    assert w[start..start + |id|] == id;
    if |id| > |ANONYMOUS| {
      AnonymousIsSeen(w, start, id);
    }
  }

  lemma IdentifierIsRead(w: string, i: nat, id: string)
    requires IsIdentifier(id) && At(w, i, Counted(id))
    ensures PlainName(w, i) && PlainEnd(w, i) == i + |Counted(id)| && PlainText(w, i) == ShownIdentifier(id)
  {
    var s := Numerals.Numeral(|id|, 10, 1);
    AtJoined(w, i, s, id);
    assert id[0] == w[i + |s|];
    CountIsDigits(|id|);
    NumberIsRead(w, i, s);
    NamedBehindNumber(w, i, id);
  }

  lemma OnePart(w: string, i: nat, e: nat)
    requires PlainName(w, i) && PlainEnd(w, i) == e
    ensures PartsEnd(w, i) == PartsEnd(w, e) && PartsCount(w, i) == 1 + PartsCount(w, e)
    ensures PartsText(w, i) == PlainText(w, i) + if PlainName(w, e) then "::" + PartsText(w, e) else ""
  {
  }

  lemma NoPart(w: string, e: nat)
    requires e < |w| && !IsDigit(w[e])
    ensures !PlainName(w, e) && PartsEnd(w, e) == e && PartsCount(w, e) == 0
  {
  }

  lemma {:induction false} PathIsRead(w: string, i: nat, path: seq<string>, e: nat)
    requires IsPath(path) && At(w, i, AllCounted(path)) && e == i + |AllCounted(path)|
    requires e < |w| && !IsDigit(w[e])
    ensures PlainName(w, i) && PartsEnd(w, i) == e
    ensures PartsCount(w, i) == |path| && PartsText(w, i) == ShownPath(path)
    decreases |path|
  {
    var next, rest := i + |Counted(path[0])|, path[1..];
    AtJoined(w, i, Counted(path[0]), AllCounted(rest));
    IdentifierIsRead(w, i, path[0]);
    OnePart(w, i, next);
    if rest == [] {
      NoPart(w, e);
    } else {
      assert IsPath(rest);
      PathIsRead(w, next, rest, e);
    }
  }

  // ---------------------------------------------------------------------------
  // Whole symbols.

  predicate AreParameters(parameters: string)
  {
    forall k :: 0 <= k < |parameters| ==> parameters[k] in BUILTIN_TYPES
  }

  lemma ParametersAreRead(w: string, i: nat, parameters: string)
    requires AreParameters(parameters) && At(w, i, parameters) && i + |parameters| == |w|
    ensures OnlyLetters(w, i) && (i < |w| ==> IsLower(w[i]))
  {
    forall k: nat | i <= k < |w|
      ensures OneOf(w, k, BUILTIN_TYPES) && IsLower(w[k])
    {
      assert parameters[k - i] == w[k];
      BuiltinIsLower(w[k]);
    }
  }

  lemma PlainIsOrdinary(w: string, e: nat)
    requires PlainName(w, 2) && PlainEnd(w, 2) == e && OnlyLetters(w, e) && (e < |w| ==> IsLower(w[e]))
    ensures OrdinaryEncoding(w, 2) && OrdinaryEnd(w, 2) == e
    ensures OrdinaryText(w, 2) == PlainText(w, 2) && OrdinaryRoom(w, 2) == 0
  {
  }

  lemma NestedIsOrdinary(w: string)
    requires NestedParts(w, 2) && OnlyLetters(w, PartsEnd(w, 3) + 1)
    ensures OrdinaryEncoding(w, 2) && OrdinaryEnd(w, 2) == PartsEnd(w, 3) + 1
    ensures OrdinaryText(w, 2) == PartsText(w, 3) && OrdinaryRoom(w, 2) == 2
  {
    assert !PlainName(w, 2);
  }

  lemma GlobalIsRead(w: string, id: string, parameters: string)
    requires IsIdentifier(id) && AreParameters(parameters)
    requires |w| == 2 + |Counted(id)| + |parameters| && At(w, 2, Counted(id) + parameters)
    ensures OrdinaryEncoding(w, 2) && OrdinaryText(w, 2) == ShownIdentifier(id) && OrdinaryRoom(w, 2) == 0
    ensures OrdinaryEnd(w, 2) == 2 + |Counted(id)|
  {
    AtJoined(w, 2, Counted(id), parameters);
    IdentifierIsRead(w, 2, id);
    ParametersAreRead(w, 2 + |Counted(id)|, parameters);
    PlainIsOrdinary(w, 2 + |Counted(id)|);
  }

  lemma CutAtEnd(w: string, path: seq<string>, parameters: string)
    requires At(w, 3, AllCounted(path) + ("E" + parameters))
    ensures var e := 3 + |AllCounted(path)|;
            At(w, 3, AllCounted(path)) && Is(w, e, 'E') && At(w, e + 1, parameters)
  {
    var e := 3 + |AllCounted(path)|;
    AtJoined(w, 3, AllCounted(path), "E" + parameters);
    AtJoined(w, e, "E", parameters);
    assert "E"[0] == w[e];
  }

  lemma ScopedIsRead(w: string, path: seq<string>, parameters: string)
    requires IsPath(path) && |path| <= 0x7fff && AreParameters(parameters)
    requires Is(w, 2, 'N') && |w| == 4 + |AllCounted(path)| + |parameters|
    requires At(w, 3, AllCounted(path) + ("E" + parameters))
    ensures OrdinaryEncoding(w, 2) && OrdinaryText(w, 2) == ShownPath(path) && OrdinaryRoom(w, 2) == 2
    ensures OrdinaryEnd(w, 2) == 4 + |AllCounted(path)|
  {
    var e := 3 + |AllCounted(path)|;
    CutAtEnd(w, path, parameters);
    PathIsRead(w, 3, path, e);
    ParametersAreRead(w, e + 1, parameters);
    NestedIsOrdinary(w);
  }

  lemma EncodingIsRead(w: string, parameters: string)
    requires OrdinaryEncoding(w, 2) && OrdinaryEnd(w, 2) + |parameters| == |w|
    ensures EncodedText(w, 2) == OrdinaryText(w, 2) + if parameters != "" then "()" else ""
    ensures EncodedRoom(w, 2) == if parameters != "" then 0 else OrdinaryRoom(w, 2)
  {
  }

  /** The symbol of an entity is an ordinary one, and what is shown for it is the entity. */
  lemma SymbolIsRead(e: Entity, parameters: string)
    requires HasName(e) && AreParameters(parameters)
    ensures OrdinarySymbol(Symbol(e, parameters), 0)
    ensures EncodedText(Symbol(e, parameters), 2) == Shown(e, parameters)
    ensures |Shown(e, parameters)| + EncodedRoom(Symbol(e, parameters), 2) == Needed(e, parameters)
  {
    var w := Symbol(e, parameters);
    assert Is(w, 0, '_') && Is(w, 1, 'Z');
    match e
    case Global(id) =>
      AtEnd("_Z", Counted(id) + parameters);
      GlobalIsRead(w, id, parameters);
      EncodingIsRead(w, parameters);
    case Scoped(path) =>
      AtEnd("_ZN", AllCounted(path) + ("E" + parameters));
      ScopedIsRead(w, path, parameters);
      EncodingIsRead(w, parameters);
  }

  // ---------------------------------------------------------------------------
  // No length of an ordinary symbol is negative.

  lemma SymbolStarts(w: string, a: nat, b: nat)
    requires OperatorSymbol(w, a, b)
    ensures a < |w| && IsLower(w[a])
  {
    var p: nat :| p < NUM_OPERATORS && w[a..b] == Operator(p).abbrev;
    PairAt(w, a, Operator(p).abbrev);
  }

  lemma HopFromDigit(w: string, a: nat, b: nat)
    requires a < |w| && IsDigit(w[a]) && Hop(w, a, b)
    ensures SourceName(w, a, b)
  {
    if OperatorSymbol(w, a, b) {
      SymbolStarts(w, a, b);
    }
  }

  lemma HopFromMark(w: string, a: nat, b: nat)
    requires a < |w| && w[a] in "NZE" && Hop(w, a, b)
    ensures b == a + 1
  {
    if OperatorSymbol(w, a, b) {
      SymbolStarts(w, a, b);
    }
  }

  lemma HopFromStart(w: string, b: nat)
    requires Is(w, 0, '_') && Is(w, 1, 'Z') && Hop(w, 0, b)
    ensures b == 1
  {
    if OperatorSymbol(w, 0, b) {
      SymbolStarts(w, 0, b);
    }
  }

  /** Where one of the plain names in a row starts, or the last one ends. */
  predicate IsPartStart(w: string, s: nat, i: nat)
    requires s <= |w|
    decreases |w| - s
  {
    i == s || (PlainName(w, s) && IsPartStart(w, PlainEnd(w, s), i))
  }

  lemma {:induction false} NextPart(w: string, s: nat, i: nat)
    requires s <= |w| && IsPartStart(w, s, i)
    ensures i <= PartsEnd(w, s)
    ensures if PlainName(w, i) then IsPartStart(w, s, PlainEnd(w, i)) else i == PartsEnd(w, s)
    decreases |w| - s
  {
    if i != s {
      NextPart(w, PlainEnd(w, s), i);
    }
  }

  /** Everywhere but inside of identifiers and their lengths. */
  predicate IsBoundary(w: string, i: nat)
    requires OrdinarySymbol(w, 0)
  {
    i <= 2 || (NestedParts(w, 2) && IsPartStart(w, 3, i)) || i >= OrdinaryEnd(w, 2)
  }

  lemma HopToBoundary(w: string, a: nat, b: nat)
    requires OrdinarySymbol(w, 0) && IsBoundary(w, a) && Hop(w, a, b)
    ensures IsBoundary(w, b)
  {
    if a == 0 {
      HopFromStart(w, b);
    } else if a == 1 {
      HopFromMark(w, a, b);
    } else if a == 2 && PlainName(w, 2) {
      HopFromDigit(w, a, b);
    } else if a == 2 {
      HopFromMark(w, a, b);
    } else if NestedParts(w, 2) && IsPartStart(w, 3, a) {
      NextPart(w, 3, a);
      if PlainName(w, a) {
        HopFromDigit(w, a, b);
      } else {
        HopFromMark(w, a, b);
      }
    }
  }

  lemma {:induction false} ReachedIsBoundary(w: string, i: nat)
    requires OrdinarySymbol(w, 0) && Reached(w, i)
    ensures IsBoundary(w, i)
  {
    if i > 0 {
      var j: nat :| j < i && Reached(w, j) && Hop(w, j, i);
      ReachedIsBoundary(w, j);
      HopToBoundary(w, j, i);
    }
  }

  lemma BoundaryIsNotNegative(w: string, i: nat)
    requires OrdinarySymbol(w, 0) && IsBoundary(w, i) && i <= |w|
    ensures NotNegativeAt(w, i)
  {
    if i < OrdinaryEnd(w, 2) {
      if i > 2 {
        NextPart(w, 3, i);
      }
    } else {
      LettersAreNoNumber(w, i);
    }
  }

  lemma LettersAreNoNumber(w: string, i: nat)
    requires OnlyLetters(w, i) && i <= |w|
    ensures !HasNumber(w, i)
  {
    forall k: nat | i <= k < |w|
      ensures !IsDigit(w[k])
    {
      assert OneOf(w, k, BUILTIN_TYPES);
      BuiltinIsLower(w[k]);
    }
    assert OneOf(w, DigitsStart(w, i), BUILTIN_TYPES) || DigitsStart(w, i) == |w|;
  }

  /** So the parse of an ordinary symbol is never derailed, whatever its identifiers look like. */
  lemma OrdinaryLengths(w: string)
    requires OrdinarySymbol(w, 0)
    ensures LengthsNotNegative(w)
  {
    forall i: nat | i <= |w| && Reached(w, i)
      ensures NotNegativeAt(w, i)
    {
      ReachedIsBoundary(w, i);
      BoundaryIsNotNegative(w, i);
    }
  }

  // ---------------------------------------------------------------------------
  // Demangling.

  lemma CountedIsNulFree(id: string)
    requires IsIdentifier(id)
    ensures NulFree(Counted(id))
  {
    var s := Numerals.Numeral(|id|, 10, 1);
    CountIsDigits(|id|);
    assert NulFree(s) && NulFree(id);
  }

  lemma {:induction false} AllCountedIsNulFree(path: seq<string>)
    requires path == [] || IsPath(path)
    ensures NulFree(AllCounted(path))
  {
    if path != [] {
      CountedIsNulFree(path[0]);
      AllCountedIsNulFree(path[1..]);
    }
  }

  lemma SymbolIsNulFree(e: Entity, parameters: string)
    requires HasName(e) && AreParameters(parameters)
    ensures NulFree(Symbol(e, parameters))
  {
    match e
    case Global(id) =>
      CountedIsNulFree(id);
    case Scoped(path) =>
      AllCountedIsNulFree(path);
  }

  /**
   * The symbol of every variable, and of every function with parameters of builtin types, is demangled to the name of
   * the entity, exactly if that and its terminator fit; for a variable in a scope two more characters must fit.
   */
  method DemangleEntity(e: Entity, parameters: string, out: array<char>, beyond: nat -> char)
      returns (ok: bool, ghost derailed: bool)
    requires HasName(e) && AreParameters(parameters)
    modifies out
    ensures !derailed
    ensures ok <==> Needed(e, parameters) < out.Length
    ensures ok ==> out[..|Shown(e, parameters)| + 1] == Shown(e, parameters) + "\0"
  {
    var symbol := Symbol(e, parameters);
    SymbolIsNulFree(e, parameters);
    SymbolIsRead(e, parameters);
    OrdinaryLengths(symbol);
    ghost var silent, length;
    ok, derailed, silent, length := Demangle.Demangle(symbol, out, beyond);
  }
}
