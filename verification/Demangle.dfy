/** The symbol demangler: recursive descent with backtracking over one state and one output buffer. */
module Demangle {
  import opened Wrappers
  import opened Strings
  import opened G = DemangleGrammar

  /**
   * The parser's state. It is copied and assigned as a whole, which is how alternatives are undone.
   * `cur` indexes the mangled name; `outCur` and `prevName` index the output buffer.
   */
  datatype State = State(
    cur: nat, outCur: nat, prevName: nat, prevNameLength: int,
    nestLevel: int, append: bool, overflowed: bool)

  /** The state after `length` characters have been appended to an output of the given size. */
  function Appended(s: State, length: nat, size: nat): (r: State)
    ensures r == s.(outCur := r.outCur, overflowed := r.overflowed)
    ensures r.outCur == s.outCur + Min(length, Max(0, size - 1 - s.outCur))
    ensures r.overflowed <==> s.overflowed || r.outCur < s.outCur + length
  {
    var copied := Min(length, Max(0, size - 1 - s.outCur));
    s.(outCur := s.outCur + copied, overflowed := s.overflowed || copied < length)
  }

  /** The same, with the place of an identifier remembered. */
  function Remembered(s: State, first: char, length: nat, size: nat): State
  {
    Appended(if IsAlpha(first) || first == '_' then s.(prevName := s.outCur, prevNameLength := length) else s,
             length, size)
  }

  /** The state after some text that does not start with an angle bracket. */
  function Written(s: State, text: string, size: nat): State
  {
    if !s.append || text == "" then s else Remembered(s, text[0], |text|, size)
  }

  /** The output only grows, and an identifier that fits lies inside it. */
  ghost predicate Grown(a: State, b: State, size: nat)
  {
    && b == a.(outCur := b.outCur, overflowed := b.overflowed,
               prevName := b.prevName, prevNameLength := b.prevNameLength)
    && a.outCur <= b.outCur <= size && (a.overflowed ==> b.overflowed)
    && (|| (b.prevName == a.prevName && b.prevNameLength == a.prevNameLength)
        || (b.prevName <= b.outCur && (!b.overflowed ==> b.prevName + Max(b.prevNameLength, 0) <= b.outCur)))
  }

  lemma RememberedGrows(s: State, first: char, length: nat, size: nat)
    requires s.outCur <= size
    ensures Grown(s, Remembered(s, first, length, size), size)
    ensures s.outCur == 0 ==> Remembered(s, first, length, size).outCur == Min(length, Max(0, size - 1))
  {
  }

  /** A space keeps "<<" from becoming "<<<". */
  function Gap(written: string, first: char): string
  {
    if first == '<' && written != "" && written[|written| - 1] == '<' then " " else ""
  }

  /** Text handed to Append: a C string, or characters of the output buffer itself. */
  datatype Source = Text(s: string) | Output(at: nat)

  /** The length of the first clone suffix, letters and digits each behind a dot, or 0 if there is none. */
  method CloneUnitLength(s: string) returns (length: nat)
    requires s != ""
    ensures length <= |s|
    ensures if length == 0 then !CloneSuffix(s) else CloneSuffix(s) <==> CloneSuffix(s[length..])
  {
    if s[0] != '.' || 1 == |s| || !IsAlpha(s[1]) {
      return 0;
    }
    var i := 2;
    while i < |s| && IsAlpha(s[i])
      invariant 2 <= i <= |s|
      invariant forall k :: 0 < k < i ==> IsAlpha(s[k])
    {
      i := i + 1;
    }
    ghost var dot := i;
    if i == |s| || s[i] != '.' || i + 1 == |s| || !IsDigit(s[i + 1]) {
      NoCloneSuffix(s, dot);
      return 0;
    }
    i := i + 2;
    while i < |s| && IsDigit(s[i])
      invariant dot + 2 <= i <= |s|
      invariant forall k :: dot < k < i ==> IsDigit(s[k])
    {
      i := i + 1;
    }
    OneCloneSuffix(s, dot, i);
    return i;
  }

  method OnlyCloneSuffixes(s: string) returns (yes: bool)
    ensures yes <==> CloneSuffix(s)
  {
    var i := 0;
    while i < |s|
      invariant 0 <= i <= |s|
      invariant CloneSuffix(s) <==> CloneSuffix(s[i..])
      decreases |s| - i
    {
      var unit := CloneUnitLength(s[i..]);
      if unit == 0 {
        return false;
      }
      assert s[i..][unit..] == s[i + unit..];
      i := i + unit;
    }
    return true;
  }

  lemma Joined(cells: string, from: nat, to: nat, text: string)
    requires from <= to <= |cells| && to - from <= |text|
    ensures cells[from..to] == text[..to - from] && to - from == |text| ==> cells[..to] == cells[..from] + text
    ensures cells[from..to] == text[..to - from] && from == 0 ==> cells[..to] <= text
  {
  }

  class Demangler {
    const mangled: string
    const out: array<char>
    // What reading past the output buffer would give.
    const beyond: nat -> char
    var st: State
    // Whether the parse met the length of a source name below -1. There the source moves its cursor back, possibly
    // for ever; here that source name fails, and the flag tells that the two part ways.
    ghost var derailed: bool
    // Whether something was read that a text belongs to, and there was none: a source name of length 0, a nested name
    // without parts, or a constructor before any name.
    ghost var silent: bool
    // The places where a source name, and where a type may be looked for: any sets closed under what can be read.
    // The parse functions below require the cursor to be at such a place.
    ghost const places: iset<nat>
    ghost const typePlaces: iset<nat>

    ghost predicate Valid()
      reads this
    {
      && '\0' !in mangled
      && InBounds(st)
      && OnTrack()
      && Closed()
    }

    ghost predicate Closed()
    {
      ClosedUnderHops(mangled, places, typePlaces)
    }

    /** Some number where a source name may be looked for is no length. */
    ghost predicate Misread()
    {
      exists i: nat :: i <= |mangled| && i in places && !NotNegativeAt(mangled, i)
    }

    /** A place where something without a text may stand. */
    ghost predicate TextlessAt(i: nat)
    {
      && i <= |mangled|
      && (|| (i in places && HasNumber(mangled, i) && NumberValue(mangled, i) == 0)
          || EmptyNestedName(mangled, i)
          || (Is(mangled, i, 'C') && OneOf(mangled, i + 1, "123")))
    }

    ghost predicate SomeTextless()
    {
      exists i: nat :: TextlessAt(i)
    }

    /** Only such a number can derail the parse, and only such a place can silence it. */
    ghost predicate OnTrack()
      reads this`derailed, this`silent
    {
      (derailed ==> Misread()) && (silent ==> SomeTextless())
    }

    /** No lower-case letter, so no operator. */
    predicate NoLetter(i: nat)
    {
      i < |mangled| ==> !IsLower(mangled[i])
    }

    /** The text written is terminated, unless it is cut off. */
    ghost predicate Ended()
      reads this`st, out
    {
      st.append && !st.overflowed ==> st.outCur < out.Length && out[st.outCur] == '\0'
    }

    /** Whatever is parsed leaves its text behind, terminated, unless something had none. */
    ghost predicate Spoke(ok: bool, wasSilent: bool)
      reads this`st, this`silent, out
    {
      (wasSilent ==> silent) && (ok ==> Ended() || silent)
    }

    /** What is read at a place ends at one. */
    lemma Land(a: nat, b: nat)
      requires Closed() && a in typePlaces && !Is(mangled, a, 'n') && Hop(mangled, a, b)
      ensures b in places
    {
      assert !SignedDigit(mangled, a);
    }

    lemma NotASign(a: nat)
      requires Closed() && a in typePlaces && !Is(mangled, a, 'n')
      ensures a in places
    {
      assert !SignedDigit(mangled, a);
    }

    lemma OperatorLands(a: nat)
      requires Closed() && a in typePlaces && OperatorSymbol(mangled, a, a + 2)
      ensures a + 2 in places
    {
      assert Hop(mangled, a, a + 2);
      var p: nat :| p < NUM_OPERATORS && mangled[a..a + 2] == Operator(p).abbrev;
      PairAt(mangled, a, Operator(p).abbrev);
      assert !SignedDigit(mangled, a);
    }

    lemma PassLetter(a: nat)
      requires Closed() && a < |mangled| && a in typePlaces && IsLetter(mangled[a])
      ensures a + 1 in typePlaces && (IsMark(mangled[a]) ==> a + 1 in places)
    {
      if SignedDigit(mangled, a) && a + 1 in places {
      } else if IsMark(mangled[a]) {
        assert Hop(mangled, a, a + 1);
      } else if SignedDigit(mangled, a + 1) {
        assert Hop(mangled, a, a + 2);
      } else {
        assert Hop(mangled, a, a + 1);
      }
    }

    lemma PassToken(a: nat, token: char)
      requires Closed() && Is(mangled, a, token)
      ensures a in typePlaces && IsLetter(token) ==> a + 1 in typePlaces
      ensures a in typePlaces && IsMark(token) ==> a + 1 in places
    {
      if a in typePlaces && IsLetter(token) {
        PassLetter(a);
      }
    }

    /** The indices are inside their strings; until an overflow the name remembered lies inside what was written. */
    ghost predicate InBounds(s: State)
    {
      && s.cur <= |mangled| && s.outCur <= out.Length && s.prevName <= out.Length
      && (!s.overflowed ==> s.prevName + Max(s.prevNameLength, 0) <= s.outCur)
    }

    /**
     * The contract of every parsing function. Failure restores the state; success moves the cursor
     * forward, not past the terminator, and leaves the append flag and the nest level as found;
     * with the append flag off nothing but the cursor changes, output bytes included.
     */
    ghost predicate Step(ok: bool, a: State, aOut: seq<char>, b: State, bOut: seq<char>)
      reads this`derailed, this`silent
    {
      && OnTrack()
      && InBounds(b)
      && (ok ==> a.cur < b.cur)
      && (!ok ==> b == a)
      && b.append == a.append && b.nestLevel == a.nestLevel
      && (!a.append ==> b == a.(cur := b.cur) && bOut == aOut)
    }

    /** The contract of the output helpers: they touch only the output part of the state. */
    ghost predicate Emitted(a: State, aOut: seq<char>, b: State, bOut: seq<char>)
    {
      && InBounds(b)
      && b.cur == a.cur && b.append == a.append && b.nestLevel == a.nestLevel
      && (!a.append ==> b == a && bOut == aOut)
    }

    /** The output shows a text in front of a terminator. */
    ghost predicate Shows(s: State, cells: seq<char>, text: string)
    {
      s.outCur < |cells| && cells[..s.outCur] == text && cells[s.outCur] == '\0'
    }

    /** A text has been appended, as far as it fits. */
    ghost predicate Added(a: State, aOut: seq<char>, b: State, bOut: seq<char>, text: string)
    {
      && b == Written(a, text, out.Length).(cur := b.cur)
      && a.outCur <= |aOut|
      && (a.append && !b.overflowed ==> Shows(b, bOut, aOut[..a.outCur] + text))
    }

    lemma AddedFrom(a: State, behind: State, aOut: seq<char>, b: State, bOut: seq<char>, text: string)
      requires Added(behind, aOut, b, bOut, text) && behind == a.(cur := behind.cur)
      ensures Added(a, aOut, b, bOut, text)
    {
    }

    lemma AddedAgain(a: State, aOut: seq<char>, b: State, bOut: seq<char>, c: State, cOut: seq<char>, text: string)
      requires Added(a, aOut, b, bOut, text) && Added(a, bOut, c, cOut, text)
      ensures Added(a, aOut, c, cOut, text)
    {
      if a.append && !c.overflowed {
        assert bOut[..b.outCur][..a.outCur] == aOut[..a.outCur];
        assert bOut[..a.outCur] == aOut[..a.outCur];
      }
    }

    /** The output has grown by a text, unless it had no room for that and for so many characters behind it. */
    ghost predicate GrewBy(a: State, aOut: seq<char>, b: State, bOut: seq<char>, text: string, room: nat)
    {
      && a.outCur <= |aOut|
      && (b.overflowed <==> a.overflowed || a.outCur + |text| + room >= out.Length)
      && (!b.overflowed ==> b.outCur == a.outCur + |text| && Shows(b, bOut, aOut[..a.outCur] + text))
    }

    lemma AddedIsGrowth(a: State, aOut: seq<char>, b: State, bOut: seq<char>, text: string)
      requires Added(a, aOut, b, bOut, text) && a.append && text != ""
      ensures GrewBy(a, aOut, b, bOut, text, 0)
    {
    }

    lemma GrewAgain(a: State, aOut: seq<char>, b: State, bOut: seq<char>, c: State, cOut: seq<char>, text: string,
                    room: nat)
      requires GrewBy(a, aOut, b, bOut, text, room) && GrewBy(a, bOut, c, cOut, text, room)
      ensures GrewBy(a, aOut, c, cOut, text, room)
    {
      if !c.overflowed {
        assert bOut[..b.outCur][..a.outCur] == aOut[..a.outCur];
        assert bOut[..a.outCur] == aOut[..a.outCur];
      }
    }

    lemma GrowsFurther(a: State, aOut: seq<char>, b: State, bOut: seq<char>, c: State, cOut: seq<char>, t: string,
                       room: nat, u: string)
      requires GrewBy(a, aOut, b, bOut, t, room) && room <= |u| && b.append && u != ""
      requires Added(b, bOut, c, cOut, u)
      ensures GrewBy(a, aOut, c, cOut, t + u, 0)
    {
      AddedIsGrowth(b, bOut, c, cOut, u);
      if !c.overflowed {
        assert aOut[..a.outCur] + t + u == aOut[..a.outCur] + (t + u);
      }
    }

    lemma GrowsTwice(a: State, aOut: seq<char>, b: State, bOut: seq<char>, c: State, cOut: seq<char>, t: string,
                     u: string, room: nat)
      requires GrewBy(a, aOut, b, bOut, t, 0) && GrewBy(b, bOut, c, cOut, u, room)
      ensures GrewBy(a, aOut, c, cOut, t + u, room)
    {
      if !c.overflowed {
        assert aOut[..a.outCur] + t + u == aOut[..a.outCur] + (t + u);
      }
    }

    /** An ordinary name has been read and shown, unless it had no room. */
    ghost predicate OrdinaryTaken(a: State, aOut: seq<char>, b: State, bOut: seq<char>)
      requires OrdinaryName(mangled, a.cur)
    {
      && b.cur == OrdinaryEnd(mangled, a.cur)
      && GrewBy(a, aOut, b, bOut, OrdinaryText(mangled, a.cur), OrdinaryRoom(mangled, a.cur))
    }

    lemma NestedNameIsTaken(a: State, inside: State, aOut: seq<char>, b: State, bOut: seq<char>)
      requires a.append && NestedParts(mangled, a.cur) && inside.cur == a.cur + 1 && a == inside.(cur := a.cur)
      requires b.cur == PartsEnd(mangled, inside.cur) + 1
      requires GrewBy(inside, aOut, b, bOut, PartsText(mangled, inside.cur), 2)
      ensures OrdinaryName(mangled, a.cur) && OrdinaryTaken(a, aOut, b, bOut)
    {
      assert OrdinaryName(mangled, a.cur) && OrdinaryText(mangled, a.cur) == PartsText(mangled, a.cur + 1);
    }

    /** Written a second time over itself, the name stands there as if for the first time. */
    lemma PlainNameIsTaken(a: State, aOut: seq<char>, b: State, bOut: seq<char>, c: State, cOut: seq<char>)
      requires a.append && PlainName(mangled, a.cur) && OrdinaryName(mangled, a.cur)
      requires Added(a, aOut, b, bOut, PlainText(mangled, a.cur)) && Added(a, bOut, c, cOut, PlainText(mangled, a.cur))
      requires c.cur == PlainEnd(mangled, a.cur)
      ensures OrdinaryTaken(a, aOut, c, cOut)
    {
      AddedAgain(a, aOut, b, bOut, c, cOut, PlainText(mangled, a.cur));
      AddedIsGrowth(a, aOut, c, cOut, PlainText(mangled, a.cur));
    }

    /** The name and parameters of an ordinary symbol have been read, and shown unless there was no room. */
    ghost predicate EncodingTaken(i: nat, a: State, aOut: seq<char>, b: State, bOut: seq<char>)
      requires OrdinaryEncoding(mangled, i)
    {
      b.cur == |mangled| && GrewBy(a, aOut, b, bOut, EncodedText(mangled, i), EncodedRoom(mangled, i))
    }

    /** The same for a whole symbol. */
    ghost predicate SymbolTaken(i: nat, a: State, aOut: seq<char>, b: State, bOut: seq<char>)
      requires OrdinarySymbol(mangled, i)
    {
      EncodingTaken(i + 2, a, aOut, b, bOut)
    }

    lemma SymbolIsTaken(i: nat, a: State, b: State, aOut: seq<char>, c: State, cOut: seq<char>)
      requires OrdinarySymbol(mangled, i) && b == a.(cur := i + 2)
      ensures OrdinaryEncoding(mangled, b.cur)
      ensures EncodingTaken(b.cur, b, aOut, c, cOut) ==> SymbolTaken(i, a, aOut, c, cOut)
    {
    }

    lemma FunctionIsTaken(a: State, aOut: seq<char>, b: State, bOut: seq<char>, c: State, cOut: seq<char>)
      requires b.append && OrdinaryEncoding(mangled, a.cur) && OrdinaryEnd(mangled, a.cur) < |mangled| == c.cur
      requires OrdinaryTaken(a, aOut, b, bOut) && Added(b, bOut, c, cOut, "()")
      ensures EncodingTaken(a.cur, a, aOut, c, cOut)
    {
      GrowsFurther(a, aOut, b, bOut, c, cOut, OrdinaryText(mangled, a.cur), OrdinaryRoom(mangled, a.cur), "()");
    }

    lemma DataIsTaken(a: State, aOut: seq<char>, b: State, bOut: seq<char>, c: State, cOut: seq<char>)
      requires OrdinaryEncoding(mangled, a.cur) && OrdinaryEnd(mangled, a.cur) == |mangled|
      requires OrdinaryTaken(a, aOut, b, bOut) && OrdinaryTaken(a, bOut, c, cOut)
      ensures EncodingTaken(a.cur, a, aOut, c, cOut)
    {
      var text := OrdinaryText(mangled, a.cur);
      GrewAgain(a, aOut, b, bOut, c, cOut, text, OrdinaryRoom(mangled, a.cur));
      assert text + "" == text;
    }

    /** What is left to show of plain names in a row. */
    ghost function RestOfParts(i: nat, behindOthers: bool): string
      requires i <= |mangled|
    {
      if PlainName(mangled, i) then (if behindOthers then "::" else "") + PartsText(mangled, i) else ""
    }

    /** Plain names in a row up to an E, as many as the parser counts without wrapping around. */
    ghost predicate InParts(s: State)
    {
      && s.append && s.nestLevel == 0 && s.cur <= |mangled|
      && PlainName(mangled, s.cur) && Is(mangled, PartsEnd(mangled, s.cur), 'E')
      && PartsCount(mangled, s.cur) <= 0x7fff
    }

    /** Some of the plain names in a row have been read and shown, and counted as levels. */
    ghost predicate PartsRead(a: State, aOut: seq<char>, b: State, bOut: seq<char>, shown: string)
      requires a.cur <= |mangled| && b.cur <= |mangled|
    {
      && b.append && PartsEnd(mangled, b.cur) == PartsEnd(mangled, a.cur)
      && 0 <= b.nestLevel && PartsCount(mangled, b.cur) + b.nestLevel == PartsCount(mangled, a.cur) <= 0x7fff
      && PartsText(mangled, a.cur) == shown + RestOfParts(b.cur, b.nestLevel > 0)
      && if b.nestLevel > 0 then GrewBy(a, aOut, b, bOut, shown, 0) else b == a && bOut == aOut && shown == ""
    }

    ghost function PartShown(i: nat, behindOthers: bool): string
      requires PlainName(mangled, i)
    {
      (if behindOthers then "::" else "") + PlainText(mangled, i)
    }

    /** One more of them is read and shown, behind a separator unless it is the first. */
    ghost predicate PartTaken(b: State, bOut: seq<char>, c: State, cOut: seq<char>)
      requires PlainName(mangled, b.cur)
    {
      && c.cur == PlainEnd(mangled, b.cur) && c.append && c.nestLevel == b.nestLevel + 1
      && GrewBy(b, bOut, c, cOut, PartShown(b.cur, b.nestLevel > 0), 0)
    }

    lemma RestFollows(i: nat, behindOthers: bool, shown: string)
      requires PlainName(mangled, i)
      ensures shown + RestOfParts(i, behindOthers)
              == shown + PartShown(i, behindOthers) + RestOfParts(PlainEnd(mangled, i), true)
    {
      var separator, text := if behindOthers then "::" else "", PlainText(mangled, i);
      var rest := RestOfParts(PlainEnd(mangled, i), true);
      assert PartsText(mangled, i) == text + rest;
      Regroup(shown, separator, text, rest);
    }

    lemma Regroup(a: string, b: string, c: string, d: string)
      ensures a + (b + (c + d)) == a + (b + c) + d
    {
    }

    lemma OneMorePart(a: State, aOut: seq<char>, b: State, bOut: seq<char>, c: State, cOut: seq<char>, shown: string)
        returns (more: string)
      requires a.cur <= |mangled| && PlainName(mangled, b.cur) && PartsRead(a, aOut, b, bOut, shown)
      requires PartTaken(b, bOut, c, cOut)
      ensures c.cur <= |mangled| && PartsRead(a, aOut, c, cOut, more) && c.nestLevel > 0
    {
      var text := PartShown(b.cur, b.nestLevel > 0);
      more := shown + text;
      RestFollows(b.cur, b.nestLevel > 0, shown);
      if b.nestLevel > 0 {
        GrowsTwice(a, aOut, b, bOut, c, cOut, shown, text, 0);
      } else {
        assert more == text;
      }
    }

    lemma NoMoreParts(a: State, aOut: seq<char>, b: State, bOut: seq<char>, c: State, cOut: seq<char>, shown: string)
      requires a.cur <= |mangled| && b.cur <= |mangled| && !PlainName(mangled, b.cur) && b.nestLevel > 0
      requires PartsRead(a, aOut, b, bOut, shown) && c.cur == b.cur && GrewBy(b, bOut, c, cOut, "", 2)
      ensures c.cur == PartsEnd(mangled, a.cur) && GrewBy(a, aOut, c, cOut, PartsText(mangled, a.cur), 2)
    {
      GrowsTwice(a, aOut, b, bOut, c, cOut, shown, "", 2);
      assert shown + "" == shown;
    }

    constructor (mangled: string, out: array<char>, beyond: nat -> char, ghost places: iset<nat>,
                 ghost typePlaces: iset<nat>)
      requires '\0' !in mangled && ClosedUnderHops(mangled, places, typePlaces)
      ensures Valid() && !derailed && !silent && this.mangled == mangled && this.out == out && this.beyond == beyond
      ensures this.places == places && this.typePlaces == typePlaces
      ensures st == State(0, 0, 0, -1, -1, true, false)
    {
      this.mangled, this.out, this.beyond, this.derailed, this.silent := mangled, out, beyond, false, false;
      this.places, this.typePlaces := places, typePlaces;
      st := State(0, 0, 0, -1, -1, true, false);
    }

    /** The character at the cursor plus k; the terminator is '\0'. */
    function Ch(k: nat): char
      requires st.cur + k <= |mangled|
      reads this
    {
      if st.cur + k < |mangled| then mangled[st.cur + k] else '\0'
    }

    // -------------------------------------------------------------------------
    // Tokens.

    method ParseOneCharToken(token: char) returns (ok: bool)
      requires Valid() && token != '\0'
      modifies this`st
      ensures ok ==> Is(mangled, old(st.cur), token) && st == old(st).(cur := old(st.cur) + 1)
      ensures !ok ==> st == old(st) && !Is(mangled, st.cur, token)
      ensures ok && old(st.cur) in typePlaces && IsLetter(token) ==> st.cur in typePlaces
      ensures ok && old(st.cur) in typePlaces && IsMark(token) ==> st.cur in places
    {
      if Ch(0) == token {
        PassToken(st.cur, token);
        st := st.(cur := st.cur + 1);
        return true;
      }
      return false;
    }

    method ParseTwoCharToken(first: char, second: char) returns (ok: bool)
      requires Valid() && first != '\0' && second != '\0'
      modifies this`st
      ensures ok <==> Is(mangled, old(st.cur), first) && Is(mangled, old(st.cur) + 1, second)
      ensures st == if ok then old(st).(cur := old(st.cur) + 2) else old(st)
      ensures ok && old(st.cur) in typePlaces && IsLetter(first) && IsLetter(second) ==> st.cur in typePlaces
      ensures ok && old(st.cur) in typePlaces && IsLetter(first) && IsMark(second) ==> st.cur in places
    {
      if Ch(0) == first && Ch(1) == second {
        PassToken(st.cur, first);
        PassToken(st.cur + 1, second);
        st := st.(cur := st.cur + 2);
        return true;
      }
      return false;
    }

    method ParseCharClass(charClass: string) returns (ok: bool)
      requires Valid() && '\0' !in charClass
      modifies this`st
      ensures ok ==> OneOf(mangled, old(st.cur), charClass) && st == old(st).(cur := old(st.cur) + 1)
      ensures !ok ==> st == old(st) && !OneOf(mangled, st.cur, charClass)
      ensures ok && old(st.cur) in typePlaces && IsLetter(mangled[old(st.cur)]) ==> st.cur in typePlaces
      ensures ok && old(st.cur) in typePlaces && IsMark(mangled[old(st.cur)]) ==> st.cur in places
    {
      var p := 0;
      while p < |charClass|
        invariant 0 <= p <= |charClass|
        invariant st == old(st)
        invariant st.cur < |mangled| ==> mangled[st.cur] !in charClass[..p]
      {
        if Ch(0) == charClass[p] {
          PassToken(st.cur, charClass[p]);
          st := st.(cur := st.cur + 1);
          return true;
        }
        p := p + 1;
      }
      return false;
    }

    // -------------------------------------------------------------------------
    // Output.

    /** A cell of the output buffer, or of what lies behind it. */
    function Cell(i: nat): char
      reads out
    {
      if i < out.Length then out[i] else beyond(i)
    }

    /** Every character copied is read here: until an overflow it is one of the text, or one that was written. */
    function Peek(source: Source, i: nat): char
      requires source.Text? ==> i < |source.s|
      requires source.Output? && !st.overflowed ==> source.at + i < st.outCur
      reads this`st, out
    {
      match source
      case Text(s) => s[i]
      case Output(at) => Cell(at + i)
    }

    /** Text of the given length, or a piece of that length of what was written. */
    ghost predicate Readable(source: Source, length: int)
      reads this`st
    {
      match source
      case Text(s) => length <= |s|
      case Output(at) => length > 0 && !st.overflowed ==> at + length <= st.outCur
    }

    /** The text handed over, for the cells of the output buffer as they are before it is copied. */
    ghost function TextOf(cells: seq<char>, source: Source, length: nat): (r: string)
      requires source.Text? ==> length <= |source.s|
      ensures |r| == length
    {
      match source
      case Text(s) => s[..length]
      case Output(at) => seq(length, i requires 0 <= i => if at + i < |cells| then cells[at + i] else beyond(at + i))
    }

    lemma TextStays(before: seq<char>, after: seq<char>, source: Source, length: nat)
      requires |before| == |after| && (source.Text? ==> length <= |source.s|)
      requires source.Output? ==>
                 forall k :: source.at <= k < source.at + length && k < |after| ==> before[k] == after[k]
      ensures TextOf(before, source, length) == TextOf(after, source, length)
    {
    }

    /** Copying does not overwrite what is still to be copied. */
    ghost predicate Separate(source: Source)
      reads this`st
    {
      source.Output? ==> !st.overflowed || st.outCur <= source.at
    }

    lemma PeekedText(before: seq<char>, source: Source, length: nat, start: nat, i: nat)
      requires i < length && (source.Text? ==> length <= |source.s|)
      requires source.Output? && !st.overflowed ==> source.at + i < st.outCur
      requires |before| == out.Length
      requires forall k :: 0 <= k < out.Length && !(start <= k < start + i) ==> out[k] == before[k]
      requires source.Output? ==> source.at + i < start || start <= source.at
      ensures Peek(source, i) == TextOf(before, source, length)[i]
    {
    }

    method Copy(source: Source, length: nat)
      requires st.outCur <= out.Length && length > 0 && Readable(source, length)
      modifies this`st, out
      ensures st == Appended(old(st), length, out.Length) && st.outCur <= out.Length
      ensures !st.overflowed ==> st.outCur < out.Length
      ensures forall k :: 0 <= k < old(st).outCur ==> out[k] == old(out[k])
      ensures old(Separate(source)) ==>
                forall k :: 0 <= k < st.outCur - old(st).outCur ==>
                  out[old(st).outCur + k] == TextOf(old(out[..]), source, length)[k]
    {
      ghost var start, before, separate := st.outCur, out[..], Separate(source);
      ghost var text := TextOf(before, source, length);
      var i := 0;
      while i < length
        invariant 0 <= i <= length
        invariant st == old(st).(outCur := start + i) && st.outCur <= out.Length
        invariant i > 0 ==> start + i < out.Length
        invariant forall k :: 0 <= k < out.Length && !(start <= k < start + i) ==> out[k] == before[k]
        invariant separate ==> forall k :: 0 <= k < i ==> out[start + k] == text[k]
      {
        if st.outCur + 1 < out.Length {
          if separate {
            PeekedText(before, source, length, start, i);
          }
          out[st.outCur] := Peek(source, i);
          st := st.(outCur := st.outCur + 1);
        } else {
          st := st.(overflowed := true);
          break;
        }
        i := i + 1;
      }
    }

    /** Copies as much as fits in front of a terminator; the rest is dropped and remembered as an overflow. */
    method Append(source: Source, length: nat)
      requires st.outCur <= out.Length && length > 0 && Readable(source, length)
      modifies this`st, out
      ensures st == Appended(old(st), length, out.Length) && st.outCur <= out.Length
      ensures out[..][..old(st).outCur] == old(out[..st.outCur])
      ensures old(Separate(source)) ==>
                out[..][old(st).outCur..st.outCur] == TextOf(old(out[..]), source, length)[..st.outCur - old(st).outCur]
      ensures !st.overflowed ==> st.outCur < out.Length && out[st.outCur] == '\0'
    {
      Copy(source, length);
      if !st.overflowed {
        out[st.outCur] := '\0';
      }
    }

    method MaybeAppendSpace(first: char)
      requires st.outCur <= out.Length
      modifies this`st, out
      ensures st == old(st).(outCur := st.outCur, overflowed := st.overflowed)
      ensures old(st).outCur <= st.outCur <= out.Length && (old(st).overflowed ==> st.overflowed)
      ensures forall k :: 0 <= k < old(st).outCur ==> out[k] == old(out[k])
      ensures first != '<' || old(st).outCur == 0 ==>
                st == old(st) && forall k :: 0 <= k < out.Length ==> out[k] == old(out[k])
      ensures !st.overflowed ==> out[..st.outCur] == old(out[..st.outCur] + Gap(out[..st.outCur], first))
    {
      if first == '<' && 0 < st.outCur && out[st.outCur - 1] == '<' {
        ghost var start := st.outCur;
        Append(Text(" "), 1);
        Joined(out[..], start, st.outCur, " ");
      }
    }

    /** The last identifier is remembered, as it names constructors and destructors. */
    method AppendIdentifier(source: Source, length: nat)
      requires st.outCur <= out.Length && length > 0 && Readable(source, length)
      modifies this`st, out
      ensures st == Remembered(old(st), old(Peek(source, 0)), length, out.Length) && st.outCur <= out.Length
      ensures !st.overflowed ==> st.outCur < out.Length && out[st.outCur] == '\0'
      ensures old(Separate(source)) && !st.overflowed ==>
                out[..st.outCur] == old(out[..st.outCur]) + TextOf(old(out[..]), source, length)
      ensures old(Separate(source)) && old(st).outCur == 0 ==>
                out[..st.outCur] <= TextOf(old(out[..]), source, length)
    {
      if IsAlpha(Peek(source, 0)) || Peek(source, 0) == '_' {
        st := st.(prevName := st.outCur, prevNameLength := length);
      }
      ghost var start, text := st.outCur, TextOf(out[..], source, length);
      Append(source, length);
      Joined(out[..], start, st.outCur, text);
    }

    /** The text itself, behind a space if it needs one. */
    method AppendSpaced(source: Source, length: nat)
      requires st.outCur <= out.Length && length > 0 && Readable(source, length)
      modifies this`st, out
      ensures Grown(old(st), st, out.Length)
      ensures source.Text? && source.s[0] != '<' ==> st == Remembered(old(st), source.s[0], length, out.Length)
      ensures !old(st).overflowed && !st.overflowed ==>
                var written, text := old(out[..st.outCur]), TextOf(old(out[..]), source, length);
                out[..st.outCur] == written + Gap(written, text[0]) + text
      ensures !st.overflowed ==> st.outCur < out.Length && out[st.outCur] == '\0'
      ensures old(st).outCur == 0 ==> st.outCur == Min(length, Max(0, out.Length - 1))
      ensures old(Separate(source)) && old(st).outCur == 0 ==>
                out[..st.outCur] <= TextOf(old(out[..]), source, length)
    {
      ghost var before := out[..];
      assert TextOf(before, source, length)[0] == Peek(source, 0);
      MaybeAppendSpace(Peek(source, 0));
      if old(st).outCur == 0 || !old(st).overflowed {
        TextStays(before, out[..], source, length);
      }
      RememberedGrows(st, Peek(source, 0), length, out.Length);
      AppendIdentifier(source, length);
    }

    /** Until the output overflows, only characters of the text or of what was written are copied. */
    method MaybeAppendWithLength(source: Source, length: int)
      requires Valid() && Readable(source, length)
      modifies this`st, out
      ensures Emitted(old(st), old(out[..]), st, out[..])
      ensures source.Text? && (length > 0 ==> source.s[0] != '<') ==>
        st == Written(old(st), source.s[..Max(length, 0)], out.Length)
      ensures st.append && length > 0 && !old(st).overflowed && !st.overflowed ==>
                var written, text := old(out[..st.outCur]), TextOf(old(out[..]), source, length);
                out[..st.outCur] == written + Gap(written, text[0]) + text
      ensures st.append && length > 0 && old(Separate(source)) && old(st).outCur == 0 ==>
                st.outCur == Min(length, Max(0, out.Length - 1))
                && out[..st.outCur] <= TextOf(old(out[..]), source, length)
      ensures st.append && length > 0 ==> Ended()
      ensures length <= 0 ==> st == old(st) && out[..] == old(out[..])
    {
      if st.append && length > 0 {
        AppendSpaced(source, length);
      }
    }

    method MaybeAppend(s: string)
      requires Valid()
      modifies this`st, out
      ensures Emitted(old(st), old(out[..]), st, out[..])
      ensures s != "" && s[0] != '<' ==> Added(old(st), old(out[..]), st, out[..], s)
      ensures s == "" ==> st == old(st)
      ensures s != "" ==> Ended()
    {
      if st.append {
        assert s[..|s|] == s;
        MaybeAppendWithLength(Text(s), |s|);
      }
    }

    method EnterNestedName()
      modifies this`st
      ensures st == old(st).(nestLevel := 0)
    {
      st := st.(nestLevel := 0);
    }

    method LeaveNestedName(prevValue: int)
      modifies this`st
      ensures st == old(st).(nestLevel := prevValue)
    {
      st := st.(nestLevel := prevValue);
    }

    method DisableAppend()
      modifies this`st
      ensures st == old(st).(append := false)
    {
      st := st.(append := false);
    }

    method RestoreAppend(prevValue: bool)
      modifies this`st
      ensures st == old(st).(append := prevValue)
    {
      st := st.(append := prevValue);
    }

    /** The nest level is a C short. */
    method MaybeIncreaseNestLevel()
      modifies this`st
      ensures st == old(st).(nestLevel := st.nestLevel)
      ensures 0 <= old(st.nestLevel) < 0x7fff ==> st.nestLevel == old(st.nestLevel) + 1
    {
      if st.nestLevel > -1 {
        st := st.(nestLevel := if st.nestLevel == 0x7fff then -0x8000 else st.nestLevel + 1);
      }
    }

    method MaybeAppendSeparator()
      requires Valid()
      modifies this`st, out
      ensures Emitted(old(st), old(out[..]), st, out[..])
      ensures if st.nestLevel >= 1 then Added(old(st), old(out[..]), st, out[..], "::") else st == old(st)
      ensures EndsInSeparator(st)
      ensures st.nestLevel < 1 ==> out[..] == old(out[..])
    {
      if st.nestLevel >= 1 {
        MaybeAppend("::");
      }
    }

    /** Inside a nested name, and until an overflow, there is room for a separator behind the name remembered. */
    ghost predicate EndsInSeparator(s: State)
    {
      s.nestLevel >= 1 && s.append && !s.overflowed ==> s.prevName + Max(s.prevNameLength, 0) + 2 <= s.outCur
    }

    /** Takes the two characters of a separator back. */
    method MaybeCancelLastSeparator()
      requires Valid() && EndsInSeparator(st)
      modifies this`st, out
      ensures Emitted(old(st), old(out[..]), st, out[..])
      ensures
        var cancels := st.nestLevel >= 1 && st.append && 2 <= old(st.outCur);
        && st == (if cancels then old(st).(outCur := old(st.outCur) - 2) else old(st))
        && (if cancels then st.outCur < out.Length && out[..] == old(out[..])[st.outCur := '\0']
            else out[..] == old(out[..]))
      ensures st.nestLevel >= 1 ==> Ended()
    {
      if st.nestLevel >= 1 && st.append && 2 <= st.outCur {
        st := st.(outCur := st.outCur - 2);
        out[st.outCur] := '\0';
      }
    }

    /** Whether the identifier at the cursor names an anonymous namespace. */
    predicate IdentifierIsAnonymousNamespace(length: int)
      requires st.cur <= |mangled|
      reads this
    {
      length > |ANONYMOUS| && ANONYMOUS <= mangled[st.cur..]
    }

    // -------------------------------------------------------------------------
    // Lexical nonterminals.

    /** A failed number leaves a lone sign consumed; the callers restore. */
    method ParseNumber() returns (ok: bool, number: int)
      requires Valid()
      modifies this`st
      ensures ok <==> HasNumber(mangled, old(st.cur))
      ensures ok ==> st == old(st).(cur := NumberEnd(mangled, old(st.cur)))
      ensures ok ==> number == NumberValue(mangled, old(st.cur)) && Number(mangled, old(st.cur), st.cur)
      ensures !ok ==> st == old(st).(cur := DigitsStart(mangled, old(st.cur)))
    {
      var sign := 1;
      var negative := ParseOneCharToken('n');
      if negative {
        sign := -1;
      }
      var p;
      p, number := ReadDigits();
      if p != st.cur {
        st := st.(cur := p);
        number := Wrap32(number * sign);
        return true, number;
      }
      return false, 0;
    }

    /** The digits at the cursor, without moving it. */
    method ReadDigits() returns (p: nat, number: int)
      requires Valid()
      ensures p == DigitsEnd(mangled, st.cur) && number == DigitsValue(mangled, st.cur, p)
    {
      p := st.cur;
      number := 0;
      while p < |mangled|
        invariant st.cur <= p <= |mangled|
        invariant forall k :: st.cur <= k < p ==> IsDigit(mangled[k])
        invariant number == DigitsValue(mangled, st.cur, p)
      {
        if IsDigit(mangled[p]) {
          number := Wrap32(number * 10 + (mangled[p] as int - '0' as int));
        } else {
          break;
        }
        p := p + 1;
      }
      DigitsEndIs(mangled, st.cur, p);
    }

    /** A number whose value does not matter. */
    method SkipNumber() returns (ok: bool)
      requires Valid()
      modifies this`st
      ensures InBounds(st) && st == old(st).(cur := st.cur)
      ensures ok ==> old(st.cur) < st.cur && G.Number(mangled, old(st.cur), st.cur)
    {
      var number;
      ok, number := ParseNumber();
    }

    method ParseFloatNumber() returns (ok: bool)
      requires Valid()
      modifies this`st
      ensures ok ==> old(st.cur) < st.cur && st == old(st).(cur := st.cur) && InBounds(st)
      ensures ok ==> FloatNumber(mangled, old(st.cur), st.cur)
      ensures !ok ==> st == old(st)
    {
      var p := st.cur;
      while p < |mangled| && (IsDigit(mangled[p]) || 'a' <= mangled[p] <= 'f')
        invariant st.cur <= p <= |mangled|
        invariant forall k :: st.cur <= k < p ==> IsDigit(mangled[k]) || 'a' <= mangled[k] <= 'f'
      {
        p := p + 1;
      }
      if p != st.cur {
        assert FloatNumber(mangled, st.cur, p);
        st := st.(cur := p);
        return true;
      }
      return false;
    }

    method ParseSeqId() returns (ok: bool)
      requires Valid()
      modifies this`st
      ensures ok ==> old(st.cur) < st.cur && st == old(st).(cur := st.cur) && InBounds(st)
      ensures ok ==> SeqId(mangled, old(st.cur), st.cur)
      ensures !ok ==> st == old(st)
    {
      var p := st.cur;
      while p < |mangled| && (IsDigit(mangled[p]) || 'A' <= mangled[p] <= 'Z')
        invariant st.cur <= p <= |mangled|
        invariant forall k :: st.cur <= k < p ==> IsDigit(mangled[k]) || 'A' <= mangled[k] <= 'Z'
      {
        p := p + 1;
      }
      if p != st.cur {
        assert SeqId(mangled, st.cur, p);
        st := st.(cur := p);
        return true;
      }
      return false;
    }

    /** Appends characters of the mangled name, from the cursor on. */
    method AppendMangled(length: int)
      requires Valid() && st.cur + length <= |mangled|
      modifies this`st, out
      ensures Emitted(old(st), old(out[..]), st, out[..])
      ensures length > 0 && mangled[old(st.cur)] != '<' ==>
                Added(old(st), old(out[..]), st, out[..], mangled[old(st.cur)..old(st.cur) + length])
      ensures length > 0 ==> Ended()
      ensures length <= 0 ==> st == old(st) && out[..] == old(out[..])
    {
      var text := if length > 0 then mangled[st.cur..st.cur + length] else "";
      MaybeAppendWithLength(Text(text), length);
      assert length > 0 ==> text[..length] == text;
    }

    /** A negative length other than -1 is let through and moves the cursor back. */
    method ParseIdentifier(length: int) returns (ok: bool)
      requires Valid() && (length != -1 ==> st.cur + length >= 0)
      modifies this`st, out
      ensures ok <==> length != -1 && old(st.cur) + length <= |mangled|
      ensures ok ==> st.cur == old(st.cur) + length && Emitted(old(st), old(out[..]), st.(cur := old(st.cur)), out[..])
      ensures ok && length > 0 && mangled[old(st.cur)] != '<' ==>
                Added(old(st), old(out[..]), st, out[..], IdentifierText(mangled, old(st.cur), length))
      ensures ok && length > 0 ==> Ended()
      ensures ok && length <= 0 ==> st == old(st).(cur := st.cur) && out[..] == old(out[..])
      ensures !ok ==> st == old(st) && out[..] == old(out[..])
    {
      if length == -1 || |mangled| < st.cur + length {
        return false;
      }
      if IdentifierIsAnonymousNamespace(length) {
        MaybeAppend(ANONYMOUS_TEXT);
      } else {
        AppendMangled(length);
      }
      st := st.(cur := st.cur + length);
      return true;
    }

    /** The identifier behind the number of a source name that starts at `start`. */
    method TakeIdentifier(length: int, ghost start: State) returns (ok: bool)
      requires Valid() && length >= -1 && start.cur <= |mangled| && HasNumber(mangled, start.cur)
      requires length == NumberValue(mangled, start.cur) && st == start.(cur := NumberEnd(mangled, start.cur))
      modifies this`st, out
      ensures ok <==> length != -1 && NumberEnd(mangled, start.cur) + length <= |mangled|
      ensures ok ==> st.cur == NumberEnd(mangled, start.cur) + length && (length > 0 ==> Ended())
      ensures ok ==> Emitted(start, old(out[..]), st.(cur := start.cur), out[..])
      ensures !ok ==> st == old(st) && out[..] == old(out[..])
      ensures PlainName(mangled, start.cur) ==>
                ok && Added(start, old(out[..]), st, out[..], PlainText(mangled, start.cur))
    {
      ghost var behind, before := st, out[..];
      ok := ParseIdentifier(length);
      if PlainName(mangled, start.cur) {
        AddedFrom(start, behind, before, st, out[..], PlainText(mangled, start.cur));
      }
    }

    /** Whether there is a number and no identifier of that length, as the length is below -1, comes back as well. */
    method TakeSourceName() returns (ok: bool, negative: bool)
      requires Valid()
      modifies this`st, out
      ensures ok ==> G.SourceName(mangled, old(st.cur), st.cur)
      ensures ok ==> Emitted(old(st), old(out[..]), st.(cur := old(st.cur)), out[..])
      ensures !ok ==> st == old(st) && out[..] == old(out[..])
      ensures !ok ==> forall j: nat :: !G.SourceName(mangled, old(st.cur), j)
      ensures PlainName(mangled, old(st.cur)) ==>
                && ok && st.cur == PlainEnd(mangled, old(st.cur))
                && Added(old(st), old(out[..]), st, out[..], PlainText(mangled, old(st.cur)))
      ensures ok && NumberValue(mangled, old(st.cur)) > 0 ==> Ended()
      ensures negative <==> HasNumber(mangled, old(st.cur)) && NumberValue(mangled, old(st.cur)) < -1
    {
      var copy := st;
      var length;
      ok, length := ParseNumber();
      negative := ok && length < -1;
      if ok && !negative {
        ok := TakeIdentifier(length, copy);
        if ok { return; }
      }
      ok := false;
      st := copy;
    }

    method ParseSourceName() returns (ok: bool)
      requires Valid()
      requires st.cur in places
      modifies this`st, this`derailed, this`silent, out
      ensures Step(ok, old(st), old(out[..]), st, out[..])
      ensures Spoke(ok, old(silent))
      ensures !ok ==> out[..] == old(out[..])
      ensures ok ==> G.SourceName(mangled, old(st.cur), st.cur)
      ensures !ok ==> forall j: nat :: !G.SourceName(mangled, old(st.cur), j)
      ensures PlainName(mangled, old(st.cur)) ==>
                && ok && st.cur == PlainEnd(mangled, old(st.cur))
                && Added(old(st), old(out[..]), st, out[..], PlainText(mangled, old(st.cur)))
      ensures ok ==> st.cur in places
      ensures derailed <==>
        old(derailed) || (HasNumber(mangled, old(st.cur)) && NumberValue(mangled, old(st.cur)) < -1)
      decreases |mangled| - st.cur, 0
    {
      ghost var start := st.cur;
      var negative;
      ok, negative := TakeSourceName();
      if negative {
        assert start in places && !NotNegativeAt(mangled, start);
        derailed := true;
      }
      if ok {
        assert Hop(mangled, start, st.cur);
        if NumberValue(mangled, start) == 0 {
          assert TextlessAt(start);
          silent := true;
        }
      }
    }

    /** A source name as the source reads it, whatever its length, inside the name. */
    method ParseSourceNameUnchecked() returns (ok: bool)
      requires Valid()
      requires HasNumber(mangled, st.cur) ==> NumberEnd(mangled, st.cur) + NumberValue(mangled, st.cur) >= 0
      modifies this`st, out
      ensures ok <==>
        && HasNumber(mangled, old(st.cur)) && NumberValue(mangled, old(st.cur)) != -1
        && NumberEnd(mangled, old(st.cur)) + NumberValue(mangled, old(st.cur)) <= |mangled|
      ensures ok ==> st.cur == NumberEnd(mangled, old(st.cur)) + NumberValue(mangled, old(st.cur))
      ensures ok ==> Emitted(old(st), old(out[..]), st.(cur := old(st.cur)), out[..])
      ensures ok && NumberValue(mangled, old(st.cur)) <= 0 ==>
                st == old(st).(cur := st.cur) && out[..] == old(out[..])
      ensures !ok ==> st == old(st)
      ensures InBounds(st)
    {
      var copy := st;
      var length;
      ok, length := ParseNumber();
      if ok { ok := ParseIdentifier(length); }
      if ok { return; }
      st := copy;
    }

    // -------------------------------------------------------------------------
    // Names.

    /** A failed encoding leaves the prefix consumed; the callers restore. */
    method ParseMangledName() returns (ok: bool)
      requires Valid()
      requires st.cur in typePlaces
      modifies this`st, this`derailed, this`silent, out
      ensures OnTrack() && (ok ==> Step(true, old(st), old(out[..]), st, out[..])) && Spoke(ok, old(silent))
      ensures !ok ==> st == old(st) || (old(st.cur) + 2 <= |mangled| && st == old(st).(cur := old(st.cur) + 2))
      ensures !old(st.append) ==> out[..] == old(out[..])
      ensures old(st.append) && OrdinarySymbol(mangled, old(st.cur)) ==>
                ok && SymbolTaken(old(st.cur), old(st), old(out[..]), st, out[..])
      ensures ok ==> G.MangledName(mangled, old(st.cur), st.cur)
      ensures ok ==> st.cur in typePlaces
      decreases |mangled| - st.cur, 12
    {
      var copy := st;
      ok := ParseTwoCharToken('_', 'Z');
      if ok {
        ok := ParsePrefixedEncoding(copy);
      } else if copy.append && OrdinarySymbol(mangled, copy.cur) {
        BehindPrefix(mangled, copy.cur);
      }
    }

    /** The encoding behind the prefix of a symbol that starts at `start`. */
    method ParsePrefixedEncoding(ghost start: State) returns (ok: bool)
      requires Valid()
      requires st.cur in places && st.cur == start.cur + 2 && start == st.(cur := start.cur)
      modifies this`st, this`derailed, this`silent, out
      ensures Step(ok, old(st), old(out[..]), st, out[..])
      ensures Spoke(ok, old(silent))
      ensures start.append && OrdinarySymbol(mangled, start.cur) ==>
                ok && SymbolTaken(start.cur, start, old(out[..]), st, out[..])
      ensures ok ==> G.Encoding(mangled, old(st.cur), st.cur)
      ensures ok ==> st.cur in typePlaces
      decreases |mangled| - st.cur, 12
    {
      ghost var behind, behindOut := st, out[..];
      if start.append && OrdinarySymbol(mangled, start.cur) {
        BehindPrefix(mangled, start.cur);
      }
      ok := ParseEncoding();
      if start.append && OrdinarySymbol(mangled, start.cur) {
        SymbolIsTaken(start.cur, start, behind, behindOut, st, out[..]);
      }
    }

    method ParseEncoding() returns (ok: bool)
      requires Valid()
      requires st.cur in places
      modifies this`st, this`derailed, this`silent, out
      ensures Step(ok, old(st), old(out[..]), st, out[..])
      ensures Spoke(ok, old(silent))
      ensures old(st.append) && OrdinaryEncoding(mangled, old(st.cur)) ==>
                ok && EncodingTaken(old(st.cur), old(st), old(out[..]), st, out[..])
      ensures ok ==> G.Encoding(mangled, old(st.cur), st.cur)
      ensures ok ==> st.cur in typePlaces
      decreases |mangled| - st.cur, 11
    {
      ghost var start, startOut := st, out[..];
      ghost var taken, takenOut;
      ok, taken, takenOut := ParseFunctionEncoding();
      if ok { return; }
      ok := ParseName();
      if start.append && OrdinaryEncoding(mangled, start.cur) {
        DataIsTaken(start, startOut, taken, takenOut, st, out[..]);
      }
      if !ok { ok := ParseSpecialName(); }
    }

    /** A name and parameters. If there are none, the name still stands behind the end of the output. */
    method ParseFunctionEncoding() returns (ok: bool, ghost named: State, ghost namedOut: seq<char>)
      requires Valid()
      requires st.cur in places
      modifies this`st, this`derailed, this`silent, out
      ensures Step(ok, old(st), old(out[..]), st, out[..])
      ensures Spoke(ok, old(silent))
      ensures old(st.append) && OrdinaryEncoding(mangled, old(st.cur)) ==>
                if OrdinaryEnd(mangled, old(st.cur)) < |mangled|
                then ok && EncodingTaken(old(st.cur), old(st), old(out[..]), st, out[..])
                else !ok && OrdinaryTaken(old(st), old(out[..]), named, namedOut) && out[..] == namedOut
      ensures ok ==> G.Encoding(mangled, old(st.cur), st.cur)
      ensures ok ==> st.cur in typePlaces
      decreases |mangled| - st.cur, 10
    {
      var copy := st;
      ghost var startOut := out[..];
      ok := ParseName();
      named, namedOut := st, out[..];
      if ok { ok := ParseBareFunctionType(); }
      if ok {
        if copy.append && OrdinaryEncoding(mangled, copy.cur) && OrdinaryEnd(mangled, copy.cur) < |mangled| {
          FunctionIsTaken(copy, startOut, named, namedOut, st, out[..]);
        }
        return;
      }
      st := copy;
    }

    method ParseName() returns (ok: bool)
      requires Valid()
      requires st.cur in places
      modifies this`st, this`derailed, this`silent, out
      ensures Step(ok, old(st), old(out[..]), st, out[..])
      ensures Spoke(ok, old(silent))
      ensures old(st.append) && OrdinaryName(mangled, old(st.cur)) ==>
                ok && OrdinaryTaken(old(st), old(out[..]), st, out[..])
      ensures ok ==> G.Name(mangled, old(st.cur), st.cur)
      ensures ok ==> st.cur in typePlaces
      decreases |mangled| - st.cur, 5
    {
      ok := ParseNestedName();
      if !ok { ok := ParseLocalName(); }
      if !ok { ok := ParseGlobalName(); }
    }

    /** A name outside any scope, with template arguments if it has some. */
    method ParseGlobalName() returns (ok: bool)
      requires Valid()
      requires st.cur in places
      modifies this`st, this`derailed, this`silent, out
      ensures Step(ok, old(st), old(out[..]), st, out[..])
      ensures Spoke(ok, old(silent))
      ensures old(st.append) && OrdinaryName(mangled, old(st.cur)) && PlainName(mangled, old(st.cur)) ==>
                ok && OrdinaryTaken(old(st), old(out[..]), st, out[..])
      ensures ok ==> G.Name(mangled, old(st.cur), st.cur)
      ensures ok ==> st.cur in typePlaces
      decreases |mangled| - st.cur, 5, 0
    {
      var copy := st;
      ghost var startOut := out[..];
      ok := ParseUnscopedTemplateName();
      ghost var first := st;
      if ok { ok := ParseTemplateArgs(); }
      if ok { return; }
      st := copy;
      ghost var firstOut := out[..];
      ok := ParseUnscopedName();
      if copy.append && PlainName(mangled, copy.cur) && !Is(mangled, PlainEnd(mangled, copy.cur), 'I') {
        PlainNameIsTaken(copy, startOut, first, firstOut, st, out[..]);
      }
    }

    method ParseUnscopedName() returns (ok: bool)
      requires Valid()
      requires st.cur in places
      modifies this`st, this`derailed, this`silent, out
      ensures Step(ok, old(st), old(out[..]), st, out[..])
      ensures Spoke(ok, old(silent))
      ensures PlainName(mangled, old(st.cur)) ==>
                && ok && st.cur == PlainEnd(mangled, old(st.cur))
                && Added(old(st), old(out[..]), st, out[..], PlainText(mangled, old(st.cur)))
      ensures Is(mangled, old(st.cur), 'E') ==> !ok && out[..] == old(out[..])
      ensures ok ==> G.UnscopedName(mangled, old(st.cur), st.cur)
      ensures ok ==> st.cur in places
      decreases |mangled| - st.cur, 3
    {
      ok := ParseUnqualifiedName();
      if ok { return; }
      var copy := st;
      ok := ParseTwoCharToken('S', 't');
      if ok {
        Land(copy.cur, st.cur);
        MaybeAppend("std::");
      }
      if ok { ok := ParseUnqualifiedName(); }
      if ok { return; }
      st := copy;
    }

    method ParseUnscopedTemplateName() returns (ok: bool)
      requires Valid()
      requires st.cur in places
      modifies this`st, this`derailed, this`silent, out
      ensures Step(ok, old(st), old(out[..]), st, out[..])
      ensures Spoke(ok, old(silent))
      ensures PlainName(mangled, old(st.cur)) ==>
                && ok && st.cur == PlainEnd(mangled, old(st.cur))
                && Added(old(st), old(out[..]), st, out[..], PlainText(mangled, old(st.cur)))
      ensures ok ==> G.UnscopedTemplateName(mangled, old(st.cur), st.cur)
      ensures ok ==> st.cur in places
      decreases |mangled| - st.cur, 4
    {
      ok := ParseUnscopedName();
      if !ok { ok := ParseSubstitution(); }
    }

    method ParseNestedName() returns (ok: bool)
      requires Valid()
      requires st.cur in places
      modifies this`st, this`derailed, this`silent, out
      ensures Step(ok, old(st), old(out[..]), st, out[..])
      ensures Spoke(ok, old(silent))
      ensures !Is(mangled, old(st.cur), 'N') ==> !ok && out[..] == old(out[..])
      ensures old(st.append) && NestedParts(mangled, old(st.cur)) ==>
                ok && OrdinaryTaken(old(st), old(out[..]), st, out[..])
      ensures ok ==> G.NestedName(mangled, old(st.cur), st.cur)
      ensures ok ==> st.cur in places
      decreases |mangled| - st.cur, 4
    {
      var copy := st;
      ok := ParseOneCharToken('N');
      if ok { ok := ParseNestedParts(copy); }
      if ok { return; }
      st := copy;
    }

    /** The parts of a nested name and the E behind them, one level deep. */
    method ParseNestedParts(ghost start: State) returns (ok: bool)
      requires Valid() && st.cur in places && Is(mangled, start.cur, 'N')
      requires st.cur == start.cur + 1 && start == st.(cur := start.cur)
      modifies this`st, this`derailed, this`silent, out
      ensures OnTrack() && InBounds(st) && st.append == old(st.append) && st.nestLevel == old(st.nestLevel)
      ensures !st.append ==> st == old(st).(cur := st.cur) && out[..] == old(out[..])
      ensures Spoke(ok, old(silent))
      ensures ok ==> old(st.cur) < st.cur && G.NestedName(mangled, start.cur, st.cur) && st.cur in places
      ensures st.append && NestedParts(mangled, start.cur) ==>
                ok && OrdinaryTaken(start, old(out[..]), st, out[..])
      decreases |mangled| - st.cur, 8
    {
      var level := st.nestLevel;
      ghost var inside, insideOut := st.(nestLevel := 0), out[..];
      EnterNestedName();
      ghost var k := ParseQualifiedPrefix();
      LeaveNestedName(level);
      ok := ParseOneCharToken('E');
      if start.append && NestedParts(mangled, start.cur) {
        NestedNameIsTaken(start.(nestLevel := 0), inside, insideOut, st, out[..]);
      }
      if ok && k + 1 == st.cur {
        assert EmptyNestedName(mangled, start.cur);
        assert TextlessAt(start.cur);
        silent := true;
      }
    }

    /** Both parts may be missing. */
    method ParseQualifiedPrefix() returns (ghost k: nat)
      requires Valid() && st.cur in places
      modifies this`st, this`derailed, this`silent, out
      ensures OnTrack() && InBounds(st) && old(st.cur) <= st.cur && st.append == old(st.append)
      ensures !st.append ==> st == old(st).(cur := st.cur, nestLevel := st.nestLevel) && out[..] == old(out[..])
      ensures (k == old(st.cur) || G.CVQualifiers(mangled, old(st.cur), k)) && G.Prefix(mangled, k, st.cur)
      ensures k <= st.cur && st.cur in places && (old(silent) ==> silent)
      ensures k < st.cur && Is(mangled, st.cur, 'E') ==> Ended() || silent
      ensures InParts(old(st)) ==>
                && st.cur == PartsEnd(mangled, old(st.cur))
                && GrewBy(old(st), old(out[..]), st, out[..], PartsText(mangled, old(st.cur)), 2)
      decreases |mangled| - st.cur, 7
    {
      var qualified := ParseCVQualifiers();
      k := st.cur;
      ParsePrefix();
    }

    /** Always succeeds, possibly on nothing; the nest level is the caller's to restore. */
    method ParsePrefix()
      requires Valid()
      requires st.cur in places
      modifies this`st, this`derailed, this`silent, out
      ensures OnTrack() && InBounds(st) && old(st.cur) <= st.cur && st.append == old(st.append)
      ensures !st.append ==> st == old(st).(cur := st.cur, nestLevel := st.nestLevel) && out[..] == old(out[..])
      ensures G.Prefix(mangled, old(st.cur), st.cur)
      ensures st.cur in places && (old(silent) ==> silent)
      ensures Is(mangled, st.cur, 'E') && (old(st.cur) < st.cur || old(Ended()) || old(silent)) ==> Ended() || silent
      ensures InParts(old(st)) ==>
                && st.cur == PartsEnd(mangled, old(st.cur))
                && GrewBy(old(st), old(out[..]), st, out[..], PartsText(mangled, old(st.cur)), 2)
      decreases |mangled| - st.cur, 6
    {
      var hasSomething := false;
      ghost var start, startOut, shown := st, out[..], "";
      while true
        invariant OnTrack() && InBounds(st) && st.cur in places && start.cur <= st.cur && st.append == start.append
        invariant !st.append ==> st == start.(cur := st.cur, nestLevel := st.nestLevel) && out[..] == startOut
        invariant hasSomething ==> start.cur < st.cur && G.PrefixParts(mangled, start.cur, st.cur)
        invariant !hasSomething ==> st.cur == start.cur
        invariant old(silent) ==> silent
        invariant hasSomething || old(Ended()) || old(silent) ==> Ended() || silent
        invariant InParts(start) ==>
          PartsRead(start, startOut, st, out[..], shown) && (hasSomething <==> st.nestLevel > 0)
        decreases |mangled| - st.cur
      {
        ghost var turn, turnOut := st, out[..];
        var ok := ParseSeparatedPart();
        if ok {
          hasSomething := true;
          if InParts(start) {
            shown := OneMorePart(start, startOut, turn, turnOut, st, out[..], shown);
          }
          continue;
        }
        if InParts(start) {
          NoMoreParts(start, startOut, turn, turnOut, st, out[..], shown);
        }
        if hasSomething {
          ok := ParseTemplateArgs();
          if ok {
            ParsePrefix();
            return;
          }
        }
        break;
      }
    }

    /** One turn of the prefix loop: a separator and a part behind it, or the separator is taken back. */
    method ParseSeparatedPart() returns (ok: bool)
      requires Valid()
      requires st.cur in places
      modifies this`st, this`derailed, this`silent, out
      ensures OnTrack() && InBounds(st) && st.append == old(st.append)
      ensures !st.append ==> st == old(st).(cur := st.cur, nestLevel := st.nestLevel) && out[..] == old(out[..])
      ensures if ok then old(st.cur) < st.cur && G.PrefixPart(mangled, old(st.cur), st.cur) else st.cur == old(st.cur)
      ensures st.cur in places && (old(silent) ==> silent)
      ensures ok || (Is(mangled, st.cur, 'E') && (old(Ended()) || old(silent))) ==> Ended() || silent
      ensures st.append && PlainName(mangled, old(st.cur)) && 0 <= old(st.nestLevel) < 0x7fff ==>
                ok && PartTaken(old(st), old(out[..]), st, out[..])
      ensures st.append && Is(mangled, old(st.cur), 'E') && old(st.nestLevel) > 0 ==>
                !ok && GrewBy(old(st), old(out[..]), st, out[..], "", 2)
      decreases |mangled| - st.cur, 5
    {
      ghost var start, startOut := st, out[..];
      MaybeAppendSeparator();
      ghost var middle, middleOut := st, out[..];
      ok := ParsePrefixPart();
      if ok {
        MaybeIncreaseNestLevel();
        if st.append && PlainName(mangled, start.cur) && 0 <= start.nestLevel < 0x7fff {
          PartIsTaken(start, startOut, middle, middleOut, st, out[..]);
        }
      } else {
        MaybeCancelLastSeparator();
      }
    }

    lemma PartIsTaken(a: State, aOut: seq<char>, b: State, bOut: seq<char>, c: State, cOut: seq<char>)
      requires PlainName(mangled, a.cur) && a.append && 0 <= a.nestLevel < 0x7fff
      requires if a.nestLevel >= 1 then Added(a, aOut, b, bOut, "::") else b == a && bOut == aOut
      requires c.nestLevel == a.nestLevel + 1 && c.cur == PlainEnd(mangled, a.cur)
      requires Added(b, bOut, c.(nestLevel := a.nestLevel), cOut, PlainText(mangled, a.cur))
      ensures PartTaken(a, aOut, c, cOut)
    {
      AddedIsGrowth(b, bOut, c.(nestLevel := a.nestLevel), cOut, PlainText(mangled, a.cur));
      if a.nestLevel >= 1 {
        AddedIsGrowth(a, aOut, b, bOut, "::");
        GrowsTwice(a, aOut, b, bOut, c, cOut, "::", PlainText(mangled, a.cur), 0);
      } else {
        assert "" + PlainText(mangled, a.cur) == PlainText(mangled, a.cur);
      }
    }

    /** The alternatives of a part of a prefix. */
    method ParsePrefixPart() returns (ok: bool)
      requires Valid()
      requires st.cur in places
      modifies this`st, this`derailed, this`silent, out
      ensures Step(ok, old(st), old(out[..]), st, out[..])
      ensures Spoke(ok, old(silent))
      ensures PlainName(mangled, old(st.cur)) ==>
                && ok && st.cur == PlainEnd(mangled, old(st.cur))
                && Added(old(st), old(out[..]), st, out[..], PlainText(mangled, old(st.cur)))
      ensures ok ==> G.PrefixPart(mangled, old(st.cur), st.cur)
      ensures Is(mangled, old(st.cur), 'E') ==> !ok && out[..] == old(out[..])
      ensures ok ==> st.cur in places
      decreases |mangled| - st.cur, 4
    {
      ok := ParseTemplateParam();
      if !ok { ok := ParseSubstitution(); }
      if !ok { ok := ParseUnscopedName(); }
    }

    method ParseUnqualifiedName() returns (ok: bool)
      requires Valid()
      requires st.cur in places
      modifies this`st, this`derailed, this`silent, out
      ensures Step(ok, old(st), old(out[..]), st, out[..])
      ensures Spoke(ok, old(silent))
      ensures PlainName(mangled, old(st.cur)) ==>
                && ok && st.cur == PlainEnd(mangled, old(st.cur))
                && Added(old(st), old(out[..]), st, out[..], PlainText(mangled, old(st.cur)))
      ensures Is(mangled, old(st.cur), 'E') ==> !ok && out[..] == old(out[..])
      ensures ok ==> G.UnqualifiedName(mangled, old(st.cur), st.cur)
      ensures ok ==> st.cur in places
      decreases |mangled| - st.cur, 2
    {
      ok := ParseOperatorName();
      if !ok { ok := ParseCtorDtorName(); }
      if !ok { ok := ParseSourceName(); }
      if !ok { ok := ParseLocalSourceName(); }
    }

    method ParseLocalSourceName() returns (ok: bool)
      requires Valid()
      requires st.cur in places
      modifies this`st, this`derailed, this`silent, out
      ensures Step(ok, old(st), old(out[..]), st, out[..])
      ensures Spoke(ok, old(silent))
      ensures Is(mangled, old(st.cur), 'E') ==> !ok && out[..] == old(out[..])
      ensures ok ==> G.LocalSourceName(mangled, old(st.cur), st.cur)
      ensures ok ==> st.cur in places
      decreases |mangled| - st.cur, 1
    {
      var copy := st;
      ok := ParseOneCharToken('L');
      if ok { ok := ParseSourceName(); }
      if ok {
        var discriminated := ParseDiscriminator();
        return;
      }
      st := copy;
    }

    method ParseOperatorName() returns (ok: bool)
      requires Valid()
      requires st.cur in typePlaces
      modifies this`st, this`derailed, this`silent, out
      ensures Step(ok, old(st), old(out[..]), st, out[..])
      ensures Spoke(ok, old(silent))
      ensures NoLetter(old(st.cur)) ==> !ok && out[..] == old(out[..])
      ensures ok ==> G.OperatorName(mangled, old(st.cur), st.cur)
      ensures ok ==> st.cur in places
      decreases |mangled| - st.cur, 1
    {
      if |mangled| < st.cur + 2 {
        return false;
      }
      ok := ParseCastName();
      if !ok { ok := ParseVendorOperator(); }
      if !ok { ok := ParseOperatorSymbol(); }
    }

    method ParseCastName() returns (ok: bool)
      requires Valid()
      requires st.cur in typePlaces
      modifies this`st, this`derailed, this`silent, out
      ensures Step(ok, old(st), old(out[..]), st, out[..])
      ensures Spoke(ok, old(silent))
      ensures NoLetter(old(st.cur)) ==> !ok && out[..] == old(out[..])
      ensures ok ==> G.CastName(mangled, old(st.cur), st.cur)
      ensures ok ==> st.cur in places
      decreases |mangled| - st.cur, 0
    {
      var copy := st;
      ok := ParseTwoCharToken('c', 'v');
      if ok { ok := ParseCastType(); }
      if ok {
        Land(copy.cur, st.cur);
        return;
      }
      st := copy;
    }

    /** The type of a cast, outside of any nested name. */
    method ParseCastType() returns (ok: bool)
      requires Valid()
      requires st.cur in typePlaces
      modifies this`st, this`derailed, this`silent, out
      ensures OnTrack() && (ok ==> Step(true, old(st), old(out[..]), st, out[..])) && Spoke(ok, old(silent))
      ensures !old(st.append) ==> out[..] == old(out[..])
      ensures ok ==> G.Type(mangled, old(st.cur), st.cur)
      decreases |mangled| - st.cur, 9
    {
      var level := st.nestLevel;
      MaybeAppend("operator ");
      EnterNestedName();
      ok := ParseType();
      if ok {
        LeaveNestedName(level);
      }
    }

    method ParseVendorOperator() returns (ok: bool)
      requires Valid()
      requires st.cur in typePlaces
      modifies this`st, this`derailed, this`silent, out
      ensures Step(ok, old(st), old(out[..]), st, out[..])
      ensures Spoke(ok, old(silent))
      ensures NoLetter(old(st.cur)) ==> !ok && out[..] == old(out[..])
      ensures ok ==> G.VendorOperator(mangled, old(st.cur), st.cur)
      ensures ok ==> st.cur in places
      decreases |mangled| - st.cur, 0
    {
      var copy := st;
      ok := ParseVendorMark();
      if ok { ok := ParseSourceName(); }
      if ok { return; }
      st := copy;
    }

    method ParseVendorMark() returns (ok: bool)
      requires Valid() && st.cur in typePlaces
      modifies this`st
      ensures InBounds(st) && st == old(st).(cur := st.cur)
      ensures ok ==> st.cur == old(st.cur) + 2 && st.cur in places
      ensures ok ==> Is(mangled, old(st.cur), 'v') && OneOf(mangled, old(st.cur) + 1, DIGITS)
    {
      var start := st.cur;
      ok := ParseOneCharToken('v');
      if ok { ok := ParseCharClass(DIGITS); }
      if ok {
        Land(start, st.cur);
      }
    }

    /** The two-letter operators of the table. */
    method ParseOperatorSymbol() returns (ok: bool)
      requires Valid() && st.cur + 2 <= |mangled|
      modifies this`st, out
      ensures Step(ok, old(st), old(out[..]), st, out[..])
      ensures Spoke(ok, old(silent))
      ensures !ok ==> out[..] == old(out[..])
      ensures ok ==> G.OperatorSymbol(mangled, old(st.cur), st.cur)
      ensures ok && old(st.cur) in typePlaces ==> st.cur in places
      ensures !ok ==> forall q: nat :: q < NUM_OPERATORS ==> mangled[st.cur..st.cur + 2] != Operator(q).abbrev
    {
      ok := ParseTableEntry();
      if ok && old(st.cur) in typePlaces {
        OperatorLands(old(st.cur));
      }
    }

    method ParseTableEntry() returns (ok: bool)
      requires Valid() && st.cur + 2 <= |mangled|
      modifies this`st, out
      ensures Step(ok, old(st), old(out[..]), st, out[..])
      ensures Spoke(ok, old(silent))
      ensures !ok ==> out[..] == old(out[..])
      ensures ok ==> st.cur == old(st.cur) + 2 && G.OperatorSymbol(mangled, old(st.cur), st.cur)
      ensures !ok ==> forall q: nat :: q < NUM_OPERATORS ==> mangled[st.cur..st.cur + 2] != Operator(q).abbrev
    {
      if !(IsLower(Ch(0)) && IsAlpha(Ch(1))) {
        return false;
      }
      var p;
      p := FindOperator();
      if p == NUM_OPERATORS {
        return false;
      }
      assert mangled[st.cur..st.cur + 2] == Operator(p).abbrev;
      AppendOperator(Operator(p).realName);
      st := st.(cur := st.cur + 2);
      return true;
    }

    /** The first entry of the table that starts the rest of the name. */
    method FindOperator() returns (p: nat)
      requires st.cur + 2 <= |mangled|
      ensures p < NUM_OPERATORS ==> mangled[st.cur..st.cur + 2] == Operator(p).abbrev
      ensures p >= NUM_OPERATORS ==>
        p == NUM_OPERATORS
        && forall q: nat :: q < NUM_OPERATORS ==> mangled[st.cur..st.cur + 2] != Operator(q).abbrev
    {
      p := 0;
      ghost var symbol := mangled[st.cur..st.cur + 2];
      while p < NUM_OPERATORS
        invariant 0 <= p <= NUM_OPERATORS
        invariant forall q: nat :: q < p ==> symbol != Operator(q).abbrev
      {
        var abbrev := Operator(p).abbrev;
        PairAt(mangled, st.cur, abbrev);
        if Ch(0) == abbrev[0] && Ch(1) == abbrev[1] {
          return;
        }
        p := p + 1;
      }
    }

    method AppendOperator(realName: string)
      requires Valid() && |realName| > 0
      modifies this`st, out
      ensures Emitted(old(st), old(out[..]), st, out[..]) && Ended()
    {
      MaybeAppend("operator");
      if IsLower(realName[0]) {
        MaybeAppend(" ");
      }
      MaybeAppend(realName);
    }

    // -------------------------------------------------------------------------
    // Special names and offsets.

    /** The alternatives of a special name, in the order they are tried. */
    method ParseSpecialName() returns (ok: bool)
      requires Valid()
      requires st.cur in places
      modifies this`st, this`derailed, this`silent, out
      ensures Step(ok, old(st), old(out[..]), st, out[..])
      ensures Spoke(ok, old(silent))
      ensures ok ==> G.SpecialName(mangled, old(st.cur), st.cur)
      ensures ok ==> st.cur in typePlaces
      decreases |mangled| - st.cur, 10
    {
      ok := ParseVirtualTable();
      if !ok { ok := ParseCovariantThunk(); }
      if !ok { ok := ParseGuardVariable(); }
      if !ok { ok := ParseThunk(); }
      if !ok { ok := ParseConstructionTable(); }
      if !ok { ok := ParseTypeData(); }
      if !ok { ok := ParseReferenceTemporary(); }
      if !ok { ok := ParseMarkedThunk(); }
    }

    method ParseVirtualTable() returns (ok: bool)
      requires Valid()
      requires st.cur in places
      modifies this`st, this`derailed, this`silent, out
      ensures Step(ok, old(st), old(out[..]), st, out[..])
      ensures Spoke(ok, old(silent))
      ensures ok ==> G.DataName(mangled, old(st.cur), st.cur)
      ensures ok ==> st.cur in typePlaces
      decreases |mangled| - st.cur, 8
    {
      var copy := st;
      ok := ParseOneCharToken('T');
      if ok { ok := ParseCharClass("VTIS"); }
      if ok {
        Land(copy.cur, st.cur);
        ok := ParseType();
      }
      if ok { return; }
      st := copy;
    }

    method ParseCovariantThunk() returns (ok: bool)
      requires Valid()
      requires st.cur in places
      modifies this`st, this`derailed, this`silent, out
      ensures Step(ok, old(st), old(out[..]), st, out[..])
      ensures Spoke(ok, old(silent))
      ensures ok ==> G.ThunkName(mangled, old(st.cur), st.cur)
      ensures ok ==> st.cur in typePlaces
      decreases |mangled| - st.cur, 8
    {
      var copy := st;
      ok := ParseTwoCharToken('T', 'c');
      ghost var k, l := 0, 0;
      if ok { ok, k, l := ParseTwoOffsets(copy.cur); }
      if ok { ok := ParseEncoding(); }
      if ok { return; }
      st := copy;
    }

    method ParseTwoOffsets(ghost start: nat) returns (ok: bool, ghost k: nat, ghost l: nat)
      requires Valid() && start in places && Is(mangled, start, 'T') && Is(mangled, start + 1, 'c')
      requires st.cur == start + 2
      modifies this`st
      ensures InBounds(st) && st == old(st).(cur := st.cur)
      ensures if ok then old(st.cur) < st.cur else st == old(st)
      ensures ok ==> CallOffset(mangled, old(st.cur), k) && CallOffset(mangled, k, l) && l == st.cur && l in places
    {
      var copy := st;
      ok := ParseCallOffset();
      k := st.cur;
      if ok { ok := ParseCallOffset(); }
      l := st.cur;
      if ok {
        Land(start, l);
        return;
      }
      st := copy;
    }

    method ParseGuardVariable() returns (ok: bool)
      requires Valid()
      requires st.cur in places
      modifies this`st, this`derailed, this`silent, out
      ensures Step(ok, old(st), old(out[..]), st, out[..])
      ensures Spoke(ok, old(silent))
      ensures ok ==> G.DataName(mangled, old(st.cur), st.cur)
      ensures ok ==> st.cur in typePlaces
      decreases |mangled| - st.cur, 8
    {
      var copy := st;
      ok := ParseTwoCharToken('G', 'V');
      if ok { ok := ParseName(); }
      if ok { return; }
      st := copy;
    }

    method ParseThunk() returns (ok: bool)
      requires Valid()
      requires st.cur in places
      modifies this`st, this`derailed, this`silent, out
      ensures Step(ok, old(st), old(out[..]), st, out[..])
      ensures Spoke(ok, old(silent))
      ensures ok ==> G.ThunkName(mangled, old(st.cur), st.cur)
      ensures ok ==> st.cur in typePlaces
      decreases |mangled| - st.cur, 8
    {
      var copy := st;
      ok := ParseOneCharToken('T');
      ghost var k;
      if ok { ok, k := ParseOffsetAndTarget(copy.cur); }
      if ok { return; }
      st := copy;
    }

    /** The offset behind the letters of a thunk, and the encoding of its target. */
    method ParseOffsetAndTarget(ghost start: nat) returns (ok: bool, ghost k: nat)
      requires Valid() && start in places && Is(mangled, start, 'T')
      requires st.cur == start + 1 || (st.cur == start + 2 && OneOf(mangled, start + 1, "hv"))
      modifies this`st, this`derailed, this`silent, out
      ensures Step(ok, old(st), old(out[..]), st, out[..])
      ensures Spoke(ok, old(silent))
      ensures ok ==> CallOffset(mangled, old(st.cur), k) && G.Encoding(mangled, k, st.cur)
      ensures ok ==> st.cur in typePlaces
      decreases |mangled| - st.cur, 11
    {
      var copy := st;
      ok := ParseCallOffset();
      k := st.cur;
      if ok {
        Land(start, st.cur);
        ok := ParseEncoding();
      }
      if ok { return; }
      st := copy;
    }

    method ParseTypeData() returns (ok: bool)
      requires Valid()
      requires st.cur in places
      modifies this`st, this`derailed, this`silent, out
      ensures Step(ok, old(st), old(out[..]), st, out[..])
      ensures Spoke(ok, old(silent))
      ensures ok ==> G.DataName(mangled, old(st.cur), st.cur)
      ensures ok ==> st.cur in typePlaces
      decreases |mangled| - st.cur, 8
    {
      var copy := st;
      ok := ParseOneCharToken('T');
      if ok { ok := ParseCharClass("FJ"); }
      if ok {
        Land(copy.cur, st.cur);
        ok := ParseType();
      }
      if ok { return; }
      st := copy;
    }

    method ParseReferenceTemporary() returns (ok: bool)
      requires Valid()
      requires st.cur in places
      modifies this`st, this`derailed, this`silent, out
      ensures Step(ok, old(st), old(out[..]), st, out[..])
      ensures Spoke(ok, old(silent))
      ensures ok ==> G.DataName(mangled, old(st.cur), st.cur)
      ensures ok ==> st.cur in typePlaces
      decreases |mangled| - st.cur, 9
    {
      ok := ParseTemporaryOfName();
      if !ok { ok := ParseTemporaryOfEncoding(); }
    }

    method ParseTemporaryOfName() returns (ok: bool)
      requires Valid()
      requires st.cur in places
      modifies this`st, this`derailed, this`silent, out
      ensures Step(ok, old(st), old(out[..]), st, out[..])
      ensures Spoke(ok, old(silent))
      ensures ok ==> G.DataName(mangled, old(st.cur), st.cur)
      ensures ok ==> st.cur in typePlaces
      decreases |mangled| - st.cur, 8
    {
      var copy := st;
      ok := ParseTwoCharToken('G', 'R');
      if ok { ok := ParseName(); }
      if ok { return; }
      st := copy;
    }

    method ParseTemporaryOfEncoding() returns (ok: bool)
      requires Valid()
      requires st.cur in places
      modifies this`st, this`derailed, this`silent, out
      ensures Step(ok, old(st), old(out[..]), st, out[..])
      ensures Spoke(ok, old(silent))
      ensures ok ==> G.DataName(mangled, old(st.cur), st.cur)
      ensures ok ==> st.cur in typePlaces
      decreases |mangled| - st.cur, 8
    {
      var copy := st;
      ok := ParseTwoCharToken('G', 'A');
      if ok { ok := ParseEncoding(); }
      if ok { return; }
      st := copy;
    }

    method ParseMarkedThunk() returns (ok: bool)
      requires Valid()
      requires st.cur in places
      modifies this`st, this`derailed, this`silent, out
      ensures Step(ok, old(st), old(out[..]), st, out[..])
      ensures Spoke(ok, old(silent))
      ensures ok ==> G.ThunkName(mangled, old(st.cur), st.cur)
      ensures ok ==> st.cur in typePlaces
      decreases |mangled| - st.cur, 8
    {
      var copy := st;
      ok := ParseOneCharToken('T');
      if ok { ok := ParseCharClass("hv"); }
      ghost var k;
      if ok { ok, k := ParseOffsetAndTarget(copy.cur); }
      if ok { return; }
      st := copy;
    }

    /** The alternative TC <type> <number> _ <type>, whose second type is not printed. */
    method ParseConstructionTable() returns (ok: bool)
      requires Valid()
      requires st.cur in places
      modifies this`st, this`derailed, this`silent, out
      ensures Step(ok, old(st), old(out[..]), st, out[..])
      ensures Spoke(ok, old(silent))
      ensures ok ==> G.ConstructionTable(mangled, old(st.cur), st.cur)
      ensures ok ==> st.cur in typePlaces
      decreases |mangled| - st.cur, 4
    {
      var copy := st;
      ok := ParseTwoCharToken('T', 'C');
      if ok {
        Land(copy.cur, st.cur);
        ok := ParseType();
      }
      if ok { ok := ParseTableOffset(copy.cur); }
      if ok { ok := ParseHiddenType(); }
      if ok { return; }
      st := copy;
    }

    method ParseTableOffset(ghost start: nat) returns (ok: bool)
      requires Valid() && start in places && Is(mangled, start, 'T') && Is(mangled, start + 1, 'C')
      requires start + 2 <= st.cur
      modifies this`st
      ensures InBounds(st) && st == old(st).(cur := st.cur)
      ensures ok ==> old(st.cur) < st.cur && st.cur in places
      ensures ok ==> Number(mangled, old(st.cur), st.cur - 1) && Is(mangled, st.cur - 1, '_')
    {
      ok := SkipNumber();
      if ok { ok := ParseOneCharToken('_'); }
      if ok {
        Land(start, st.cur);
      }
    }

    /** A type that is not printed. */
    method ParseHiddenType() returns (ok: bool)
      requires Valid()
      requires st.cur in typePlaces
      modifies this`st, this`derailed, this`silent, out
      ensures Step(ok, old(st), old(out[..]), st, out[..])
      ensures old(silent) ==> silent
      ensures st == old(st).(cur := st.cur) && out[..] == old(out[..])
      ensures ok ==> G.Type(mangled, old(st.cur), st.cur)
      ensures ok ==> st.cur in typePlaces
      decreases |mangled| - st.cur, 9
    {
      var copy := st;
      DisableAppend();
      ok := ParseType();
      if ok {
        RestoreAppend(copy.append);
        return;
      }
      st := copy;
    }

    method ParseCallOffset() returns (ok: bool)
      requires Valid()
      modifies this`st
      ensures InBounds(st) && st == old(st).(cur := st.cur)
      ensures if ok then old(st.cur) < st.cur else st == old(st)
      ensures ok ==> G.CallOffset(mangled, old(st.cur), st.cur)
    {
      ok := ParseNonVirtualOffset();
      if !ok { ok := ParseVirtualOffset(); }
    }

    method ParseNonVirtualOffset() returns (ok: bool)
      requires Valid()
      modifies this`st
      ensures InBounds(st) && st == old(st).(cur := st.cur)
      ensures if ok then old(st.cur) < st.cur else st == old(st)
      ensures ok ==> G.CallOffset(mangled, old(st.cur), st.cur)
    {
      var copy := st;
      ok := ParseOneCharToken('h');
      if ok { ok := ParseNVOffset(); }
      if ok { ok := ParseOneCharToken('_'); }
      if ok { return; }
      st := copy;
    }

    method ParseVirtualOffset() returns (ok: bool)
      requires Valid()
      modifies this`st
      ensures InBounds(st) && st == old(st).(cur := st.cur)
      ensures if ok then old(st.cur) < st.cur else st == old(st)
      ensures ok ==> G.CallOffset(mangled, old(st.cur), st.cur)
    {
      var copy := st;
      ok := ParseOneCharToken('v');
      if ok { ok := ParseVOffset(); }
      if ok { ok := ParseOneCharToken('_'); }
      if ok { return; }
      st := copy;
    }

    method ParseNVOffset() returns (ok: bool)
      requires Valid()
      modifies this`st
      ensures InBounds(st) && st == old(st).(cur := st.cur)
      ensures ok ==> old(st.cur) < st.cur && G.Number(mangled, old(st.cur), st.cur)
    {
      ok := SkipNumber();
    }

    method ParseVOffset() returns (ok: bool)
      requires Valid()
      modifies this`st
      ensures InBounds(st) && st == old(st).(cur := st.cur)
      ensures if ok then old(st.cur) < st.cur else st == old(st)
      ensures ok ==> G.VOffset(mangled, old(st.cur), st.cur)
      decreases |mangled| - st.cur, 0
    {
      var copy := st;
      ok := SkipNumber();
      if ok { ok := ParseOneCharToken('_'); }
      if ok { ok := SkipNumber(); }
      if ok { return; }
      st := copy;
    }

    /**
     * A constructor is printed as the name remembered, which until an overflow is a piece of what was written. Once
     * separators of a text that has overflowed are taken back, it is whatever lies there.
     */
    ghost predicate Named(ok: bool, a: State, aOut: seq<char>, b: State, bOut: seq<char>)
      requires a.outCur <= |aOut| == out.Length && b.outCur <= |bOut|
    {
      && (OneOf(mangled, a.cur + 1, "123") ==> ok)
      && (ok && a.append && a.prevNameLength > 0 ==>
            var text := TextOf(aOut, Output(a.prevName), a.prevNameLength);
            && (!a.overflowed && !b.overflowed ==>
                  bOut[..b.outCur] == aOut[..a.outCur] + Gap(aOut[..a.outCur], text[0]) + text)
            && (a.outCur == 0 ==>
                  b.outCur == Min(a.prevNameLength, Max(0, out.Length - 1)) && bOut[..b.outCur] <= text))
    }

    method ParseCtorDtorName() returns (ok: bool)
      requires Valid()
      modifies this`st, this`silent, out
      ensures Step(ok, old(st), old(out[..]), st, out[..])
      ensures Spoke(ok, old(silent))
      ensures !ok ==> out[..] == old(out[..])
      ensures ok ==> G.CtorDtorName(mangled, old(st.cur), st.cur)
      ensures Is(mangled, old(st.cur), 'C') ==> Named(ok, old(st), old(out[..]), st, out[..])
      ensures ok && old(st.cur) in typePlaces ==> st.cur in places
      decreases |mangled| - st.cur, 0
    {
      ok := ParseCtorName();
      if !ok { ok := ParseDtorName(); }
      if ok && old(st.cur) in typePlaces {
        Land(old(st.cur), st.cur);
      }
    }

    method ParseCtorName() returns (ok: bool)
      requires Valid()
      modifies this`st, this`silent, out
      ensures Step(ok, old(st), old(out[..]), st, out[..])
      ensures Spoke(ok, old(silent))
      ensures !ok ==> out[..] == old(out[..])
      ensures ok ==> G.CtorDtorName(mangled, old(st.cur), st.cur)
      ensures Is(mangled, old(st.cur), 'C') ==> Named(ok, old(st), old(out[..]), st, out[..])
    {
      var copy := st;
      ok := ParseOneCharToken('C');
      if ok { ok := ParseCharClass("123"); }
      if ok {
        if st.prevNameLength <= 0 {
          assert TextlessAt(copy.cur);
          silent := true;
        }
        MaybeAppendWithLength(Output(st.prevName), st.prevNameLength);
        return;
      }
      st := copy;
    }

    method ParseDtorName() returns (ok: bool)
      requires Valid()
      modifies this`st, out
      ensures Step(ok, old(st), old(out[..]), st, out[..])
      ensures Spoke(ok, old(silent))
      ensures !ok ==> out[..] == old(out[..])
      ensures ok ==> G.CtorDtorName(mangled, old(st.cur), st.cur)
    {
      var copy := st;
      ok := ParseOneCharToken('D');
      if ok { ok := ParseCharClass("012"); }
      if ok {
        var prevName, prevNameLength := st.prevName, st.prevNameLength;
        MaybeAppend("~");
        MaybeAppendWithLength(Output(prevName), prevNameLength);
        return;
      }
      st := copy;
    }

    // -------------------------------------------------------------------------
    // Types.

    method ParseType() returns (ok: bool)
      requires Valid()
      requires st.cur in typePlaces
      modifies this`st, this`derailed, this`silent, out
      ensures Step(ok, old(st), old(out[..]), st, out[..])
      ensures Spoke(ok, old(silent))
      ensures OneOf(mangled, old(st.cur), BUILTIN_TYPES) ==> ok && st.cur == old(st.cur) + 1
      ensures ok ==> G.Type(mangled, old(st.cur), st.cur)
      ensures ok ==> st.cur in typePlaces
      decreases |mangled| - st.cur, 8
    {
      ok := ParseMarkedType();
      if ok {
        MarkedIsNoLetter(mangled, old(st.cur), st.cur);
        return;
      }
      ok := ParsePlainType();
      if !ok { ok := ParseParameterType(); }
    }

    /** The alternatives of a type that start with a mark and end with a further type or an expression. */
    method ParseMarkedType() returns (ok: bool)
      requires Valid()
      requires st.cur in typePlaces
      modifies this`st, this`derailed, this`silent, out
      ensures Step(ok, old(st), old(out[..]), st, out[..])
      ensures Spoke(ok, old(silent))
      ensures ok ==> G.QualifiedType(mangled, old(st.cur), st.cur) || G.ExtendedType(mangled, old(st.cur), st.cur)
      ensures ok ==> st.cur in typePlaces
      decreases |mangled| - st.cur, 7
    {
      ok := ParseQualifiedType();
      if !ok { ok := ParseDerivedType(); }
      if !ok { ok := ParsePackExpansion(); }
      if !ok { ok := ParseDecltype(); }
      if !ok { ok := ParseVendorQualifiedType(); }
    }

    /** A template parameter, with arguments if it is a template itself. */
    method ParseParameterType() returns (ok: bool)
      requires Valid()
      requires st.cur in typePlaces
      modifies this`st, this`derailed, this`silent, out
      ensures Step(ok, old(st), old(out[..]), st, out[..])
      ensures Spoke(ok, old(silent))
      ensures ok ==> G.Type(mangled, old(st.cur), st.cur)
      ensures ok ==> st.cur in typePlaces
      decreases |mangled| - st.cur, 7
    {
      var copy := st;
      ok := ParseTemplateTemplateParam();
      if ok { ok := ParseTemplateArgs(); }
      if ok { return; }
      st := copy;
      ok := ParseTemplateParam();
    }

    method ParseQualifiedType() returns (ok: bool)
      requires Valid()
      requires st.cur in typePlaces
      modifies this`st, this`derailed, this`silent, out
      ensures Step(ok, old(st), old(out[..]), st, out[..])
      ensures Spoke(ok, old(silent))
      ensures ok ==> G.QualifiedType(mangled, old(st.cur), st.cur)
      ensures ok ==> st.cur in typePlaces
      decreases |mangled| - st.cur, 6
    {
      var copy := st;
      ok := ParseCVQualifiers();
      if ok { ok := ParseType(); }
      if ok { return; }
      st := copy;
    }

    method ParseDerivedType() returns (ok: bool)
      requires Valid()
      requires st.cur in typePlaces
      modifies this`st, this`derailed, this`silent, out
      ensures Step(ok, old(st), old(out[..]), st, out[..])
      ensures Spoke(ok, old(silent))
      ensures ok ==> G.QualifiedType(mangled, old(st.cur), st.cur)
      ensures ok ==> st.cur in typePlaces
      decreases |mangled| - st.cur, 6
    {
      var copy := st;
      ok := ParseCharClass("OPRCG");
      if ok { ok := ParseType(); }
      if ok { return; }
      st := copy;
    }

    method ParsePackExpansion() returns (ok: bool)
      requires Valid()
      requires st.cur in typePlaces
      modifies this`st, this`derailed, this`silent, out
      ensures Step(ok, old(st), old(out[..]), st, out[..])
      ensures Spoke(ok, old(silent))
      ensures ok ==> G.QualifiedType(mangled, old(st.cur), st.cur)
      ensures ok ==> st.cur in typePlaces
      decreases |mangled| - st.cur, 6
    {
      var copy := st;
      ok := ParseTwoCharToken('D', 'p');
      if ok { ok := ParseType(); }
      if ok { return; }
      st := copy;
    }

    method ParseDecltype() returns (ok: bool)
      requires Valid()
      requires st.cur in typePlaces
      modifies this`st, this`derailed, this`silent, out
      ensures Step(ok, old(st), old(out[..]), st, out[..])
      ensures Spoke(ok, old(silent))
      ensures ok ==> G.ExtendedType(mangled, old(st.cur), st.cur)
      ensures ok ==> st.cur in typePlaces
      decreases |mangled| - st.cur, 6
    {
      var copy := st;
      ok := ParseDecltypeMark();
      if ok { ok := ParseExpression(); }
      if ok { ok := ParseOneCharToken('E'); }
      if ok { return; }
      st := copy;
    }

    method ParseDecltypeMark() returns (ok: bool)
      requires Valid() && st.cur in typePlaces
      modifies this`st
      ensures InBounds(st) && st == old(st).(cur := st.cur)
      ensures ok ==> st.cur == old(st.cur) + 2 && st.cur in typePlaces
      ensures ok ==> Is(mangled, old(st.cur), 'D') && OneOf(mangled, old(st.cur) + 1, "tT")
    {
      var start := st.cur;
      ok := ParseOneCharToken('D');
      if ok { ok := ParseCharClass("tT"); }
      if ok && mangled[start + 1] == 'T' {
        Land(start, st.cur);
      }
    }

    method ParseVendorQualifiedType() returns (ok: bool)
      requires Valid()
      requires st.cur in typePlaces
      modifies this`st, this`derailed, this`silent, out
      ensures Step(ok, old(st), old(out[..]), st, out[..])
      ensures Spoke(ok, old(silent))
      ensures ok ==> G.ExtendedType(mangled, old(st.cur), st.cur)
      ensures ok ==> st.cur in typePlaces
      decreases |mangled| - st.cur, 6
    {
      var copy := st;
      ok := ParseOneCharToken('U');
      if ok { ok := ParseSourceName(); }
      if ok { ok := ParseType(); }
      if ok { return; }
      st := copy;
    }

    /** The alternatives of a type that are a single nonterminal. */
    method ParsePlainType() returns (ok: bool)
      requires Valid()
      requires st.cur in typePlaces
      modifies this`st, this`derailed, this`silent, out
      ensures Step(ok, old(st), old(out[..]), st, out[..])
      ensures Spoke(ok, old(silent))
      ensures OneOf(mangled, old(st.cur), BUILTIN_TYPES) ==> ok && st.cur == old(st.cur) + 1
      ensures ok ==> G.PlainType(mangled, old(st.cur), st.cur)
      ensures ok ==> st.cur in typePlaces
      decreases |mangled| - st.cur, 7
    {
      ok := ParseBuiltinType();
      if ok { return; }
      NotASign(st.cur);
      ok := ParseFunctionType();
      if !ok { ok := ParseClassEnumType(); }
      if !ok { ok := ParseArrayType(); }
      if !ok { ok := ParsePointerToMemberType(); }
      if !ok { ok := ParseSubstitution(); }
    }

    method ParseCVQualifiers() returns (ok: bool)
      requires Valid()
      modifies this`st
      ensures ok ==> old(st.cur) < st.cur && st == old(st).(cur := st.cur) && InBounds(st)
      ensures ok ==> G.CVQualifiers(mangled, old(st.cur), st.cur)
      ensures !ok ==> st == old(st)
      ensures ok && old(st.cur) in typePlaces ==> st.cur in places
    {
      var r := ParseOneCharToken('r');
      var v := ParseOneCharToken('V');
      var k := ParseOneCharToken('K');
      return r || v || k;
    }

    method ParseBuiltinType() returns (ok: bool)
      requires Valid()
      requires st.cur in typePlaces
      modifies this`st, this`derailed, this`silent, out
      ensures Step(ok, old(st), old(out[..]), st, out[..])
      ensures Spoke(ok, old(silent))
      ensures OneOf(mangled, old(st.cur), BUILTIN_TYPES) ==> ok && st.cur == old(st.cur) + 1
      ensures ok ==> G.BuiltinType(mangled, old(st.cur), st.cur)
      ensures ok ==> st.cur in typePlaces
      ensures !ok ==> !Is(mangled, st.cur, 'n')
      decreases |mangled| - st.cur, 1
    {
      ok := ParseBuiltinLetter();
      if ok { return; }
      var copy := st;
      ok := ParseOneCharToken('u');
      if ok { ok := ParseSourceName(); }
      if ok { return; }
      st := copy;
    }

    /** The letters of the table; a sign in front of a digit is one of them. */
    method ParseBuiltinLetter() returns (ok: bool)
      requires Valid() && st.cur in typePlaces
      modifies this`st, out
      ensures Step(ok, old(st), old(out[..]), st, out[..])
      ensures Spoke(ok, old(silent))
      ensures OneOf(mangled, old(st.cur), BUILTIN_TYPES) ==> ok && st.cur == old(st.cur) + 1
      ensures ok ==> OneOf(mangled, old(st.cur), BUILTIN_TYPES) && st.cur == old(st.cur) + 1 && st.cur in typePlaces
      ensures !ok ==> !Is(mangled, st.cur, 'n')
    {
      var text;
      ok, text := FindBuiltinType();
      if ok {
        PassLetter(st.cur);
        MaybeAppend(text);
        st := st.(cur := st.cur + 1);
      }
    }

    method FindBuiltinType() returns (ok: bool, text: string)
      requires Valid()
      ensures ok <==> OneOf(mangled, st.cur, BUILTIN_TYPES)
      ensures ok ==> text != "" && IsLetter(mangled[st.cur])
      ensures !ok ==> !Is(mangled, st.cur, 'n')
    {
      var p := 0;
      while p < |BUILTIN_TYPES|
        invariant 0 <= p <= |BUILTIN_TYPES|
        invariant forall q :: 0 <= q < p ==> !Is(mangled, st.cur, BUILTIN_TYPES[q])
      {
        if Ch(0) == BUILTIN_TYPES[p] && st.cur < |mangled| {
          BuiltinHasText(p);
          return true, BUILTIN_TEXTS[p];
        }
        p := p + 1;
      }
      assert BUILTIN_TYPES[14] == 'n';
      return false, "";
    }

    method ParseFunctionType() returns (ok: bool)
      requires Valid()
      requires st.cur in typePlaces
      modifies this`st, this`derailed, this`silent, out
      ensures Step(ok, old(st), old(out[..]), st, out[..])
      ensures Spoke(ok, old(silent))
      ensures ok ==> G.FunctionType(mangled, old(st.cur), st.cur)
      ensures ok ==> st.cur in typePlaces
      decreases |mangled| - st.cur, 4
    {
      var copy := st;
      ok := ParseOneCharToken('F');
      if ok {
        var external := ParseOneCharToken('Y');
        ok := ParseBareFunctionType();
      }
      if ok { ok := ParseOneCharToken('E'); }
      if ok { return; }
      st := copy;
    }

    method ParseBareFunctionType() returns (ok: bool)
      requires Valid()
      requires st.cur in typePlaces
      modifies this`st, this`derailed, this`silent, out
      ensures Step(ok, old(st), old(out[..]), st, out[..])
      ensures Spoke(ok, old(silent))
      ensures OnlyLetters(mangled, old(st.cur)) && old(st.cur) < |mangled| ==>
                ok && st.cur == |mangled| && (old(st.append) ==> Added(old(st), old(out[..]), st, out[..], "()"))
      ensures !ok ==> out[..] == old(out[..])
      ensures ok ==> G.BareFunctionType(mangled, old(st.cur), st.cur)
      ensures ok ==> st.cur in typePlaces
      decreases |mangled| - st.cur, 10
    {
      var copy := st;
      DisableAppend();
      ok := OneOrMoreTypes();
      if ok {
        RestoreAppend(copy.append);
        MaybeAppend("()");
        return;
      }
      st := copy;
    }

    /** One or more types, as many as there are. */
    method OneOrMoreTypes() returns (ok: bool)
      requires Valid()
      requires st.cur in typePlaces
      modifies this`st, this`derailed, this`silent, out
      ensures Step(ok, old(st), old(out[..]), st, out[..])
      ensures old(silent) ==> silent
      ensures OnlyLetters(mangled, old(st.cur)) && old(st.cur) < |mangled| ==> ok && st.cur == |mangled|
      ensures ok ==> G.BareFunctionType(mangled, old(st.cur), st.cur)
      ensures ok ==> st.cur in typePlaces
      decreases |mangled| - st.cur, 9
    {
      ghost var start, startOut := st, out[..];
      ok := ParseType();
      var more := ok;
      while more
        invariant (ok ==> st.cur in typePlaces) && (old(silent) ==> silent)
        invariant ok ==> Step(true, start, startOut, st, out[..]) && G.BareFunctionType(mangled, start.cur, st.cur)
        invariant !ok ==> Step(false, start, startOut, st, out[..]) && !more
        invariant OnlyLetters(mangled, start.cur) && start.cur < |mangled| ==> ok && (!more ==> st.cur == |mangled|)
        decreases |mangled| - st.cur, more
      {
        more := ParseType();
      }
    }

    method ParseClassEnumType() returns (ok: bool)
      requires Valid()
      requires st.cur in places
      modifies this`st, this`derailed, this`silent, out
      ensures Step(ok, old(st), old(out[..]), st, out[..])
      ensures Spoke(ok, old(silent))
      ensures ok ==> G.Name(mangled, old(st.cur), st.cur)
      ensures ok ==> st.cur in typePlaces
      decreases |mangled| - st.cur, 6
    {
      ok := ParseName();
    }

    method ParseArrayElement() returns (ok: bool)
      requires Valid()
      requires Is(mangled, st.cur, '_') ==> st.cur + 1 in places
      modifies this`st, this`derailed, this`silent, out
      ensures Step(ok, old(st), old(out[..]), st, out[..])
      ensures Spoke(ok, old(silent))
      ensures ok ==> G.ArrayElement(mangled, old(st.cur), st.cur)
      ensures ok ==> st.cur in typePlaces
      decreases |mangled| - st.cur, 4
    {
      var copy := st;
      ok := ParseOneCharToken('_');
      if ok { ok := ParseType(); }
      if ok { return; }
      st := copy;
    }

    method ParseArrayType() returns (ok: bool)
      requires Valid()
      requires st.cur in typePlaces
      modifies this`st, this`derailed, this`silent, out
      ensures Step(ok, old(st), old(out[..]), st, out[..])
      ensures Spoke(ok, old(silent))
      ensures ok ==> G.ArrayType(mangled, old(st.cur), st.cur)
      ensures ok ==> st.cur in typePlaces
      decreases |mangled| - st.cur, 4
    {
      var copy := st;
      ok := ParseOneCharToken('A');
      if ok { ok := SkipNumber(); }
      if ok {
        if Is(mangled, st.cur, '_') {
          Land(copy.cur, st.cur + 1);
        }
        ok := ParseArrayElement();
      }
      if ok { return; }
      st := copy;
      ok := ParseDynamicArrayType();
    }

    method ParseDynamicArrayType() returns (ok: bool)
      requires Valid()
      requires st.cur in typePlaces
      modifies this`st, this`derailed, this`silent, out
      ensures Step(ok, old(st), old(out[..]), st, out[..])
      ensures Spoke(ok, old(silent))
      ensures ok ==> G.ArrayType(mangled, old(st.cur), st.cur)
      ensures ok ==> st.cur in typePlaces
      decreases |mangled| - st.cur, 3
    {
      var copy := st;
      ok := ParseOneCharToken('A');
      if ok {
        var dimensioned := ParseExpression();
        if Is(mangled, st.cur, '_') {
          PassLetter(st.cur);
        }
        ok := ParseArrayElement();
      }
      if ok { return; }
      st := copy;
    }

    method ParsePointerToMemberType() returns (ok: bool)
      requires Valid()
      requires st.cur in typePlaces
      modifies this`st, this`derailed, this`silent, out
      ensures Step(ok, old(st), old(out[..]), st, out[..])
      ensures Spoke(ok, old(silent))
      ensures ok ==> G.PointerToMemberType(mangled, old(st.cur), st.cur)
      ensures ok ==> st.cur in typePlaces
      decreases |mangled| - st.cur, 4
    {
      var copy := st;
      ok := ParseOneCharToken('M');
      if ok { ok := ParseType(); }
      if ok { ok := ParseType(); }
      if ok { return; }
      st := copy;
    }

    // -------------------------------------------------------------------------
    // Templates and expressions.

    method ParseTemplateParam() returns (ok: bool)
      requires Valid()
      modifies this`st, out
      ensures Step(ok, old(st), old(out[..]), st, out[..])
      ensures Spoke(ok, old(silent))
      ensures !ok ==> out[..] == old(out[..])
      ensures ok ==> G.TemplateParam(mangled, old(st.cur), st.cur)
      ensures ok && old(st.cur) in typePlaces ==> st.cur in places
      decreases |mangled| - st.cur, 0
    {
      ok := ParseTwoCharToken('T', '_');
      if ok { MaybeAppend("?"); }
      if !ok { ok := ParseNumberedParam(); }
      if ok && old(st.cur) in typePlaces {
        Land(old(st.cur), st.cur);
      }
    }

    method ParseNumberedParam() returns (ok: bool)
      requires Valid()
      modifies this`st, out
      ensures Step(ok, old(st), old(out[..]), st, out[..])
      ensures Spoke(ok, old(silent))
      ensures !ok ==> out[..] == old(out[..])
      ensures ok ==> G.TemplateParam(mangled, old(st.cur), st.cur)
    {
      var copy := st;
      ok := ParseOneCharToken('T');
      if ok { ok := SkipNumber(); }
      if ok { ok := ParseOneCharToken('_'); }
      if ok {
        MaybeAppend("?");
        return;
      }
      st := copy;
    }

    method ParseTemplateTemplateParam() returns (ok: bool)
      requires Valid()
      modifies this`st, out
      ensures Step(ok, old(st), old(out[..]), st, out[..])
      ensures Spoke(ok, old(silent))
      ensures ok ==> G.TemplateTemplateParam(mangled, old(st.cur), st.cur)
      ensures ok && old(st.cur) in typePlaces ==> st.cur in places
      decreases |mangled| - st.cur, 1
    {
      ok := ParseTemplateParam();
      if !ok { ok := ParseSubstitution(); }
    }

    method ParseTemplateArgs() returns (ok: bool)
      requires Valid()
      requires st.cur in typePlaces
      modifies this`st, this`derailed, this`silent, out
      ensures Step(ok, old(st), old(out[..]), st, out[..])
      ensures Spoke(ok, old(silent))
      ensures !ok ==> out[..] == old(out[..])
      ensures ok ==> G.TemplateArgs(mangled, old(st.cur), st.cur)
      ensures ok ==> st.cur in places
      decreases |mangled| - st.cur, 4
    {
      var copy := st;
      DisableAppend();
      ok := ParseOneCharToken('I');
      if ok { ok := OneOrMoreTemplateArgs(); }
      if ok { ok := ParseOneCharToken('E'); }
      if ok {
        RestoreAppend(copy.append);
        MaybeAppend("<>");
        return;
      }
      st := copy;
    }

    /** One or more template arguments, as many as there are. */
    method OneOrMoreTemplateArgs() returns (ok: bool)
      requires Valid()
      requires st.cur in typePlaces
      modifies this`st, this`derailed, this`silent, out
      ensures Step(ok, old(st), old(out[..]), st, out[..])
      ensures old(silent) ==> silent
      ensures ok ==> G.TemplateArgList(mangled, old(st.cur), st.cur)
      ensures ok ==> st.cur in typePlaces
      decreases |mangled| - st.cur, 10
    {
      ghost var start, startOut := st, out[..];
      ok := ParseTemplateArg();
      var more := ok;
      while more
        invariant (ok ==> st.cur in typePlaces) && (old(silent) ==> silent)
        invariant ok ==> Step(true, start, startOut, st, out[..]) && G.TemplateArgList(mangled, start.cur, st.cur)
        invariant !ok ==> Step(false, start, startOut, st, out[..]) && !more
        decreases |mangled| - st.cur, more
      {
        more := ParseTemplateArg();
      }
    }

    method ParseTemplateArg() returns (ok: bool)
      requires Valid()
      requires st.cur in typePlaces
      modifies this`st, this`derailed, this`silent, out
      ensures Step(ok, old(st), old(out[..]), st, out[..])
      ensures old(silent) ==> silent
      ensures ok ==> G.TemplateArg(mangled, old(st.cur), st.cur)
      ensures ok ==> st.cur in typePlaces
      decreases |mangled| - st.cur, 9
    {
      ok := ParseArgumentPack();
      if !ok { ok := ParseType(); }
      if !ok { ok := ParseExprPrimary(); }
      if !ok { ok := ParseArgumentExpression(); }
    }

    method ParseArgumentExpression() returns (ok: bool)
      requires Valid()
      requires st.cur in typePlaces
      modifies this`st, this`derailed, this`silent, out
      ensures Step(ok, old(st), old(out[..]), st, out[..])
      ensures old(silent) ==> silent
      ensures ok ==> G.TemplateArg(mangled, old(st.cur), st.cur)
      ensures ok ==> st.cur in typePlaces
      decreases |mangled| - st.cur, 8
    {
      var copy := st;
      ok := ParseOneCharToken('X');
      if ok { ok := ParseExpression(); }
      if ok { ok := ParseOneCharToken('E'); }
      if ok { return; }
      st := copy;
    }

    method ParseArgumentPack() returns (ok: bool)
      requires Valid()
      requires st.cur in typePlaces
      modifies this`st, this`derailed, this`silent, out
      ensures Step(ok, old(st), old(out[..]), st, out[..])
      ensures old(silent) ==> silent
      ensures ok ==> G.TemplateArg(mangled, old(st.cur), st.cur)
      ensures ok ==> st.cur in typePlaces
      decreases |mangled| - st.cur, 8
    {
      var copy := st;
      ok := ParseOneCharToken('I');
      if ok {
        // Zero or more arguments: failing to find one is no failure.
        var some := OneOrMoreTemplateArgs();
        ok := ParseOneCharToken('E');
      }
      if ok { return; }
      st := copy;
    }

    method ParseExpression() returns (ok: bool)
      requires Valid()
      requires st.cur in typePlaces
      modifies this`st, this`derailed, this`silent, out
      ensures Step(ok, old(st), old(out[..]), st, out[..])
      ensures Spoke(ok, old(silent))
      ensures ok ==> G.Expression(mangled, old(st.cur), st.cur)
      ensures ok ==> st.cur in typePlaces
      decreases |mangled| - st.cur, 8
    {
      ok := ParseTemplateParam();
      if !ok { ok := ParseExprPrimary(); }
      if !ok { ok := ParseTernaryExpression(); }
      if !ok { ok := ParseBinaryExpression(); }
      if !ok { ok := ParseUnaryExpression(); }
      if !ok { ok := ParseSizeofExpression(); }
      if !ok { ok := ParseScopedTemplate(); }
      if !ok { ok := ParseScopedName(); }
    }

    method ParseTernaryExpression() returns (ok: bool)
      requires Valid()
      requires st.cur in typePlaces
      modifies this`st, this`derailed, this`silent, out
      ensures Step(ok, old(st), old(out[..]), st, out[..])
      ensures Spoke(ok, old(silent))
      ensures ok ==> G.OperatorExpression(mangled, old(st.cur), st.cur)
      ensures ok ==> st.cur in typePlaces
      decreases |mangled| - st.cur, 7
    {
      var copy := st;
      ok := ParseOperatorName();
      if ok { ok := ParseExpression(); }
      if ok { ok := ParseExpression(); }
      if ok { ok := ParseExpression(); }
      if ok { return; }
      st := copy;
    }

    method ParseBinaryExpression() returns (ok: bool)
      requires Valid()
      requires st.cur in typePlaces
      modifies this`st, this`derailed, this`silent, out
      ensures Step(ok, old(st), old(out[..]), st, out[..])
      ensures Spoke(ok, old(silent))
      ensures ok ==> G.OperatorExpression(mangled, old(st.cur), st.cur)
      ensures ok ==> st.cur in typePlaces
      decreases |mangled| - st.cur, 7
    {
      var copy := st;
      ok := ParseOperatorName();
      if ok { ok := ParseExpression(); }
      if ok { ok := ParseExpression(); }
      if ok { return; }
      st := copy;
    }

    method ParseUnaryExpression() returns (ok: bool)
      requires Valid()
      requires st.cur in typePlaces
      modifies this`st, this`derailed, this`silent, out
      ensures Step(ok, old(st), old(out[..]), st, out[..])
      ensures Spoke(ok, old(silent))
      ensures ok ==> G.OperatorExpression(mangled, old(st.cur), st.cur)
      ensures ok ==> st.cur in typePlaces
      decreases |mangled| - st.cur, 7
    {
      var copy := st;
      ok := ParseOperatorName();
      if ok { ok := ParseExpression(); }
      if ok { return; }
      st := copy;
    }

    method ParseSizeofExpression() returns (ok: bool)
      requires Valid()
      requires st.cur in typePlaces
      modifies this`st, this`derailed, this`silent, out
      ensures Step(ok, old(st), old(out[..]), st, out[..])
      ensures Spoke(ok, old(silent))
      ensures ok ==> G.ScopedExpression(mangled, old(st.cur), st.cur)
      ensures ok ==> st.cur in typePlaces
      decreases |mangled| - st.cur, 7
    {
      var copy := st;
      ok := ParseTwoCharToken('s', 't');
      if ok { ok := ParseType(); }
      if ok { return; }
      st := copy;
    }

    method ParseScopedTemplate() returns (ok: bool)
      requires Valid()
      requires st.cur in typePlaces
      modifies this`st, this`derailed, this`silent, out
      ensures Step(ok, old(st), old(out[..]), st, out[..])
      ensures Spoke(ok, old(silent))
      ensures ok ==> G.ScopedExpression(mangled, old(st.cur), st.cur)
      ensures ok ==> st.cur in typePlaces
      decreases |mangled| - st.cur, 7
    {
      var copy := st;
      ok := ParseScopedName();
      if ok { ok := ParseTemplateArgs(); }
      if ok { return; }
      st := copy;
    }

    method ParseScopedName() returns (ok: bool)
      requires Valid()
      requires st.cur in typePlaces
      modifies this`st, this`derailed, this`silent, out
      ensures Step(ok, old(st), old(out[..]), st, out[..])
      ensures Spoke(ok, old(silent))
      ensures ok ==> G.ScopedName(mangled, old(st.cur), st.cur)
      ensures ok ==> st.cur in typePlaces
      decreases |mangled| - st.cur, 6
    {
      var copy := st;
      ok := ParseTwoCharToken('s', 'r');
      if ok { ok := ParseType(); }
      if ok {
        Land(copy.cur, st.cur);
        ok := ParseUnqualifiedName();
      }
      if ok { return; }
      st := copy;
    }

    method ParseExprPrimary() returns (ok: bool)
      requires Valid()
      requires st.cur in typePlaces
      modifies this`st, this`derailed, this`silent, out
      ensures Step(ok, old(st), old(out[..]), st, out[..])
      ensures Spoke(ok, old(silent))
      ensures ok ==> G.ExprPrimary(mangled, old(st.cur), st.cur)
      ensures ok ==> st.cur in typePlaces
      decreases |mangled| - st.cur, 7
    {
      ok := ParseIntegerLiteral();
      if !ok { ok := ParseFloatLiteral(); }
      if !ok { ok := ParseNamedLiteral(); }
      if !ok { ok := ParseEncodingLiteral(); }
    }

    method ParseIntegerLiteral() returns (ok: bool)
      requires Valid()
      requires st.cur in typePlaces
      modifies this`st, this`derailed, this`silent, out
      ensures Step(ok, old(st), old(out[..]), st, out[..])
      ensures Spoke(ok, old(silent))
      ensures ok ==> G.TypedLiteral(mangled, old(st.cur), st.cur)
      ensures ok ==> st.cur in typePlaces
      decreases |mangled| - st.cur, 6
    {
      var copy := st;
      ok := ParseLiteralType();
      if ok { ok := SkipNumber(); }
      if ok { ok := ParseOneCharToken('E'); }
      if ok {
        Land(copy.cur, st.cur);
        return;
      }
      st := copy;
    }

    method ParseFloatLiteral() returns (ok: bool)
      requires Valid()
      requires st.cur in typePlaces
      modifies this`st, this`derailed, this`silent, out
      ensures Step(ok, old(st), old(out[..]), st, out[..])
      ensures Spoke(ok, old(silent))
      ensures ok ==> G.TypedLiteral(mangled, old(st.cur), st.cur)
      ensures ok ==> st.cur in typePlaces
      decreases |mangled| - st.cur, 6
    {
      var copy := st;
      ok := ParseLiteralType();
      if ok { ok := ParseFloatNumber(); }
      if ok { ok := ParseOneCharToken('E'); }
      if ok {
        Land(copy.cur, st.cur);
        return;
      }
      st := copy;
    }

    /** The mark of a literal and its type. */
    method ParseLiteralType() returns (ok: bool)
      requires Valid()
      requires st.cur in typePlaces
      modifies this`st, this`derailed, this`silent, out
      ensures Step(ok, old(st), old(out[..]), st, out[..])
      ensures Spoke(ok, old(silent))
      ensures ok ==> Is(mangled, old(st.cur), 'L') && G.Type(mangled, old(st.cur) + 1, st.cur)
      ensures ok ==> st.cur in typePlaces
      decreases |mangled| - st.cur, 5
    {
      var copy := st;
      ok := ParseOneCharToken('L');
      if ok { ok := ParseType(); }
      if ok { return; }
      st := copy;
    }

    method ParseNamedLiteral() returns (ok: bool)
      requires Valid()
      requires st.cur in typePlaces
      modifies this`st, this`derailed, this`silent, out
      ensures Step(ok, old(st), old(out[..]), st, out[..])
      ensures Spoke(ok, old(silent))
      ensures ok ==> G.NamedLiteral(mangled, old(st.cur), st.cur)
      ensures ok ==> st.cur in typePlaces
      decreases |mangled| - st.cur, 6
    {
      var copy := st;
      ok := ParseOneCharToken('L');
      if ok { ok := ParseMangledName(); }
      if ok { ok := ParseOneCharToken('E'); }
      if ok { return; }
      st := copy;
    }

    method ParseEncodingLiteral() returns (ok: bool)
      requires Valid()
      requires st.cur in typePlaces
      modifies this`st, this`derailed, this`silent, out
      ensures Step(ok, old(st), old(out[..]), st, out[..])
      ensures Spoke(ok, old(silent))
      ensures ok ==> G.NamedLiteral(mangled, old(st.cur), st.cur)
      ensures ok ==> st.cur in typePlaces
      decreases |mangled| - st.cur, 6
    {
      var copy := st;
      ok := ParseTwoCharToken('L', 'Z');
      if ok { ok := ParseEncoding(); }
      if ok { ok := ParseOneCharToken('E'); }
      if ok { return; }
      st := copy;
    }

    method ParseLocalName() returns (ok: bool)
      requires Valid()
      requires st.cur in places
      modifies this`st, this`derailed, this`silent, out
      ensures Step(ok, old(st), old(out[..]), st, out[..])
      ensures Spoke(ok, old(silent))
      ensures !Is(mangled, old(st.cur), 'Z') ==> !ok && out[..] == old(out[..])
      ensures ok ==> G.LocalName(mangled, old(st.cur), st.cur)
      ensures ok ==> st.cur in typePlaces
      decreases |mangled| - st.cur, 4
    {
      ok := ParseLocalEntity();
      if !ok { ok := ParseLocalString(); }
    }

    method ParseLocalEntity() returns (ok: bool)
      requires Valid()
      requires st.cur in places
      modifies this`st, this`derailed, this`silent, out
      ensures Step(ok, old(st), old(out[..]), st, out[..])
      ensures Spoke(ok, old(silent))
      ensures !Is(mangled, old(st.cur), 'Z') ==> !ok && out[..] == old(out[..])
      ensures ok ==> G.LocalEntity(mangled, old(st.cur), st.cur)
      ensures ok ==> st.cur in typePlaces
      decreases |mangled| - st.cur, 3
    {
      var copy := st;
      ok := ParseOneCharToken('Z');
      if ok { ok := ParseEncoding(); }
      if ok { ok := ParseEntityOfFunction(); }
      if ok { return; }
      st := copy;
    }

    method ParseEntityOfFunction() returns (ok: bool)
      requires Valid()
      requires st.cur in typePlaces
      modifies this`st, this`derailed, this`silent, out
      ensures Step(ok, old(st), old(out[..]), st, out[..])
      ensures Spoke(ok, old(silent))
      ensures ok ==> G.EntityOfFunction(mangled, old(st.cur), st.cur)
      ensures ok ==> st.cur in typePlaces
      decreases |mangled| - st.cur, 4
    {
      var copy := st;
      ok := ParseOneCharToken('E');
      if ok {
        MaybeAppend("::");
        ok := ParseName();
      }
      if ok {
        var discriminated := ParseDiscriminator();
        return;
      }
      st := copy;
    }

    method ParseLocalString() returns (ok: bool)
      requires Valid()
      requires st.cur in places
      modifies this`st, this`derailed, this`silent, out
      ensures Step(ok, old(st), old(out[..]), st, out[..])
      ensures Spoke(ok, old(silent))
      ensures !Is(mangled, old(st.cur), 'Z') ==> !ok && out[..] == old(out[..])
      ensures ok ==> G.LocalString(mangled, old(st.cur), st.cur)
      ensures ok ==> st.cur in typePlaces
      decreases |mangled| - st.cur, 3
    {
      var copy := st;
      ok := ParseOneCharToken('Z');
      if ok { ok := ParseEncoding(); }
      if ok { ok := ParseTwoCharToken('E', 's'); }
      if ok {
        var discriminated := ParseDiscriminator();
        return;
      }
      st := copy;
    }

    method ParseDiscriminator() returns (ok: bool)
      requires Valid()
      modifies this`st
      ensures InBounds(st) && st == old(st).(cur := st.cur)
      ensures if ok then old(st.cur) < st.cur else st == old(st)
      ensures ok ==> G.Discriminator(mangled, old(st.cur), st.cur)
      ensures ok && old(st.cur) in typePlaces ==> st.cur in places
      decreases |mangled| - st.cur, 0
    {
      var copy := st;
      ok := ParseOneCharToken('_');
      if ok { ok := SkipNumber(); }
      if ok {
        if copy.cur in typePlaces {
          Land(copy.cur, st.cur);
        }
        return;
      }
      st := copy;
    }

    method ParseSubstitution() returns (ok: bool)
      requires Valid()
      modifies this`st, out
      ensures Step(ok, old(st), old(out[..]), st, out[..])
      ensures Spoke(ok, old(silent))
      ensures !ok ==> out[..] == old(out[..])
      ensures ok ==> G.Substitution(mangled, old(st.cur), st.cur)
      ensures ok && old(st.cur) in typePlaces ==> st.cur in places
      decreases |mangled| - st.cur, 0
    {
      ok := ParseTwoCharToken('S', '_');
      if ok { MaybeAppend("?"); }
      if !ok { ok := ParseNumberedSubstitution(); }
      if !ok { ok := ParseAbbreviatedSubstitution(); }
      if ok && old(st.cur) in typePlaces {
        Land(old(st.cur), st.cur);
      }
    }

    method ParseNumberedSubstitution() returns (ok: bool)
      requires Valid()
      modifies this`st, out
      ensures Step(ok, old(st), old(out[..]), st, out[..])
      ensures Spoke(ok, old(silent))
      ensures !ok ==> out[..] == old(out[..])
      ensures ok ==> G.Substitution(mangled, old(st.cur), st.cur)
    {
      var copy := st;
      ok := ParseOneCharToken('S');
      if ok { ok := ParseSeqId(); }
      if ok { ok := ParseOneCharToken('_'); }
      if ok {
        MaybeAppend("?");
        return;
      }
      st := copy;
    }

    method ParseAbbreviatedSubstitution() returns (ok: bool)
      requires Valid()
      modifies this`st, out
      ensures Step(ok, old(st), old(out[..]), st, out[..])
      ensures Spoke(ok, old(silent))
      ensures !ok ==> out[..] == old(out[..])
      ensures ok ==> G.Substitution(mangled, old(st.cur), st.cur)
    {
      var copy := st;
      ok := ParseOneCharToken('S');
      if ok { ok := ParseAbbreviation(); }
      if ok { return; }
      st := copy;
    }

    /** The letter after S that abbreviates a name of the standard library. */
    method ParseAbbreviation() returns (ok: bool)
      requires Valid()
      modifies this`st, out
      ensures Step(ok, old(st), old(out[..]), st, out[..])
      ensures Spoke(ok, old(silent))
      ensures !ok ==> out[..] == old(out[..])
      ensures ok ==> OneOf(mangled, old(st.cur), ABBREVIATIONS) && st.cur == old(st.cur) + 1
    {
      var p := 0;
      while p < |ABBREVIATIONS|
        invariant 0 <= p <= |ABBREVIATIONS|
        invariant st == old(st) && out[..] == old(out[..])
      {
        if Ch(0) == ABBREVIATIONS[p] && st.cur < |mangled| {
          MaybeAppend("std");
          if ABBREVIATION_TEXTS[p] != "" {
            MaybeAppend("::");
            MaybeAppend(ABBREVIATION_TEXTS[p]);
          }
          st := st.(cur := st.cur + 1);
          return true;
        }
        p := p + 1;
      }
      return false;
    }

    // -------------------------------------------------------------------------
    // Whole names.

    /** Whether the rest of the name is a sequence of function clone suffixes. */
    method IsFunctionCloneSuffix() returns (yes: bool)
      requires Valid()
      ensures yes <==> CloneSuffix(mangled[st.cur..])
    {
      yes := OnlyCloneSuffixes(mangled[st.cur..]);
    }

    /** The whole name, up to an optional clone or version suffix. */
    method ParseTopLevelMangledName() returns (ok: bool)
      requires Valid()
      requires st.cur in places
      modifies this`st, this`derailed, this`silent, out
      ensures ok ==> exists e :: G.MangledName(mangled, old(st.cur), e) && AcceptedSuffix(mangled, e)
      ensures InBounds(st) && OnTrack() && Spoke(ok, old(silent)) && st.append == old(st.append)
      ensures old(st.append) && OrdinarySymbol(mangled, old(st.cur)) ==>
                ok && SymbolTaken(old(st.cur), old(st), old(out[..]), st, out[..])
    {
      ok := ParseMangledName();
      if ok {
        ghost var e := st.cur;
        if st.cur < |mangled| {
          var clone := IsFunctionCloneSuffix();
          if clone {
            assert AcceptedSuffix(mangled, e);
            return true;
          }
          if Ch(0) == '@' {
            MaybeAppend(mangled[st.cur..]);
            assert AcceptedSuffix(mangled, e);
            return true;
          }
          return false;
        }
        assert AcceptedSuffix(mangled, e);
        return true;
      }
    }
  }

  /** What may follow a mangled name. */
  ghost predicate AcceptedSuffix(w: string, e: nat)
  {
    e <= |w| && (e == |w| || CloneSuffix(w[e..]) || w[e] == '@')
  }

  /** A place where something may be read that no text belongs to. */
  ghost predicate Textless(w: string, i: nat)
  {
    && i <= |w|
    && (|| (Reached(w, i) && HasNumber(w, i) && NumberValue(w, i) == 0)
        || EmptyNestedName(w, i)
        || (Is(w, i, 'C') && OneOf(w, i + 1, "123")))
  }

  /**
   * The entry point, for every name and every size of the output buffer. Unless the parse was derailed, this is the
   * source's own run; and only a number below -1 where a source name may be looked for can derail it. A success leaves
   * a terminated text of the given length, unless some part of the name had none. An ordinary name is demangled to
   * its text, exactly if the buffer has room for it.
   */
  method Demangle(mangled: string, out: array<char>, beyond: nat -> char)
      returns (ok: bool, ghost derailed: bool, ghost silent: bool, ghost length: nat)
    requires '\0' !in mangled
    modifies out
    ensures ok ==> exists e :: G.MangledName(mangled, 0, e) && AcceptedSuffix(mangled, e)
    ensures derailed ==> !LengthsNotNegative(mangled)
    ensures ok && !silent ==> length < out.Length && out[length] == '\0'
    ensures silent ==> exists i: nat :: Textless(mangled, i)
    ensures OrdinarySymbol(mangled, 0) ==>
              && (ok <==> |EncodedText(mangled, 2)| + EncodedRoom(mangled, 2) < out.Length)
              && (ok ==> length < out.Length && out[..length] == EncodedText(mangled, 2) && out[length] == '\0')
  {
    ReachedIsClosed(mangled);
    var d := new Demangler(mangled, out, beyond, iset i: nat | Reached(mangled, i),
                           iset i: nat | ReachedByType(mangled, i));
    ok := d.ParseTopLevelMangledName();
    ok := ok && !d.st.overflowed;
    derailed, silent, length := d.derailed, d.silent, d.st.outCur;
    if silent {
      var i: nat :| d.TextlessAt(i);
      assert Textless(mangled, i);
    }
  }

  // ---------------------------------------------------------------------------
  // The condition on lengths.

  function Pow10(k: nat): nat
  {
    if k == 0 then 1 else 10 * Pow10(k - 1)
  }

  lemma {:induction false} ShortRunIsSmall(w: string, i: nat, e: nat)
    requires i <= e <= |w| && e - i <= 9
    requires forall k :: i <= k < e ==> IsDigit(w[k])
    ensures 0 <= DigitsValue(w, i, e) < Pow10(e - i) <= 1000000000
    decreases e
  {
    if i < e {
      ShortRunIsSmall(w, i, e - 1);
      SmallPower(e - i - 1);
    }
  }

  lemma {:induction false} SmallPower(k: nat)
    requires k <= 8
    ensures Pow10(k) <= 100000000
    decreases 8 - k
  {
    if k < 8 {
      SmallPower(k + 1);
    } else {
      assert Pow10(2) == 100;
      assert Pow10(4) == 10000;
      assert Pow10(6) == 1000000;
    }
  }

  /** A simple sufficient condition: no sign in front of a digit, and no ten digits in a row. */
  lemma ShortUnsignedLengths(w: string)
    requires forall i :: 0 <= i < |w| - 1 && w[i] == 'n' ==> !IsDigit(w[i + 1])
    requires forall i: nat :: i <= |w| ==> DigitsEnd(w, i) <= i + 9
    ensures LengthsNotNegative(w)
  {
    forall i: nat | i <= |w|
      ensures NotNegativeAt(w, i)
    {
      ShortNumber(w, i);
    }
    NumbersNotNegative(w, 0);
  }

  lemma ShortNumber(w: string, i: nat)
    requires i <= |w| && (i + 1 < |w| && w[i] == 'n' ==> !IsDigit(w[i + 1])) && DigitsEnd(w, i) <= i + 9
    ensures NotNegativeAt(w, i)
  {
    if HasNumber(w, i) {
      ShortRunIsSmall(w, i, DigitsEnd(w, i));
    }
  }

  /** The characters of a call offset. */
  predicate OffsetChar(c: char)
  {
    c == 'h' || c == 'v' || c == 'n' || c == '_' || IsDigit(c)
  }

  lemma OffsetChars(w: string, a: nat, k: nat)
    requires CallOffset(w, a, k)
    ensures a + 2 < k <= |w| && forall i :: a <= i < k ==> OffsetChar(w[i])
    ensures w[a] in "hv" && (w[a + 1] == 'n' || IsDigit(w[a + 1]))
  {
  }

  lemma OneOffset(w: string, a: nat, k: nat, l: nat)
    requires CallOffset(w, a, k) && CallOffset(w, a, l)
    ensures k == l
  {
  }

  /** The name of a thunk, up to the encoding of its target at k. */
  ghost predicate StartsAsThunk(w: string, k: nat)
  {
    Is(w, 0, '_') && Is(w, 1, 'Z') && Is(w, 2, 'T') && CallOffset(w, 3, k)
  }

  lemma HopsOfThunk(w: string, k: nat, j: nat, i: nat)
    requires StartsAsThunk(w, k) && j <= 2 && Hop(w, j, i)
    ensures if j < 2 then i == j + 1 else i == k
  {
    if j == 0 {
      assert w[0] == '_' && w[1] == 'Z';
    } else if j == 1 {
      assert w[1] == 'Z' && w[2] == 'T';
    } else {
      HopsOfThunkMark(w, k, i);
    }
  }

  lemma HopsOfThunkMark(w: string, k: nat, i: nat)
    requires Is(w, 2, 'T') && CallOffset(w, 3, k) && Hop(w, 2, i)
    ensures i == k
  {
    OffsetChars(w, 3, k);
    if CallOffset(w, 3, i) {
      OneOffset(w, 3, k, i);
    }
  }

  lemma {:induction false} OffsetIsNotReached(w: string, k: nat, i: nat)
    requires StartsAsThunk(w, k) && 3 <= i < k
    ensures !Reached(w, i)
  {
    OffsetChars(w, 3, k);
    if Reached(w, i) {
      var j: nat :| j < i && Reached(w, j) && Hop(w, j, i);
      if j >= 3 {
        OffsetIsNotReached(w, k, j);
      } else {
        HopsOfThunk(w, k, j, i);
      }
    }
  }

  /** Thunks never derail the parse by their offsets, which are negative as a rule. */
  lemma ThunkOffsetsAreNoLengths(w: string, k: nat)
    requires StartsAsThunk(w, k)
    requires forall i :: k <= i < |w| - 1 && w[i] == 'n' ==> !IsDigit(w[i + 1])
    requires forall i: nat :: k <= i <= |w| ==> DigitsEnd(w, i) <= i + 9
    ensures LengthsNotNegative(w)
  {
    OffsetChars(w, 3, k);
    forall i: nat | k <= i <= |w|
      ensures NotNegativeAt(w, i)
    {
      ShortNumber(w, i);
    }
    forall i: nat | i < k && i <= |w| && Reached(w, i)
      ensures NotNegativeAt(w, i)
    {
      if i >= 3 {
        OffsetIsNotReached(w, k, i);
      }
    }
    NumbersNotNegative(w, k);
  }

  lemma HopsOfLiteralStart(w: string, j: nat)
    requires w == "_Z1fILin5EEvv" && j < 3
    ensures !Hop(w, j, 7)
  {
    DigitsEndIs(w, 2, 3);
    assert DigitsValue(w, 2, 2) == 0;
    assert NumberValue(w, 2) == 1;
    assert j == 0 || j == 1 || j == 2;
  }

  lemma HopsOfLiteral(w: string, j: nat)
    requires w == "_Z1fILin5EEvv" && 3 <= j < 7
    ensures !Hop(w, j, 7)
  {
    assert j == 3 || j == 4 || j == 5 || j == 6;
  }

  /** Nor do negative literals as template arguments: here -5 of type int. */
  lemma NegativeLiteralIsNoLength(w: string)
    requires w == "_Z1fILin5EEvv"
    ensures NumberValue(w, 7) == -5 && LengthsNotNegative(w)
  {
    DigitsEndIs(w, 8, 9);
    DigitsEndIs(w, 2, 3);
    assert DigitsValue(w, 8, 8) == 0;
    assert DigitsValue(w, 8, 9) == 5;
    forall j: nat | j < 7
      ensures !Hop(w, j, 7)
    {
      if j < 3 {
        HopsOfLiteralStart(w, j);
      } else {
        HopsOfLiteral(w, j);
      }
    }
    forall i: nat | i <= |w| && Reached(w, i)
      ensures NotNegativeAt(w, i)
    {
      if i != 7 {
        ShortNumber(w, i);
      }
    }
  }

  /** Without the condition the cursor can stand still after a source name: here at the length n2. */
  lemma NegativeLengthStalls(w: string)
    requires w == "_ZNn2E"
    ensures Reached(w, 3) && HasNumber(w, 3) && NumberValue(w, 3) == -2
    ensures NumberEnd(w, 3) + NumberValue(w, 3) == 3
    ensures !LengthsNotNegative(w)
  {
    assert Reached(w, 0) && Hop(w, 0, 1) && Hop(w, 1, 2) && Hop(w, 2, 3);
    DigitsEndIs(w, 4, 5);
    assert DigitsValue(w, 4, 4) == 0;
    assert DigitsValue(w, 4, 5) == 2;
    assert !NotNegativeAt(w, 3);
  }
}
