/** Two names the demangler fails on: one makes it read behind its output, the other holds it for ever. */
module DemangleRuns {
  import opened Wrappers
  import opened Strings
  import opened G = DemangleGrammar
  import opened Demangle

  // ---------------------------------------------------------------------------
  // What names and types can start with.

  lemma OperatorStarts(w: string, i: nat, j: nat)
    requires OperatorName(w, i, j)
    ensures i + 1 < |w| && IsLower(w[i]) && (IsAlpha(w[i + 1]) || (w[i] == 'v' && IsDigit(w[i + 1])))
  {
    if CastName(w, i, j) {
      assert Is(w, i, 'c') && Is(w, i + 1, 'v');
    } else if VendorOperator(w, i, j) {
      assert Is(w, i, 'v') && OneOf(w, i + 1, DIGITS);
    } else {
      var p: nat :| p < NUM_OPERATORS && w[i..j] == Operator(p).abbrev;
      assert j == i + 2;
      PairAt(w, i, Operator(p).abbrev);
    }
  }

  lemma SourceNameStarts(w: string, i: nat, j: nat)
    requires SourceName(w, i, j)
    ensures i < |w| && (IsDigit(w[i]) || w[i] == 'n')
  {
  }

  /** The characters in front of names, apart from lower-case letters and source names. */
  const NAME_MARKS := "NZSCDL"

  lemma UnscopedNameStarts(w: string, i: nat, j: nat)
    requires UnscopedName(w, i, j)
    ensures i < |w| && (w[i] in NAME_MARKS || IsLower(w[i]) || SourceName(w, i, j))
  {
    if UnqualifiedName(w, i, j) {
      if OperatorName(w, i, j) {
        OperatorStarts(w, i, j);
      } else if SourceName(w, i, j) {
        SourceNameStarts(w, i, j);
      }
    }
  }

  lemma LocalNameStarts(w: string, i: nat, j: nat)
    requires LocalName(w, i, j)
    ensures Is(w, i, 'Z')
  {
    if LocalEntity(w, i, j) {
    } else {
      assert LocalString(w, i, j);
    }
  }

  lemma NameStarts(w: string, i: nat, j: nat)
    requires Name(w, i, j)
    ensures i < |w| && (w[i] in NAME_MARKS || IsLower(w[i]) || exists k: nat :: SourceName(w, i, k))
  {
    if NestedName(w, i, j) {
    } else if LocalName(w, i, j) {
      LocalNameStarts(w, i, j);
    } else if UnscopedName(w, i, j) {
      UnscopedNameStarts(w, i, j);
    } else {
      var k: nat :| UnscopedTemplateName(w, i, k) && TemplateArgs(w, k, j);
      if UnscopedName(w, i, k) {
        UnscopedNameStarts(w, i, k);
      }
    }
  }

  // ---------------------------------------------------------------------------
  // Standing still.

  const STALLING := "_ZNn2E"

  lemma NoOtherPart(j: nat)
    ensures !TemplateParam(STALLING, 3, j) && !Substitution(STALLING, 3, j) && !OperatorName(STALLING, 3, j)
    ensures !CtorDtorName(STALLING, 3, j) && !CVQualifiers(STALLING, 3, j)
  {
    if OperatorName(STALLING, 3, j) {
      OperatorStarts(STALLING, 3, j);
    }
  }

  /** A parser at the start of a name. */
  method Fresh(mangled: string, out: array<char>, beyond: nat -> char) returns (d: Demangler)
    requires '\0' !in mangled
    ensures fresh(d) && d.Valid() && d.mangled == mangled && d.out == out && d.beyond == beyond
    ensures d.st == State(0, 0, 0, -1, -1, true, false) && 0 in d.places && 0 in d.typePlaces
  {
    ReachedIsClosed(mangled);
    d := new Demangler(mangled, out, beyond, iset i: nat | Reached(mangled, i),
                       iset i: nat | ReachedByType(mangled, i));
  }

  /** A fresh parser gets to the number behind the N, as every alternative in front of it fails. */
  method ReachNumber(out: array<char>, beyond: nat -> char) returns (d: Demangler)
    modifies out
    ensures fresh(d) && d.Valid() && d.mangled == STALLING && d.out == out
    ensures d.st.cur == 3 && 3 in d.places
  {
    d := Fresh(STALLING, out, beyond);
    var ok := d.ParseTwoCharToken('_', 'Z');
    ok := d.ParseOneCharToken('N');
    d.EnterNestedName();
    NoOtherPart(d.st.cur);
    ok := d.ParseCVQualifiers();
    assert !ok;
  }

  /** One turn of the prefix loop on the number: of its alternatives only the source name is taken. */
  method StandingTurn(d: Demangler)
    requires d.Valid() && d.mangled == STALLING && d.st.cur == 3 && 3 in d.places
    modifies d`st, d`derailed, d`silent, d.out
    ensures d.Valid() && d.st.cur == 3
  {
    NegativeLengthStalls(STALLING);
    d.MaybeAppendSeparator();
    forall j: nat
      ensures !TemplateParam(STALLING, 3, j) && !Substitution(STALLING, 3, j) && !OperatorName(STALLING, 3, j)
      ensures !CtorDtorName(STALLING, 3, j)
    {
      NoOtherPart(j);
    }
    var ok := d.ParseTemplateParam();
    assert !ok;
    ok := d.ParseSubstitution();
    assert !ok;
    ok := d.ParseOperatorName();
    assert !ok;
    ok := d.ParseCtorDtorName();
    assert !ok;
    ok := d.ParseSourceNameUnchecked();
    assert ok;
    d.MaybeIncreaseNestLevel();
  }

  /** Any number of turns later the parser still is where it was: on this name the prefix loop does not end. */
  method PrefixStandsStill(out: array<char>, beyond: nat -> char, turns: nat) returns (d: Demangler)
    modifies out
    ensures d.mangled == STALLING && d.st.cur == 3
  {
    d := ReachNumber(out, beyond);
    var i := 0;
    while i < turns
      invariant fresh(d) && d.Valid() && d.mangled == STALLING && d.out == out && d.st.cur == 3 && 3 in d.places
    {
      StandingTurn(d);
      i := i + 1;
    }
  }

  // ---------------------------------------------------------------------------
  // Reading behind the output.

  const OVERFLOWING := "_ZTVMN5hello5helloEC1"

  lemma NoNameAt(w: string, i: nat)
    requires i < |w| && w[i] !in NAME_MARKS && !IsLower(w[i]) && forall j: nat :: !SourceName(w, i, j)
    ensures forall j: nat :: !Name(w, i, j)
  {
    forall j: nat | Name(w, i, j)
      ensures false
    {
      NameStarts(w, i, j);
    }
  }

  /** The characters in front of types that are neither names nor pointers to members. */
  const TYPE_MARKS := "rVKOPRCGDUFAu"

  lemma NoTypeMarkAt(w: string, i: nat)
    requires i < |w| && w[i] !in TYPE_MARKS && w[i] !in BUILTIN_TYPES
    ensures forall j: nat ::
              && !QualifiedType(w, i, j) && !ExtendedType(w, i, j) && !BuiltinType(w, i, j)
              && !FunctionType(w, i, j) && !ArrayType(w, i, j)
  {
  }

  lemma NoTypeAt(w: string, i: nat)
    requires i < |w| && w[i] !in TYPE_MARKS && w[i] !in BUILTIN_TYPES && w[i] !in "MTS"
    requires forall j: nat :: !Name(w, i, j)
    ensures forall j: nat :: !Type(w, i, j)
  {
    NoTypeMarkAt(w, i);
    forall j: nat | Type(w, i, j)
      ensures false
    {
      assert !PlainType(w, i, j);
    }
  }

  lemma Lengths()
    ensures NumberEnd(OVERFLOWING, 6) == 7 && NumberValue(OVERFLOWING, 6) == 5
    ensures NumberEnd(OVERFLOWING, 12) == 13 && NumberValue(OVERFLOWING, 12) == 5
    ensures NumberEnd(OVERFLOWING, 20) == 21 && NumberValue(OVERFLOWING, 20) == 1
  {
    DigitsEndIs(OVERFLOWING, 6, 7);
    assert DigitsValue(OVERFLOWING, 6, 6) == 0;
    DigitsEndIs(OVERFLOWING, 12, 13);
    assert DigitsValue(OVERFLOWING, 12, 12) == 0;
    DigitsEndIs(OVERFLOWING, 20, 21);
    assert DigitsValue(OVERFLOWING, 20, 20) == 0;
  }

  lemma NoNames()
    ensures forall j: nat :: !Name(OVERFLOWING, 2, j) && !Name(OVERFLOWING, 4, j) && !Name(OVERFLOWING, 20, j)
  {
    Lengths();
    NoNameAt(OVERFLOWING, 2);
    NoNameAt(OVERFLOWING, 4);
    NoNameAt(OVERFLOWING, 20);
  }

  /** The C in front of the constructor's digit is no complex type, as the digit is no type. */
  lemma NoComplexType()
    ensures forall j: nat :: !QualifiedType(OVERFLOWING, 19, j)
  {
    NoNames();
    NoTypeAt(OVERFLOWING, 20);
    assert !Is(OVERFLOWING, 19, 'D') && forall k: nat :: !CVQualifiers(OVERFLOWING, 19, k);
  }

  lemma NoOtherNameOfConstructor()
    ensures forall j: nat :: !ExtendedType(OVERFLOWING, 19, j) && !NestedName(OVERFLOWING, 19, j)
    ensures forall j: nat :: !BuiltinType(OVERFLOWING, 19, j) && !FunctionType(OVERFLOWING, 19, j)
    ensures forall j: nat :: !LocalName(OVERFLOWING, 19, j) && !OperatorName(OVERFLOWING, 19, j)
  {
    forall j: nat | OperatorName(OVERFLOWING, 19, j)
      ensures false
    {
      OperatorStarts(OVERFLOWING, 19, j);
    }
    forall j: nat | LocalName(OVERFLOWING, 19, j)
      ensures false
    {
      LocalNameStarts(OVERFLOWING, 19, j);
    }
  }

  /** The parser with an output of three characters. */
  ghost predicate Tight(d: Demangler)
    reads d
  {
    d.Valid() && d.out.Length == 3
  }

  /** The alternatives of a type in front of names, where none of their marks is. */
  method RefuseMarkedTypes(d: Demangler)
    requires Tight(d) && d.st.cur in d.places && d.st.cur in d.typePlaces && d.st.cur < |d.mangled|
    requires d.mangled[d.st.cur] !in TYPE_MARKS && d.mangled[d.st.cur] !in BUILTIN_TYPES
    modifies d`st, d`derailed, d`silent, d.out
    ensures Tight(d) && d.st == old(d.st)
  {
    NoTypeMarkAt(d.mangled, d.st.cur);
    var ok := d.ParseQualifiedType();
    assert !ok;
    ok := d.ParseDerivedType();
    assert !ok;
    ok := d.ParsePackExpansion();
    assert !ok;
    ok := d.ParseDecltype();
    assert !ok;
    ok := d.ParseVendorQualifiedType();
    assert !ok;
    ok := d.ParseBuiltinType();
    assert !ok;
    ok := d.ParseFunctionType();
    assert !ok;
  }

  method RefuseName(d: Demangler)
    requires Tight(d) && d.st.cur in d.places && forall j: nat :: !Name(d.mangled, d.st.cur, j)
    modifies d`st, d`derailed, d`silent, d.out
    ensures Tight(d) && d.st == old(d.st)
  {
    var ok := d.ParseName();
    assert !ok;
  }

  /** Behind the prefix of the name there is no name, so a special name is looked for. */
  method ReachSpecialName(out: array<char>, beyond: nat -> char) returns (d: Demangler)
    requires out.Length == 3
    modifies out
    ensures fresh(d) && Tight(d) && d.mangled == OVERFLOWING && d.out == out && d.beyond == beyond
    ensures d.st == State(2, 0, 0, -1, -1, true, false) && 2 in d.places
  {
    d := Fresh(OVERFLOWING, out, beyond);
    NoNames();
    var ok := d.ParseTwoCharToken('_', 'Z');
    RefuseName(d);
    RefuseName(d);
  }

  /** The mark of a virtual table, behind which a type follows. */
  method PassTable(d: Demangler)
    requires Tight(d) && Is(d.mangled, d.st.cur, 'T') && Is(d.mangled, d.st.cur + 1, 'V') && d.st.cur in d.places
    modifies d`st
    ensures Tight(d) && d.st == old(d.st).(cur := old(d.st.cur) + 2) && d.st.cur in d.places && d.st.cur in d.typePlaces
  {
    ghost var start := d.st.cur;
    var ok := d.ParseOneCharToken('T');
    ok := d.ParseCharClass("VTIS");
    assert ok && PairHop(d.mangled, start);
    d.Land(start, start + 2);
  }

  method RefuseNameAndArray(d: Demangler)
    requires Tight(d) && d.st.cur in d.places && d.st.cur in d.typePlaces
    requires !Is(d.mangled, d.st.cur, 'A') && forall j: nat :: !Name(d.mangled, d.st.cur, j)
    modifies d`st, d`derailed, d`silent, d.out
    ensures Tight(d) && d.st == old(d.st)
  {
    var ok := d.ParseClassEnumType();
    assert !ok;
    ok := d.ParseArrayType();
    assert !ok;
  }

  /** The mark of a pointer to a member, in front of two types. */
  method PassMember(d: Demangler)
    requires Tight(d) && d.st.cur in d.places && d.st.cur in d.typePlaces
    requires Is(d.mangled, d.st.cur, 'M') && forall j: nat :: !Name(d.mangled, d.st.cur, j)
    modifies d`st, d`derailed, d`silent, d.out
    ensures Tight(d) && d.st == old(d.st).(cur := old(d.st.cur) + 1) && d.st.cur in d.places && d.st.cur in d.typePlaces
  {
    RefuseMarkedTypes(d);
    RefuseNameAndArray(d);
    var ok := d.ParseOneCharToken('M');
  }

  lemma NoOtherPartAt(w: string, i: nat)
    requires i < |w| && w[i] !in "TSCD" && !IsLower(w[i])
    ensures forall j: nat :: !TemplateParam(w, i, j) && !Substitution(w, i, j)
    ensures forall j: nat :: !OperatorName(w, i, j) && !CtorDtorName(w, i, j)
  {
    forall j: nat | OperatorName(w, i, j)
      ensures false
    {
      OperatorStarts(w, i, j);
    }
  }

  /** The alternatives of a part of a prefix in front of source names, where none of their marks is. */
  method RefuseOtherParts(d: Demangler)
    requires Tight(d) && d.st.cur in d.places && d.st.cur < |d.mangled|
    requires d.mangled[d.st.cur] !in "TSCD" && !IsLower(d.mangled[d.st.cur])
    modifies d`st, d`derailed, d`silent, d.out
    ensures Tight(d) && d.st == old(d.st)
  {
    NoOtherPartAt(d.mangled, d.st.cur);
    var ok := d.ParseTemplateParam();
    assert !ok;
    ok := d.ParseSubstitution();
    assert !ok;
    ok := d.ParseOperatorName();
    assert !ok;
    ok := d.ParseCtorDtorName();
    assert !ok;
  }

  lemma HelloWritten(s: State)
    requires s.append && (s.outCur == 0 || s.outCur == 2)
    ensures Written(s, "hello", 3)
            == s.(outCur := 2, overflowed := true, prevName := s.outCur, prevNameLength := 5)
  {
  }

  lemma NothingWritten(s: State)
    requires s.outCur == 2 && s.overflowed
    ensures Written(s, "::", 3) == s
  {
  }

  /** A source name of five letters. */
  ghost predicate HelloAt(w: string, i: nat)
  {
    && i + 6 <= |w| && IsDigit(w[i]) && HasNumber(w, i) && NumberEnd(w, i) == i + 1 && NumberValue(w, i) == 5
    && w[i + 1..i + 6] == "hello"
  }

  method TakeHello(d: Demangler)
    requires Tight(d) && HelloAt(d.mangled, d.st.cur) && d.st.cur in d.places
    requires d.st.append && (d.st.outCur == 0 || d.st.outCur == 2)
    modifies d`st, d`derailed, d`silent, d.out
    ensures Tight(d) && d.st.cur in d.places
    ensures d.st == old(d.st).(cur := old(d.st.cur) + 6, outCur := 2, overflowed := true,
                               prevName := old(d.st.outCur), prevNameLength := 5)
  {
    ghost var start := d.st;
    HelloWritten(start);
    assert d.mangled[start.cur + 1] == d.mangled[start.cur + 1..start.cur + 6][0] == 'h';
    assert SourceName(d.mangled, start.cur, start.cur + 6);
    var ok := d.ParseSourceName();
    assert ok;
  }

  /** One turn of the prefix loop on such a name: the output has room for two letters of the first one. */
  method HelloTurn(d: Demangler)
    requires Tight(d) && HelloAt(d.mangled, d.st.cur) && d.st.cur in d.places && d.st.append
    requires (d.st.nestLevel == 0 && d.st.outCur == 0) || (d.st.nestLevel == 1 && d.st.outCur == 2 && d.st.overflowed)
    modifies d`st, d`derailed, d`silent, d.out
    ensures Tight(d) && d.st.cur in d.places
    ensures d.st == old(d.st).(cur := old(d.st.cur) + 6, outCur := 2, overflowed := true,
                               nestLevel := old(d.st.nestLevel) + 1, prevName := old(d.st.outCur), prevNameLength := 5)
  {
    if d.st.nestLevel == 1 {
      NothingWritten(d.st);
    }
    d.MaybeAppendSeparator();
    RefuseOtherParts(d);
    TakeHello(d);
    d.MaybeIncreaseNestLevel();
  }

  method HelloTurns(d: Demangler)
    requires Tight(d) && HelloAt(d.mangled, d.st.cur) && HelloAt(d.mangled, d.st.cur + 6) && d.st.cur in d.places
    requires d.st.append && d.st.nestLevel == 0 && d.st.outCur == 0
    modifies d`st, d`derailed, d`silent, d.out
    ensures Tight(d) && d.st.cur in d.places
    ensures d.st == old(d.st).(cur := old(d.st.cur) + 12, outCur := 2, overflowed := true, nestLevel := 2,
                               prevName := 2, prevNameLength := 5)
  {
    HelloTurn(d);
    HelloTurn(d);
  }

  lemma NoPartAtEnd()
    ensures forall j: nat :: !PrefixPart(OVERFLOWING, 18, j) && !TemplateArgs(OVERFLOWING, 18, j)
  {
    forall j: nat | PrefixPart(OVERFLOWING, 18, j)
      ensures false
    {
      if UnscopedName(OVERFLOWING, 18, j) {
        UnscopedNameStarts(OVERFLOWING, 18, j);
        SourceNameStarts(OVERFLOWING, 18, j);
      }
    }
  }

  /** The end of the prefix: a separator that was not written is taken back with two letters of the name. */
  method EndPrefix(d: Demangler)
    requires Tight(d) && d.mangled == OVERFLOWING && d.st.cur == 18 && 18 in d.places
    requires d.st.append && d.st.nestLevel == 2 && d.st.outCur == 2 && d.st.overflowed
    modifies d`st, d`derailed, d`silent, d.out
    ensures Tight(d) && d.st == old(d.st).(outCur := 0)
  {
    NothingWritten(d.st);
    NoPartAtEnd();
    d.MaybeAppendSeparator();
    var ok := d.ParsePrefixPart();
    assert !ok;
    d.MaybeCancelLastSeparator();
    ok := d.ParseTemplateArgs();
    assert !ok;
  }

  /** In the name: an N with two such source names behind it. */
  ghost predicate HellosBehind(w: string, i: nat)
  {
    Is(w, i, 'N') && HelloAt(w, i + 1) && HelloAt(w, i + 7)
  }

  lemma Hellos()
    ensures HellosBehind(OVERFLOWING, 5)
  {
    Lengths();
    assert OVERFLOWING[7..12] == OVERFLOWING[13..18] == "hello";
  }

  /** The N of a nested name, looked for as a type. */
  method PassNested(d: Demangler)
    requires Tight(d) && d.st.cur in d.places && d.st.cur in d.typePlaces
    requires Is(d.mangled, d.st.cur, 'N') && HelloAt(d.mangled, d.st.cur + 1)
    modifies d`st, d`derailed, d`silent, d.out
    ensures Tight(d) && d.st == old(d.st).(cur := old(d.st.cur) + 1, nestLevel := 0) && d.st.cur in d.places
  {
    RefuseMarkedTypes(d);
    var ok := d.ParseOneCharToken('N');
    d.EnterNestedName();
    ok := d.ParseCVQualifiers();
    assert !ok;
  }

  method LeaveScope(d: Demangler)
    requires Tight(d) && d.mangled == OVERFLOWING && d.st.cur == 18 && 18 in d.places
    modifies d`st
    ensures Tight(d) && d.st == old(d.st).(cur := 19, nestLevel := -1) && 19 in d.places && 19 in d.typePlaces
  {
    d.LeaveNestedName(-1);
    assert 18 in d.typePlaces && Is(OVERFLOWING, 18, 'E');
    var ok := d.ParseOneCharToken('E');
  }

  method ReadHellos(d: Demangler)
    requires Tight(d) && d.st.cur in d.places && d.st.cur in d.typePlaces
    requires d.st == State(d.st.cur, 0, 0, -1, -1, true, false)
    requires HellosBehind(d.mangled, d.st.cur)
    modifies d`st, d`derailed, d`silent, d.out
    ensures Tight(d) && d.st == State(old(d.st.cur) + 13, 2, 2, 5, 2, true, true) && d.st.cur in d.places
  {
    PassNested(d);
    HelloTurns(d);
  }

  method ReadNestedName(d: Demangler)
    requires Tight(d) && d.mangled == OVERFLOWING && 5 in d.places && 5 in d.typePlaces
    requires d.st == State(5, 0, 0, -1, -1, true, false)
    modifies d`st, d`derailed, d`silent, d.out
    ensures Tight(d) && d.st == State(19, 0, 2, 5, -1, true, true) && 19 in d.places && 19 in d.typePlaces
  {
    Hellos();
    ReadHellos(d);
    EndPrefix(d);
    LeaveScope(d);
  }

  method RefuseComplexType(d: Demangler)
    requires Tight(d) && d.mangled == OVERFLOWING && d.st.cur == 19 && 19 in d.places && 19 in d.typePlaces
    modifies d`st, d`derailed, d`silent, d.out
    ensures Tight(d) && d.st == old(d.st)
  {
    NoComplexType();
    NoOtherNameOfConstructor();
    var ok := d.ParseQualifiedType();
    assert !ok;
    ok := d.ParseDerivedType();
    assert !ok;
    ok := d.ParsePackExpansion();
    assert !ok;
    ok := d.ParseDecltype();
    assert !ok;
    ok := d.ParseVendorQualifiedType();
    assert !ok;
    ok := d.ParseBuiltinType();
    assert !ok;
    ok := d.ParseFunctionType();
    assert !ok;
    ok := d.ParseNestedName();
    assert !ok;
    ok := d.ParseLocalName();
    assert !ok;
    ok := d.ParseOperatorName();
    assert !ok;
  }

  /** The constructor, looked for as the second type, in front of everything else that fails. */
  method ReadConstructor(d: Demangler)
    requires Tight(d) && d.mangled == OVERFLOWING && d.st.cur == 19 && 19 in d.places && 19 in d.typePlaces
    requires d.st.append && d.st.outCur == 0 && d.st.prevName == 2 && d.st.prevNameLength == 5
    modifies d`st, d`derailed, d`silent, d.out
    ensures d.out[1] == d.beyond(3)
  {
    RefuseComplexType(d);
    var ok := d.ParseCtorDtorName();
    assert OneOf(d.mangled, 20, "123");
    assert d.out[..2][1] == d.out[1];
  }

  /** This is no name that derails the parse: none of its lengths is negative. */
  lemma OverflowingIsPlain()
    ensures LengthsNotNegative(OVERFLOWING)
  {
    forall i: nat | i <= |OVERFLOWING|
      ensures DigitsEnd(OVERFLOWING, i) <= i + 9
    {
      assert i + 1 < |OVERFLOWING| ==> !IsDigit(OVERFLOWING[i]) || !IsDigit(OVERFLOWING[i + 1]);
    }
    ShortUnsignedLengths(OVERFLOWING);
  }

  /** On this name, and with an output of three characters, what lies behind the output is copied into it. */
  method ReadsBehindOutput(out: array<char>, beyond: nat -> char)
    requires out.Length == 3
    modifies out
    ensures out[1] == beyond(3)
  {
    var d := ReachSpecialName(out, beyond);
    NoNames();
    PassTable(d);
    PassMember(d);
    ReadNestedName(d);
    ReadConstructor(d);
  }

  // ---------------------------------------------------------------------------
  // Succeeding without a text.

  const NAMELESS := "_Z0"

  lemma NamelessLength()
    ensures NumberEnd(NAMELESS, 2) == 3 && HasNumber(NAMELESS, 2) && NumberValue(NAMELESS, 2) == 0
  {
    DigitsEndIs(NAMELESS, 2, 3);
    assert DigitsValue(NAMELESS, 2, 2) == 0;
  }

  /** The parser in front of or behind the length of that name. */
  ghost predicate Nameless(d: Demangler, cur: nat)
    reads d
  {
    && d.Valid() && d.mangled == NAMELESS && d.st == State(cur, 0, 0, -1, -1, true, false)
    && cur in d.places && cur in d.typePlaces
  }

  /** The alternatives of an unscoped name up to the source name, which is taken and has no characters. */
  method ReadNoName(d: Demangler)
    requires Nameless(d, 2)
    modifies d`st, d`derailed, d`silent, d.out
    ensures Nameless(d, 3) && d.out[..] == old(d.out[..])
  {
    NamelessLength();
    var ok := d.ParseOperatorName();
    assert !ok;
    ok := d.ParseCtorDtorName();
    assert !ok;
    ok := d.ParseSourceNameUnchecked();
    assert SourceName(NAMELESS, 2, 3) && Hop(NAMELESS, 2, 3);
  }

  /** A name: without template arguments the source name is read once more. */
  method ReadNamelessName(d: Demangler)
    requires Nameless(d, 2)
    modifies d`st, d`derailed, d`silent, d.out
    ensures Nameless(d, 3) && d.out[..] == old(d.out[..])
  {
    var ok := d.ParseNestedName();
    assert !ok;
    ok := d.ParseLocalName();
    assert !ok;
    var copy := d.st;
    ReadNoName(d);
    ok := d.ParseTemplateArgs();
    assert !ok;
    d.st := copy;
    ReadNoName(d);
  }

  /** The whole name is read, without an overflow, and nothing is written: no terminator either. */
  method NothingIsShown(out: array<char>, beyond: nat -> char) returns (d: Demangler)
    modifies out
    ensures d.mangled == NAMELESS && d.out == out && d.st.cur == |NAMELESS| && !d.st.overflowed
    ensures out[..] == old(out[..])
  {
    d := Fresh(NAMELESS, out, beyond);
    var ok := d.ParseTwoCharToken('_', 'Z');
    var copy := d.st;
    ReadNamelessName(d);
    ok := d.ParseBareFunctionType();
    assert !ok;
    d.st := copy;
    ReadNamelessName(d);
  }
}
