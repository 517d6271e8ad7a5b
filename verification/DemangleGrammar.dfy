/**
 * The language the demangler accepts, one predicate per nonterminal: X(w, i, j) holds when w[i..j] can be
 * derived from X. The productions are the ones written above the parsing functions, with <prefix> and
 * <template-prefix> merged as the code merges them.
 */
module DemangleGrammar {
  import opened Strings

  const DIGITS := "0123456789"
  const BUILTIN_TYPES := "vwbcahstijlmxynofdegz"
  const ABBREVIATIONS := "tabsiod"

  const BUILTIN_TEXTS: seq<string> :=
    ["void", "wchar_t", "bool", "char", "signed char", "unsigned char", "short", "unsigned short", "int",
     "unsigned int", "long", "unsigned long", "long long", "unsigned long long", "__int128",
     "unsigned __int128", "float", "double", "long double", "__float128", "ellipsis"]

  lemma BuiltinHasText(p: nat)
    requires p < |BUILTIN_TYPES|
    ensures IsLower(BUILTIN_TYPES[p]) && BUILTIN_TEXTS[p] != ""
  {
  }

  const ABBREVIATION_TEXTS: seq<string> :=
    ["", "allocator", "basic_string", "string", "istream", "ostream", "iostream"]

  predicate IsLower(c: char) { 'a' <= c <= 'z' }
  predicate IsAlpha(c: char) { 'a' <= c <= 'z' || 'A' <= c <= 'Z' }

  datatype AbbrevPair = AbbrevPair(abbrev: string, realName: string)

  const NUM_OPERATORS := 49

  /** The table of two-letter operators. */
  function Operator(p: nat): (o: AbbrevPair)
    requires p < NUM_OPERATORS
    ensures |o.abbrev| == 2 && IsLower(o.abbrev[0]) && IsAlpha(o.abbrev[1]) && |o.realName| > 0
  {
    match p
    case 0 => AbbrevPair("nw", "new")
    case 1 => AbbrevPair("na", "new[]")
    case 2 => AbbrevPair("dl", "delete")
    case 3 => AbbrevPair("da", "delete[]")
    case 4 => AbbrevPair("ps", "+")
    case 5 => AbbrevPair("ng", "-")
    case 6 => AbbrevPair("ad", "&")
    case 7 => AbbrevPair("de", "*")
    case 8 => AbbrevPair("co", "~")
    case 9 => AbbrevPair("pl", "+")
    case 10 => AbbrevPair("mi", "-")
    case 11 => AbbrevPair("ml", "*")
    case 12 => AbbrevPair("dv", "/")
    case 13 => AbbrevPair("rm", "%")
    case 14 => AbbrevPair("an", "&")
    case 15 => AbbrevPair("or", "|")
    case 16 => AbbrevPair("eo", "^")
    case 17 => AbbrevPair("aS", "=")
    case 18 => AbbrevPair("pL", "+=")
    case 19 => AbbrevPair("mI", "-=")
    case 20 => AbbrevPair("mL", "*=")
    case 21 => AbbrevPair("dV", "/=")
    case 22 => AbbrevPair("rM", "%=")
    case 23 => AbbrevPair("aN", "&=")
    case 24 => AbbrevPair("oR", "|=")
    case 25 => AbbrevPair("eO", "^=")
    case 26 => AbbrevPair("ls", "<<")
    case 27 => AbbrevPair("rs", ">>")
    case 28 => AbbrevPair("lS", "<<=")
    case 29 => AbbrevPair("rS", ">>=")
    case 30 => AbbrevPair("eq", "==")
    case 31 => AbbrevPair("ne", "!=")
    case 32 => AbbrevPair("lt", "<")
    case 33 => AbbrevPair("gt", ">")
    case 34 => AbbrevPair("le", "<=")
    case 35 => AbbrevPair("ge", ">=")
    case 36 => AbbrevPair("nt", "!")
    case 37 => AbbrevPair("aa", "&&")
    case 38 => AbbrevPair("oo", "||")
    case 39 => AbbrevPair("pp", "++")
    case 40 => AbbrevPair("mm", "--")
    case 41 => AbbrevPair("cm", ",")
    case 42 => AbbrevPair("pm", "->*")
    case 43 => AbbrevPair("pt", "->")
    case 44 => AbbrevPair("cl", "()")
    case 45 => AbbrevPair("ix", "[]")
    case 46 => AbbrevPair("qu", "?")
    case 47 => AbbrevPair("st", "sizeof")
    case _ => AbbrevPair("sz", "sizeof")
  }

  predicate Is(w: string, i: nat, c: char)
  {
    i < |w| && w[i] == c
  }

  predicate OneOf(w: string, i: nat, chars: string)
  {
    i < |w| && w[i] in chars
  }

  // ---------------------------------------------------------------------------
  // Numbers.

  /** The end of the run of digits that starts at i. */
  function DigitsEnd(w: string, i: nat): (e: nat)
    requires i <= |w|
    ensures i <= e <= |w|
    ensures forall k :: i <= k < e ==> IsDigit(w[k])
    ensures e < |w| ==> !IsDigit(w[e])
    decreases |w| - i
  {
    if i < |w| && IsDigit(w[i]) then DigitsEnd(w, i + 1) else i
  }

  lemma {:induction false} DigitsEndIs(w: string, i: nat, e: nat)
    requires i <= e <= |w|
    requires forall k :: i <= k < e ==> IsDigit(w[k])
    requires e < |w| ==> !IsDigit(w[e])
    ensures DigitsEnd(w, i) == e
    decreases e - i
  {
    if i < e {
      DigitsEndIs(w, i + 1, e);
    }
  }

  /** Two's complement arithmetic of the C type int. */
  function Wrap32(x: int): int
  {
    (x + 0x8000_0000) % 0x1_0000_0000 - 0x8000_0000
  }

  function DigitsValue(w: string, i: nat, e: nat): int
    requires i <= e <= |w|
    requires forall k :: i <= k < e ==> IsDigit(w[k])
    decreases e
  {
    if i == e then 0 else Wrap32(DigitsValue(w, i, e - 1) * 10 + (w[e - 1] as int - '0' as int))
  }

  /** Where the digits of a number that starts at i begin: past an optional sign. */
  function DigitsStart(w: string, i: nat): (s: nat)
    requires i <= |w|
    ensures i <= s <= |w|
  {
    if i < |w| && w[i] == 'n' then i + 1 else i
  }

  function NumberEnd(w: string, i: nat): (e: nat)
    requires i <= |w|
    ensures i <= e <= |w|
  {
    DigitsEnd(w, DigitsStart(w, i))
  }

  predicate HasNumber(w: string, i: nat)
    requires i <= |w|
  {
    DigitsStart(w, i) < NumberEnd(w, i)
  }

  function NumberValue(w: string, i: nat): int
    requires i <= |w|
  {
    var s := DigitsStart(w, i);
    Wrap32(DigitsValue(w, s, DigitsEnd(w, s)) * if s == i then 1 else -1)
  }

  // ---------------------------------------------------------------------------
  // Lexical nonterminals.

  ghost predicate Number(w: string, i: nat, j: nat)
  {
    var s := if Is(w, i, 'n') then i + 1 else i;
    s < j <= |w| && forall k :: s <= k < j ==> IsDigit(w[k])
  }

  ghost predicate FloatNumber(w: string, i: nat, j: nat)
  {
    i < j <= |w| && forall k :: i <= k < j ==> IsDigit(w[k]) || 'a' <= w[k] <= 'f'
  }

  ghost predicate SeqId(w: string, i: nat, j: nat)
  {
    i < j <= |w| && forall k :: i <= k < j ==> IsDigit(w[k]) || 'A' <= w[k] <= 'Z'
  }

  /** A length and as many characters. */
  ghost predicate SourceName(w: string, i: nat, j: nat)
  {
    i <= |w| && HasNumber(w, i) && NumberValue(w, i) >= 0 && j == NumberEnd(w, i) + NumberValue(w, i) <= |w|
  }

  ghost predicate OperatorSymbol(w: string, i: nat, j: nat)
  {
    i <= j <= |w| && exists p: nat :: p < NUM_OPERATORS && w[i..j] == Operator(p).abbrev
  }

  /** [r] [V] [K], but not nothing. */
  ghost predicate CVQualifiers(w: string, i: nat, j: nat)
  {
    var a := if Is(w, i, 'r') then i + 1 else i;
    var b := if Is(w, a, 'V') then a + 1 else a;
    var c := if Is(w, b, 'K') then b + 1 else b;
    i < c && j == c
  }

  ghost predicate Discriminator(w: string, i: nat, j: nat)
  {
    Is(w, i, '_') && Number(w, i + 1, j)
  }

  ghost predicate LocalSourceName(w: string, i: nat, j: nat)
  {
    Is(w, i, 'L')
    && (SourceName(w, i + 1, j) || exists k: nat :: SourceName(w, i + 1, k) && Discriminator(w, k, j))
  }

  ghost predicate CtorDtorName(w: string, i: nat, j: nat)
  {
    j == i + 2 && ((Is(w, i, 'C') && OneOf(w, i + 1, "123")) || (Is(w, i, 'D') && OneOf(w, i + 1, "012")))
  }

  ghost predicate VOffset(w: string, i: nat, j: nat)
  {
    exists k: nat :: Number(w, i, k) && Is(w, k, '_') && Number(w, k + 1, j)
  }

  ghost predicate CallOffset(w: string, i: nat, j: nat)
  {
    || (Is(w, i, 'h') && exists k: nat :: Number(w, i + 1, k) && Is(w, k, '_') && j == k + 1)
    || (Is(w, i, 'v') && exists k: nat :: VOffset(w, i + 1, k) && Is(w, k, '_') && j == k + 1)
  }

  ghost predicate TemplateParam(w: string, i: nat, j: nat)
  {
    Is(w, i, 'T')
    && ((Is(w, i + 1, '_') && j == i + 2) || exists k: nat :: Number(w, i + 1, k) && Is(w, k, '_') && j == k + 1)
  }

  ghost predicate Substitution(w: string, i: nat, j: nat)
  {
    Is(w, i, 'S')
    && (|| (Is(w, i + 1, '_') && j == i + 2)
        || (exists k: nat :: SeqId(w, i + 1, k) && Is(w, k, '_') && j == k + 1)
        || (OneOf(w, i + 1, ABBREVIATIONS) && j == i + 2))
  }

  // ---------------------------------------------------------------------------
  // Names.

  least predicate MangledName[nat](w: string, i: nat, j: nat)
  {
    Is(w, i, '_') && Is(w, i + 1, 'Z') && Encoding(w, i + 2, j)
  }

  least predicate Encoding[nat](w: string, i: nat, j: nat)
  {
    || (exists k: nat :: Name(w, i, k) && BareFunctionType(w, k, j))
    || Name(w, i, j)
    || SpecialName(w, i, j)
  }

  least predicate Name[nat](w: string, i: nat, j: nat)
  {
    || NestedName(w, i, j)
    || LocalName(w, i, j)
    || (exists k: nat :: UnscopedTemplateName(w, i, k) && TemplateArgs(w, k, j))
    || UnscopedName(w, i, j)
  }

  least predicate UnscopedName[nat](w: string, i: nat, j: nat)
  {
    || UnqualifiedName(w, i, j)
    || (Is(w, i, 'S') && Is(w, i + 1, 't') && UnqualifiedName(w, i + 2, j))
  }

  least predicate UnscopedTemplateName[nat](w: string, i: nat, j: nat)
  {
    UnscopedName(w, i, j) || Substitution(w, i, j)
  }

  least predicate NestedName[nat](w: string, i: nat, j: nat)
  {
    Is(w, i, 'N')
    && exists k: nat, l: nat ::
         (k == i + 1 || CVQualifiers(w, i + 1, k)) && Prefix(w, k, l) && Is(w, l, 'E') && j == l + 1
  }

  /** Parts, possibly followed by template arguments and a further prefix; possibly nothing. */
  least predicate Prefix[nat](w: string, i: nat, j: nat)
  {
    || i == j
    || PrefixParts(w, i, j)
    || (exists k: nat, l: nat :: PrefixParts(w, i, k) && TemplateArgs(w, k, l) && Prefix(w, l, j))
  }

  least predicate PrefixParts[nat](w: string, i: nat, j: nat)
  {
    || PrefixPart(w, i, j)
    || (exists k: nat :: PrefixParts(w, i, k) && PrefixPart(w, k, j))
  }

  least predicate PrefixPart[nat](w: string, i: nat, j: nat)
  {
    TemplateParam(w, i, j) || Substitution(w, i, j) || UnscopedName(w, i, j)
  }

  least predicate UnqualifiedName[nat](w: string, i: nat, j: nat)
  {
    OperatorName(w, i, j) || CtorDtorName(w, i, j) || SourceName(w, i, j) || LocalSourceName(w, i, j)
  }

  least predicate OperatorName[nat](w: string, i: nat, j: nat)
  {
    CastName(w, i, j) || VendorOperator(w, i, j) || OperatorSymbol(w, i, j)
  }

  least predicate CastName[nat](w: string, i: nat, j: nat)
  {
    Is(w, i, 'c') && Is(w, i + 1, 'v') && Type(w, i + 2, j)
  }

  ghost predicate VendorOperator(w: string, i: nat, j: nat)
  {
    Is(w, i, 'v') && OneOf(w, i + 1, DIGITS) && SourceName(w, i + 2, j)
  }

  least predicate LocalName[nat](w: string, i: nat, j: nat)
  {
    LocalEntity(w, i, j) || LocalString(w, i, j)
  }

  least predicate LocalEntity[nat](w: string, i: nat, j: nat)
  {
    Is(w, i, 'Z') && exists k: nat :: Encoding(w, i + 1, k) && EntityOfFunction(w, k, j)
  }

  least predicate EntityOfFunction[nat](w: string, i: nat, j: nat)
  {
    Is(w, i, 'E') && (Name(w, i + 1, j) || exists l: nat :: Name(w, i + 1, l) && Discriminator(w, l, j))
  }

  least predicate LocalString[nat](w: string, i: nat, j: nat)
  {
    Is(w, i, 'Z')
    && exists k: nat ::
         Encoding(w, i + 1, k) && Is(w, k, 'E') && Is(w, k + 1, 's') && (j == k + 2 || Discriminator(w, k + 2, j))
  }

  least predicate SpecialName[nat](w: string, i: nat, j: nat)
  {
    DataName(w, i, j) || ThunkName(w, i, j) || ConstructionTable(w, i, j)
  }

  least predicate DataName[nat](w: string, i: nat, j: nat)
  {
    || (Is(w, i, 'T') && OneOf(w, i + 1, "VTIS") && Type(w, i + 2, j))
    || (Is(w, i, 'T') && OneOf(w, i + 1, "FJ") && Type(w, i + 2, j))
    || (Is(w, i, 'G') && Is(w, i + 1, 'V') && Name(w, i + 2, j))
    || (Is(w, i, 'G') && Is(w, i + 1, 'R') && Name(w, i + 2, j))
    || (Is(w, i, 'G') && Is(w, i + 1, 'A') && Encoding(w, i + 2, j))
  }

  least predicate ThunkName[nat](w: string, i: nat, j: nat)
  {
    || (Is(w, i, 'T') && exists k: nat :: CallOffset(w, i + 1, k) && Encoding(w, k, j))
    || (Is(w, i, 'T') && OneOf(w, i + 1, "hv") && exists k: nat :: CallOffset(w, i + 2, k) && Encoding(w, k, j))
    || (Is(w, i, 'T') && Is(w, i + 1, 'c')
        && exists k: nat, l: nat :: CallOffset(w, i + 2, k) && CallOffset(w, k, l) && Encoding(w, l, j))
  }

  least predicate ConstructionTable[nat](w: string, i: nat, j: nat)
  {
    Is(w, i, 'T') && Is(w, i + 1, 'C')
    && exists k: nat, l: nat :: Type(w, i + 2, k) && Number(w, k, l) && Is(w, l, '_') && Type(w, l + 1, j)
  }

  // ---------------------------------------------------------------------------
  // Types.

  least predicate Type[nat](w: string, i: nat, j: nat)
  {
    || QualifiedType(w, i, j)
    || ExtendedType(w, i, j)
    || PlainType(w, i, j)
    || (exists k: nat :: TemplateTemplateParam(w, i, k) && TemplateArgs(w, k, j))
    || TemplateParam(w, i, j)
  }

  least predicate QualifiedType[nat](w: string, i: nat, j: nat)
  {
    || (exists k: nat :: CVQualifiers(w, i, k) && Type(w, k, j))
    || (OneOf(w, i, "OPRCG") && Type(w, i + 1, j))
    || (Is(w, i, 'D') && Is(w, i + 1, 'p') && Type(w, i + 2, j))
  }

  least predicate ExtendedType[nat](w: string, i: nat, j: nat)
  {
    || (Is(w, i, 'D') && OneOf(w, i + 1, "tT")
        && exists k: nat :: Expression(w, i + 2, k) && Is(w, k, 'E') && j == k + 1)
    || (Is(w, i, 'U') && exists k: nat :: SourceName(w, i + 1, k) && Type(w, k, j))
  }

  lemma MarkedStarts(w: string, i: nat, j: nat)
    requires QualifiedType(w, i, j) || ExtendedType(w, i, j)
    ensures i < |w| && (IsLower(w[i]) ==> w[i] == 'r')
  {
  }

  lemma BuiltinIsLower(c: char)
    requires c in BUILTIN_TYPES
    ensures IsLower(c) && c != 'r'
  {
  }

  lemma MarkedIsNoLetter(w: string, i: nat, j: nat)
    requires QualifiedType(w, i, j) || ExtendedType(w, i, j)
    ensures !OneOf(w, i, BUILTIN_TYPES)
  {
    MarkedStarts(w, i, j);
    if OneOf(w, i, BUILTIN_TYPES) {
      BuiltinIsLower(w[i]);
    }
  }

  least predicate PlainType[nat](w: string, i: nat, j: nat)
  {
    || BuiltinType(w, i, j) || FunctionType(w, i, j) || Name(w, i, j)
    || ArrayType(w, i, j) || PointerToMemberType(w, i, j) || Substitution(w, i, j)
  }

  ghost predicate BuiltinType(w: string, i: nat, j: nat)
  {
    (OneOf(w, i, BUILTIN_TYPES) && j == i + 1) || (Is(w, i, 'u') && SourceName(w, i + 1, j))
  }

  least predicate FunctionType[nat](w: string, i: nat, j: nat)
  {
    Is(w, i, 'F')
    && exists k: nat, l: nat ::
         (k == i + 1 || (Is(w, i + 1, 'Y') && k == i + 2)) && BareFunctionType(w, k, l) && Is(w, l, 'E') && j == l + 1
  }

  /** One or more types. */
  least predicate BareFunctionType[nat](w: string, i: nat, j: nat)
  {
    Type(w, i, j) || exists k: nat :: BareFunctionType(w, i, k) && Type(w, k, j)
  }

  least predicate ArrayType[nat](w: string, i: nat, j: nat)
  {
    Is(w, i, 'A')
    && exists k: nat ::
         (k == i + 1 || Number(w, i + 1, k) || Expression(w, i + 1, k)) && ArrayElement(w, k, j)
  }

  least predicate ArrayElement[nat](w: string, i: nat, j: nat)
  {
    Is(w, i, '_') && Type(w, i + 1, j)
  }

  least predicate PointerToMemberType[nat](w: string, i: nat, j: nat)
  {
    Is(w, i, 'M') && exists k: nat :: Type(w, i + 1, k) && Type(w, k, j)
  }

  ghost predicate TemplateTemplateParam(w: string, i: nat, j: nat)
  {
    TemplateParam(w, i, j) || Substitution(w, i, j)
  }

  // ---------------------------------------------------------------------------
  // Template arguments and expressions.

  least predicate TemplateArgs[nat](w: string, i: nat, j: nat)
  {
    Is(w, i, 'I') && exists k: nat :: TemplateArgList(w, i + 1, k) && Is(w, k, 'E') && j == k + 1
  }

  /** One or more template arguments. */
  least predicate TemplateArgList[nat](w: string, i: nat, j: nat)
  {
    TemplateArg(w, i, j) || exists k: nat :: TemplateArgList(w, i, k) && TemplateArg(w, k, j)
  }

  least predicate TemplateArg[nat](w: string, i: nat, j: nat)
  {
    || Type(w, i, j)
    || ExprPrimary(w, i, j)
    || (Is(w, i, 'I') && exists k: nat :: (k == i + 1 || TemplateArgList(w, i + 1, k)) && Is(w, k, 'E') && j == k + 1)
    || (Is(w, i, 'X') && exists k: nat :: Expression(w, i + 1, k) && Is(w, k, 'E') && j == k + 1)
  }

  least predicate Expression[nat](w: string, i: nat, j: nat)
  {
    TemplateParam(w, i, j) || ExprPrimary(w, i, j) || OperatorExpression(w, i, j) || ScopedExpression(w, i, j)
  }

  /** An operator and one, two or three operands. */
  least predicate OperatorExpression[nat](w: string, i: nat, j: nat)
  {
    || (exists k: nat, l: nat, m: nat ::
          OperatorName(w, i, k) && Expression(w, k, l) && Expression(w, l, m) && Expression(w, m, j))
    || (exists k: nat, l: nat :: OperatorName(w, i, k) && Expression(w, k, l) && Expression(w, l, j))
    || (exists k: nat :: OperatorName(w, i, k) && Expression(w, k, j))
  }

  least predicate ScopedExpression[nat](w: string, i: nat, j: nat)
  {
    || (Is(w, i, 's') && Is(w, i + 1, 't') && Type(w, i + 2, j))
    || ScopedName(w, i, j)
    || (exists l: nat :: ScopedName(w, i, l) && TemplateArgs(w, l, j))
  }

  least predicate ScopedName[nat](w: string, i: nat, j: nat)
  {
    Is(w, i, 's') && Is(w, i + 1, 'r') && exists k: nat :: Type(w, i + 2, k) && UnqualifiedName(w, k, j)
  }

  least predicate ExprPrimary[nat](w: string, i: nat, j: nat)
  {
    TypedLiteral(w, i, j) || NamedLiteral(w, i, j)
  }

  least predicate TypedLiteral[nat](w: string, i: nat, j: nat)
  {
    Is(w, i, 'L')
    && exists k: nat, l: nat ::
         Type(w, i + 1, k) && (Number(w, k, l) || FloatNumber(w, k, l)) && Is(w, l, 'E') && j == l + 1
  }

  least predicate NamedLiteral[nat](w: string, i: nat, j: nat)
  {
    || (Is(w, i, 'L') && exists k: nat :: MangledName(w, i + 1, k) && Is(w, k, 'E') && j == k + 1)
    || (Is(w, i, 'L') && Is(w, i + 1, 'Z') && exists k: nat :: Encoding(w, i + 2, k) && Is(w, k, 'E') && j == k + 1)
  }

  // ---------------------------------------------------------------------------
  // Ordinary names and their texts.

  const ANONYMOUS := "_GLOBAL__N_"
  const ANONYMOUS_TEXT := "(anonymous namespace)"

  /** A source name that starts with its length, which is not 0, and is no text in angle brackets. */
  predicate PlainName(w: string, i: nat)
  {
    && i < |w| && IsDigit(w[i])
    && NumberValue(w, i) > 0 && NumberEnd(w, i) + NumberValue(w, i) <= |w| && w[NumberEnd(w, i)] != '<'
  }

  function PlainEnd(w: string, i: nat): (e: nat)
    requires PlainName(w, i)
    ensures i < e <= |w|
  {
    NumberEnd(w, i) + NumberValue(w, i)
  }

  /** The text of an identifier: anonymous namespaces are shown as such. */
  function IdentifierText(w: string, start: nat, length: nat): string
    requires start + length <= |w|
  {
    if length > |ANONYMOUS| && ANONYMOUS <= w[start..] then ANONYMOUS_TEXT else w[start..start + length]
  }

  function PlainText(w: string, i: nat): (t: string)
    requires PlainName(w, i)
    ensures t != "" && t[0] != '<'
  {
    IdentifierText(w, NumberEnd(w, i), NumberValue(w, i))
  }

  /** Where the plain names in a row end, how many they are, and their texts with separators. */
  function PartsEnd(w: string, i: nat): (e: nat)
    requires i <= |w|
    ensures i <= e <= |w|
    decreases |w| - i
  {
    if PlainName(w, i) then PartsEnd(w, PlainEnd(w, i)) else i
  }

  function PartsCount(w: string, i: nat): nat
    requires i <= |w|
    decreases |w| - i
  {
    if PlainName(w, i) then 1 + PartsCount(w, PlainEnd(w, i)) else 0
  }

  function PartsText(w: string, i: nat): string
    requires i <= |w|
    decreases |w| - i
  {
    if !PlainName(w, i) then ""
    else
      var e := PlainEnd(w, i);
      PlainText(w, i) + if PlainName(w, e) then "::" + PartsText(w, e) else ""
  }

  /** Plain names between N and E; the parser counts them in a short. */
  predicate NestedParts(w: string, i: nat)
  {
    && Is(w, i, 'N') && PlainName(w, i + 1) && Is(w, PartsEnd(w, i + 1), 'E') && PartsCount(w, i + 1) <= 0x7fff
  }

  /** A plain name without template arguments, or a nested one. */
  predicate OrdinaryName(w: string, i: nat)
  {
    (PlainName(w, i) && !Is(w, PlainEnd(w, i), 'I')) || NestedParts(w, i)
  }

  function OrdinaryEnd(w: string, i: nat): (e: nat)
    requires OrdinaryName(w, i)
    ensures i < e <= |w|
  {
    if PlainName(w, i) then PlainEnd(w, i) else PartsEnd(w, i + 1) + 1
  }

  function OrdinaryText(w: string, i: nat): (t: string)
    requires OrdinaryName(w, i)
    ensures t != ""
  {
    if PlainName(w, i) then PlainText(w, i) else PartsText(w, i + 1)
  }

  /** Behind a nested name a separator is written and taken back. */
  function OrdinaryRoom(w: string, i: nat): nat
  {
    if Is(w, i, 'N') then 2 else 0
  }

  /** The rest of the name is a sequence of the letters of builtin types. */
  predicate OnlyLetters(w: string, i: nat)
  {
    forall k: nat :: i <= k < |w| ==> OneOf(w, k, BUILTIN_TYPES)
  }

  /** An ordinary name, and letters of builtin types for the parameters if it is the name of a function. */
  predicate OrdinaryEncoding(w: string, i: nat)
  {
    OrdinaryName(w, i) && OnlyLetters(w, OrdinaryEnd(w, i))
  }

  function EncodedText(w: string, i: nat): string
    requires OrdinaryEncoding(w, i)
  {
    OrdinaryText(w, i) + if OrdinaryEnd(w, i) < |w| then "()" else ""
  }

  /** The parentheses need the room that a separator behind the name would have needed. */
  function EncodedRoom(w: string, i: nat): nat
    requires OrdinaryEncoding(w, i)
  {
    if OrdinaryEnd(w, i) < |w| then 0 else OrdinaryRoom(w, i)
  }

  /** The name of a function with parameters of builtin types, or of a variable. */
  predicate OrdinarySymbol(w: string, i: nat)
  {
    Is(w, i, '_') && Is(w, i + 1, 'Z') && OrdinaryEncoding(w, i + 2)
  }

  lemma BehindPrefix(w: string, i: nat)
    requires OrdinarySymbol(w, i)
    ensures Is(w, i, '_') && Is(w, i + 1, 'Z') && OrdinaryEncoding(w, i + 2)
  {
  }

  /** A nested name without any parts, which the parser accepts. */
  ghost predicate EmptyNestedName(w: string, i: nat)
  {
    Is(w, i, 'N') && exists k: nat :: (k == i + 1 || CVQualifiers(w, i + 1, k)) && Is(w, k, 'E')
  }

  // ---------------------------------------------------------------------------
  // The places where a source name may be looked for.

  /** A letter behind which a name may follow, wherever it stands. */
  predicate IsMark(c: char)
  {
    c == '_' || c == 'r' || c == 'u' || ('A' <= c <= 'Z' && c != 'T')
  }

  predicate IsLetter(c: char)
  {
    IsMark(c) || IsLower(c)
  }

  predicate SignedDigit(w: string, i: nat)
  {
    Is(w, i, 'n') && i + 1 < |w| && IsDigit(w[i + 1])
  }

  /** Two characters that are read together. */
  predicate PairHop(w: string, a: nat)
  {
    || (Is(w, a, 'S') && Is(w, a + 1, 't'))
    || (Is(w, a, 'D') && Is(w, a + 1, 'T'))
    || (Is(w, a, 'T') && OneOf(w, a + 1, "VTISFJC"))
    || (Is(w, a, 'v') && OneOf(w, a + 1, DIGITS))
  }

  /** What stands between the T of a thunk and the encoding of its target; its numbers may be negative. */
  ghost predicate ThunkOffset(w: string, a: nat, b: nat)
  {
    Is(w, a, 'T')
    && (|| CallOffset(w, a + 1, b)
        || (OneOf(w, a + 1, "hv") && CallOffset(w, a + 2, b))
        || (Is(w, a + 1, 'c') && exists k: nat :: CallOffset(w, a + 2, k) && CallOffset(w, k, b)))
  }

  ghost predicate TableOffset(w: string, a: nat, b: nat)
  {
    Is(w, a, 'T') && Is(w, a + 1, 'C')
    && exists k: nat, l: nat :: a + 2 <= k && Number(w, k, l) && Is(w, l, '_') && b == l + 1
  }

  ghost predicate ArrayBound(w: string, a: nat, b: nat)
  {
    Is(w, a, 'A') && exists k: nat :: Number(w, a + 1, k) && Is(w, k, '_') && b == k + 1
  }

  ghost predicate ScopeType(w: string, a: nat, b: nat)
  {
    Is(w, a, 's') && Is(w, a + 1, 'r') && Type(w, a + 2, b)
  }

  /**
   * From a place where a name may start to the next one. A lower-case letter may be a type; the sign of a number
   * behind it is no place for a name, for there an 'n' is a type itself.
   */
  ghost predicate Hop(w: string, a: nat, b: nat)
  {
    a < b
    && (|| (a < |w| && IsMark(w[a]) && b == a + 1)
        || (a < |w| && IsLower(w[a]) && b == if SignedDigit(w, a + 1) then a + 2 else a + 1)
        || (PairHop(w, a) && b == a + 2)
        || SourceName(w, a, b) || OperatorSymbol(w, a, b) || CtorDtorName(w, a, b)
        || TemplateParam(w, a, b) || Substitution(w, a, b) || Discriminator(w, a, b)
        || CastName(w, a, b) || ScopeType(w, a, b) || TypedLiteral(w, a, b)
        || ThunkOffset(w, a, b) || TableOffset(w, a, b) || ArrayBound(w, a, b))
  }

  lemma PairAt(w: string, a: nat, pair: string)
    requires a + 2 <= |w| && |pair| == 2
    ensures w[a..a + 2] == pair <==> w[a] == pair[0] && w[a + 1] == pair[1]
  {
  }

  /** The start, and what hops lead to. */
  ghost predicate Reached(w: string, i: nat)
  {
    i == 0 || exists j: nat :: j < i && Reached(w, j) && Hop(w, j, i)
  }

  /** The places where a type may be looked for: those for names, and signs that are types in front of a name. */
  ghost predicate ReachedByType(w: string, i: nat)
  {
    Reached(w, i) || (SignedDigit(w, i) && Reached(w, i + 1))
  }

  ghost predicate HopsStay(w: string, places: iset<nat>)
  {
    forall a: nat, b: nat {:trigger Hop(w, a, b)} :: a in places && Hop(w, a, b) ==> b in places
  }

  /** Places for names and for types that nothing read at one of them leads out of. */
  ghost predicate ClosedUnderHops(w: string, places: iset<nat>, typePlaces: iset<nat>)
  {
    && HopsStay(w, places)
    && (forall i: nat {:trigger i in places} :: i in places ==> i in typePlaces)
    && (forall i: nat {:trigger SignedDigit(w, i)} ::
          i in typePlaces <==> i in places || (SignedDigit(w, i) && i + 1 in places))
  }

  lemma HopReaches(w: string, a: nat, b: nat)
    requires Reached(w, a) && Hop(w, a, b)
    ensures Reached(w, b)
  {
    assert a < b;
  }

  lemma HopsStayReached(w: string)
    ensures HopsStay(w, iset i: nat | Reached(w, i))
  {
    forall a: nat, b: nat | Reached(w, a) && Hop(w, a, b)
      ensures Reached(w, b)
    {
      HopReaches(w, a, b);
    }
  }

  lemma ReachedIsClosed(w: string)
    ensures ClosedUnderHops(w, iset i: nat | Reached(w, i), iset i: nat | ReachedByType(w, i))
  {
    HopsStayReached(w);
  }

  predicate NotNegativeAt(w: string, i: nat)
    requires i <= |w|
  {
    HasNumber(w, i) ==> NumberValue(w, i) >= -1
  }

  /** Where a source name may be looked for, no number is below -1; and -1 is rejected. */
  ghost predicate LengthsNotNegative(w: string)
  {
    forall i: nat :: i <= |w| && Reached(w, i) ==> NotNegativeAt(w, i)
  }

  /** It is enough that numbers from some place on are not negative and that no earlier number is reached. */
  lemma NumbersNotNegative(w: string, from: nat)
    requires forall i: nat :: from <= i <= |w| ==> NotNegativeAt(w, i)
    requires forall i: nat :: i < from && i <= |w| && Reached(w, i) ==> NotNegativeAt(w, i)
    ensures LengthsNotNegative(w)
  {
  }

  // ---------------------------------------------------------------------------
  // Function clone suffixes: (.<alpha>+.<digit>+)*

  /** A dot, letters up to a, a dot, digits up to d. */
  predicate CloneUnit(s: string, a: nat, d: nat)
  {
    && 2 <= a && a + 2 <= d <= |s|
    && s[0] == '.' && s[a] == '.'
    && (forall k :: 0 < k < a ==> IsAlpha(s[k]))
    && (forall k :: a < k < d ==> IsDigit(s[k]))
  }

  ghost predicate CloneSuffix(s: string)
    decreases |s|
  {
    s == [] || exists a: nat, d: nat :: CloneUnit(s, a, d) && CloneSuffix(s[d..])
  }

  lemma UnitsAgree(s: string, a: nat, d: nat, b: nat, e: nat)
    requires CloneUnit(s, a, d) && CloneUnit(s, b, e)
    ensures a == b
  {
  }

  lemma SuffixStarts(s: string)
    requires CloneSuffix(s)
    ensures s == [] || s[0] == '.'
  {
  }

  /** A maximal unit decides: a suffix cannot be cut differently. */
  lemma OneCloneSuffix(s: string, a: nat, d: nat)
    requires CloneUnit(s, a, d) && (d < |s| ==> !IsDigit(s[d]))
    ensures CloneSuffix(s) <==> CloneSuffix(s[d..])
  {
    if CloneSuffix(s) {
      var b: nat, e: nat :| CloneUnit(s, b, e) && CloneSuffix(s[e..]);
      UnitsAgree(s, a, d, b, e);
      SuffixStarts(s[e..]);
      assert e == d;
    }
  }

  lemma NoCloneSuffix(s: string, a: nat)
    requires 2 <= a <= |s| && s[0] == '.' && forall k :: 0 < k < a ==> IsAlpha(s[k])
    requires a == |s| || s[a] != '.' || a + 1 == |s| || !IsDigit(s[a + 1])
    requires a < |s| ==> !IsAlpha(s[a])
    ensures !CloneSuffix(s)
  {
    forall b: nat, d: nat
      ensures !CloneUnit(s, b, d)
    {
      assert b < a && 2 <= b ==> IsAlpha(s[b]);
    }
  }
}
