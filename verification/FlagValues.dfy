/** The values of command line flags: how they are read from text and how they are printed. */
module FlagValues {
  import opened Wrappers
  import opened Numerals

  datatype FlagType = Bool | Int32 | Int64 | UInt64 | String

  datatype Value =
    | BoolValue(b: bool)
    | Int32Value(n: int)
    | Int64Value(n: int)
    | UInt64Value(n: int)
    | StringValue(s: string)

  function TypeOf(v: Value): FlagType {
    match v
    case BoolValue(_) => Bool
    case Int32Value(_) => Int32
    case Int64Value(_) => Int64
    case UInt64Value(_) => UInt64
    case StringValue(_) => String
  }

  const HALF32: int := 0x8000_0000

  /** The values the type of a flag can hold; strings come and go as C strings. */
  predicate Fits(v: Value) {
    match v
    case BoolValue(_) => true
    case Int32Value(n) => -HALF32 <= n < HALF32
    case Int64Value(n) => -HALF <= n < HALF
    case UInt64Value(n) => 0 <= n < WORD
    case StringValue(s) => '\0' !in s
  }

  function LowerChar(ch: char): char {
    if 'A' <= ch <= 'Z' then (ch as int + 32) as char else ch
  }

  function Lower(s: string): string {
    if s == "" then "" else [LowerChar(s[0])] + Lower(s[1..])
  }

  const TRUE_WORDS: set<string> := {"1", "t", "true", "y", "yes"}
  const FALSE_WORDS: set<string> := {"0", "f", "false", "n", "no"}

  /** What strtoll and strtoull find in a text: sign, magnitude and how much of the text they used. */
  datatype Reading = Reading(negative: bool, magnitude: nat, end: nat)

  predicate HasHexPrefix(s: string) {
    |s| > 2 && s[0] == '0' && (s[1] == 'x' || s[1] == 'X') && IsBaseDigit(s[2], 16)
  }

  function ReadDigits(s: string, base: nat, negative: bool, before: nat): Reading {
    var skip := if base == 16 && HasHexPrefix(s) then 2 else 0;
    var digits := DigitRun(s[skip..], base);
    if digits == "" then Reading(false, 0, 0)
    else Reading(negative, Numerals.Value(digits, base), before + skip + |digits|)
  }

  function ReadSigned(s: string, base: nat, before: nat): Reading {
    if s != "" && (s[0] == '-' || s[0] == '+') then ReadDigits(s[1..], base, s[0] == '-', before + 1)
    else ReadDigits(s, base, false, before)
  }

  function Strto(s: string, base: nat): Reading {
    ReadSigned(SkipSpace(s), base, |s| - |SkipSpace(s)|)
  }

  function SignedOf(r: Reading): int {
    if r.negative then 0 - r.magnitude else r.magnitude
  }

  /** strtoull negates in the unsigned type. */
  function UnsignedOf(r: Reading): int {
    if r.negative then (0 - r.magnitude) % WORD else r.magnitude
  }

  function SkipBlanks(s: string): string {
    if s != "" && s[0] == ' ' then SkipBlanks(s[1..]) else s
  }

  function BaseOf(s: string): nat {
    if |s| > 1 && s[0] == '0' && (s[1] == 'x' || s[1] == 'X') then 16 else 10
  }

  function ParseInteger(kind: FlagType, s: string): Option<Value>
    requires kind == Int32 || kind == Int64 || kind == UInt64
  {
    if s == "" then None
    else
      var base := BaseOf(s);
      if kind == UInt64 then
        var t := SkipBlanks(s);
        var r := Strto(t, base);
        if (t != "" && t[0] == '-') || r.magnitude >= WORD || r.end != |t| then None
        else Some(UInt64Value(UnsignedOf(r)))
      else
        var r := Strto(s, base);
        if !(-HALF <= SignedOf(r) < HALF) || r.end != |s| then None
        else if kind == Int64 then Some(Int64Value(SignedOf(r)))
        else if !(-HALF32 <= SignedOf(r) < HALF32) then None
        else Some(Int32Value(SignedOf(r)))
  }

  /** The value a text stands for, if it is a legal one for the type. */
  function ParseFrom(kind: FlagType, s: string): Option<Value> {
    match kind
    case Bool =>
      if Lower(s) in TRUE_WORDS then Some(BoolValue(true))
      else if Lower(s) in FALSE_WORDS then Some(BoolValue(false))
      else None
    case String => Some(StringValue(s))
    case _ => ParseInteger(kind, s)
  }

  function Printed(n: int): string {
    if n < 0 then "-" + Numeral(-n, 10, 1) else Numeral(n, 10, 1)
  }

  function ToString(v: Value): string {
    match v
    case BoolValue(b) => if b then "true" else "false"
    case Int32Value(n) => Printed(n)
    case Int64Value(n) => Printed(n)
    case UInt64Value(n) => Printed(n)
    case StringValue(s) => s
  }

  /** A legal text gives a value of the flag's own type and range. */
  lemma ParsedFits(kind: FlagType, s: string)
    requires '\0' !in s && ParseFrom(kind, s).Some?
    ensures TypeOf(ParseFrom(kind, s).value) == kind && Fits(ParseFrom(kind, s).value)
  {
  }

  lemma NumeralOfDecimals(n: nat)
    ensures
      var s := Numeral(n, 10, 1);
      && s != "" && DigitRun(s, 10) == s && Numerals.Value(s, 10) == n
      && (forall i :: 0 <= i < |s| ==> '0' <= s[i] <= '9')
  {
    var s := Numeral(n, 10, 1);
    NumeralIsNumeral(n, 10, 1);
    DigitRunIs(s, 10, "");
    assert s + "" == s;
  }

  lemma ReadsAllDigits(s: string, negative: bool, before: nat)
    requires s != "" && DigitRun(s, 10) == s
    ensures ReadDigits(s, 10, negative, before) == Reading(negative, Numerals.Value(s, 10), before + |s|)
  {
    assert s[0..] == s;
  }

  predicate IsDecimal(s: string) {
    s != "" && forall i :: 0 <= i < |s| ==> '0' <= s[i] <= '9'
  }

  /** A number in base ten starts with no white space and no hexadecimal prefix. */
  lemma DecimalShape(s: string)
    requires IsDecimal(s)
    ensures SkipBlanks(s) == s && SkipSpace(s) == s && BaseOf(s) == 10 && s[0] != '-' && s[0] != '+'
    ensures var t := "-" + s; SkipBlanks(t) == t && SkipSpace(t) == t && BaseOf(t) == 10
  {
  }

  lemma ReadDecimal(s: string)
    requires IsDecimal(s) && DigitRun(s, 10) == s
    ensures Strto(s, 10) == Reading(false, Numerals.Value(s, 10), |s|)
    ensures Strto("-" + s, 10) == Reading(true, Numerals.Value(s, 10), |s| + 1)
  {
    DecimalShape(s);
    ReadsAllDigits(s, false, 0);
    ReadsAllDigits(s, true, 1);
    assert ("-" + s)[1..] == s;
  }

  ghost predicate ReadsAs(s: string, n: int) {
    && s != "" && SkipBlanks(s) == s && BaseOf(s) == 10 && (n >= 0 ==> s[0] != '-')
    && Strto(s, 10) == Reading(n < 0, if n < 0 then -n else n, |s|)
  }

  lemma PrintedReads(n: int)
    ensures ReadsAs(Printed(n), n)
  {
    var m: nat := if n < 0 then -n else n;
    var s := Numeral(m, 10, 1);
    NumeralOfDecimals(m);
    DecimalShape(s);
    ReadDecimal(s);
  }

  lemma ParseSigned(s: string, n: int)
    requires ReadsAs(s, n)
    ensures -HALF32 <= n < HALF32 ==> ParseInteger(Int32, s) == Some(Int32Value(n))
    ensures -HALF <= n < HALF ==> ParseInteger(Int64, s) == Some(Int64Value(n))
  {
    var r := Strto(s, 10);
    assert SignedOf(r) == n && r.end == |s|;
  }

  lemma ParseUnsigned(s: string, n: nat)
    requires ReadsAs(s, n) && n < WORD
    ensures ParseInteger(UInt64, s) == Some(UInt64Value(n))
  {
    var r := Strto(s, 10);
    assert UnsignedOf(r) == n && r.end == |s|;
  }

  /** Printing and parsing undo each other on every value of every type, bounds included. */
  lemma PrintThenParse(v: Value)
    requires Fits(v)
    ensures ParseFrom(TypeOf(v), ToString(v)) == Some(v)
  {
    match v
    case BoolValue(b) => LowerCaseWords();
    case StringValue(_) =>
    case Int32Value(n) => PrintedReads(n); ParseSigned(Printed(n), n);
    case Int64Value(n) => PrintedReads(n); ParseSigned(Printed(n), n);
    case UInt64Value(n) => PrintedReads(n); ParseUnsigned(Printed(n), n);
  }

  lemma LowerCaseWords()
    ensures Lower("true") == "true" && Lower("false") == "false"
  {
    assert Lower("e") == "e" && Lower("se") == "se" && Lower("lse") == "lse" && Lower("alse") == "alse";
    assert Lower("ue") == "ue" && Lower("rue") == "rue";
  }

  lemma NumeralOfHexDigits(n: nat)
    ensures var s := Numeral(n, 16, 1); s != "" && DigitRun(s, 16) == s && Numerals.Value(s, 16) == n
  {
    var s := Numeral(n, 16, 1);
    NumeralIsNumeral(n, 16, 1);
    DigitRunIs(s, 16, "");
    assert s + "" == s;
  }

  lemma HexDigitsRead(digits: string)
    requires digits != "" && DigitRun(digits, 16) == digits
    ensures var s := "0x" + digits;
      BaseOf(s) == 16 && SkipBlanks(s) == s && s[0] != '-'
      && Strto(s, 16) == Reading(false, Numerals.Value(digits, 16), |s|)
  {
    var s := "0x" + digits;
    assert s[2..] == digits && SkipSpace(s) == s && IsBaseDigit(digits[0], 16);
  }

  lemma SignedHexStops(digits: string)
    ensures var s := "-0x" + digits;
      BaseOf(s) == 10 && SkipBlanks(s) == s && s[0] == '-' && Strto(s, 10) == Reading(true, 0, 2)
  {
    var s := "-0x" + digits;
    assert SkipSpace(s) == s && s[1..] == "0" + ("x" + digits);
    DigitRunIs("0", 10, "x" + digits);
    assert s[1..][0..] == s[1..];
    assert Numerals.Value("0"[..0], 10) == 0;
  }

  lemma HexTaken(s: string, n: nat)
    requires s != "" && BaseOf(s) == 16 && SkipBlanks(s) == s && s[0] != '-' && Strto(s, 16) == Reading(false, n, |s|)
    ensures n < WORD ==> ParseInteger(UInt64, s) == Some(UInt64Value(n))
    ensures n < HALF ==> ParseInteger(Int64, s) == Some(Int64Value(n))
    ensures n < HALF32 ==> ParseInteger(Int32, s) == Some(Int32Value(n))
  {
    var r := Strto(s, 16);
    assert SignedOf(r) == UnsignedOf(r) == n && r.end == |s|;
  }

  lemma HexRefused(s: string)
    requires s != "" && BaseOf(s) == 10 && SkipBlanks(s) == s && Strto(s, 10).end < |s|
    ensures ParseInteger(Int32, s) == ParseInteger(Int64, s) == ParseInteger(UInt64, s) == None
  {
  }

  /** Behind 0x a text is read in base sixteen; with a sign in front it is not, and is refused. */
  lemma HexIsRead(n: nat)
    ensures n < WORD ==> ParseFrom(UInt64, "0x" + Numeral(n, 16, 1)) == Some(UInt64Value(n))
    ensures n < HALF ==> ParseFrom(Int64, "0x" + Numeral(n, 16, 1)) == Some(Int64Value(n))
    ensures n < HALF32 ==> ParseFrom(Int32, "0x" + Numeral(n, 16, 1)) == Some(Int32Value(n))
    ensures forall kind :: kind in {Int32, Int64, UInt64} ==> ParseFrom(kind, "-0x" + Numeral(n, 16, 1)) == None
  {
    var digits := Numeral(n, 16, 1);
    NumeralOfHexDigits(n);
    HexDigitsRead(digits);
    HexTaken("0x" + digits, n);
    SignedHexStops(digits);
    HexRefused("-0x" + digits);
  }

  predicate HidesMinus(s: string) {
    SkipSpace(s) != "" && SkipSpace(s)[0] == '-'
  }

  /** An unsigned flag is given the number its text means unless a minus sign hides behind other white space than
      blanks: then the value wraps around. */
  lemma UnsignedIsMeant(s: string)
    requires ParseFrom(UInt64, s).Some?
    ensures
      var r := Strto(SkipBlanks(s), BaseOf(s));
      ParseFrom(UInt64, s).value.n == SignedOf(r) <==> !HidesMinus(s) || r.magnitude == 0
  {
    var r := Strto(SkipBlanks(s), BaseOf(s));
    UnsignedParsed(s);
    SkipsBlanksFirst(s);
    SignRead(SkipBlanks(s), BaseOf(s));
    MeantUnlessNegated(r, HidesMinus(s));
  }

  lemma MeantUnlessNegated(r: Reading, minus: bool)
    requires r.magnitude < WORD && if r.end > 0 then r.negative <==> minus else r.magnitude == 0
    ensures UnsignedOf(r) == SignedOf(r) <==> !minus || r.magnitude == 0
  {
    Wraps(r);
  }

  lemma UnsignedParsed(s: string)
    requires ParseFrom(UInt64, s).Some?
    ensures
      var r := Strto(SkipBlanks(s), BaseOf(s));
      ParseFrom(UInt64, s).value.n == UnsignedOf(r) && r.magnitude < WORD && r.end == |SkipBlanks(s)|
  {
  }

  lemma Wraps(r: Reading)
    requires r.magnitude < WORD
    ensures UnsignedOf(r) == if r.negative && r.magnitude > 0 then WORD - r.magnitude else r.magnitude
  {
    if r.negative && r.magnitude > 0 {
      assert 0 - r.magnitude == (0 - 1) * WORD + (WORD - r.magnitude);
    }
  }

  lemma {:induction false} SkipsBlanksFirst(s: string)
    ensures SkipSpace(SkipBlanks(s)) == SkipSpace(s)
  {
    if s != "" && s[0] == ' ' {
      SkipsBlanksFirst(s[1..]);
    }
  }

  lemma SignRead(s: string, base: nat)
    ensures var r := Strto(s, base); if r.end > 0 then r.negative <==> HidesMinus(s) else r.magnitude == 0
  {
  }

  lemma TabHidesMinus(n: nat)
    requires 0 < n < WORD
    ensures ParseFrom(UInt64, Printed(0 - n)) == None
    ensures ParseFrom(UInt64, "\t" + Printed(0 - n)) == Some(UInt64Value(WORD - n))
  {
    var t := Printed(0 - n);
    PrintedReads(0 - n);
    assert t[0] == '-';
    assert ("\t" + t)[1..] == t;
    BehindSpace("\t" + t, 10);
    ReadsWrapped("\t" + t, n);
  }

  lemma ReadsWrapped(s: string, n: nat)
    requires 0 < n < WORD && s != "" && s[0] == '\t' && Strto(s, 10) == Reading(true, n, |s|)
    ensures ParseInteger(UInt64, s) == Some(UInt64Value(WORD - n))
  {
    assert SkipBlanks(s) == s && BaseOf(s) == 10;
    Wraps(Strto(s, 10));
  }

  lemma BehindSpace(s: string, base: nat)
    requires s != "" && IsSpace(s[0]) && Strto(s[1..], base).end > 0
    ensures var r := Strto(s[1..], base); Strto(s, base) == r.(end := r.end + 1)
  {
    assert SkipSpace(s) == SkipSpace(s[1..]);
    ReadSignedLater(SkipSpace(s), base, |s| - 1 - |SkipSpace(s)|);
  }

  lemma ReadSignedLater(s: string, base: nat, before: nat)
    ensures
      var r := ReadSigned(s, base, before);
      r.end > 0 ==> ReadSigned(s, base, before + 1) == r.(end := r.end + 1)
  {
    if s != "" {
      ReadDigitsLater(s[1..], base, s[0] == '-', before + 1);
    }
    ReadDigitsLater(s, base, false, before);
  }

  lemma ReadDigitsLater(s: string, base: nat, negative: bool, before: nat)
    ensures
      var r := ReadDigits(s, base, negative, before);
      r.end > 0 ==> ReadDigits(s, base, negative, before + 1) == r.(end := r.end + 1)
  {
  }
}
