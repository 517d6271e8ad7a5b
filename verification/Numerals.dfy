/** Integers to numerals in a bounded buffer, and hexadecimal numerals back to 64-bit integers. */
module Numerals {
  import opened Wrappers

  const DIGITS := "0123456789abcdef"
  const WORD: nat := 0x1_0000_0000_0000_0000
  const HALF: int := 0x8000_0000_0000_0000

  predicate IsHexDigit(ch: char) {
    '0' <= ch <= '9' || 'A' <= ch <= 'F' || 'a' <= ch <= 'f'
  }

  /** The value of a digit, found the way the reader finds it: from the low half of the character code. */
  function DigitValue(ch: char): (d: nat)
    requires IsHexDigit(ch)
    ensures d < 16
  {
    if ch < 'A' then ch as int - '0' as int else ch as int % 16 + 9
  }

  /** A digit as the printer writes it. */
  predicate IsDigitOf(ch: char, base: nat) {
    IsHexDigit(ch) && !('A' <= ch <= 'F') && DigitValue(ch) < base
  }

  lemma DigitsHaveTheirValue(d: nat)
    requires d < 16
    ensures IsDigitOf(DIGITS[d], d + 1) && DigitValue(DIGITS[d]) == d
    ensures d > 0 ==> DIGITS[d] != '0'
  {
  }

  lemma DigitFromValue(ch: char)
    requires IsDigitOf(ch, 16)
    ensures ch == DIGITS[DigitValue(ch)]
  {
  }

  predicate AllHex(s: string) {
    forall i :: 0 <= i < |s| ==> IsHexDigit(s[i])
  }

  /** The value of a numeral, most significant digit first. */
  function Value(s: string, base: nat): nat
    requires AllHex(s)
  {
    if s == "" then 0 else Value(s[..|s| - 1], base) * base + DigitValue(s[|s| - 1])
  }

  predicate IsBaseDigit(ch: char, base: nat) {
    IsHexDigit(ch) && DigitValue(ch) < base
  }

  /** The longest run of digits a text starts with. */
  function DigitRun(s: string, base: nat): (t: string)
    ensures t <= s && AllHex(t) && (|t| < |s| ==> !IsBaseDigit(s[|t|], base))
    ensures forall i :: 0 <= i < |t| ==> IsBaseDigit(t[i], base)
  {
    if s == "" || !IsBaseDigit(s[0], base) then "" else [s[0]] + DigitRun(s[1..], base)
  }

  lemma {:induction false} DigitRunIs(s: string, base: nat, rest: string)
    requires forall i :: 0 <= i < |s| ==> IsBaseDigit(s[i], base)
    requires rest == "" || !IsBaseDigit(rest[0], base)
    ensures DigitRun(s + rest, base) == s
  {
    if s == "" {
      assert s + rest == rest;
    } else {
      assert (s + rest)[1..] == s[1..] + rest;
      DigitRunIs(s[1..], base, rest);
    }
  }

  /** isspace in the C locale. */
  predicate IsSpace(ch: char) {
    ch == ' ' || '\t' <= ch <= '\r'
  }

  function SkipSpace(s: string): (t: string)
    ensures |t| <= |s|
    ensures t != "" ==> !IsSpace(t[0])
  {
    if s != "" && IsSpace(s[0]) then SkipSpace(s[1..]) else s
  }

  /** The numeral of j with at least width digits, and no leading zero beyond those. */
  predicate IsNumeral(s: string, j: nat, base: nat, width: nat) {
    && AllHex(s)
    && (forall i :: 0 <= i < |s| ==> IsDigitOf(s[i], base))
    && Value(s, base) == j
    && |s| >= width
    && (|s| > width ==> s[0] != '0')
  }

  /** Quotient and remainder as functions of their own; DivisionAgrees ties them to / and %. */
  function Quotient(j: nat, base: nat): (q: nat)
    requires base > 0
    ensures q <= j && (base > 1 && j > 0 ==> q < j)
  {
    if j < base then 0 else 1 + Quotient(j - base, base)
  }

  function Remainder(j: nat, base: nat): (r: nat)
    requires base > 0
    ensures r < base
  {
    if j < base then j else Remainder(j - base, base)
  }

  lemma {:induction false} DivisionIs(j: nat, base: nat, q: nat, r: nat)
    requires base > 0 && r < base && j == q * base + r
    ensures Quotient(j, base) == q && Remainder(j, base) == r
  {
    if q > 0 {
      assert (q - 1) * base == q * base - base;
      Widen(1, q, base);
      DivisionIs(j - base, base, q - 1, r);
    }
  }

  lemma Widen(a: nat, b: nat, c: nat)
    requires a <= b
    ensures a * c <= b * c
  {
    assert b * c == a * c + (b - a) * c;
  }

  lemma DivisionAgrees(j: nat, base: nat)
    requires base > 0
    ensures Quotient(j, base) == j / base && Remainder(j, base) == j % base
    ensures Quotient(j, base) * base + Remainder(j, base) == j
  {
    DivisionIs(j, base, j / base, j % base);
  }

  function Numeral(j: nat, base: nat, width: nat): (s: string)
    requires 2 <= base <= 16
    decreases j + width
  {
    if j == 0 && width == 0 then ""
    else Numeral(Quotient(j, base), base, Pred(width)) + [DIGITS[Remainder(j, base)]]
  }

  function Pred(n: nat): nat {
    if n == 0 then 0 else n - 1
  }

  lemma {:induction false} NumeralIsNumeral(j: nat, base: nat, width: nat)
    requires 2 <= base <= 16
    ensures IsNumeral(Numeral(j, base, width), j, base, width)
    decreases j + width
  {
    if j > 0 || width > 0 {
      DivisionAgrees(j, base);
      NumeralIsNumeral(Quotient(j, base), base, Pred(width));
      AnotherDigit(Numeral(Quotient(j, base), base, Pred(width)), j, base, width);
    }
  }

  lemma AnotherDigit(head: string, j: nat, base: nat, width: nat)
    requires 2 <= base <= 16 && (j > 0 || width > 0)
    requires Quotient(j, base) * base + Remainder(j, base) == j
    requires IsNumeral(head, Quotient(j, base), base, Pred(width))
    ensures IsNumeral(head + [DIGITS[Remainder(j, base)]], j, base, width)
  {
    var d := DIGITS[Remainder(j, base)];
    DigitsHaveTheirValue(Remainder(j, base));
    assert (head + [d])[..|head|] == head;
    if head == "" {
      assert j == Remainder(j, base);
    }
  }

  /** There is one such numeral only, so any of its properties can be read off IsNumeral. */
  lemma {:induction false} NumeralIsUnique(s: string, j: nat, base: nat, width: nat)
    requires 2 <= base <= 16 && IsNumeral(s, j, base, width)
    ensures s == Numeral(j, base, width)
    decreases |s|
  {
    if s == "" {
      return;
    }
    var head, ch := s[..|s| - 1], s[|s| - 1];
    DivisionIs(j, base, Value(head, base), DigitValue(ch));
    DigitFromValue(ch);
    if width == 0 {
      LeadingDigitCounts(s, base);
    }
    NumeralIsUnique(head, Quotient(j, base), base, Pred(width));
  }

  lemma {:induction false} LeadingDigitCounts(s: string, base: nat)
    requires base >= 2 && s != "" && AllHex(s) && DigitValue(s[0]) > 0
    ensures Value(s, base) > 0
  {
    var head := s[..|s| - 1];
    if head != "" {
      LeadingDigitCounts(head, base);
      Widen(1, Value(head, base), base);
    }
  }

  function Power(base: nat, n: nat): nat {
    if n == 0 then 1 else base * Power(base, n - 1)
  }

  /** How long a numeral gets. */
  lemma {:induction false} NumeralFits(j: nat, base: nat, width: nat, n: nat)
    requires 2 <= base <= 16 && j < Power(base, n) && width <= n
    ensures |Numeral(j, base, width)| <= n
    decreases j + width
  {
    if j > 0 || width > 0 {
      DivisionAgrees(j, base);
      if Quotient(j, base) >= Power(base, n - 1) {
        Widen(Power(base, n - 1), Quotient(j, base), base);
      }
      NumeralFits(Quotient(j, base), base, Pred(width), n - 1);
    }
  }

  lemma SixteenHexDigits(j: nat, width: nat)
    requires j < WORD && width <= 16
    ensures |Numeral(j, 16, width)| <= 16
  {
    assert Power(16, 4) == 0x1_0000 by {
      assert Power(16, 2) == 256;
    }
    assert Power(16, 8) == 0x1_0000_0000 by {
      assert Power(16, 6) == 256 * Power(16, 4);
    }
    assert Power(16, 12) == 0x1_0000_0000_0000 by {
      assert Power(16, 10) == 256 * Power(16, 8);
    }
    assert Power(16, 16) == WORD by {
      assert Power(16, 14) == 256 * Power(16, 12);
    }
    NumeralFits(j, 16, width, 16);
  }

  predicate Negated(i: int, base: int) {
    i < 0 && base == 10
  }

  /** The unsigned word the digits are made of: in other bases than ten a negative number wraps around. */
  function Magnitude(i: int, base: int): (j: nat)
    ensures -HALF <= i < HALF ==> j < WORD
  {
    if Negated(i, base) then -i else i % WORD
  }

  /** What conversion should print, without its terminator. */
  function Printed(i: int, base: int, padding: nat): string
    requires 2 <= base <= 16
  {
    (if Negated(i, base) then "-" else "") + Numeral(Magnitude(i, base), base, Max(padding, 1))
  }

  method Itoa(i: int, buf: array<char>, sz: nat, base: int, padding: nat) returns (ok: bool)
    requires -HALF <= i < HALF && (base == 10 ==> i != -HALF)
    requires sz <= buf.Length
    modifies buf
    ensures ok <==> 2 <= base <= 16 && |Printed(i, base, padding)| < sz
    ensures ok ==> buf[..|Printed(i, base, padding)| + 1] == Printed(i, base, padding) + "\0"
    ensures !ok && sz > 0 ==> buf[0] == '\0'
    ensures buf[sz..] == old(buf[sz..])
  {
    var n := 1;
    if n > sz {
      return false;
    }
    if base < 2 || base > 16 {
      buf[0] := '\0';
      return false;
    }
    var start := 0;
    var j := i % WORD;
    if i < 0 && base == 10 {
      j := -i;
      n := n + 1;
      if n > sz {
        buf[0] := '\0';
        return false;
      }
      buf[start] := '-';
      start := start + 1;
    }
    ghost var numeral := Numeral(j, base, Max(padding, 1));
    var ptr;
    ok, ptr := PutDigits(buf, start, sz, j, base, padding, numeral);
    if ok {
      Reverse(buf, start, ptr, numeral);
    }
  }

  method SplitDigit(j: nat, base: nat) returns (ch: char, rest: nat)
    requires 2 <= base <= 16
    ensures ch == DIGITS[Remainder(j, base)] && rest == Quotient(j, base)
  {
    DivisionAgrees(j, base);
    return DIGITS[j % base], j / base;
  }

  ghost predicate Backwards(buf: array<char>, from: nat, to: nat, text: string)
    reads buf
  {
    from <= to <= buf.Length && |text| == to - from && forall k :: from <= k < to ==> buf[k] == text[to - 1 - k]
  }

  /** The digits, last one first, and the terminator. */
  method PutDigits(buf: array<char>, start: nat, sz: nat, number: nat, base: nat, width: nat, ghost numeral: string)
      returns (ok: bool, ptr: nat)
    requires start < sz <= buf.Length && 2 <= base <= 16
    requires numeral == Numeral(number, base, Max(width, 1))
    modifies buf
    ensures ok <==> start + |numeral| < sz
    ensures ok ==> ptr < sz && Backwards(buf, start, ptr, numeral) && buf[ptr] == '\0'
    ensures ok ==> forall k :: 0 <= k < start ==> buf[k] == old(buf[k])
    ensures !ok ==> buf[0] == '\0'
    ensures forall k :: sz <= k < buf.Length ==> buf[k] == old(buf[k])
  {
    var j: nat, padding: nat, n, more := number, width, start + 1, true;
    ghost var done := "";
    ptr := start;
    while more
      invariant start <= ptr && n == ptr + 1 <= sz && Backwards(buf, start, ptr, done)
      invariant !more ==> numeral == done
      invariant more ==>
        var left := if ptr == start then Max(padding, 1) else padding;
        (j > 0 || left > 0) && numeral == Numeral(j, base, left) + done
      invariant forall k :: 0 <= k < start || sz <= k < buf.Length ==> buf[k] == old(buf[k])
      decreases more, j + padding
    {
      ghost var left := if ptr == start then Max(padding, 1) else padding;
      var ch, rest := SplitDigit(j, base);
      assert numeral == Numeral(rest, base, Pred(left)) + ([ch] + done);
      n := n + 1;
      if n > sz {
        buf[0] := '\0';
        return false, ptr;
      }
      buf[ptr] := ch;
      ptr := ptr + 1;
      done := [ch] + done;
      j := rest;
      if padding > 0 {
        padding := padding - 1;
      }
      more := j > 0 || padding > 0;
    }
    buf[ptr] := '\0';
    return true, ptr;
  }

  /** Turns the text between two positions around in place. */
  method Reverse(buf: array<char>, from: nat, to: nat, ghost text: string)
    requires Backwards(buf, from, to, text)
    modifies buf
    ensures forall k :: from <= k < to ==> buf[k] == text[k - from]
    ensures forall k :: 0 <= k < from || to <= k < buf.Length ==> buf[k] == old(buf[k])
  {
    if from == to {
      return;
    }
    var start, ptr := from, to - 1;
    while ptr > start
      invariant from <= start <= to && start - from == to - 1 - ptr
      invariant forall k :: from <= k < start || ptr < k < to ==> buf[k] == text[k - from]
      invariant forall k :: start <= k <= ptr ==> buf[k] == text[to - 1 - k]
      invariant forall k :: 0 <= k < from || to <= k < buf.Length ==> buf[k] == old(buf[k])
      decreases ptr - start
    {
      buf[ptr], buf[start] := buf[start], buf[ptr];
      start := start + 1;
      ptr := ptr - 1;
    }
  }

  /** Reads the hexadecimal digits from the start of a text; the value is kept to 64 bits. */
  method GetHex(text: string) returns (p: nat, hex: nat)
    ensures p <= |text| && AllHex(text[..p]) && (p < |text| ==> !IsHexDigit(text[p]))
    ensures hex == Value(text[..p], 16) % WORD
  {
    p, hex := 0, 0;
    while p < |text|
      invariant p <= |text| && AllHex(text[..p])
      invariant hex == Value(text[..p], 16) % WORD
    {
      var ch := text[p];
      if !IsHexDigit(ch) {
        break;
      }
      assert text[..p + 1][..p] == text[..p];
      ShiftedValue(Value(text[..p], 16), DigitValue(ch));
      hex := hex * 16 % WORD + DigitValue(ch);
      p := p + 1;
    }
  }

  lemma ShiftedValue(v: nat, d: nat)
    requires d < 16
    ensures (v % WORD) * 16 % WORD + d == (v * 16 + d) % WORD
  {
    var q, r := v / WORD, v % WORD;
    var q2, r2 := r * 16 / WORD, r * 16 % WORD;
    assert r2 == 16 * (r - q2 * 0x1000_0000_0000_0000);
    RemainderIs(v * 16 + d, q * 16 + q2, r2 + d);
  }

  lemma RemainderIs(x: nat, q: nat, r: nat)
    requires r < WORD && x == q * WORD + r
    ensures x % WORD == r
  {
  }

  /** A printed word read back is the same word, and nothing of it is left over. */
  method PrintThenRead(i: int, buf: array<char>, sz: nat, padding: nat) returns (ok: bool, p: nat, hex: nat)
    requires -HALF <= i < HALF && sz <= buf.Length
    modifies buf
    ensures padding <= 16 && sz > 16 ==> ok
    ensures ok ==> hex == i % WORD && p < sz && buf[p] == '\0'
  {
    ghost var numeral := Printed(i, 16, padding);
    PrintedInHex(i, padding);
    ok := Itoa(i, buf, sz, 16, padding);
    p, hex := 0, 0;
    if ok {
      assert buf[..sz][..|numeral| + 1] == buf[..|numeral| + 1];
      p, hex := GetHex(buf[..sz]);
      HexPrefixIs(buf[..sz], numeral, p);
    }
  }

  lemma PrintedInHex(i: int, padding: nat)
    requires -HALF <= i < HALF
    ensures AllHex(Printed(i, 16, padding)) && Value(Printed(i, 16, padding), 16) == Magnitude(i, 16)
    ensures padding <= 16 ==> |Printed(i, 16, padding)| <= 16
  {
    NumeralIsNumeral(Magnitude(i, 16), 16, Max(padding, 1));
    assert Printed(i, 16, padding) == Numeral(Magnitude(i, 16), 16, Max(padding, 1));
    if padding <= 16 {
      SixteenHexDigits(Magnitude(i, 16), Max(padding, 1));
    }
  }

  lemma HexPrefixIs(text: string, numeral: string, p: nat)
    requires |numeral| < |text| && text[..|numeral| + 1] == numeral + "\0" && AllHex(numeral)
    requires p <= |text| && AllHex(text[..p]) && (p < |text| ==> !IsHexDigit(text[p]))
    ensures p == |numeral| && text[..p] == numeral && text[p] == '\0'
  {
    var n := |numeral|;
    assert text[..n + 1][n] == '\0';
    assert forall k :: 0 <= k < n ==> text[..n + 1][k] == numeral[k];
  }
}
