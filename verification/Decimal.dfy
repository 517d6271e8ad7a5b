/** Decimal numerals, as text (most significant digit first) and as display cells (least significant first). */
module Decimal {
  import opened Numerals
  import opened Strings

  const NUL: char := '\0'

  ghost predicate AllDigits(s: seq<char>)
  {
    forall k :: 0 <= k < |s| ==> IsDigit(s[k])
  }

  /** The number shown by cells of which cell 0 is the least significant. */
  function CellsValue(cells: seq<char>): nat
    requires AllDigits(cells)
  {
    if cells == [] then 0 else DigitValue(cells[0]) + 10 * CellsValue(cells[1..])
  }

  /** As the parser leaves them: first digit in the highest cell, unused low cells blank. */
  function Parsed(digits: seq<char>, n: nat): (c: seq<char>)
    requires |digits| <= n
    ensures |c| == n
  {
    seq(n, k requires 0 <= k < n => if n - 1 - k < |digits| then digits[n - 1 - k] else NUL)
  }

  /** Right-aligned with leading zeros: last digit in cell 0. */
  function Aligned(digits: seq<char>, n: nat): (c: seq<char>)
    requires |digits| <= n
    ensures |c| == n
  {
    seq(n, k requires 0 <= k < n => if k < |digits| then digits[|digits| - 1 - k] else '0')
  }

  function LowBlanks(cells: seq<char>): (m: nat)
    ensures m <= |cells|
    ensures forall k :: 0 <= k < m ==> cells[k] == NUL
    ensures m < |cells| ==> cells[m] != NUL
  {
    if cells == [] || cells[0] != NUL then 0 else 1 + LowBlanks(cells[1..])
  }

  /** Blank low cells are dropped and as many zeros put on top. */
  function Shuffled(cells: seq<char>): (c: seq<char>)
    ensures |c| == |cells|
  {
    cells[LowBlanks(cells)..] + seq(LowBlanks(cells), _ => '0')
  }

  lemma ShuffledParsed(digits: seq<char>, n: nat)
    requires AllDigits(digits) && |digits| <= n
    ensures Shuffled(Parsed(digits, n)) == Aligned(digits, n)
    ensures AllDigits(Aligned(digits, n))
  {
    var p, m := Parsed(digits, n), LowBlanks(Parsed(digits, n));
    assert |digits| > 0 ==> p[n - |digits|] == digits[|digits| - 1];
    assert m == n - |digits|;
  }

  /** Aligning keeps the number. */
  lemma {:induction false} AlignedKeepsValue(digits: seq<char>, n: nat)
    requires AllDigits(digits) && |digits| <= n
    ensures AllDigits(Aligned(digits, n)) && CellsValue(Aligned(digits, n)) == Value(digits, 10)
  {
    var cells := Aligned(digits, n);
    if digits == [] {
      ZeroCells(cells);
    } else {
      AlignedKeepsValue(digits[..|digits| - 1], n - 1);
      assert cells[1..] == Aligned(digits[..|digits| - 1], n - 1);
    }
  }

  lemma {:induction false} ZeroCells(cells: seq<char>)
    requires forall k :: 0 <= k < |cells| ==> cells[k] == '0'
    ensures CellsValue(cells) == 0
  {
    if cells != [] {
      ZeroCells(cells[1..]);
    }
  }

  /** Reading the cells from the top is reading a numeral. */
  lemma {:induction false} ReadingCells(cells: seq<char>, text: seq<char>)
    requires AllDigits(cells) && |text| == |cells|
    requires forall i :: 0 <= i < |text| ==> text[i] == cells[|cells| - 1 - i]
    ensures AllDigits(text) && Value(text, 10) == CellsValue(cells)
  {
    if cells != [] {
      ReadingCells(cells[1..], text[..|text| - 1]);
    }
  }
}
