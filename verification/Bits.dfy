/** Single bits of a byte. */
module Bits {

  type byte = bv8

  /** `1 << k` in an unsigned byte. */
  function Mask(k: nat): (m: byte)
    requires k < 8
    ensures m != 0
  {
    match k
    case 0 => 0x01
    case 1 => 0x02
    case 2 => 0x04
    case 3 => 0x08
    case 4 => 0x10
    case 5 => 0x20
    case 6 => 0x40
    case _ => 0x80
  }

  predicate TestBit(b: byte, k: nat)
    requires k < 8
  {
    if k == 0 then b & 1 != 0 else TestBit(b >> 1, k - 1)
  }

  lemma {:induction false} MaskTestsBit(b: byte, k: nat)
    requires k < 8
    ensures b & Mask(k) != 0 <==> TestBit(b, k)
  {
    if k > 0 {
      MaskTestsBit(b >> 1, k - 1);
      MaskShift(b, k);
    }
  }

  lemma MaskShift(b: byte, k: nat)
    requires 0 < k < 8
    ensures b & Mask(k) != 0 <==> (b >> 1) & Mask(k - 1) != 0
  {
  }

  lemma MasksAreDisjoint(k: nat, j: nat)
    requires k < 8 && j < 8 && k != j
    ensures Mask(k) & Mask(j) == 0
  {
  }

  lemma OrDistributes(b: byte, m: byte, n: byte)
    ensures (b | m) & n == (b & n) | (m & n)
    ensures (b | m) & m == m
    ensures b | 0 == b
  {
  }

  lemma OrSetsOneBit(b: byte, k: nat, j: nat)
    requires k < 8 && j < 8
    ensures TestBit(b | Mask(k), j) <==> k == j || TestBit(b, j)
  {
    MaskTestsBit(b | Mask(k), j);
    MaskTestsBit(b, j);
    OrDistributes(b, Mask(k), Mask(j));
    if k != j {
      MasksAreDisjoint(k, j);
      OrDistributes(b & Mask(j), 0, 0);
    }
  }

  lemma {:induction false} ZeroHasNoBits(k: nat)
    requires k < 8
    ensures !TestBit(0, k)
  {
    if k > 0 {
      ZeroHasNoBits(k - 1);
      assert (0 as byte) >> 1 == 0;
    }
  }
}
