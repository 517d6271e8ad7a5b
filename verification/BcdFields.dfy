/** Binary coded decimals in the date-time registers of the clock, next to bits that are not the date's. */
module BcdFields {
  import opened Bits

  function ToBcd(decimal: byte): byte
  {
    ((decimal / 10) << 4) | (decimal % 10)
  }

  function FromBcd(bcd: byte): byte
  {
    ((bcd & 0xf0) >> 4) * 10 + (bcd & 0x0f)
  }

  /** The bits of each date-time register that hold the date: seconds to year. */
  function DateMask(k: nat): byte
    requires k < 7
  {
    match k
    case 0 => 0x7f
    case 1 => 0x7f
    case 2 => 0x3f
    case 3 => 0x07
    case 4 => 0x3f
    case 5 => 0x0f
    case _ => 0xff
  }

  /** A register with the bits under the mask cleared and the digits or-ed in. */
  function UpdateField(register: byte, mask: byte, digits: byte): byte
  {
    (register & !mask) | digits
  }

  /** The largest value each field keeps through its mask. */
  function FieldLimit(k: nat): byte
    requires k < 7
  {
    match k
    case 0 => 79
    case 1 => 79
    case 2 => 39
    case 3 => 7
    case 4 => 39
    case 5 => 9
    case _ => 159
  }

  lemma MaskedBcd(value: byte)
    ensures FromBcd(ToBcd(value) & 0x7f) == value <==> value <= 79
    ensures FromBcd(ToBcd(value) & 0x3f) == value <==> value <= 39
    ensures FromBcd(ToBcd(value) & 0x07) == value <==> value <= 7
    ensures FromBcd(ToBcd(value) & 0x0f) == value <==> value <= 9
    ensures FromBcd(ToBcd(value) & 0xff) == value <==> value <= 159
  {
  }

  lemma MergeBits(register: byte, mask: byte, bits: byte)
    ensures ((register & !mask) | bits) & mask == bits & mask
    ensures bits & !mask == 0 ==> ((register & !mask) | bits) & !mask == register & !mask
  {
  }

  /** Reading back an updated register gives the written value exactly when the value fits its field. */
  lemma FieldRoundTrip(register: byte, k: nat, value: byte)
    requires k < 7
    ensures FromBcd(UpdateField(register, DateMask(k), ToBcd(value)) & DateMask(k)) == value <==> value <= FieldLimit(k)
  {
    MergeBits(register, DateMask(k), ToBcd(value));
    MaskedBcd(value);
  }

  /** The values whose decimal digits stay inside the field; from 160 on the tens digit wraps. */
  predicate StaysInField(k: nat, value: byte)
    requires k < 7
  {
    value <= FieldLimit(k) || (160 <= value && value - 160 <= FieldLimit(k))
  }

  lemma BcdStaysInField(k: nat, value: byte)
    requires k < 7
    ensures ToBcd(value) & !DateMask(k) == 0 <==> StaysInField(k, value)
  {
  }

  /** The digit bits outside the field that are clear in the register. */
  function Spilled(register: byte, k: nat, digits: byte): byte
    requires k < 7
  {
    digits & !DateMask(k) & !register
  }

  /** The other bits of a register stay exactly when no digit bit is spilled. */
  lemma FieldKeepsOtherBits(register: byte, k: nat, digits: byte)
    requires k < 7
    ensures UpdateField(register, DateMask(k), digits) & !DateMask(k) == register & !DateMask(k)
            <==> Spilled(register, k, digits) == 0
  {
  }

  /** Digits that stay in their field are spilled into no register, and others into the blank one. */
  lemma StayingSpillsNothing(register: byte, k: nat, digits: byte)
    requires k < 7
    ensures digits & !DateMask(k) == 0 ==> Spilled(register, k, digits) == 0
    ensures Spilled(0, k, digits) == 0 ==> digits & !DateMask(k) == 0
  {
  }

  /** October to December: the tens digit lands on a bit that is not the month's, and reads back missing. */
  lemma LateMonths(register: byte, month: byte)
    requires 10 <= month <= 12
    ensures UpdateField(register, DateMask(5), ToBcd(month)) & 0x10 != 0
    ensures FromBcd(UpdateField(register, DateMask(5), ToBcd(month)) & DateMask(5)) == month - 10
  {
  }
}
