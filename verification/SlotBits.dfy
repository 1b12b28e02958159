/** What a slot is: the last fourteen binary digits of the remainder, read as a number; and every slot is the
    slot of some key. */
module SlotBits {
  import opened Bytes
  import opened SlotTable
  import opened Gf2
  import opened Crc16
  import opened CrcDivision
  import opened HashSlots

  const SLOT_DIGITS: nat := 14

  /** Binary digits, highest first. */
  function Number(bits: seq<bool>): nat {
    if bits == [] then 0 else 2 * Number(bits[..|bits| - 1]) + Digit(bits[|bits| - 1])
  }

  function Digit(bit: bool): nat {
    if bit then 1 else 0
  }

  lemma NumberNext(bits: seq<bool>, k: nat)
    requires k < |bits|
    ensures Number(bits[..k + 1]) == 2 * Number(bits[..k]) + Digit(bits[k])
  {
    assert bits[..k + 1][..k] == bits[..k];
  }

  function Upper(bits: seq<bool>): nat
    requires |bits| == SLOT_DIGITS
  {
    0x2000 * Digit(bits[0]) + 0x1000 * Digit(bits[1]) + 0x800 * Digit(bits[2]) + 0x400 * Digit(bits[3])
    + 0x200 * Digit(bits[4]) + 0x100 * Digit(bits[5]) + 0x80 * Digit(bits[6])
  }

  function Lower(bits: seq<bool>): nat
    requires |bits| == SLOT_DIGITS
  {
    0x40 * Digit(bits[7]) + 0x20 * Digit(bits[8]) + 0x10 * Digit(bits[9]) + 8 * Digit(bits[10])
    + 4 * Digit(bits[11]) + 2 * Digit(bits[12]) + Digit(bits[13])
  }

  lemma NumberOfFourteen(bits: seq<bool>)
    requires |bits| == SLOT_DIGITS
    ensures Number(bits) == Upper(bits) + Lower(bits)
  {
    forall k | 0 <= k < SLOT_DIGITS ensures Number(bits[..k + 1]) == 2 * Number(bits[..k]) + Digit(bits[k]) {
      NumberNext(bits, k);
    }
    assert bits[..14] == bits && Number(bits[..0]) == 0;
  }

  // The mask of the source, digit by digit.

  lemma MaskedInTwo(c: bv16)
    ensures (c & 16383) as nat == (c & 0x3f80) as nat + (c & 0x7f) as nat
  {}

  lemma UpperSum(c: bv16, bits: seq<bool>)
    requires |bits| == SLOT_DIGITS
    requires bits[0] == (c & 0x2000 != 0) && bits[1] == (c & 0x1000 != 0) && bits[2] == (c & 0x800 != 0)
    requires bits[3] == (c & 0x400 != 0) && bits[4] == (c & 0x200 != 0) && bits[5] == (c & 0x100 != 0)
    requires bits[6] == (c & 0x80 != 0)
    ensures (c & 0x3f80) as nat == Upper(bits)
  {}

  lemma LowerSum(c: bv16, bits: seq<bool>)
    requires |bits| == SLOT_DIGITS
    requires bits[7] == (c & 0x40 != 0) && bits[8] == (c & 0x20 != 0) && bits[9] == (c & 0x10 != 0)
    requires bits[10] == (c & 8 != 0) && bits[11] == (c & 4 != 0) && bits[12] == (c & 2 != 0)
    requires bits[13] == (c & 1 != 0)
    ensures (c & 0x7f) as nat == Lower(bits)
  {}

  /** The mask of digit i. */
  function Mask(i: nat): bv16 {
    if i == 0 then 0x8000 else Mask(i - 1) >> 1
  }

  lemma ShiftedAgainstMask(c: bv16, m: bv16)
    ensures (c << 1) & m != 0 <==> c & (m >> 1) != 0
  {}

  lemma {:induction false} DigitIsMasked(c: bv16, i: nat)
    ensures Bit(c, i) == (c & Mask(i) != 0)
    decreases i
  {
    if i == 0 {
    } else {
      DigitIsMasked(c << 1, i - 1);
      ShiftedAgainstMask(c, Mask(i - 1));
    }
  }

  lemma Masks()
    ensures Mask(2) == 0x2000 && Mask(3) == 0x1000 && Mask(4) == 0x800 && Mask(5) == 0x400 && Mask(6) == 0x200
    ensures Mask(7) == 0x100 && Mask(8) == 0x80 && Mask(9) == 0x40 && Mask(10) == 0x20 && Mask(11) == 0x10
    ensures Mask(12) == 8 && Mask(13) == 4 && Mask(14) == 2 && Mask(15) == 1
  {
    assert Mask(0) == 0x8000 && Mask(1) == 0x4000 && Mask(2) == 0x2000 && Mask(3) == 0x1000;
    assert Mask(4) == 0x800 && Mask(5) == 0x400 && Mask(6) == 0x200 && Mask(7) == 0x100;
    assert Mask(8) == 0x80 && Mask(9) == 0x40 && Mask(10) == 0x20 && Mask(11) == 0x10;
    assert Mask(12) == 8 && Mask(13) == 4 && Mask(14) == 2 && Mask(15) == 1;
  }

  lemma DigitAt(c: bv16, bits: seq<bool>, i: nat, m: bv16)
    requires |bits| == SLOT_DIGITS && bits == ToBits(c)[2..] && i < SLOT_DIGITS && m == Mask(i + 2)
    ensures bits[i] == (c & m != 0)
  {
    assert ToBits(c)[i + 2] == Bit(c, i + 2);
    DigitIsMasked(c, i + 2);
  }

  lemma UpperDigits(c: bv16, bits: seq<bool>)
    requires |bits| == SLOT_DIGITS && bits == ToBits(c)[2..]
    ensures (c & 0x3f80) as nat == Upper(bits)
  {
    Masks();
    DigitAt(c, bits, 0, 0x2000);
    DigitAt(c, bits, 1, 0x1000);
    DigitAt(c, bits, 2, 0x800);
    DigitAt(c, bits, 3, 0x400);
    DigitAt(c, bits, 4, 0x200);
    DigitAt(c, bits, 5, 0x100);
    DigitAt(c, bits, 6, 0x80);
    UpperSum(c, bits);
  }

  lemma LowerDigits(c: bv16, bits: seq<bool>)
    requires |bits| == SLOT_DIGITS && bits == ToBits(c)[2..]
    ensures (c & 0x7f) as nat == Lower(bits)
  {
    Masks();
    DigitAt(c, bits, 7, 0x40);
    DigitAt(c, bits, 8, 0x20);
    DigitAt(c, bits, 9, 0x10);
    DigitAt(c, bits, 10, 8);
    DigitAt(c, bits, 11, 4);
    DigitAt(c, bits, 12, 2);
    DigitAt(c, bits, 13, 1);
    LowerSum(c, bits);
  }

  lemma LastDigits(c: bv16, bits: seq<bool>)
    requires |bits| == SLOT_DIGITS && bits == ToBits(c)[2..]
    ensures SlotOfCrc(c) == Number(bits)
  {
    UpperDigits(c, bits);
    LowerDigits(c, bits);
    MaskedInTwo(c);
    NumberOfFourteen(bits);
  }

  /** The slot of a key is the last fourteen binary digits of the remainder of dividing its hashed part, times
      x^16, by the polynomial; whoever does the division. */
  lemma SlotIsLastDigitsOfRemainder(key: ByteString, q: seq<bool>, r: seq<bool>)
    requires IsDivision(Shifted(HashPart(key)), q, r)
    ensures Slot(key) == Number(r[2..])
  {
    CrcIsPolynomialRemainder(HashPart(key), q, r);
    LastDigits(Crc(HashPart(key)), r[2..]);
  }

  // Every slot has a key, of two bytes.

  /** One bit step undone. */
  function BitBack(c: bv16): bv16 {
    if c & 1 != 0 then ((c ^ 0x1021) >> 1) | 0x8000 else c >> 1
  }

  lemma BitStepUndone(c: bv16)
    ensures BitStep(BitBack(c)) == c
  {}

  lemma {:induction false} StepsUndone(c: bv16, n: nat) returns (v: bv16)
    ensures BitSteps(v, n) == c
    decreases n
  {
    if n == 0 {
      v := c;
    } else {
      var u := StepsUndone(c, n - 1);
      v := BitBack(u);
      BitStepUndone(u);
    }
  }

  lemma ByteStepUndone(c: bv16) returns (v: bv16)
    ensures ByteStep(v) == c
  {
    v := StepsUndone(c, BITS_PER_BYTE);
  }

  lemma TwoHalves(v: bv16)
    ensures IsXor(High((v >> 8) as bv8), v & 0xff, v)
    ensures v << 8 == High((v & 0xff) as bv8)
  {}

  lemma XorUndone(a: bv16, b: bv16, c: bv16)
    requires IsXor(a, b, c)
    ensures a ^ b == c
  {}

  lemma FirstByte(h: bv16)
    ensures 0 ^ h == h
  {}

  lemma ByteInIs(x: bv16, h: bv16, b: Byte, y: bv16)
    requires h == High(b) && y == ByteStep(x ^ h)
    ensures y == ByteIn(x, b)
  {}

  lemma CrcOfTwo(data: ByteString, x: bv16, crc: bv16)
    requires |data| == 2 && x == ByteIn(0, data[0]) && crc == ByteIn(x, data[1])
    ensures Crc(data) == crc
  {
    assert data[..1][..0] == [];
    CrcNext(data[..1], 0, x);
    CrcNext(data, x, crc);
  }

  /** Bytes that take the register to v after eight steps each. */
  lemma TwoBytesReach(v: bv16, m: bv16, crc: bv16, a: Byte, b: Byte, x: bv16)
    requires ByteStep(v) == m && ByteStep(m) == crc && x == ByteStep(High(a))
    requires IsXor(High(a), v & 0xff, v) && v << 8 == High(b)
    ensures x == ByteIn(0, a) && crc == ByteIn(x, b)
  {
    LowByte(v);
    BitStepsLinear(High(a), v & 0xff, v, BITS_PER_BYTE);
    XorUndone(x, High(b), m);
    FirstByte(High(a));
    ByteInIs(0, High(a), a, x);
    ByteInIs(x, High(b), b, crc);
  }

  lemma EveryChecksumIsReached(crc: bv16) returns (key: ByteString)
    ensures |key| == 2 && Crc(key) == crc
  {
    var m := ByteStepUndone(crc);
    var v := ByteStepUndone(m);
    TwoHalves(v);
    var a, b := (v >> 8) as bv8, (v & 0xff) as bv8;
    var x := ByteStep(High(a));
    TwoBytesReach(v, m, crc, a, b, x);
    key := [a, b];
    CrcOfTwo(key, x, crc);
  }

  lemma MaskKeeps(n: nat)
    requires n < 16384
    ensures SlotOfCrc(n as bv16) == n
  {
    assert (n as bv16) as nat == n;
    SmallIsKept(n as bv16);
  }

  lemma SmallIsKept(c: bv16)
    requires c as nat < 16384
    ensures SlotOfCrc(c) == c as nat
  {}

  /** No slot is left over: each is the slot of some key. */
  lemma EverySlotHasAKey(slot: nat) returns (key: ByteString)
    requires slot < SLOTS
    ensures Slot(key) == slot
  {
    key := EveryChecksumIsReached(slot as bv16);
    TooShortForATag(key);
    MaskKeeps(slot);
  }

  lemma TooShortForATag(key: ByteString)
    requires |key| <= 2
    ensures HashPart(key) == key
  {}
}
