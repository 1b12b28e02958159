/** The checksum of Content/RedisClient.cpp is the remainder of polynomial division: of the message,
    times x^16, by x^16 + x^12 + x^5 + 1. */
module CrcDivision {
  import opened Bytes
  import opened Crc16
  import opened Gf2

  predicate Top(c: bv16) {
    c & 0x8000 != 0
  }

  function ShiftUp(c: bv16, n: nat): bv16
    decreases n
  {
    if n == 0 then c else ShiftUp(c << 1, n - 1)
  }

  /** Bit number i of a register, highest first. */
  function Bit(c: bv16, i: nat): bool {
    Top(ShiftUp(c, i))
  }

  function TopBits(c: bv16, n: nat): (bits: seq<bool>)
    ensures |bits| == n
  {
    seq(n, i requires 0 <= i => Bit(c, i))
  }

  function ToBits(c: bv16): seq<bool> {
    TopBits(c, DEGREE)
  }

  function ByteBits(b: Byte): seq<bool> {
    TopBits(High(b), BITS_PER_BYTE)
  }

  function MessageBits(data: ByteString): seq<bool> {
    if data == [] then [] else MessageBits(data[..|data| - 1]) + ByteBits(data[|data| - 1])
  }

  function TopBit(bit: bool): bv16 {
    if bit then 0x8000 else 0
  }

  /** The register after one more message bit. */
  function BitIn(c: bv16, bit: bool): bv16 {
    BitStep(c ^ TopBit(bit))
  }

  function FeedBits(c: bv16, bits: seq<bool>): bv16
    decreases |bits|
  {
    if bits == [] then c else FeedBits(BitIn(c, bits[0]), bits[1..])
  }

  lemma {:induction false} FeedBitsAppend(c: bv16, a: seq<bool>, b: seq<bool>)
    ensures FeedBits(c, a + b) == FeedBits(FeedBits(c, a), b)
    decreases |a|
  {
    if a == [] {
      assert a + b == b;
    } else {
      assert (a + b)[1..] == a[1..] + b;
      FeedBitsAppend(BitIn(c, a[0]), a[1..], b);
    }
  }

  lemma TopXor(a: bv16, b: bv16, c: bv16)
    requires IsXor(a, b, c)
    ensures Top(c) == (Top(a) != Top(b))
  {}

  lemma ShiftXor(a: bv16, b: bv16, c: bv16)
    requires IsXor(a, b, c)
    ensures IsXor(a << 1, b << 1, c << 1)
  {}

  lemma {:induction false} ShiftUpXor(a: bv16, b: bv16, c: bv16, n: nat)
    requires IsXor(a, b, c)
    ensures IsXor(ShiftUp(a, n), ShiftUp(b, n), ShiftUp(c, n))
    decreases n
  {
    if n == 0 {
    } else {
      ShiftXor(a, b, c);
      ShiftUpXor(a << 1, b << 1, c << 1, n - 1);
    }
  }

  lemma BitXor(a: bv16, b: bv16, c: bv16, i: nat)
    requires IsXor(a, b, c)
    ensures Bit(c, i) == (Bit(a, i) != Bit(b, i))
  {
    ShiftUpXor(a, b, c, i);
    TopXor(ShiftUp(a, i), ShiftUp(b, i), ShiftUp(c, i));
  }

  lemma TopBitOf(h: bv16)
    ensures TopBit(Top(h)) == h & 0x8000
  {}

  lemma StepSplits(c: bv16, h: bv16)
    ensures BitStep(c ^ h) == BitStep(c ^ (h & 0x8000)) ^ (h << 1)
  {}

  lemma BitStepIsBitIn(c: bv16, h: bv16)
    ensures BitStep(c ^ h) == BitIn(c, Top(h)) ^ (h << 1)
  {
    TopBitOf(h);
    StepSplits(c, h);
  }

  /** One step on register and byte together. */
  lemma NextStep(c: bv16, h: bv16) returns (x: bv16, d: bv16, k: bv16, y: bv16)
    ensures IsXor(c, h, x) && IsXor(d, k, y)
    ensures y == BitStep(x) && k == h << 1 && d == BitIn(c, Top(h))
  {
    BitStepIsBitIn(c, h);
    x, d, k := c ^ h, BitIn(c, Top(h)), h << 1;
    y := d ^ k;
  }

  lemma FirstStep(x: bv16, y: bv16, n: nat)
    requires n > 0 && y == BitStep(x)
    ensures BitSteps(x, n) == BitSteps(y, n - 1)
  {}

  lemma FirstBit(c: bv16, d: bv16, h: bv16, k: bv16, n: nat)
    requires n > 0 && k == h << 1 && d == BitIn(c, Top(h))
    ensures FeedBits(c, TopBits(h, n)) == FeedBits(d, TopBits(k, n - 1))
  {
    assert TopBits(h, n)[0] == Top(h);
    assert TopBits(h, n)[1..] == TopBits(k, n - 1);
  }

  lemma NothingLeft(c: bv16, h: bv16, x: bv16)
    requires ShiftUp(h, 0) == 0 && IsXor(c, h, x)
    ensures BitSteps(x, 0) == FeedBits(c, TopBits(h, 0))
  {}

  lemma ShiftFirst(h: bv16, k: bv16, n: nat)
    requires n > 0 && k == h << 1
    ensures ShiftUp(h, n) == ShiftUp(k, n - 1)
  {}

  lemma NextRegisters(c: bv16, h: bv16, x: bv16, n: nat) returns (d: bv16, k: bv16, y: bv16)
    requires IsXor(c, h, x) && n > 0
    ensures IsXor(d, k, y) && ShiftUp(h, n) == ShiftUp(k, n - 1)
    ensures BitSteps(x, n) == BitSteps(y, n - 1)
    ensures FeedBits(c, TopBits(h, n)) == FeedBits(d, TopBits(k, n - 1))
  {
    var z;
    z, d, k, y := NextStep(c, h);
    ShiftFirst(h, k, n);
    FirstStep(z, y, n);
    FirstBit(c, d, h, k, n);
  }

  /** Bit steps on a byte xored into the top half feed its bits, highest first. */
  lemma {:induction false} StepsFeedBits(c: bv16, h: bv16, x: bv16, n: nat)
    requires ShiftUp(h, n) == 0 && IsXor(c, h, x)
    ensures BitSteps(x, n) == FeedBits(c, TopBits(h, n))
    decreases n
  {
    if n == 0 {
      NothingLeft(c, h, x);
    } else {
      var d, k, y := NextRegisters(c, h, x, n);
      StepsFeedBits(d, k, y, n - 1);
    }
  }

  lemma HighShiftsOut(b: Byte)
    ensures ShiftUp(High(b), BITS_PER_BYTE) == 0
  {
    var h := High(b);
    assert ShiftUp(h, 8) == ShiftUp(h << 1 << 1 << 1 << 1, 4);
  }

  lemma ByteStepFeedsBits(c: bv16, h: bv16)
    requires ShiftUp(h, BITS_PER_BYTE) == 0
    ensures ByteStep(c ^ h) == FeedBits(c, TopBits(h, BITS_PER_BYTE))
  {
    StepsFeedBits(c, h, c ^ h, BITS_PER_BYTE);
  }

  lemma ByteInFeedsBits(c: bv16, b: Byte)
    ensures ByteIn(c, b) == FeedBits(c, ByteBits(b))
  {
    HighShiftsOut(b);
    ByteStepFeedsBits(c, High(b));
  }

  lemma {:induction false} CrcFeedsMessageBits(data: ByteString)
    ensures Crc(data) == FeedBits(0, MessageBits(data))
  {
    if data == [] {
    } else {
      var n := |data| - 1;
      CrcFeedsMessageBits(data[..n]);
      FeedBitsAppend(0, MessageBits(data[..n]), ByteBits(data[n]));
      ByteInFeedsBits(Crc(data[..n]), data[n]);
    }
  }

  function Poly(bit: bool): bv16 {
    if bit then 0x1021 else 0
  }

  lemma ZeroOutZeroIn(c: bv16)
    requires !Top(c)
    ensures IsXor(c << 1, 0, BitIn(c, false))
  {}

  lemma ZeroOutOneIn(c: bv16)
    requires !Top(c)
    ensures IsXor(c << 1, 0x1021, BitIn(c, true))
  {}

  lemma OneOutZeroIn(c: bv16)
    requires Top(c)
    ensures IsXor(c << 1, 0x1021, BitIn(c, false))
  {}

  lemma OneOutOneIn(c: bv16)
    requires Top(c)
    ensures IsXor(c << 1, 0, BitIn(c, true))
  {}

  lemma BitInIsShiftAndPoly(c: bv16, bit: bool)
    ensures IsXor(c << 1, Poly(Top(c) != bit), BitIn(c, bit))
  {
    if Top(c) {
      if bit { OneOutOneIn(c); } else { OneOutZeroIn(c); }
    } else {
      if bit { ZeroOutOneIn(c); } else { ZeroOutZeroIn(c); }
    }
  }

  lemma {:induction false} ZeroBits(i: nat)
    ensures !Bit(0, i)
    decreases i
  {
    if i == 0 {
    } else {
      ZeroBits(i - 1);
    }
  }

  lemma {:induction false} ShiftUpLast(c: bv16, n: nat)
    ensures ShiftUp(c, n + 1) == ShiftUp(c, n) << 1
    decreases n
  {
    if n == 0 {
    } else {
      ShiftUpLast(c << 1, n - 1);
    }
  }

  /** The low part of the divisor, bit by bit. */
  lemma PolyBits(i: nat)
    requires i < DEGREE
    ensures Bit(0x1021, i) == Divisor()[i + 1]
  {
    var p: bv16 := 0x1021;
    forall k: nat ensures ShiftUp(p, k + 1) == ShiftUp(p, k) << 1 { ShiftUpLast(p, k); }
    assert ShiftUp(p, 0) == 0x1021 && ShiftUp(p, 1) == 0x2042 && ShiftUp(p, 2) == 0x4084 && ShiftUp(p, 3) == 0x8108;
    assert ShiftUp(p, 4) == 0x0210 && ShiftUp(p, 5) == 0x0420 && ShiftUp(p, 6) == 0x0840 && ShiftUp(p, 7) == 0x1080;
    assert ShiftUp(p, 8) == 0x2100 && ShiftUp(p, 9) == 0x4200 && ShiftUp(p, 10) == 0x8400 && ShiftUp(p, 11) == 0x0800;
    assert ShiftUp(p, 12) == 0x1000 && ShiftUp(p, 13) == 0x2000 && ShiftUp(p, 14) == 0x4000 && ShiftUp(p, 15) == 0x8000;
  }

  /** Bit i of the register after one more message bit: the next bit down, flipped where the divisor
      has a term if a one fell out. */
  lemma NextBits(c: bv16, bit: bool, i: nat)
    requires i < DEGREE
    ensures Bit(BitIn(c, bit), i) == (Bit(c, i + 1) != (Top(c) != bit && Divisor()[i + 1]))
  {
    BitInIsShiftAndPoly(c, bit);
    BitXor(c << 1, Poly(Top(c) != bit), BitIn(c, bit), i);
    if Top(c) != bit { PolyBits(i); } else { ZeroBits(i); }
  }

  lemma NoBitsBelow(c: bv16)
    ensures !Bit(c, DEGREE)
  {
    assert ShiftUp(c, 16) == ShiftUp(c << 1 << 1 << 1 << 1, 12);
    assert c << 4 << 4 << 4 << 4 == 0;
  }

  /** The dividend still to be reduced when the register holds c and the bits m are to come. */
  ghost function Dividend(c: bv16, m: seq<bool>): (d: seq<bool>)
    ensures |d| == |m| + DEGREE
  {
    Plus(ToBits(c) + Zeros(|m|), m + Zeros(DEGREE))
  }

  lemma FeedIsReduce(c: bv16, m: seq<bool>)
    requires m != []
    ensures Reduce(Dividend(c, m)) == Dividend(BitIn(c, m[0]), m[1..])
  {
    var d, d' := Dividend(c, m), Dividend(BitIn(c, m[0]), m[1..]);
    var s := ScaledDivisor(d[0], |d| - DEGREE - 1);
    assert d[0] == (Top(c) != m[0]);
    forall i | 0 <= i < |d'| ensures Reduce(d)[i] == d'[i] {
      assert Reduce(d)[i] == Plus(d, s)[i + 1] == (d[i + 1] != s[i + 1]);
      if i < DEGREE {
        NextBits(c, m[0], i);
        NoBitsBelow(c);
      }
    }
  }

  lemma {:induction false} FeedIsRemainder(c: bv16, m: seq<bool>)
    ensures Remainder(Dividend(c, m)) == ToBits(FeedBits(c, m))
    decreases |m|
  {
    if m == [] {
      assert Dividend(c, m) == ToBits(c);
    } else {
      FeedIsReduce(c, m);
      FeedIsRemainder(BitIn(c, m[0]), m[1..]);
    }
  }

  /** The message times x^16. */
  ghost function Shifted(data: ByteString): (d: seq<bool>)
    ensures |d| >= DEGREE
  {
    MessageBits(data) + Zeros(DEGREE)
  }

  /** Table-driven CRC16 is polynomial division: the checksum is the remainder, and the only one. */
  lemma CrcIsPolynomialRemainder(data: ByteString, q: seq<bool>, r: seq<bool>)
    ensures IsDivision(Shifted(data), q, r) <==> q == Quotient(Shifted(data)) && r == ToBits(Crc(data))
  {
    var m := MessageBits(data);
    CrcFeedsMessageBits(data);
    FeedIsRemainder(0, m);
    forall i | 0 <= i < |m| + DEGREE ensures Dividend(0, m)[i] == Shifted(data)[i] {
      if i < DEGREE { ZeroBits(i); }
    }
    assert Dividend(0, m) == Shifted(data);
    DivisionIsUnique(Shifted(data), q, r);
  }
}
