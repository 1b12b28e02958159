/** The table-driven CRC16 of Content/RedisClient.cpp, against bitwise polynomial arithmetic
    (CRC-16/XMODEM: polynomial 0x1021, initial value 0). */
module Crc16 {
  import opened Bytes

  const BITS_PER_BYTE: nat := 8

  /** One of eight entries, by the low three bits of the index. */
  function Pick(i: bv8, e0: bv16, e1: bv16, e2: bv16, e3: bv16, e4: bv16, e5: bv16, e6: bv16, e7: bv16): bv16 {
    var j := i & 7;
    if j == 0 then e0 else if j == 1 then e1 else if j == 2 then e2 else if j == 3 then e3
    else if j == 4 then e4 else if j == 5 then e5 else if j == 6 then e6 else e7
  }

  /** crc16Table, row by row as in the source. */
  function Table(i: bv8): bv16 {
    match i >> 3
    case 0 => Pick(i, 0x0000, 0x1021, 0x2042, 0x3063, 0x4084, 0x50a5, 0x60c6, 0x70e7)
    case 1 => Pick(i, 0x8108, 0x9129, 0xa14a, 0xb16b, 0xc18c, 0xd1ad, 0xe1ce, 0xf1ef)
    case 2 => Pick(i, 0x1231, 0x0210, 0x3273, 0x2252, 0x52b5, 0x4294, 0x72f7, 0x62d6)
    case 3 => Pick(i, 0x9339, 0x8318, 0xb37b, 0xa35a, 0xd3bd, 0xc39c, 0xf3ff, 0xe3de)
    case 4 => Pick(i, 0x2462, 0x3443, 0x0420, 0x1401, 0x64e6, 0x74c7, 0x44a4, 0x5485)
    case 5 => Pick(i, 0xa56a, 0xb54b, 0x8528, 0x9509, 0xe5ee, 0xf5cf, 0xc5ac, 0xd58d)
    case 6 => Pick(i, 0x3653, 0x2672, 0x1611, 0x0630, 0x76d7, 0x66f6, 0x5695, 0x46b4)
    case 7 => Pick(i, 0xb75b, 0xa77a, 0x9719, 0x8738, 0xf7df, 0xe7fe, 0xd79d, 0xc7bc)
    case 8 => Pick(i, 0x48c4, 0x58e5, 0x6886, 0x78a7, 0x0840, 0x1861, 0x2802, 0x3823)
    case 9 => Pick(i, 0xc9cc, 0xd9ed, 0xe98e, 0xf9af, 0x8948, 0x9969, 0xa90a, 0xb92b)
    case 10 => Pick(i, 0x5af5, 0x4ad4, 0x7ab7, 0x6a96, 0x1a71, 0x0a50, 0x3a33, 0x2a12)
    case 11 => Pick(i, 0xdbfd, 0xcbdc, 0xfbbf, 0xeb9e, 0x9b79, 0x8b58, 0xbb3b, 0xab1a)
    case 12 => Pick(i, 0x6ca6, 0x7c87, 0x4ce4, 0x5cc5, 0x2c22, 0x3c03, 0x0c60, 0x1c41)
    case 13 => Pick(i, 0xedae, 0xfd8f, 0xcdec, 0xddcd, 0xad2a, 0xbd0b, 0x8d68, 0x9d49)
    case 14 => Pick(i, 0x7e97, 0x6eb6, 0x5ed5, 0x4ef4, 0x3e13, 0x2e32, 0x1e51, 0x0e70)
    case 15 => Pick(i, 0xff9f, 0xefbe, 0xdfdd, 0xcffc, 0xbf1b, 0xaf3a, 0x9f59, 0x8f78)
    case 16 => Pick(i, 0x9188, 0x81a9, 0xb1ca, 0xa1eb, 0xd10c, 0xc12d, 0xf14e, 0xe16f)
    case 17 => Pick(i, 0x1080, 0x00a1, 0x30c2, 0x20e3, 0x5004, 0x4025, 0x7046, 0x6067)
    case 18 => Pick(i, 0x83b9, 0x9398, 0xa3fb, 0xb3da, 0xc33d, 0xd31c, 0xe37f, 0xf35e)
    case 19 => Pick(i, 0x02b1, 0x1290, 0x22f3, 0x32d2, 0x4235, 0x5214, 0x6277, 0x7256)
    case 20 => Pick(i, 0xb5ea, 0xa5cb, 0x95a8, 0x8589, 0xf56e, 0xe54f, 0xd52c, 0xc50d)
    case 21 => Pick(i, 0x34e2, 0x24c3, 0x14a0, 0x0481, 0x7466, 0x6447, 0x5424, 0x4405)
    case 22 => Pick(i, 0xa7db, 0xb7fa, 0x8799, 0x97b8, 0xe75f, 0xf77e, 0xc71d, 0xd73c)
    case 23 => Pick(i, 0x26d3, 0x36f2, 0x0691, 0x16b0, 0x6657, 0x7676, 0x4615, 0x5634)
    case 24 => Pick(i, 0xd94c, 0xc96d, 0xf90e, 0xe92f, 0x99c8, 0x89e9, 0xb98a, 0xa9ab)
    case 25 => Pick(i, 0x5844, 0x4865, 0x7806, 0x6827, 0x18c0, 0x08e1, 0x3882, 0x28a3)
    case 26 => Pick(i, 0xcb7d, 0xdb5c, 0xeb3f, 0xfb1e, 0x8bf9, 0x9bd8, 0xabbb, 0xbb9a)
    case 27 => Pick(i, 0x4a75, 0x5a54, 0x6a37, 0x7a16, 0x0af1, 0x1ad0, 0x2ab3, 0x3a92)
    case 28 => Pick(i, 0xfd2e, 0xed0f, 0xdd6c, 0xcd4d, 0xbdaa, 0xad8b, 0x9de8, 0x8dc9)
    case 29 => Pick(i, 0x7c26, 0x6c07, 0x5c64, 0x4c45, 0x3ca2, 0x2c83, 0x1ce0, 0x0cc1)
    case 30 => Pick(i, 0xef1f, 0xff3e, 0xcf5d, 0xdf7c, 0xaf9b, 0xbfba, 0x8fd9, 0x9ff8)
    case _ => Pick(i, 0x6e17, 0x7e36, 0x4e55, 0x5e74, 0x2e93, 0x3eb2, 0x0ed1, 0x1ef0)
  }

  /** One bit of polynomial division: shift, and if a one falls out, subtract the divisor
      x^16 + x^12 + x^5 + 1, whose low part is 0x1021. */
  function BitStep(crc: bv16): bv16 {
    var out := crc >> 15;
    (crc << 1) ^ out ^ (out << 5) ^ (out << 12)
  }

  function BitSteps(crc: bv16, n: nat): bv16
    decreases n
  {
    if n == 0 then crc else BitSteps(BitStep(crc), n - 1)
  }

  function ByteStep(crc: bv16): bv16 {
    BitSteps(crc, BITS_PER_BYTE)
  }

  /** A byte in the top half of the register. */
  function High(c: bv8): bv16 {
    (c as bv16) << 8
  }

  predicate IsXor(a: bv16, b: bv16, c: bv16) {
    c == a ^ b
  }

  lemma BitStepLinear(a: bv16, b: bv16, c: bv16)
    requires IsXor(a, b, c)
    ensures IsXor(BitStep(a), BitStep(b), BitStep(c))
  {}

  lemma {:induction false} BitStepsLinear(a: bv16, b: bv16, c: bv16, n: nat)
    requires IsXor(a, b, c)
    ensures IsXor(BitSteps(a, n), BitSteps(b, n), BitSteps(c, n))
    decreases n
  {
    if n == 0 {
    } else {
      BitStepLinear(a, b, c);
      BitStepsLinear(BitStep(a), BitStep(b), BitStep(c), n - 1);
    }
  }

  lemma EightSteps(c: bv16)
    ensures ByteStep(c) == BitStep(BitStep(BitStep(BitStep(BitStep(BitStep(BitStep(BitStep(c))))))))
  {
    FourSteps(c, 4);
    FourSteps(BitStep(BitStep(BitStep(BitStep(c)))), 0);
  }

  lemma FourSteps(c: bv16, n: nat)
    ensures BitSteps(c, n + 4) == BitSteps(BitStep(BitStep(BitStep(BitStep(c)))), n)
  {
    assert BitSteps(c, n + 4) == BitSteps(BitStep(c), n + 3);
    assert BitSteps(BitStep(c), n + 3) == BitSteps(BitStep(BitStep(c)), n + 2);
    assert BitSteps(BitStep(BitStep(c)), n + 2) == BitSteps(BitStep(BitStep(BitStep(c))), n + 1);
  }

  lemma TableIsEightBitSteps(i: bv8)
    ensures Table(i) == ByteStep(High(i))
  {
    if i & 0x80 == 0 { LowerTable(i); } else { UpperTable(i); }
    EightSteps(High(i));
  }

  lemma LowerTable(i: bv8)
    requires i & 0x80 == 0
    ensures Table(i) == BitStep(BitStep(BitStep(BitStep(BitStep(BitStep(BitStep(BitStep(High(i)))))))))
  {}

  lemma UpperTable(i: bv8)
    requires i & 0x80 != 0
    ensures Table(i) == BitStep(BitStep(BitStep(BitStep(BitStep(BitStep(BitStep(BitStep(High(i)))))))))
  {}

  lemma HighLinear(a: bv8, b: bv8)
    ensures IsXor(High(a), High(b), High(a ^ b))
  {}

  lemma EntriesLinear(a: bv8, b: bv8, ta: bv16, tb: bv16, tc: bv16)
    requires ta == ByteStep(High(a)) && tb == ByteStep(High(b)) && tc == ByteStep(High(a ^ b))
    ensures IsXor(ta, tb, tc)
  {
    HighLinear(a, b);
    BitStepsLinear(High(a), High(b), High(a ^ b), BITS_PER_BYTE);
  }

  /** The table is xor-linear in its index. */
  lemma TableLinear(a: bv8, b: bv8)
    ensures IsXor(Table(a), Table(b), Table(a ^ b))
  {
    TableIsEightBitSteps(a);
    TableIsEightBitSteps(b);
    TableIsEightBitSteps(a ^ b);
    EntriesLinear(a, b, Table(a), Table(b), Table(a ^ b));
  }

  /** A `char` is signed and is promoted to int before it meets the checksum. */
  function PromoteChar(c: Byte): bv32 {
    ((c as bv32) ^ 0x80) - 0x80
  }

  /** The table index, and the other half of the loop body, in 32-bit int arithmetic. */
  function Index(crc: bv16, c: Byte): bv8 {
    ((((crc as bv32) >> 8) ^ PromoteChar(c)) & 0xff) as bv8
  }

  /** The rest of the loop body: int promotions and the truncation to uint16_t. */
  function LoopStep(crc: bv16, entry: bv16): bv16 {
    ((((crc as bv32) << 8) ^ (entry as bv32)) & 0xffff) as bv16
  }

  /** The checksum, one bit at a time. */
  function Crc(data: ByteString): bv16 {
    if data == [] then 0
    else ByteIn(Crc(data[..|data| - 1]), data[|data| - 1])
  }

  /** A byte entering the register: eight bit steps, or one table look-up. */
  function ByteIn(crc: bv16, c: Byte): bv16 {
    ByteStep(crc ^ High(c))
  }

  lemma IndexSplits(crc: bv16, c: Byte)
    ensures IsXor(High(Index(crc, c)), crc & 0xff, crc ^ High(c))
  {}

  lemma Truncation(crc: bv16, entry: bv16)
    ensures IsXor(entry, crc << 8, LoopStep(crc, entry))
  {}

  lemma LowByte(crc: bv16)
    ensures ByteStep(crc & 0xff) == crc << 8
  {
    EightSteps(crc & 0xff);
  }

  lemma LookUp(crc: bv16, t: bv8, x: bv16)
    requires IsXor(High(t), crc & 0xff, x)
    ensures IsXor(ByteStep(High(t)), crc << 8, ByteStep(x))
  {
    LowByte(crc);
    BitStepsLinear(High(t), crc & 0xff, x, BITS_PER_BYTE);
  }

  lemma SameXor(a: bv16, b: bv16, c: bv16, d: bv16)
    requires IsXor(a, b, c) && IsXor(a, b, d)
    ensures c == d
  {}

  lemma LoopStepIsByteIn(crc: bv16, c: Byte, entry: bv16)
    requires entry == ByteStep(High(Index(crc, c)))
    ensures LoopStep(crc, entry) == ByteIn(crc, c)
  {
    IndexSplits(crc, c);
    LookUp(crc, Index(crc, c), crc ^ High(c));
    Truncation(crc, entry);
    SameXor(entry, crc << 8, LoopStep(crc, entry), ByteIn(crc, c));
  }

  lemma EnterLinear(x: bv16, y: bv16, z: bv16, c: bv16, d: bv16, e: bv16)
    requires IsXor(x, y, z) && IsXor(c, d, e)
    ensures IsXor(x ^ c, y ^ d, z ^ e)
  {}

  lemma EnteredLinear(x: bv16, y: bv16, z: bv16, c: bv16, d: bv16, e: bv16)
    requires IsXor(x, y, z) && IsXor(c, d, e)
    ensures IsXor(ByteStep(x ^ c), ByteStep(y ^ d), ByteStep(z ^ e))
  {
    EnterLinear(x, y, z, c, d, e);
    BitStepsLinear(x ^ c, y ^ d, z ^ e, BITS_PER_BYTE);
  }

  lemma EnteredBytesLinear(x: bv16, y: bv16, z: bv16, c: Byte, d: Byte)
    requires IsXor(x, y, z)
    ensures IsXor(ByteStep(x ^ High(c)), ByteStep(y ^ High(d)), ByteStep(z ^ High(c ^ d)))
  {
    HighLinear(c, d);
    EnteredLinear(x, y, z, High(c), High(d), High(c ^ d));
  }

  lemma ByteInIsByteStep(x: bv16, y: bv16, z: bv16, c: Byte, d: Byte, e: Byte)
    requires IsXor(ByteStep(x ^ High(c)), ByteStep(y ^ High(d)), ByteStep(z ^ High(e)))
    ensures IsXor(ByteIn(x, c), ByteIn(y, d), ByteIn(z, e))
  {}

  lemma ByteInLinear(x: bv16, y: bv16, z: bv16, c: Byte, d: Byte)
    requires IsXor(x, y, z)
    ensures IsXor(ByteIn(x, c), ByteIn(y, d), ByteIn(z, c ^ d))
  {
    EnteredBytesLinear(x, y, z, c, d);
    ByteInIsByteStep(x, y, z, c, d, c ^ d);
  }

  /** `CRC16(pszData, nLen)`. */
  method Compute(data: ByteString, len: nat) returns (crc: bv16)
    requires len <= |data|
    ensures crc == Crc(data[..len])
  {
    crc := 0;
    for i := 0 to len
      invariant crc == Crc(data[..i])
    {
      var entry := Table(Index(crc, data[i]));
      TableIsEightBitSteps(Index(crc, data[i]));
      LoopStepIsByteIn(crc, data[i], entry);
      crc := LoopStep(crc, entry);
      assert data[..i + 1][..i] == data[..i];
    }
  }

  function XorBytes(a: ByteString, b: ByteString): (c: ByteString)
    requires |a| == |b|
    ensures |c| == |a|
  {
    seq(|a|, i requires 0 <= i < |a| => a[i] ^ b[i])
  }

  lemma CrcNext(a: ByteString, x: bv16, y: bv16)
    requires a != [] && x == Crc(a[..|a| - 1]) && y == ByteIn(x, a[|a| - 1])
    ensures Crc(a) == y
  {}

  lemma XorBytesNext(a: ByteString, b: ByteString)
    requires |a| == |b| && a != []
    ensures var n := |a| - 1;
            XorBytes(a, b)[..n] == XorBytes(a[..n], b[..n]) && XorBytes(a, b)[n] == a[n] ^ b[n]
  {}

  /** The checksum is xor-linear over strings of equal length. */
  lemma {:induction false} CrcLinear(a: ByteString, b: ByteString)
    requires |a| == |b|
    ensures IsXor(Crc(a), Crc(b), Crc(XorBytes(a, b)))
  {
    if a == [] {
    } else {
      var n, c := |a| - 1, XorBytes(a, b);
      CrcLinear(a[..n], b[..n]);
      XorBytesNext(a, b);
      LastByteLinear(a, b, c, Crc(a[..n]), Crc(b[..n]), Crc(c[..n]));
    }
  }

  lemma LastByteLinear(a: ByteString, b: ByteString, c: ByteString, x: bv16, y: bv16, z: bv16)
    requires |a| == |b| == |c| && a != []
    requires x == Crc(a[..|a| - 1]) && y == Crc(b[..|a| - 1]) && z == Crc(c[..|a| - 1]) && IsXor(x, y, z)
    requires c[|a| - 1] == a[|a| - 1] ^ b[|a| - 1]
    ensures IsXor(Crc(a), Crc(b), Crc(c))
  {
    var n := |a| - 1;
    CrcNext(a, x, ByteIn(x, a[n]));
    CrcNext(b, y, ByteIn(y, b[n]));
    CrcNext(c, z, ByteIn(z, c[n]));
    ByteInLinear(x, y, z, a[n], b[n]);
  }
}
