/**
  The frame check of the Davis stations (lib/crc.c): a byte-at-a-time, table-driven CRC with
  generator x^16 + x^12 + x^5 + 1, most significant bit first and start value zero.

  The reference is schoolbook modulo-2 long division on coefficient sequences. Between the two sits
  a shift register that takes in one message bit at a time.
 */
module Crc {
  import opened Polynomial
  import opened Register

  // ----- the table, sixteen entries to a row -----

  const ROW_0: seq<bv16> := [
    0x0000, 0x1021, 0x2042, 0x3063, 0x4084, 0x50a5, 0x60c6, 0x70e7,
    0x8108, 0x9129, 0xa14a, 0xb16b, 0xc18c, 0xd1ad, 0xe1ce, 0xf1ef
  ]
  const ROW_1: seq<bv16> := [
    0x1231, 0x0210, 0x3273, 0x2252, 0x52b5, 0x4294, 0x72f7, 0x62d6,
    0x9339, 0x8318, 0xb37b, 0xa35a, 0xd3bd, 0xc39c, 0xf3ff, 0xe3de
  ]
  const ROW_2: seq<bv16> := [
    0x2462, 0x3443, 0x0420, 0x1401, 0x64e6, 0x74c7, 0x44a4, 0x5485,
    0xa56a, 0xb54b, 0x8528, 0x9509, 0xe5ee, 0xf5cf, 0xc5ac, 0xd58d
  ]
  const ROW_3: seq<bv16> := [
    0x3653, 0x2672, 0x1611, 0x0630, 0x76d7, 0x66f6, 0x5695, 0x46b4,
    0xb75b, 0xa77a, 0x9719, 0x8738, 0xf7df, 0xe7fe, 0xd79d, 0xc7bc
  ]
  const ROW_4: seq<bv16> := [
    0x48c4, 0x58e5, 0x6886, 0x78a7, 0x0840, 0x1861, 0x2802, 0x3823,
    0xc9cc, 0xd9ed, 0xe98e, 0xf9af, 0x8948, 0x9969, 0xa90a, 0xb92b
  ]
  const ROW_5: seq<bv16> := [
    0x5af5, 0x4ad4, 0x7ab7, 0x6a96, 0x1a71, 0x0a50, 0x3a33, 0x2a12,
    0xdbfd, 0xcbdc, 0xfbbf, 0xeb9e, 0x9b79, 0x8b58, 0xbb3b, 0xab1a
  ]
  const ROW_6: seq<bv16> := [
    0x6ca6, 0x7c87, 0x4ce4, 0x5cc5, 0x2c22, 0x3c03, 0x0c60, 0x1c41,
    0xedae, 0xfd8f, 0xcdec, 0xddcd, 0xad2a, 0xbd0b, 0x8d68, 0x9d49
  ]
  const ROW_7: seq<bv16> := [
    0x7e97, 0x6eb6, 0x5ed5, 0x4ef4, 0x3e13, 0x2e32, 0x1e51, 0x0e70,
    0xff9f, 0xefbe, 0xdfdd, 0xcffc, 0xbf1b, 0xaf3a, 0x9f59, 0x8f78
  ]
  const ROW_8: seq<bv16> := [
    0x9188, 0x81a9, 0xb1ca, 0xa1eb, 0xd10c, 0xc12d, 0xf14e, 0xe16f,
    0x1080, 0x00a1, 0x30c2, 0x20e3, 0x5004, 0x4025, 0x7046, 0x6067
  ]
  const ROW_9: seq<bv16> := [
    0x83b9, 0x9398, 0xa3fb, 0xb3da, 0xc33d, 0xd31c, 0xe37f, 0xf35e,
    0x02b1, 0x1290, 0x22f3, 0x32d2, 0x4235, 0x5214, 0x6277, 0x7256
  ]
  const ROW_A: seq<bv16> := [
    0xb5ea, 0xa5cb, 0x95a8, 0x8589, 0xf56e, 0xe54f, 0xd52c, 0xc50d,
    0x34e2, 0x24c3, 0x14a0, 0x0481, 0x7466, 0x6447, 0x5424, 0x4405
  ]
  const ROW_B: seq<bv16> := [
    0xa7db, 0xb7fa, 0x8799, 0x97b8, 0xe75f, 0xf77e, 0xc71d, 0xd73c,
    0x26d3, 0x36f2, 0x0691, 0x16b0, 0x6657, 0x7676, 0x4615, 0x5634
  ]
  const ROW_C: seq<bv16> := [
    0xd94c, 0xc96d, 0xf90e, 0xe92f, 0x99c8, 0x89e9, 0xb98a, 0xa9ab,
    0x5844, 0x4865, 0x7806, 0x6827, 0x18c0, 0x08e1, 0x3882, 0x28a3
  ]
  const ROW_D: seq<bv16> := [
    0xcb7d, 0xdb5c, 0xeb3f, 0xfb1e, 0x8bf9, 0x9bd8, 0xabbb, 0xbb9a,
    0x4a75, 0x5a54, 0x6a37, 0x7a16, 0x0af1, 0x1ad0, 0x2ab3, 0x3a92
  ]
  const ROW_E: seq<bv16> := [
    0xfd2e, 0xed0f, 0xdd6c, 0xcd4d, 0xbdaa, 0xad8b, 0x9de8, 0x8dc9,
    0x7c26, 0x6c07, 0x5c64, 0x4c45, 0x3ca2, 0x2c83, 0x1ce0, 0x0cc1
  ]
  const ROW_F: seq<bv16> := [
    0xef1f, 0xff3e, 0xcf5d, 0xdf7c, 0xaf9b, 0xbfba, 0x8fd9, 0x9ff8,
    0x6e17, 0x7e36, 0x4e55, 0x5e74, 0x2e93, 0x3eb2, 0x0ed1, 0x1ef0
  ]

  const QUARTER_0: seq<bv16> := Join4(ROW_0, ROW_1, ROW_2, ROW_3)
  const QUARTER_1: seq<bv16> := Join4(ROW_4, ROW_5, ROW_6, ROW_7)
  const QUARTER_2: seq<bv16> := Join4(ROW_8, ROW_9, ROW_A, ROW_B)
  const QUARTER_3: seq<bv16> := Join4(ROW_C, ROW_D, ROW_E, ROW_F)

  const CRC_TABLE: seq<bv16> := Join4(QUARTER_0, QUARTER_1, QUARTER_2, QUARTER_3)

  function Join4(a: seq<bv16>, b: seq<bv16>, c: seq<bv16>, d: seq<bv16>): seq<bv16> {
    a + b + c + d
  }

  // ----- the table holds eight shifts of every byte -----

  function ShiftByte(s: bv16): bv16 {
    Shift(Shift(Shift(Shift(Shift(Shift(Shift(Shift(s))))))))
  }

  lemma Join4At(a: seq<bv16>, b: seq<bv16>, c: seq<bv16>, d: seq<bv16>, n: nat, q: nat, k: nat)
    requires |a| == |b| == |c| == |d| == n && q < 4 && k < n
    ensures |Join4(a, b, c, d)| == 4 * n
    ensures Join4(a, b, c, d)[q * n + k] == if q == 0 then a[k] else if q == 1 then b[k]
                                            else if q == 2 then c[k] else d[k]
  {
  }

  lemma Row0(l: bv16)
    requires l < 16
    ensures 0 <= l as int < |ROW_0| == 16 && ROW_0[l as int] == ShiftByte((0x00 ^ l) << 8)
  {
  }

  lemma Row1(l: bv16)
    requires l < 16
    ensures 0 <= l as int < |ROW_1| == 16 && ROW_1[l as int] == ShiftByte((0x10 ^ l) << 8)
  {
  }

  lemma Row2(l: bv16)
    requires l < 16
    ensures 0 <= l as int < |ROW_2| == 16 && ROW_2[l as int] == ShiftByte((0x20 ^ l) << 8)
  {
  }

  lemma Row3(l: bv16)
    requires l < 16
    ensures 0 <= l as int < |ROW_3| == 16 && ROW_3[l as int] == ShiftByte((0x30 ^ l) << 8)
  {
  }

  lemma Row4(l: bv16)
    requires l < 16
    ensures 0 <= l as int < |ROW_4| == 16 && ROW_4[l as int] == ShiftByte((0x40 ^ l) << 8)
  {
  }

  lemma Row5(l: bv16)
    requires l < 16
    ensures 0 <= l as int < |ROW_5| == 16 && ROW_5[l as int] == ShiftByte((0x50 ^ l) << 8)
  {
  }

  lemma Row6(l: bv16)
    requires l < 16
    ensures 0 <= l as int < |ROW_6| == 16 && ROW_6[l as int] == ShiftByte((0x60 ^ l) << 8)
  {
  }

  lemma Row7(l: bv16)
    requires l < 16
    ensures 0 <= l as int < |ROW_7| == 16 && ROW_7[l as int] == ShiftByte((0x70 ^ l) << 8)
  {
  }

  lemma Row8(l: bv16)
    requires l < 16
    ensures 0 <= l as int < |ROW_8| == 16 && ROW_8[l as int] == ShiftByte((0x80 ^ l) << 8)
  {
  }

  lemma Row9(l: bv16)
    requires l < 16
    ensures 0 <= l as int < |ROW_9| == 16 && ROW_9[l as int] == ShiftByte((0x90 ^ l) << 8)
  {
  }

  lemma RowA(l: bv16)
    requires l < 16
    ensures 0 <= l as int < |ROW_A| == 16 && ROW_A[l as int] == ShiftByte((0xa0 ^ l) << 8)
  {
  }

  lemma RowB(l: bv16)
    requires l < 16
    ensures 0 <= l as int < |ROW_B| == 16 && ROW_B[l as int] == ShiftByte((0xb0 ^ l) << 8)
  {
  }

  lemma RowC(l: bv16)
    requires l < 16
    ensures 0 <= l as int < |ROW_C| == 16 && ROW_C[l as int] == ShiftByte((0xc0 ^ l) << 8)
  {
  }

  lemma RowD(l: bv16)
    requires l < 16
    ensures 0 <= l as int < |ROW_D| == 16 && ROW_D[l as int] == ShiftByte((0xd0 ^ l) << 8)
  {
  }

  lemma RowE(l: bv16)
    requires l < 16
    ensures 0 <= l as int < |ROW_E| == 16 && ROW_E[l as int] == ShiftByte((0xe0 ^ l) << 8)
  {
  }

  lemma RowF(l: bv16)
    requires l < 16
    ensures 0 <= l as int < |ROW_F| == 16 && ROW_F[l as int] == ShiftByte((0xf0 ^ l) << 8)
  {
  }

  lemma Quarter0(h: bv16, l: bv16)
    requires h < 4 && l < 16
    ensures |QUARTER_0| == 64 && 0 <= 16 * (h as int) + l as int < 64
    ensures QUARTER_0[16 * (h as int) + l as int] == ShiftByte((0x00 ^ (h << 4) ^ l) << 8)
  {
    hide ShiftByte;
    Row0(l);
    Row1(l);
    Row2(l);
    Row3(l);
    Join4At(ROW_0, ROW_1, ROW_2, ROW_3, 16, h as int, l as int);
  }

  lemma Quarter1(h: bv16, l: bv16)
    requires h < 4 && l < 16
    ensures |QUARTER_1| == 64 && 0 <= 16 * (h as int) + l as int < 64
    ensures QUARTER_1[16 * (h as int) + l as int] == ShiftByte((0x40 ^ (h << 4) ^ l) << 8)
  {
    hide ShiftByte;
    Row4(l);
    Row5(l);
    Row6(l);
    Row7(l);
    Join4At(ROW_4, ROW_5, ROW_6, ROW_7, 16, h as int, l as int);
  }

  lemma Quarter2(h: bv16, l: bv16)
    requires h < 4 && l < 16
    ensures |QUARTER_2| == 64 && 0 <= 16 * (h as int) + l as int < 64
    ensures QUARTER_2[16 * (h as int) + l as int] == ShiftByte((0x80 ^ (h << 4) ^ l) << 8)
  {
    hide ShiftByte;
    Row8(l);
    Row9(l);
    RowA(l);
    RowB(l);
    Join4At(ROW_8, ROW_9, ROW_A, ROW_B, 16, h as int, l as int);
  }

  lemma Quarter3(h: bv16, l: bv16)
    requires h < 4 && l < 16
    ensures |QUARTER_3| == 64 && 0 <= 16 * (h as int) + l as int < 64
    ensures QUARTER_3[16 * (h as int) + l as int] == ShiftByte((0xc0 ^ (h << 4) ^ l) << 8)
  {
    hide ShiftByte;
    RowC(l);
    RowD(l);
    RowE(l);
    RowF(l);
    Join4At(ROW_C, ROW_D, ROW_E, ROW_F, 16, h as int, l as int);
  }

  lemma SplitIndex(i: bv16)
    requires i < 256
    ensures 0 <= (i & 0xf) as int < 16 && 0 <= ((i >> 4) & 3) as int < 4 && 0 <= (i >> 6) as int < 4
    ensures i as int == 64 * ((i >> 6) as int) + 16 * (((i >> 4) & 3) as int) + (i & 0xf) as int
  {
    LowNibble(i);
    HighNibble(i >> 4);
    assert (i >> 4) >> 2 == i >> 6 by {
      ShiftTwice(i);
    }
  }

  lemma LowNibble(i: bv16)
    requires i < 256
    ensures i >> 4 < 16 && i as int == 16 * ((i >> 4) as int) + (i & 0xf) as int && 0 <= (i & 0xf) as int < 16
  {
  }

  lemma HighNibble(h: bv16)
    requires h < 16
    ensures h as int == 4 * ((h >> 2) as int) + (h & 3) as int && 0 <= (h & 3) as int < 4 && 0 <= (h >> 2) as int < 4
  {
  }

  lemma ShiftTwice(i: bv16)
    ensures (i >> 4) >> 2 == i >> 6
  {
  }

  lemma EntryAt(q: bv16, h: bv16, l: bv16, k: int)
    requires q < 4 && h < 4 && l < 16 && k == 64 * (q as int) + 16 * (h as int) + l as int
    ensures 0 <= k < |CRC_TABLE| == 256
    ensures CRC_TABLE[k] == ShiftByte(((q << 6) ^ (h << 4) ^ l) << 8)
  {
    hide ShiftByte, Join4;
    var n := 16 * (h as int) + l as int;
    Quarter0(h, l);
    Quarter1(h, l);
    Quarter2(h, l);
    Quarter3(h, l);
    Join4At(QUARTER_0, QUARTER_1, QUARTER_2, QUARTER_3, 64, q as int, n);
    Quarters(q);
  }

  lemma Quarters(q: bv16)
    requires q < 4
    ensures q as int == 0 || q as int == 1 || q as int == 2 || q as int == 3
    ensures (q as int == 0 ==> q << 6 == 0) && (q as int == 1 ==> q << 6 == 0x40)
    ensures (q as int == 2 ==> q << 6 == 0x80) && (q as int == 3 ==> q << 6 == 0xc0)
  {
  }

  lemma Recombined(i: bv16)
    requires i < 256
    ensures i >> 6 < 4 && (i >> 4) & 3 < 4 && i & 0xf < 16
    ensures i == ((i >> 6) << 6) ^ (((i >> 4) & 3) << 4) ^ (i & 0xf)
  {
  }

  lemma TableEntry(i: bv16)
    requires i < 256
    ensures 0 <= i as int < |CRC_TABLE| == 256
    ensures CRC_TABLE[i as int] == ShiftByte(i << 8)
  {
    hide ShiftByte, CRC_TABLE;
    SplitIndex(i);
    Recombined(i);
    EntryAt(i >> 6, (i >> 4) & 3, i & 0xf, i as int);
  }

  // ----- one byte through the table is eight bits through the register -----

  predicate ByteBit(c: bv8, k: bv5)
    requires k < 8
  {
    (c >> k) & 1 == 1
  }

  /** The bits of a byte, most significant first. */
  function ByteBits(c: bv8): (bits: Poly)
    ensures |bits| == 8
  {
    seq(8, i requires 0 <= i < 8 => (PowerHalves(i + 8); ByteBit(c, Power(i + 8))))
  }

  function Bits(bytes: seq<bv8>): (bits: Poly)
    ensures |bits| == 8 * |bytes|
  {
    if bytes == [] then [] else ByteBits(bytes[0]) + Bits(bytes[1..])
  }

  lemma PowerHalves(i: int)
    requires 0 <= i < 16
    ensures if i < 8 then Power(i) >= 8 && Power(i + 8) == Power(i) - 8 else Power(i) < 8
  {
  }

  lemma ByteInWord(c: bv8, k: bv5)
    requires k < 16
    ensures Bit((c as bv16) << 8, k) == (k >= 8 && ByteBit(c, k - 8))
  {
  }

  lemma WordOfByte(c: bv8)
    ensures Word((c as bv16) << 8) == ByteBits(c) + Zeros(8)
  {
    hide Bit, ByteBit, Power;
    forall i | 0 <= i < 16
      ensures Word((c as bv16) << 8)[i] == (ByteBits(c) + Zeros(8))[i]
    {
      ByteInWord(c, Power(i));
      PowerHalves(i);
    }
  }

  lemma HighBit(s: bv16, k: bv5)
    requires k < 16
    ensures Bit((s >> 8) << 8, k) == (k >= 8 && Bit(s, k))
  {
  }

  lemma WordOfHigh(s: bv16)
    ensures Word((s >> 8) << 8) == Word(s)[..8] + Zeros(8)
  {
    hide Bit, Power;
    forall i | 0 <= i < 16
      ensures Word((s >> 8) << 8)[i] == (Word(s)[..8] + Zeros(8))[i]
    {
      HighBit(s, Power(i));
      PowerHalves(i);
    }
  }

  /** What crc_addbyte leaves in *crc. */
  function Absorb(s: bv16, c: bv8): bv16 {
    Lookup(Index(s, c)) ^ (s << 8)
  }

  function Index(s: bv16, c: bv8): (i: bv16)
    ensures i < 256
  {
    (s >> 8) ^ (c as bv16)
  }

  function Lookup(i: bv16): (w: bv16)
    requires i < 256
    ensures w == ShiftByte(i << 8)
  {
    TableEntry(i);
    CRC_TABLE[i as int]
  }

  lemma ShiftByteIsShifts(s: bv16)
    ensures ShiftByte(s) == Shifts(8, s)
  {
    hide Shift;
    var s2 := Shift(Shift(s));
    var s4 := Shift(Shift(s2));
    var s6 := Shift(Shift(s4));
    var s8 := Shift(Shift(s6));
    assert Shifts(0, s8) == s8 && Shifts(1, Shift(s6)) == Shifts(0, s8);
    assert Shifts(2, s6) == Shifts(1, Shift(s6)) && s8 == ShiftByte(s);
    assert Shifts(4, s4) == Shifts(3, Shift(s4)) == Shifts(2, s6);
    assert Shifts(6, s2) == Shifts(5, Shift(s2)) == Shifts(4, s4);
    assert Shifts(8, s) == Shifts(7, Shift(s)) == Shifts(6, s2);
  }

  lemma WordOfLookup(i: bv16)
    requires i < 256
    ensures Word(Lookup(i)) == ShiftWords(8, Word(i << 8))
  {
    hide Word, Lookup;
    ShiftByteIsShifts(i << 8);
    WordShifts(8, i << 8);
  }

  lemma WordOfSum(t: bv16, s: bv16)
    ensures Word(t ^ (s << 8)) == Xor(Word(t), Word(s)[8..] + Zeros(8))
  {
    hide Word;
    LeftsByte(s);
    WordLefts(8, s);
    WordXor(t, s << 8);
  }

  lemma WordOfIndex(s: bv16, c: bv8)
    ensures Word(Index(s, c) << 8) ==
            Xor(Word(s)[..8] + Zeros(8), ByteBits(c) + Zeros(8))
  {
    hide Word, ByteBits, Index;
    IndexShifted(s, c);
    WordXor((s >> 8) << 8, (c as bv16) << 8);
    WordOfHigh(s);
    WordOfByte(c);
  }

  lemma IndexShifted(s: bv16, c: bv8)
    ensures Index(s, c) << 8 == ((s >> 8) << 8) ^ ((c as bv16) << 8)
  {
  }

  lemma WordOfParts(s: bv16, c: bv8, i: bv16, t: bv16)
    requires Word(t) == ShiftWords(8, Word(i << 8))
    requires Word(i << 8) == Xor(Word(s)[..8] + Zeros(8), ByteBits(c) + Zeros(8))
    ensures Word(t ^ (s << 8)) == Run(Word(s), ByteBits(c))
  {
    hide Word, ByteBits;
    WordOfSum(t, s);
    RunByte(Word(s), ByteBits(c));
  }

  lemma RunParts(s: bv16, c: bv8, i: bv16, t: bv16)
    requires i == Index(s, c) && t == Lookup(i)
    ensures Word(t ^ (s << 8)) == Run(Word(s), ByteBits(c))
  {
    hide Word, ByteBits, Lookup, ShiftByte, Index;
    WordOfIndex(s, c);
    WordOfLookup(i);
    WordOfParts(s, c, i, t);
  }

  lemma AbsorbParts(s: bv16, c: bv8, i: bv16, t: bv16)
    requires i == Index(s, c) && t == Lookup(i)
    ensures Absorb(s, c) == t ^ (s << 8)
  {
    hide Lookup, ShiftByte, Index;
  }

  /** One table lookup is eight lines of the long division. */
  lemma AbsorbIsRun(s: bv16, c: bv8)
    ensures Word(Absorb(s, c)) == Run(Word(s), ByteBits(c))
  {
    hide Word, ByteBits, Lookup, ShiftByte, Index, Absorb;
    var i := Index(s, c);
    var t := Lookup(i);
    AbsorbParts(s, c, i, t);
    RunParts(s, c, i, t);
  }

  lemma RunByte(w: Poly, b: Poly)
    requires |w| == 16 && |b| == 8
    ensures Run(w, b) ==
            Xor(ShiftWords(8, Xor(w[..8] + Zeros(8), b + Zeros(8))), w[8..] + Zeros(8))
  {
    var r := Xor(w, b + Zeros(8));
    RunIsShifts(w, b);
    ShiftWordsSplit(r);
    assert r[..8] + Zeros(8) == Xor(w[..8] + Zeros(8), b + Zeros(8));
    assert r[8..] == w[8..];
  }

  // ----- the loop over a buffer -----

  function Fold(s: bv16, bytes: seq<bv8>): bv16
    decreases |bytes|
  {
    if bytes == [] then s else Fold(Absorb(s, bytes[0]), bytes[1..])
  }

  lemma {:induction false} FoldIsRun(s: bv16, bytes: seq<bv8>)
    ensures Word(Fold(s, bytes)) == Run(Word(s), Bits(bytes))
    decreases |bytes|
  {
    hide Word, Absorb, ByteBits;
    if bytes != [] {
      AbsorbIsRun(s, bytes[0]);
      FoldIsRun(Absorb(s, bytes[0]), bytes[1..]);
      RunAppend(Word(s), ByteBits(bytes[0]), Bits(bytes[1..]));
    }
  }

  lemma {:induction false} FoldAppend(s: bv16, a: seq<bv8>, c: bv8)
    ensures Fold(s, a + [c]) == Absorb(Fold(s, a), c)
    decreases |a|
  {
    hide Absorb;
    if a == [] {
      assert a + [c] == [c] && [c][1..] == [];
    } else {
      assert (a + [c])[1..] == a[1..] + [c];
      FoldAppend(Absorb(s, a[0]), a[1..], c);
    }
  }

  lemma {:induction false} BitsAppend(a: seq<bv8>, b: seq<bv8>)
    ensures Bits(a + b) == Bits(a) + Bits(b)
    decreases |a|
  {
    hide ByteBits;
    if a == [] {
      assert a + b == b;
    } else {
      assert (a + b)[1..] == a[1..] + b;
      BitsAppend(a[1..], b);
    }
  }

  /**
    For every byte string the table-driven loop computes the remainder of the message, moved up by
    sixteen places, on long division by the generator.
   */
  lemma TableLoopIsLongDivision(bytes: seq<bv8>)
    ensures Word(Fold(0, bytes)) == Remainder(Bits(bytes) + Zeros(16))
  {
    hide Word;
    FoldIsRun(0, bytes);
    WordOfZero();
    RunFromZero(Bits(bytes));
  }

  function XorBytes(a: seq<bv8>, b: seq<bv8>): (x: seq<bv8>)
    requires |a| == |b|
    ensures |x| == |a|
  {
    seq(|a|, i requires 0 <= i < |a| => a[i] ^ b[i])
  }

  lemma ByteBitXor(a: bv8, b: bv8, k: bv5)
    requires k < 8
    ensures ByteBit(a ^ b, k) == (ByteBit(a, k) != ByteBit(b, k))
  {
  }

  lemma ByteBitsXor(a: bv8, b: bv8)
    ensures ByteBits(a ^ b) == Xor(ByteBits(a), ByteBits(b))
  {
    hide ByteBit, Power;
    forall i | 0 <= i < 8
      ensures ByteBits(a ^ b)[i] == (ByteBits(a)[i] != ByteBits(b)[i])
    {
      PowerHalves(i + 8);
      ByteBitXor(a, b, Power(i + 8));
    }
  }

  lemma XorBytesTail(a: seq<bv8>, b: seq<bv8>)
    requires |a| == |b| > 0
    ensures XorBytes(a, b)[0] == a[0] ^ b[0]
    ensures XorBytes(a, b)[1..] == XorBytes(a[1..], b[1..])
  {
  }

  lemma XorAppend(a: Poly, b: Poly, c: Poly, d: Poly)
    requires |a| == |b| && |c| == |d|
    ensures Xor(a + c, b + d) == Xor(a, b) + Xor(c, d)
  {
  }

  lemma {:induction false} BitsXor(a: seq<bv8>, b: seq<bv8>)
    requires |a| == |b|
    ensures Bits(XorBytes(a, b)) == Xor(Bits(a), Bits(b))
    decreases |a|
  {
    hide ByteBits, XorBytes;
    if a != [] {
      XorBytesTail(a, b);
      ByteBitsXor(a[0], b[0]);
      BitsXor(a[1..], b[1..]);
      XorAppend(ByteBits(a[0]), ByteBits(b[0]), Bits(a[1..]), Bits(b[1..]));
    }
  }

  /** The CRC of the xor of two strings of one length is the xor of their CRCs. */
  lemma CrcLinear(a: seq<bv8>, b: seq<bv8>)
    requires |a| == |b|
    ensures Fold(0, XorBytes(a, b)) == Fold(0, a) ^ Fold(0, b)
  {
    hide Word, Absorb, XorBytes, ByteBits;
    var x := XorBytes(a, b);
    TableLoopIsLongDivision(x);
    TableLoopIsLongDivision(a);
    TableLoopIsLongDivision(b);
    BitsXor(a, b);
    RemainderOfMessagesLinear(Bits(a), Bits(b));
    WordOfXorUnique(Fold(0, x), Fold(0, a), Fold(0, b));
  }

  lemma WordOfXorUnique(x: bv16, s: bv16, t: bv16)
    requires Word(x) == Xor(Word(s), Word(t))
    ensures x == s ^ t
  {
    hide Word;
    WordXor(s, t);
    WordInjective(x, s ^ t);
  }

  lemma RemainderOfMessagesLinear(p: Poly, q: Poly)
    requires |p| == |q|
    ensures Remainder(Xor(p, q) + Zeros(16)) == Xor(Remainder(p + Zeros(16)), Remainder(q + Zeros(16)))
  {
    assert Xor(p, q) + Zeros(16) == Xor(p + Zeros(16), q + Zeros(16));
    RemainderLinear(p + Zeros(16), q + Zeros(16));
  }

  /** The crc_t of lib/crc.c, updated in place byte by byte. */
  class CrcState {
    var crc: bv16

    /** crc_start */
    constructor ()
      ensures crc == 0
    {
      crc := 0;
    }

    /** crc_addbyte: eight message bits enter the division register. */
    method AddByte(c: bv8)
      modifies this
      ensures Word(crc) == Run(Word(old(crc)), ByteBits(c))
      ensures crc == Absorb(old(crc), c)
    {
      hide Word, ByteBits, ShiftByte, Lookup, Index;
      AbsorbIsRun(crc, c);
      crc := Lookup(Index(crc, c)) ^ (crc << 8);
    }
  }

  /** crc_check: zero exactly when the expected value is the remainder of the first len bytes. */
  method Check(expected: bv16, buffer: seq<bv8>, len: int) returns (rc: int)
    requires len <= |buffer|
    ensures rc == 0 <==> Word(expected) == Remainder(Bits(buffer[..if len < 0 then 0 else len]) + Zeros(16))
  {
    hide Word, Absorb, Bits, ByteBits, Remainder, Run;
    var crc2 := new CrcState();
    var i := 0;
    while i < len
      invariant 0 <= i && (i <= len || i == 0)
      invariant crc2.crc == Fold(0, buffer[..i])
    {
      assert buffer[..i + 1] == buffer[..i] + [buffer[i]];
      FoldAppend(0, buffer[..i], buffer[i]);
      crc2.AddByte(buffer[i]);
      i := i + 1;
    }
    rc := crc2.crc as int - expected as int;
    Compared(expected, crc2.crc, buffer[..i]);
  }

  lemma Compared(expected: bv16, crc: bv16, bytes: seq<bv8>)
    requires crc == Fold(0, bytes)
    ensures crc as int - expected as int == 0 <==> Word(expected) == Remainder(Bits(bytes) + Zeros(16))
  {
    hide *;
    TableLoopIsLongDivision(bytes);
    EqualWords(crc, expected);
  }

  lemma EqualWords(a: bv16, b: bv16)
    ensures a as int - b as int == 0 <==> Word(a) == Word(b)
  {
    hide Bit, Power;
    if Word(a) == Word(b) {
      WordInjective(a, b);
    }
    assert (a as int) as bv16 == a && (b as int) as bv16 == b;
  }
}
