/**
  Acceptance of data packets (lib/DavisStation.cc, lib/VantagePro.cc). A frame carries its CRC as a
  big-endian trailer. The Davis stations leave byte 0 outside the CRC, the VantagePro covers the
  whole frame. A packet is given here as the bytes the channel delivered.
 */
module Frames {
  import opened Polynomial
  import opened Crc
  import Register
  import TwoBits

  datatype Reading = Accepted(packet: seq<bv8>) | BadHeader | BadChecksum

  /** The last two bytes are the remainder of what precedes them. */
  ghost predicate Checked(covered: seq<bv8>)
    requires |covered| >= 2
  {
    var n := |covered| - 2;
    Remainder(Bits(covered[..n]) + Zeros(16)) == Bits(covered[n..])
  }

  ghost predicate DavisAccepts(packet: seq<bv8>)
    requires |packet| >= 3
  {
    packet[0] == 0x01 && Checked(packet[1..])
  }

  ghost predicate VantageAccepts(packet: seq<bv8>)
    requires |packet| >= 3
  {
    packet[..3] == [0x4c, 0x4f, 0x4f] && Checked(packet)
  }

  /** The comparison of the trailer, high byte first, with the CRC of the bytes before it. */
  method CheckTrailer(covered: seq<bv8>) returns (ok: bool)
    requires |covered| >= 2
    ensures ok <==> Checked(covered)
  {
    hide Register.Word, ByteBits;
    var n := |covered| - 2;
    var crc := (covered[n + 1] as bv16) | ((covered[n] as bv16) << 8);
    var rc := Check(crc, covered[..n], n);
    assert covered[..n][..n] == covered[..n];
    WordOfTrailer(covered[n], covered[n + 1]);
    assert covered[n..] == [covered[n], covered[n + 1]];
    ok := rc == 0;
  }

  /** DavisStation::readPacket on the bytes received. */
  method ReadDavisPacket(received: seq<bv8>) returns (r: Reading)
    requires |received| >= 3
    ensures r.Accepted? <==> DavisAccepts(received)
    ensures r.Accepted? ==> r.packet == received
    ensures r.BadHeader? <==> received[0] != 0x01
  {
    if received[0] != 0x01 {
      return BadHeader;
    }
    var ok := CheckTrailer(received[1..]);
    r := if ok then Accepted(received) else BadChecksum;
  }

  /** VantagePro::readPacket on the bytes received. */
  method ReadVantagePacket(received: seq<bv8>) returns (r: Reading)
    requires |received| >= 3
    ensures r.Accepted? <==> VantageAccepts(received)
    ensures r.Accepted? ==> r.packet == received
    ensures r.BadHeader? <==> received[..3] != [0x4c, 0x4f, 0x4f]
  {
    if received[..3] != [0x4c, 0x4f, 0x4f] {
      return BadHeader;
    }
    var ok := CheckTrailer(received);
    r := if ok then Accepted(received) else BadChecksum;
  }

  // ----- the trailer -----

  lemma WordOfTrailer(hi: bv8, lo: bv8)
    ensures Register.Word((lo as bv16) | ((hi as bv16) << 8)) == Bits([hi, lo])
  {
    hide Register.Word, ByteBits;
    BitsOfTwo(hi, lo);
    TrailerSum(hi, lo);
    WordOfByte(hi);
    WordOfByte(lo);
    Register.WordXor((hi as bv16) << 8, lo as bv16);
    WordOfLow(lo);
  }

  lemma TrailerSum(hi: bv8, lo: bv8)
    ensures (lo as bv16) | ((hi as bv16) << 8) == ((hi as bv16) << 8) ^ (lo as bv16)
  {
  }

  lemma WordOfLow(lo: bv8)
    ensures Register.Word(lo as bv16) == Zeros(8) + ByteBits(lo)
  {
    hide Register.Bit, Register.Power, ByteBit;
    forall i | 0 <= i < 16
      ensures Register.Word(lo as bv16)[i] == (Zeros(8) + ByteBits(lo))[i]
    {
      LowBits(lo, Register.Power(i));
      PowerHalves(i);
    }
  }

  lemma LowBits(lo: bv8, k: bv5)
    requires k < 16
    ensures Register.Bit(lo as bv16, k) == (k < 8 && ByteBit(lo, k))
  {
  }

  lemma BitsOfTwo(hi: bv8, lo: bv8)
    ensures Bits([hi, lo]) == ByteBits(hi) + ByteBits(lo)
  {
    hide ByteBits;
    assert [hi, lo][1..] == [lo] && [lo][1..] == [];
    assert Bits([lo]) == ByteBits(lo) + Bits([]);
  }

  /** The trailer fits exactly when the generator divides data and trailer taken together. */
  lemma CheckedIffDivisible(covered: seq<bv8>)
    requires |covered| >= 2
    ensures Checked(covered) <==> Remainder(Bits(covered)) == Zeros(16)
  {
    hide Bits, Remainder, Zeros;
    var n := |covered| - 2;
    var data, t := covered[..n], covered[n..];
    Rejoin(covered, n);
    BitsAppend(data, t);
    SumOfTrailer(Bits(data), Bits(t));
  }

  /** The trailer fits exactly when the CRC run over data and trailer together ends in state 0. */
  lemma CheckedIffStateZero(covered: seq<bv8>)
    requires |covered| >= 2
    ensures Checked(covered) <==> Fold(0, covered) == 0
  {
    hide *;
    CheckedIffDivisible(covered);
    TableLoopIsLongDivision(covered);
    ZeroAfter(Bits(covered));
    ZeroState(Fold(0, covered));
  }

  lemma Rejoin<T>(s: seq<T>, n: nat)
    requires n <= |s|
    ensures s == s[..n] + s[n..]
  {
  }

  lemma ZeroState(s: bv16)
    ensures s == 0 <==> Register.Word(s) == Zeros(16)
  {
    hide Register.Word;
    Register.WordOfZero();
    if Register.Word(s) == Zeros(16) {
      Register.WordInjective(s, 0);
    }
  }

  lemma SumOfTrailer(data: Poly, t: Poly)
    requires |t| == 16
    ensures Remainder(data + t) == Zeros(16) <==> Remainder(data + Zeros(16)) == t
  {
    hide Remainder;
    TrailerAsSum(data, t);
    RemainderLinear(data + Zeros(16), Zeros(|data|) + t);
    RemainderOfShort(|data|, t);
    ZeroSum(Remainder(data + Zeros(16)), t);
  }

  lemma TrailerAsSum(data: Poly, t: Poly)
    requires |t| == 16
    ensures data + t == Xor(data + Zeros(16), Zeros(|data|) + t)
  {
  }

  lemma ZeroSum(r: Poly, t: Poly)
    requires |r| == |t|
    ensures Xor(r, t) == Zeros(|r|) <==> r == t
  {
    forall i | 0 <= i < |r|
      ensures Xor(r, t)[i] == Zeros(|r|)[i] <==> r[i] == t[i]
    {
    }
  }

  /** Sixteen more places do not change whether the generator divides. */
  lemma {:induction false} ZeroAfter(p: Poly)
    requires |p| >= 16
    ensures Remainder(p + Zeros(16)) == Zeros(16) <==> Remainder(p) == Zeros(16)
    decreases |p|
  {
    if |p| == 16 {
      ZeroAfterShort(p);
    } else {
      assert Reduce(p + Zeros(16)) == Reduce(p) + Zeros(16);
      ZeroAfter(Reduce(p));
    }
  }

  lemma ZeroAfterShort(p: Poly)
    requires |p| == 16
    ensures Remainder(p + Zeros(16)) == Zeros(16) <==> p == Zeros(16)
  {
    hide Remainder;
    if p == Zeros(16) {
      RemainderOfShort(16, Zeros(16));
    } else {
      var i :| 0 <= i < 16 && p[i];
      assert (p + Zeros(16))[i];
      BurstLeavesRemainder(p + Zeros(16), 0);
    }
  }

  /** Every data string has exactly one trailer that is accepted. */
  lemma OneTrailer(data: seq<bv8>)
    ensures exists hi, lo :: Checked(data + [hi, lo])
    ensures forall hi, lo, hi', lo' ::
              Checked(data + [hi, lo]) && Checked(data + [hi', lo']) ==> hi == hi' && lo == lo'
  {
    var w := Fold(0, data);
    TrailerFits(data, w);
    assert Checked(data + [HighByte(w), LowByte(w)]);
    forall a, b, c, d | Checked(data + [a, b]) && Checked(data + [c, d])
      ensures a == c && b == d
    {
      TrailerUnique(data, a, b, c, d);
    }
  }

  lemma TrailerFits(data: seq<bv8>, w: bv16)
    requires w == Fold(0, data)
    ensures Checked(data + [HighByte(w), LowByte(w)])
  {
    hide *;
    TableLoopIsLongDivision(data);
    WordOfTrailer(HighByte(w), LowByte(w));
    Halves(w);
    CheckedWith(data, HighByte(w), LowByte(w));
  }

  lemma TrailerUnique(data: seq<bv8>, a: bv8, b: bv8, c: bv8, d: bv8)
    requires Checked(data + [a, b]) && Checked(data + [c, d])
    ensures a == c && b == d
  {
    hide *;
    CheckedWith(data, a, b);
    CheckedWith(data, c, d);
    BitsInjective([a, b], [c, d]);
    assert [a, b][0] == [c, d][0] && [a, b][1] == [c, d][1];
  }

  lemma CheckedWith(data: seq<bv8>, hi: bv8, lo: bv8)
    ensures Checked(data + [hi, lo]) <==> Remainder(Bits(data) + Zeros(16)) == Bits([hi, lo])
  {
    var f := data + [hi, lo];
    assert f[..|f| - 2] == data && f[|f| - 2..] == [hi, lo];
  }

  function HighByte(w: bv16): bv8 {
    HighFits(w);
    (w >> 8) as bv8
  }

  function LowByte(w: bv16): bv8 {
    LowFits(w);
    (w & 0xff) as bv8
  }

  lemma HighFits(w: bv16)
    ensures w >> 8 < 256
  {
  }

  lemma LowFits(w: bv16)
    ensures w & 0xff < 256
  {
  }

  lemma Halves(w: bv16)
    ensures (LowByte(w) as bv16) | ((HighByte(w) as bv16) << 8) == w
  {
  }

  lemma {:induction false} BitsInjective(f: seq<bv8>, g: seq<bv8>)
    requires Bits(f) == Bits(g)
    ensures f == g
    decreases |f|
  {
    hide ByteBits;
    if f != [] {
      var b, c := Bits(f), Bits(g);
      assert b[..8] == ByteBits(f[0]) && c[..8] == ByteBits(g[0]);
      assert b[8..] == Bits(f[1..]) && c[8..] == Bits(g[1..]);
      ByteBitsInjective(f[0], g[0]);
      BitsInjective(f[1..], g[1..]);
      assert f == [f[0]] + f[1..] && g == [g[0]] + g[1..];
    }
  }

  lemma ByteBitsInjective(c: bv8, d: bv8)
    requires ByteBits(c) == ByteBits(d)
    ensures c == d
  {
    hide Register.Word, ByteBits;
    WordOfByte(c);
    WordOfByte(d);
    Register.WordInjective((c as bv16) << 8, (d as bv16) << 8);
    ShiftedBytes(c, d);
  }

  lemma ShiftedBytes(c: bv8, d: bv8)
    requires (c as bv16) << 8 == (d as bv16) << 8
    ensures c == d
  {
  }

  // ----- what the check detects -----

  /** The bits in which two strings of one length differ. */
  function Difference(f: seq<bv8>, g: seq<bv8>): (e: Poly)
    requires |f| == |g|
    ensures |e| == 8 * |f|
  {
    Xor(Bits(f), Bits(g))
  }

  /** f and g differ, but only inside one window of sixteen consecutive bits. */
  ghost predicate DifferInBurst(f: seq<bv8>, g: seq<bv8>, k: nat)
    requires |f| == |g|
  {
    f != g && forall i :: 0 <= i < 8 * |f| && !(k <= i < k + 16) ==> Bits(f)[i] == Bits(g)[i]
  }

  /** f and g differ in an odd number of bits. */
  ghost predicate DifferOddly(f: seq<bv8>, g: seq<bv8>)
    requires |f| == |g|
  {
    Odd(Difference(f, g))
  }

  ghost predicate Altered(f: seq<bv8>, g: seq<bv8>)
    requires |f| == |g|
  {
    DifferOddly(f, g) || exists k: nat :: DifferInBurst(f, g, k)
  }

  /** An alteration of a valid covered part is never valid again. */
  lemma AlterationRejected(f: seq<bv8>, g: seq<bv8>)
    requires |f| == |g| >= 2
    requires Checked(f) && Altered(f, g)
    ensures !Checked(g)
  {
    hide ByteBits, Bits, Fold, Reduce;
    var p, q := Bits(f), Bits(g);
    var e := Xor(p, q);
    CheckedIffDivisible(f);
    CheckedIffDivisible(g);
    RemainderLinear(p, q);
    if DifferOddly(f, g) {
      RemainderKeepsParity(e);
      OddIsNonzero(Remainder(e));
    } else {
      var k: nat :| DifferInBurst(f, g, k);
      if !Nonzero(e) {
        assert forall i :: 0 <= i < |p| ==> e[i] == (p[i] != q[i]);
        assert p == q;
        BitsInjective(f, g);
      }
      assert forall i :: 0 <= i < |p| && e[i] ==> p[i] != q[i];
      BurstLeavesRemainder(e, k);
    }
    var i :| 0 <= i < 16 && Remainder(e)[i];
    assert Xor(Remainder(p), Remainder(q))[i];
  }

  lemma DifferenceRemainder(f: seq<bv8>, g: seq<bv8>)
    requires |f| == |g| >= 2 && Checked(f)
    ensures Checked(g) <==> Remainder(Difference(f, g)) == Zeros(16)
  {
    hide Bits, Checked, Remainder;
    CheckedIffDivisible(f);
    CheckedIffDivisible(g);
    RemainderLinear(Bits(f), Bits(g));
    ZeroLeft(Remainder(Bits(f)), Remainder(Bits(g)));
  }

  lemma ZeroLeft(a: Poly, b: Poly)
    requires |a| == |b| == 16 && a == Zeros(16)
    ensures Xor(a, b) == b
  {
  }

  /** An alteration goes unnoticed exactly when it is a multiple of the generator. */
  lemma UndetectedExactly(f: seq<bv8>, g: seq<bv8>)
    requires |f| == |g| >= 2 && Checked(f)
    ensures Checked(g) <==> exists q: Poly :: |q| == 8 * |f| - 16 && Difference(f, g) == Times(q)
  {
    hide Difference, Checked, Remainder, Times;
    DifferenceRemainder(f, g);
    DivisibleExactly(Difference(f, g));
  }

  /** Two altered bits go unnoticed exactly when their distance is a multiple of 32767. */
  lemma TwoBitsExactly(f: seq<bv8>, g: seq<bv8>, i: nat, j: nat)
    requires |f| == |g| >= 2 && Checked(f) && i < j < 8 * |f| && TwoBits.PairAt(Difference(f, g), i, j)
    ensures Checked(g) <==> (j - i) % 32767 == 0
  {
    hide Difference, Checked, Remainder, TwoBits.PairAt;
    DifferenceRemainder(f, g);
    TwoBits.PairRemainder(Difference(f, g), i, j);
  }

  /** Up to 4095 bytes, one, two or three altered bits are always noticed. */
  lemma FewBitsRejected(f: seq<bv8>, g: seq<bv8>)
    requires 2 <= |f| == |g| <= 4095 && Checked(f) && 1 <= TwoBits.Weight(Difference(f, g)) <= 3
    ensures !Checked(g)
  {
    hide Difference, Checked, Remainder, TwoBits.Weight;
    DifferenceRemainder(f, g);
    TwoBits.FewLeaveRemainder(Difference(f, g));
  }

  // ----- whole packets -----

  /** With the same first byte, all differences lie in the bytes after it. */
  lemma DifferenceAfterFirst(f: seq<bv8>, g: seq<bv8>)
    requires |f| == |g| >= 1 && f[0] == g[0]
    ensures Difference(f, g) == Zeros(8) + Difference(f[1..], g[1..])
  {
    hide ByteBits;
    var b, c := Bits(f), Bits(g);
    assert b == ByteBits(f[0]) + Bits(f[1..]) && c == ByteBits(g[0]) + Bits(g[1..]);
  }

  lemma AlteredAfterFirst(f: seq<bv8>, g: seq<bv8>)
    requires |f| == |g| >= 1 && f[0] == g[0] && Altered(f, g)
    ensures Altered(f[1..], g[1..])
  {
    hide Bits, Odd;
    DifferenceAfterFirst(f, g);
    if DifferOddly(f, g) {
      OddAppend(Zeros(8), Difference(f[1..], g[1..]));
      ZerosEven(8);
    } else {
      var k: nat :| DifferInBurst(f, g, k);
      BurstAfterFirst(f, g, k, if k < 8 then 0 else k - 8);
    }
  }

  lemma TailsTell(f: seq<bv8>, g: seq<bv8>)
    requires |f| == |g| >= 1 && f[0] == g[0]
    ensures f[1..] == g[1..] ==> f == g
  {
    assert f == [f[0]] + f[1..] && g == [g[0]] + g[1..];
  }

  lemma BurstAfterFirst(f: seq<bv8>, g: seq<bv8>, k: nat, m: nat)
    requires |f| == |g| >= 1 && f[0] == g[0] && DifferInBurst(f, g, k) && m == if k < 8 then 0 else k - 8
    ensures DifferInBurst(f[1..], g[1..], m)
  {
    hide ByteBits;
    TailsTell(f, g);
    forall i | 0 <= i < 8 * |f[1..]| && !(m <= i < m + 16) ensures Bits(f[1..])[i] == Bits(g[1..])[i] {
      assert Bits(f)[i + 8] == Bits(g)[i + 8];
      assert Bits(f)[i + 8] == Bits(f[1..])[i] && Bits(g)[i + 8] == Bits(g[1..])[i];
    }
  }

  /** readPacket of the Davis stations rejects such alterations of the packet or of its covered part. */
  lemma DavisDetects(packet: seq<bv8>, altered: seq<bv8>)
    requires |packet| == |altered| >= 3 && DavisAccepts(packet)
    requires Altered(packet, altered) || Altered(packet[1..], altered[1..])
    ensures !DavisAccepts(altered)
  {
    hide Altered, Checked;
    if altered[0] == packet[0] {
      if Altered(packet, altered) {
        AlteredAfterFirst(packet, altered);
      }
      AlterationRejected(packet[1..], altered[1..]);
    }
  }

  /** An altered packet is accepted exactly when byte 0 is kept and the rest differs by a multiple. */
  lemma DavisAcceptsExactly(packet: seq<bv8>, altered: seq<bv8>)
    requires |packet| == |altered| >= 3 && DavisAccepts(packet)
    ensures DavisAccepts(altered) <==>
            altered[0] == packet[0] &&
            exists q: Poly :: |q| == 8 * |packet| - 24 && Difference(packet[1..], altered[1..]) == Times(q)
  {
    hide Checked, Difference, Times;
    UndetectedExactly(packet[1..], altered[1..]);
  }

  /** Up to 4096 bytes, one, two or three altered bits anywhere in the packet are noticed. */
  lemma DavisFewBits(packet: seq<bv8>, altered: seq<bv8>)
    requires 3 <= |packet| == |altered| <= 4096 && DavisAccepts(packet)
    requires 1 <= TwoBits.Weight(Difference(packet, altered)) <= 3
    ensures !DavisAccepts(altered)
  {
    hide Checked, Difference, TwoBits.Weight;
    if altered[0] == packet[0] {
      DifferenceAfterFirst(packet, altered);
      TwoBits.WeightAppend(Zeros(8), Difference(packet[1..], altered[1..]));
      TwoBits.WeightOfZeros(8);
      FewBitsRejected(packet[1..], altered[1..]);
    }
  }

  lemma VantageDetects(packet: seq<bv8>, altered: seq<bv8>)
    requires |packet| == |altered| >= 3
    requires VantageAccepts(packet) && Altered(packet, altered)
    ensures !VantageAccepts(altered)
  {
    hide Altered, Checked;
    AlterationRejected(packet, altered);
  }

  lemma VantageAcceptsExactly(packet: seq<bv8>, altered: seq<bv8>)
    requires |packet| == |altered| >= 3 && VantageAccepts(packet)
    ensures VantageAccepts(altered) <==>
            altered[..3] == packet[..3] &&
            exists q: Poly :: |q| == 8 * |packet| - 16 && Difference(packet, altered) == Times(q)
  {
    hide Checked, Difference, Times;
    UndetectedExactly(packet, altered);
  }

  lemma VantageFewBits(packet: seq<bv8>, altered: seq<bv8>)
    requires 3 <= |packet| == |altered| <= 4095 && VantageAccepts(packet)
    requires 1 <= TwoBits.Weight(Difference(packet, altered)) <= 3
    ensures !VantageAccepts(altered)
  {
    hide Checked, Difference, TwoBits.Weight;
    FewBitsRejected(packet, altered);
  }
}
