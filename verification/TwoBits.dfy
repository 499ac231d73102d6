/**
  Two altered bits are noticed as long as they are less than 32767 bits apart: x has order 32767 modulo
  the generator. The powers of x are computed by squaring, on machine words.
 */
module TwoBits {
  import opened Polynomial
  import opened Register
  import Division

  // ----- single bits -----

  /** The polynomial 1 in sixteen coefficients. */
  function One(): (p: Poly)
    ensures |p| == 16
  {
    Zeros(15) + [true]
  }

  /** The remainder of x^n. */
  function XPower(n: nat): (p: Poly)
    ensures |p| == 16
  {
    ShiftWords(n, One())
  }

  lemma {:induction false} RemainderIsShifts(r: Poly, n: nat)
    requires |r| == 16
    ensures Remainder(r + Zeros(n)) == ShiftWords(n, r)
    decreases n
  {
    hide Remainder, ShiftWord, Reduce;
    if n == 0 {
      assert r + Zeros(0) == r;
      RemainderOfWord(r);
    } else {
      ReduceIsShift(r, n);
      RemainderAfterReduce(r + Zeros(n));
      RemainderIsShifts(ShiftWord(r), n - 1);
    }
  }

  lemma RemainderOfWord(r: Poly)
    requires |r| == 16
    ensures Remainder(r) == r
  {
  }

  lemma ReduceIsShift(r: Poly, n: nat)
    requires |r| == 16 && n > 0
    ensures Reduce(r + Zeros(n)) == ShiftWord(r) + Zeros(n - 1)
  {
    assert (r + Zeros(n))[..17] == r + [false];
    assert (r + Zeros(n))[17..] == Zeros(n - 1);
  }

  lemma {:induction false} LeadingZeros(n: nat, p: Poly)
    requires |p| >= 16
    ensures Remainder(Zeros(n) + p) == Remainder(p)
  {
    if n == 0 {
      assert Zeros(0) + p == p;
    } else {
      assert Reduce(Zeros(n) + p) == Zeros(n - 1) + p;
      LeadingZeros(n - 1, p);
    }
  }

  /** One set coefficient with n places below it. */
  function Single(i: nat, n: nat): (p: Poly)
    ensures |p| == i + 1 + n
  {
    Zeros(i) + [true] + Zeros(n)
  }

  lemma SingleRemainder(i: nat, n: nat)
    requires i + 1 + n >= 16
    ensures Remainder(Single(i, n)) == XPower(n)
  {
    assert Zeros(15) + Single(i, n) == Zeros(i) + (One() + Zeros(n));
    LeadingZeros(15, Single(i, n));
    LeadingZeros(i, One() + Zeros(n));
    RemainderIsShifts(One(), n);
  }

  lemma {:induction false} ShiftsAdd(m: nat, n: nat, r: Poly)
    requires |r| == 16
    ensures ShiftWords(m, ShiftWords(n, r)) == ShiftWords(m + n, r)
    decreases n
  {
    if n > 0 {
      ShiftsAdd(m, n - 1, ShiftWord(r));
    }
  }

  lemma ShiftInjective(r: Poly, s: Poly)
    requires |r| == |s| == 16 && ShiftWord(r) == ShiftWord(s)
    ensures r == s
  {
    assert ShiftWord(r)[15] == r[0] && ShiftWord(s)[15] == s[0];
    forall i | 0 < i < 16 ensures r[i] == s[i] {
      assert ShiftWord(r)[i - 1] == (r[i] != (r[0] && GENERATOR[i]));
      assert ShiftWord(s)[i - 1] == (s[i] != (s[0] && GENERATOR[i]));
    }
  }

  lemma {:induction false} ShiftsInjective(n: nat, r: Poly, s: Poly)
    requires |r| == |s| == 16 && ShiftWords(n, r) == ShiftWords(n, s)
    ensures r == s
  {
    hide ShiftWord;
    if n > 0 {
      ShiftsInjective(n - 1, ShiftWord(r), ShiftWord(s));
      ShiftInjective(r, s);
    }
  }

  // ----- multiplication modulo the generator -----

  /** Horner's rule: the product of bits and b. */
  function Horner(bits: Poly, b: Poly): (p: Poly)
    requires |b| == 16
    ensures |p| == 16
  {
    if bits == [] then Zeros(16)
    else
      var n := |bits| - 1;
      Xor(ShiftWord(Horner(bits[..n], b)), if bits[n] then b else Zeros(16))
  }

  lemma {:induction false} HornerShift(bits: Poly, b: Poly)
    requires |b| == 16
    ensures Horner(bits, ShiftWord(b)) == ShiftWord(Horner(bits, b))
  {
    hide ShiftWord;
    ShiftOfZeros();
    if bits != [] {
      var n := |bits| - 1;
      HornerShift(bits[..n], b);
      ShiftOfXor(ShiftWord(Horner(bits[..n], b)), if bits[n] then b else Zeros(16));
    }
  }

  lemma ShiftOfXor(a: Poly, b: Poly)
    requires |a| == |b| == 16
    ensures ShiftWord(Xor(a, b)) == Xor(ShiftWord(a), ShiftWord(b))
  {
  }

  lemma ShiftOfZeros()
    ensures ShiftWord(Zeros(16)) == Zeros(16)
  {
  }

  lemma {:induction false} HornerShifts(n: nat, bits: Poly, b: Poly)
    requires |b| == 16
    ensures Horner(bits, ShiftWords(n, b)) == ShiftWords(n, Horner(bits, b))
  {
    hide ShiftWord, Horner;
    if n > 0 {
      HornerShift(bits, b);
      HornerShifts(n - 1, bits, ShiftWord(b));
    }
  }

  /** Multiplying by 1. */
  lemma {:induction false} HornerOne(bits: Poly)
    requires |bits| <= 16
    ensures Horner(bits, One()) == Zeros(16 - |bits|) + bits
  {
    hide ShiftWord, One;
    if bits == [] {
      assert Zeros(16) + bits == Zeros(16);
    } else {
      var n := |bits| - 1;
      HornerOne(bits[..n]);
      ShiftOfShort(bits[..n], bits[n]);
      assert bits == bits[..n] + [bits[n]];
    }
  }

  /** Below degree fifteen a shift moves the coefficients, and the next one comes in at the end. */
  lemma ShiftOfShort(bits: Poly, b: bool)
    requires |bits| < 16
    ensures Xor(ShiftWord(Zeros(16 - |bits|) + bits), if b then One() else Zeros(16)) ==
            Zeros(15 - |bits|) + (bits + [b])
  {
    assert ShiftWord(Zeros(16 - |bits|) + bits) == Zeros(15 - |bits|) + bits + [false];
  }

  lemma PowersMultiply(m: nat, n: nat)
    ensures Horner(XPower(m), XPower(n)) == XPower(m + n)
  {
    hide Horner, ShiftWords, ShiftWord;
    HornerShifts(n, XPower(m), One());
    HornerOne(XPower(m));
    assert Zeros(0) + XPower(m) == XPower(m);
    ShiftsAdd(n, m, One());
  }

  // ----- the same on machine words -----

  function Step(a: bv16, k: bv5, b: bv16, acc: bv16): bv16
    requires k < 16
  {
    Shift(acc) ^ (if Bit(a, k) then b else 0)
  }

  function Product(a: bv16, b: bv16): bv16 {
    Step(a, 0, b, Step(a, 1, b, Step(a, 2, b, Step(a, 3, b, UpperProduct(a, b)))))
  }

  function UpperProduct(a: bv16, b: bv16): bv16 {
    Step(a, 4, b, Step(a, 5, b, Step(a, 6, b, Step(a, 7, b, Step(a, 8, b, Step(a, 9, b, TopProduct(a, b)))))))
  }

  function TopProduct(a: bv16, b: bv16): bv16 {
    Step(a, 10, b, Step(a, 11, b, Step(a, 12, b, Step(a, 13, b, Step(a, 14, b, Step(a, 15, b, 0))))))
  }

  lemma WordStep(a: bv16, k: bv5, b: bv16, acc: bv16, i: nat)
    requires i < 16 && k == Power(i) && Word(acc) == Horner(Word(a)[..i], Word(b))
    ensures Word(Step(a, k, b, acc)) == Horner(Word(a)[..i + 1], Word(b))
  {
    hide Step, ShiftWord, Power, Bit, Word, Horner;
    WordAt(a, k, i);
    WordOfStep(a, k, b, acc);
    HornerNext(Word(a), Word(b), i);
  }

  lemma HornerNext(w: Poly, b: Poly, i: nat)
    requires i < |w| && |b| == 16
    ensures Horner(w[..i + 1], b) == Xor(ShiftWord(Horner(w[..i], b)), if w[i] then b else Zeros(16))
  {
    hide ShiftWord;
    assert w[..i + 1][..i] == w[..i];
  }

  lemma WordOfStep(a: bv16, k: bv5, b: bv16, acc: bv16)
    requires k < 16
    ensures Word(Step(a, k, b, acc)) == Xor(ShiftWord(Word(acc)), if Bit(a, k) then Word(b) else Zeros(16))
  {
    hide *;
    WordShift(acc);
    if Bit(a, k) {
      StepSet(a, k, b, acc);
      WordXor(Shift(acc), b);
    } else {
      StepClear(a, k, b, acc);
      XorZeros(ShiftWord(Word(acc)));
    }
  }

  lemma StepSet(a: bv16, k: bv5, b: bv16, acc: bv16)
    requires k < 16 && Bit(a, k)
    ensures Step(a, k, b, acc) == Shift(acc) ^ b
  {
    hide Shift, Bit;
  }

  lemma StepClear(a: bv16, k: bv5, b: bv16, acc: bv16)
    requires k < 16 && !Bit(a, k)
    ensures Step(a, k, b, acc) == Shift(acc)
  {
    hide Shift, Bit;
  }

  lemma XorZeros(p: Poly)
    requires |p| == 16
    ensures Xor(p, Zeros(16)) == p
  {
  }

  lemma WordAt(a: bv16, k: bv5, i: nat)
    requires i < 16 && k == Power(i)
    ensures k < 16 && Word(a)[i] == Bit(a, k)
  {
    hide Bit, Power;
  }

  lemma Powers()
    ensures Power(0) == 15 && Power(1) == 14 && Power(2) == 13 && Power(3) == 12 && Power(4) == 11
    ensures Power(5) == 10 && Power(6) == 9 && Power(7) == 8 && Power(8) == 7 && Power(9) == 6
    ensures Power(10) == 5 && Power(11) == 4 && Power(12) == 3 && Power(13) == 2 && Power(14) == 1 && Power(15) == 0
  {
  }

  lemma WordTop(a: bv16, b: bv16)
    ensures Word(TopProduct(a, b)) == Horner(Word(a)[..6], Word(b))
  {
    hide Step, Horner, Word, Power;
    Powers();
    StartZero(a, b);
    var s15 := Step(a, 15, b, 0);
    WordStep(a, 15, b, 0, 0);
    var s14 := Step(a, 14, b, s15);
    WordStep(a, 14, b, s15, 1);
    var s13 := Step(a, 13, b, s14);
    WordStep(a, 13, b, s14, 2);
    var s12 := Step(a, 12, b, s13);
    WordStep(a, 12, b, s13, 3);
    var s11 := Step(a, 11, b, s12);
    WordStep(a, 11, b, s12, 4);
    WordStep(a, 10, b, s11, 5);
  }

  lemma StartZero(a: bv16, b: bv16)
    ensures Word(0) == Horner(Word(a)[..0], Word(b))
  {
    hide Word;
    WordOfZero();
    assert Word(a)[..0] == [];
  }

  lemma WordUpper(a: bv16, b: bv16)
    ensures Word(UpperProduct(a, b)) == Horner(Word(a)[..12], Word(b))
  {
    hide Step, Horner, Word, Power, TopProduct;
    Powers();
    WordTop(a, b);
    var s10 := TopProduct(a, b);
    var s9 := Step(a, 9, b, s10);
    WordStep(a, 9, b, s10, 6);
    var s8 := Step(a, 8, b, s9);
    WordStep(a, 8, b, s9, 7);
    var s7 := Step(a, 7, b, s8);
    WordStep(a, 7, b, s8, 8);
    var s6 := Step(a, 6, b, s7);
    WordStep(a, 6, b, s7, 9);
    var s5 := Step(a, 5, b, s6);
    WordStep(a, 5, b, s6, 10);
    WordStep(a, 4, b, s5, 11);
  }

  lemma WordProduct(a: bv16, b: bv16)
    ensures Word(Product(a, b)) == Horner(Word(a), Word(b))
  {
    hide Step, Horner, Word, Power, UpperProduct;
    Powers();
    WordUpper(a, b);
    var s4 := UpperProduct(a, b);
    var s3 := Step(a, 3, b, s4);
    WordStep(a, 3, b, s4, 12);
    var s2 := Step(a, 2, b, s3);
    WordStep(a, 2, b, s3, 13);
    var s1 := Step(a, 1, b, s2);
    WordStep(a, 1, b, s2, 14);
    WordStep(a, 0, b, s1, 15);
    assert Word(a)[..16] == Word(a);
  }

  // ----- the order of x -----

  /** The word c holds the remainder of x^n. */
  predicate IsPower(n: nat, c: bv16) {
    Word(c) == XPower(n)
  }

  lemma FirstPower()
    ensures IsPower(1, 0x0002)
  {
    hide ShiftWord;
    WordOfOne();
    WordShift(1);
    assert ShiftWords(1, One()) == ShiftWords(0, ShiftWord(One()));
    assert Shift(1) == 2;
  }

  lemma WordOfOne()
    ensures Word(1) == One()
  {
    hide Bit, Power;
    forall i | 0 <= i < 16 ensures Word(1)[i] == One()[i] {
      LowestBit(Power(i));
      PowerIs(i);
    }
  }

  lemma LowestBit(k: bv5)
    requires k < 16
    ensures Bit(1, k) <==> k == 0
  {
  }

  lemma PowerIs(i: int)
    requires 0 <= i < 16
    ensures Power(i) == 0 <==> i == 15
  {
  }

  lemma Doubled(n: nat, c: bv16, d: bv16)
    requires IsPower(n, c) && Product(c, c) == d
    ensures IsPower(2 * n, d)
  {
    hide Word, XPower, Product, Horner;
    WordProduct(c, c);
    PowersMultiply(n, n);
  }

  lemma Raised(n: nat, c: bv16, d: bv16)
    requires IsPower(n, c) && Shift(c) == d
    ensures IsPower(n + 1, d)
  {
    hide Word, Shift, ShiftWord;
    WordShift(c);
    ShiftsAdd(1, n, One());
    assert ShiftWords(1, XPower(n)) == ShiftWords(0, ShiftWord(XPower(n)));
  }

  // Squarings and single steps lead to the exponents that matter.

  lemma PowerSeventh()
    ensures IsPower(4681, 0x2c42)
  {
    hide IsPower;
    FirstPower();
    Doubled(1, 0x0002, 0x0004);
    Doubled(2, 0x0004, 0x0010);
    Doubled(4, 0x0010, 0x0100);
    Raised(8, 0x0100, 0x0200);
    Doubled(9, 0x0200, 0x4084);
    Doubled(18, 0x4084, 0x4363);
    Doubled(36, 0x4363, 0x47d3);
    Raised(72, 0x47d3, 0x8fa6);
    Doubled(73, 0x8fa6, 0x4388);
    Doubled(146, 0x4388, 0x1396);
    Doubled(292, 0x1396, 0x2280);
    Raised(584, 0x2280, 0x4500);
    Doubled(585, 0x4500, 0x0163);
    Doubled(1170, 0x0163, 0x0424);
    Doubled(2340, 0x0424, 0x1621);
    Raised(4680, 0x1621, 0x2c42);
  }

  lemma PowerThirtyFirst()
    ensures IsPower(1057, 0xf2af)
  {
    hide IsPower;
    FirstPower();
    Doubled(1, 0x0002, 0x0004);
    Doubled(2, 0x0004, 0x0010);
    Doubled(4, 0x0010, 0x0100);
    Doubled(8, 0x0100, 0x1021);
    Doubled(16, 0x1021, 0x3730);
    Raised(32, 0x3730, 0x6e60);
    Doubled(33, 0x6e60, 0xc1c6);
    Doubled(66, 0xc1c6, 0x4e8a);
    Doubled(132, 0x4e8a, 0x5946);
    Doubled(264, 0x5946, 0x78b3);
    Doubled(528, 0x78b3, 0xf147);
    Raised(1056, 0xf147, 0xf2af);
  }

  lemma PowerLast()
    ensures IsPower(217, 0x48e3)
  {
    hide IsPower;
    FirstPower();
    Doubled(1, 0x0002, 0x0004);
    Raised(2, 0x0004, 0x0008);
    Doubled(3, 0x0008, 0x0040);
    Doubled(6, 0x0040, 0x1000);
    Raised(12, 0x1000, 0x2000);
    Doubled(13, 0x2000, 0xccc4);
    Raised(26, 0xccc4, 0x89a9);
    Doubled(27, 0x89a9, 0x1168);
    Doubled(54, 0x1168, 0x3750);
    Doubled(108, 0x3750, 0xac61);
    Raised(216, 0xac61, 0x48e3);
  }

  lemma PowerAll()
    ensures IsPower(32768, 0x0002)
  {
    hide IsPower;
    FirstPower();
    Doubled(1, 0x0002, 0x0004);
    Doubled(2, 0x0004, 0x0010);
    Doubled(4, 0x0010, 0x0100);
    Doubled(8, 0x0100, 0x1021);
    Doubled(16, 0x1021, 0x3730);
    Doubled(32, 0x3730, 0xb861);
    Doubled(64, 0xb861, 0xaefc);
    Doubled(128, 0xaefc, 0x8e29);
    Doubled(256, 0x8e29, 0x13fc);
    Doubled(512, 0x13fc, 0x36c4);
    Doubled(1024, 0x36c4, 0xfd50);
    Doubled(2048, 0xfd50, 0xaa9e);
    Doubled(4096, 0xaa9e, 0x881c);
    Doubled(8192, 0x881c, 0x4458);
    Doubled(16384, 0x4458, 0x0002);
  }

  /** x^n is 1 modulo the generator. */
  predicate Returns(n: nat) {
    XPower(n) == One()
  }

  lemma ReturnsAfter(a: nat, b: nat)
    requires Returns(a)
    ensures Returns(a + b) <==> Returns(b)
  {
    hide ShiftWords;
    ShiftsAdd(b, a, One());
  }

  lemma {:induction false} ReturnsMultiple(g: nat, k: nat)
    requires Returns(g)
    ensures Returns(k * g)
  {
    hide ShiftWords;
    if k == 0 {
      ReturnsNothing();
    } else {
      ReturnsMultiple(g, k - 1);
      assert k * g == g + (k - 1) * g;
      ReturnsAfter(g, (k - 1) * g);
    }
  }

  lemma ReturnsRemainder(g: nat, n: nat)
    requires g > 0 && Returns(g)
    ensures Returns(n) <==> Returns(n % g)
  {
    hide Returns;
    Division.Recomposed(n, g);
    ReturnsMultiple(g, n / g);
    ReturnsAfter((n / g) * g, n % g);
  }

  const ORDER := 32767

  lemma OrderReturns()
    ensures Returns(ORDER)
  {
    hide ShiftWord, ShiftWords, Word;
    PowerAll();
    FirstPower();
    assert XPower(32768) == XPower(1);
    ShiftsAdd(1, ORDER, One());
    ShiftsInjective(1, XPower(ORDER), One());
  }

  /** Euclid's algorithm finds a divisor of the order that returns. */
  lemma {:induction false} ReturningDivisor(d: nat) returns (g: nat)
    requires d > 0 && Returns(d)
    ensures 0 < g <= d && ORDER % g == 0 && Returns(g)
  {
    hide Returns;
    if ORDER % d == 0 {
      g := d;
    } else {
      OrderReturns();
      ReturnsRemainder(d, ORDER);
      Division.Recomposed(ORDER, d);
      g := ReturningDivisor(ORDER % d);
    }
  }

  /** 32767 is 7 * 31 * 151. */
  lemma SmallDivisor(n: nat)
    requires 0 < n <= 181 && 32767 % n == 0
    ensures n == 1 || n == 7 || n == 31 || n == 151
  {
  }

  lemma Divisors(g: nat)
    requires 0 < g < ORDER && ORDER % g == 0
    ensures g == 1 || g == 7 || g == 31 || g == 151 || g == 217 || g == 1057 || g == 4681
  {
    var k := ORDER / g;
    Division.Recomposed(ORDER, g);
    assert k * g == ORDER;
    if g <= 181 {
      SmallDivisor(g);
    } else {
      Cofactor(k, g);
      SmallDivisor(k);
    }
  }

  lemma Cofactor(k: int, g: nat)
    requires k * g == ORDER && 181 < g < ORDER
    ensures 1 < k <= 181 && ORDER % k == 0
  {
    LargeProduct(k, g);
    NonpositiveProduct(k, g);
    assert k * g == g * k;
    Division.QuotientIs(ORDER, g, 0, k);
  }

  lemma LargeProduct(k: int, g: int)
    requires g > 181
    ensures k > 181 ==> k * g > ORDER
  {
    if k > 181 {
      assert (k - 182) * (g - 182) == k * g - 182 * k - 182 * g + 182 * 182;
      Division.NonnegativeProduct(k - 182, g - 182);
    }
  }

  lemma NonpositiveProduct(k: int, g: int)
    requires g > 0
    ensures k <= 0 ==> k * g <= 0
    ensures k == 1 ==> k * g == g
  {
    if k <= 0 {
      Division.NonnegativeProduct(-k, g);
      assert (-k) * g == -(k * g);
    }
  }

  /** x^d is 1 modulo the generator exactly for the multiples of 32767. */
  lemma OrderOfX(d: nat)
    ensures Returns(d) <==> d % ORDER == 0
  {
    hide Returns, IsPower;
    OrderReturns();
    ReturnsRemainder(ORDER, d);
    var r := d % ORDER;
    if r == 0 {
      ReturnsNothing();
    } else if Returns(r) {
      var g := ReturningDivisor(r);
      Divisors(g);
      NoDivisorReturns(g);
    }
  }

  lemma ReturnsNothing()
    ensures Returns(0)
  {
  }

  lemma NoDivisorReturns(g: nat)
    requires g == 1 || g == 7 || g == 31 || g == 151 || g == 217 || g == 1057 || g == 4681
    ensures !Returns(g)
  {
    hide Returns, IsPower;
    if Returns(g) {
      if g == 1 || g == 31 || g == 151 || g == 4681 {
        ReturnsMultiple(g, 4681 / g);
        PowerSeventh();
        NotOne(4681, 0x2c42);
      } else if g == 1057 {
        PowerThirtyFirst();
        NotOne(1057, 0xf2af);
      } else {
        ReturnsMultiple(g, 217 / g);
        PowerLast();
        NotOne(217, 0x48e3);
      }
    }
  }

  lemma NotOne(n: nat, c: bv16)
    requires IsPower(n, c) && c != 1
    ensures !Returns(n)
  {
    hide Word, XPower;
    WordOfOne();
    if Returns(n) {
      WordInjective(c, 1);
    }
  }

  // ----- what two altered bits leave -----

  /** The set coefficients are those at i and j. */
  ghost predicate PairAt(p: Poly, i: nat, j: nat) {
    i < j < |p| && forall k :: 0 <= k < |p| ==> (p[k] <==> k == i || k == j)
  }

  /** Two set coefficients are divisible by the generator exactly when their distance is a multiple of 32767. */
  lemma PairRemainder(p: Poly, i: nat, j: nat)
    requires |p| >= 16 && PairAt(p, i, j) && i < j < |p|
    ensures Remainder(p) == Zeros(16) <==> (j - i) % ORDER == 0
  {
    hide Remainder, XPower, Single, Returns, PairAt;
    var m, n: nat := |p| - 1 - j, |p| - 1 - i;
    PairOfSingles(p, i, j, n, m);
    RemainderLinear(Single(i, n), Single(j, m));
    SingleRemainder(i, n);
    SingleRemainder(j, m);
    SumIsZero(XPower(n), XPower(m));
    SamePower(m, j - i);
    OrderOfX(j - i);
  }

  lemma PairOfSingles(p: Poly, i: nat, j: nat, n: nat, m: nat)
    requires PairAt(p, i, j) && i + 1 + n == j + 1 + m == |p|
    ensures p == Xor(Single(i, n), Single(j, m))
  {
  }

  lemma SumIsZero(a: Poly, b: Poly)
    requires |a| == |b| == 16
    ensures Xor(a, b) == Zeros(16) <==> a == b
  {
    if Xor(a, b) == Zeros(16) {
      forall i | 0 <= i < 16 ensures a[i] == b[i] {
        assert Xor(a, b)[i] == Zeros(16)[i];
      }
    }
  }

  lemma SamePower(m: nat, d: nat)
    ensures XPower(m + d) == XPower(m) <==> Returns(d)
  {
    hide ShiftWords;
    ShiftsAdd(m, d, One());
    if XPower(m + d) == XPower(m) {
      ShiftsInjective(m, XPower(d), One());
    }
  }

  // ----- up to three altered bits -----

  /** The number of set coefficients. */
  function Weight(p: Poly): nat {
    if p == [] then 0 else (if p[0] then 1 else 0) + Weight(p[1..])
  }

  lemma {:induction false} OddWeight(p: Poly)
    ensures Odd(p) <==> Weight(p) % 2 == 1
  {
    if p != [] {
      OddWeight(p[1..]);
    }
  }

  lemma {:induction false} WeightAppend(a: Poly, b: Poly)
    ensures Weight(a + b) == Weight(a) + Weight(b)
  {
    if a == [] {
      assert a + b == b;
    } else {
      assert (a + b)[1..] == a[1..] + b;
      WeightAppend(a[1..], b);
    }
  }

  lemma {:induction false} WeightOfZeros(n: nat)
    ensures Weight(Zeros(n)) == 0
  {
    if n > 0 {
      assert Zeros(n)[1..] == Zeros(n - 1);
      WeightOfZeros(n - 1);
    }
  }

  lemma {:induction false} NoneSet(p: Poly)
    requires Weight(p) == 0
    ensures forall k :: 0 <= k < |p| ==> !p[k]
  {
    if p != [] {
      NoneSet(p[1..]);
      assert forall k :: 0 < k < |p| ==> p[k] == p[1..][k - 1];
    }
  }

  lemma {:induction false} OneSet(p: Poly) returns (i: nat)
    requires Weight(p) == 1
    ensures i < |p| && forall k :: 0 <= k < |p| ==> (p[k] <==> k == i)
  {
    assert forall k :: 0 < k < |p| ==> p[k] == p[1..][k - 1];
    if p[0] {
      NoneSet(p[1..]);
      i := 0;
    } else {
      var m := OneSet(p[1..]);
      i := m + 1;
    }
  }

  lemma {:induction false} TwoSet(p: Poly) returns (i: nat, j: nat)
    requires Weight(p) == 2
    ensures PairAt(p, i, j)
  {
    assert forall k :: 0 < k < |p| ==> p[k] == p[1..][k - 1];
    if p[0] {
      var m := OneSet(p[1..]);
      i, j := 0, m + 1;
    } else {
      var m, n := TwoSet(p[1..]);
      i, j := m + 1, n + 1;
    }
  }

  /** Up to 32767 coefficients, the generator divides nothing with one, two or three set coefficients. */
  lemma FewLeaveRemainder(p: Poly)
    requires 16 <= |p| <= ORDER && 1 <= Weight(p) <= 3
    ensures Remainder(p) != Zeros(16)
  {
    hide Remainder, Odd, PairAt;
    if Weight(p) == 2 {
      var i, j := TwoSet(p);
      PairOrdered(p, i, j);
      PairRemainder(p, i, j);
    } else {
      OddWeight(p);
      RemainderKeepsParity(p);
      ZerosEven(16);
    }
  }

  lemma PairOrdered(p: Poly, i: nat, j: nat)
    requires PairAt(p, i, j)
    ensures i < j < |p|
  {
  }
}
