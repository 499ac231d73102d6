/**
  Polynomials over the two-element field as coefficient sequences, highest power first, and their
  schoolbook long division by the generator x^16 + x^12 + x^5 + 1 (section 2 of ITU-T
  Recommendation V.41). This is the reference for the table-driven loop in module Crc, and what the
  frame check detects is proved about it.
 */
module Polynomial {

  type Poly = seq<bool>

  function Zeros(n: nat): Poly {
    seq(n, i => false)
  }

  function Xor(a: Poly, b: Poly): Poly
    requires |a| == |b|
  {
    seq(|a|, i requires 0 <= i < |a| => a[i] != b[i])
  }

  /** x^16 + x^12 + x^5 + 1. */
  const GENERATOR: Poly := [true, false, false, false, true, false, false, false, false,
                            false, false, true, false, false, false, false, true]

  /** One line of the long division: subtract the generator if the leading coefficient is set. */
  function Reduce(p: Poly): (q: Poly)
    requires |p| >= 17
    ensures |q| == |p| - 1
  {
    (if p[0] then Xor(p[..17], GENERATOR) else p[..17])[1..] + p[17..]
  }

  function Remainder(p: Poly): (r: Poly)
    requires |p| >= 16
    ensures |r| == 16
    decreases |p|
  {
    if |p| == 16 then p else Remainder(Reduce(p))
  }

  // ----- division really divides -----

  /** The product with the generator, one shifted copy of the generator for every set coefficient. */
  function Times(q: Poly): (p: Poly)
    ensures |p| == |q| + 16
  {
    if q == [] then Zeros(16)
    else Xor((if q[0] then GENERATOR else Zeros(17)) + Zeros(|q| - 1), [false] + Times(q[1..]))
  }

  function Quotient(p: Poly): (q: Poly)
    requires |p| >= 16
    ensures |q| == |p| - 16
    decreases |p|
  {
    if |p| == 16 then [] else [p[0]] + Quotient(Reduce(p))
  }

  /** Dividend = quotient * generator + remainder. */
  lemma {:induction false} DivisionIdentity(p: Poly)
    requires |p| >= 16
    ensures p == Xor(Times(Quotient(p)), Zeros(|p| - 16) + Remainder(p))
    decreases |p|
  {
    hide Reduce, Times, Xor;
    if |p| == 16 {
      NoQuotient(p);
    } else {
      var q, r := Quotient(Reduce(p)), Remainder(Reduce(p));
      DivisionIdentity(Reduce(p));
      TimesMore(p[0], q);
      DivisionStep(p, Times(q), Zeros(|p| - 17) + r);
      assert Zeros(|p| - 16) + r == [false] + (Zeros(|p| - 17) + r);
    }
  }

  lemma NoQuotient(p: Poly)
    requires |p| == 16
    ensures p == Xor(Times([]), Zeros(0) + p)
  {
  }

  lemma TimesMore(b: bool, q: Poly)
    ensures Times([b] + q) == Xor((if b then GENERATOR else Zeros(17)) + Zeros(|q|), [false] + Times(q))
  {
    hide Xor;
    assert ([b] + q)[1..] == q;
  }

  lemma DivisionStep(p: Poly, t: Poly, z: Poly)
    requires |p| >= 17 && |t| == |z| == |p| - 1
    requires Reduce(p) == Xor(t, z)
    ensures p == Xor(Xor((if p[0] then GENERATOR else Zeros(17)) + Zeros(|p| - 17), [false] + t),
                     [false] + z)
  {
    forall i | 0 < i < |p|
      ensures p[i] == (Reduce(p)[i - 1] != (i < 17 && p[0] && GENERATOR[i]))
    {
    }
    forall i | 0 < i < |p|
      ensures ([false] + t)[i] == t[i - 1] && ([false] + z)[i] == z[i - 1]
    {
    }
  }

  // ----- linearity -----

  lemma ReduceLinear(a: Poly, b: Poly)
    requires |a| == |b| >= 17
    ensures Reduce(Xor(a, b)) == Xor(Reduce(a), Reduce(b))
  {
  }

  lemma {:induction false} RemainderLinear(a: Poly, b: Poly)
    requires |a| == |b| >= 16
    ensures Remainder(Xor(a, b)) == Xor(Remainder(a), Remainder(b))
    decreases |a|
  {
    if |a| > 16 {
      ReduceLinear(a, b);
      RemainderLinear(Reduce(a), Reduce(b));
    }
  }

  /** A polynomial of degree below 16 is its own remainder. */
  lemma {:induction false} RemainderOfShort(n: nat, r: Poly)
    requires |r| == 16
    ensures Remainder(Zeros(n) + r) == r
  {
    if n == 0 {
      assert Zeros(0) + r == r;
    } else {
      assert Reduce(Zeros(n) + r) == Zeros(n - 1) + r;
      RemainderOfShort(n - 1, r);
    }
  }

  lemma {:induction false} MultipleLeavesNothing(q: Poly)
    ensures Remainder(Times(q)) == Zeros(16)
  {
    hide Remainder, Xor;
    if q == [] {
      NoMultiple();
    } else {
      var n := |q| - 1;
      var head := (if q[0] then GENERATOR else Zeros(17)) + Zeros(n);
      MultipleLeavesNothing(q[1..]);
      RemainderLinear(head, [false] + Times(q[1..]));
      HeadLeavesNothing(q[0], n);
      LeadingZero(Times(q[1..]));
      NothingAdded();
    }
  }

  lemma NoMultiple()
    ensures Remainder(Times([])) == Zeros(16)
  {
  }

  lemma LeadingZero(p: Poly)
    requires |p| >= 16
    ensures Remainder([false] + p) == Remainder(p)
  {
    hide Remainder, Xor;
    assert Reduce([false] + p) == p;
    RemainderAfterReduce([false] + p);
  }

  lemma NothingAdded()
    ensures Xor(Zeros(16), Zeros(16)) == Zeros(16)
  {
  }

  lemma HeadLeavesNothing(b: bool, n: nat)
    ensures Remainder((if b then GENERATOR else Zeros(17)) + Zeros(n)) == Zeros(16)
  {
    hide Remainder;
    var head := (if b then GENERATOR else Zeros(17)) + Zeros(n);
    assert Reduce(head) == Zeros(n) + Zeros(16);
    RemainderOfShort(n, Zeros(16));
    RemainderAfterReduce(head);
  }

  lemma RemainderAfterReduce(p: Poly)
    requires |p| >= 17
    ensures Remainder(p) == Remainder(Reduce(p))
  {
  }

  /** The generator divides exactly its multiples. */
  lemma DivisibleExactly(p: Poly)
    requires |p| >= 16
    ensures Remainder(p) == Zeros(16) <==> exists q: Poly :: |q| == |p| - 16 && p == Times(q)
  {
    hide Remainder, Times, Quotient;
    if Remainder(p) == Zeros(16) {
      var q := Quotient(p);
      DivisionIdentity(p);
      assert Zeros(|p| - 16) + Zeros(16) == Zeros(|p|);
      assert Xor(Times(q), Zeros(|p|)) == Times(q);
    }
    forall q: Poly | |q| == |p| - 16 && p == Times(q) ensures Remainder(p) == Zeros(16) {
      MultipleLeavesNothing(q);
    }
  }

  // ----- bursts -----

  ghost predicate Nonzero(p: Poly) {
    exists i :: 0 <= i < |p| && p[i]
  }

  /** Every set coefficient lies among the sixteen from position k on. */
  ghost predicate Within16(p: Poly, k: nat) {
    forall i :: 0 <= i < |p| && p[i] ==> k <= i < k + 16
  }

  /** No multiple of the generator fits into sixteen consecutive coefficients. */
  lemma {:induction false} BurstLeavesRemainder(p: Poly, k: nat)
    requires |p| >= 16 && Nonzero(p) && Within16(p, k)
    ensures Nonzero(Remainder(p))
    decreases |p|
  {
    if |p| > 16 {
      var q := Reduce(p);
      if p[0] {
        assert !p[16] && q[15] == (p[16] != GENERATOR[16]);
        BurstLeavesRemainder(q, 0);
      } else {
        assert q == p[1..];
        var i :| 0 <= i < |p| && p[i];
        assert q[i - 1];
        forall j | 0 <= j < |q| && q[j]
          ensures (if k == 0 then 0 else k - 1) <= j < (if k == 0 then 0 else k - 1) + 16
        {
          assert p[j + 1];
        }
        BurstLeavesRemainder(q, if k == 0 then 0 else k - 1);
      }
    }
  }

  // ----- parity -----

  /** Whether an odd number of coefficients is set. */
  function Odd(p: Poly): bool {
    if p == [] then false else p[0] != Odd(p[1..])
  }

  lemma {:induction false} OddAppend(a: Poly, b: Poly)
    ensures Odd(a + b) == (Odd(a) != Odd(b))
  {
    if a == [] {
      assert a + b == b;
    } else {
      assert (a + b)[1..] == a[1..] + b;
      OddAppend(a[1..], b);
    }
  }

  lemma {:induction false} OddXor(a: Poly, b: Poly)
    requires |a| == |b|
    ensures Odd(Xor(a, b)) == (Odd(a) != Odd(b))
  {
    if a != [] {
      assert Xor(a, b)[1..] == Xor(a[1..], b[1..]);
      OddXor(a[1..], b[1..]);
    }
  }

  lemma {:induction false} ZerosEven(n: nat)
    ensures !Odd(Zeros(n))
  {
    if n > 0 {
      assert Zeros(n)[1..] == Zeros(n - 1);
      ZerosEven(n - 1);
    }
  }

  lemma OddSpaced(n: nat, p: Poly)
    ensures Odd([true] + Zeros(n) + p) == !Odd(p)
  {
    assert ([true] + Zeros(n) + p)[1..] == Zeros(n) + p;
    OddAppend(Zeros(n), p);
    ZerosEven(n);
  }

  lemma GeneratorEven()
    ensures !Odd(GENERATOR)
  {
    OddSpaced(0, []);
    var c := [true] + Zeros(0) + [];
    OddSpaced(4, c);
    var b := [true] + Zeros(4) + c;
    OddSpaced(6, b);
    var a := [true] + Zeros(6) + b;
    OddSpaced(3, a);
    assert |a| == 13 && GENERATOR == [true] + Zeros(3) + a;
  }

  /** The generator is a multiple of x + 1, so division keeps the parity of the coefficients. */
  lemma {:induction false} RemainderKeepsParity(p: Poly)
    requires |p| >= 16
    ensures Odd(Remainder(p)) == Odd(p)
    decreases |p|
  {
    if |p| > 16 {
      var head := if p[0] then Xor(p[..17], GENERATOR) else p[..17];
      assert p == p[..17] + p[17..];
      OddAppend(p[..17], p[17..]);
      OddAppend(head[1..], p[17..]);
      OddXor(p[..17], GENERATOR);
      GeneratorEven();
      RemainderKeepsParity(Reduce(p));
    }
  }

  lemma {:induction false} OddIsNonzero(p: Poly)
    requires Odd(p)
    ensures Nonzero(p)
  {
    if p[0] {
    } else {
      OddIsNonzero(p[1..]);
      var i :| 0 <= i < |p[1..]| && p[1..][i];
      assert p[i + 1];
    }
  }

  // ----- the sixteen-bit register on coefficient sequences -----

  /** One shift of a sixteen-bit register; a bit that leaves at the top feeds the generator back in. */
  function ShiftWord(r: Poly): (s: Poly)
    requires |r| == 16
    ensures |s| == 16
  {
    if r[0] then Xor(r[1..] + [false], GENERATOR[1..]) else r[1..] + [false]
  }

  function ShiftWords(n: nat, r: Poly): (s: Poly)
    requires |r| == 16
    ensures |s| == 16
  {
    if n == 0 then r else ShiftWords(n - 1, ShiftWord(r))
  }

  function TakeBit(r: Poly, b: bool): (s: Poly)
    requires |r| == 16
    ensures |s| == 16
  {
    ShiftWord([r[0] != b] + r[1..])
  }

  /** Run the register over message bits. */
  function Run(r: Poly, bits: Poly): (s: Poly)
    requires |r| == 16
    ensures |s| == 16
    decreases |bits|
  {
    if bits == [] then r else Run(TakeBit(r, bits[0]), bits[1..])
  }

  lemma {:induction false} RunAppend(r: Poly, a: Poly, b: Poly)
    requires |r| == 16
    ensures Run(r, a + b) == Run(Run(r, a), b)
    decreases |a|
  {
    if a == [] {
      assert a + b == b;
    } else {
      assert (a + b)[1..] == a[1..] + b;
      RunAppend(TakeBit(r, a[0]), a[1..], b);
    }
  }

  /** Up to sixteen bits taken in one by one, or xored in at the top and shifted through. */
  lemma {:induction false} RunIsShifts(r: Poly, w: Poly)
    requires |r| == 16 && |w| <= 16
    ensures Run(r, w) == ShiftWords(|w|, Xor(r, w + Zeros(16 - |w|)))
    decreases |w|
  {
    hide TakeBit, ShiftWord, Xor;
    if w == [] {
      XorNothing(r);
    } else {
      ShiftTaken(r, w);
      RunIsShifts(TakeBit(r, w[0]), w[1..]);
    }
  }

  lemma XorNothing(r: Poly)
    requires |r| == 16
    ensures Xor(r, [] + Zeros(16)) == r
  {
  }

  /** Taking in the first bit is a shift of the register with all bits xored in. */
  lemma ShiftTaken(r: Poly, w: Poly)
    requires |r| == 16 && 0 < |w| <= 16
    ensures ShiftWord(Xor(r, w + Zeros(16 - |w|))) == Xor(TakeBit(r, w[0]), w[1..] + Zeros(17 - |w|))
  {
    hide ShiftWord;
    var x, first := Xor(r, w + Zeros(16 - |w|)), [r[0] != w[0]] + r[1..];
    ShiftAt(x);
    ShiftAt(first);
    forall i | 0 <= i < 16 ensures ShiftWord(x)[i] == Xor(ShiftWord(first), w[1..] + Zeros(17 - |w|))[i] {
    }
  }

  lemma ShiftAt(r: Poly)
    requires |r| == 16
    ensures forall i :: 0 <= i < 16 ==> ShiftWord(r)[i] == ((i < 15 && r[i + 1]) != (r[0] && GENERATOR[i + 1]))
  {
  }

  /** The register run over the message bits holds the remainder of the message times x^16. */
  lemma {:induction false} RunIsRemainder(r: Poly, bits: Poly)
    requires |r| == 16
    ensures Run(r, bits) == Remainder(Loaded(r, bits + Zeros(16)))
    decreases |bits|
  {
    var p := bits + Zeros(16);
    if bits == [] {
      assert Loaded(r, p) == r;
    } else {
      var p' := bits[1..] + Zeros(16);
      assert p == [bits[0]] + p';
      ReduceLoaded(r, bits[0], p');
      RunIsRemainder(TakeBit(r, bits[0]), bits[1..]);
    }
  }

  /** A polynomial with the register xored into its sixteen leading coefficients. */
  function Loaded(r: Poly, p: Poly): (q: Poly)
    requires |r| == 16 && |p| >= 16
    ensures |q| == |p|
  {
    Xor(r, p[..16]) + p[16..]
  }

  lemma LoadedAt(r: Poly, b: bool, p: Poly)
    requires |r| == 16 && |p| >= 16
    ensures var l := Loaded(r, [b] + p);
            l[0] == (r[0] != b) && l[16] == p[15] && l[17..] == p[16..] &&
            forall i :: 0 <= i < 15 ==> l[i + 1] == (r[i + 1] != p[i])
  {
    assert ([b] + p)[..16] == [b] + p[..15] && ([b] + p)[16..] == p[15..];
  }

  lemma ReduceAt(l: Poly)
    requires |l| >= 17
    ensures Reduce(l)[16..] == l[17..]
    ensures forall i :: 0 <= i < 16 ==> Reduce(l)[i] == (l[i + 1] != (l[0] && GENERATOR[i + 1]))
  {
  }

  lemma TakeBitAt(r: Poly, b: bool)
    requires |r| == 16
    ensures forall i :: 0 <= i < 16 ==>
              TakeBit(r, b)[i] == ((i < 15 && r[i + 1]) != ((r[0] != b) && GENERATOR[i + 1]))
  {
    var w := [r[0] != b] + r[1..];
    assert w[1..] == r[1..];
  }

  lemma ReduceLoaded(r: Poly, b: bool, p: Poly)
    requires |r| == 16 && |p| >= 16
    ensures Reduce(Loaded(r, [b] + p)) == Loaded(TakeBit(r, b), p)
  {
    hide Reduce, TakeBit;
    LoadedAt(r, b, p);
    TakeBitAt(r, b);
    ReduceLoadedAt(r, b, p, Loaded(r, [b] + p), TakeBit(r, b));
  }

  lemma ReduceLoadedAt(r: Poly, b: bool, p: Poly, l: Poly, s: Poly)
    requires |r| == |s| == 16 && |p| >= 16 && |l| == |p| + 1
    requires l[0] == (r[0] != b) && l[16] == p[15] && l[17..] == p[16..]
    requires forall i :: 0 <= i < 15 ==> l[i + 1] == (r[i + 1] != p[i])
    requires forall i :: 0 <= i < 16 ==> s[i] == ((i < 15 && r[i + 1]) != ((r[0] != b) && GENERATOR[i + 1]))
    ensures Reduce(l) == Loaded(s, p)
  {
    hide Reduce, GENERATOR;
    ReduceAt(l);
    forall i | 0 <= i < 16 ensures Reduce(l)[..16][i] == Xor(s, p[..16])[i] {
    }
    assert Reduce(l) == Reduce(l)[..16] + Reduce(l)[16..];
  }

  lemma RunFromZero(bits: Poly)
    ensures Run(Zeros(16), bits) == Remainder(bits + Zeros(16))
  {
    RunIsRemainder(Zeros(16), bits);
    assert Loaded(Zeros(16), bits + Zeros(16)) == bits + Zeros(16);
  }

  lemma {:induction false} ShiftWordsLinear(n: nat, a: Poly, b: Poly)
    requires |a| == |b| == 16
    ensures ShiftWords(n, Xor(a, b)) == Xor(ShiftWords(n, a), ShiftWords(n, b))
  {
    if n > 0 {
      assert ShiftWord(Xor(a, b)) == Xor(ShiftWord(a), ShiftWord(b));
      ShiftWordsLinear(n - 1, ShiftWord(a), ShiftWord(b));
    }
  }

  lemma {:induction false} ShiftWordsOfLow(n: nat, w: Poly)
    requires n + |w| == 16
    ensures ShiftWords(n, Zeros(n) + w) == w + Zeros(n)
  {
    hide ShiftWord;
    if n == 0 {
      assert Zeros(0) + w == w + Zeros(0);
    } else {
      ShiftOfLow(n, w);
      ShiftWordsOfLow(n - 1, w + [false]);
      assert w + [false] + Zeros(n - 1) == w + Zeros(n);
    }
  }

  lemma ShiftOfLow(n: nat, w: Poly)
    requires n > 0 && n + |w| == 16
    ensures ShiftWord(Zeros(n) + w) == Zeros(n - 1) + (w + [false])
  {
  }

  /** Shifting by eight moves the low half up and feeds back the high half. */
  lemma ShiftWordsSplit(r: Poly)
    requires |r| == 16
    ensures ShiftWords(8, r) == Xor(ShiftWords(8, r[..8] + Zeros(8)), r[8..] + Zeros(8))
  {
    hide ShiftWords;
    SplitHalves(r);
    ShiftWordsLinear(8, r[..8] + Zeros(8), Zeros(8) + r[8..]);
    ShiftWordsOfLow(8, r[8..]);
  }

  lemma SplitHalves(r: Poly)
    requires |r| == 16
    ensures r == Xor(r[..8] + Zeros(8), Zeros(8) + r[8..])
  {
  }
}
