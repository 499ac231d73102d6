/** The sixteen-bit shift register behind the frame check: machine words and their coefficients. */
module Register {
  import opened Polynomial

  /** One shift of the register; a bit that leaves at the top feeds the generator back in. */
  function Shift(s: bv16): bv16 {
    if s & 0x8000 != 0 then (s << 1) ^ 0x1021 else s << 1
  }

  /** Coefficient k of a word. */
  predicate Bit(s: bv16, k: bv5)
    requires k < 16
  {
    (s >> k) & 1 == 1
  }

  /** The power of x that stands at index i. */
  function Power(i: int): (k: bv5)
    requires 0 <= i < 16
    ensures k < 16
  {
    (15 - i) as bv5
  }

  /** The coefficients of a word, highest power first. */
  function Word(s: bv16): (w: Poly)
    ensures |w| == 16
  {
    seq(16, i requires 0 <= i < 16 => Bit(s, Power(i)))
  }

  lemma PowerNext(i: int)
    requires 0 <= i < 15
    ensures Power(i) >= 1 && Power(i + 1) == Power(i) - 1
  {
    var k := Power(i);
    assert k as int == 15 - i && (k - 1) as int == 14 - i;
  }

  lemma XorBit(s: bv16, t: bv16, k: bv5)
    requires k < 16
    ensures Bit(s ^ t, k) == (Bit(s, k) != Bit(t, k))
  {
  }

  lemma LeftBit(s: bv16, k: bv5)
    requires 1 <= k < 16
    ensures Bit(s << 1, k) == Bit(s, k - 1)
  {
  }

  lemma WordXor(s: bv16, t: bv16)
    ensures Word(s ^ t) == Xor(Word(s), Word(t))
  {
    hide Bit, Power;
    forall i | 0 <= i < 16
      ensures Word(s ^ t)[i] == (Word(s)[i] != Word(t)[i])
    {
      XorBit(s, t, Power(i));
    }
  }

  lemma WordLeft(s: bv16)
    ensures Word(s << 1) == Word(s)[1..] + [false]
  {
    hide Bit, Power;
    forall i | 0 <= i < 15
      ensures Word(s << 1)[i] == Word(s)[1..][i]
    {
      PowerNext(i);
      LeftBit(s, Power(i));
    }
    LowBit(s);
  }

  lemma LowBit(s: bv16)
    ensures Power(15) == 0 && !Bit(s << 1, 0)
  {
  }

  lemma TopBit(s: bv16)
    ensures Word(s)[0] <==> s & 0x8000 != 0
  {
    assert Power(0) == 15;
  }

  lemma WordOfGenerator()
    ensures Word(0x1021) == GENERATOR[1..]
  {
    hide Power, Bit;
    forall i | 0 <= i < 16 ensures Word(0x1021)[i] == GENERATOR[1..][i] {
      GeneratorBit(Power(i));
      GeneratorPower(i);
    }
  }

  lemma GeneratorBit(k: bv5)
    requires k < 16
    ensures Bit(0x1021, k) <==> k == 12 || k == 5 || k == 0
  {
  }

  lemma GeneratorPower(i: int)
    requires 0 <= i < 16
    ensures Power(i) == 12 || Power(i) == 5 || Power(i) == 0 <==> GENERATOR[i + 1]
  {
  }

  /** One shift of the word is one line of the division by the generator. */
  lemma WordShift(s: bv16)
    ensures Word(Shift(s)) == ShiftWord(Word(s))
  {
    hide Bit, Power, Word;
    TopBit(s);
    WordLeft(s);
    WordXor(s << 1, 0x1021);
    WordOfGenerator();
  }

  lemma WordOfZero()
    ensures Word(0) == Zeros(16)
  {
    hide Power;
    forall k: bv5 | k < 16 ensures !Bit(0, k) {
    }
  }

  lemma WordInjective(s: bv16, t: bv16)
    requires Word(s) == Word(t)
    ensures s == t
  {
    forall k: bv5 | k < 16
      ensures Bit(s, k) == Bit(t, k)
    {
      var i := 15 - k as int;
      assert Power(i) == k;
      assert Word(s)[i] == Word(t)[i];
    }
    BitsDetermine(s, t);
  }

  lemma BitsDetermine(s: bv16, t: bv16)
    requires Bit(s, 0) == Bit(t, 0) && Bit(s, 1) == Bit(t, 1) && Bit(s, 2) == Bit(t, 2)
    requires Bit(s, 3) == Bit(t, 3) && Bit(s, 4) == Bit(t, 4) && Bit(s, 5) == Bit(t, 5)
    requires Bit(s, 6) == Bit(t, 6) && Bit(s, 7) == Bit(t, 7) && Bit(s, 8) == Bit(t, 8)
    requires Bit(s, 9) == Bit(t, 9) && Bit(s, 10) == Bit(t, 10) && Bit(s, 11) == Bit(t, 11)
    requires Bit(s, 12) == Bit(t, 12) && Bit(s, 13) == Bit(t, 13)
    requires Bit(s, 14) == Bit(t, 14) && Bit(s, 15) == Bit(t, 15)
    ensures s == t
  {
  }

  // ----- eight shifts -----

  function Shifts(n: nat, s: bv16): bv16 {
    if n == 0 then s else Shifts(n - 1, Shift(s))
  }

  lemma {:induction false} WordShifts(n: nat, s: bv16)
    ensures Word(Shifts(n, s)) == ShiftWords(n, Word(s))
  {
    hide Shift, Word;
    if n > 0 {
      WordShift(s);
      WordShifts(n - 1, Shift(s));
    }
  }

  lemma {:induction false} WordLefts(n: nat, s: bv16)
    requires n <= 16
    ensures Word(Lefts(n, s)) == Word(s)[n..] + Zeros(n)
  {
    hide Word;
    if n > 0 {
      WordLeft(s);
      WordLefts(n - 1, s << 1);
    }
  }

  function Lefts(n: nat, s: bv16): bv16 {
    if n == 0 then s else Lefts(n - 1, s << 1)
  }

  lemma LeftsByte(s: bv16)
    ensures Lefts(8, s) == s << 8
  {
    var s2 := s << 2;
    var s4 := s << 4;
    var s6 := s << 6;
    assert Lefts(8, s) == Lefts(6, s2) == Lefts(4, s4) == Lefts(2, s6) == Lefts(0, s << 8);
  }
}
