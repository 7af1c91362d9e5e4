/**
What the checksum means: section 3.2.9 of IEEE 802.3 defines it as the
complement of a polynomial remainder, and the register computes that remainder.
*/
module Crc32Polynomial {
  import opened BitPolynomials
  import opened Crc32Register
  import opened Crc32Run
  import opened Crc32Bits

  /** The powers of x in the generator polynomial of section 3.2.9 of IEEE 802.3. */
  const GENERATOR_POWERS: set<int> := {32, 26, 23, 22, 16, 12, 11, 10, 8, 7, 5, 4, 2, 1, 0}

  /** The generator, coefficient of x^32 first. */
  const GENERATOR: seq<bool> := seq(33, i => 32 - i in GENERATOR_POWERS)

  lemma PolynomialHighByte()
    ensures Bits(POLYNOMIAL, 8) == [false, false, false, false, false, true, false, false]
    ensures Halves(POLYNOMIAL, 8) == 0x00EDB883
  {
    EightHalves(POLYNOMIAL);
  }

  lemma PolynomialSecondByte()
    ensures Bits(0x00EDB883, 8) == [true, true, false, false, false, false, false, true]
    ensures Halves(0x00EDB883, 8) == 0x0000EDB8
  {
    EightHalves(0x00EDB883);
  }

  lemma PolynomialThirdByte()
    ensures Bits(0x0000EDB8, 8) == [false, false, false, true, true, true, false, true]
    ensures Halves(0x0000EDB8, 8) == 0x000000ED
  {
    EightHalves(0x0000EDB8);
  }

  lemma PolynomialFourthByte()
    ensures Bits(0x000000ED, 8) == [true, false, true, true, false, true, true, true]
  {
  }

  lemma {:induction false} BitsSplit(s: bv32, m: nat, n: nat)
    ensures Bits(s, m + n) == Bits(s, m) + Bits(Halves(s, m), n)
    decreases m
  {
    hide Odd, Half;
    if m != 0 {
      BitsSplit(Half(s), m - 1, n);
    }
  }

  /** The constant in the code is the published generator, reflected, without x^32. */
  lemma PolynomialIsGenerator()
    ensures GENERATOR == [true] + Coefficients(POLYNOMIAL)
  {
    hide Bits, Halves;
    BitsSplit(POLYNOMIAL, 8, 24);
    BitsSplit(0x00EDB883, 8, 16);
    BitsSplit(0x0000EDB8, 8, 8);
    PolynomialHighByte();
    PolynomialSecondByte();
    PolynomialThirdByte();
    PolynomialFourthByte();
    var c := Coefficients(POLYNOMIAL);
    assert c == [false, false, false, false, false, true, false, false]
             + [true, true, false, false, false, false, false, true]
             + [false, false, false, true, true, true, false, true]
             + [true, false, true, true, false, true, true, true];
    forall i | 0 <= i < 33
      ensures GENERATOR[i] == ([true] + c)[i]
    {
    }
  }

  // ----------------------------------------------------------- one step of division

  /** The dividend of a run: the input bits times x^32, the register added at the top. */
  function Dividend(s: bv32, w: seq<bool>): (p: seq<bool>)
    ensures |p| == |w| + 32
  {
    Add(w + Zeros(32), Coefficients(s) + Zeros(|w|))
  }

  lemma CoefficientsOfStep(s: bv32)
    ensures Coefficients(s)[0] == Odd(s)
    ensures Coefficients(Step(s)) == Add(Coefficients(s)[1..] + [false], Scale(Odd(s), Coefficients(POLYNOMIAL)))
  {
    hide Odd, Half, Xor, Step, Bits;
    FirstCoefficient(s);
    StepForm(s);
    CoefficientsOfHalf(s);
    BitsXor(Half(s), POLYNOMIAL, 32);
    assert Add(Coefficients(s)[1..] + [false], Zeros(32)) == Coefficients(s)[1..] + [false];
  }

  lemma FirstCoefficient(s: bv32)
    ensures Coefficients(s)[0] == Odd(s)
  {
    hide Odd, Half;
  }

  lemma MixBit(s: bv32, b: bool)
    ensures Coefficients(Xor(s, BitWord(b))) == [Odd(s) != b] + Coefficients(s)[1..]
  {
    hide Odd, Half, Xor;
    OddXor(s, BitWord(b));
    HalfXor(s, BitWord(b));
    BitWordParts(b);
    XorUnit(Half(s));
    assert Bits(s, 32) == [Odd(s)] + Bits(Half(s), 31);
    var t := Xor(s, BitWord(b));
    assert Bits(t, 32) == [Odd(t)] + Bits(Half(t), 31);
  }

  /** One clock of the circuit is one line of long division by the generator. */
  lemma StepIsReduce(s: bv32, w: seq<bool>)
    requires |w| > 0
    ensures Reduce(Dividend(s, w), GENERATOR) == Dividend(Step(Xor(s, BitWord(w[0]))), w[1..])
  {
    hide Odd, Half, Xor, Step, Bits, BitWord;
    var t := Xor(s, BitWord(w[0]));
    var p := Dividend(s, w);
    var c, u, g := Coefficients(s), Coefficients(Step(t)), Coefficients(POLYNOMIAL);
    PolynomialIsGenerator();
    FirstCoefficient(s);
    FirstCoefficient(t);
    MixBit(s, w[0]);
    CoefficientsOfStep(t);
    assert Odd(t) == p[0];
    var line := Scale(p[0], GENERATOR) + Zeros(|p| - 33);
    forall i | 0 <= i < |p| - 1
      ensures Reduce(p, GENERATOR)[i] == Dividend(Step(t), w[1..])[i]
    {
      assert Reduce(p, GENERATOR)[i] == (p[i + 1] != line[i + 1]);
      assert p[i + 1] == ((w + Zeros(32))[i + 1] != (c + Zeros(|w|))[i + 1]);
      assert (w + Zeros(32))[i + 1] == (w[1..] + Zeros(32))[i];
      if i < 32 {
        assert u[i] == ((c[1..] + [false])[i] != Scale(p[0], g)[i]);
        assert line[i + 1] == Scale(p[0], g)[i];
        assert (c + Zeros(|w|))[i + 1] == (c[1..] + [false])[i];
      }
    }
  }

  lemma DividendLeader(s: bv32, w: seq<bool>)
    ensures |w| == 0 ==> Dividend(s, w) == Coefficients(s)
  {
    hide Bits;
  }

  /** The register after a run holds the remainder of the dividend. */
  lemma {:induction false} BitRunIsRemainder(s: bv32, w: seq<bool>) returns (q: seq<bool>)
    ensures Dividend(s, w) == Compose(q, GENERATOR, Coefficients(BitRun(s, w)))
    decreases |w|
  {
    hide Step, Xor, Bits, BitWord, Reduce, Compose;
    PolynomialIsGenerator();
    if |w| == 0 {
      q := [];
      DividendLeader(s, w);
      ComposeNothing(Coefficients(s));
    } else {
      var t := Step(Xor(s, BitWord(w[0])));
      var rest := BitRunIsRemainder(t, w[1..]);
      StepIsReduce(s, w);
      DivisionStep(Dividend(s, w), GENERATOR, rest, Coefficients(BitRun(s, w)));
      q := [Dividend(s, w)[0]] + rest;
    }
  }

  lemma ComposeNothing(r: seq<bool>)
    requires |r| == 32
    ensures Compose([], GENERATOR, r) == r
  {
  }

  lemma RemainderOfRun(s: bv32, w: seq<bool>, r: seq<bool>)
    ensures IsRemainder(Dividend(s, w), GENERATOR, r) <==> r == Coefficients(BitRun(s, w))
  {
    hide Bits, BitRun, Compose;
    var q := BitRunIsRemainder(s, w);
    PolynomialIsGenerator();
    assert IsRemainder(Dividend(s, w), GENERATOR, Coefficients(BitRun(s, w)));
    if IsRemainder(Dividend(s, w), GENERATOR, r) {
      RemainderUnique(Dividend(s, w), GENERATOR, r, Coefficients(BitRun(s, w)));
    }
  }

  // -------------------------------------------------------- the definition of the CRC

  /** The polynomial that section 3.2.9 of IEEE 802.3 divides: M(x) x^32, first 32 bits complemented. */
  function CheckedPolynomial(m: seq<bv8>): (p: seq<bool>)
    ensures |p| == 8 * |m| + 32
  {
    ComplementFirst(MessageBits(m) + Zeros(32), 32)
  }

  lemma OnesDropped()
    ensures DropByte(ALL_ONES) == 0x00FFFFFF
    ensures DropByte(0x00FFFFFF) == 0x0000FFFF
    ensures DropByte(0x0000FFFF) == 0x000000FF
  {
  }

  lemma AllOnesCoefficients()
    ensures forall i :: 0 <= i < 32 ==> Coefficients(ALL_ONES)[i]
  {
    hide Bits, Halves, DropByte;
    OnesDropped();
    EightHalves(ALL_ONES);
    EightHalves(0x00FFFFFF);
    EightHalves(0x0000FFFF);
    BitsSplit(ALL_ONES, 8, 24);
    BitsSplit(0x00FFFFFF, 8, 16);
    BitsSplit(0x0000FFFF, 8, 8);
    OnesByte(ALL_ONES);
    OnesByte(0x00FFFFFF);
    OnesByte(0x0000FFFF);
    OnesByte(0x000000FF);
    var ones := [true, true, true, true, true, true, true, true];
    assert Coefficients(ALL_ONES) == ones + (ones + (ones + ones));
  }

  /** Eight set low bits read as eight ones, whatever lies above them. */
  lemma OnesByte(s: bv32)
    requires s & 0xff == 0xff
    ensures Bits(s, 8) == [true, true, true, true, true, true, true, true]
  {
  }

  lemma CheckedPolynomialIsDividend(m: seq<bv8>)
    ensures CheckedPolynomial(m) == Dividend(ALL_ONES, MessageBits(m))
  {
    hide Bits, MessageBits;
    AllOnesCoefficients();
  }

  /**
  The checksum of every message, short ones included, is the complement of the
  remainder of its polynomial, read back with x^31 in bit 0; and it is so for
  no other candidate.
  */
  lemma CalculateIsComplementedRemainder(m: seq<bv8>, r: seq<bool>)
    requires |r| == 32
    ensures IsRemainder(CheckedPolynomial(m), GENERATOR, r) <==> Calculate(m) == Finish(Pack(r))
  {
    hide Bits, BitRun, Run, MessageBits, Pack, Finish, IsRemainder;
    var s := Run(ALL_ONES, m);
    CheckedPolynomialIsDividend(m);
    RunIsBitRun(ALL_ONES, m);
    RemainderOfRun(ALL_ONES, MessageBits(m), r);
    CoefficientsBijective(s, r);
    FinishTwice(s);
    FinishTwice(Pack(r));
  }
}
