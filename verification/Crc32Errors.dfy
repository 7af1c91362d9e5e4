/**
The transmission errors the checksum is there to catch: which pairs of messages
of one length can share a checksum, and which never do.
*/
module Crc32Errors {
  import opened BitPolynomials
  import opened Crc32Register
  import opened Crc32Run
  import opened Crc32Bits
  import opened Crc32Polynomial

  /** The bit positions in which two messages differ. */
  function Difference(a: seq<bv8>, b: seq<bv8>): (d: seq<bool>)
    requires |a| == |b|
    ensures |d| == 8 * |a|
  {
    Add(MessageBits(a), MessageBits(b))
  }

  /** All differing bits lie among the `length` bits from position `from` on. */
  ghost predicate DifferOnlyWithin(a: seq<bv8>, b: seq<bv8>, from: nat, length: nat)
    requires |a| == |b|
  {
    forall i :: 0 <= i < 8 * |a| && MessageBits(a)[i] != MessageBits(b)[i] ==> from <= i < from + length
  }

  lemma EqualChecksums(a: seq<bv8>, b: seq<bv8>)
    requires |a| == |b|
    ensures Calculate(a) == Calculate(b) <==> BitRun(0, Difference(a, b)) == 0
  {
    hide Run, BitRun, MessageBits, Finish, Xor, XorMessages;
    CalculateDifference(a, b);
    RunIsBitRun(0, XorMessages(a, b));
    MessageBitsXor(a, b);
    XorUnit(Calculate(a));
    XorSolve(Calculate(a), Calculate(b), 0);
  }

  /** Messages of one length share a checksum iff the generator divides their difference times x^32. */
  lemma EqualChecksumsIffMultiple(a: seq<bv8>, b: seq<bv8>)
    requires |a| == |b|
    ensures Calculate(a) == Calculate(b) <==> IsRemainder(Difference(a, b) + Zeros(32), GENERATOR, Zeros(32))
  {
    hide Run, BitRun, MessageBits, Finish, IsRemainder, Bits;
    var d := Difference(a, b);
    EqualChecksums(a, b);
    RemainderOfRun(0, d, Zeros(32));
    BitsOfZero(32);
    assert Dividend(0, d) == d + Zeros(32);
    CoefficientsBijective(BitRun(0, d), Zeros(32));
    CoefficientsBijective(0, Zeros(32));
  }

  /** Zero bits before and after an error pattern do not change whether it is missed. */
  lemma PatternAlone(from: nat, w: seq<bool>, after: nat)
    ensures BitRun(0, Zeros(from) + w + Zeros(after)) == 0 <==> BitRun(0, w) == 0
  {
    hide BitRun, Steps;
    BitRunAppend(0, Zeros(from) + w, Zeros(after));
    BitRunAppend(0, Zeros(from), w);
    BitRunZeros(0, from);
    StepsOfZero(from);
    var t := BitRun(0, w);
    BitRunZeros(t, after);
    StepsOfZero(after);
    if Steps(t, after) == 0 {
      StepsInjective(t, 0, after);
    }
  }

  lemma PackZero(w: seq<bool>)
    requires |w| <= 32
    ensures Pack(w) == 0 <==> w == Zeros(|w|)
  {
    hide Bits, Pack;
    BitsOfPack(w, 32);
    BitsOfZero(32);
    if Pack(w) == 0 {
      assert w == (w + Zeros(32 - |w|))[..|w|];
    }
    if w == Zeros(|w|) {
      assert w + Zeros(32 - |w|) == Zeros(32);
      CoefficientsBijective(Pack(w), Zeros(32));
      CoefficientsBijective(0, Zeros(32));
    }
  }

  lemma PaddedZero(before: nat, w: seq<bool>, after: nat)
    ensures Zeros(before) + w + Zeros(after) == Zeros(before + |w| + after) <==> w == Zeros(|w|)
  {
    var p := Zeros(before) + w + Zeros(after);
    assert w == p[before..before + |w|];
  }

  /** The register, started at zero, returns to zero over 32 bits only if they are all zero. */
  lemma ShortPatternMissed(w: seq<bool>)
    requires |w| <= 32
    ensures BitRun(0, w) == 0 <==> w == Zeros(|w|)
  {
    hide BitRun, Steps, Pack, Xor;
    BitRunPacked(0, w);
    XorUnit(Pack(w));
    PackZero(w);
    StepsOfZero(|w|);
    if Steps(Pack(w), |w|) == 0 {
      StepsInjective(Pack(w), 0, |w|);
    }
  }

  /** Cuts a difference into the error window and the agreeing bits around it. */
  lemma Window(a: seq<bv8>, b: seq<bv8>, from: nat, length: nat) returns (lo: nat, hi: nat)
    requires |a| == |b| && DifferOnlyWithin(a, b, from, length)
    ensures lo <= hi <= 8 * |a| && hi - lo <= length
    ensures from + length <= 8 * |a| ==> lo == from && hi == from + length
    ensures 0 < hi - lo == length ==> lo == from
    ensures var d := Difference(a, b); d == Zeros(lo) + d[lo..hi] + Zeros(8 * |a| - hi)
  {
    hide MessageBits;
    var n := 8 * |a|;
    lo := if from < n then from else n;
    hi := if from + length < n then from + length else n;
    var d := Difference(a, b);
    forall i | 0 <= i < n
      ensures d[i] == (Zeros(lo) + d[lo..hi] + Zeros(n - hi))[i]
    {
      assert d[i] == (MessageBits(a)[i] != MessageBits(b)[i]);
    }
  }

  lemma DifferenceZero(a: seq<bv8>, b: seq<bv8>)
    requires |a| == |b|
    ensures a == b <==> Difference(a, b) == Zeros(8 * |a|)
  {
    hide MessageBits;
    if Difference(a, b) == Zeros(8 * |a|) {
      forall i | 0 <= i < 8 * |a|
        ensures MessageBits(a)[i] == MessageBits(b)[i]
      {
        assert !Difference(a, b)[i];
      }
      assert MessageBits(a) == MessageBits(b);
      MessageBitsInjective(a, b);
    }
  }

  /** Only the bits inside the window decide equality and undetected change. */
  lemma WindowDecides(a: seq<bv8>, b: seq<bv8>, lo: nat, w: seq<bool>, after: nat)
    requires |a| == |b| && Difference(a, b) == Zeros(lo) + w + Zeros(after)
    ensures Calculate(a) == Calculate(b) <==> BitRun(0, w) == 0
    ensures a == b <==> w == Zeros(|w|)
  {
    hide BitRun, Calculate, Difference;
    EqualChecksums(a, b);
    PatternAlone(lo, w, after);
    DifferenceZero(a, b);
    PaddedZero(lo, w, after);
  }

  /**
  Burst detection: messages of one length that differ, and differ only inside
  32 consecutive bits wherever these start, have different checksums.
  */
  lemma BurstDetected(a: seq<bv8>, b: seq<bv8>, from: nat)
    requires |a| == |b| && DifferOnlyWithin(a, b, from, 32)
    ensures Calculate(a) == Calculate(b) <==> a == b
  {
    hide BitRun, Calculate, Difference, DifferOnlyWithin;
    var lo, hi := Window(a, b, from, 32);
    var w := Difference(a, b)[lo..hi];
    WindowDecides(a, b, lo, w, 8 * |a| - hi);
    ShortPatternMissed(w);
  }

  // ---------------------------------------------------- the bound of 32 is exact

  lemma PolynomialTopSet()
    ensures Coefficients(POLYNOMIAL)[31]
    ensures Step(1) == POLYNOMIAL && Step(0) == 0
  {
    PolynomialIsGenerator();
    var g := GENERATOR;
    assert g[32] == ([true] + Coefficients(POLYNOMIAL))[32];
  }

  lemma FirstBitOfPattern(b: bool, w: seq<bool>)
    requires |w| <= 32
    ensures BitRun(0, [b] + w) == Steps(Xor(Step(BitWord(b)), Pack(w)), |w|)
  {
    hide Step, Xor, BitWord, Pack, Steps;
    assert ([b] + w)[1..] == w;
    XorUnit(BitWord(b));
    BitRunPacked(Step(BitWord(b)), w);
  }

  /** Among patterns of up to 33 bits only nothing and the generator itself are missed. */
  lemma LongerPatternMissed(b: bool, w: seq<bool>)
    requires |w| <= 32
    ensures BitRun(0, [b] + w) == 0 <==> [b] + w == Zeros(|w| + 1) || [b] + w == GENERATOR
  {
    hide BitRun, Steps, Pack, Xor, Step, Bits;
    var t := Step(BitWord(b));
    FirstBitOfPattern(b, w);
    StepsOfZero(|w|);
    if Steps(Xor(t, Pack(w)), |w|) == 0 {
      StepsInjective(Xor(t, Pack(w)), 0, |w|);
    }
    assert BitRun(0, [b] + w) == 0 <==> Xor(t, Pack(w)) == 0;
    XorSolve(t, Pack(w), 0);
    XorUnit(t);
    assert BitRun(0, [b] + w) == 0 <==> Pack(w) == t;
    PolynomialTopSet();
    PolynomialIsGenerator();
    PackZero(w);
    assert ([b] + w)[0] == b && ([b] + w)[1..] == w;
    if b {
      PackPolynomial(w);
      assert [b] + w != Zeros(|w| + 1);
    } else {
      assert w == Zeros(|w|) <==> [b] + w == Zeros(|w| + 1);
      assert [b] + w != GENERATOR;
    }
  }

  lemma PackPolynomial(w: seq<bool>)
    requires |w| <= 32
    ensures Pack(w) == POLYNOMIAL <==> [true] + w == GENERATOR
  {
    hide Pack, Bits, Step;
    PolynomialTopSet();
    PolynomialIsGenerator();
    BitsOfPack(w, 32);
    if Pack(w) == POLYNOMIAL {
      assert (w + Zeros(32 - |w|))[31];
      assert |w| == 32;
      assert w + Zeros(0) == w;
    }
    if [true] + w == GENERATOR {
      assert w == ([true] + w)[1..] == Coefficients(POLYNOMIAL);
      CoefficientsBijective(POLYNOMIAL, w);
    }
  }

  /**
  The bound in `BurstDetected` cannot be raised: inside 33 bits the one change
  that goes unnoticed is the generator's own bit pattern.
  */
  lemma OnlyGeneratorMissed(a: seq<bv8>, b: seq<bv8>, from: nat)
    requires |a| == |b| && a != b && DifferOnlyWithin(a, b, from, 33)
    ensures Calculate(a) == Calculate(b)
       <==> from + 33 <= 8 * |a| && Difference(a, b)[from..from + 33] == GENERATOR
  {
    hide BitRun, Calculate, Difference, DifferOnlyWithin;
    var lo, hi := Window(a, b, from, 33);
    var w := Difference(a, b)[lo..hi];
    WindowDecides(a, b, lo, w, 8 * |a| - hi);
    assert |w| > 0;
    assert w == [w[0]] + w[1..];
    LongerPatternMissed(w[0], w[1..]);
  }
}
