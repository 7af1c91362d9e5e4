/**
Registers, bytes and messages as lists of bits, lowest bit first, and the
checksum run bit by bit.
*/
module Crc32Bits {
  import opened BitPolynomials
  import opened Crc32Register
  import opened Crc32Run

  // ------------------------------------------------------- registers as bit lists

  /** The low `n` bits of a register, lowest first. */
  function Bits(s: bv32, n: nat): (r: seq<bool>)
    ensures |r| == n
    decreases n
  {
    if n == 0 then [] else [Odd(s)] + Bits(Half(s), n - 1)
  }

  /** The register as a polynomial of degree below 32: bit 0 is the coefficient of x^31. */
  function Coefficients(s: bv32): (r: seq<bool>)
    ensures |r| == 32
  {
    Bits(s, 32)
  }

  function BitWord(b: bool): bv32 {
    if b then 1 else 0
  }

  function Double(s: bv32): bv32 {
    s << 1
  }

  /** A register with bit 0 `b` and the bits of `s` above it. */
  function Join(b: bool, s: bv32): bv32 {
    Xor(BitWord(b), Double(s))
  }

  /** The register whose low bits are `w`, lowest first. */
  function Pack(w: seq<bool>): bv32
    decreases |w|
  {
    if |w| == 0 then 0 else Join(w[0], Pack(w[1..]))
  }

  function Halves(s: bv32, n: nat): bv32
    decreases n
  {
    if n == 0 then s else Halves(Half(s), n - 1)
  }

  predicate TopClear(s: bv32) {
    s & 0x80000000 == 0
  }

  lemma BitWordParts(b: bool)
    ensures Odd(BitWord(b)) == b
    ensures Half(BitWord(b)) == 0
  {
  }

  lemma DoubleParts(s: bv32)
    ensures !Odd(Double(s))
    ensures TopClear(s) ==> Half(Double(s)) == s
  {
  }

  lemma EvenParts(s: bv32)
    requires !Odd(s)
    ensures Double(Half(s)) == s
  {
  }

  lemma OddParts(s: bv32)
    requires Odd(s)
    ensures Xor(1, Double(Half(s))) == s
  {
  }

  lemma JoinParts(b: bool, s: bv32)
    ensures Odd(Join(b, s)) == b
    ensures TopClear(s) ==> Half(Join(b, s)) == s
  {
    hide Odd, Half, Double, Xor, TopClear;
    BitWordParts(b);
    DoubleParts(s);
    OddXor(BitWord(b), Double(s));
    HalfXor(BitWord(b), Double(s));
    XorUnit(s);
  }

  lemma JoinOddHalf(s: bv32)
    ensures Join(Odd(s), Half(s)) == s
  {
    hide Odd, Half, Double, Xor;
    if Odd(s) {
      OddParts(s);
    } else {
      EvenParts(s);
      XorUnit(s);
    }
  }

  lemma StepOfDouble(s: bv32)
    requires TopClear(s)
    ensures Step(Double(s)) == s
  {
    hide Half, Double, Odd, Xor, TopClear, Step;
    DoubleParts(s);
    StepForm(Double(s));
  }

  lemma {:induction false} HalvesAdd(s: bv32, m: nat, n: nat)
    ensures Halves(s, m + n) == Halves(Halves(s, m), n)
    decreases m
  {
    hide Half;
    if m != 0 {
      HalvesAdd(Half(s), m - 1, n);
    }
  }

  lemma {:induction false} HalvesOfZero(n: nat)
    ensures Halves(0, n) == 0
    decreases n
  {
    if n != 0 {
      HalvesOfZero(n - 1);
    }
  }

  lemma FourHalves(s: bv32)
    ensures Halves(s, 4) == DropNibble(s)
  {
    hide Half, Quarter, DropNibble;
    HalfHalf(s);
    HalfHalf(Quarter(s));
    QuarterQuarter(s);
  }

  lemma EightHalves(s: bv32)
    ensures Halves(s, 8) == DropByte(s)
  {
    hide Half, Halves, DropNibble, DropByte;
    FourHalves(s);
    FourHalves(DropNibble(s));
    DropTwoNibbles(s);
    HalvesAdd(s, 4, 4);
  }

  lemma ThreeByteHalves(s: bv32)
    ensures Halves(s, 24) == DropByte(DropByte(DropByte(s)))
  {
    hide Half, Halves, DropByte;
    HalvesAdd(s, 8, 16);
    HalvesAdd(DropByte(s), 8, 8);
    EightHalves(s);
    EightHalves(DropByte(s));
    EightHalves(DropByte(DropByte(s)));
  }

  lemma AllHalves(s: bv32)
    ensures Halves(s, 32) == 0
  {
    hide Half, Halves, DropByte;
    HalvesAdd(s, 24, 8);
    ThreeByteHalves(s);
    EightHalves(DropByte(DropByte(DropByte(s))));
    FourBytesDropped(s);
  }

  function Eighth(s: bv32): bv32 {
    s >> 3
  }

  lemma ThreeHalves(s: bv32)
    ensures Halves(s, 3) == Eighth(s)
  {
    hide Half, Quarter, Eighth;
    HalfHalf(s);
    HalfQuarter(s);
  }

  lemma HalfQuarter(s: bv32)
    ensures Half(Half(Half(s))) == Eighth(s)
  {
  }

  lemma TopBit(s: bv32, t: bv32)
    requires t == DropByte(DropByte(DropByte(s)))
    requires Eighth(DropNibble(t)) == 0
    ensures TopClear(s)
  {
  }

  /** A register whose bits above position 30 are all gone has a clear top bit. */
  lemma FewBitsTopClear(s: bv32, n: nat)
    requires n <= 31 && Halves(s, n) == 0
    ensures TopClear(s)
  {
    hide Half, Halves, DropByte, DropNibble, Eighth, TopClear;
    HalvesAdd(s, n, 31 - n);
    HalvesOfZero(31 - n);
    HalvesAdd(s, 24, 7);
    ThreeByteHalves(s);
    var t := Halves(s, 24);
    HalvesAdd(t, 4, 3);
    FourHalves(t);
    ThreeHalves(DropNibble(t));
    TopBit(s, t);
  }

  // ----------------------------------------------------------- bits and registers

  lemma {:induction false} BitsXor(a: bv32, b: bv32, n: nat)
    ensures Bits(Xor(a, b), n) == Add(Bits(a, n), Bits(b, n))
    decreases n
  {
    hide Xor, Odd, Half;
    if n != 0 {
      OddXor(a, b);
      HalfXor(a, b);
      BitsXor(Half(a), Half(b), n - 1);
    }
  }

  lemma {:induction false} BitsSnoc(s: bv32, n: nat)
    ensures Bits(s, n + 1) == Bits(s, n) + [Odd(Halves(s, n))]
    decreases n
  {
    hide Odd, Half;
    if n != 0 {
      BitsSnoc(Half(s), n - 1);
    }
  }

  lemma CoefficientsOfHalf(s: bv32)
    ensures Coefficients(Half(s)) == Coefficients(s)[1..] + [false]
  {
    hide Odd, Half, Halves;
    BitsSnoc(s, 32);
    AllHalves(s);
    assert !Odd(0) by { ZeroIsEven(); }
    assert Bits(s, 33) == [Odd(s)] + Bits(Half(s), 32);
    assert Bits(s, 33)[1..] == Coefficients(s)[1..] + [false];
  }

  lemma ZeroIsEven()
    ensures !Odd(0) && Half(0) == 0
  {
  }

  lemma {:induction false} BitsOfZero(n: nat)
    ensures Bits(0, n) == Zeros(n)
    decreases n
  {
    if n != 0 {
      BitsOfZero(n - 1);
      ZeroIsEven();
      assert Bits(0, n) == [false] + Bits(0, n - 1);
    }
  }

  lemma {:induction false} PackBits(s: bv32, n: nat)
    requires Halves(s, n) == 0
    ensures Pack(Bits(s, n)) == s
    decreases n
  {
    hide Odd, Half, Join;
    if n != 0 {
      PackBits(Half(s), n - 1);
      JoinOddHalf(s);
      var w := Bits(s, n);
      assert w[0] == Odd(s) && w[1..] == Bits(Half(s), n - 1);
      assert Pack(w) == Join(w[0], Pack(w[1..]));
    }
  }

  lemma {:induction false} PackFits(w: seq<bool>)
    requires |w| <= 32
    ensures Halves(Pack(w), |w|) == 0
    decreases |w|
  {
    hide Half, Join, TopClear;
    if |w| != 0 {
      PackFits(w[1..]);
      FewBitsTopClear(Pack(w[1..]), |w| - 1);
      JoinParts(w[0], Pack(w[1..]));
    }
  }

  lemma PackTopClear(w: seq<bool>)
    requires |w| <= 31
    ensures TopClear(Pack(w))
  {
    hide TopClear, Pack, Halves;
    PackFits(w);
    FewBitsTopClear(Pack(w), |w|);
  }

  lemma {:induction false} BitsOfPack(w: seq<bool>, n: nat)
    requires |w| <= n <= 32
    ensures Bits(Pack(w), n) == w + Zeros(n - |w|)
    decreases |w|
  {
    hide Half, Odd, Join, TopClear;
    if |w| == 0 {
      BitsOfZero(n);
      assert w + Zeros(n) == Zeros(n);
    } else {
      PackTopClear(w[1..]);
      JoinParts(w[0], Pack(w[1..]));
      BitsOfPack(w[1..], n - 1);
      assert w + Zeros(n - |w|) == [w[0]] + (w[1..] + Zeros(n - |w|));
    }
  }

  /** Registers and lists of 32 coefficients correspond one to one. */
  lemma CoefficientsBijective(s: bv32, r: seq<bool>)
    requires |r| == 32
    ensures Coefficients(s) == r <==> s == Pack(r)
  {
    hide Bits, Pack, Halves;
    AllHalves(s);
    PackBits(s, 32);
    BitsOfPack(r, 32);
    assert r + Zeros(0) == r;
  }

  // ------------------------------------------------------------------- bitwise runs

  /** The textbook serial circuit: each input bit is mixed in at x^31. */
  function BitRun(s: bv32, w: seq<bool>): bv32
    decreases |w|
  {
    if |w| == 0 then s else BitRun(Step(Xor(s, BitWord(w[0]))), w[1..])
  }

  lemma {:induction false} BitRunAppend(s: bv32, v: seq<bool>, w: seq<bool>)
    ensures BitRun(s, v + w) == BitRun(BitRun(s, v), w)
    decreases |v|
  {
    hide Step, Xor, BitWord;
    if |v| == 0 {
      assert v + w == w;
    } else {
      assert (v + w)[1..] == v[1..] + w;
      BitRunAppend(Step(Xor(s, BitWord(v[0]))), v[1..], w);
    }
  }

  lemma {:induction false} BitRunZeros(s: bv32, n: nat)
    ensures BitRun(s, Zeros(n)) == Steps(s, n)
    decreases n
  {
    hide Step, Xor;
    if n != 0 {
      XorUnit(s);
      assert Zeros(n)[1..] == Zeros(n - 1);
      BitRunZeros(Step(s), n - 1);
    }
  }

  /** Up to 32 input bits may be mixed in all at once before stepping. */
  lemma {:induction false} BitRunPacked(s: bv32, w: seq<bool>)
    requires |w| <= 32
    ensures BitRun(s, w) == Steps(Xor(s, Pack(w)), |w|)
    decreases |w|
  {
    hide Step, Xor, BitWord, Double, TopClear;
    if |w| == 0 {
      XorUnit(s);
    } else {
      var p, b := Pack(w[1..]), BitWord(w[0]);
      PackTopClear(w[1..]);
      StepOfDouble(p);
      XorAssociates(s, b, Double(p));
      StepXor(Xor(s, b), Double(p));
      BitRunPacked(Step(Xor(s, b)), w[1..]);
    }
  }

  function ByteBits(b: bv8): (r: seq<bool>)
    ensures |r| == 8
  {
    Bits(Word(b), 8)
  }

  /** A message in transmission order: bytes in order, each lowest bit first. */
  function MessageBits(m: seq<bv8>): (r: seq<bool>)
    ensures |r| == 8 * |m|
    decreases |m|
  {
    if |m| == 0 then [] else ByteBits(m[0]) + MessageBits(m[1..])
  }

  lemma WordIsOneByte(b: bv8)
    ensures DropByte(Word(b)) == 0
  {
  }

  lemma ByteStepIsBitRun(s: bv32, b: bv8)
    ensures ByteStep(s, b) == BitRun(s, ByteBits(b))
  {
    hide Step8, Xor, Word, DropByte, Bits, Pack, BitRun, Steps, Halves;
    WordIsOneByte(b);
    EightHalves(Word(b));
    PackBits(Word(b), 8);
    BitRunPacked(s, ByteBits(b));
    StepsEight(Xor(s, Word(b)));
  }

  lemma {:induction false} RunIsBitRun(s: bv32, m: seq<bv8>)
    ensures Run(s, m) == BitRun(s, MessageBits(m))
    decreases |m|
  {
    hide ByteStep, ByteBits, BitRun;
    if |m| == 0 {
      EmptyBitRun(s);
    } else {
      ByteStepIsBitRun(s, m[0]);
      BitRunAppend(s, ByteBits(m[0]), MessageBits(m[1..]));
      RunIsBitRun(ByteStep(s, m[0]), m[1..]);
    }
  }

  lemma EmptyBitRun(s: bv32)
    ensures BitRun(s, []) == s
  {
  }

  lemma {:induction false} MessageBitsXor(a: seq<bv8>, b: seq<bv8>)
    requires |a| == |b|
    ensures MessageBits(XorMessages(a, b)) == Add(MessageBits(a), MessageBits(b))
    decreases |a|
  {
    hide Word, Xor, Bits, XorByte;
    if |a| != 0 {
      WordXor(a[0], b[0]);
      BitsXor(Word(a[0]), Word(b[0]), 8);
      MessageBitsXor(a[1..], b[1..]);
      assert XorMessages(a, b)[1..] == XorMessages(a[1..], b[1..]);
    }
  }

  lemma {:induction false} MessageBitsInjective(a: seq<bv8>, b: seq<bv8>)
    requires |a| == |b| && MessageBits(a) == MessageBits(b)
    ensures a == b
    decreases |a|
  {
    hide Word, Bits, Pack, Halves, DropByte;
    if |a| != 0 {
      assert ByteBits(a[0]) == MessageBits(a)[..8] == MessageBits(b)[..8] == ByteBits(b[0]);
      assert MessageBits(a[1..]) == MessageBits(a)[8..] == MessageBits(b)[8..] == MessageBits(b[1..]);
      MessageBitsInjective(a[1..], b[1..]);
      WordIsOneByte(a[0]);
      WordIsOneByte(b[0]);
      EightHalves(Word(a[0]));
      EightHalves(Word(b[0]));
      PackBits(Word(a[0]), 8);
      PackBits(Word(b[0]), 8);
      WordInjective(a[0], b[0]);
      assert a == [a[0]] + a[1..];
    }
  }

  lemma WordInjective(a: bv8, b: bv8)
    requires Word(a) == Word(b)
    ensures a == b
  {
  }
}
