/**
The 32-bit shift register behind the checksum, one bit, one nibble and one byte
at a time, and the two facts every later proof stands on: a step is linear over
exclusive-or and can be undone.
*/
module Crc32Register {

  /** The IEEE 802.3 generator without its leading term, reflected: bit 0 is x^31. */
  const POLYNOMIAL: bv32 := 0xEDB88320

  const ALL_ONES: bv32 := 0xFFFFFFFF

  /** The sixteen words of the nibble table. */
  const NIBBLE_TABLE: seq<bv32> := [
    0x00000000, 0x1db71064, 0x3b6e20c8, 0x26d930ac,
    0x76dc4190, 0x6b6b51f4, 0x4db26158, 0x5005713c,
    0xedb88320, 0xf00f9344, 0xd6d6a3e8, 0xcb61b38c,
    0x9b64c2b0, 0x86d3d2d4, 0xa00ae278, 0xbdbdf21c
  ]

  /** One zero input bit: shift towards x^31 and reduce when a term falls off. */
  function Step(s: bv32): bv32 {
    if s & 1 == 1 then (s >> 1) ^ POLYNOMIAL else s >> 1
  }

  function Step4(s: bv32): bv32 {
    Step(Step(Step(Step(s))))
  }

  function Step8(s: bv32): bv32 {
    Step4(Step4(s))
  }

  function Step32(s: bv32): bv32 {
    Step8(Step8(Step8(Step8(s))))
  }

  /** `n` zero input bits. */
  function Steps(s: bv32, n: nat): bv32
    decreases n
  {
    if n == 0 then s else Steps(Step(s), n - 1)
  }

  /** Undoes `Step`; the top bit of the polynomial tells which branch was taken. */
  function Unstep(t: bv32): bv32 {
    if t & 0x80000000 == 0x80000000 then ((t ^ POLYNOMIAL) << 1) | 1 else t << 1
  }

  function Unstep8(t: bv32): bv32 {
    Unstep(Unstep(Unstep(Unstep(Unstep(Unstep(Unstep(Unstep(t))))))))
  }

  function Unstep32(t: bv32): bv32 {
    Unstep8(Unstep8(Unstep8(Unstep8(t))))
  }

  /** Exclusive-or under a name, so that proofs about whole runs can hide the bits. */
  function Xor(a: bv32, b: bv32): bv32 {
    a ^ b
  }

  function Word(b: bv8): bv32 {
    b as bv32
  }

  /** One input byte, by eight serial bit steps. */
  function ByteStep(s: bv32, b: bv8): bv32 {
    Step8(Xor(s, Word(b)))
  }

  // ------------------------------------------------------------ exclusive-or

  lemma XorUnit(a: bv32)
    ensures Xor(a, 0) == a
    ensures Xor(0, a) == a
    ensures Xor(a, a) == 0
  {
  }

  lemma XorCommutes(a: bv32, b: bv32)
    ensures Xor(a, b) == Xor(b, a)
  {
  }

  lemma BitwiseAssociates(a: bv32, b: bv32, c: bv32, ab: bv32, bc: bv32)
    requires ab == a ^ b && bc == b ^ c
    ensures ab ^ c == a ^ bc
  {
  }

  lemma NameXor(a: bv32, b: bv32, ab: bv32)
    requires ab == a ^ b
    ensures Xor(a, b) == ab
  {
  }

  lemma XorAssociates(a: bv32, b: bv32, c: bv32)
    ensures Xor(Xor(a, b), c) == Xor(a, Xor(b, c))
  {
    hide Xor;
    var ab :| ab == a ^ b;
    var bc :| bc == b ^ c;
    var abc :| abc == ab ^ c;
    BitwiseAssociates(a, b, c, ab, bc);
    NameXor(a, b, ab);
    NameXor(b, c, bc);
    NameXor(ab, c, abc);
    NameXor(a, bc, abc);
  }

  lemma XorAlgebra(a: bv32, b: bv32, c: bv32)
    ensures Xor(a, b) == Xor(b, a)
    ensures Xor(Xor(a, b), c) == Xor(a, Xor(b, c))
    ensures Xor(a, Xor(a, b)) == b
    ensures Xor(a, 0) == a
    ensures Xor(a, a) == 0
  {
    hide Xor;
    XorUnit(a);
    XorUnit(b);
    XorCommutes(a, b);
    XorAssociates(a, b, c);
    XorAssociates(a, a, b);
  }

  lemma XorExchange(a: bv32, b: bv32, c: bv32, d: bv32)
    ensures Xor(Xor(a, b), Xor(c, d)) == Xor(Xor(a, c), Xor(b, d))
  {
    hide Xor;
    XorAlgebra(a, b, Xor(c, d));
    XorAlgebra(b, c, d);
    XorAlgebra(c, b, d);
    XorAlgebra(a, c, Xor(b, d));
  }

  // --------------------------------------------------------------- linearity

  function Half(s: bv32): bv32 {
    s >> 1
  }

  predicate Odd(s: bv32) {
    s & 1 == 1
  }

  lemma StepForm(s: bv32)
    ensures Step(s) == if Odd(s) then Xor(Half(s), POLYNOMIAL) else Half(s)
  {
  }

  lemma HalfXor(a: bv32, b: bv32)
    ensures Half(Xor(a, b)) == Xor(Half(a), Half(b))
  {
  }

  lemma OddXor(a: bv32, b: bv32)
    ensures Odd(Xor(a, b)) <==> Odd(a) != Odd(b)
  {
  }

  lemma StepXor(a: bv32, b: bv32)
    ensures Step(Xor(a, b)) == Xor(Step(a), Step(b))
  {
    hide Step, Xor, Half, Odd;
    StepForm(a);
    StepForm(b);
    StepForm(Xor(a, b));
    HalfXor(a, b);
    OddXor(a, b);
    XorExchange(Half(a), POLYNOMIAL, Half(b), POLYNOMIAL);
    XorUnit(POLYNOMIAL);
    XorUnit(Xor(Half(a), Half(b)));
    XorAssociates(Half(a), Half(b), POLYNOMIAL);
    XorAssociates(Half(a), POLYNOMIAL, Half(b));
    XorCommutes(POLYNOMIAL, Half(b));
  }

  lemma {:induction false} StepsXor(a: bv32, b: bv32, n: nat)
    ensures Steps(Xor(a, b), n) == Xor(Steps(a, n), Steps(b, n))
    decreases n
  {
    hide Step, Xor;
    if n != 0 {
      StepXor(a, b);
      StepsXor(Step(a), Step(b), n - 1);
    }
  }

  lemma {:induction false} StepsAdd(s: bv32, m: nat, n: nat)
    ensures Steps(s, m + n) == Steps(Steps(s, m), n)
    decreases m
  {
    hide Step;
    if m != 0 {
      StepsAdd(Step(s), m - 1, n);
    }
  }

  lemma StepsEight(s: bv32)
    ensures Steps(s, 8) == Step8(s)
  {
    hide Step;
  }

  lemma Step8Xor(a: bv32, b: bv32)
    ensures Step8(Xor(a, b)) == Xor(Step8(a), Step8(b))
  {
    hide *;
    StepsXor(a, b, 8);
    StepsEight(a);
    StepsEight(b);
    StepsEight(Xor(a, b));
  }

  lemma {:induction false} StepsOfZero(n: nat)
    ensures Steps(0, n) == 0
    decreases n
  {
    if n != 0 {
      StepsOfZero(n - 1);
    }
  }

  // ----------------------------------------------------------- invertibility

  lemma UnstepStep(s: bv32)
    ensures Unstep(Step(s)) == s
  {
  }

  lemma UnstepReduced(t: bv32, s: bv32)
    requires t & 0x80000000 == 0x80000000 && s == ((t ^ POLYNOMIAL) << 1) | 1
    ensures s & 1 == 1 && (s >> 1) ^ POLYNOMIAL == t
  {
  }

  lemma UnstepPlain(t: bv32, s: bv32)
    requires t & 0x80000000 != 0x80000000 && s == t << 1
    ensures s & 1 == 0 && s >> 1 == t
  {
  }

  lemma StepUnstep(t: bv32)
    ensures Step(Unstep(t)) == t
  {
    if t & 0x80000000 == 0x80000000 {
      var s :| s == ((t ^ POLYNOMIAL) << 1) | 1;
      UnstepReduced(t, s);
      assert Unstep(t) == s;
      assert Step(s) == t;
    } else {
      var s :| s == t << 1;
      UnstepPlain(t, s);
      assert Unstep(t) == s;
      assert Step(s) == t;
    }
  }

  lemma Unstep8Step8(s: bv32)
    ensures Unstep8(Step8(s)) == s
  {
    hide Step, Unstep;
    var s1 := Step(s);
    var s2 := Step(s1);
    var s3 := Step(s2);
    var s4 := Step(s3);
    var s5 := Step(s4);
    var s6 := Step(s5);
    var s7 := Step(s6);
    UnstepStep(s); UnstepStep(s1); UnstepStep(s2); UnstepStep(s3);
    UnstepStep(s4); UnstepStep(s5); UnstepStep(s6); UnstepStep(s7);
  }

  lemma Step8Unstep8(t: bv32)
    ensures Step8(Unstep8(t)) == t
  {
    hide Step, Unstep;
    var t1 := Unstep(t);
    var t2 := Unstep(t1);
    var t3 := Unstep(t2);
    var t4 := Unstep(t3);
    var t5 := Unstep(t4);
    var t6 := Unstep(t5);
    var t7 := Unstep(t6);
    StepUnstep(t); StepUnstep(t1); StepUnstep(t2); StepUnstep(t3);
    StepUnstep(t4); StepUnstep(t5); StepUnstep(t6); StepUnstep(t7);
  }

  lemma Step32Bijective(s: bv32, t: bv32)
    ensures Step32(s) == t <==> s == Unstep32(t)
  {
    hide Step8, Unstep8;
    Unstep8Step8(s);
    Unstep8Step8(Step8(s));
    Unstep8Step8(Step8(Step8(s)));
    Unstep8Step8(Step8(Step8(Step8(s))));
    Step8Unstep8(t);
    Step8Unstep8(Unstep8(t));
    Step8Unstep8(Unstep8(Unstep8(t)));
    Step8Unstep8(Unstep8(Unstep8(Unstep8(t))));
  }

  lemma {:induction false} StepsInjective(a: bv32, b: bv32, n: nat)
    requires Steps(a, n) == Steps(b, n)
    ensures a == b
    decreases n
  {
    hide Step, Unstep;
    if n != 0 {
      StepsInjective(Step(a), Step(b), n - 1);
      UnstepStep(a);
      UnstepStep(b);
    }
  }

  // ------------------------------------------------ the nibble and byte tables

  /** Every table word is its own index pushed through four zero bits. */
  lemma TableIsFourSteps(i: bv8)
    requires i <= 15
    ensures NIBBLE_TABLE[i as int] == Step4(Word(i))
  {
    if i == 0 {} else if i == 1 {} else if i == 2 {} else if i == 3 {}
    else if i == 4 {} else if i == 5 {} else if i == 6 {} else if i == 7 {}
    else if i == 8 {} else if i == 9 {} else if i == 10 {} else if i == 11 {}
    else if i == 12 {} else if i == 13 {} else if i == 14 {} else {
      assert i == 15;
    }
  }

  function LowNibble(s: bv32): bv32 {
    s & 0xf
  }

  function DropNibble(s: bv32): bv32 {
    s >> 4
  }

  function LowByte(s: bv32): bv32 {
    s & 0xff
  }

  function HighBytes(s: bv32): bv32 {
    s & 0xffffff00
  }

  function DropByte(s: bv32): bv32 {
    s >> 8
  }

  function Quarter(s: bv32): bv32 {
    s >> 2
  }

  function HighPart(s: bv32): bv32 {
    s & 0xfffffff0
  }

  lemma HalfHalf(s: bv32)
    ensures Half(Half(s)) == Quarter(s)
  {
  }

  lemma QuarterQuarter(s: bv32)
    ensures Quarter(Quarter(s)) == DropNibble(s)
  {
  }

  lemma SplitLowNibble(s: bv32)
    ensures s == Xor(LowNibble(s), HighPart(s))
  {
  }

  lemma LowNibbleOfHighPart(s: bv32)
    ensures LowNibble(HighPart(s)) == 0
  {
  }

  lemma DropNibbleOfHighPart(s: bv32)
    ensures DropNibble(HighPart(s)) == DropNibble(s)
  {
  }

  lemma EmptyNibbleIsEven(s: bv32)
    requires LowNibble(s) == 0
    ensures !Odd(s)
    ensures !Odd(Half(s))
  {
  }

  lemma EmptyNibbleUpperBits(s: bv32)
    requires LowNibble(s) == 0
    ensures !Odd(Quarter(s))
    ensures !Odd(Half(Quarter(s)))
  {
  }

  /** Without low bits to fall off, four steps only move the rest. */
  lemma Step4OfEmptyNibble(s: bv32)
    requires LowNibble(s) == 0
    ensures Step4(s) == DropNibble(s)
  {
    hide Step, Odd, Half, Quarter, LowNibble, DropNibble, Xor;
    var q := Quarter(s);
    EmptyNibbleIsEven(s);
    EmptyNibbleUpperBits(s);
    StepForm(s);
    StepForm(Half(s));
    HalfHalf(s);
    StepForm(q);
    StepForm(Half(q));
    HalfHalf(q);
    QuarterQuarter(s);
  }

  /** Four steps split into the nibble that falls off and the part that only moves. */
  lemma Step4Split(s: bv32)
    ensures Step4(s) == Xor(Step4(LowNibble(s)), DropNibble(s))
  {
    hide Step4, Xor, LowNibble, DropNibble, HighPart;
    SplitLowNibble(s);
    Step4Xor(LowNibble(s), HighPart(s));
    LowNibbleOfHighPart(s);
    DropNibbleOfHighPart(s);
    Step4OfEmptyNibble(HighPart(s));
  }

  lemma SplitLowByte(s: bv32)
    ensures s == Xor(LowByte(s), HighBytes(s))
  {
  }

  lemma LowByteOfHighBytes(s: bv32)
    ensures LowByte(HighBytes(s)) == 0
  {
  }

  lemma DropByteOfHighBytes(s: bv32)
    ensures DropByte(HighBytes(s)) == DropByte(s)
  {
  }

  lemma DropTwoNibbles(s: bv32)
    ensures DropNibble(DropNibble(s)) == DropByte(s)
  {
  }

  lemma EmptyLowByte(s: bv32)
    requires LowByte(s) == 0
    ensures LowNibble(s) == 0
    ensures LowNibble(DropNibble(s)) == 0
  {
  }

  lemma Step8Split(s: bv32)
    ensures Step8(s) == Xor(Step8(LowByte(s)), DropByte(s))
  {
    hide Step4, Xor, LowNibble, DropNibble, LowByte, HighBytes, DropByte;
    SplitLowByte(s);
    Step8Xor(LowByte(s), HighBytes(s));
    LowByteOfHighBytes(s);
    DropByteOfHighBytes(s);
    EmptyLowByte(HighBytes(s));
    DropTwoNibbles(HighBytes(s));
    Step4Split(HighBytes(s));
    Step4Split(DropNibble(HighBytes(s)));
    Step4OfZero();
    XorUnit(DropNibble(HighBytes(s)));
    XorUnit(DropByte(s));
  }

  lemma Step4OfZero()
    ensures Step4(0) == 0
  {
  }

  lemma Step4Xor(a: bv32, b: bv32)
    ensures Step4(Xor(a, b)) == Xor(Step4(a), Step4(b))
  {
    hide Step, Xor;
    StepsXor(a, b, 4);
  }

  /** State and data mixed, then cut to eight bits. */
  function MixByte(s: bv32, d: bv8): bv8 {
    ((s ^ (d as bv32)) & 0xff) as bv8
  }

  function LowDigit(d: bv8): bv8 {
    d & 0x0f
  }

  function NibbleIndex(s: bv32, d: bv8): bv8 {
    LowDigit(MixByte(s, d))
  }

  function HighDigit(d: bv8): bv8 {
    d >> 4
  }

  lemma NibbleIndexBound(s: bv32, d: bv8)
    ensures NibbleIndex(s, d) <= 15
  {
  }

  lemma NibbleIndexMeaning(s: bv32, d: bv8)
    ensures LowNibble(Xor(s, Word(LowDigit(d)))) == Word(NibbleIndex(s, d))
    ensures DropNibble(Xor(s, Word(LowDigit(d)))) == DropNibble(s)
  {
  }

  /** One table lookup of the source equals four serial bit steps. */
  lemma LookupIsFourSteps(s: bv32, d: bv8)
    ensures NibbleIndex(s, d) <= 15
    ensures Xor(NIBBLE_TABLE[NibbleIndex(s, d) as int], DropNibble(s)) == Step4(Xor(s, Word(LowDigit(d))))
  {
    hide Step4, Xor, LowNibble, DropNibble, NibbleIndex, LowDigit, Word;
    NibbleIndexBound(s, d);
    NibbleIndexMeaning(s, d);
    Step4Split(Xor(s, Word(LowDigit(d))));
    TableIsFourSteps(NibbleIndex(s, d));
  }

  function Raise(d: bv8): bv32 {
    (d as bv32) << 4
  }

  lemma ByteIsTwoDigits(d: bv8)
    ensures Word(d) == Xor(Word(LowDigit(d)), Raise(HighDigit(d)))
  {
  }

  lemma RaisedDigit(d: bv8)
    requires d <= 15
    ensures LowNibble(Raise(d)) == 0
    ensures DropNibble(Raise(d)) == Word(d)
  {
  }

  lemma HighDigitBound(d: bv8)
    ensures HighDigit(d) <= 15
    ensures LowDigit(HighDigit(d)) == HighDigit(d)
  {
  }

  /** Low nibble first, then high nibble, is the whole byte. */
  lemma TwoNibblesAreOneByte(s: bv32, d: bv8)
    ensures Step4(Xor(Step4(Xor(s, Word(LowDigit(d)))), Word(HighDigit(d)))) == ByteStep(s, d)
  {
    hide Step4, Xor, LowNibble, DropNibble, LowDigit, HighDigit, Word, Raise;
    var lo, hi := Word(LowDigit(d)), Raise(HighDigit(d));
    HighDigitBound(d);
    RaisedDigit(HighDigit(d));
    ByteIsTwoDigits(d);
    XorAssociates(s, lo, hi);
    Step4Xor(Xor(s, lo), hi);
    Step4Split(hi);
    Step4OfZero();
    XorUnit(Word(HighDigit(d)));
  }

  // ---------------------------------------------------------- whole 32-bit words

  function FirstByte(w: bv32): bv8 {
    (w & 0xff) as bv8
  }

  /** The four bytes of a word, least significant first. */
  function LittleEndian(w: bv32): seq<bv8> {
    [FirstByte(w), FirstByte(DropByte(w)), FirstByte(DropByte(DropByte(w))), FirstByte(DropByte(DropByte(DropByte(w))))]
  }

  /** Puts one more byte below a word whose top byte is free. */
  function Below(b: bv8, w: bv32): bv32 {
    (b as bv32) | (w << 8)
  }

  function FromLittleEndian(m: seq<bv8>): bv32
    requires |m| == 4
  {
    Below(m[0], Below(m[1], Below(m[2], Below(m[3], 0))))
  }

  lemma WordOfFirstByte(w: bv32)
    ensures Word(FirstByte(w)) == LowByte(w)
  {
  }

  lemma BelowFirstByte(b: bv8, w: bv32)
    ensures FirstByte(Below(b, w)) == b
  {
  }

  lemma BelowDropped(b: bv8, w: bv32)
    requires w & 0xff000000 == 0
    ensures DropByte(Below(b, w)) == w
  {
  }

  lemma FreeTopByte(a: bv8, b: bv8)
    ensures Below(a, 0) & 0xff000000 == 0
    ensures Below(b, Below(a, 0)) & 0xff000000 == 0
  {
  }

  lemma FreeTopByte3(a: bv8, b: bv8, c: bv8)
    ensures Below(c, Below(b, Below(a, 0))) & 0xff000000 == 0
  {
  }

  lemma FourBytesDropped(w: bv32)
    ensures DropByte(DropByte(DropByte(DropByte(w)))) == 0
  {
  }
}
