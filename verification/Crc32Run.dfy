/**
The checksum of whole messages as a function, and the laws that hold for
messages of every length.
*/
module Crc32Run {
  import opened Crc32Register

  /** The register after a message, by the bit-serial definition. */
  function Run(s: bv32, m: seq<bv8>): bv32
    decreases |m|
  {
    if |m| == 0 then s else Run(ByteStep(s, m[0]), m[1..])
  }

  /** Final complement. */
  function Finish(s: bv32): bv32 {
    !s
  }

  function Calculate(m: seq<bv8>): bv32 {
    Finish(Run(ALL_ONES, m))
  }

  // ----------------------------------------------------------------- streaming

  lemma {:induction false} RunAppend(s: bv32, a: seq<bv8>, b: seq<bv8>)
    ensures Run(s, a + b) == Run(Run(s, a), b)
    decreases |a|
  {
    hide ByteStep;
    if |a| == 0 {
      assert a + b == b;
    } else {
      assert (a + b)[1..] == a[1..] + b;
      RunAppend(ByteStep(s, a[0]), a[1..], b);
    }
  }

  lemma RunEmpty(s: bv32)
    ensures Run(s, []) == s
  {
  }

  lemma RunSnoc(s: bv32, m: seq<bv8>, b: bv8)
    ensures Run(s, m + [b]) == ByteStep(Run(s, m), b)
  {
    hide ByteStep;
    RunAppend(s, m, [b]);
  }

  // -------------------------------------------------------------- the affine law

  function XorByte(a: bv8, b: bv8): bv8 {
    a ^ b
  }

  /** Bytewise exclusive-or of two messages of one length. */
  function XorMessages(a: seq<bv8>, b: seq<bv8>): (r: seq<bv8>)
    requires |a| == |b|
    ensures |r| == |a|
    ensures forall i :: 0 <= i < |a| ==> r[i] == XorByte(a[i], b[i])
    decreases |a|
  {
    if |a| == 0 then [] else [XorByte(a[0], b[0])] + XorMessages(a[1..], b[1..])
  }

  lemma WordXor(a: bv8, b: bv8)
    ensures Word(XorByte(a, b)) == Xor(Word(a), Word(b))
  {
  }

  lemma ByteStepXor(s: bv32, t: bv32, a: bv8, b: bv8)
    ensures ByteStep(Xor(s, t), XorByte(a, b)) == Xor(ByteStep(s, a), ByteStep(t, b))
  {
    hide Xor, Step8, Word, XorByte;
    WordXor(a, b);
    XorExchange(s, t, Word(a), Word(b));
    Step8Xor(Xor(s, Word(a)), Xor(t, Word(b)));
  }

  /** Runs are linear in start state and message together. */
  lemma {:induction false} RunXor(s: bv32, t: bv32, a: seq<bv8>, b: seq<bv8>)
    requires |a| == |b|
    ensures Run(Xor(s, t), XorMessages(a, b)) == Xor(Run(s, a), Run(t, b))
    decreases |a|
  {
    hide Xor, ByteStep, XorByte;
    if |a| != 0 {
      ByteStepXor(s, t, a[0], b[0]);
      RunXor(ByteStep(s, a[0]), ByteStep(t, b[0]), a[1..], b[1..]);
      assert XorMessages(a, b)[1..] == XorMessages(a[1..], b[1..]);
    }
  }

  lemma FinishIsXor(s: bv32)
    ensures Finish(s) == Xor(s, ALL_ONES)
  {
  }

  lemma FinishTwice(s: bv32)
    ensures Finish(Finish(s)) == s
  {
  }

  /** Two checksums differ by the zero-state run of the difference of their messages. */
  lemma CalculateDifference(a: seq<bv8>, b: seq<bv8>)
    requires |a| == |b|
    ensures Xor(Calculate(a), Calculate(b)) == Run(0, XorMessages(a, b))
  {
    hide Xor, Run, Finish, XorMessages;
    var x, y := Run(ALL_ONES, a), Run(ALL_ONES, b);
    RunXor(ALL_ONES, ALL_ONES, a, b);
    XorUnit(ALL_ONES);
    FinishIsXor(x);
    FinishIsXor(y);
    XorExchange(x, ALL_ONES, y, ALL_ONES);
    XorUnit(Xor(x, y));
  }

  lemma ThreeComplements(x: bv32, y: bv32, z: bv32)
    ensures Xor(Xor(Finish(x), Finish(y)), Finish(z)) == Finish(Xor(Xor(x, y), z))
  {
    hide Xor, Finish;
    var xy := Xor(x, y);
    FinishIsXor(x);
    FinishIsXor(y);
    FinishIsXor(z);
    FinishIsXor(Xor(xy, z));
    XorExchange(x, ALL_ONES, y, ALL_ONES);
    XorUnit(ALL_ONES);
    XorUnit(xy);
    XorAssociates(xy, z, ALL_ONES);
  }

  /** Three messages of one length: the checksum of their sum is the sum of their checksums. */
  lemma CalculateAffine(a: seq<bv8>, b: seq<bv8>, c: seq<bv8>)
    requires |a| == |b| == |c|
    ensures Xor(Xor(Calculate(a), Calculate(b)), Calculate(c)) == Calculate(XorMessages(XorMessages(a, b), c))
  {
    hide Xor, Run, XorMessages, Finish;
    var ab := XorMessages(a, b);
    RunXor(ALL_ONES, ALL_ONES, a, b);
    XorUnit(ALL_ONES);
    RunXor(0, ALL_ONES, ab, c);
    ThreeComplements(Run(ALL_ONES, a), Run(ALL_ONES, b), Run(ALL_ONES, c));
  }

  // --------------------------------------------------------- the combination law

  function ZeroBytes(n: nat): (r: seq<bv8>)
    ensures |r| == n
    decreases n
  {
    if n == 0 then [] else [0] + ZeroBytes(n - 1)
  }

  lemma ZeroByteStep(s: bv32)
    ensures ByteStep(s, 0) == Steps(s, 8)
  {
    hide Step8, Xor;
    StepsEight(s);
    XorUnit(s);
  }

  lemma {:induction false} RunZeroBytes(s: bv32, n: nat)
    ensures Run(s, ZeroBytes(n)) == Steps(s, 8 * n)
    decreases n
  {
    hide ByteStep;
    if n != 0 {
      assert ZeroBytes(n)[1..] == ZeroBytes(n - 1);
      ZeroByteStep(s);
      RunZeroBytes(Steps(s, 8), n - 1);
      StepsAdd(s, 8, 8 * (n - 1));
    }
  }

  lemma {:induction false} XorZeroBytes(m: seq<bv8>)
    ensures XorMessages(ZeroBytes(|m|), m) == m
    decreases |m|
  {
    if |m| != 0 {
      assert ZeroBytes(|m|)[1..] == ZeroBytes(|m| - 1);
      XorZeroBytes(m[1..]);
      assert XorByte(0, m[0]) == m[0];
    }
  }

  /** A run splits into what the state contributes and what the message contributes. */
  lemma RunSplit(s: bv32, m: seq<bv8>)
    ensures Run(s, m) == Xor(Steps(s, 8 * |m|), Run(0, m))
  {
    hide Xor, Run, Steps, XorMessages;
    RunXor(s, 0, ZeroBytes(|m|), m);
    XorZeroBytes(m);
    XorUnit(s);
    RunZeroBytes(s, |m|);
  }

  /** The checksum of a concatenation, from the two checksums and the second length alone. */
  lemma CalculateConcatenation(a: seq<bv8>, b: seq<bv8>)
    ensures Calculate(a + b) == Xor(Steps(Calculate(a), 8 * |b|), Calculate(b))
  {
    hide Xor, Run, Steps, Finish;
    var n := 8 * |b|;
    var x := Run(ALL_ONES, a);
    RunAppend(ALL_ONES, a, b);
    RunSplit(x, b);
    RunSplit(ALL_ONES, b);
    var u, f, r := Steps(x, n), Steps(ALL_ONES, n), Run(0, b);
    FinishIsXor(x);
    StepsXor(x, ALL_ONES, n);
    FinishIsXor(Xor(f, r));
    FinishIsXor(Xor(u, r));
    XorAssociates(f, r, ALL_ONES);
    XorAssociates(u, f, Xor(f, Xor(r, ALL_ONES)));
    XorAlgebra(f, Xor(r, ALL_ONES), 0);
    XorAssociates(u, r, ALL_ONES);
  }

  // ---------------------------------------------------------------- invertibility

  /** The state before `m`, from the state after it. */
  function RunBack(t: bv32, m: seq<bv8>): bv32
    decreases |m|
  {
    if |m| == 0 then t
    else Xor(Unstep8(RunBack(t, m[1..])), Word(m[0]))
  }

  lemma XorTwice(a: bv32, b: bv32)
    ensures Xor(Xor(a, b), b) == a
  {
    hide Xor;
    XorAssociates(a, b, b);
    XorUnit(b);
    XorUnit(a);
  }

  lemma {:induction false} RunBackUndoesRun(s: bv32, m: seq<bv8>)
    ensures RunBack(Run(s, m), m) == s
    decreases |m|
  {
    hide Xor, Step8, Unstep8, Word;
    if |m| != 0 {
      RunBackUndoesRun(ByteStep(s, m[0]), m[1..]);
      Unstep8Step8(Xor(s, Word(m[0])));
      XorTwice(s, Word(m[0]));
    }
  }

  lemma {:induction false} RunUndoesRunBack(t: bv32, m: seq<bv8>)
    ensures Run(RunBack(t, m), m) == t
    decreases |m|
  {
    hide Xor, Step8, Unstep8, Word;
    if |m| != 0 {
      var u := Unstep8(RunBack(t, m[1..]));
      XorTwice(u, Word(m[0]));
      Step8Unstep8(RunBack(t, m[1..]));
      RunUndoesRunBack(t, m[1..]);
    }
  }

  /** For one fixed message, start states and end states correspond one to one. */
  lemma RunBijective(s: bv32, t: bv32, m: seq<bv8>)
    ensures Run(s, m) == t <==> s == RunBack(t, m)
  {
    hide Run, RunBack;
    RunBackUndoesRun(s, m);
    RunUndoesRunBack(t, m);
  }

  // ------------------------------------------------------------- four-byte suffixes

  lemma ByteStepOfWord(s: bv32, w: bv32)
    ensures Step8(Xor(s, w)) == Xor(ByteStep(s, FirstByte(w)), DropByte(w))
  {
    hide Xor, Step8, Word, FirstByte, DropByte, LowByte;
    WordOfFirstByte(w);
    Step8Xor(s, w);
    Step8Split(w);
    Step8Xor(s, LowByte(w));
    XorAssociates(Step8(s), Step8(LowByte(w)), DropByte(w));
  }

  /** Feeding a word byte by byte is mixing it in whole and stepping 32 times. */
  lemma RunLittleEndian(s: bv32, w: bv32)
    ensures Run(s, LittleEndian(w)) == Step32(Xor(s, w))
  {
    hide Xor, Step8, ByteStep, FirstByte, DropByte;
    var w1 := DropByte(w);
    var w2 := DropByte(w1);
    var w3 := DropByte(w2);
    var b0, b1, b2, b3 := FirstByte(w), FirstByte(w1), FirstByte(w2), FirstByte(w3);
    var s1 := ByteStep(s, b0);
    var s2 := ByteStep(s1, b1);
    var s3 := ByteStep(s2, b2);
    var s4 := ByteStep(s3, b3);
    ByteStepOfWord(s, w);
    ByteStepOfWord(s1, w1);
    ByteStepOfWord(s2, w2);
    ByteStepOfWord(s3, w3);
    FourBytesDropped(w);
    XorUnit(s4);
    assert LittleEndian(w)[1..] == [b1, b2, b3];
    assert [b1, b2, b3][1..] == [b2, b3];
    assert [b2, b3][1..] == [b3];
    assert Run(s4, []) == s4;
    assert Run(s3, [b3]) == Run(s4, [b3][1..]);
    assert Run(s2, [b2, b3]) == Run(s3, [b2, b3][1..]);
    assert Run(s1, [b1, b2, b3]) == Run(s2, [b1, b2, b3][1..]);
  }

  lemma LittleEndianInverse(m: seq<bv8>)
    requires |m| == 4
    ensures LittleEndian(FromLittleEndian(m)) == m
  {
    hide FirstByte, DropByte, Below;
    var w3 := Below(m[3], 0);
    var w2 := Below(m[2], w3);
    var w1 := Below(m[1], w2);
    FreeTopByte(m[3], m[2]);
    FreeTopByte3(m[3], m[2], m[1]);
    BelowFirstByte(m[0], w1);
    BelowFirstByte(m[1], w2);
    BelowFirstByte(m[2], w3);
    BelowFirstByte(m[3], 0);
    BelowDropped(m[0], w1);
    BelowDropped(m[1], w2);
    BelowDropped(m[2], w3);
  }

  lemma XorSolve(a: bv32, b: bv32, c: bv32)
    ensures Xor(a, b) == c <==> b == Xor(a, c)
  {
    hide Xor;
    XorAlgebra(a, b, 0);
    XorAlgebra(a, c, 0);
  }

  /** From any state exactly one four-byte suffix reaches any chosen state. */
  lemma UniqueSuffix(s: bv32, target: bv32, m: seq<bv8>)
    requires |m| == 4
    ensures Run(s, m) == target <==> m == LittleEndian(Xor(s, Unstep32(target)))
  {
    hide Xor, Run, Step32, Unstep32, LittleEndian, FromLittleEndian;
    var w, goal := FromLittleEndian(m), Xor(s, Unstep32(target));
    LittleEndianInverse(m);
    RunLittleEndian(s, w);
    RunLittleEndian(s, goal);
    Step32Bijective(Xor(s, w), target);
    Step32Bijective(Xor(s, goal), target);
    XorSolve(s, w, Unstep32(target));
    XorSolve(s, goal, Unstep32(target));
  }

  // ---------------------------------------------------------------------- residue

  const RESIDUE: bv32 := 0xDEBB20E3
  const FINISHED_RESIDUE: bv32 := 0x2144DF1C

  lemma ResidueIsOnesStepped()
    ensures Step32(ALL_ONES) == RESIDUE
    ensures Finish(RESIDUE) == FINISHED_RESIDUE
  {
    assert Step8(ALL_ONES) == 0x2DFD1072;
    assert Step8(0x2DFD1072) == 0xBE26ED00;
    assert Step8(0xBE26ED00) == 0x00BE26ED;
    assert Step8(0x00BE26ED) == RESIDUE;
  }

  /**
  A four-byte trailer leaves the residue exactly when it is the little-endian
  checksum of the state it follows, whatever that state is.
  */
  lemma ResidueExactly(s: bv32, trailer: seq<bv8>)
    requires |trailer| == 4
    ensures Run(s, trailer) == RESIDUE <==> trailer == LittleEndian(Finish(s))
  {
    hide Run, LittleEndian, Step32, Unstep32, Finish, Xor;
    UniqueSuffix(s, RESIDUE, trailer);
    ResidueIsOnesStepped();
    Step32Bijective(ALL_ONES, RESIDUE);
    FinishIsXor(s);
  }

  /** A message followed by four bytes passes the receiver's constant test iff they are its checksum. */
  lemma TrailerAccepted(m: seq<bv8>, trailer: seq<bv8>)
    requires |trailer| == 4
    ensures Calculate(m + trailer) == FINISHED_RESIDUE <==> trailer == LittleEndian(Calculate(m))
  {
    hide Run, LittleEndian, Finish;
    var s := Run(ALL_ONES, m);
    RunAppend(ALL_ONES, m, trailer);
    ResidueExactly(s, trailer);
    ResidueIsOnesStepped();
    FinishTwice(Run(s, trailer));
    FinishTwice(RESIDUE);
  }

  // ------------------------------------------------- the byte-table form of RFC 1952

  /** The inner loop of `make_crc_table` in section 8 of RFC 1952. */
  function MakeTableEntry(c: bv32, k: nat): bv32
    decreases k
  {
    if k == 0 then c
    else MakeTableEntry(if c & 1 == 1 then 0xedb88320 ^ (c >> 1) else c >> 1, k - 1)
  }

  /** The loop of `update_crc` in section 8 of RFC 1952, over a 256-entry table. */
  function UpdateByTable(c: bv32, m: seq<bv8>): bv32
    decreases |m|
  {
    if |m| == 0 then c
    else UpdateByTable(Xor(MakeTableEntry(Word(MixByte(c, m[0])), 8), DropByte(c)), m[1..])
  }

  lemma {:induction false} TableEntryIsSteps(c: bv32, k: nat)
    ensures MakeTableEntry(c, k) == Steps(c, k)
    decreases k
  {
    if k != 0 {
      TableEntryIsSteps(Step(c), k - 1);
    }
  }

  lemma MixByteMeaning(c: bv32, b: bv8)
    ensures LowByte(Xor(c, Word(b))) == Word(MixByte(c, b))
    ensures DropByte(Xor(c, Word(b))) == DropByte(c)
  {
  }

  lemma {:induction false} RunIsUpdateByTable(s: bv32, m: seq<bv8>)
    ensures Run(s, m) == UpdateByTable(s, m)
    decreases |m|
  {
    hide Xor, Step8, Word, MixByte, DropByte, LowByte, MakeTableEntry;
    if |m| != 0 {
      MixByteMeaning(s, m[0]);
      Step8Split(Xor(s, Word(m[0])));
      TableEntryIsSteps(Word(MixByte(s, m[0])), 8);
      StepsEight(Word(MixByte(s, m[0])));
      RunIsUpdateByTable(ByteStep(s, m[0]), m[1..]);
    }
  }
}
