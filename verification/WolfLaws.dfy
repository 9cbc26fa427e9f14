/** What the 16 byte operations compute, bit by bit and as numbers, and in which order an opcode applies them. */
module WolfLaws {
  import opened WolfLanes
  import opened WolfDispatch

  /** Bit i of a byte. */
  function Bit(v: bv8, i: bv8): bv8
    requires i < 8
  {
    (v >> i) & 1
  }

  // ---------- bits ----------

  /** Codes 11, 13 and 15 move bit i to bit i + 1, i + 3 and i + 5 around the byte. */
  lemma RotationCodes(v: bv8, p: bv8, i: bv8)
    requires i < 8
    ensures Bit(MicroOp(11, v, p), (i + 1) % 8) == Bit(v, i)
    ensures Bit(MicroOp(13, v, p), (i + 3) % 8) == Bit(v, i)
    ensures Bit(MicroOp(15, v, p), (i + 5) % 8) == Bit(v, i)
  {
  }

  /** Codes 12 and 14 combine the byte with itself rotated by 2 and 4. */
  lemma XorRotationCodes(v: bv8, p: bv8, i: bv8)
    requires i < 8
    ensures Bit(MicroOp(12, v, p), (i + 2) % 8) == Bit(v, (i + 2) % 8) ^ Bit(v, i)
    ensures Bit(MicroOp(14, v, p), (i + 4) % 8) == Bit(v, (i + 4) % 8) ^ Bit(v, i)
  {
  }

  /** Code 10 rotates the byte by its own low three bits. */
  lemma OwnRotationCode(v: bv8, p: bv8, i: bv8)
    requires i < 8
    ensures Bit(MicroOp(10, v, p), (i + v % 8) % 8) == Bit(v, i)
  {
  }

  lemma NamedCodes(v: bv8, p: bv8)
    ensures MicroOp(0, v, p) == Double(v) && MicroOp(2, v, p) == Square(v)
    ensures MicroOp(3, v, p) == Xor(v, p) && MicroOp(4, v, p) == Not(v) && MicroOp(5, v, p) == And(v, p)
    ensures MicroOp(6, v, p) == ShiftLeftLow(v) && MicroOp(7, v, p) == ShiftRightLow(v)
  {
    hide Double, Square, Xor, Not, And, ShiftLeftLow, ShiftRightLow;
  }

  lemma XorBits(v: bv8, p: bv8, i: bv8)
    requires i < 8
    ensures Bit(Xor(v, p), i) == Bit(v, i) ^ Bit(p, i)
  {
  }

  lemma NotBits(v: bv8, i: bv8)
    requires i < 8
    ensures Bit(Not(v), i) == 1 - Bit(v, i)
  {
  }

  lemma AndBits(v: bv8, p: bv8, i: bv8)
    requires i < 8
    ensures Bit(And(v, p), i) == if Bit(v, i) == 1 && Bit(p, i) == 1 then 1 else 0
  {
  }

  /** Codes 3, 4 and 5 are exclusive or, complement and conjunction of bits. */
  lemma BitwiseCodes(v: bv8, p: bv8, i: bv8)
    requires i < 8
    ensures Bit(MicroOp(3, v, p), i) == Bit(v, i) ^ Bit(p, i)
    ensures Bit(MicroOp(4, v, p), i) == 1 - Bit(v, i)
    ensures Bit(MicroOp(5, v, p), i) == if Bit(v, i) == 1 && Bit(p, i) == 1 then 1 else 0
  {
    hide MicroOp, Bit, Xor, Not, And;
    NamedCodes(v, p);
    XorBits(v, p, i);
    NotBits(v, i);
    AndBits(v, p, i);
  }

  /** Code 8 moves bit i to bit 7 - i. */
  lemma ReverseCode(v: bv8, p: bv8, i: bv8)
    requires i < 8
    ensures Bit(MicroOp(8, v, p), i) == Bit(v, 7 - i)
  {
    ReverseMovesBits(v, i);
    hide Reverse8;
  }

  /** Code 1 takes away the byte with its bits 0, 5 and 6 flipped. */
  lemma FlipCode(v: bv8, p: bv8, i: bv8)
    requires i < 8
    ensures Bit(v - MicroOp(1, v, p), i) == if i == 0 || i == 5 || i == 6 then 1 - Bit(v, i) else Bit(v, i)
  {
  }

  // ---------- numbers ----------

  /** The number of ones. */
  function Ones(v: bv8): bv8
    decreases v
  {
    if v == 0 then 0 else v % 2 + Ones(v / 2)
  }

  lemma OnesOfBits(v: bv8)
    ensures Ones(v) == Bit(v, 0) + Bit(v, 1) + Bit(v, 2) + Bit(v, 3) + Bit(v, 4) + Bit(v, 5) + Bit(v, 6) + Bit(v, 7)
  {
  }

  lemma CountCode(v: bv8, p: bv8)
    ensures MicroOp(9, v, p) ^ v == Ones(v)
  {
    OnesOfBits(v);
    hide Ones;
  }

  /** 2 to the power of k, for k below 4, as a 16-bit number. */
  function PowerOfTwo(k: bv8): bv16 { if k == 0 then 1 else if k == 1 then 2 else if k == 2 then 4 else 8 }

  /** Codes 0 and 2 are twice the byte and its square, modulo 256; in 16 bits neither product wraps. */
  lemma ProductCodes(v: bv8, p: bv8)
    ensures MicroOp(0, v, p) as bv16 == 2 * (v as bv16) % 256
    ensures MicroOp(2, v, p) as bv16 == (v as bv16) * (v as bv16) % 256
  {
    hide MicroOp, Double, Square;
    NamedCodes(v, p);
    DoubleNumber(v);
    SquareNumber(v);
  }

  lemma DoubleNumber(v: bv8)
    ensures Double(v) as bv16 == 2 * (v as bv16) % 256
  {
  }

  lemma SquareNumber(v: bv8)
    ensures Square(v) as bv16 == (v as bv16) * (v as bv16) % 256
  {
  }

  /** Codes 6 and 7 multiply and divide by 2 to the power of the low two bits. */
  lemma ShiftCodes(v: bv8, p: bv8)
    ensures MicroOp(6, v, p) as bv16 == (v as bv16) * PowerOfTwo(v % 4) % 256
    ensures MicroOp(7, v, p) as bv16 == (v as bv16) / PowerOfTwo(v % 4)
  {
    hide MicroOp, ShiftLeftLow, ShiftRightLow, PowerOfTwo;
    NamedCodes(v, p);
    ShiftNumbers(v);
  }

  lemma ShiftNumbers(v: bv8)
    ensures ShiftLeftLow(v) as bv16 == (v as bv16) * PowerOfTwo(v % 4) % 256
    ensures ShiftRightLow(v) as bv16 == (v as bv16) / PowerOfTwo(v % 4)
  {
  }

  /** There are no codes behind 15. */
  lemma OtherCodes(code: bv8, v: bv8, p: bv8)
    requires code > 15
    ensures MicroOp(code, v, p) == v
  {
  }

  // ---------- opcodes ----------

  /** The opcode of four codes, the first one in the highest byte. */
  function Opcode(first: bv8, second: bv8, third: bv8, fourth: bv8): bv32 {
    ((first as bv32) << 24) | ((second as bv32) << 16) | ((third as bv32) << 8) | (fourth as bv32)
  }

  lemma CodesOf(c3: bv8, c2: bv8, c1: bv8, c0: bv8)
    ensures Insn(Opcode(c3, c2, c1, c0), 3) == c3 && Insn(Opcode(c3, c2, c1, c0), 2) == c2
    ensures Insn(Opcode(c3, c2, c1, c0), 1) == c1 && Insn(Opcode(c3, c2, c1, c0), 0) == c0
  {
  }

  /** The highest byte's code runs first, and each code on the result of the one before. */
  lemma CodeOrder(c3: bv8, c2: bv8, c1: bv8, c0: bv8, v: bv8, p: bv8)
    ensures WolfBranch(v, p, Opcode(c3, c2, c1, c0)) == MicroOp(c0, MicroOp(c1, MicroOp(c2, MicroOp(c3, v, p), p), p), p)
  {
    CodesOf(c3, c2, c1, c0);
    hide MicroOp, Insn, Opcode;
    var f := Opcode(c3, c2, c1, c0);
    assert BranchFrom(v, p, f, 4) == BranchFrom(MicroOp(c3, v, p), p, f, 3);
    assert BranchFrom(MicroOp(c3, v, p), p, f, 3) == BranchFrom(MicroOp(c2, MicroOp(c3, v, p), p), p, f, 2);
  }
}
