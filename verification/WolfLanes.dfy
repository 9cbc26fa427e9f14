/** The 16 byte operations of the branch stage, and the 16-bit-lane forms that compute two bytes at a
    time. A vector register is 16 lanes; each lane operation below is one of the vector operations seen
    on one lane, and the lemmas say that neither byte of a lane disturbs the other. */
module WolfLanes {

  // ---------- scalar ----------

  function Rl8(x: bv8, d: bv8): bv8 {
    var k := d & 7;
    if k == 0 then x else (x << k) | (x >> (8 - k))
  }

  function Reverse8(b: bv8): bv8 {
    var b1 := ((b & 0xF0) >> 4) | ((b & 0x0F) << 4);
    var b2 := ((b1 & 0xCC) >> 2) | ((b1 & 0x33) << 2);
    ((b2 & 0xAA) >> 1) | ((b2 & 0x55) << 1)
  }

  /** The number of set bits. */
  function Popcount(b: bv8): bv8 {
    (b & 1) + ((b >> 1) & 1) + ((b >> 2) & 1) + ((b >> 3) & 1) + ((b >> 4) & 1) + ((b >> 5) & 1) + ((b >> 6) & 1) + (b >> 7)
  }

  function Double(v: bv8): bv8 { v + v }
  function MinusXor97(v: bv8): bv8 { v - (v ^ 97) }
  function Square(v: bv8): bv8 { v * v }
  function Xor(v: bv8, p: bv8): bv8 { v ^ p }
  function Not(v: bv8): bv8 { !v }
  function And(v: bv8, p: bv8): bv8 { v & p }
  function ShiftLeftLow(v: bv8): bv8 { v << (v & 3) }
  function ShiftRightLow(v: bv8): bv8 { v >> (v & 3) }
  function XorPopcount(v: bv8): bv8 { v ^ Popcount(v) }
  function XorRl8(v: bv8, r: bv8): bv8 { v ^ Rl8(v, r) }

  /** One micro-operation; codes above 15 do nothing. */
  function MicroOp(insn: bv8, val: bv8, pos2val: bv8): bv8 {
    if insn == 0 then Double(val)
    else if insn == 1 then MinusXor97(val)
    else if insn == 2 then Square(val)
    else if insn == 3 then Xor(val, pos2val)
    else if insn == 4 then Not(val)
    else if insn == 5 then And(val, pos2val)
    else if insn == 6 then ShiftLeftLow(val)
    else if insn == 7 then ShiftRightLow(val)
    else if insn == 8 then Reverse8(val)
    else if insn == 9 then XorPopcount(val)
    else if insn == 10 then Rl8(val, val)
    else if insn == 11 then Rl8(val, 1)
    else if insn == 12 then XorRl8(val, 2)
    else if insn == 13 then Rl8(val, 3)
    else if insn == 14 then XorRl8(val, 4)
    else if insn == 15 then Rl8(val, 5)
    else val
  }

  // ---------- lanes ----------

  function Lo(x: bv16): bv8 { (x & 0xFF) as bv8 }

  function Hi(x: bv16): bv8 { (x >> 8) as bv8 }

  function Pair(lo: bv8, hi: bv8): (x: bv16)
    ensures Lo(x) == lo && Hi(x) == hi
  {
    ((hi as bv16) << 8) | (lo as bv16)
  }

  function AddEpi8(x: bv16, y: bv16): bv16 { Pair(Lo(x) + Lo(y), Hi(x) + Hi(y)) }

  function SubEpi8(x: bv16, y: bv16): bv16 { Pair(Lo(x) - Lo(y), Hi(x) - Hi(y)) }

  function MinEpu8(x: bv16, m: bv8): bv16 {
    Pair(if Lo(x) < m then Lo(x) else m, if Hi(x) < m then Hi(x) else m)
  }

  function Blend(a: bv16, b: bv16): bv16 { (a & 0x00FF) | (b & 0xFF00) }

  function MulEpi8(x: bv16, y: bv16): bv16 {
    var pHi := (((x & 0xFF00) >> 8) * ((y & 0xFF00) >> 8)) << 8;
    var pLo := (x & 0x00FF) * (y & 0x00FF);
    (pHi & 0xFF00) | (pLo & 0x00FF)
  }

  /** 2^i for i below 8, otherwise 0. */
  function LeftMultiplier(i: bv8): bv8 { if i < 8 then 1 << i else 0 }

  /** 2^(7-i) for i below 8, otherwise 0. */
  function RightMultiplier(i: bv8): bv8 { if i < 8 then 0x80 >> i else 0 }

  function SllvEpi8(a: bv16, count: bv16): bv16 {
    var c := MinEpu8(count, 8);
    var multiplier := Pair(LeftMultiplier(Lo(c)), LeftMultiplier(Hi(c)));
    Blend(a * multiplier, (a & 0xFF00) * (multiplier >> 8))
  }

  function SrlvEpi8(a: bv16, count: bv16): bv16 {
    var c := MinEpu8(count, 8);
    var multiplier := Pair(RightMultiplier(Lo(c)), RightMultiplier(Hi(c)));
    var xLo := ((a & 0x00FF) * (multiplier & 0x00FF)) >> 7;
    var xHi := MulHigh(a, multiplier & 0xFF00) << 1;
    Blend(xLo, xHi)
  }

  /** High half of the 32-bit product. */
  function MulHigh(a: bv16, b: bv16): bv16 {
    (((a as bv32) * (b as bv32)) >> 16) as bv16
  }

  function RolvEpi8(x: bv16, y: bv16): bv16 {
    var yMod := y & 0x0707;
    SllvEpi8(x, yMod) | SrlvEpi8(x, SubEpi8(0x0808, yMod))
  }

  function RolEpi8(x: bv16, r: bv16): bv16
    requires r <= 8
  {
    var a, b := x & 0x00FF, x & 0xFF00;
    (((a << r) | (a >> (8 - r))) & 0x00FF) | (((b << r) | (b >> (8 - r))) & 0xFF00)
  }

  function ReverseEpi8(v: bv16): bv16 {
    var v1 := ((v & 0xF0F0) >> 4) | ((v & 0x0F0F) << 4);
    var v2 := ((v1 & 0xCCCC) >> 2) | ((v1 & 0x3333) << 2);
    ((v2 & 0xAAAA) >> 1) | ((v2 & 0x5555) << 1)
  }

  /** Set bits of a nibble, by table. */
  function NibbleCount(n: bv8): bv8 {
    if n == 0 then 0
    else if n == 1 || n == 2 || n == 4 || n == 8 then 1
    else if n == 7 || n == 11 || n == 13 || n == 14 then 3
    else if n == 15 then 4
    else 2
  }

  function PopcntEpi8(v: bv16): bv16 {
    var low, high := v & 0x0F0F, (v >> 4) & 0x0F0F;
    AddEpi8(Pair(NibbleCount(Lo(low)), NibbleCount(Hi(low))), Pair(NibbleCount(Lo(high)), NibbleCount(Hi(high))))
  }

  function DoubleEpi8(x: bv16): bv16 { AddEpi8(x, x) }
  function MinusXor97Epi8(x: bv16): bv16 { SubEpi8(x, x ^ 0x6161) }
  function SquareEpi8(x: bv16): bv16 { MulEpi8(x, x) }
  function XorEpi8(x: bv16, p: bv16): bv16 { x ^ p }
  function NotEpi8(x: bv16): bv16 { x ^ 0xFFFF }
  function AndEpi8(x: bv16, p: bv16): bv16 { x & p }
  function ShiftLeftLowEpi8(x: bv16): bv16 { SllvEpi8(x, x & 0x0303) }
  function ShiftRightLowEpi8(x: bv16): bv16 { SrlvEpi8(x, x & 0x0303) }
  function XorPopcntEpi8(x: bv16): bv16 { x ^ PopcntEpi8(x) }
  function XorRolEpi8(x: bv16, r: bv16): bv16 requires r <= 8 { x ^ RolEpi8(x, r) }

  function LaneOp(insn: bv8, data: bv16, pos2vec: bv16): bv16 {
    if insn == 0 then DoubleEpi8(data)
    else if insn == 1 then MinusXor97Epi8(data)
    else if insn == 2 then SquareEpi8(data)
    else if insn == 3 then XorEpi8(data, pos2vec)
    else if insn == 4 then NotEpi8(data)
    else if insn == 5 then AndEpi8(data, pos2vec)
    else if insn == 6 then ShiftLeftLowEpi8(data)
    else if insn == 7 then ShiftRightLowEpi8(data)
    else if insn == 8 then ReverseEpi8(data)
    else if insn == 9 then XorPopcntEpi8(data)
    else if insn == 10 then RolvEpi8(data, data)
    else if insn == 11 then RolEpi8(data, 1)
    else if insn == 12 then XorRolEpi8(data, 2)
    else if insn == 13 then RolEpi8(data, 3)
    else if insn == 14 then XorRolEpi8(data, 4)
    else if insn == 15 then RolEpi8(data, 5)
    else data
  }

  // ---------- lanes compute bytes ----------

  /** The bytes of lane y are lo and hi. */
  ghost predicate Bytes(y: bv16, lo: bv8, hi: bv8) {
    Lo(y) == lo && Hi(y) == hi
  }

  /** Reversing twice is the identity, and reversal moves bit i to bit 7 - i. */
  lemma ReverseMovesBits(b: bv8, i: bv8)
    requires i < 8
    ensures Reverse8(Reverse8(b)) == b && (Reverse8(b) >> i) & 1 == (b >> (7 - i)) & 1
  {
  }

  lemma ArithmeticBytes(x: bv16)
    ensures Bytes(DoubleEpi8(x), Double(Lo(x)), Double(Hi(x)))
    ensures Bytes(MinusXor97Epi8(x), MinusXor97(Lo(x)), MinusXor97(Hi(x)))
    ensures Bytes(NotEpi8(x), Not(Lo(x)), Not(Hi(x)))
  {
  }

  lemma SquareBytes(x: bv16)
    ensures Bytes(SquareEpi8(x), Square(Lo(x)), Square(Hi(x)))
  {
  }

  lemma XorBytes(x: bv16, p: bv8)
    ensures Bytes(XorEpi8(x, Pair(p, p)), Xor(Lo(x), p), Xor(Hi(x), p))
  {
  }

  lemma AndBytes(x: bv16, p: bv8)
    ensures Bytes(AndEpi8(x, Pair(p, p)), And(Lo(x), p), And(Hi(x), p))
  {
  }

  lemma ShiftLeftBytes(x: bv16)
    ensures Bytes(ShiftLeftLowEpi8(x), ShiftLeftLow(Lo(x)), ShiftLeftLow(Hi(x)))
  {
  }

  lemma ShiftRightBytes(x: bv16)
    ensures Bytes(ShiftRightLowEpi8(x), ShiftRightLow(Lo(x)), ShiftRightLow(Hi(x)))
  {
  }

  lemma ReverseBytes(x: bv16)
    ensures Bytes(ReverseEpi8(x), Reverse8(Lo(x)), Reverse8(Hi(x)))
  {
  }

  lemma PopcountBytes(x: bv16)
    ensures Bytes(PopcntEpi8(x), Popcount(Lo(x)), Popcount(Hi(x)))
  {
  }

  lemma XorPopcountBytes(x: bv16)
    ensures Bytes(XorPopcntEpi8(x), XorPopcount(Lo(x)), XorPopcount(Hi(x)))
  {
    PopcountBytes(x);
    hide PopcntEpi8, Popcount;
  }

  lemma RotateLow(x: bv16)
    ensures Lo(RolvEpi8(x, x)) == Rl8(Lo(x), Lo(x))
  {
  }

  lemma RotateHigh(x: bv16)
    ensures Hi(RolvEpi8(x, x)) == Rl8(Hi(x), Hi(x))
  {
  }

  lemma Rotate1Bytes(x: bv16)
    ensures Bytes(RolEpi8(x, 1), Rl8(Lo(x), 1), Rl8(Hi(x), 1))
  {
  }

  lemma Rotate3Bytes(x: bv16)
    ensures Bytes(RolEpi8(x, 3), Rl8(Lo(x), 3), Rl8(Hi(x), 3))
  {
  }

  lemma Rotate5Bytes(x: bv16)
    ensures Bytes(RolEpi8(x, 5), Rl8(Lo(x), 5), Rl8(Hi(x), 5))
  {
  }

  lemma XorRotate2Bytes(x: bv16)
    ensures Bytes(XorRolEpi8(x, 2), XorRl8(Lo(x), 2), XorRl8(Hi(x), 2))
  {
  }

  lemma XorRotate4Bytes(x: bv16)
    ensures Bytes(XorRolEpi8(x, 4), XorRl8(Lo(x), 4), XorRl8(Hi(x), 4))
  {
  }

  /** Every micro-operation acts on the two bytes of a lane independently. */
  lemma LaneOpBytes(insn: bv8, data: bv16, p: bv8)
    ensures Lo(LaneOp(insn, data, Pair(p, p))) == MicroOp(insn, Lo(data), p)
    ensures Hi(LaneOp(insn, data, Pair(p, p))) == MicroOp(insn, Hi(data), p)
  {
    ArithmeticBytes(data);
    SquareBytes(data);
    XorBytes(data, p);
    AndBytes(data, p);
    ShiftLeftBytes(data);
    ShiftRightBytes(data);
    ReverseBytes(data);
    XorPopcountBytes(data);
    RotateLow(data);
    RotateHigh(data);
    Rotate1Bytes(data);
    Rotate3Bytes(data);
    Rotate5Bytes(data);
    XorRotate2Bytes(data);
    XorRotate4Bytes(data);
    hide Lo, Hi, Pair, DoubleEpi8, MinusXor97Epi8, SquareEpi8, XorEpi8, NotEpi8, AndEpi8, ShiftLeftLowEpi8, ShiftRightLowEpi8;
    hide ReverseEpi8, XorPopcntEpi8, RolvEpi8, RolEpi8, XorRolEpi8, Double, MinusXor97, Square, Xor, Not, And;
    hide ShiftLeftLow, ShiftRightLow, Reverse8, XorPopcount, Rl8, XorRl8;
  }
}
