/** The functions of SHA-256 bit by bit, the byte order of its words, and the published example. */
module Sha256Laws {
  import opened Suffix
  import opened Bytes
  import opened Sha256
  import opened Sha256Stream

  /** Bit i of a word; none from 32 on. */
  function Bit(x: Word, i: bv32): Word { if i < 32 then (x >> i) & 1 else 0 }

  /** i + n around the word. */
  function Turned(i: bv32, n: bv32): bv32 { (i + n) % 32 }

  /** One for an odd number of ones. */
  function Parity(a: Word, b: Word, c: Word): Word { a ^ b ^ c }


  lemma RightBits(x: Word, n: bv32, i: bv32)
    requires n < 32 && i < 32
    ensures Bit(Shr(x, n), i) == Bit(x, i + n)
  {
  }

  lemma LeftBits(x: Word, n: bv32, i: bv32)
    requires n < 32 && i < 32
    ensures Bit(x << n, i) == if n <= i then Bit(x, i - n) else 0
  {
  }

  lemma OrBits(x: Word, y: Word, i: bv32)
    requires i < 32
    ensures Bit(x | y, i) == Bit(x, i) | Bit(y, i)
  {
  }

  /** A rotation to the right by n moves bit i + n, around the word, to bit i. */
  lemma RotationBits(x: Word, n: bv32, i: bv32)
    requires 0 < n < 32 && i < 32
    ensures Bit(Rotr(x, n), i) == Bit(x, Turned(i, n))
  {
    OrBits(x >> n, x << (32 - n), i);
    RightBits(x, n, i);
    LeftBits(x, 32 - n, i);
    Around(n, i);
    NothingBehind(x, i + n);
    assert Rotr(x, n) == (x >> n) | (x << (32 - n));
    hide Bit, Rotr;
  }

  lemma Around(n: bv32, i: bv32)
    requires 0 < n < 32 && i < 32
    ensures Turned(i, n) == (if i + n < 32 then i + n else i + n - 32) && (32 - n <= i <==> i + n >= 32) && i - (32 - n) == i + n - 32
  {
  }

  lemma NothingBehind(x: Word, i: bv32)
    ensures i >= 32 ==> Bit(x, i) == 0
  {
  }

  lemma XorBits(x: Word, y: Word, z: Word, i: bv32)
    requires i < 32
    ensures Bit(Xor3(x, y, z), i) == Parity(Bit(x, i), Bit(y, i), Bit(z, i))
  {
    Xor2Bits(x, y, i);
    Xor2Bits(x ^ y, z, i);
    assert Xor3(x, y, z) == x ^ y ^ z;
    hide Bit, Xor3;
  }

  lemma Xor2Bits(x: Word, y: Word, i: bv32)
    requires i < 32
    ensures Bit(x ^ y, i) == Bit(x, i) ^ Bit(y, i)
  {
  }

  /** The functions of section 4.1.2: each bit is the parity of three bits of the word; a shift brings in zeros. */
  lemma SmallSigma0Bits(x: Word, i: bv32)
    requires i < 32
    ensures Bit(SmallSigma0(x), i) == Parity(Bit(x, Turned(i, 7)), Bit(x, Turned(i, 18)), Bit(x, i + 3))
  {
    assert SmallSigma0(x) == Xor3(Rotr(x, 7), Rotr(x, 18), Shr(x, 3)) by { hide Rotr, Shr, Xor3; }
    hide SmallSigma0, Bit, Rotr, Turned, Parity, Xor3, Shr;
    RotationBits(x, 7, i);
    RotationBits(x, 18, i);
    RightBits(x, 3, i);
    XorBits(Rotr(x, 7), Rotr(x, 18), Shr(x, 3), i);
  }

  lemma SmallSigma1Bits(x: Word, i: bv32)
    requires i < 32
    ensures Bit(SmallSigma1(x), i) == Parity(Bit(x, Turned(i, 17)), Bit(x, Turned(i, 19)), Bit(x, i + 10))
  {
    assert SmallSigma1(x) == Xor3(Rotr(x, 17), Rotr(x, 19), Shr(x, 10)) by { hide Rotr, Shr, Xor3; }
    hide SmallSigma1, Bit, Rotr, Turned, Parity, Xor3, Shr;
    RotationBits(x, 17, i);
    RotationBits(x, 19, i);
    RightBits(x, 10, i);
    XorBits(Rotr(x, 17), Rotr(x, 19), Shr(x, 10), i);
  }

  lemma BigSigma0Bits(x: Word, i: bv32)
    requires i < 32
    ensures Bit(BigSigma0(x), i) == Parity(Bit(x, Turned(i, 2)), Bit(x, Turned(i, 13)), Bit(x, Turned(i, 22)))
  {
    assert BigSigma0(x) == Xor3(Rotr(x, 2), Rotr(x, 13), Rotr(x, 22)) by { hide Rotr, Shr, Xor3; }
    hide BigSigma0, Bit, Rotr, Turned, Parity, Xor3, Shr;
    RotationBits(x, 2, i);
    RotationBits(x, 13, i);
    RotationBits(x, 22, i);
    XorBits(Rotr(x, 2), Rotr(x, 13), Rotr(x, 22), i);
  }

  lemma BigSigma1Bits(x: Word, i: bv32)
    requires i < 32
    ensures Bit(BigSigma1(x), i) == Parity(Bit(x, Turned(i, 6)), Bit(x, Turned(i, 11)), Bit(x, Turned(i, 25)))
  {
    assert BigSigma1(x) == Xor3(Rotr(x, 6), Rotr(x, 11), Rotr(x, 25)) by { hide Rotr, Shr, Xor3; }
    hide BigSigma1, Bit, Rotr, Turned, Parity, Xor3, Shr;
    RotationBits(x, 6, i);
    RotationBits(x, 11, i);
    RotationBits(x, 25, i);
    XorBits(Rotr(x, 6), Rotr(x, 11), Rotr(x, 25), i);
  }

  /** Ch takes each bit from y where x has a one, and from z elsewhere. */
  lemma ChooseBits(x: Word, y: Word, z: Word, i: bv32)
    requires i < 32
    ensures Bit(Ch(x, y, z), i) == if Bit(x, i) == 1 then Bit(y, i) else Bit(z, i)
  {
  }

  /** Maj is each bit's majority. */
  lemma MajorityBits(x: Word, y: Word, z: Word, i: bv32)
    requires i < 32
    ensures Bit(Maj(x, y, z), i) == if Bit(x, i) == Bit(y, i) then Bit(x, i) else Bit(z, i)
  {
  }

  // ---------- byte order ----------

  /** Words are read most significant byte first. */
  lemma WordIsBigEndian(block: seq<Byte>, i: nat)
    requires 4 * i + 4 <= |block|
    ensures BigEndian(block[4 * i..4 * i + 4]) < TWO32
    ensures WordAt(block, i) == BigEndian(block[4 * i..4 * i + 4]) as bv32
  {
    var s := block[4 * i..4 * i + 4];
    BigFour(s);
    BigEndianBelow(s);
    PowValues();
  }

  lemma Word32IsBigEndian(n: nat)
    requires n < TWO32
    ensures BigEndian(Word32(n)) == n
  {
    BigFour(Word32(n));
  }

  /** The length field is the number of bits, most significant byte first, section 5.1.1 of FIPS 180-4. */
  lemma LengthIsBigEndian(n: nat)
    ensures BigEndian(LengthBytes(n)) == 8 * n % TWO64
  {
    hide Word32;
    var bits := 8 * n % TWO64;
    Word32IsBigEndian(bits / TWO32);
    Word32IsBigEndian(bits % TWO32);
    BigEndianConcat(Word32(bits / TWO32), Word32(bits % TWO32));
    PowValues();
  }

  /** The padded message: the message, a one bit, zeros, and the length in the last eight bytes. */
  lemma PaddedMessage(m: seq<Byte>)
    ensures var p := Pad(m);
            && |p| >= |m| + 9 && p[..|m|] == m && p[|m|] == 128 && (forall i :: |m| < i < |p| - 8 ==> p[i] == 0)
            && BigEndian(p[|p| - 8..]) == 8 * |m| % TWO64 && |p| % 64 == 0 && |p| < |m| + 73
  {
    LengthIsBigEndian(|m|);
    hide LengthBytes;
    assert Pad(m)[|Pad(m)| - 8..] == LengthBytes(|m|);
  }

  /** The word of four bytes, the first one highest. */
  function Packed(b0: bv8, b1: bv8, b2: bv8, b3: bv8): Word {
    ((b0 as bv32) << 24) | ((b1 as bv32) << 16) | ((b2 as bv32) << 8) | (b3 as bv32)
  }

  /** A word is written most significant byte first. */
  lemma WordBytesOf(b0: bv8, b1: bv8, b2: bv8, b3: bv8)
    ensures WordBytes(Packed(b0, b1, b2, b3)) == [b0 as int, b1 as int, b2 as int, b3 as int]
  {
    PackedParts(b0, b1, b2, b3);
    hide Packed;
  }

  lemma PackedParts(b0: bv8, b1: bv8, b2: bv8, b3: bv8)
    ensures var w := Packed(b0, b1, b2, b3);
            && (w >> 24) as bv8 == b0 && ((w >> 16) & 0xFF) as bv8 == b1 && ((w >> 8) & 0xFF) as bv8 == b2 && (w & 0xFF) as bv8 == b3
  {
  }

  /** Every word has such bytes. */
  lemma EveryWord(w: Word)
    ensures w == Packed((w >> 24) as bv8, ((w >> 16) & 0xFF) as bv8, ((w >> 8) & 0xFF) as bv8, (w & 0xFF) as bv8)
  {
  }
}
