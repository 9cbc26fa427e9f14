/** Padding and digest of section 5.1.1 and 6.2 of FIPS 180-4, and the streaming context that computes
    them over any split of the message. */
module Sha256Stream {
  import opened Suffix
  import opened Bytes
  import opened Sha256
  import opened Sha256Block

  const BLOCK: nat := 64

  /** Round constants and initial state. */
  datatype Sha = Sha(K: seq<Word>, h0: State)

  function WordAt(block: seq<Byte>, i: nat): Word
    requires 4 * i + 4 <= |block|
  {
    var b0: int, b1: int, b2: int, b3: int := block[4 * i], block[4 * i + 1], block[4 * i + 2], block[4 * i + 3];
    (b0 * 0x100_0000 + b1 * 0x1_0000 + b2 * 0x100 + b3) as bv32
  }

  function Words(block: seq<Byte>): (m: seq<Word>)
    requires |block| == BLOCK
    ensures |m| == 16
  {
    seq(16, (i: nat) requires i < 16 => WordAt(block, i))
  }

  /** State after the whole blocks of data. */
  function Fold(P: Sha, s: State, data: seq<Byte>): State
    requires |P.K| == 64 && |data| % BLOCK == 0
    decreases |data|
  {
    if data == [] then s else Fold(P, Compress(P.K, s, Words(data[..BLOCK])), data[BLOCK..])
  }

  lemma {:induction false} FoldConcat(P: Sha, s: State, a: seq<Byte>, b: seq<Byte>)
    requires |P.K| == 64 && |a| % BLOCK == 0 && |b| % BLOCK == 0
    ensures Fold(P, s, a + b) == Fold(P, Fold(P, s, a), b)
    decreases |a|
  {
    hide Compress, Words;
    if a == [] {
      assert a + b == b;
    } else {
      assert (a + b)[..BLOCK] == a[..BLOCK] && (a + b)[BLOCK..] == a[BLOCK..] + b;
      FoldConcat(P, Compress(P.K, s, Words(a[..BLOCK])), a[BLOCK..], b);
    }
  }

  lemma FoldOne(P: Sha, s: State, a: seq<Byte>, block: seq<Byte>)
    requires |P.K| == 64 && |a| % BLOCK == 0 && |block| == BLOCK
    ensures Fold(P, s, a + block) == Compress(P.K, Fold(P, s, a), Words(block))
  {
    hide Compress, Words;
    FoldConcat(P, s, a, block);
    assert block[..BLOCK] == block && block[BLOCK..] == [];
  }

  // ---------- padding ----------

  function Zeros(n: nat): (z: seq<Byte>)
    ensures |z| == n
  {
    seq(n, _ => 0)
  }

  /** Four bytes of a 32-bit number, most significant first. */
  function Word32(n: nat): (s: seq<Byte>)
    requires n < TWO32
    ensures |s| == 4
  {
    [n / 0x100_0000, n / 0x1_0000 % 256, n / 0x100 % 256, n % 256]
  }

  /** The bit length as a 64-bit number. */
  function LengthBytes(bytes: nat): (s: seq<Byte>)
    ensures |s| == 8
  {
    var bits := 8 * bytes % TWO64;
    Word32(bits / TWO32) + Word32(bits % TWO32)
  }

  function ZeroCount(n: nat): nat { (119 - n % BLOCK) % BLOCK }

  /** The least number of zero bytes that leaves room for exactly the length. */
  lemma ZeroCountLeast(n: nat, k: nat)
    ensures (n + 1 + ZeroCount(n)) % BLOCK == 56
    ensures (n + 1 + k) % BLOCK == 56 ==> ZeroCount(n) <= k
  {
  }

  function Padding(n: nat): (p: seq<Byte>)
    ensures |p| == 9 + ZeroCount(n) && (n + |p|) % BLOCK == 0
  {
    PaddingFits(n, ZeroCount(n));
    [0x80] + Zeros(ZeroCount(n)) + LengthBytes(n)
  }

  lemma PaddingFits(n: nat, k: nat)
    requires k == ZeroCount(n)
    ensures (n + 9 + k) % BLOCK == 0
  {
    ZeroCountLeast(n, k);
  }

  function Pad(m: seq<Byte>): (p: seq<Byte>)
    ensures |p| % BLOCK == 0
  {
    m + Padding(|m|)
  }

  function WordBytes(w: Word): (s: seq<Byte>)
    ensures |s| == 4
  {
    [((w >> 24) as bv8) as int, (((w >> 16) & 0xFF) as bv8) as int, (((w >> 8) & 0xFF) as bv8) as int, ((w & 0xFF) as bv8) as int]
  }

  function StateBytes(s: State): (r: seq<Byte>)
    ensures |r| == 32
  {
    WordBytes(s.a) + WordBytes(s.b) + WordBytes(s.c) + WordBytes(s.d)
    + WordBytes(s.e) + WordBytes(s.f) + WordBytes(s.g) + WordBytes(s.h)
  }

  /** The digest of a message. */
  function Digest(P: Sha, m: seq<Byte>): (r: seq<Byte>)
    requires |P.K| == 64
    ensures |r| == 32
  {
    StateBytes(Fold(P, P.h0, Pad(m)))
  }

  // ---------- the length counter ----------

  /** The two counter words after len more bytes: a carry out of the low word, then the high part. */
  function LowAfter(Nl: nat, len: nat): nat { (Nl + 8 * len % TWO32) % TWO32 }

  function HighAfter(Nh: nat, Nl: nat, len: nat): nat {
    (Nh + (if LowAfter(Nl, len) < Nl then 1 else 0) + len / 0x2000_0000) % TWO32
  }

  lemma ModStep(a: nat, b: nat, l: nat)
    requires l < TWO32 && b < TWO32
    ensures (a * TWO32 + l) % TWO64 == (a % TWO32) * TWO32 + l
  {
    var q, r := a / TWO32, a % TWO32;
    assert a * TWO32 + l == q * TWO64 + (r * TWO32 + l);
    ModUnique(a * TWO32 + l, q, r * TWO32 + l);
  }

  lemma ModUnique(x: nat, q: nat, r: nat)
    requires x == q * TWO64 + r && r < TWO64
    ensures x % TWO64 == r
  {
  }

  /** The counter words hold the bit length modulo 2^64. */
  lemma CounterStep(Nh: nat, Nl: nat, total: nat, len: nat)
    requires Nh < TWO32 && Nl < TWO32 && Nh * TWO32 + Nl == 8 * total % TWO64
    ensures HighAfter(Nh, Nl, len) < TWO32 && LowAfter(Nl, len) < TWO32
    ensures HighAfter(Nh, Nl, len) * TWO32 + LowAfter(Nl, len) == 8 * (total + len) % TWO64
  {
    var r, hi := 8 * len % TWO32, len / 0x2000_0000;
    assert 8 * len == hi * TWO32 + r;
    var carry := if Nl + r >= TWO32 then 1 else 0;
    assert Nl + r == carry * TWO32 + LowAfter(Nl, len);
    assert LowAfter(Nl, len) < Nl <==> carry == 1;
    ModAdd(8 * total, 8 * len);
    ModStep(Nh + carry + hi, 0, LowAfter(Nl, len));
  }

  lemma CounterBytes(Nh: nat, Nl: nat, total: nat)
    requires Nh < TWO32 && Nl < TWO32 && Nh * TWO32 + Nl == 8 * total % TWO64
    ensures Word32(Nh) + Word32(Nl) == LengthBytes(total)
  {
    hide Word32;
    assert (Nh * TWO32 + Nl) / TWO32 == Nh && (Nh * TWO32 + Nl) % TWO32 == Nl;
  }

  lemma FoldNothing(P: Sha)
    requires |P.K| == 64
    ensures Fold(P, P.h0, []) == P.h0
  {
  }

  // ---------- the streaming context ----------

  /** The context. fed is history: the bytes given so far. */
  class Sha256Ctx {
    const P: Sha
    const ni: bool
    const buf: array<Byte>
    var h: State
    var Nl: nat
    var Nh: nat
    var num: nat
    ghost var fed: seq<Byte>

    /** The state has taken in all whole blocks of f, and the buffer keeps the rest. */
    ghost predicate Holds(f: seq<Byte>)
      reads this`num, this`h, buf
    {
      && |P.K| == 64 && buf.Length == BLOCK
      && num < BLOCK && num <= |f| && (|f| - num) % BLOCK == 0
      && buf[..num] == f[|f| - num..] && h == Fold(P, P.h0, f[..|f| - num])
    }

    /** The counter words hold the bit length modulo 2^64. */
    ghost predicate Counts(total: nat)
      reads this`Nl, this`Nh
    {
      Nh < TWO32 && Nl < TWO32 && Nh * TWO32 + Nl == 8 * total % TWO64
    }

    ghost predicate Valid()
      reads this, buf
    {
      Holds(fed) && Counts(|fed|)
    }

    /** ni selects the vector block. */
    constructor (P: Sha, ni: bool)
      requires |P.K| == 64
      ensures Valid() && fed == [] && this.P == P && fresh(buf)
    {
      this.P, this.ni, h, Nl, Nh, num, fed := P, ni, P.h0, 0, 0, 0, [];
      buf := new Byte[BLOCK](_ => 0);
      new;
      hide Fold, Compress, Counts;
      FoldNothing(P);
      ZeroCounts();
      assert fed[..0] == [] && fed[0..] == [];
    }

    lemma ZeroCounts()
      requires Nh == 0 == Nl
      ensures Counts(0)
    {
    }

    method ProcessBlock(block: seq<Byte>)
      requires |P.K| == 64 && |block| == BLOCK
      modifies this`h
      ensures h == Compress(P.K, old(h), Words(block))
    {
      if ni { h := BlockNi(P.K, h, Words(block)); } else { h := BlockSoft(P.K, h, Words(block)); }
    }

    /** Copies data into the buffer at num. */
    method Fill(data: seq<Byte>)
      requires buf.Length == BLOCK && num + |data| <= BLOCK
      modifies buf
      ensures buf[..num + |data|] == old(buf[..num]) + data
    {
      for i := 0 to |data|
        invariant buf[..num + i] == old(buf[..num]) + data[..i]
      {
        buf[num + i] := data[i];
        assert buf[..num + i + 1] == buf[..num + i] + [data[i]];
      }
    }

    /** The whole blocks of data, straight from the input. */
    method ProcessBlocks(data: seq<Byte>)
      requires |P.K| == 64 && |data| % BLOCK == 0
      modifies this`h
      ensures h == Fold(P, old(h), data)
    {
      hide Compress, Words;
      var i := 0;
      while i < |data|
        invariant 0 <= i <= |data| && i % BLOCK == 0
        invariant Fold(P, h, data[i..]) == Fold(P, old(h), data)
      {
        assert data[i..][..BLOCK] == data[i..i + BLOCK] && data[i..][BLOCK..] == data[i + BLOCK..];
        ProcessBlock(data[i..i + BLOCK]);
        i := i + BLOCK;
      }
    }

    /** Data that does not fill the buffer. */
    method KeepShort(data: seq<Byte>, ghost f: seq<Byte>)
      requires Holds(f) && num + |data| < BLOCK
      modifies this`num, buf
      ensures Holds(f + data)
    {
      hide Fold;
      ghost var was := num;
      Fill(data);
      num := num + |data|;
      assert (f + data)[..|f + data| - num] == f[..|f| - was] && (f + data)[|f + data| - num..] == f[|f| - was..] + data;
    }

    /** The full buffer is one more block. */
    method FlushBuffer(ghost done: seq<Byte>, ghost block: seq<Byte>)
      requires |P.K| == 64 && buf.Length == BLOCK == |block| && |done| % BLOCK == 0
      requires buf[..BLOCK] == block && h == Fold(P, P.h0, done)
      modifies this`h, this`num
      ensures h == Fold(P, P.h0, done + block) && num == 0
    {
      hide Fold, Compress, Words;
      assert buf[..] == buf[..BLOCK];
      ProcessBlock(buf[..]);
      num := 0;
      FoldOne(P, P.h0, done, block);
    }

    /** Data that fills the buffer exactly. */
    method TopUp(data: seq<Byte>, ghost f: seq<Byte>)
      requires Holds(f) && num + |data| == BLOCK
      modifies this`h, this`num, buf
      ensures Holds(f + data) && num == 0
    {
      hide Fold;
      ghost var done, kept := f[..|f| - num], f[|f| - num..];
      Fill(data);
      FlushBuffer(done, kept + data);
      assert done + (kept + data) == f + data && (f + data)[..|f + data|] == f + data;
    }

    /** Whole blocks, then the rest into the empty buffer. */
    method TakeAligned(data: seq<Byte>, ghost f: seq<Byte>)
      requires Holds(f) && num == 0
      modifies this`h, this`num, buf
      ensures Holds(f + data)
    {
      hide Fold, Compress, Words;
      var whole := |data| / BLOCK * BLOCK;
      assert f[..|f|] == f;
      ProcessBlocks(data[..whole]);
      FoldConcat(P, P.h0, f, data[..whole]);
      var rest := data[whole..];
      Fill(rest);
      num := |rest|;
      assert (f + data)[..|f + data| - num] == f + data[..whole] && (f + data)[|f + data| - num..] == rest;
    }

    method CountBytes(len: nat, ghost total: nat)
      requires Counts(total)
      modifies this`Nl, this`Nh
      ensures Counts(total + len)
    {
      CounterStep(Nh, Nl, total, len);
      var l := LowAfter(Nl, len);
      Nh := HighAfter(Nh, Nl, len);
      Nl := l;
    }

    method Absorb(data: seq<Byte>, ghost f: seq<Byte>)
      requires Holds(f)
      modifies this`h, this`num, buf
      ensures Holds(f + data)
    {
      assert num < BLOCK;
      hide Holds;
      if num == 0 {
        TakeAligned(data, f);
      } else if num + |data| < BLOCK {
        KeepShort(data, f);
      } else {
        var need := BLOCK - num;
        TopUp(data[..need], f);
        TakeAligned(data[need..], f + data[..need]);
        SplitAt(f, data, need);
      }
    }

    /** Adds data to the message. */
    method Update(data: seq<Byte>)
      requires Valid()
      modifies this`h, this`Nl, this`Nh, this`num, this`fed, buf
      ensures Valid() && fed == old(fed) + data
    {
      hide Holds, Counts;
      CountBytes(|data|, |fed|);
      Absorb(data, fed);
      fed := fed + data;
    }

    /** No room for the length: the block is filled with zeros, and the next starts with 56 zeros. */
    method PadLong(ghost done: seq<Byte>, ghost kept: seq<Byte>)
      requires |P.K| == 64 && buf.Length == BLOCK && num == |kept| <= BLOCK && |done| % BLOCK == 0
      requires buf[..num] == kept && h == Fold(P, P.h0, done)
      modifies this`h, this`num, buf
      ensures h == Fold(P, P.h0, done + (kept + Zeros(BLOCK - |kept|))) && num == 56 && buf[..56] == Zeros(56)
    {
      hide Fold, Zeros;
      Fill(Zeros(BLOCK - num));
      FlushBuffer(done, kept + Zeros(BLOCK - |kept|));
      Fill(Zeros(56));
      num := 56;
    }

    /** The bit 1 and the zeros: one block more when the length no longer fits. */
    method PadZeros() returns (ghost done: seq<Byte>, ghost kept: seq<Byte>)
      requires Holds(fed)
      modifies this`h, this`num, buf
      ensures buf.Length == BLOCK && |P.K| == 64 && |done| % BLOCK == 0 && |kept| == 56 == num
      ensures h == Fold(P, P.h0, done) && buf[..56] == kept
      ensures done + kept == fed + [0x80] + Zeros(ZeroCount(|fed|))
    {
      hide Fold, ZeroCount;
      ghost var n, k := num, |fed|;
      done, kept := fed[..k - n], fed[k - n..];
      ZeroRoom(k, n);
      Fill([0x80]);
      num := num + 1;
      kept := kept + [0x80];
      var padLen := BLOCK - num;
      if padLen < 8 {
        PadLong(done, kept);
        done, kept := done + (kept + Zeros(padLen)), Zeros(56);
      } else {
        Fill(Zeros(padLen - 8));
        num := 56;
        kept := kept + Zeros(padLen - 8);
      }
    }

    /** The digest of everything given; the buffer is spent afterwards. */
    method Final() returns (md: seq<Byte>)
      requires Valid()
      modifies this`h, this`num, buf
      ensures md == Digest(P, fed)
    {
      hide Fold, Word32, LengthBytes, ZeroCount, StateBytes, Holds, Counts;
      ghost var done, kept := PadZeros();
      ghost var last := LengthBytes(|fed|);
      WriteLength(|fed|, kept);
      FlushBuffer(done, kept + last);
      assert done + (kept + last) == (done + kept) + last == Pad(fed);
      md := StateBytes(h);
    }

    method WriteLength(ghost total: nat, ghost kept: seq<Byte>)
      requires Counts(total) && buf.Length == BLOCK && num == 56 && buf[..56] == kept
      modifies buf
      ensures buf[..BLOCK] == kept + LengthBytes(total)
    {
      hide Word32, LengthBytes;
      CounterBytes(Nh, Nl, total);
      Fill(Word32(Nh) + Word32(Nl));
    }
  }

  lemma ZeroRoom(k: nat, n: nat)
    requires n < BLOCK && n <= k && (k - n) % BLOCK == 0
    ensures ZeroCount(k) == if BLOCK - (n + 1) < 8 then BLOCK - (n + 1) + 56 else BLOCK - (n + 1) - 8
  {
    assert k % BLOCK == n;
  }

  /** Whatever the split into pieces and whichever block code runs, the digest is that of the whole. */
  method HashPieces(P: Sha, ni: bool, pieces: seq<seq<Byte>>) returns (md: seq<Byte>)
    requires |P.K| == 64
    ensures md == Digest(P, Concat(pieces))
  {
    hide *;
    var c := new Sha256Ctx(P, ni);
    assert Concat(pieces[..0]) == [] by { ConcatNothing(pieces); }
    for i := 0 to |pieces|
      invariant fresh(c) && fresh(c.buf) && c.P == P && c.Valid() && c.fed == Concat(pieces[..i])
    {
      c.Update(pieces[i]);
      ConcatStep(pieces, i);
    }
    assert pieces[..|pieces|] == pieces;
    md := c.Final();
  }
}
