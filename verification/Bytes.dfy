/** Numbers as byte strings in both byte orders, and pieces of byte strings. */
module Bytes {
  import opened Suffix

  const TWO32: nat := 0x1_0000_0000
  const TWO64: nat := 0x1_0000_0000_0000_0000

  function Pow256(n: nat): (p: nat)
    ensures p > 0
  {
    if n == 0 then 1 else 256 * Pow256(n - 1)
  }

  lemma {:induction false} PowMonotone(i: nat, j: nat)
    requires i <= j
    ensures Pow256(i) <= Pow256(j)
  {
    if i < j { PowMonotone(i, j - 1); }
  }

  lemma PowValues()
    ensures Pow256(2) == 65536 && Pow256(4) == TWO32 && Pow256(8) == TWO64
  {
    assert Pow256(2) == 65536;
    assert Pow256(4) == 65536 * Pow256(2);
    assert Pow256(6) == 65536 * Pow256(4);
  }

  /** Value of a byte string, most significant byte first. */
  function BigEndian(s: seq<Byte>): nat {
    if s == [] then 0 else BigEndian(s[..|s| - 1]) * 256 + s[|s| - 1]
  }

  /** Value of a byte string, least significant byte first. */
  function LittleEndian(s: seq<Byte>): nat {
    if s == [] then 0 else s[0] + 256 * LittleEndian(s[1..])
  }

  /** The low k bytes of n, most significant first. */
  function BigBytes(n: nat, k: nat): (s: seq<Byte>)
    ensures |s| == k
  {
    if k == 0 then [] else BigBytes(n / 256, k - 1) + [n % 256]
  }

  /** The low k bytes of n, least significant first. */
  function LittleBytes(n: nat, k: nat): (s: seq<Byte>)
    ensures |s| == k
  {
    if k == 0 then [] else [n % 256] + LittleBytes(n / 256, k - 1)
  }

  lemma {:induction false} BigRoundTrip(n: nat, k: nat)
    requires n < Pow256(k)
    ensures BigEndian(BigBytes(n, k)) == n
  {
    if k > 0 {
      BigRoundTrip(n / 256, k - 1);
      assert BigBytes(n, k)[..k - 1] == BigBytes(n / 256, k - 1);
    }
  }

  lemma {:induction false} LittleRoundTrip(n: nat, k: nat)
    requires n < Pow256(k)
    ensures LittleEndian(LittleBytes(n, k)) == n
  {
    if k > 0 {
      LittleRoundTrip(n / 256, k - 1);
      assert LittleBytes(n, k)[1..] == LittleBytes(n / 256, k - 1);
    }
  }

  lemma {:induction false} LittleBytesOfValue(s: seq<Byte>)
    ensures LittleBytes(LittleEndian(s), |s|) == s
  {
    if s != [] {
      LittleBytesOfValue(s[1..]);
      assert LittleEndian(s) % 256 == s[0] && LittleEndian(s) / 256 == LittleEndian(s[1..]);
      assert s == [s[0]] + s[1..];
    }
  }

  lemma {:induction false} BigEndianBelow(s: seq<Byte>)
    ensures BigEndian(s) < Pow256(|s|)
  {
    if s != [] { BigEndianBelow(s[..|s| - 1]); }
  }

  lemma {:induction false} LittleEndianBelow(s: seq<Byte>)
    ensures LittleEndian(s) < Pow256(|s|)
  {
    if s != [] { LittleEndianBelow(s[1..]); }
  }

  /** Four bytes at their place values, most significant first. */
  lemma BigFour(s: seq<Byte>)
    requires |s| == 4
    ensures var b0: int, b1: int, b2: int, b3: int := s[0], s[1], s[2], s[3];
            BigEndian(s) == b0 * 0x100_0000 + b1 * 0x1_0000 + b2 * 0x100 + b3
  {
    var b0: int, b1: int, b2: int := s[0], s[1], s[2];
    assert s[..3][..2] == s[..2] && s[..2][..1] == s[..1] && s[..1][..0] == [];
    assert BigEndian(s[..1]) == s[0];
    assert BigEndian(s[..2]) == b0 * 0x100 + b1;
    assert BigEndian(s[..3]) == b0 * 0x1_0000 + b1 * 0x100 + b2;
  }

  /** Four bytes at their place values, least significant first. */
  lemma LittleFour(s: seq<Byte>)
    requires |s| == 4
    ensures var b0: int, b1: int, b2: int, b3: int := s[0], s[1], s[2], s[3];
            LittleEndian(s) == b0 + 0x100 * b1 + 0x1_0000 * b2 + 0x100_0000 * b3
  {
    assert s[1..][1..] == s[2..] && s[2..][1..] == s[3..] && s[3..][1..] == [];
    assert LittleEndian(s[3..]) == s[3];
  }

  lemma Shifted(x: nat, p: nat, y: nat)
    ensures 256 * (x * p + y) == x * (256 * p) + 256 * y
  {
  }

  lemma {:induction false} BigEndianConcat(a: seq<Byte>, b: seq<Byte>)
    ensures BigEndian(a + b) == BigEndian(a) * Pow256(|b|) + BigEndian(b)
  {
    if b == [] {
      assert a + b == a;
    } else {
      var n := |b| - 1;
      BigEndianConcat(a, b[..n]);
      assert (a + b)[..|a| + n] == a + b[..n];
      Shifted(BigEndian(a), Pow256(n), BigEndian(b[..n]));
    }
  }

  lemma {:induction false} LittleEndianConcat(a: seq<Byte>, b: seq<Byte>)
    ensures LittleEndian(a + b) == LittleEndian(a) + Pow256(|a|) * LittleEndian(b)
  {
    if a == [] {
      assert a + b == b;
    } else {
      LittleEndianConcat(a[1..], b);
      assert (a + b)[1..] == a[1..] + b;
      Shifted(LittleEndian(b), Pow256(|a| - 1), LittleEndian(a[1..]));
    }
  }

  // ---------- pieces ----------

  function Concat(pieces: seq<seq<Byte>>): seq<Byte> {
    if pieces == [] then [] else Concat(pieces[..|pieces| - 1]) + pieces[|pieces| - 1]
  }

  lemma ConcatNothing(pieces: seq<seq<Byte>>)
    ensures Concat(pieces[..0]) == []
  {
  }

  lemma ConcatStep(pieces: seq<seq<Byte>>, i: nat)
    requires i < |pieces|
    ensures Concat(pieces[..i + 1]) == Concat(pieces[..i]) + pieces[i]
  {
    assert pieces[..i + 1][..i] == pieces[..i];
  }

  lemma SplitAt(f: seq<Byte>, data: seq<Byte>, n: nat)
    requires n <= |data|
    ensures f + data[..n] + data[n..] == f + data
  {
  }

  lemma ModAdd(x: nat, y: nat)
    ensures (x % TWO64 + y) % TWO64 == (x + y) % TWO64
  {
    assert x == x / TWO64 * TWO64 + x % TWO64;
  }
}
