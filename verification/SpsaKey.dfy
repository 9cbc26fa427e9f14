/** The zero-padded 8-byte sort key of a suffix and its relation to suffix order. */
module SpsaKey {
  import opened Suffix

  /** Byte p + x of the text, 0 past its end. */
  ghost function Pad(T: seq<Byte>, p: nat, x: nat): (v: int)
    ensures 0 <= v < 256
  {
    if p + x < |T| then T[p + x] else 0
  }

  /** Big-endian value of the k bytes from p on, zero-padded. */
  ghost function KeyOf(T: seq<Byte>, p: nat, k: nat): (v: int)
    ensures v >= 0
  {
    if k == 0 then 0 else KeyOf(T, p, k - 1) * 256 + Pad(T, p, k - 1)
  }

  ghost function Key(T: seq<Byte>, p: nat): int
  {
    KeyOf(T, p, 8)
  }

  /** Digits of the upper half of the key. */
  lemma UpperHalf(T: seq<Byte>, p: nat)
    ensures var u := KeyOf(T, p, 4);
            && 0 <= u < 0x1_0000_0000
            && u == Pad(T, p, 0) * 0x100_0000 + Pad(T, p, 1) * 0x1_0000 + Pad(T, p, 2) * 0x100 + Pad(T, p, 3)
  {
    assert KeyOf(T, p, 1) == Pad(T, p, 0);
    assert KeyOf(T, p, 2) == Pad(T, p, 0) * 0x100 + Pad(T, p, 1);
    assert KeyOf(T, p, 3) == Pad(T, p, 0) * 0x1_0000 + Pad(T, p, 1) * 0x100 + Pad(T, p, 2);
  }

  /** key >> 32, and that the key fits 64 bits. */
  lemma KeyHalves(T: seq<Byte>, p: nat)
    ensures Key(T, p) / 0x1_0000_0000 == KeyOf(T, p, 4)
    ensures 0 <= Key(T, p) < 0x1_0000_0000_0000_0000
  {
    UpperHalf(T, p);
    var u := KeyOf(T, p, 4);
    assert KeyOf(T, p, 5) == u * 0x100 + Pad(T, p, 4);
    assert KeyOf(T, p, 6) == u * 0x1_0000 + Pad(T, p, 4) * 0x100 + Pad(T, p, 5);
    assert KeyOf(T, p, 7) == u * 0x100_0000 + Pad(T, p, 4) * 0x1_0000 + Pad(T, p, 5) * 0x100 + Pad(T, p, 6);
  }

  /** Equal keys have equal padded bytes. */
  lemma {:induction false} EqualKeys(T: seq<Byte>, a: nat, b: nat, k: nat)
    requires KeyOf(T, a, k) == KeyOf(T, b, k)
    ensures forall x :: 0 <= x < k ==> Pad(T, a, x) == Pad(T, b, x)
  {
    if k > 0 {
      EqualKeys(T, a, b, k - 1);
    }
  }

  /** The first difference between padded bytes decides the suffix order: padding with 0 is safe
      because an ended suffix is also the smaller one. */
  lemma {:induction false} PaddedDifference(T: seq<Byte>, a: nat, b: nat, k: nat)
    requires a <= |T| && b <= |T|
    requires forall x :: 0 <= x < k ==> Pad(T, a, x) == Pad(T, b, x)
    requires Pad(T, a, k) < Pad(T, b, k)
    ensures Less(T, a, b)
    decreases k
  {
    if k > 0 {
      assert Pad(T, a, 0) == Pad(T, b, 0);
      if a < |T| && b < |T| {
        var a', b' := a + 1, b + 1;
        forall x | 0 <= x < k - 1 ensures Pad(T, a', x) == Pad(T, b', x) {
          assert Pad(T, a, x + 1) == Pad(T, b, x + 1);
        }
        PaddedDifference(T, a', b', k - 1);
      }
    }
  }

  /** The key never contradicts suffix order. */
  lemma {:induction false} KeyOrder(T: seq<Byte>, a: nat, b: nat, k: nat)
    requires a < |T| && b < |T| && KeyOf(T, a, k) < KeyOf(T, b, k)
    ensures Less(T, a, b)
  {
    if k > 0 {
      if KeyOf(T, a, k - 1) < KeyOf(T, b, k - 1) {
        KeyOrder(T, a, b, k - 1);
      } else {
        EqualKeys(T, a, b, k - 1);
        PaddedDifference(T, a, b, k - 1);
      }
    }
  }

  lemma {:induction false} KeyPastEnd(T: seq<Byte>, p: nat, r: nat)
    requires p + r == |T| && r <= 8
    ensures Key(T, p) == KeyOf(T, p, r) * Shift(8 - r)
  {
    if r < 8 { assert KeyOf(T, p, r + 1) == KeyOf(T, p, r) * 256; }
    if r < 7 { assert KeyOf(T, p, r + 2) == KeyOf(T, p, r + 1) * 256; }
    if r < 6 { assert KeyOf(T, p, r + 3) == KeyOf(T, p, r + 2) * 256; }
    if r < 5 { assert KeyOf(T, p, r + 4) == KeyOf(T, p, r + 3) * 256; }
    if r < 4 { assert KeyOf(T, p, r + 5) == KeyOf(T, p, r + 4) * 256; }
    if r < 3 { assert KeyOf(T, p, r + 6) == KeyOf(T, p, r + 5) * 256; }
    if r < 2 { assert KeyOf(T, p, r + 7) == KeyOf(T, p, r + 6) * 256; }
    if r < 1 { assert KeyOf(T, p, r + 8) == KeyOf(T, p, r + 7) * 256; }
  }

  /** 2^(8k), the factor of a left shift by k bytes. */
  function Shift(k: nat): int
    requires k <= 8
  {
    [1, 0x100, 0x1_0000, 0x100_0000, 0x1_0000_0000, 0x100_0000_0000, 0x1_0000_0000_0000, 0x100_0000_0000_0000,
     0x1_0000_0000_0000_0000][k]
  }

  /** Big-endian load when 8 bytes remain, otherwise the remaining bytes shifted up. */
  method ExtractSortKey8Bytes(T: seq<Byte>, pos: nat) returns (key: int)
    requires pos < |T|
    ensures key == Key(T, pos)
  {
    var remaining := |T| - pos;
    var m := if remaining >= 8 then 8 else remaining;
    key := 0;
    for i := 0 to m
      invariant key == KeyOf(T, pos, i)
    {
      key := key * 256 + T[pos + i];
    }
    if remaining < 8 {
      KeyPastEnd(T, pos, m);
      key := key * Shift(8 - remaining);
    }
  }
}
