/** The difficulty target by byte-wise long division, and the hash comparison. */
module Difficulty {
  import opened Suffix
  import opened Bytes

  const HASH_SIZE: nat := 32

  function Reversed(s: seq<Byte>): (r: seq<Byte>)
    ensures |r| == |s|
  {
    seq(|s|, (i: nat) requires i < |s| => s[|s| - 1 - i])
  }

  lemma {:induction false} LittleIsReversedBig(s: seq<Byte>)
    ensures BigEndian(Reversed(s)) == LittleEndian(s)
  {
    if s != [] {
      assert Reversed(s)[..|s| - 1] == Reversed(s[1..]);
      LittleIsReversedBig(s[1..]);
    }
  }

  /** The first differing byte decides. */
  lemma {:induction false} FirstDifference(a: seq<Byte>, b: seq<Byte>, i: nat)
    requires |a| == |b| && i < |a| && a[..i] == b[..i] && a[i] < b[i]
    ensures BigEndian(a) < BigEndian(b)
  {
    var n := |a| - 1;
    if i == n {
      assert a[..n] == b[..n];
    } else {
      assert a[..n][..i] == b[..n][..i];
      FirstDifference(a[..n], b[..n], i);
    }
  }

  lemma MulMonotone(a: nat, b: nat, d: nat)
    requires a <= b
    ensures a * d <= b * d
  {
  }

  /** One step of long division: quotient and remainder of D * 256 from those of D. */
  lemma DivisionStep(D: nat, d: nat, q: nat, rem: nat)
    requires d > 0 && D == q * d + rem && rem < d
    ensures 0 <= rem * 256 / d < 256 && rem * 256 % d < d
    ensures D * 256 == (q * 256 + rem * 256 / d) * d + rem * 256 % d
  {
    var digit, next := rem * 256 / d, rem * 256 % d;
    assert rem * 256 == digit * d + next;
    if digit >= 256 {
      MulMonotone(256, digit, d);
    }
    Distribute(q * 256, digit, d);
    MulAssociate(q, d);
  }

  lemma ProductMonotone(x: nat, d: nat, d': nat)
    requires d <= d'
    ensures x * d <= x * d'
  {
  }

  lemma Distribute(a: nat, b: nat, d: nat)
    ensures (a + b) * d == a * d + b * d
  {
  }

  lemma MulAssociate(q: nat, d: nat)
    ensures (q * 256) * d == (q * d) * 256
  {
  }

  lemma QuotientUnique(D: nat, d: nat, q: nat, rem: nat)
    requires d > 0 && D == q * d + rem && rem < d
    ensures q == D / d
  {
    var p, r := D / d, D % d;
    assert D == p * d + r && r < d;
    Distribute(q, 1, d);
    Distribute(p, 1, d);
    if q < p {
      MulMonotone(q + 1, p, d);
    } else if p < q {
      MulMonotone(p + 1, q, d);
    }
  }

  lemma AppendDigit(s: seq<Byte>, x: Byte)
    ensures BigEndian(s + [x]) == BigEndian(s) * 256 + x
  {
    assert (s + [x])[..|s|] == s;
  }

  lemma {:induction false} ZerosAreZero(s: seq<Byte>)
    requires forall i :: 0 <= i < |s| ==> s[i] == 0
    ensures BigEndian(s) == 0 && LittleEndian(s) == 0
  {
    if s != [] {
      ZerosAreZero(s[..|s| - 1]);
      ZerosAreZero(s[1..]);
    }
  }

  lemma {:induction false} AllOnes(s: seq<Byte>)
    requires forall i :: 0 <= i < |s| ==> s[i] == 255
    ensures BigEndian(s) == Pow256(|s|) - 1
  {
    if s != [] {
      AllOnes(s[..|s| - 1]);
    }
  }

  /** The target as a number: floor(2^256 / difficulty), except that 1 leaves nothing and 0 or less everything. */
  function TargetValue(difficulty: int): nat {
    if difficulty <= 0 then Pow256(HASH_SIZE) - 1 else if difficulty == 1 then 0 else Pow256(HASH_SIZE) / difficulty
  }

  /** Long division of 2^256 by the difficulty, dropping the leading digit of the 33. */
  method ComputeTarget(difficulty: int, target: array<Byte>)
    requires target.Length == HASH_SIZE && difficulty < 0x8000_0000_0000_0000
    modifies target
    ensures BigEndian(target[..]) == TargetValue(difficulty)
  {
    if difficulty <= 0 {
      for i := 0 to HASH_SIZE
        invariant forall k :: 0 <= k < i ==> target[k] == 255
      {
        target[i] := 255;
      }
      AllOnes(target[..]);
      return;
    }
    var d: nat := difficulty;
    var rem: nat := 1 % d;
    hide BigEndian, Pow256;
    StartOfDivision(d);
    ghost var q: nat := 1 / d;
    assert target[..0] == [];
    for i := 1 to HASH_SIZE + 1
      invariant rem < d && Pow256(i - 1) == q * d + rem && q == (1 / d) * Pow256(i - 1) + BigEndian(target[..i - 1])
    {
      ghost var D, low := Pow256(i - 1), target[..i - 1];
      PowStep(i);
      DivisionStep(D, d, q, rem);
      LeadStep(1 / d, D, BigEndian(low), rem * 256 / d);
      rem := rem * 256;
      target[i - 1] := rem / d;
      AppendDigit(low, target[i - 1]);
      assert target[..i] == low + [target[i - 1]];
      q := q * 256 + rem / d;
      rem := rem % d;
    }
    assert target[..HASH_SIZE] == target[..];
    FinalQuotient(Pow256(HASH_SIZE), d, q, BigEndian(target[..]), rem);
  }

  lemma LeadStep(lead: nat, D: nat, v: nat, digit: nat)
    ensures (lead * D + v) * 256 + digit == lead * (D * 256) + (v * 256 + digit)
  {
  }

  lemma PowStep(i: nat)
    requires i > 0
    ensures Pow256(i) == Pow256(i - 1) * 256
  {
  }

  lemma StartOfDivision(d: nat)
    requires d > 0
    ensures Pow256(0) == 1 && BigEndian([]) == 0 && 1 == (1 / d) * d + 1 % d
  {
  }

  lemma FinalQuotient(D: nat, d: nat, q: nat, v: nat, rem: nat)
    requires d > 0 && rem < d && D == q * d + rem && q == (1 / d) * D + v
    ensures if d >= 2 then v == D / d else v == 0
  {
    if d >= 2 {
      assert 1 / d == 0;
      QuotientUnique(D, d, q, rem);
    }
  }

  /** Accepts when the hash, read little-endian, is at most the target, read big-endian. */
  method CheckHash(hash: seq<Byte>, target: seq<Byte>) returns (ok: bool)
    requires |hash| == HASH_SIZE == |target|
    ensures ok <==> LittleEndian(hash) <= BigEndian(target)
  {
    hide BigEndian, LittleEndian;
    ghost var h := Reversed(hash);
    LittleIsReversedBig(hash);
    for i := 0 to HASH_SIZE
      invariant h[..i] == target[..i]
    {
      var x, t := hash[31 - i], target[i];
      assert x == h[i];
      if x < t {
        FirstDifference(h, target, i);
        return true;
      }
      if x > t {
        FirstDifference(target, h, i);
        return false;
      }
    }
    assert h == target;
    return true;
  }

  /** A found hash against the job's difficulty, as the mining loop does it. */
  method AcceptHash(hash: seq<Byte>, difficulty: int) returns (ok: bool)
    requires |hash| == HASH_SIZE && difficulty < 0x8000_0000_0000_0000
    ensures difficulty >= 2 ==> (ok <==> LittleEndian(hash) * difficulty <= Pow256(HASH_SIZE))
    ensures difficulty == 1 ==> (ok <==> LittleEndian(hash) == 0)
    ensures difficulty <= 0 ==> ok
  {
    var target := new Byte[HASH_SIZE](_ => 0);
    ComputeTarget(difficulty, target);
    ok := CheckHash(hash, target[..]);
    assert ok <==> Accepts(hash, difficulty);
    hide Pow256, LittleEndian, Accepts;
    AcceptsIff(hash, difficulty);
  }

  predicate Accepts(hash: seq<Byte>, difficulty: int) {
    LittleEndian(hash) <= TargetValue(difficulty)
  }

  /** From difficulty 2 on, a hash is accepted exactly when its product with the difficulty stays within
      2^256; difficulty 1 accepts only the zero hash, and difficulty 0 or less everything. */
  lemma AcceptsIff(hash: seq<Byte>, difficulty: int)
    requires |hash| == HASH_SIZE
    ensures difficulty >= 2 ==> (Accepts(hash, difficulty) <==> LittleEndian(hash) * difficulty <= Pow256(HASH_SIZE))
    ensures difficulty == 1 ==> (Accepts(hash, difficulty) <==> LittleEndian(hash) == 0)
    ensures difficulty <= 0 ==> Accepts(hash, difficulty)
  {
    LittleIsReversedBig(hash);
    BigEndianBelow(Reversed(hash));
    hide Pow256, LittleEndian;
    if difficulty >= 2 {
      QuotientBound(Pow256(HASH_SIZE), difficulty, LittleEndian(hash));
    }
  }

  lemma QuotientBound(D: nat, d: nat, x: nat)
    requires d > 0
    ensures x <= D / d <==> x * d <= D
  {
    var q := D / d;
    assert D == q * d + D % d;
    if x <= q {
      MulMonotone(x, q, d);
    } else {
      MulMonotone(q + 1, x, d);
      Distribute(q, 1, d);
    }
  }

  /** A harder difficulty accepts no more; this starts at 2. */
  lemma AcceptsAntitone(hash: seq<Byte>, d: int, d': int)
    requires |hash| == HASH_SIZE && 2 <= d <= d' && Accepts(hash, d')
    ensures Accepts(hash, d)
  {
    AcceptsIff(hash, d);
    AcceptsIff(hash, d');
    hide Pow256, LittleEndian, Accepts;
    ProductMonotone(LittleEndian(hash), d, d');
  }
}
