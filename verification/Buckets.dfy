/** Suffix types, first-byte buckets, and where each kind of suffix lies in the suffix array. */
module Buckets {
  import opened Suffix

  /** S-type: smaller than its successor suffix. Every other suffix is L-type. */
  ghost predicate SType(T: seq<Byte>, p: nat)
    requires p < |T|
  {
    Less(T, p, p + 1)
  }

  /** Leftmost S-type: an S-type suffix whose predecessor is L-type. */
  ghost predicate Lms(T: seq<Byte>, p: int)
  {
    0 < p < |T| && SType(T, p) && !SType(T, p - 1)
  }

  lemma LTypeAfterSuccessor(T: seq<Byte>, p: nat)
    requires p < |T|
    ensures SType(T, p) || Less(T, p + 1, p)
  {
    LessTotal(T, p, p + 1);
  }

  /** How the code reads a predecessor's type off two bytes and the current type. */
  lemma TypeOfPredecessor(T: seq<Byte>, p: nat)
    requires 0 < p < |T|
    ensures SType(T, p - 1) <==> T[p - 1] < T[p] || (T[p - 1] == T[p] && SType(T, p))
  {
  }

  /** Among suffixes of one bucket every L-type precedes every S-type. */
  lemma {:induction false} LBeforeS(T: seq<Byte>, l: nat, s: nat)
    requires l < |T| && s < |T| && T[l] == T[s]
    requires !SType(T, l) && SType(T, s)
    ensures Less(T, l, s)
    decreases |T| - l
  {
    if l + 1 < |T| && T[l + 1] == T[l] && T[s + 1] == T[s] {
      LBeforeS(T, l + 1, s + 1);
    }
  }

  // ---------- counting ----------

  ghost function CountIf(n: nat, P: int -> bool): nat
  {
    if n == 0 then 0 else CountIf(n - 1, P) + if P(n - 1) then 1 else 0
  }

  ghost function PositionsWith(n: nat, P: int -> bool): (s: set<int>)
    ensures forall x :: x in s <==> 0 <= x < n && P(x)
  {
    if n == 0 then {} else PositionsWith(n - 1, P) + if P(n - 1) then {n - 1} else {}
  }

  lemma {:induction false} CountIsCardinality(n: nat, P: int -> bool)
    ensures CountIf(n, P) == |PositionsWith(n, P)|
  {
    if n > 0 {
      CountIsCardinality(n - 1, P);
    }
  }

  lemma {:induction false} CountMonotone(n: nat, P: int -> bool, Q: int -> bool)
    requires forall x :: 0 <= x < n && P(x) ==> Q(x)
    ensures CountIf(n, P) <= CountIf(n, Q) <= n
  {
    if n > 0 {
      CountMonotone(n - 1, P, Q);
    }
  }

  /** A property that is closed downwards in suffix order holds of exactly the first
      CountIf entries of the suffix array. */
  lemma PrefixCount(T: seq<Byte>, P: int -> bool, k: nat)
    requires k < |T|
    requires forall i, j :: 0 <= i < j < |T| && P(SuffixArray(T)[j]) ==> P(SuffixArray(T)[i])
    ensures k < CountIf(|T|, P) <==> P(SuffixArray(T)[k])
  {
    var R := SuffixArray(T);
    var m := 0;
    while m < |T| && P(R[m])
      invariant 0 <= m <= |T|
      invariant forall i :: 0 <= i < m ==> P(R[i])
    {
      m := m + 1;
    }
    assert forall i :: m <= i < |T| ==> !P(R[i]);
    PrefixCardinality(T, P, m);
  }

  lemma PrefixCardinality(T: seq<Byte>, P: int -> bool, m: nat)
    requires m <= |T|
    requires forall i :: 0 <= i < m ==> P(SuffixArray(T)[i])
    requires forall i :: m <= i < |T| ==> !P(SuffixArray(T)[i])
    ensures CountIf(|T|, P) == m
  {
    SuffixArrayIsSuffixArray(T);
    SortedDistinct(T, SuffixArray(T));
    forall x | 0 <= x < |T| && P(x) ensures x in SuffixArray(T) { SuffixArrayCovers(T, x); }
    ListCardinality(|T|, SuffixArray(T), P, m);
  }

  /** A list of distinct numbers below n that contains every number with property P, those first,
      shows how many numbers have it. */
  lemma ListCardinality(n: nat, L: seq<nat>, P: int -> bool, m: nat)
    requires forall i, j :: 0 <= i < j < |L| ==> L[i] != L[j]
    requires forall i :: 0 <= i < |L| ==> L[i] < n
    requires forall x :: 0 <= x < n && P(x) ==> x in L
    requires m <= |L| && (forall i :: 0 <= i < m ==> P(L[i])) && (forall i :: m <= i < |L| ==> !P(L[i]))
    ensures CountIf(n, P) == m
  {
    DistinctCardinality(L[..m]);
    CountIsCardinality(n, P);
    forall x | x in PositionsWith(n, P) ensures x in L[..m] {
      assert x in L;
      var i :| 0 <= i < |L| && L[i] == x;
      assert L[..m][i] == x;
    }
    forall x | x in L[..m] ensures x in PositionsWith(n, P) {
      var i :| 0 <= i < m && L[..m][i] == x;
      assert P(L[i]);
    }
    assert Elements(L[..m]) == PositionsWith(n, P);
  }

  ghost function FirstByteBelow(T: seq<Byte>, c: int): int -> bool
  {
    (p: int) => 0 <= p < |T| && T[p] < c
  }

  ghost function BelowOrLType(T: seq<Byte>, c: int): int -> bool
  {
    (p: int) => 0 <= p < |T| && (T[p] < c || (T[p] == c && !SType(T, p)))
  }

  /** First slot of bucket c. */
  ghost function Start(T: seq<Byte>, c: int): nat
  {
    CountIf(|T|, FirstByteBelow(T, c))
  }

  /** One past the last slot of bucket c. */
  ghost function End(T: seq<Byte>, c: int): nat
  {
    Start(T, c + 1)
  }

  /** One past the last L-type slot of bucket c. */
  ghost function LEnd(T: seq<Byte>, c: int): nat
  {
    CountIf(|T|, BelowOrLType(T, c))
  }

  ghost function HasByte(T: seq<Byte>, c: int): int -> bool
  {
    (p: int) => 0 <= p < |T| && T[p] == c
  }

  /** Number of occurrences of byte c. */
  ghost function Freq(T: seq<Byte>, c: int): nat
  {
    CountIf(|T|, HasByte(T, c))
  }

  lemma StartMonotone(T: seq<Byte>, c: int, d: int)
    requires c < d
    ensures Start(T, c) <= LEnd(T, c) <= Start(T, d) <= |T|
    ensures c <= 0 ==> Start(T, c) == 0
    ensures d >= 256 ==> Start(T, d) == |T|
  {
    CountMonotone(|T|, FirstByteBelow(T, c), BelowOrLType(T, c));
    CountMonotone(|T|, BelowOrLType(T, c), FirstByteBelow(T, d));
    CountConstant(|T|, FirstByteBelow(T, c));
    CountConstant(|T|, FirstByteBelow(T, d));
  }

  lemma {:induction false} CountConstant(n: nat, P: int -> bool)
    ensures (forall x :: 0 <= x < n ==> !P(x)) ==> CountIf(n, P) == 0
    ensures (forall x :: 0 <= x < n ==> P(x)) ==> CountIf(n, P) == n
  {
    if n > 0 {
      CountConstant(n - 1, P);
    }
  }

  /** Slot k is below Start(c) exactly when its suffix starts with a smaller byte, and below
      LEnd(c) exactly when its suffix starts with a smaller byte or is L-type in bucket c. */
  lemma SlotBounds(T: seq<Byte>, c: int, k: nat)
    requires k < |T|
    ensures k < Start(T, c) <==> T[SuffixArray(T)[k]] < c
    ensures k < LEnd(T, c) <==>
            T[SuffixArray(T)[k]] < c || (T[SuffixArray(T)[k]] == c && !SType(T, SuffixArray(T)[k]))
  {
    var R := SuffixArray(T);
    forall i, j | 0 <= i < j < |T| && BelowOrLType(T, c)(R[j]) ensures BelowOrLType(T, c)(R[i]) {
      InOrder(T, i, j);
      if T[R[i]] == T[R[j]] == c && SType(T, R[i]) {
        LBeforeS(T, R[j], R[i]);
        LessAsymmetric(T, R[i], R[j]);
      }
    }
    forall i, j | 0 <= i < j < |T| && FirstByteBelow(T, c)(R[j]) ensures FirstByteBelow(T, c)(R[i]) {
      InOrder(T, i, j);
    }
    PrefixCount(T, BelowOrLType(T, c), k);
    PrefixCount(T, FirstByteBelow(T, c), k);
  }

  /** The bucket section that holds suffix p in the suffix array. */
  lemma RankInBucket(T: seq<Byte>, p: nat)
    requires p < |T|
    ensures Start(T, T[p]) <= Rank(T, p) < End(T, T[p])
    ensures SType(T, p) <==> LEnd(T, T[p]) <= Rank(T, p)
  {
    var k := Rank(T, p);
    SlotBounds(T, T[p], k);
    var c: int := T[p];
    SlotBounds(T, c + 1, k);
  }
}
