/** Suffix order of a byte string, the suffix array it determines, and rank.
    Every suffix-array route of the miner is specified against this module. */
module Suffix {

  type Byte = x: int | 0 <= x < 256

  /** Suffix i comes before suffix j. The empty suffix |T| comes before all others. */
  predicate Less(T: seq<Byte>, i: nat, j: nat)
    requires i <= |T| && j <= |T|
    decreases |T| - i
  {
    j < |T| && (i == |T| || T[i] < T[j] || (T[i] == T[j] && Less(T, i + 1, j + 1)))
  }

  /** At offset k the suffixes differ for the first time, and the one at i has the smaller byte there, or ends. */
  ghost predicate FirstDifference(T: seq<Byte>, i: nat, j: nat, k: nat)
    requires i <= |T| && j <= |T|
  {
    && j + k < |T| && i + k <= |T| && T[i..i + k] == T[j..j + k]
    && (i + k == |T| || T[i + k] < T[j + k])
  }

  /** The order is the lexicographic one, in which a proper prefix comes first. */
  lemma LessIsLexicographic(T: seq<Byte>, i: nat, j: nat)
    requires i <= |T| && j <= |T|
    ensures Less(T, i, j) <==> exists k :: 0 <= k <= |T| && FirstDifference(T, i, j, k)
  {
    hide Less, FirstDifference;
    if Less(T, i, j) { var k := DifferenceOf(T, i, j); }
    if exists k :: 0 <= k <= |T| && FirstDifference(T, i, j, k) {
      var k :| 0 <= k <= |T| && FirstDifference(T, i, j, k);
      DifferenceDecides(T, i, j, k);
    }
  }

  lemma {:induction false} DifferenceOf(T: seq<Byte>, i: nat, j: nat) returns (k: nat)
    requires i <= |T| && j <= |T| && Less(T, i, j)
    ensures k <= |T| && FirstDifference(T, i, j, k)
    decreases |T| - i
  {
    if i < |T| && T[i] == T[j] {
      hide FirstDifference;
      k := DifferenceOf(T, i + 1, j + 1);
      LongerDifference(T, i, j, k);
      k := k + 1;
    } else {
      k := 0;
      assert T[i..i] == T[j..j];
    }
  }

  lemma LongerDifference(T: seq<Byte>, i: nat, j: nat, k: nat)
    requires i < |T| && j < |T| && T[i] == T[j] && FirstDifference(T, i + 1, j + 1, k)
    ensures FirstDifference(T, i, j, k + 1) && k + 1 <= |T|
  {
    assert T[i..i + k + 1] == [T[i]] + T[i + 1..i + k + 1] && T[j..j + k + 1] == [T[j]] + T[j + 1..j + k + 1];
  }

  lemma {:induction false} DifferenceDecides(T: seq<Byte>, i: nat, j: nat, k: nat)
    requires i <= |T| && j <= |T| && FirstDifference(T, i, j, k)
    ensures Less(T, i, j)
    decreases k
  {
    if k > 0 {
      assert T[i] == T[i..i + k][0] == T[j..j + k][0] == T[j];
      assert T[i + 1..i + k] == T[i..i + k][1..] == T[j..j + k][1..] == T[j + 1..j + k];
      DifferenceDecides(T, i + 1, j + 1, k - 1);
    }
  }

  lemma {:induction false} LessIrreflexive(T: seq<Byte>, i: nat)
    requires i <= |T|
    ensures !Less(T, i, i)
    decreases |T| - i
  {
    if i < |T| {
      LessIrreflexive(T, i + 1);
    }
  }

  lemma {:induction false} LessTransitive(T: seq<Byte>, i: nat, j: nat, k: nat)
    requires i <= |T| && j <= |T| && k <= |T|
    requires Less(T, i, j) && Less(T, j, k)
    ensures Less(T, i, k)
    decreases |T| - i
  {
    if i < |T| && T[i] == T[j] && T[j] == T[k] {
      LessTransitive(T, i + 1, j + 1, k + 1);
    }
  }

  lemma {:induction false} LessTotal(T: seq<Byte>, i: nat, j: nat)
    requires i <= |T| && j <= |T| && i != j
    ensures Less(T, i, j) || Less(T, j, i)
    decreases |T| - i
  {
    if i < |T| && j < |T| && T[i] == T[j] {
      LessTotal(T, i + 1, j + 1);
    }
  }

  lemma LessAsymmetric(T: seq<Byte>, i: nat, j: nat)
    requires i <= |T| && j <= |T| && Less(T, i, j)
    ensures i != j && !Less(T, j, i)
  {
    if i == j || Less(T, j, i) {
      if i != j {
        LessTransitive(T, i, j, i);
      }
      LessIrreflexive(T, i);
    }
  }

  /** R lists suffixes of T in strictly increasing suffix order. */
  ghost predicate Sorted(T: seq<Byte>, R: seq<nat>)
  {
    && (forall k :: 0 <= k < |R| ==> R[k] < |T|)
    && (forall i, j :: 0 <= i < j < |R| ==> Less(T, R[i], R[j]))
  }

  /** R is the suffix array of T: all positions, in suffix order. */
  ghost predicate IsSuffixArray(T: seq<Byte>, R: seq<nat>)
  {
    |R| == |T| && Sorted(T, R)
  }

  // ---------- existence ----------

  /** The place of suffix p in the sorted list R. */
  ghost function InsertionPoint(T: seq<Byte>, R: seq<nat>, p: nat): (k: nat)
    requires p < |T| && forall i :: 0 <= i < |R| ==> R[i] < |T|
    ensures k <= |R|
  {
    if R == [] || Less(T, R[|R| - 1], p) then |R| else InsertionPoint(T, R[..|R| - 1], p)
  }

  lemma {:induction false} InsertionPointSplits(T: seq<Byte>, R: seq<nat>, p: nat)
    requires Sorted(T, R) && p < |T| && p !in R
    ensures var k := InsertionPoint(T, R, p);
            && (forall i :: 0 <= i < k ==> Less(T, R[i], p))
            && (forall i :: k <= i < |R| ==> Less(T, p, R[i]))
  {
    if R != [] {
      var last := |R| - 1;
      LessTotal(T, R[last], p);
      if Less(T, R[last], p) {
        forall i | 0 <= i < last ensures Less(T, R[i], p) { LessTransitive(T, R[i], R[last], p); }
      } else {
        InsertionPointSplits(T, R[..last], p);
      }
    }
  }

  /** Positions 0..m-1, each inserted at its place in suffix order. */
  ghost function Inserted(T: seq<Byte>, m: nat): (R: seq<nat>)
    requires m <= |T|
    ensures |R| == m
    ensures forall i :: 0 <= i < m ==> R[i] < m
  {
    if m == 0 then []
    else
      var R := Inserted(T, m - 1);
      var k := InsertionPoint(T, R, m - 1);
      var r := R[..k] + [m - 1] + R[k..];
      r
  }

  lemma {:induction false} InsertedSorted(T: seq<Byte>, m: nat)
    requires m <= |T|
    ensures Sorted(T, Inserted(T, m))
  {
    if m > 0 {
      InsertedSorted(T, m - 1);
      InsertionPointSplits(T, Inserted(T, m - 1), m - 1);
    }
  }

  /** The suffix array of T. */
  ghost function SuffixArray(T: seq<Byte>): (R: seq<nat>)
    ensures |R| == |T|
    ensures forall k :: 0 <= k < |T| ==> R[k] < |T|
  {
    Inserted(T, |T|)
  }

  lemma SuffixArrayIsSuffixArray(T: seq<Byte>)
    ensures IsSuffixArray(T, SuffixArray(T))
  {
    InsertedSorted(T, |T|);
  }

  lemma InOrder(T: seq<Byte>, i: nat, j: nat)
    requires i < j < |T|
    ensures Less(T, SuffixArray(T)[i], SuffixArray(T)[j])
  {
    SuffixArrayIsSuffixArray(T);
  }

  // ---------- permutation and uniqueness ----------

  ghost function Elements(R: seq<nat>): (s: set<int>)
    ensures forall x :: x in s <==> x in R
  {
    set x | x in R
  }

  lemma {:induction false} DistinctCardinality(R: seq<nat>)
    requires forall i, j :: 0 <= i < j < |R| ==> R[i] != R[j]
    ensures |Elements(R)| == |R|
  {
    if R == [] {
      assert Elements(R) == {};
    } else {
      var last := |R| - 1;
      DistinctCardinality(R[..last]);
      assert R == R[..last] + [R[last]];
      assert Elements(R) == Elements(R[..last]) + {R[last]};
      assert R[last] !in R[..last];
    }
  }

  ghost function Below(n: nat): (s: set<int>)
    ensures forall x :: x in s <==> 0 <= x < n
  {
    if n == 0 then {} else Below(n - 1) + {n - 1}
  }

  lemma {:induction false} BelowCardinality(n: nat)
    ensures |Below(n)| == n
  {
    if n > 0 {
      BelowCardinality(n - 1);
    }
  }

  /** n distinct numbers below n are all the numbers below n. */
  lemma DistinctCovers(R: seq<nat>, p: nat)
    requires forall i, j :: 0 <= i < j < |R| ==> R[i] != R[j]
    requires forall i :: 0 <= i < |R| ==> R[i] < |R|
    requires p < |R|
    ensures p in R
  {
    DistinctCardinality(R);
    BelowCardinality(|R|);
    var rest := Below(|R|) - Elements(R);
    assert Below(|R|) == Elements(R) + rest;
    assert |rest| == 0;
    assert p in Elements(R) + rest;
  }

  lemma SortedDistinct(T: seq<Byte>, R: seq<nat>)
    requires Sorted(T, R)
    ensures forall i, j :: 0 <= i < j < |R| ==> R[i] != R[j]
  {
    forall i, j | 0 <= i < j < |R| ensures R[i] != R[j] { LessAsymmetric(T, R[i], R[j]); }
  }

  lemma SuffixArrayCovers(T: seq<Byte>, p: nat)
    requires p < |T|
    ensures p in SuffixArray(T)
  {
    SuffixArrayIsSuffixArray(T);
    SortedDistinct(T, SuffixArray(T));
    DistinctCovers(SuffixArray(T), p);
  }

  /** Index of suffix p in the suffix array; the empty suffix ranks -1. */
  ghost function Rank(T: seq<Byte>, p: nat): (k: int)
    requires p <= |T|
    ensures p == |T| ==> k == -1
    ensures p < |T| ==> 0 <= k < |T| && SuffixArray(T)[k] == p
  {
    if p == |T| then -1
    else
      SuffixArrayCovers(T, p);
      var k :| 0 <= k < |T| && SuffixArray(T)[k] == p;
      k
  }

  /** Rank is an order isomorphism from suffixes to -1..n-1. */
  lemma RankMonotone(T: seq<Byte>, p: nat, q: nat)
    requires p <= |T| && q <= |T|
    ensures Less(T, p, q) <==> Rank(T, p) < Rank(T, q)
    ensures p == q <==> Rank(T, p) == Rank(T, q)
  {
    if p == q {
      LessIrreflexive(T, p);
    } else {
      var i, j := Rank(T, p), Rank(T, q);
      if 0 <= i < j { InOrder(T, i, j); }
      if 0 <= j < i { InOrder(T, j, i); }
      LessTotal(T, p, q);
      if Less(T, p, q) { LessAsymmetric(T, p, q); } else { LessAsymmetric(T, q, p); }
    }
  }

  lemma RankOf(T: seq<Byte>, k: nat)
    requires k < |T|
    ensures Rank(T, SuffixArray(T)[k]) == k
  {
    SuffixArrayIsSuffixArray(T);
    SortedDistinct(T, SuffixArray(T));
  }

  /** A strictly increasing sequence of n numbers below n is 0, 1, ..., n-1. */
  lemma IncreasingIsIdentity(f: seq<int>)
    requires forall i :: 0 <= i < |f| ==> 0 <= f[i] < |f|
    requires forall i, j :: 0 <= i < j < |f| ==> f[i] < f[j]
    ensures forall i :: 0 <= i < |f| ==> f[i] == i
  {
    var k := 0;
    while k < |f|
      invariant 0 <= k <= |f|
      invariant forall i :: 0 <= i < k ==> i <= f[i]
    {
      assert k > 0 ==> f[k - 1] < f[k];
      k := k + 1;
    }
    while k > 0
      invariant 0 <= k <= |f|
      invariant forall i :: 0 <= i < |f| ==> i <= f[i]
      invariant forall i :: k <= i < |f| ==> f[i] == i
    {
      assert k < |f| ==> f[k - 1] < f[k];
      k := k - 1;
    }
  }

  /** The suffix array is unique: any two answers of two routes are equal. */
  lemma SuffixArrayUnique(T: seq<Byte>, R: seq<nat>)
    requires IsSuffixArray(T, R)
    ensures R == SuffixArray(T)
  {
    var f := seq(|T|, (k: int) requires 0 <= k < |T| => Rank(T, R[k]));
    forall i, j | 0 <= i < j < |f| ensures f[i] < f[j] { RankMonotone(T, R[i], R[j]); }
    IncreasingIsIdentity(f);
    assert forall k :: 0 <= k < |T| ==> f[k] == k && SuffixArray(T)[k] == R[k];
  }
}
