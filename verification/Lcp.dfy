/** Longest-common-prefix arrays: Phi, PLCP and LCP as computed from a suffix array. */
module Lcp {
  import opened Suffix

  /** Length of the longest common prefix of suffixes i and j. */
  ghost function Common(T: seq<Byte>, i: nat, j: nat): (l: nat)
    requires i <= |T| && j <= |T|
    ensures i + l <= |T| && j + l <= |T|
    decreases |T| - i
  {
    if i < |T| && j < |T| && T[i] == T[j] then 1 + Common(T, i + 1, j + 1) else 0
  }

  /** The suffix just before suffix p in suffix order; |T| for the smallest suffix. */
  ghost function Phi(T: seq<Byte>, p: nat): (q: nat)
    requires p < |T|
    ensures q <= |T|
  {
    var k := Rank(T, p);
    if k == 0 then |T| else SuffixArray(T)[k - 1]
  }

  /** Common prefix of suffix p with its predecessor in suffix order. */
  ghost function Plcp(T: seq<Byte>, p: nat): nat
    requires p < |T|
  {
    Common(T, p, Phi(T, p))
  }

  /** Common prefix of the suffixes in slots k - 1 and k; 0 for the first slot. */
  ghost function Neighbours(T: seq<Byte>, k: nat): nat
    requires k < |T|
  {
    if k == 0 then 0 else Common(T, SuffixArray(T)[k - 1], SuffixArray(T)[k])
  }

  lemma {:induction false} CommonSymmetric(T: seq<Byte>, i: nat, j: nat)
    requires i <= |T| && j <= |T|
    ensures Common(T, i, j) == Common(T, j, i)
    decreases |T| - i
  {
    if i < |T| && j < |T| && T[i] == T[j] {
      CommonSymmetric(T, i + 1, j + 1);
    }
  }

  /** The closer suffix shares at least as much. */
  lemma {:induction false} CommonBetween(T: seq<Byte>, a: nat, b: nat, c: nat)
    requires a <= |T| && b <= |T| && c <= |T|
    requires a == b || Less(T, a, b)
    requires Less(T, b, c)
    ensures Common(T, a, c) <= Common(T, b, c)
    decreases |T| - c
  {
    if a < |T| && T[a] == T[c] {
      if a == b {
      } else {
        assert T[b] == T[c];
        CommonBetween(T, a + 1, b + 1, c + 1);
      }
    }
  }

  /** The common prefix goes on exactly while both suffixes have a byte and the bytes agree. */
  lemma {:induction false} CommonStep(T: seq<Byte>, i: nat, j: nat, l: nat)
    requires i <= |T| && j <= |T| && l <= Common(T, i, j)
    ensures l < Common(T, i, j) <==> i + l < |T| && j + l < |T| && T[i + l] == T[j + l]
    decreases l
  {
    if l > 0 {
      CommonStep(T, i + 1, j + 1, l - 1);
    }
  }

  lemma PhiIsPredecessor(T: seq<Byte>, p: nat)
    requires p < |T|
    ensures Less(T, Phi(T, p), p)
    ensures forall q :: 0 <= q < |T| && Less(T, q, p) ==> q == Phi(T, p) || Less(T, q, Phi(T, p))
  {
    var k := Rank(T, p);
    if k > 0 { InOrder(T, k - 1, k); }
    forall q | 0 <= q < |T| && Less(T, q, p) ensures q == Phi(T, p) || Less(T, q, Phi(T, p)) {
      RankMonotone(T, q, p);
      if Rank(T, q) < k - 1 { InOrder(T, Rank(T, q), k - 1); }
    }
  }

  /** Why the carried length needs no reset: one position further the common prefix with the
      predecessor shrinks by at most one. */
  lemma PlcpShrinksByOne(T: seq<Byte>, p: nat)
    requires p + 1 < |T|
    ensures Plcp(T, p + 1) >= Plcp(T, p) - 1
  {
    var q := Phi(T, p);
    PhiIsPredecessor(T, p);
    if Plcp(T, p) >= 2 {
      PhiIsPredecessor(T, p + 1);
      CommonBetween(T, q + 1, Phi(T, p + 1), p + 1);
      CommonSymmetric(T, p + 1, q + 1);
      CommonSymmetric(T, p + 1, Phi(T, p + 1));
    }
  }

  // ---------- the code (one block, one thread) ----------

  method ComputePhi(T: seq<Byte>, SA: seq<int>, PLCP: array<int>)
    requires SA == SuffixArray(T) && PLCP.Length == |T|
    modifies PLCP
    ensures forall p :: 0 <= p < |T| ==> PLCP[p] == Phi(T, p)
  {
    var k := |T|;
    for i := 0 to |T|
      invariant k == if i == 0 then |T| else SA[i - 1]
      invariant forall p :: 0 <= p < |T| && Rank(T, p) < i ==> PLCP[p] == Phi(T, p)
    {
      hide Phi;
      assert Phi(T, SA[i]) == k by { RankOf(T, i); PhiAt(T, i); }
      RankOf(T, i);
      PLCP[SA[i]] := k;
      k := SA[i];
    }
  }

  lemma PhiAt(T: seq<Byte>, i: nat)
    requires i < |T|
    ensures Phi(T, SuffixArray(T)[i]) == if i == 0 then |T| else SuffixArray(T)[i - 1]
  {
    RankOf(T, i);
  }

  /** Turns Phi into PLCP in place. l is carried from one position to the next and only ever
      decremented by one; steps counts the byte comparisons that matched. */
  method ComputePlcp(T: seq<Byte>, PLCP: array<int>) returns (steps: nat)
    requires PLCP.Length == |T|
    requires forall p :: 0 <= p < |T| ==> PLCP[p] == Phi(T, p)
    modifies PLCP
    ensures forall p :: 0 <= p < |T| ==> PLCP[p] == Plcp(T, p)
    ensures steps <= |T|
  {
    var n := |T|;
    var l := 0;
    steps := 0;
    for i := 0 to n
      invariant 0 <= l && steps <= i + l && (i == n ==> l == 0)
      invariant i < n ==> l <= Plcp(T, i)
      invariant forall p :: 0 <= p < i ==> PLCP[p] == Plcp(T, p)
      invariant forall p :: i <= p < n ==> PLCP[p] == Phi(T, p)
    {
      hide Phi;
      var k := PLCP[i];
      var len := ExtendMatch(T, i, k, l);
      steps := steps + (len - l);
      l := len;
      PLCP[i] := l;
      if i + 1 < n { PlcpShrinksByOne(T, i); }
      l := l - if l != 0 then 1 else 0;
    }
  }

  /** The inner loop, from a length already known to match. */
  method ExtendMatch(T: seq<Byte>, i: nat, k: nat, l0: nat) returns (l: nat)
    requires i < |T| && k <= |T| && l0 <= Common(T, i, k)
    ensures l == Common(T, i, k) >= l0
  {
    l := l0;
    var m := |T| - if i > k then i else k;
    CommonStep(T, i, k, l);
    while l < m && T[i + l] == T[k + l]
      invariant l0 <= l <= Common(T, i, k)
      invariant l < Common(T, i, k) <==> l < m && T[i + l] == T[k + l]
    {
      l := l + 1;
      CommonStep(T, i, k, l);
    }
  }

  method ComputeLcp(T: seq<Byte>, PLCP: seq<int>, SA: seq<int>, LCP: array<int>)
    requires SA == SuffixArray(T) && |PLCP| == |T| == LCP.Length
    requires forall p :: 0 <= p < |T| ==> PLCP[p] == Plcp(T, p)
    modifies LCP
    ensures forall k :: 0 <= k < |T| ==> LCP[k] == Neighbours(T, k)
  {
    for i := 0 to |T|
      invariant forall k :: 0 <= k < i ==> LCP[k] == Plcp(T, SuffixArray(T)[k])
    {
      hide Plcp;
      LCP[i] := PLCP[SA[i]];
    }
    hide *;
    forall k | 0 <= k < |T| ensures Plcp(T, SuffixArray(T)[k]) == Neighbours(T, k) { PlcpAt(T, k); }
  }

  lemma PlcpAt(T: seq<Byte>, k: nat)
    requires k < |T|
    ensures Plcp(T, SuffixArray(T)[k]) == Neighbours(T, k)
  {
    PhiAt(T, k);
    if k > 0 { CommonSymmetric(T, SuffixArray(T)[k], SuffixArray(T)[k - 1]); }
  }
}
