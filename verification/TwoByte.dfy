/** Suffix array by two-byte buckets and a comparison sort inside each bucket. */
module TwoByte {
  import opened Suffix
  import opened Scatter
  import StdSort

  const BUCKETS: nat := 65536

  // ---------- comparing suffixes ----------

  /** memcmp of len bytes at a and b. */
  method Memcmp(T: seq<Byte>, a: nat, b: nat, len: nat) returns (c: int)
    requires a + len <= |T| && b + len <= |T|
    ensures c != 0 ==> (c < 0 <==> Less(T, a, b)) && (c > 0 <==> Less(T, b, a))
    ensures c == 0 ==> (Less(T, a, b) <==> Less(T, a + len, b + len))
  {
    var x := 0;
    while x < len
      invariant 0 <= x <= len
      invariant Less(T, a, b) <==> Less(T, a + x, b + x)
      invariant Less(T, b, a) <==> Less(T, b + x, a + x)
    {
      if T[a + x] != T[b + x] {
        return T[a + x] as int - T[b + x] as int;
      }
      x := x + 1;
    }
    c := 0;
  }

  /** The three-way comparison the tie sorts use is the suffix order. */
  method SuffixCmp(T: seq<Byte>, a: nat, b: nat) returns (c: int)
    requires a < |T| && b < |T|
    ensures c < 0 <==> Less(T, a, b)
    ensures c > 0 <==> Less(T, b, a)
    ensures c == 0 <==> a == b
  {
    var la, lb := |T| - a, |T| - b;
    var len := if la < lb then la else lb;
    c := Memcmp(T, a, b, len);
    if c == 0 {
      c := la - lb;
    }
    LessIrreflexive(T, a);
    if a != b {
      LessTotal(T, a, b);
      if Less(T, a, b) { LessAsymmetric(T, a, b); } else { LessAsymmetric(T, b, a); }
    }
  }

  /** Comparator passed to the sort. */
  function SuffixLess(T: seq<Byte>): (nat, nat) -> bool
  {
    (a: nat, b: nat) => a < |T| && b < |T| && Less(T, a, b)
  }

  lemma SuffixLessTotal(T: seq<Byte>, s: seq<nat>)
    requires forall x :: x in s ==> x < |T|
    ensures StdSort.TotalOrderOn(SuffixLess(T), s)
  {
    forall x | x in s ensures !SuffixLess(T)(x, x) { LessIrreflexive(T, x); }
    forall x, y | x in s && y in s && x != y ensures SuffixLess(T)(x, y) <==> !SuffixLess(T)(y, x) {
      LessTotal(T, x, y);
      if Less(T, x, y) { LessAsymmetric(T, x, y); }
    }
    forall x, y, z | x in s && y in s && z in s && SuffixLess(T)(x, y) && SuffixLess(T)(y, z)
      ensures SuffixLess(T)(x, z)
    {
      LessTransitive(T, x, y, z);
    }
  }

  // ---------- keys ----------

  /** Byte pair of position p; the last position is paired with 0. */
  function Pair(T: seq<Byte>, p: nat): int
    requires p < |T|
  {
    256 * (T[p] as int) + if p + 1 < |T| then T[p + 1] else 0
  }

  ghost function Pairs(T: seq<Byte>): (A: seq<int>)
    ensures |A| == |T|
    ensures forall p :: 0 <= p < |T| ==> A[p] == Pair(T, p) && 0 <= A[p] < BUCKETS
  {
    seq(|T|, (p: nat) requires p < |T| => Pair(T, p))
  }

  /** Bucket order never contradicts suffix order, although a final byte and a following 0 byte
      share a bucket. */
  lemma PairOrder(T: seq<Byte>, p: nat, q: nat)
    requires p < |T| && q < |T| && Pair(T, p) < Pair(T, q)
    ensures Less(T, p, q)
  {
    assert p + 1 < |T| && q + 1 < |T| && T[p] == T[q] && T[p + 1] < T[q + 1] ==> Less(T, p + 1, q + 1);
  }

  ghost function Positions(n: nat): (s: seq<nat>)
    ensures |s| == n && forall p :: 0 <= p < n ==> s[p] == p
  {
    seq(n, (p: nat) => p)
  }

  // ---------- the three linear phases ----------

  method CountPairs(T: seq<Byte>, bucket: array<int>)
    requires |T| >= 2 && bucket.Length == BUCKETS
    modifies bucket
    ensures forall c :: 0 <= c < BUCKETS ==> bucket[c] == CountKey(Pairs(T), |T|, c)
  {
    for c := 0 to BUCKETS
      invariant forall x :: 0 <= x < c ==> bucket[x] == 0
    {
      bucket[c] := 0;
    }
    var n := |T|;
    for i := 0 to n - 1
      invariant forall c :: 0 <= c < BUCKETS ==> bucket[c] == CountKey(Pairs(T), i, c)
    {
      var c := 256 * (T[i] as int) + T[i + 1] as int;
      assert Pairs(T)[i] == c;
      bucket[c] := bucket[c] + 1;
    }
    var c := 256 * (T[n - 1] as int);
    assert Pairs(T)[n - 1] == c;
    bucket[c] := bucket[c] + 1;
  }

  method PrefixSum(ghost A: seq<int>, bucket: array<int>, scatterIdx: array<int>) returns (total: int)
    requires bucket.Length == BUCKETS == scatterIdx.Length && bucket != scatterIdx
    requires forall c :: 0 <= c < BUCKETS ==> bucket[c] == CountKey(A, |A|, c)
    requires forall i :: 0 <= i < |A| ==> 0 <= A[i] < BUCKETS
    modifies scatterIdx
    ensures Cursors(A, 0, scatterIdx[..]) && total == |A|
  {
    total := 0;
    CountLessBounds(A, |A|, 0, BUCKETS);
    for b := 0 to BUCKETS
      invariant total == Offset(A, b)
      invariant forall c :: 0 <= c < b ==> scatterIdx[c] == Offset(A, c)
    {
      CountLessStep(A, |A|, b);
      scatterIdx[b] := total;
      total := total + bucket[b];
    }
  }

  method ScatterPositions(T: seq<Byte>, sa: array<nat>, scatterIdx: array<int>)
    requires |T| == sa.Length >= 2 && scatterIdx.Length == BUCKETS && Cursors(Pairs(T), 0, scatterIdx[..])
    modifies sa, scatterIdx
    ensures Scattered(Pairs(T), Positions(|T|), |T|, sa[..])
    ensures Cursors(Pairs(T), |T|, scatterIdx[..])
  {
    var n := |T|;
    for i := 0 to n - 1
      invariant Cursors(Pairs(T), i, scatterIdx[..])
      invariant Scattered(Pairs(T), Positions(n), i, sa[..])
    {
      ScatterOne(T, sa, scatterIdx, i, 256 * (T[i] as int) + T[i + 1] as int);
    }
    ScatterOne(T, sa, scatterIdx, n - 1, 256 * (T[n - 1] as int));
  }

  method ScatterOne(T: seq<Byte>, sa: array<nat>, scatterIdx: array<int>, i: nat, c: int)
    requires i < |T| == sa.Length && scatterIdx.Length == BUCKETS && c == Pair(T, i)
    requires Cursors(Pairs(T), i, scatterIdx[..]) && Scattered(Pairs(T), Positions(|T|), i, sa[..])
    modifies sa, scatterIdx
    ensures Cursors(Pairs(T), i + 1, scatterIdx[..]) && Scattered(Pairs(T), Positions(|T|), i + 1, sa[..])
  {
    ghost var A := Pairs(T);
    ghost var idx, dst := scatterIdx[..], sa[..];
    assert A[i] == c;
    CursorsStep(A, i, idx);
    ScatteredStep(A, Positions(|T|), i, dst);
    hide Cursors, Scattered;
    sa[scatterIdx[c]] := i;
    scatterIdx[c] := scatterIdx[c] + 1;
    assert sa[..] == dst[Dest(A, i) := i];
    assert scatterIdx[..] == idx[c := idx[c] + 1];
  }

  // ---------- sorting the buckets ----------

  /** Every slot holds a position of the bucket the slot belongs to. */
  ghost predicate Bucketed(T: seq<Byte>, S: seq<nat>)
  {
    && |S| == |T|
    && (forall k :: 0 <= k < |S| ==> S[k] < |T| && SlotOf(T, Pair(T, S[k]), k))
  }

  ghost predicate SlotOf(T: seq<Byte>, c: int, k: int)
  {
    Offset(Pairs(T), c) <= k < Offset(Pairs(T), c + 1)
  }

  /** Slots below start are in suffix order. */
  ghost predicate SortedBelow(T: seq<Byte>, start: nat, S: seq<nat>)
    requires forall k :: 0 <= k < |S| ==> S[k] < |T|
  {
    start <= |S| && forall x, y :: 0 <= x < y < start ==> Less(T, S[x], S[y])
  }

  lemma ScatteredBucketed(T: seq<Byte>, S: seq<nat>)
    requires |S| == |T| && Scattered(Pairs(T), Positions(|T|), |T|, S)
    ensures Bucketed(T, S) && StdSort.Distinct(S)
  {
    forall k | 0 <= k < |S| ensures S[k] < |T| && SlotOf(T, Pair(T, S[k]), k) {
      var i := ScatteredSlot(Pairs(T), Positions(|T|), S, k);
    }
    forall x, y | 0 <= x < y < |S| ensures S[x] != S[y] {
      var i := ScatteredSlot(Pairs(T), Positions(|T|), S, x);
      var j := ScatteredSlot(Pairs(T), Positions(|T|), S, y);
    }
  }

  lemma SlotOfUnique(T: seq<Byte>, c: int, d: int, k: int)
    requires SlotOf(T, c, k) && SlotOf(T, d, k)
    ensures c == d
  {
    if c < d { CountLessMonotone(Pairs(T), |T|, c + 1, d); }
    if d < c { CountLessMonotone(Pairs(T), |T|, d + 1, c); }
  }

  lemma SlotOfOrder(T: seq<Byte>, c: int, d: int, k: int, l: int)
    requires SlotOf(T, c, k) && SlotOf(T, d, l) && k < l
    ensures c <= d
  {
    if d < c { CountLessMonotone(Pairs(T), |T|, d + 1, c); }
  }

  /** Replacing bucket c by a sorted arrangement of its elements extends the sorted part. */
  lemma BucketSorted(T: seq<Byte>, c: int, lo: nat, hi: nat, S: seq<nat>, S2: seq<nat>)
    requires Bucketed(T, S) && |S2| == |S|
    requires lo == Offset(Pairs(T), c) <= hi == Offset(Pairs(T), c + 1) <= |S| && SortedBelow(T, lo, S)
    requires forall k :: 0 <= k < |S| && !(lo <= k < hi) ==> S2[k] == S[k]
    requires forall x :: x in S2[lo..hi] ==> x in S[lo..hi]
    requires StdSort.SortedBy(SuffixLess(T), S2[lo..hi]) && StdSort.Distinct(S2[lo..hi])
    ensures Bucketed(T, S2) && SortedBelow(T, hi, S2)
  {
    hide Less, Offset;
    forall k | 0 <= k < |S2| ensures S2[k] < |T| && SlotOf(T, Pair(T, S2[k]), k) {
      if lo <= k < hi {
        assert S2[lo..hi][k - lo] in S[lo..hi];
        var x :| 0 <= x < hi - lo && S[lo..hi][x] == S2[k];
        SlotOfUnique(T, c, Pair(T, S[lo + x]), lo + x);
      }
    }
    forall x, y | 0 <= x < y < hi ensures Less(T, S2[x], S2[y]) {
      if lo <= x {
        assert !SuffixLess(T)(S2[lo..hi][y - lo], S2[lo..hi][x - lo]) && S2[lo..hi][x - lo] != S2[lo..hi][y - lo];
        LessTotal(T, S2[x], S2[y]);
      } else if lo <= y {
        SlotOfOrder(T, Pair(T, S2[x]), Pair(T, S2[y]), x, y);
        SlotOfUnique(T, c, Pair(T, S2[y]), y);
        PairOrder(T, S2[x], S2[y]);
      }
    }
  }

  /** std::sort on sa[lo..hi). */
  method SortRange(T: seq<Byte>, sa: array<nat>, lo: nat, hi: nat)
    requires lo <= hi <= sa.Length && StdSort.Distinct(sa[lo..hi])
    requires forall k :: lo <= k < hi ==> sa[k] < |T|
    modifies sa
    ensures forall k :: 0 <= k < sa.Length && !(lo <= k < hi) ==> sa[k] == old(sa[k])
    ensures StdSort.SortedBy(SuffixLess(T), sa[lo..hi]) && StdSort.Distinct(sa[lo..hi])
    ensures multiset(sa[lo..hi]) == multiset(old(sa[lo..hi]))
    ensures forall x :: x in sa[lo..hi] ==> x in old(sa[lo..hi])
  {
    SuffixLessTotal(T, sa[lo..hi]);
    var r := StdSort.Sort(sa[lo..hi], SuffixLess(T));
    forall k | lo <= k < hi { sa[k] := r[k - lo]; }
    assert sa[lo..hi] == r;
  }

  method SortBuckets(T: seq<Byte>, sa: array<nat>, bucket: array<int>)
    requires |T| == sa.Length && bucket.Length == BUCKETS
    requires forall c :: 0 <= c < BUCKETS ==> bucket[c] == CountKey(Pairs(T), |T|, c)
    requires Bucketed(T, sa[..]) && StdSort.Distinct(sa[..])
    modifies sa
    ensures IsSuffixArray(T, sa[..])
  {
    var start := 0;
    CountLessBounds(Pairs(T), |T|, 0, BUCKETS);
    ghost var S0 := sa[..];
    for c := 0 to BUCKETS
      invariant start == Offset(Pairs(T), c) <= |T|
      invariant Bucketed(T, sa[..]) && SortedBelow(T, start, sa[..])
      invariant sa[start..] == S0[start..]
    {
      CountLessStep(Pairs(T), |T|, c);
      CountLessMonotone(Pairs(T), |T|, c + 1, c + 1);
      start := SortBucket(T, sa, c, start, start + bucket[c], S0);
    }
  }

  method SortBucket(T: seq<Byte>, sa: array<nat>, c: int, start: nat, end: nat, ghost S0: seq<nat>) returns (start': nat)
    requires |T| == sa.Length == |S0| && 0 <= c && StdSort.Distinct(S0)
    requires start == Offset(Pairs(T), c) <= end == Offset(Pairs(T), c + 1) <= |T|
    requires Bucketed(T, sa[..]) && SortedBelow(T, start, sa[..]) && sa[start..] == S0[start..]
    modifies sa
    ensures start' == end && Bucketed(T, sa[..]) && SortedBelow(T, end, sa[..]) && sa[end..] == S0[end..]
  {
    ghost var S: seq<nat> := sa[..];
    assert forall k :: 0 <= k < |T| ==> S[k] < |T|;
    hide Bucketed, SortedBelow, Offset, SuffixLess, StdSort.SortedBy;
    assert S[start..] == S0[start..];
    assert forall k :: start <= k < |T| ==> S[k] == S[start..][k - start] == S0[start..][k - start] == S0[k];
    assert S[start..end] == S0[start..end];
    if end > start + 1 {
      assert sa[start..end] == S0[start..end];
      SortRange(T, sa, start, end);
      assert sa[..][start..end] == sa[start..end];
    } else {
      AtMostOneSorted(T, sa[..][start..end]);
    }
    assert forall k :: 0 <= k < |T| && !(start <= k < end) ==> sa[..][k] == S[k];
    BucketSorted(T, c, start, end, S, sa[..]);
    assert forall k :: end <= k < |T| ==> sa[..][k] == S0[k];
    assert sa[end..] == S0[end..];
    start' := end;
  }

  lemma AtMostOneSorted(T: seq<Byte>, s: seq<nat>)
    requires |s| <= 1
    ensures StdSort.SortedBy(SuffixLess(T), s) && StdSort.Distinct(s)
  {
  }

  /** The two-byte route produces exactly the suffix array, for every byte string. */
  method SaConstruct2Byte(T: seq<Byte>, sa: array<nat>)
    requires sa.Length == |T|
    modifies sa
    ensures sa[..] == SuffixArray(T)
  {
    var n := |T|;
    if n == 0 {
      return;
    }
    if n == 1 {
      sa[0] := 0;
      SuffixArrayUnique(T, sa[..]);
      return;
    }
    var bucket := new int[BUCKETS];
    var scatterIdx := new int[BUCKETS];
    CountPairs(T, bucket);
    var total := PrefixSum(Pairs(T), bucket, scatterIdx);
    ScatterPositions(T, sa, scatterIdx);
    ScatteredBucketed(T, sa[..]);
    SortBuckets(T, sa, bucket);
    SuffixArrayUnique(T, sa[..]);
  }
}
