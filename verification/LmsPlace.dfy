/** Spreading the compact list of sorted LMS suffixes over the tails of their buckets, in place. */
module LmsPlace {
  import opened Suffix
  import opened Buckets
  import opened InduceLeft

  ghost function LmsWithByteBelow(T: seq<Byte>, c: int): int -> bool
  {
    (p: int) => Lms(T, p) && T[p] < c
  }

  /** Number of LMS suffixes whose first byte is below c. */
  ghost function LmsBelow(T: seq<Byte>, c: int): nat
  {
    CountIf(|T|, LmsWithByteBelow(T, c))
  }

  /** L is the list of all LMS suffixes in suffix order. */
  ghost predicate SortedLms(T: seq<Byte>, L: seq<Int32>)
  {
    && (forall x :: 0 <= x < |L| ==> Lms(T, L[x]))
    && (forall x, y :: 0 <= x < y < |L| ==> Less(T, L[x], L[y]))
    && (forall p :: Lms(T, p) ==> p in L)
  }

  /** An LMS suffix has a larger byte before it, so its own is not 255. */
  lemma NoLmsInLastBucket(T: seq<Byte>)
    ensures LmsBelow(T, 256) == LmsBelow(T, 255)
  {
    CountMonotone(|T|, LmsWithByteBelow(T, 255), LmsWithByteBelow(T, 256));
    CountMonotone(|T|, LmsWithByteBelow(T, 256), LmsWithByteBelow(T, 255));
  }

  /** The list is grouped by first byte. */
  lemma ListGroups(T: seq<Byte>, L: seq<Int32>, c: int)
    requires SortedLms(T, L)
    ensures LmsBelow(T, c) <= |L|
    ensures forall x :: 0 <= x < |L| ==> (x < LmsBelow(T, c) <==> T[L[x]] < c)
  {
    var m := 0;
    while m < |L| && T[L[m]] < c
      invariant 0 <= m <= |L|
      invariant forall x :: 0 <= x < m ==> T[L[x]] < c
    {
      m := m + 1;
    }
    forall x | m <= x < |L| ensures T[L[x]] >= c {
      if x > m { assert Less(T, L[m], L[x]); }
    }
    forall x, y | 0 <= x < y < |L| ensures L[x] != L[y] { LessAsymmetric(T, L[x], L[y]); }
    hide Less, SType;
    ListCardinality(|T|, L, LmsWithByteBelow(T, c), m);
  }

  /** The LMS suffixes of a bucket fit behind its L-type section, and there are at most as many LMS
      suffixes up to byte c as suffixes. */
  lemma LmsFit(T: seq<Byte>, c: int)
    ensures LmsBelow(T, c) <= LmsBelow(T, c + 1) <= End(T, c)
    ensures LEnd(T, c) <= End(T, c) - (LmsBelow(T, c + 1) - LmsBelow(T, c))
  {
    CountMonotone(|T|, LmsWithByteBelow(T, c), LmsWithByteBelow(T, c + 1));
    CountMonotone(|T|, LmsWithByteBelow(T, c + 1), FirstByteBelow(T, c + 1));
    LmsFitCount(|T|, T, c);
  }

  lemma {:induction false} LmsFitCount(n: nat, T: seq<Byte>, c: int)
    requires n <= |T|
    ensures CountIf(n, LmsWithByteBelow(T, c + 1)) + CountIf(n, BelowOrLType(T, c))
            <= CountIf(n, LmsWithByteBelow(T, c)) + CountIf(n, FirstByteBelow(T, c + 1))
  {
    if n > 0 {
      LmsFitCount(n - 1, T, c);
    }
  }

  // ---------- the part already placed ----------

  /** Slots from j on hold the LMS suffixes with first byte at least d, in suffix order and each
      behind the L-type section of its bucket; everything else there is 0. */
  ghost predicate PlacedFrom(T: seq<Byte>, d: int, j: nat, S: seq<Int32>)
  {
    && (forall k :: j <= k < |S| && S[k] != 0 ==> PlacedAt(T, d, k, S[k]))
    && (forall p :: Lms(T, p) && T[p] >= d ==> exists k :: j <= k < |S| && S[k] == p)
    && (forall x, y :: j <= x < y < |S| && S[x] != 0 && S[y] != 0 ==> Less(T, S[x], S[y]))
  }

  ghost predicate PlacedAt(T: seq<Byte>, d: int, k: int, p: int)
  {
    Lms(T, p) && d <= T[p] && LEnd(T, T[p]) <= k < End(T, T[p])
  }

  lemma PlacedFromZero(T: seq<Byte>, j: nat, S: seq<Int32>, S2: seq<Int32>)
    requires |S| == |S2| == |T| && j <= |S| && PlacedFrom(T, 0, j, S)
    requires forall k :: 0 <= k < |S| ==> S2[k] == if k < j then 0 else S[k]
    ensures LmsPlaced(T, S2)
  {
    hide Less, SType, End, LEnd;
    forall k | 0 <= k < |S2| && S2[k] != 0 ensures PlacedAt(T, 0, k, S2[k]) {
    }
    forall p | Lms(T, p) ensures p in S2 {
      var k :| j <= k < |S| && S[k] == p;
      assert S2[k] == p;
    }
  }

  /** S2 is S with the block of bucket c, list entries m-l..m, moved to the bucket's tail and the gap
      between the bucket's end i and the placed part cleared. */
  ghost predicate BlockMoved(L: seq<Int32>, m: int, l: int, i: int, j: int, S: seq<Int32>, S2: seq<Int32>)
  {
    && |S2| == |S| && 0 <= l <= m <= |L| && 0 <= i - l && i <= j <= |S|
    && (forall k :: i - l <= k < i ==> S2[k] == L[k - i + m])
    && (forall k :: i <= k < j ==> S2[k] == 0)
    && (forall k :: j <= k < |S| ==> S2[k] == S[k])
  }

  /** The entries of the block. */
  lemma BlockEntries(T: seq<Byte>, L: seq<Int32>, c: int, x: nat)
    requires SortedLms(T, L) && x < |L|
    ensures LmsBelow(T, c) <= x < LmsBelow(T, c + 1) <==> T[L[x]] == c
    ensures LmsBelow(T, c) <= LmsBelow(T, c + 1) <= |L|
  {
    ListGroups(T, L, c);
    ListGroups(T, L, c + 1);
    LmsFit(T, c);
  }

  lemma BlockPlacedAt(T: seq<Byte>, L: seq<Int32>, c: int, S: seq<Int32>, S2: seq<Int32>, j: nat, k: int)
    requires SortedLms(T, L) && PlacedFrom(T, c + 1, j, S)
    requires BlockMoved(L, LmsBelow(T, c + 1), LmsBelow(T, c + 1) - LmsBelow(T, c), End(T, c), j, S, S2)
    requires End(T, c) - (LmsBelow(T, c + 1) - LmsBelow(T, c)) <= k < |S2| && S2[k] != 0
    ensures PlacedAt(T, c, k, S2[k])
    ensures k < End(T, c) ==> T[S2[k]] == c
  {
    hide Less, SType;
    if k < End(T, c) {
      BlockEntries(T, L, c, k - End(T, c) + LmsBelow(T, c + 1));
      LmsFit(T, c);
    } else {
      assert PlacedAt(T, c + 1, k, S[k]);
    }
  }

  lemma BlockComplete(T: seq<Byte>, L: seq<Int32>, c: int, S: seq<Int32>, S2: seq<Int32>, j: nat, p: int)
    returns (k: int)
    requires SortedLms(T, L) && PlacedFrom(T, c + 1, j, S)
    requires BlockMoved(L, LmsBelow(T, c + 1), LmsBelow(T, c + 1) - LmsBelow(T, c), End(T, c), j, S, S2)
    requires Lms(T, p) && T[p] >= c
    ensures End(T, c) - (LmsBelow(T, c + 1) - LmsBelow(T, c)) <= k < |S2| && S2[k] == p
  {
    hide Less, SType;
    if T[p] == c {
      assert p in L;
      var x :| 0 <= x < |L| && L[x] == p;
      BlockEntries(T, L, c, x);
      k := End(T, c) - LmsBelow(T, c + 1) + x;
    } else {
      k :| j <= k < |S| && S[k] == p;
    }
  }

  lemma BlockOrder(T: seq<Byte>, L: seq<Int32>, c: int, S: seq<Int32>, S2: seq<Int32>, j: nat, x: int, y: int)
    requires SortedLms(T, L) && PlacedFrom(T, c + 1, j, S)
    requires BlockMoved(L, LmsBelow(T, c + 1), LmsBelow(T, c + 1) - LmsBelow(T, c), End(T, c), j, S, S2)
    requires End(T, c) - (LmsBelow(T, c + 1) - LmsBelow(T, c)) <= x < y < |S2| && S2[x] != 0 && S2[y] != 0
    requires PlacedAt(T, c, x, S2[x]) && PlacedAt(T, c, y, S2[y])
    ensures Less(T, S2[x], S2[y])
  {
    hide SType;
    if x < End(T, c) <= y {
      BlockPlacedAt(T, L, c, S, S2, j, x);
      assert PlacedAt(T, c + 1, y, S[y]);
    }
  }

  lemma PlacedFromBlock(T: seq<Byte>, L: seq<Int32>, c: int, S: seq<Int32>, S2: seq<Int32>, j: nat)
    requires SortedLms(T, L) && PlacedFrom(T, c + 1, j, S)
    requires BlockMoved(L, LmsBelow(T, c + 1), LmsBelow(T, c + 1) - LmsBelow(T, c), End(T, c), j, S, S2)
    ensures PlacedFrom(T, c, End(T, c) - (LmsBelow(T, c + 1) - LmsBelow(T, c)), S2)
  {
    hide SortedLms, Less, SType, LEnd, End, LmsBelow;
    var j' := End(T, c) - (LmsBelow(T, c + 1) - LmsBelow(T, c));
    assert |S2| == |S| && 0 <= j';
    hide PlacedFrom;
    forall k | j' <= k < |S2| && S2[k] != 0 ensures PlacedAt(T, c, k, S2[k]) {
      BlockPlacedAt(T, L, c, S, S2, j, k);
    }
    forall p | Lms(T, p) && T[p] >= c ensures exists k :: j' <= k < |S2| && S2[k] == p {
      var k := BlockComplete(T, L, c, S, S2, j, p);
    }
    forall x, y | j' <= x < y < |S2| && S2[x] != 0 && S2[y] != 0
      ensures Less(T, S2[x], S2[y])
    {
      BlockOrder(T, L, c, S, S2, j, x, y);
    }
  }

  // ---------- the code ----------

  method MemSetZero(SA: array<Int32>, from: nat, to: nat)
    requires from <= to <= SA.Length
    modifies SA
    ensures forall k :: 0 <= k < SA.Length ==> SA[k] == if from <= k < to then 0 else old(SA[k])
  {
    forall k | from <= k < to { SA[k] := 0; }
  }

  method MemMove(SA: array<Int32>, dst: nat, src: nat, len: nat)
    requires dst + len <= SA.Length && src + len <= SA.Length
    modifies SA
    ensures forall k :: dst <= k < dst + len ==> SA[k] == old(SA[src + k - dst])
    ensures forall k :: 0 <= k < dst || dst + len <= k < SA.Length ==> SA[k] == old(SA[k])
  {
    forall k | dst <= k < dst + len { SA[k] := SA[src + k - dst]; }
  }

  /** lmsStart[c] is the number of LMS suffixes with a first byte below c. */
  method PlaceLmsSuffixesInterval(ghost T: seq<Byte>, SA: array<Int32>, n: nat, m0: nat, lmsStart: array<int>, bucketEnd: array<int>)
    requires n == |T| == SA.Length <= SAINT_MAX && m0 <= n && SortedLms(T, SA[..m0])
    requires lmsStart.Length == 256 && bucketEnd.Length == 256
    requires forall c :: 0 <= c < 256 ==> lmsStart[c] == LmsBelow(T, c) && bucketEnd[c] == End(T, c)
    modifies SA
    ensures LmsPlaced(T, SA[..])
  {
    ghost var L := SA[..m0];
    var m, j := m0, n;
    PlaceStart(T, L, SA[..]);
    hide SortedLms, PlacedFrom, LmsPlaced, LmsBelow, End;
    var c := 254;
    while c >= 0
      invariant -1 <= c < 255
      invariant m == LmsBelow(T, c + 1) <= m0 && m <= j <= n && End(T, c) <= j
      invariant SA[..m] == L[..m]
      invariant PlacedFrom(T, c + 1, j, SA[..])
    {
      m, j := PlaceBlock(T, L, SA, c, m, j, lmsStart[c + 1] - lmsStart[c], bucketEnd[c]);
      c := c - 1;
    }
    ghost var S := SA[..];
    MemSetZero(SA, 0, j);
    PlacedFromZero(T, j, S, SA[..]);
  }

  lemma PlaceStart(T: seq<Byte>, L: seq<Int32>, S: seq<Int32>)
    requires SortedLms(T, L) && |S| == |T|
    ensures |L| == LmsBelow(T, 255) <= |T| && End(T, 254) <= |T|
    ensures PlacedFrom(T, 255, |T|, S)
  {
    NoLmsInLastBucket(T);
    ListGroups(T, L, 256);
    if L != [] { assert T[L[|L| - 1]] < 256; }
    LmsFit(T, 254);
    StartMonotone(T, 255, 256);
  }

  /** Clears the gap and moves the block; source and target may overlap. */
  method MoveBlock(ghost L: seq<Int32>, SA: array<Int32>, m: nat, l: nat, i: nat, j: nat)
    requires l <= m <= i <= j <= SA.Length && m <= |L| && SA[..m] == L[..m]
    modifies SA
    ensures BlockMoved(L, m, l, i, j, old(SA[..]), SA[..]) && SA[..m - l] == L[..m - l]
  {
    ghost var S: seq<Int32> := SA[..];
    if j - i > 0 {
      MemSetZero(SA, i, j);
    }
    ghost var S1: seq<Int32> := SA[..];
    MemMove(SA, i - l, m - l, l);
    hide BlockMoved;
    MovedBlock(L, m, l, i, j, S, S1, SA[..]);
  }

  lemma MovedBlock(L: seq<Int32>, m: nat, l: nat, i: nat, j: nat, S: seq<Int32>, S1: seq<Int32>, S2: seq<Int32>)
    requires l <= m <= i <= j <= |S| == |S1| == |S2| && m <= |L| && S[..m] == L[..m]
    requires forall k :: 0 <= k < |S| ==> S1[k] == if i <= k < j then 0 else S[k]
    requires forall k :: i - l <= k < i ==> S2[k] == S1[m - l + k - (i - l)]
    requires forall k :: 0 <= k < i - l || i <= k < |S| ==> S2[k] == S1[k]
    ensures BlockMoved(L, m, l, i, j, S, S2) && S2[..m - l] == L[..m - l]
  {
    forall x | 0 <= x < m ensures S1[x] == L[x] { assert S[..m][x] == L[..m][x]; }
  }

  /** One round of the loop: bucket c with l LMS suffixes and end i. */
  method PlaceBlock(ghost T: seq<Byte>, ghost L: seq<Int32>, SA: array<Int32>, c: int, m: nat, j: nat, l: int, i: int)
    returns (m': nat, j': nat)
    requires 0 <= c < 255 && SortedLms(T, L) && |T| == SA.Length
    requires m == LmsBelow(T, c + 1) <= |L| && m <= j <= SA.Length && i == End(T, c) <= j
    requires l == LmsBelow(T, c + 1) - LmsBelow(T, c)
    requires SA[..m] == L[..m] && PlacedFrom(T, c + 1, j, SA[..])
    modifies SA
    ensures m' == LmsBelow(T, c) <= |L| && m' <= j' <= SA.Length && End(T, c - 1) <= j'
    ensures SA[..m'] == L[..m'] && PlacedFrom(T, c, j', SA[..])
  {
    m', j' := m, j;
    LmsFit(T, c);
    StartMonotone(T, c, c + 1);
    ghost var S: seq<Int32> := SA[..];
    if l > 0 {
      hide SortedLms, PlacedFrom, LmsBelow, Start, LEnd;
      j' := i - l;
      m' := m - l;
      MoveBlock(L, SA, m, l, i, j);
      ghost var S2: seq<Int32> := SA[..];
      PlacedFromBlock(T, L, c, S, S2, j);
    } else {
      EmptyBlock(T, L, c, j, S);
    }
  }

  lemma EmptyBlock(T: seq<Byte>, L: seq<Int32>, c: int, j: nat, S: seq<Int32>)
    requires SortedLms(T, L) && PlacedFrom(T, c + 1, j, S) && LmsBelow(T, c) == LmsBelow(T, c + 1)
    ensures PlacedFrom(T, c, j, S)
  {
    hide Less, SType, End, LEnd;
    forall p | Lms(T, p) && T[p] >= c ensures T[p] >= c + 1 {
      assert p in L;
      var x :| 0 <= x < |L| && L[x] == p;
      BlockEntries(T, L, c, x);
    }
    forall k | j <= k < |S| && S[k] != 0 ensures PlacedAt(T, c, k, S[k]) {
      assert PlacedAt(T, c + 1, k, S[k]);
    }
  }
}
