/** Second half of the final SA-IS induction: the right-to-left scan that places S-type suffixes
    and clears every mark, and the order it produces. */
module InduceRight {
  import opened Suffix
  import opened Buckets
  import opened InduceLeft

  /** x & SAINT_MAX in two's complement. */
  function Clear(x: Int32): Int32 {
    if x < 0 then x - SAINT_MIN else x
  }

  /** Slot k of the suffix array holds an S-type suffix. */
  ghost predicate SSlot(T: seq<Byte>, k: int)
  {
    0 <= k < |T| && SType(T, SuffixArray(T)[k])
  }

  /** S-slot k is filled when the successor of its suffix is read, which is at that successor's rank. */
  ghost function SFilledAt(T: seq<Byte>, k: nat): int
    requires k < |T|
  {
    Rank(T, SuffixArray(T)[k] + 1)
  }

  /** Stored form of S-type suffix p: marked when its predecessor is L-type. */
  ghost function RightMark(T: seq<Byte>, p: nat): int
    requires p < |T|
  {
    if p > 0 && !SType(T, p - 1) then p + SAINT_MIN else p
  }

  lemma SFilledBeforeRead(T: seq<Byte>, k: nat)
    requires SSlot(T, k)
    ensures k < SFilledAt(T, k)
  {
    var p := SuffixArray(T)[k];
    RankMonotone(T, p, p + 1);
    RankOf(T, k);
  }

  /** The S-slots of one bucket are filled from right to left. */
  lemma SFilledInOrder(T: seq<Byte>, j: nat, k: nat)
    requires j < k < |T| && SSlot(T, j) && SSlot(T, k)
    requires T[SuffixArray(T)[j]] == T[SuffixArray(T)[k]]
    ensures SFilledAt(T, j) < SFilledAt(T, k)
  {
    InOrder(T, j, k);
    SuccessorOrder(T, SuffixArray(T)[j], SuffixArray(T)[k]);
    RankMonotone(T, SuffixArray(T)[j] + 1, SuffixArray(T)[k] + 1);
  }

  lemma SuccessorOrder(T: seq<Byte>, p: nat, q: nat)
    requires p < |T| && q < |T| && T[p] == T[q] && Less(T, p, q)
    ensures Less(T, p + 1, q + 1)
  {
  }

  // ---------- the invariant ----------

  /** Once the slots from i on have been read, cursor B[c] separates the unfilled from the filled
      S-slots of bucket c. */
  ghost predicate RightCursors(T: seq<Byte>, i: int, B: seq<int>)
  {
    && |B| == 256
    && (forall c :: 0 <= c < 256 ==> LEnd(T, c) <= B[c] <= End(T, c))
    && (forall k :: SSlot(T, k) ==> (B[T[SuffixArray(T)[k]]] <= k <==> i <= SFilledAt(T, k)))
  }

  /** A filled S-slot holds its suffix, unmarked once it has been read. */
  ghost predicate SFilled(T: seq<Byte>, i: int, S: seq<Int32>)
    requires |S| == |T|
  {
    forall k :: SSlot(T, k) && i <= SFilledAt(T, k) ==>
                  S[k] == if i <= k then SuffixArray(T)[k] else RightMark(T, SuffixArray(T)[k])
  }

  /** L-slots are as the first scan left them until they are read and cleared. */
  ghost predicate LRest(T: seq<Byte>, i: int, S: seq<Int32>)
    requires |S| == |T|
  {
    forall k :: LSlot(T, k) ==>
                  S[k] == if i <= k then SuffixArray(T)[k] else Flipped(LeftMark(T, SuffixArray(T)[k]))
  }

  ghost predicate RightInv(T: seq<Byte>, i: int, S: seq<Int32>, B: seq<int>)
  {
    |S| == |T| && RightCursors(T, i, B) && SFilled(T, i, S) && LRest(T, i, S)
  }

  /** When the suffix that fills S-slot k is read, the cursor of k's bucket stands just behind k. */
  lemma RightCursor(T: seq<Byte>, i: int, B: seq<int>, k: nat)
    requires RightCursors(T, i + 1, B) && SSlot(T, k) && SFilledAt(T, k) == i
    ensures LEnd(T, T[SuffixArray(T)[k]]) <= k == B[T[SuffixArray(T)[k]]] - 1
  {
    hide SType, Less, SFilledAt;
    var c := T[SuffixArray(T)[k]];
    var d: int := c;
    SlotBounds(T, c, k);
    SlotBounds(T, d + 1, k);
    StartMonotone(T, d, d + 1);
    StartMonotone(T, d + 1, d + 2);
    if k < B[c] - 1 {
      SlotBounds(T, c, B[c] - 1);
      SlotBounds(T, d + 1, B[c] - 1);
      SFilledInOrder(T, k, B[c] - 1);
    }
  }

  /** Slot i as this scan finds it: the suffix of rank i, positive exactly when its predecessor is
      an S-type suffix still to be placed. */
  lemma RightRead(T: seq<Byte>, i: nat, S: seq<Int32>)
    requires i < |T| == |S| && |T| <= SAINT_MAX && SFilled(T, i + 1, S) && LRest(T, i + 1, S)
    ensures var q := SuffixArray(T)[i];
            Clear(S[i]) == q && (S[i] > 0 <==> q > 0 && SType(T, q - 1)) && (S[i] > 0 ==> S[i] == q)
  {
    hide Less, SType, SFilledAt;
    if SSlot(T, i) { SFilledBeforeRead(T, i); }
  }

  lemma RightCursorsStep(T: seq<Byte>, i: int, B: seq<int>, k0: nat)
    requires RightCursors(T, i + 1, B) && SSlot(T, k0)
    requires LEnd(T, T[SuffixArray(T)[k0]]) <= k0 == B[T[SuffixArray(T)[k0]]] - 1
    requires forall k :: SSlot(T, k) ==> (SFilledAt(T, k) == i <==> k == k0)
    ensures RightCursors(T, i, B[T[SuffixArray(T)[k0]] := k0])
  {
    hide SType, SFilledAt, End, LEnd;
  }

  lemma SFilledStep(T: seq<Byte>, i: nat, S: seq<Int32>, S2: seq<Int32>, k0: int)
    requires |S| == |S2| == |T| && SFilled(T, i + 1, S) && -1 <= k0 < i < |T|
    requires S2[i] == SuffixArray(T)[i]
    requires k0 >= 0 ==> S2[k0] == RightMark(T, SuffixArray(T)[k0])
    requires forall k :: 0 <= k < |T| && k != k0 && k != i ==> S2[k] == S[k]
    requires forall k :: SSlot(T, k) && SFilledAt(T, k) == i ==> k == k0
    ensures SFilled(T, i, S2)
  {
    hide SType, SFilledAt, RightMark;
  }

  lemma LRestStep(T: seq<Byte>, i: nat, S: seq<Int32>, S2: seq<Int32>, k0: int)
    requires |S| == |S2| == |T| && LRest(T, i + 1, S) && i < |T|
    requires S2[i] == SuffixArray(T)[i]
    requires k0 >= 0 ==> SSlot(T, k0)
    requires forall k :: 0 <= k < |T| && k != k0 && k != i ==> S2[k] == S[k]
    ensures LRest(T, i, S2)
  {
    hide SType, LeftMark;
  }

  /** Reading suffix q of rank i and writing its S-type predecessor below the cursor keeps the invariant. */
  lemma RightPlace(T: seq<Byte>, i: nat, S: seq<Int32>, B: seq<int>, S1: seq<Int32>)
    requires i < |T| <= SAINT_MAX && RightInv(T, i + 1, S, B)
    requires var q := SuffixArray(T)[i]; q > 0 && SType(T, q - 1)
    requires |S1| == |S| && forall k :: 0 <= k < |S| ==> S1[k] == if k == i then SuffixArray(T)[i] else S[k]
    ensures var q := SuffixArray(T)[i];
            && 1 <= B[T[q - 1]] <= |T|
            && RightInv(T, i, S1[B[T[q - 1]] - 1 := RightMark(T, q - 1)], B[T[q - 1] := B[T[q - 1]] - 1])
  {
    hide Less, SType, RightCursors, SFilled, LRest;
    var q := SuffixArray(T)[i];
    var k0 := Rank(T, q - 1);
    RankOf(T, i);
    forall k | SSlot(T, k) ensures SFilledAt(T, k) == i <==> k == k0 {
      RankOf(T, k);
      RankMonotone(T, SuffixArray(T)[k] + 1, q);
    }
    assert SSlot(T, k0);
    hide SSlot, Rank, SuffixArray, LEnd, RightMark;
    RightCursor(T, i, B, k0);
    SFilledBeforeRead(T, k0);
    var S2 := S1[k0 := RightMark(T, q - 1)];
    LRestStep(T, i, S, S2, k0);
    SFilledStep(T, i, S, S2, k0);
    RightCursorsStep(T, i, B, k0);
  }

  /** Reading a slot whose suffix has no S-type predecessor only clears the mark. */
  lemma RightSkip(T: seq<Byte>, i: nat, S: seq<Int32>, B: seq<int>, S1: seq<Int32>)
    requires i < |T| <= SAINT_MAX && RightInv(T, i + 1, S, B)
    requires var q := SuffixArray(T)[i]; q == 0 || !SType(T, q - 1)
    requires |S1| == |S| && forall k :: 0 <= k < |S| ==> S1[k] == if k == i then SuffixArray(T)[i] else S[k]
    ensures RightInv(T, i, S1, B)
  {
    hide Less, SType, SFilled, LRest;
    RankOf(T, i);
    forall k | SSlot(T, k) ensures SFilledAt(T, k) != i {
      RankMonotone(T, SuffixArray(T)[k] + 1, SuffixArray(T)[i]);
    }
    hide SSlot, SFilledAt;
    LRestStep(T, i, S, S1, -1);
    SFilledStep(T, i, S, S1, -1);
    assert RightCursors(T, i, B);
  }

  lemma RightStart(T: seq<Byte>, S: seq<Int32>, B: seq<int>)
    requires LSorted(T, S) && |B| == 256
    requires forall c :: 0 <= c < 256 ==> B[c] == End(T, c)
    ensures RightInv(T, |T|, S, B)
  {
    hide SType, Less, LeftMark;
    forall c | 0 <= c < 256 ensures LEnd(T, c) <= End(T, c) { StartMonotone(T, c, c + 1); }
    forall k | SSlot(T, k) ensures k < End(T, T[SuffixArray(T)[k]]) && SFilledAt(T, k) < |T| {
      var c: int := T[SuffixArray(T)[k]];
      SlotBounds(T, c + 1, k);
    }
    assert RightCursors(T, |T|, B);
    assert SFilled(T, |T|, S);
    assert LRest(T, |T|, S);
  }

  lemma RightDone(T: seq<Byte>, S: seq<Int32>, B: seq<int>)
    requires RightInv(T, 0, S, B)
    ensures S == SuffixArray(T)
  {
    hide RightCursors, Less;
    forall k | 0 <= k < |T| ensures S[k] == SuffixArray(T)[k] {
      if SSlot(T, k) {
        SFilledBeforeRead(T, k);
      } else {
        assert LSlot(T, k);
      }
    }
  }

  // ---------- the code ----------

  /** One iteration of the scan. */
  method RightStep(T: seq<Byte>, i: nat, SA: array<Int32>, bucket: array<int>)
    requires i < |T| == SA.Length <= SAINT_MAX && bucket.Length == 256
    requires RightInv(T, i + 1, SA[..], bucket[..])
    modifies SA, bucket
    ensures RightInv(T, i, SA[..], bucket[..])
  {
    hide SType, Less, RightCursors, SFilled, LRest;
    ghost var S, B := SA[..], bucket[..];
    RightRead(T, i, S);
    hide RightInv;
    var p := SA[i];
    SA[i] := Clear(p);
    ghost var S1: seq<Int32> := SA[..];
    if p > 0 {
      RightPlace(T, i, S, B, S1);
      p := p - 1;
      if p > 0 { TypeOfPredecessor(T, p); }
      bucket[T[p]] := bucket[T[p]] - 1;
      SA[bucket[T[p]]] := Mark(p, T[p - if p > 0 then 1 else 0] > T[p]);
      assert bucket[..] == B[T[p] := B[T[p]] - 1];
      assert SA[..] == S1[B[T[p]] - 1 := RightMark(T, p)];
    } else {
      RightSkip(T, i, S, B, S1);
    }
  }

  method FinalSortingScanRightToLeft(T: seq<Byte>, SA: array<Int32>, bucket: array<int>)
    requires |T| == SA.Length <= SAINT_MAX && bucket.Length == 256
    requires forall c :: 0 <= c < 256 ==> bucket[c] == End(T, c)
    requires LSorted(T, SA[..])
    modifies SA, bucket
    ensures SA[..] == SuffixArray(T)
  {
    hide RightInv, LSorted;
    RightStart(T, SA[..], bucket[..]);
    var i := |T| - 1;
    while i >= 0
      invariant -1 <= i < |T|
      invariant RightInv(T, i + 1, SA[..], bucket[..])
    {
      RightStep(T, i, SA, bucket);
      i := i - 1;
    }
    RightDone(T, SA[..], bucket[..]);
  }

  /** Final induction: from the sorted LMS suffixes to the suffix array, all marks cleared. */
  method InduceFinalOrder(T: seq<Byte>, SA: array<Int32>, bucketStart: array<int>, bucketEnd: array<int>)
    requires 2 <= |T| == SA.Length <= SAINT_MAX
    requires bucketStart.Length == 256 && bucketEnd.Length == 256 && bucketStart != bucketEnd
    requires forall c :: 0 <= c < 256 ==> bucketStart[c] == Start(T, c) && bucketEnd[c] == End(T, c)
    requires LmsPlaced(T, SA[..])
    modifies SA, bucketStart, bucketEnd
    ensures SA[..] == SuffixArray(T)
  {
    hide LmsPlaced, LSorted;
    FinalSortingScanLeftToRight(T, SA, bucketStart);
    FinalSortingScanRightToLeft(T, SA, bucketEnd);
  }
}
