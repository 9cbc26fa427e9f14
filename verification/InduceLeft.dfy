/** First half of the final SA-IS induction: the left-to-right scan that places L-type suffixes. */
module InduceLeft {
  import opened Suffix
  import opened Buckets

  type Int32 = x: int | -0x8000_0000 <= x < 0x8000_0000

  const SAINT_MAX: int := 0x7FFF_FFFF
  const SAINT_MIN: int := -0x8000_0000

  /** x ^ SAINT_MIN in two's complement. */
  function Flip(x: Int32): Int32 {
    if x >= 0 then x + SAINT_MIN else x - SAINT_MIN
  }

  /** x | (mark << 31) for a non-negative x. */
  function Mark(x: Int32, mark: bool): Int32
    requires x >= 0
  {
    if mark then x + SAINT_MIN else x
  }

  /** SA holds every LMS suffix in the part of its bucket behind the L-type suffixes, the LMS
      suffixes appear in suffix order, and all other slots hold 0. */
  ghost predicate LmsPlaced(T: seq<Byte>, S: seq<Int32>)
  {
    && |S| == |T|
    && (forall k :: 0 <= k < |S| && S[k] != 0 ==> Lms(T, S[k]) && LEnd(T, T[S[k]]) <= k < End(T, T[S[k]]))
    && (forall p :: Lms(T, p) ==> p in S)
    && (forall i, j :: 0 <= i < j < |S| && S[i] != 0 && S[j] != 0 ==> Less(T, S[i], S[j]))
  }

  // ---------- when a suffix is read by the scan ----------

  /** The suffixes the left-to-right scan reads: L-type, LMS, and the empty suffix (read first). */
  ghost predicate Scanned(T: seq<Byte>, p: int)
  {
    0 <= p <= |T| && (p == |T| || !SType(T, p) || Lms(T, p))
  }

  /** The slot in which the scan reads suffix p: an L-type suffix in its final slot, an LMS suffix
      where it was put at the start, the empty suffix before slot 0. */
  ghost function ReadSlot(T: seq<Byte>, S0: seq<Int32>, p: nat): int
    requires p <= |T|
  {
    if p < |T| && Lms(T, p) && p in S0 then
      var k :| 0 <= k < |S0| && S0[k] == p;
      k
    else Rank(T, p)
  }

  lemma LmsReadSlot(T: seq<Byte>, S0: seq<Int32>, p: nat)
    requires LmsPlaced(T, S0) && Lms(T, p)
    ensures LEnd(T, T[p]) <= ReadSlot(T, S0, p) < End(T, T[p])
    ensures 0 <= ReadSlot(T, S0, p) < |T| && S0[ReadSlot(T, S0, p)] == p
  {
    assert 0 < p < |T| && p in S0;
    hide Less, SType, Lms;
  }

  /** A scanned suffix is read inside its own bucket. */
  lemma ReadInBucket(T: seq<Byte>, S0: seq<Int32>, p: nat)
    requires LmsPlaced(T, S0) && p < |T| && Scanned(T, p)
    ensures Start(T, T[p]) <= ReadSlot(T, S0, p) < End(T, T[p])
    ensures SType(T, p) <==> LEnd(T, T[p]) <= ReadSlot(T, S0, p)
  {
    hide LmsPlaced, Less;
    RankInBucket(T, p);
    StartMonotone(T, T[p], 1 + T[p] as int);
    if Lms(T, p) { LmsReadSlot(T, S0, p); }
  }

  /** Suffixes are read in suffix order. */
  lemma ReadOrder(T: seq<Byte>, S0: seq<Int32>, p: nat, q: nat)
    requires LmsPlaced(T, S0)
    requires Scanned(T, p) && Scanned(T, q) && Less(T, p, q)
    ensures ReadSlot(T, S0, p) < ReadSlot(T, S0, q)
  {
    ReadInBucket(T, S0, q);
    if p < |T| {
      ReadInBucket(T, S0, p);
      if T[p] < T[q] {
        hide LmsPlaced, Less, SType, Lms;
        var c: int := T[p];
        if c + 1 < T[q] { StartMonotone(T, c + 1, T[q]); }
      } else {
        SameBucketReadOrder(T, S0, p, q);
      }
    }
  }

  lemma SameBucketReadOrder(T: seq<Byte>, S0: seq<Int32>, p: nat, q: nat)
    requires LmsPlaced(T, S0)
    requires p < |T| && q < |T| && Scanned(T, p) && Scanned(T, q) && Less(T, p, q) && T[p] == T[q]
    ensures ReadSlot(T, S0, p) < ReadSlot(T, S0, q)
  {
    LessAsymmetric(T, p, q);
    if SType(T, p) && SType(T, q) {
      LmsReadSlot(T, S0, p);
      LmsReadSlot(T, S0, q);
    } else if SType(T, p) {
      LBeforeS(T, q, p);
    } else if SType(T, q) {
      ReadInBucket(T, S0, p);
      ReadInBucket(T, S0, q);
    } else {
      RankMonotone(T, p, q);
    }
  }

  lemma ReadInjective(T: seq<Byte>, S0: seq<Int32>, p: nat, q: nat)
    requires LmsPlaced(T, S0) && Scanned(T, p) && Scanned(T, q)
    ensures ReadSlot(T, S0, p) == ReadSlot(T, S0, q) ==> p == q
  {
    hide LmsPlaced;
    if p != q {
      LessTotal(T, p, q);
      if Less(T, p, q) { ReadOrder(T, S0, p, q); } else { ReadOrder(T, S0, q, p); }
    }
  }

  // ---------- what the scan is waiting for ----------

  /** Slot k of the suffix array holds an L-type suffix. */
  ghost predicate LSlot(T: seq<Byte>, k: int)
  {
    0 <= k < |T| && !SType(T, SuffixArray(T)[k])
  }

  /** L-slot k is filled when the successor of its suffix is read. */
  ghost function FilledAt(T: seq<Byte>, S0: seq<Int32>, k: nat): int
    requires k < |T|
  {
    ReadSlot(T, S0, SuffixArray(T)[k] + 1)
  }

  lemma ScannedSuccessor(T: seq<Byte>, p: nat)
    requires p < |T| && !SType(T, p)
    ensures Scanned(T, p + 1) && Less(T, p + 1, p)
  {
    LTypeAfterSuccessor(T, p);
  }

  /** The L-slots of one bucket are filled from left to right. */
  lemma FilledInOrder(T: seq<Byte>, S0: seq<Int32>, j: nat, k: nat)
    requires LmsPlaced(T, S0) && j < k < |T| && LSlot(T, j) && LSlot(T, k)
    requires T[SuffixArray(T)[j]] == T[SuffixArray(T)[k]]
    ensures FilledAt(T, S0, j) < FilledAt(T, S0, k)
  {
    hide LmsPlaced, ReadSlot;
    InOrder(T, j, k);
    ScannedSuccessor(T, SuffixArray(T)[j]);
    ScannedSuccessor(T, SuffixArray(T)[k]);
    ReadOrder(T, S0, SuffixArray(T)[j] + 1, SuffixArray(T)[k] + 1);
  }

  /** Reading an L-type or LMS suffix q fills exactly the slot of its L-type predecessor. */
  lemma FilledByReading(T: seq<Byte>, S0: seq<Int32>, q: nat, k: nat)
    requires LmsPlaced(T, S0) && Scanned(T, q) && LSlot(T, k)
    ensures FilledAt(T, S0, k) == ReadSlot(T, S0, q) <==> SuffixArray(T)[k] + 1 == q
  {
    hide LmsPlaced, Less, ReadSlot;
    ScannedSuccessor(T, SuffixArray(T)[k]);
    ReadInjective(T, S0, SuffixArray(T)[k] + 1, q);
  }

  /** An L-slot is filled before the scan reads it, and never before the scan starts. */
  lemma FilledBeforeRead(T: seq<Byte>, S0: seq<Int32>, k: nat)
    requires LmsPlaced(T, S0) && LSlot(T, k)
    ensures -1 <= FilledAt(T, S0, k) < k
    ensures ReadSlot(T, S0, SuffixArray(T)[k]) == k
  {
    hide LmsPlaced, Less;
    var p := SuffixArray(T)[k];
    RankOf(T, k);
    ScannedSuccessor(T, p);
    ReadOrder(T, S0, p + 1, p);
    if p + 1 < |T| { ReadInBucket(T, S0, p + 1); }
  }

  // ---------- the invariant ----------

  ghost function Flipped(x: int): int {
    if x >= 0 then x + SAINT_MIN else x - SAINT_MIN
  }

  /** Stored form of L-type suffix p: marked when its predecessor is S-type, so that this scan
      does not induce from it. */
  ghost function LeftMark(T: seq<Byte>, p: nat): int
    requires p < |T|
  {
    if p > 0 && SType(T, p - 1) then p + SAINT_MIN else p
  }

  /** Once the slots below i have been read, cursor B[c] separates the filled from the unfilled
      L-slots of bucket c. */
  ghost predicate LeftCursors(T: seq<Byte>, S0: seq<Int32>, i: int, B: seq<int>)
  {
    && |B| == 256
    && (forall c :: 0 <= c < 256 ==> Start(T, c) <= B[c] <= LEnd(T, c))
    && (forall k :: LSlot(T, k) ==> (k < B[T[SuffixArray(T)[k]]] <==> FilledAt(T, S0, k) < i))
  }

  /** A filled slot holds its suffix; slots below i are already flipped. */
  ghost predicate LeftFilled(T: seq<Byte>, S0: seq<Int32>, i: int, S: seq<Int32>)
    requires |S| == |T|
  {
    forall k :: LSlot(T, k) && FilledAt(T, S0, k) < i ==>
                  S[k] == if k < i then Flipped(LeftMark(T, SuffixArray(T)[k])) else LeftMark(T, SuffixArray(T)[k])
  }

  /** Unread slots behind the L-type section of their bucket are as they were at the start. */
  ghost predicate LmsRest(T: seq<Byte>, S0: seq<Int32>, i: int, S: seq<Int32>)
    requires |S| == |T| && |S0| == |T|
  {
    forall k :: 0 <= k < |T| && i <= k && !LSlot(T, k) ==> S[k] == S0[k]
  }

  ghost predicate LeftInv(T: seq<Byte>, S0: seq<Int32>, i: int, S: seq<Int32>, B: seq<int>)
  {
    |S0| == |T| && |S| == |T| && LeftCursors(T, S0, i, B) && LeftFilled(T, S0, i, S) && LmsRest(T, S0, i, S)
  }

  /** When the suffix that fills slot k is read, the cursor of k's bucket stands at k. */
  lemma LeftCursor(T: seq<Byte>, S0: seq<Int32>, i: int, B: seq<int>, k: nat)
    requires LmsPlaced(T, S0) && LeftCursors(T, S0, i, B) && LSlot(T, k) && FilledAt(T, S0, k) == i
    ensures B[T[SuffixArray(T)[k]]] == k < LEnd(T, T[SuffixArray(T)[k]])
  {
    hide LmsPlaced, Less, SType, FilledAt;
    var c := T[SuffixArray(T)[k]];
    SlotBounds(T, c, k);
    if B[c] < k {
      SlotBounds(T, c, B[c]);
      FilledInOrder(T, S0, B[c], k);
    }
  }

  /** Slot i as the scan finds it. q == -1 when the slot holds no suffix the scan reads. */
  lemma LeftRead(T: seq<Byte>, S0: seq<Int32>, i: nat, S: seq<Int32>) returns (q: int)
    requires LmsPlaced(T, S0) && i < |T| == |S| && LeftFilled(T, S0, i, S) && LmsRest(T, S0, i, S)
    ensures q == -1 ==> S[i] == 0 && forall p :: Scanned(T, p) ==> ReadSlot(T, S0, p) != i
    ensures q != -1 ==> 0 <= q < |T| && Scanned(T, q) && ReadSlot(T, S0, q) == i && S[i] == LeftMark(T, q)
  {
    if LSlot(T, i) {
      hide LmsPlaced, Less;
      FilledBeforeRead(T, S0, i);
      q := SuffixArray(T)[i];
    } else if S0[i] != 0 {
      q := S0[i];
      LmsReadBack(T, S0, i);
    } else {
      q := -1;
      forall p | Scanned(T, p) ensures ReadSlot(T, S0, p) != i { ReadNonzero(T, S0, i, p); }
    }
  }

  lemma LmsReadBack(T: seq<Byte>, S0: seq<Int32>, i: nat)
    requires LmsPlaced(T, S0) && i < |T| && S0[i] != 0
    ensures Lms(T, S0[i]) && ReadSlot(T, S0, S0[i]) == i
  {
    LmsReadSlot(T, S0, S0[i]);
    LessIrreflexive(T, S0[i]);
  }

  lemma ReadNonzero(T: seq<Byte>, S0: seq<Int32>, i: nat, p: nat)
    requires LmsPlaced(T, S0) && i < |T| && S0[i] == 0 && !LSlot(T, i) && Scanned(T, p)
    ensures ReadSlot(T, S0, p) != i
  {
    hide Less, SType;
    if Lms(T, p) { LmsReadSlot(T, S0, p); }
  }

  lemma LeftCursorsStep(T: seq<Byte>, S0: seq<Int32>, i: int, B: seq<int>, k0: nat)
    requires LeftCursors(T, S0, i, B) && LSlot(T, k0)
    requires B[T[SuffixArray(T)[k0]]] == k0 < LEnd(T, T[SuffixArray(T)[k0]])
    requires forall k :: LSlot(T, k) ==> (FilledAt(T, S0, k) == i <==> k == k0)
    ensures LeftCursors(T, S0, i + 1, B[T[SuffixArray(T)[k0]] := k0 + 1])
  {
    hide SType, FilledAt, Start, LEnd;
  }

  lemma LeftFilledStep(T: seq<Byte>, S0: seq<Int32>, i: int, S: seq<Int32>, S2: seq<Int32>, k0: nat)
    requires |S| == |S2| == |T| <= SAINT_MAX && LeftFilled(T, S0, i, S)
    requires -1 <= i < k0 < |T| && S2[k0] == LeftMark(T, SuffixArray(T)[k0])
    requires forall k :: 0 <= k < |T| && k != k0 ==> S2[k] == if k == i then Flip(S[k]) else S[k]
    requires forall k :: LSlot(T, k) && FilledAt(T, S0, k) == i ==> k == k0
    ensures LeftFilled(T, S0, i + 1, S2)
  {
    hide SType, FilledAt;
  }

  lemma OneSlotFilled(T: seq<Byte>, S0: seq<Int32>, q: nat)
    requires LmsPlaced(T, S0) && 0 < q && Scanned(T, q) && !SType(T, q - 1)
    ensures LSlot(T, Rank(T, q - 1)) && SuffixArray(T)[Rank(T, q - 1)] == q - 1
    ensures forall k :: LSlot(T, k) ==> (FilledAt(T, S0, k) == ReadSlot(T, S0, q) <==> k == Rank(T, q - 1))
  {
    assert q <= |T|;
    hide LmsPlaced, Less, SType, Scanned, ReadSlot, FilledAt;
    var k0 := Rank(T, q - 1);
    forall k | LSlot(T, k) ensures FilledAt(T, S0, k) == ReadSlot(T, S0, q) <==> k == k0 {
      FilledByReading(T, S0, q, k);
      RankOf(T, k);
    }
  }

  /** Reading q in slot i and writing its L-type predecessor at the cursor keeps the invariant. */
  lemma LeftPlace(T: seq<Byte>, S0: seq<Int32>, i: int, S: seq<Int32>, B: seq<int>, q: nat, S1: seq<Int32>)
    requires LmsPlaced(T, S0) && -1 <= i < |T| <= SAINT_MAX && LeftInv(T, S0, i, S, B)
    requires 0 < q && Scanned(T, q) && ReadSlot(T, S0, q) == i && !SType(T, q - 1)
    requires |S1| == |S| && forall k :: 0 <= k < |S| ==> S1[k] == if k == i then Flip(S[k]) else S[k]
    ensures 0 <= B[T[q - 1]] < |T|
    ensures LeftInv(T, S0, i + 1, S1[B[T[q - 1]] := LeftMark(T, q - 1)], B[T[q - 1] := B[T[q - 1]] + 1])
  {
    assert q <= |T|;
    hide LmsPlaced, Less, SType, Scanned, ReadSlot, FilledAt, LeftCursors, LeftFilled, LmsRest;
    hide LSlot, Rank, SuffixArray, LEnd, LeftMark;
    var k0 := Rank(T, q - 1);
    OneSlotFilled(T, S0, q);
    LeftCursor(T, S0, i, B, k0);
    FilledBeforeRead(T, S0, k0);
    var S2 := S1[k0 := LeftMark(T, q - 1)];
    LmsRestKept(T, S0, i, S, S2, k0);
    LeftFilledStep(T, S0, i, S, S2, k0);
    LeftCursorsStep(T, S0, i, B, k0);
  }

  lemma LmsRestKept(T: seq<Byte>, S0: seq<Int32>, i: int, S: seq<Int32>, S2: seq<Int32>, k0: int)
    requires |S| == |T| == |S0| == |S2| && LmsRest(T, S0, i, S)
    requires forall k :: 0 <= k < |T| && k != i && k != k0 ==> S2[k] == S[k]
    requires 0 <= k0 < |T| ==> LSlot(T, k0)
    ensures LmsRest(T, S0, i + 1, S2)
  {
    hide LSlot;
  }

  /** Reading a slot without an L-type predecessor only flips the mark. */
  lemma LeftSkip(T: seq<Byte>, S0: seq<Int32>, i: nat, S: seq<Int32>, B: seq<int>, q: int, S1: seq<Int32>)
    requires LmsPlaced(T, S0) && i < |T| && LeftInv(T, S0, i, S, B)
    requires q == -1 ==> forall p :: Scanned(T, p) ==> ReadSlot(T, S0, p) != i
    requires q != -1 ==> 0 <= q < |T| && Scanned(T, q) && ReadSlot(T, S0, q) == i && (q == 0 || SType(T, q - 1))
    requires |S1| == |S| && forall k :: 0 <= k < |S| ==> S1[k] == if k == i then Flip(S[k]) else S[k]
    ensures LeftInv(T, S0, i + 1, S1, B)
  {
    hide LmsPlaced, SType, Less, ReadSlot, LmsRest, Scanned, LeftMark;
    var R := SuffixArray(T);
    forall k | LSlot(T, k) ensures FilledAt(T, S0, k) != i {
      ScannedSuccessor(T, R[k]);
      if q != -1 { FilledByReading(T, S0, q, k); }
    }
    LmsRestKept(T, S0, i, S, S1, -1);
    assert LeftCursors(T, S0, i + 1, B);
    assert LeftFilled(T, S0, i + 1, S1);
  }

  /** What the left-to-right scan leaves: every L-type suffix at its rank, unmarked exactly when
      the right-to-left scan must induce from it. */
  ghost predicate LSorted(T: seq<Byte>, S: seq<Int32>)
  {
    && |S| == |T|
    && (forall k :: LSlot(T, k) ==> S[k] == Flipped(LeftMark(T, SuffixArray(T)[k])))
  }

  lemma LeftDone(T: seq<Byte>, S0: seq<Int32>, S: seq<Int32>, B: seq<int>)
    requires LmsPlaced(T, S0) && LeftInv(T, S0, |T|, S, B)
    ensures LSorted(T, S)
    ensures forall c :: 0 <= c < 256 ==> B[c] == LEnd(T, c)
  {
    hide LmsPlaced, SType, Less, FilledAt, LmsRest, LeftMark;
    forall k | LSlot(T, k) ensures FilledAt(T, S0, k) < k { FilledBeforeRead(T, S0, k); }
    forall c | 0 <= c < 256 ensures B[c] == LEnd(T, c) {
      if B[c] < LEnd(T, c) {
        StartMonotone(T, c, c + 1);
        SlotBounds(T, c, B[c]);
      }
    }
  }

  lemma LeftStart(T: seq<Byte>, S0: seq<Int32>, B: seq<int>)
    requires LmsPlaced(T, S0) && |B| == 256
    requires forall c :: 0 <= c < 256 ==> B[c] == Start(T, c)
    ensures LeftInv(T, S0, -1, S0, B)
  {
    assert |S0| == |T|;
    hide LmsPlaced, SType, Less, FilledAt, LeftMark;
    forall c | 0 <= c < 256 ensures Start(T, c) <= LEnd(T, c) { StartMonotone(T, c, c + 1); }
    forall k | LSlot(T, k) ensures !(k < Start(T, T[SuffixArray(T)[k]])) && FilledAt(T, S0, k) >= -1 {
      SlotBounds(T, T[SuffixArray(T)[k]], k);
      FilledBeforeRead(T, S0, k);
    }
  }

  // ---------- the code ----------

  /** The suffix of length one is placed first: the empty suffix behind it is the smallest. */
  method PlaceLastSuffix(T: seq<Byte>, ghost S0: seq<Int32>, SA: array<Int32>, bucket: array<int>)
    requires LmsPlaced(T, S0)
    requires 2 <= |T| == SA.Length <= SAINT_MAX && bucket.Length == 256
    requires SA[..] == S0 && LeftInv(T, S0, -1, SA[..], bucket[..])
    modifies SA, bucket
    ensures LeftInv(T, S0, 0, SA[..], bucket[..])
  {
    var n := |T|;
    assert !SType(T, n - 1) && ReadSlot(T, S0, n) == -1;
    hide LmsPlaced, LeftInv, SType, Less, ReadSlot;
    ghost var B := bucket[..];
    LeftPlace(T, S0, -1, S0, B, n, S0);
    TypeOfPredecessor(T, n - 1);
    SA[bucket[T[n - 1]]] := Mark(n - 1, T[n - 2] < T[n - 1]);
    bucket[T[n - 1]] := bucket[T[n - 1]] + 1;
    assert bucket[..] == B[T[n - 1] := B[T[n - 1]] + 1];
    assert SA[..] == S0[B[T[n - 1]] := LeftMark(T, n - 1)];
  }

  /** One iteration of the scan. */
  method LeftStep(T: seq<Byte>, ghost S0: seq<Int32>, i: nat, SA: array<Int32>, bucket: array<int>)
    requires LmsPlaced(T, S0)
    requires i < |T| == SA.Length <= SAINT_MAX && bucket.Length == 256
    requires LeftInv(T, S0, i, SA[..], bucket[..])
    modifies SA, bucket
    ensures LeftInv(T, S0, i + 1, SA[..], bucket[..])
  {
    hide LmsPlaced, SType, Less, ReadSlot, LeftCursors, LeftFilled, LmsRest;
    ghost var S, B := SA[..], bucket[..];
    ghost var q := LeftRead(T, S0, i, S);
    hide LeftInv;
    var p := SA[i];
    SA[i] := Flip(p);
    ghost var S1: seq<Int32> := SA[..];
    if p > 0 {
      assert p == q && !SType(T, p - 1);
      LeftPlace(T, S0, i, S, B, p, S1);
      p := p - 1;
      if p > 0 { TypeOfPredecessor(T, p); }
      SA[bucket[T[p]]] := Mark(p, T[p - if p > 0 then 1 else 0] < T[p]);
      bucket[T[p]] := bucket[T[p]] + 1;
      assert bucket[..] == B[T[p] := B[T[p]] + 1];
      assert SA[..] == S1[B[T[p]] := LeftMark(T, p)];
    } else {
      LeftSkip(T, S0, i, S, B, q, S1);
    }
  }

  method FinalSortingScanLeftToRight(T: seq<Byte>, SA: array<Int32>, bucket: array<int>)
    requires 2 <= |T| == SA.Length <= SAINT_MAX
    requires bucket.Length == 256
    requires forall c :: 0 <= c < 256 ==> bucket[c] == Start(T, c)
    requires LmsPlaced(T, SA[..])
    modifies SA, bucket
    ensures LSorted(T, SA[..])
    ensures forall c :: 0 <= c < 256 ==> bucket[c] == LEnd(T, c)
  {
    hide LmsPlaced, LeftInv, LSorted;
    ghost var S0 := SA[..];
    LeftStart(T, S0, bucket[..]);
    PlaceLastSuffix(T, S0, SA, bucket);
    var i := 0;
    while i < |T|
      invariant 0 <= i <= |T|
      invariant LeftInv(T, S0, i, SA[..], bucket[..])
    {
      LeftStep(T, S0, i, SA, bucket);
      i := i + 1;
    }
    LeftDone(T, S0, SA[..], bucket[..]);
    assert forall c :: 0 <= c < 256 ==> bucket[c] == bucket[..][c];
  }
}
