/** libsais_main_8u behind the first induction: naming, recursion, placing and inducing. */
module Libsais {
  import opened Suffix
  import opened Buckets
  import opened InduceLeft
  import opened InduceRight
  import opened LmsPlace
  import opened LmsPrepare
  import opened LmsNames
  import opened LmsReduce

  lemma NothingToPlace(T: seq<Byte>, L: seq<Int32>, S: seq<Int32>)
    requires SortedLms(T, L) && L == []
    requires |S| == |T| && forall k :: 0 <= k < |S| ==> S[k] == 0
    ensures LmsPlaced(T, S)
  {
  }

  /** With the m LMS suffixes sorted at the front of SA, placing and inducing yields the suffix array. */
  method FinishSuffixArray(T: seq<Byte>, SA: array<Int32>, m: nat, lmsStart: array<int>,
                           bucketStart: array<int>, bucketEnd: array<int>)
    requires 2 <= |T| == SA.Length <= SAINT_MAX && m <= |T| && SortedLms(T, SA[..m])
    requires lmsStart.Length == 256 && bucketStart.Length == 256 && bucketEnd.Length == 256
    requires bucketStart != bucketEnd && lmsStart != bucketStart && lmsStart != bucketEnd
    requires forall c :: 0 <= c < 256 ==> lmsStart[c] == LmsBelow(T, c)
    requires forall c :: 0 <= c < 256 ==> bucketStart[c] == Start(T, c) && bucketEnd[c] == End(T, c)
    modifies SA, bucketStart, bucketEnd
    ensures SA[..] == SuffixArray(T)
  {
    hide LmsPlaced, SortedLms, Start, End, LmsBelow;
    if m > 0 {
      PlaceLmsSuffixesInterval(T, SA, |T|, m, lmsStart, bucketEnd);
    } else {
      ghost var L: seq<Int32> := SA[..m];
      MemSetZero(SA, 0, |T|);
      NothingToPlace(T, L, SA[..]);
    }
    InduceFinalOrder(T, SA, bucketStart, bucketEnd);
  }

  /** Every entry of L lies in the text, and its half in the table of halves. */
  lemma HalvesInside(T: seq<Byte>, L: seq<Int32>)
    requires ClassesMarked(T, L)
    ensures forall i :: 0 <= i < |L| ==> 0 <= Pos(L[i]) && Pos(L[i]) / 2 < |T| / 2
  {
    hide Pos, MarksBefore, SubLess, SubSame;
    forall i | 0 <= i < |L| ensures 0 <= Pos(L[i]) && Pos(L[i]) / 2 < |T| / 2 { LmsNotLast(T, Pos(L[i])); }
  }

  lemma LmsNotLast(T: seq<Byte>, p: int)
    requires Lms(T, p)
    ensures 0 < p < |T| - 1
  {
  }

  /** The positions in the list of the first induction. */
  lemma MarkedPositions(T: seq<Byte>, L: seq<Int32>) returns (R: seq<nat>)
    requires ClassesMarked(T, L)
    ensures |R| == |L| && (forall i :: 0 <= i < |L| ==> R[i] == Pos(L[i]) && Lms(T, R[i]))
    ensures forall i, j :: 0 <= i < j < |R| ==> R[i] != R[j]
    ensures forall p :: Lms(T, p) ==> p in R
  {
    hide SubLess, SubSame, MarksBefore, Pos, Lms;
    R := seq(|L|, (i: nat) requires i < |L| => PosOf(T, L, i));
    forall p | Lms(T, p) ensures p in R {
      var i :| 0 <= i < |L| && Pos(L[i]) == p;
      assert R[i] == p;
    }
  }

  ghost function PosOf(T: seq<Byte>, L: seq<Int32>, i: nat): (p: nat)
    requires ClassesMarked(T, L) && i < |L|
    ensures p == Pos(L[i])
  {
    Pos(L[i])
  }

  /** The list of the first induction is as long as that of the gathered positions. */
  lemma MarkedCount(T: seq<Byte>, L: seq<Int32>)
    requires ClassesMarked(T, L)
    ensures |L| == |LmsFrom(T, 0)|
  {
    hide ClassesMarked, Pos, Lms, LmsFrom;
    var G := LmsFrom(T, 0);
    LmsFromIsLms(T, 0);
    var R := MarkedPositions(T, L);
    DistinctCardinality(R);
    DistinctCardinality(G);
    assert Elements(R) == Elements(G);
  }

  /** With as many names as entries every entry is its own class. */
  lemma AllDistinct(T: seq<Byte>, L: seq<Int32>, P: seq<Int32>)
    requires ClassesMarked(T, L) && MarksBefore(L, |L|) == |L|
    requires |P| == |L| && forall i :: 0 <= i < |L| ==> P[i] == Pos(L[i])
    ensures SortedLms(T, P)
  {
    hide ClassesMarked, MarksBefore, Pos, Lms, Less;
    var R := MarkedPositions(T, L);
    assert forall i :: 0 <= i < |L| ==> P[i] == R[i];
    forall i, j | 0 <= i < j < |L| ensures P[i] <= |T| && P[j] <= |T| && Less(T, P[i], P[j]) { OwnClass(T, L, i, j); }
  }

  lemma OwnClass(T: seq<Byte>, L: seq<Int32>, i: nat, j: nat)
    requires ClassesMarked(T, L) && MarksBefore(L, |L|) == |L| && i < j < |L|
    ensures 0 <= Pos(L[i]) < |T| && 0 <= Pos(L[j]) < |T| && Less(T, Pos(L[i]), Pos(L[j]))
  {
    hide SubLess, SubSame, MarksBefore, Pos, Lms, Less;
    MarksGrow(L, 0, i);
    MarksGrow(L, j, |L|);
    NoMarksYet(L);
    LmsNotLast(T, Pos(L[i]));
    LmsNotLast(T, Pos(L[j]));
    SubLessDecides(T, Pos(L[i]), Pos(L[j]));
  }

  lemma NoMarksYet(L: seq<Int32>)
    ensures MarksBefore(L, 0) == 0
  {
  }

  /** Clears the marks when every name is different. */
  method Unmark(SA: array<Int32>, m: nat)
    requires m <= SA.Length
    modifies SA
    ensures forall i :: 0 <= i < m ==> SA[i] == Pos(old(SA[i]))
  {
    for i := 0 to m
      invariant forall k :: 0 <= k < i ==> SA[k] == Pos(old(SA[k]))
      invariant forall k :: i <= k < m ==> SA[k] == old(SA[k])
    {
      SA[i] := Pos(SA[i]);
    }
  }

  /** Writes s to the front. */
  method WriteFront(SA: array<Int32>, s: seq<Int32>)
    requires |s| <= SA.Length
    modifies SA
    ensures SA[..|s|] == s
  {
    for i := 0 to |s|
      invariant SA[..i] == s[..i]
    {
      SA[i] := s[i];
      assert SA[..i + 1] == SA[..i] + [s[i]];
    }
  }

  /** From the solved reduced text at the front back to LMS suffixes. */
  method SolvedToLms(T: seq<Byte>, SA: array<Int32>, m: nat, ghost R: seq<nat>, S: seq<Int32>)
    requires 0 < |T| == SA.Length <= SAINT_MAX && m == |LmsFrom(T, 0)| <= |T|
    requires NamesKeepOrder(T, R) && SortsNames(R, S)
    modifies SA
    ensures SortedLms(T, SA[..m])
  {
    hide NamesKeepOrder, SortedLms, NameLess, LmsFrom;
    LmsRoom(T);
    NamesSize(T, R);
    WriteFront(SA, S);
    GatherLmsSuffixes(T, SA, m);
    ghost var G := SA[|T| - m..];
    assert SA[..m] == S;
    ReconstructLmsSuffixes(SA, |T|, m);
    LmsNumbered(T, G, S, SA[..m]);
    SortedFromReduced(T, R, S, SA[..m]);
  }

  lemma LmsNumbered(T: seq<Byte>, G: seq<Int32>, S: seq<Int32>, L: seq<Int32>)
    requires G == LmsFrom(T, 0) && |L| == |S|
    requires forall i :: 0 <= i < |S| ==> 0 <= S[i] < |G| && L[i] == G[S[i]]
    ensures L == LmsOf(T, S)
  {
    hide LmsFrom;
  }

  /** From the filled table of halves: the reduced text at the end of SA, solved, and back. */
  method SolveReduced(T: seq<Byte>, SA: array<Int32>, m: nat, ghost L: seq<Int32>, solve: seq<nat> -> seq<Int32>)
    requires 0 < |T| == SA.Length <= SAINT_MAX && m == |LmsFrom(T, 0)| <= |T|
    requires ClassesMarked(T, L) && SA[..m] == L && m + |T| / 2 <= |T|
    requires forall c :: 0 <= c < |T| / 2 ==> SA[m + c] == CellAt(L, m, c)
    requires forall R :: |R| <= SAINT_MAX ==> SortsNames(R, solve(R))
    modifies SA
    ensures SortedLms(T, SA[..m])
  {
    hide ClassesMarked, SortedLms, SortsNames, LmsFrom, NamesFrom, CellAt, MarksBefore, Pos, NamesKeepOrder;
    CellsAreNames(T, L, 0);
    NamesPreserveOrder(T, L);
    GatherMarkedLmsSuffixes(SA, |T|, m, L);
    ghost var R := Names(T, L);
    assert R == SA[|T| - m..];
    var reduced: seq<nat> := SA[|T| - m..];
    assert reduced == R;
    SolvedToLms(T, SA, m, R, solve(reduced));
  }

  /** The sort of the LMS suffixes behind the first induction: naming, the reduced text, its suffix array, which solve
      finds, and back. */
  method SortLmsSuffixes(T: seq<Byte>, SA: array<Int32>, m: nat, solve: seq<nat> -> seq<Int32>)
    requires 0 < |T| == SA.Length <= SAINT_MAX && m == |LmsFrom(T, 0)| <= |T| && ClassesMarked(T, SA[..m])
    requires forall R :: |R| <= SAINT_MAX ==> SortsNames(R, solve(R))
    modifies SA
    ensures SortedLms(T, SA[..m])
  {
    hide ClassesMarked, SortedLms, SortsNames, LmsFrom, CellAt, MarksBefore, Pos;
    ghost var L := SA[..m];
    LmsRoom(T);
    HalvesInside(T, L);
    MarksAtMost(L);
    assert forall i :: 0 <= i < m ==> SA[i] == L[i];
    var names := RenumberLmsSuffixes(SA, |T|, m);
    if names < m {
      SolveReduced(T, SA, m, L, solve);
    } else {
      assert forall i :: 0 <= i < m ==> SA[i] == L[i];
      Unmark(SA, m);
      AllDistinct(T, L, SA[..m]);
    }
  }

  lemma MarksAtMost(L: seq<Int32>)
    ensures MarksBefore(L, |L|) <= |L|
  {
    MarksGrow(L, 0, |L|);
  }

  /** The whole construction around the first induction and the sort of the reduced text: gather and count, bucket
      boundaries, what the first induction leaves (marked), then naming, recursion, placing and inducing. Texts of
      fewer than two bytes are answered at once. */
  method BuildSuffixArray(T: seq<Byte>, SA: array<Int32>, marked: seq<Int32>, solve: seq<nat> -> seq<Int32>,
                          lmsStart: array<int>, freq: array?<int>)
    requires |T| == SA.Length <= SAINT_MAX && ClassesMarked(T, marked)
    requires forall R :: |R| <= SAINT_MAX ==> SortsNames(R, solve(R))
    requires lmsStart.Length == 256 && forall c :: 0 <= c < 256 ==> lmsStart[c] == LmsBelow(T, c)
    requires freq != null ==> freq.Length == 256 && freq != lmsStart
    modifies SA, freq
    ensures SA[..] == SuffixArray(T)
    ensures freq != null ==> forall c :: 0 <= c < 256 ==> freq[c] == Freq(T, c)
  {
    hide SortedLms, LmsBelow, Start, End, Histogram, Freq, ClassesMarked, SortsNames;
    if |T| <= 1 {
      ShortText(T, SA, freq);
      return;
    }
    var buckets, bucketStart, bucketEnd := new int[1024], new int[256], new int[256];
    var m := CountAndGatherLmsSuffixes(T, SA, buckets);
    var _ := InitializeBucketsStartAndEnd(T, buckets, bucketStart, bucketEnd, freq);
    MarkedCount(T, marked);
    if m > 0 {
      WriteFront(SA, marked);
      SortLmsSuffixes(T, SA, m, solve);
    } else {
      NoLmsSorted(T, SA[..m]);
    }
    FinishSuffixArray(T, SA, m, lmsStart, bucketStart, bucketEnd);
  }

  lemma NoLmsSorted(T: seq<Byte>, L: seq<Int32>)
    requires |LmsFrom(T, 0)| == 0 && L == []
    ensures SortedLms(T, L)
  {
    LmsFromIsLms(T, 0);
  }

  method ShortText(T: seq<Byte>, SA: array<Int32>, freq: array?<int>)
    requires |T| == SA.Length <= 1 && (freq != null ==> freq.Length == 256)
    modifies SA, freq
    ensures SA[..] == SuffixArray(T)
    ensures freq != null ==> forall c :: 0 <= c < 256 ==> freq[c] == Freq(T, c)
  {
    SingleSuffix(T);
    hide Freq, SuffixArray;
    if freq != null {
      for c := 0 to 256
        invariant forall x :: 0 <= x < c ==> freq[x] == 0
      {
        freq[c] := 0;
      }
      if |T| == 1 { freq[T[0]] := freq[T[0]] + 1; }
    }
    if |T| == 1 {
      SA[0] := 0;
      assert SA[..] == [0];
    } else {
      assert SA[..] == [];
    }
  }

  lemma SingleSuffix(T: seq<Byte>)
    requires |T| <= 1
    ensures SuffixArray(T) == if |T| == 1 then [0] else []
    ensures forall c :: 0 <= c < 256 ==> Freq(T, c) == if |T| == 1 && T[0] as int == c then 1 else 0
  {
    SuffixArrayIsSuffixArray(T);
    if |T| == 1 { assert SuffixArray(T)[0] == 0; }
  }
}
