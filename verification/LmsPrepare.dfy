/** Around the recursion of SA-IS: gathering the LMS suffixes with a byte/type histogram, turning the
    histogram into bucket boundaries, and spreading the sorted LMS suffixes over their buckets. */
module LmsPrepare {
  import opened Suffix
  import opened Buckets
  import opened InduceLeft

  // ---------- gathering ----------

  ghost predicate LType(T: seq<Byte>, p: int)
  {
    0 <= p < |T| && !SType(T, p)
  }

  /** Histogram cell of position p: its byte, its own type, its predecessor's type. Position 0 has a
      virtual S-type predecessor. */
  ghost function Cell(T: seq<Byte>, p: nat): int
    requires p < |T|
  {
    4 * (T[p] as int) + (if LType(T, p) then 2 else 0) + (if LType(T, p - 1) then 1 else 0)
  }

  ghost function InCell(T: seq<Byte>, x: int): int -> bool
  {
    (p: int) => 0 <= p < |T| && Cell(T, p) == x
  }

  /** The LMS positions from lo on, in increasing order. */
  ghost function LmsFrom(T: seq<Byte>, lo: nat): seq<nat>
    decreases |T| - lo
  {
    if lo >= |T| then [] else (if Lms(T, lo) then [lo] else []) + LmsFrom(T, lo + 1)
  }

  lemma {:induction false} LmsFromIsLms(T: seq<Byte>, lo: nat)
    ensures forall x :: 0 <= x < |LmsFrom(T, lo)| ==> LmsFrom(T, lo)[x] >= lo && Lms(T, LmsFrom(T, lo)[x])
    ensures forall x, y :: 0 <= x < y < |LmsFrom(T, lo)| ==> LmsFrom(T, lo)[x] < LmsFrom(T, lo)[y]
    ensures forall p :: lo <= p && Lms(T, p) ==> p in LmsFrom(T, lo)
    decreases |T| - lo
  {
    if lo < |T| {
      LmsFromIsLms(T, lo + 1);
      var rest := LmsFrom(T, lo + 1);
      forall p | lo <= p && Lms(T, p) ensures p in LmsFrom(T, lo) {
        if p > lo { assert p in rest; }
      }
    }
  }

  /** Histogram of the positions from lo on: what the scan has counted when it stands at lo - 1. */
  ghost predicate Counted(T: seq<Byte>, lo: nat, h: seq<int>)
  {
    |h| >= 1024 && forall x :: 0 <= x < 1024 ==> h[x] + CountIf(lo, InCell(T, x)) == CountIf(|T|, InCell(T, x))
  }

  lemma CountedStep(T: seq<Byte>, lo: nat, h: seq<int>, h2: seq<int>)
    requires lo < |T| && Counted(T, lo + 1, h)
    requires 0 <= Cell(T, lo) < 1024 && h2 == h[Cell(T, lo) := h[Cell(T, lo)] + 1]
    ensures Counted(T, lo, h2)
  {
    hide Cell;
    forall x | 0 <= x < 1024 ensures h2[x] + CountIf(lo, InCell(T, x)) == CountIf(|T|, InCell(T, x)) {
      assert CountIf(lo + 1, InCell(T, x)) == CountIf(lo, InCell(T, x)) + if InCell(T, x)(lo) then 1 else 0;
    }
  }

  /** The comparison that carries the type from a position to its predecessor. */
  lemma TypeFlag(T: seq<Byte>, p: nat, f: int)
    requires 0 < p < |T| && f == if LType(T, p) then 1 else 0
    ensures LType(T, p - 1) <==> T[p - 1] > T[p] - f
  {
    TypeOfPredecessor(T, p);
  }

  lemma GatherStep(T: seq<Byte>, p: nat)
    requires p < |T|
    ensures LmsFrom(T, p) == (if !LType(T, p) && LType(T, p - 1) then [p] else []) + LmsFrom(T, p + 1)
  {
  }

  /** f0 & ~f1 on the two one-bit flags. */
  function AndNot(f0: int, f1: int): int {
    if f0 == 1 && f1 == 0 then 1 else 0
  }

  method ClearHistogram(buckets: array<int>)
    requires buckets.Length >= 1024
    modifies buckets
    ensures forall x :: 0 <= x < 1024 ==> buckets[x] == 0
  {
    for x := 0 to 1024
      invariant forall y :: 0 <= y < x ==> buckets[y] == 0
    {
      buckets[x] := 0;
    }
  }

  /** Keeps position p in SA when it is an LMS position; a position that is not is written over by the next. */
  method KeepOne(T: seq<Byte>, SA: array<Int32>, p: nat, m: int, f1: int, f0: int) returns (m': int)
    requires p < |T| == SA.Length <= SAINT_MAX
    requires f1 == (if LType(T, p) then 1 else 0) && f0 == (if LType(T, p - 1) then 1 else 0)
    requires p <= m < |T| && SA[m + 1..] == LmsFrom(T, p + 1)
    modifies SA
    ensures m - 1 <= m' <= m && (m' < m ==> p > 0) && SA[m' + 1..] == LmsFrom(T, p) && SA[..m] == old(SA[..m])
  {
    hide LmsFrom;
    GatherStep(T, p);
    ghost var kept := SA[m + 1..];
    SA[m] := p;
    m' := m - AndNot(f0, f1);
    assert SA[m + 1..] == kept;
    assert SA[m..] == [p] + kept;
  }

  /** One position of the scan: position p, of byte c1 and type flag f1, is counted now that its
      predecessor's flag f0 is known; it is kept in SA when it is an LMS position. */
  method GatherOne(T: seq<Byte>, SA: array<Int32>, buckets: array<int>, p: nat, m: int, c1: int, f1: int, f0: int)
    returns (m': int)
    requires p < |T| == SA.Length <= SAINT_MAX && buckets.Length >= 1024
    requires c1 == T[p] && f1 == (if LType(T, p) then 1 else 0) && f0 == (if LType(T, p - 1) then 1 else 0)
    requires p <= m < |T| && SA[m + 1..] == LmsFrom(T, p + 1) && Counted(T, p + 1, buckets[..])
    modifies SA, buckets
    ensures m - 1 <= m' <= m && (m' < m ==> p > 0) && SA[m' + 1..] == LmsFrom(T, p) && Counted(T, p, buckets[..])
  {
    hide Counted, LmsFrom;
    m' := KeepOne(T, SA, p, m, f1, f0);
    ghost var h := buckets[..];
    assert 4 * c1 + (f1 + f1 + f0) == Cell(T, p);
    buckets[4 * c1 + (f1 + f1 + f0)] := buckets[4 * c1 + (f1 + f1 + f0)] + 1;
    assert buckets[..] == h[Cell(T, p) := h[Cell(T, p)] + 1];
    CountedStep(T, p, h, buckets[..]);
  }

  method CountAndGatherLmsSuffixes(T: seq<Byte>, SA: array<Int32>, buckets: array<int>) returns (count: int)
    requires |T| == SA.Length <= SAINT_MAX && buckets.Length >= 1024
    modifies SA, buckets
    ensures count == |LmsFrom(T, 0)| <= |T| && SA[|T| - count..] == LmsFrom(T, 0)
    ensures Histogram(T, buckets[..])
  {
    ClearHistogram(buckets);
    var m := |T| - 1;
    if |T| > 0 {
      var i := m - 1;
      var c0: int := T[m];
      var c1 := -1;
      var f0 := if c0 >= c1 then 1 else 0;
      var f1 := 0;
      assert !SType(T, m);
      assert Counted(T, |T|, buckets[..]);
      while i >= 0
        invariant -1 <= i < |T| - 1 && i + 1 <= m < |T|
        invariant c0 == T[i + 1] && f0 == if LType(T, i + 1) then 1 else 0
        invariant SA[m + 1..] == LmsFrom(T, i + 2) && Counted(T, i + 2, buckets[..])
      {
        hide Counted, LmsFrom;
        c1 := c0;
        c0 := T[i];
        f1 := f0;
        TypeFlag(T, i + 1, f1);
        f0 := if c0 > c1 - f1 then 1 else 0;
        m := GatherOne(T, SA, buckets, i + 1, m, c1, f1, f0);
        i := i - 1;
      }
      c1 := -1;
      f1 := if c1 > c0 - f0 then 1 else 0;
      m := GatherOne(T, SA, buckets, 0, m, c0, f0, f1);
      assert m >= -1;
      assert |SA[m + 1..]| == |T| - 1 - m;
    }
    count := |T| - 1 - m;
  }

  // ---------- bucket boundaries ----------

  lemma {:induction false} FourCells(T: seq<Byte>, n: nat, c: Byte)
    requires n <= |T|
    ensures CountIf(n, InCell(T, 4 * c)) + CountIf(n, InCell(T, 4 * c + 1)) + CountIf(n, InCell(T, 4 * c + 2))
            + CountIf(n, InCell(T, 4 * c + 3)) == CountIf(n, HasByte(T, c))
  {
    if n > 0 {
      FourCells(T, n - 1, c);
    }
  }

  lemma {:induction false} CountBalance(n: nat, A: int -> bool, B: int -> bool, C: int -> bool)
    requires forall x :: 0 <= x < n ==> (A(x) <==> B(x) || C(x)) && !(B(x) && C(x))
    ensures CountIf(n, A) == CountIf(n, B) + CountIf(n, C)
  {
    if n > 0 {
      CountBalance(n - 1, A, B, C);
    }
  }

  lemma EndIsStartPlusFreq(T: seq<Byte>, c: int)
    ensures End(T, c) == Start(T, c) + Freq(T, c) == Start(T, c + 1)
  {
    CountBalance(|T|, FirstByteBelow(T, c + 1), FirstByteBelow(T, c), HasByte(T, c));
  }

  lemma {:induction false} FreqPositive(T: seq<Byte>, n: nat, c: int)
    requires n <= |T|
    ensures CountIf(n, HasByte(T, c)) > 0 <==> exists p :: 0 <= p < n && T[p] == c
  {
    if n > 0 {
      FreqPositive(T, n - 1, c);
      if T[n - 1] == c { assert 0 <= n - 1 < n && T[n - 1] == c; }
    }
  }

  ghost predicate Occurs(T: seq<Byte>, c: int)
  {
    exists p :: 0 <= p < |T| && T[p] == c
  }

  /** h is the complete histogram. */
  ghost predicate Histogram(T: seq<Byte>, h: seq<int>)
  {
    |h| >= 1024 && forall x :: 0 <= x < 1024 ==> h[x] == CountIf(|T|, InCell(T, x))
  }

  lemma FreqOfCells(T: seq<Byte>, h: seq<int>, c: Byte)
    requires Histogram(T, h)
    ensures h[4 * c] + h[4 * c + 1] + h[4 * c + 2] + h[4 * c + 3] == Freq(T, c)
    ensures Freq(T, c) > 0 <==> Occurs(T, c)
  {
    FourCells(T, |T|, c);
    FreqPositive(T, |T|, c);
  }

  method InitializeBucketsStartAndEnd(ghost T: seq<Byte>, buckets: array<int>, bucketStart: array<int>, bucketEnd: array<int>,
                                      freq: array?<int>) returns (k: int)
    requires buckets.Length >= 1024 && bucketStart.Length == 256 && bucketEnd.Length == 256
    requires bucketStart != bucketEnd && bucketStart != buckets && bucketEnd != buckets
    requires freq != null ==> freq.Length == 256 && freq != bucketStart && freq != bucketEnd && freq != buckets
    requires Histogram(T, buckets[..])
    modifies bucketStart, bucketEnd, freq
    ensures forall c :: 0 <= c < 256 ==> bucketStart[c] == Start(T, c) && bucketEnd[c] == End(T, c)
    ensures freq != null ==> forall c :: 0 <= c < 256 ==> freq[c] == Freq(T, c)
    ensures 0 <= k <= 256 && (forall c :: k <= c < 256 ==> !Occurs(T, c)) && (k > 0 ==> Occurs(T, k - 1))
  {
    hide Start, Freq, Histogram, Occurs;
    ghost var h := buckets[..];
    k := -1;
    var sum := 0;
    assert sum == Start(T, 0) by { StartMonotone(T, 0, 1); }
    for j := 0 to 256
      invariant sum == Start(T, j) && -1 <= k < j
      invariant forall c :: 0 <= c < j ==> bucketStart[c] == Start(T, c) && bucketEnd[c] == End(T, c)
      invariant freq != null ==> forall c :: 0 <= c < j ==> freq[c] == Freq(T, c)
      invariant buckets[..] == h
      invariant forall c :: k < c < j ==> !Occurs(T, c)
      invariant k >= 0 ==> Occurs(T, k)
    {
      var total := buckets[4 * j] + buckets[4 * j + 1] + buckets[4 * j + 2] + buckets[4 * j + 3];
      hide End;
      FreqOfCells(T, h, j);
      assert buckets[4 * j] == h[4 * j] && buckets[4 * j + 1] == h[4 * j + 1];
      assert buckets[4 * j + 2] == h[4 * j + 2] && buckets[4 * j + 3] == h[4 * j + 3];
      EndIsStartPlusFreq(T, j);
      bucketStart[j] := sum;
      sum := sum + total;
      bucketEnd[j] := sum;
      k := if total > 0 then j else k;
      if freq != null { freq[j] := total; }
    }
    k := k + 1;
  }
}
