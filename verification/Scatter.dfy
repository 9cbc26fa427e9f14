/** Counting-sort scatter: where count / prefix-sum / scatter loops put each element. */
module Scatter {
  import opened Suffix

  /** Number of the first i elements of A equal to c. */
  ghost function CountKey(A: seq<int>, i: nat, c: int): nat
    requires i <= |A|
  {
    if i == 0 then 0 else CountKey(A, i - 1, c) + if A[i - 1] == c then 1 else 0
  }

  /** Number of the first i elements of A below c. */
  ghost function CountLess(A: seq<int>, i: nat, c: int): nat
    requires i <= |A|
  {
    if i == 0 then 0 else CountLess(A, i - 1, c) + if A[i - 1] < c then 1 else 0
  }

  /** First slot of bucket c. */
  ghost function Offset(A: seq<int>, c: int): nat
  {
    CountLess(A, |A|, c)
  }

  lemma {:induction false} CountLessStep(A: seq<int>, i: nat, c: int)
    requires i <= |A|
    ensures CountLess(A, i, c + 1) == CountLess(A, i, c) + CountKey(A, i, c)
  {
    if i > 0 { CountLessStep(A, i - 1, c); }
  }

  lemma {:induction false} CountLessMonotone(A: seq<int>, i: nat, c: int, d: int)
    requires i <= |A| && c <= d
    ensures CountLess(A, i, c) <= CountLess(A, i, d) <= i
  {
    if i > 0 { CountLessMonotone(A, i - 1, c, d); }
  }

  lemma {:induction false} CountKeyMonotone(A: seq<int>, i: nat, j: nat, c: int)
    requires i <= j <= |A|
    ensures CountKey(A, i, c) <= CountKey(A, j, c)
    ensures i < j && A[i] == c ==> CountKey(A, i, c) < CountKey(A, j, c)
    decreases j
  {
    if i < j { CountKeyMonotone(A, i, j - 1, c); }
  }

  lemma {:induction false} CountLessBounds(A: seq<int>, i: nat, lo: int, hi: int)
    requires i <= |A| && forall x :: 0 <= x < i ==> lo <= A[x] < hi
    ensures CountLess(A, i, lo) == 0 && CountLess(A, i, hi) == i
  {
    if i > 0 { CountLessBounds(A, i - 1, lo, hi); }
  }

  /** The slot the scatter loop gives element i. */
  ghost function Dest(A: seq<int>, i: nat): int
    requires i < |A|
  {
    Offset(A, A[i]) + CountKey(A, i, A[i])
  }

  /** Element i lands in its own bucket. */
  lemma DestInBucket(A: seq<int>, i: nat)
    requires i < |A|
    ensures 0 <= Offset(A, A[i]) <= Dest(A, i) < Offset(A, A[i] + 1) <= |A|
  {
    CountLessStep(A, |A|, A[i]);
    CountKeyMonotone(A, i, |A|, A[i]);
    CountLessMonotone(A, |A|, A[i] + 1, A[i] + 1);
  }

  /** The scatter is stable: destinations order elements by key, then by original index. */
  lemma DestOrder(A: seq<int>, i: nat, j: nat)
    requires i < |A| && j < |A|
    ensures Dest(A, i) < Dest(A, j) <==> A[i] < A[j] || (A[i] == A[j] && i < j)
    ensures Dest(A, i) == Dest(A, j) <==> i == j
  {
    DestInBucket(A, i);
    DestInBucket(A, j);
    if A[i] < A[j] {
      CountLessMonotone(A, |A|, A[i] + 1, A[j]);
    } else if A[j] < A[i] {
      CountLessMonotone(A, |A|, A[j] + 1, A[i]);
    } else if i < j {
      CountKeyMonotone(A, i, j, A[i]);
    } else if j < i {
      CountKeyMonotone(A, j, i, A[i]);
    }
  }

  /** Every slot receives an element. */
  lemma DestOnto(A: seq<int>, k: nat) returns (i: nat)
    requires k < |A|
    ensures i < |A| && Dest(A, i) == k
  {
    var d: seq<nat> := [];
    while |d| < |A|
      invariant |d| <= |A|
      invariant forall x :: 0 <= x < |d| ==> d[x] == Dest(A, x) < |A|
    {
      DestInBucket(A, |d|);
      d := d + [Dest(A, |d|)];
    }
    forall x, y | 0 <= x < y < |d| ensures d[x] != d[y] { DestOrder(A, x, y); }
    DistinctCovers(d, k);
    i :| 0 <= i < |d| && d[i] == k;
  }

  /** Cursors of a scatter loop after i elements. */
  ghost predicate Cursors(A: seq<int>, i: nat, idx: seq<int>)
  {
    i <= |A| && forall c :: 0 <= c < |idx| ==> idx[c] == Offset(A, c) + CountKey(A, i, c)
  }

  lemma CursorsStep(A: seq<int>, i: nat, idx: seq<int>)
    requires i < |A| && Cursors(A, i, idx) && 0 <= A[i] < |idx|
    ensures 0 <= idx[A[i]] == Dest(A, i) < |A|
    ensures Cursors(A, i + 1, idx[A[i] := idx[A[i]] + 1])
  {
    DestInBucket(A, i);
  }

  /** dst holds the first i elements of src at their destinations. */
  ghost predicate Scattered<X>(A: seq<int>, src: seq<X>, i: nat, dst: seq<X>)
  {
    && i <= |A| == |src| <= |dst|
    && forall x :: 0 <= x < i ==> DestOf(A, x, |dst|) && dst[Dest(A, x)] == src[x]
  }

  ghost predicate DestOf(A: seq<int>, x: nat, n: nat)
    requires x < |A|
  {
    0 <= Dest(A, x) < n
  }

  lemma ScatteredStep<X>(A: seq<int>, src: seq<X>, i: nat, dst: seq<X>)
    requires i < |A| && Scattered(A, src, i, dst) && DestOf(A, i, |dst|)
    ensures Scattered(A, src, i + 1, dst[Dest(A, i) := src[i]])
  {
    forall x | 0 <= x < i ensures Dest(A, x) != Dest(A, i) { DestOrder(A, x, i); }
  }

  /** Reading back: slot k of bucket c holds an element with key c, and slots are ordered by key and
      then by original index. */
  lemma ScatteredSlot<X>(A: seq<int>, src: seq<X>, dst: seq<X>, k: nat) returns (i: nat)
    requires Scattered(A, src, |A|, dst) && k < |A|
    ensures i < |A| && Dest(A, i) == k && dst[k] == src[i]
    ensures Offset(A, A[i]) <= k < Offset(A, A[i] + 1)
  {
    i := DestOnto(A, k);
    DestInBucket(A, i);
  }

  ghost function Without<X>(s: seq<X>, x: nat): (r: seq<X>)
    requires x < |s|
    ensures |r| == |s| - 1
    ensures forall i :: 0 <= i < x ==> r[i] == s[i]
    ensures forall i :: x <= i < |r| ==> r[i] == s[i + 1]
  {
    s[..x] + s[x + 1..]
  }

  lemma WithoutElements<X>(s: seq<X>, x: nat)
    requires x < |s|
    ensures multiset(s) == multiset(Without(s, x)) + multiset{s[x]}
  {
    assert s == s[..x] + [s[x]] + s[x + 1..];
  }

  /** src is dst read through the index list d. */
  ghost predicate ReadThrough<X>(dst: seq<X>, d: seq<nat>, src: seq<X>)
  {
    && |d| == |dst| == |src|
    && (forall i :: 0 <= i < |d| ==> d[i] < |d| && src[i] == dst[d[i]])
    && (forall i, j :: 0 <= i < j < |d| ==> d[i] != d[j])
  }

  lemma ReadThroughWithout<X>(dst: seq<X>, d: seq<nat>, src: seq<X>, x: nat)
    requires ReadThrough(dst, d, src) && x < |d| && d[x] == |d| - 1
    ensures ReadThrough(Without(dst, |d| - 1), Without(d, x), Without(src, x))
  {
    var d' := Without(d, x);
    forall i | 0 <= i < |d'| ensures d'[i] < |d'| && Without(src, x)[i] == Without(dst, |d| - 1)[d'[i]] {
      if i < x { assert d[i] != d[x]; } else { assert d[x] != d[i + 1]; }
    }
  }

  lemma LastIndex<X>(dst: seq<X>, d: seq<nat>, src: seq<X>) returns (x: nat)
    requires ReadThrough(dst, d, src) && d != []
    ensures x < |d| && d[x] == |d| - 1 && src[x] == dst[|d| - 1]
  {
    DistinctCovers(d, |d| - 1);
    x :| 0 <= x < |d| && d[x] == |d| - 1;
  }

  /** Reading a sequence through a rearrangement of its indices keeps the elements. */
  lemma {:induction false} RearrangedElements<X>(dst: seq<X>, d: seq<nat>, src: seq<X>)
    requires ReadThrough(dst, d, src)
    ensures multiset(src) == multiset(dst)
    decreases |d|
  {
    var n := |d|;
    if n == 0 {
      assert src == dst;
    } else {
      assert |dst| == n == |src|;
      hide ReadThrough, Without;
      var x := LastIndex(dst, d, src);
      ReadThroughWithout(dst, d, src, x);
      RearrangedElements(Without(dst, n - 1), Without(d, x), Without(src, x));
      WithoutElements(src, x);
      WithoutElements(dst, n - 1);
    }
  }

  /** The scatter permutes: every element arrives exactly once. */
  lemma ScatteredElements<X>(A: seq<int>, src: seq<X>, dst: seq<X>)
    requires Scattered(A, src, |A|, dst) && |dst| == |A|
    ensures multiset(dst) == multiset(src)
  {
    var d: seq<nat> := [];
    while |d| < |A|
      invariant |d| <= |A|
      invariant forall x :: 0 <= x < |d| ==> d[x] == Dest(A, x) < |A|
    {
      DestInBucket(A, |d|);
      d := d + [Dest(A, |d|)];
    }
    forall x, y | 0 <= x < y < |d| ensures d[x] != d[y] { DestOrder(A, x, y); }
    RearrangedElements(dst, d, src);
  }
}
