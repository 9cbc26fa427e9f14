/** Sorting the scattered entries bucket by bucket, and what the resulting stream of positions is. */
module SpsaBuckets {
  import opened Suffix
  import opened Buckets
  import opened Scatter
  import opened SpsaKey
  import opened SpsaSort
  import opened SpsaMerge
  import SpsaLayout
  import StdSort

  ghost predicate SlotIn(A: seq<int>, c: int, k: int)
  {
    Offset(A, c) <= k < Offset(A, c + 1)
  }

  /** S is a permutation of the visited positions E, grouped by first byte. */
  ghost predicate Grouped(T: seq<Byte>, E: seq<nat>, S: seq<nat>)
    requires InText(T, E)
  {
    && |S| == |E| && multiset(S) == multiset(E) && InText(T, S)
    && forall k :: 0 <= k < |S| ==> SlotIn(FirstBytes(T, E), T[S[k]], k)
  }

  /** The order the merge gives the slots [lo, hi): suffix order from 32 entries on, (key, pos) order below. */
  ghost predicate RangeOrdered(T: seq<Byte>, lo: int, hi: int, S: seq<nat>)
    requires InText(T, S)
  {
    forall x, y :: 0 <= x < |S| && 0 <= y < |S| && lo <= x < y < hi ==> PairOrdered(T, hi - lo, S[x], S[y])
  }

  ghost predicate PairOrdered(T: seq<Byte>, size: int, p: nat, q: nat)
    requires p < |T| && q < |T|
  {
    if size >= 32 then Ordered(T, p, q)
    else Key(T, p) < Key(T, q) || (Key(T, p) == Key(T, q) && p <= q)
  }

  ghost predicate BucketsOrdered(T: seq<Byte>, E: seq<nat>, b: int, S: seq<nat>)
    requires InText(T, E) && InText(T, S)
  {
    forall c :: 0 <= c < b ==> RangeOrdered(T, Offset(FirstBytes(T, E), c), Offset(FirstBytes(T, E), c + 1), S)
  }

  lemma PlacedIsGrouped(T: seq<Byte>, E: seq<nat>, idx: seq<int>, S: seq<nat>)
    requires InText(T, E) && Placing(T, E, |E|, idx, S)
    ensures Grouped(T, E, S)
  {
    var A := FirstBytes(T, E);
    ScatteredElements(A, E, S);
    forall k | 0 <= k < |S| ensures S[k] < |T| && SlotIn(A, T[S[k]], k) {
      var i := ScatteredSlot(A, E, S, k);
      assert A[i] == T[E[i]];
    }
  }

  // ---------- one bucket ----------

  ghost function EntryOf(T: seq<Byte>, p: nat): SortEntry
  {
    SortEntry(Key(T, p), p, p)
  }

  ghost function PositionsOf(s: seq<SortEntry>): (r: seq<nat>)
    ensures |r| == |s| && forall i :: 0 <= i < |s| ==> r[i] == s[i].pos
  {
    seq(|s|, i requires 0 <= i < |s| => s[i].pos)
  }

  lemma {:induction false} CountPositions(T: seq<Byte>, s: seq<SortEntry>, p: nat)
    requires ValidEntries(T, s)
    ensures multiset(PositionsOf(s))[p] == multiset(s)[EntryOf(T, p)]
    decreases |s|
  {
    if s != [] {
      var last := |s| - 1;
      CountPositions(T, s[..last], p);
      assert s == s[..last] + [s[last]];
      assert PositionsOf(s) == PositionsOf(s[..last]) + [s[last].pos];
      assert ValidEntry(T, s[last]);
    }
  }

  lemma SamePositions(T: seq<Byte>, s: seq<SortEntry>, s2: seq<SortEntry>)
    requires ValidEntries(T, s) && ValidEntries(T, s2) && SameEntries(s, s2)
    ensures multiset(PositionsOf(s)) == multiset(PositionsOf(s2))
  {
    forall p: nat ensures multiset(PositionsOf(s))[p] == multiset(PositionsOf(s2))[p] {
      CountPositions(T, s, p);
      CountPositions(T, s2, p);
    }
  }

  method LoadBucket(T: seq<Byte>, entries: array<nat>, lo: nat, hi: nat) returns (arr: array<SortEntry>)
    requires lo <= hi <= entries.Length && |T| <= MAX_DATA_SIZE && InText(T, entries[..])
    ensures fresh(arr) && arr.Length == hi - lo && ValidEntries(T, arr[..])
    ensures PositionsOf(arr[..]) == entries[lo..hi]
  {
    arr := new SortEntry[hi - lo](_ => SortEntry(0, 0, 0));
    for i := 0 to hi - lo
      invariant forall k :: 0 <= k < i ==> ValidEntry(T, arr[k]) && arr[k].pos == entries[lo + k]
    {
      var e := entries[lo + i];
      assert e == entries[..][lo + i];
      RawEntryDecodes(e);
      var pos := RawPosition(e);
      var key := ExtractSortKey8Bytes(T, pos);
      arr[i] := SortEntry(key, pos, e);
    }
  }

  method StoreBucket(T: seq<Byte>, entries: array<nat>, lo: nat, arr: array<SortEntry>)
    requires lo + arr.Length <= entries.Length && ValidEntries(T, arr[..])
    modifies entries
    ensures entries[..] == old(entries[..lo]) + PositionsOf(arr[..]) + old(entries[lo + arr.Length..])
  {
    assert forall i :: 0 <= i < arr.Length ==> ValidEntry(T, arr[..][i]);
    forall i | 0 <= i < arr.Length { entries[lo + i] := arr[i].encoded; }
    assert entries[lo..lo + arr.Length] == PositionsOf(arr[..]);
  }

  /** The sorted bucket as a list of positions. */
  ghost predicate ListOrdered(T: seq<Byte>, r: seq<nat>)
    requires InText(T, r)
  {
    forall x, y :: 0 <= x < y < |r| ==> PairOrdered(T, |r|, r[x], r[y])
  }

  lemma SortedEntriesOrdered(T: seq<Byte>, s: seq<SortEntry>)
    requires ValidEntries(T, s)
    requires |s| >= 32 ==> InSuffixOrder(T, s)
    requires |s| < 32 ==> InKeyPosOrder(s)
    ensures InText(T, PositionsOf(s)) && ListOrdered(T, PositionsOf(s))
  {
    var r := PositionsOf(s);
    forall i | 0 <= i < |r| ensures r[i] < |T| { assert ValidEntry(T, s[i]); }
    forall x, y | 0 <= x < y < |r| ensures PairOrdered(T, |r|, r[x], r[y]) {
      assert ValidEntry(T, s[x]) && ValidEntry(T, s[y]);
      if |s| >= 32 {
        assert Ordered(T, s[x].pos, s[y].pos);
      } else {
        assert !KeyPosLess(s[y], s[x]);
      }
    }
  }

  /** S2 is S with the slots [lo, lo + |r|) replaced by r. */
  ghost predicate Replaced(S: seq<nat>, lo: nat, r: seq<nat>, S2: seq<nat>)
  {
    lo + |r| <= |S| && S2 == S[..lo] + r + S[lo + |r|..]
  }

  lemma ReplacedGrouped(T: seq<Byte>, E: seq<nat>, c: int, S: seq<nat>, lo: nat, r: seq<nat>, S2: seq<nat>)
    requires InText(T, E) && Grouped(T, E, S) && Replaced(S, lo, r, S2)
    requires lo == Offset(FirstBytes(T, E), c) && lo + |r| == Offset(FirstBytes(T, E), c + 1)
    requires multiset(r) == multiset(S[lo..lo + |r|])
    ensures Grouped(T, E, S2)
  {
    var hi := lo + |r|;
    var A := FirstBytes(T, E);
    assert S == S[..lo] + S[lo..hi] + S[hi..];
    StdSort.SameElements(r, S[lo..hi]);
    hide Offset, FirstBytes;
    forall k | 0 <= k < |S2| ensures S2[k] < |T| && SlotIn(A, T[S2[k]], k) {
      if lo <= k < hi {
        assert S2[k] == r[k - lo];
        assert r[k - lo] in S[lo..hi];
        var x :| 0 <= x < hi - lo && S[lo..hi][x] == S2[k];
        assert SlotIn(A, T[S[lo + x]], lo + x);
        SameSlotSameByte(A, T[S2[k]], c, lo + x);
      } else {
        assert S2[k] == S[k];
      }
    }
  }

  lemma SameSlotSameByte(A: seq<int>, c: int, d: int, k: int)
    requires SlotIn(A, c, k) && SlotIn(A, d, k)
    ensures c == d
  {
    if c < d { CountLessMonotone(A, |A|, c + 1, d); }
    if d < c { CountLessMonotone(A, |A|, d + 1, c); }
  }

  lemma ReplacedOrdered(T: seq<Byte>, E: seq<nat>, c: nat, S: seq<nat>, lo: nat, r: seq<nat>, S2: seq<nat>)
    requires InText(T, E) && InText(T, S) && InText(T, S2) && Replaced(S, lo, r, S2)
    requires lo == Offset(FirstBytes(T, E), c) && lo + |r| == Offset(FirstBytes(T, E), c + 1)
    requires BucketsOrdered(T, E, c, S) && InText(T, r) && ListOrdered(T, r)
    ensures BucketsOrdered(T, E, c + 1, S2)
  {
    var A := FirstBytes(T, E);
    hide PairOrdered, Offset;
    forall d | 0 <= d < c + 1 ensures RangeOrdered(T, Offset(A, d), Offset(A, d + 1), S2) {
      if d < c {
        OffsetMonotone(A, d + 1, c);
        assert RangeOrdered(T, Offset(A, d), Offset(A, d + 1), S);
        forall k | 0 <= k < Offset(A, d + 1) ensures S2[k] == S[k] { }
      } else {
        forall k | 0 <= k < |r| ensures S2[lo + k] == r[k] { }
        forall x, y | 0 <= x < |S2| && 0 <= y < |S2| && lo <= x < y < lo + |r| ensures PairOrdered(T, |r|, S2[x], S2[y]) {
          assert S2[x] == r[x - lo] && S2[y] == r[y - lo];
        }
      }
    }
  }

  lemma OffsetMonotone(A: seq<int>, c: int, d: int)
    requires c <= d
    ensures Offset(A, c) <= Offset(A, d) <= |A|
  {
    CountLessMonotone(A, |A|, c, d);
  }

  method SortBucket(T: seq<Byte>, entries: array<nat>, c: nat, lo: nat, size: nat, ghost E: seq<nat>)
    requires |T| <= MAX_DATA_SIZE && InText(T, E) && Grouped(T, E, entries[..])
    requires lo == Offset(FirstBytes(T, E), c) && lo + size == Offset(FirstBytes(T, E), c + 1) <= entries.Length
    requires BucketsOrdered(T, E, c, entries[..])
    modifies entries
    ensures Grouped(T, E, entries[..]) && BucketsOrdered(T, E, c + 1, entries[..])
  {
    ghost var S: seq<nat> := entries[..];
    hide Grouped, BucketsOrdered, Offset, FirstBytes, SharedFirstByte, ValidEntries, SameEntries, InSuffixOrder, InKeyPosOrder;
    GroupedInText(T, E, S);
    if size > 1 {
      BucketShared(T, E, S, c, lo, lo + size);
      var arr := LoadBucket(T, entries, lo, lo + size);
      ghost var s := arr[..];
      assert PositionsOf(s) == S[lo..lo + size];
      LoadedShared(T, S, lo, lo + size, s);
      RadixSortEntries(T, arr);
      ghost var s2 := arr[..];
      StoreBucket(T, entries, lo, arr);
      StoredBucket(T, E, c, S, lo, s, s2, entries[..]);
    } else {
      SmallBucket(T, E, c, S, lo, size);
    }
  }

  /** A bucket of at most one entry is sorted. */
  lemma SmallBucket(T: seq<Byte>, E: seq<nat>, c: nat, S: seq<nat>, lo: nat, size: nat)
    requires InText(T, E) && InText(T, S) && BucketsOrdered(T, E, c, S) && size <= 1
    requires lo == Offset(FirstBytes(T, E), c) && lo + size == Offset(FirstBytes(T, E), c + 1) <= |S|
    ensures BucketsOrdered(T, E, c + 1, S)
  {
    hide BucketsOrdered, Offset, FirstBytes;
    var r := S[lo..lo + size];
    assert Replaced(S, lo, r, S);
    ReplacedOrdered(T, E, c, S, lo, r, S);
  }

  lemma StoredBucket(T: seq<Byte>, E: seq<nat>, c: nat, S: seq<nat>, lo: nat, s: seq<SortEntry>, s2: seq<SortEntry>,
                     S2: seq<nat>)
    requires InText(T, E) && Grouped(T, E, S) && BucketsOrdered(T, E, c, S)
    requires lo == Offset(FirstBytes(T, E), c) && lo + |s| == Offset(FirstBytes(T, E), c + 1) <= |S|
    requires ValidEntries(T, s) && ValidEntries(T, s2) && SameEntries(s, s2) && PositionsOf(s) == S[lo..lo + |s|]
    requires |s2| >= 32 ==> InSuffixOrder(T, s2)
    requires |s2| < 32 ==> InKeyPosOrder(s2)
    requires S2 == S[..lo] + PositionsOf(s2) + S[lo + |s|..]
    ensures Grouped(T, E, S2) && BucketsOrdered(T, E, c + 1, S2)
  {
    var r := PositionsOf(s2);
    assert |s2| == |s|;
    SamePositions(T, s, s2);
    SortedEntriesOrdered(T, s2);
    hide Grouped, BucketsOrdered, Offset, FirstBytes, ValidEntries, SameEntries, InSuffixOrder, InKeyPosOrder;
    assert Replaced(S, lo, r, S2);
    ReplacedGrouped(T, E, c, S, lo, r, S2);
    GroupedInText(T, E, S);
    GroupedInText(T, E, S2);
    ReplacedOrdered(T, E, c, S, lo, r, S2);
  }

  lemma GroupedInText(T: seq<Byte>, E: seq<nat>, S: seq<nat>)
    requires InText(T, E) && Grouped(T, E, S)
    ensures InText(T, S)
  {
  }

  lemma BucketShared(T: seq<Byte>, E: seq<nat>, S: seq<nat>, c: int, lo: int, hi: int)
    requires InText(T, E) && Grouped(T, E, S)
    requires lo == Offset(FirstBytes(T, E), c) && hi == Offset(FirstBytes(T, E), c + 1)
    ensures forall k :: lo <= k < hi && k < |S| ==> T[S[k]] == c
  {
    forall k | lo <= k < hi && k < |S| ensures T[S[k]] == c {
      assert SlotIn(FirstBytes(T, E), T[S[k]], k) && SlotIn(FirstBytes(T, E), c, k);
      SameSlotSameByte(FirstBytes(T, E), T[S[k]], c, k);
    }
  }

  lemma LoadedShared(T: seq<Byte>, S: seq<nat>, lo: nat, hi: nat, s: seq<SortEntry>)
    requires lo <= hi <= |S| && ValidEntries(T, s) && PositionsOf(s) == S[lo..hi] && InText(T, S)
    requires forall i, j :: lo <= i < hi && lo <= j < hi ==> T[S[i]] == T[S[j]]
    ensures SharedFirstByte(T, s)
  {
    forall i, j | 0 <= i < |s| && 0 <= j < |s| ensures T[s[i].pos] == T[s[j].pos] {
      assert PositionsOf(s)[i] == S[lo + i] && PositionsOf(s)[j] == S[lo + j];
    }
  }

  method SortAllBuckets(T: seq<Byte>, entries: array<nat>, counts: array<int>, offsets: array<int>, ghost E: seq<nat>)
    requires |T| <= MAX_DATA_SIZE && InText(T, E) && Grouped(T, E, entries[..])
    requires counts.Length == 256 == offsets.Length && Tally(T, E, |E|, counts[..])
    requires Cursors(FirstBytes(T, E), 0, offsets[..])
    modifies entries
    ensures Grouped(T, E, entries[..]) && BucketsOrdered(T, E, 256, entries[..])
  {
    for b := 0 to 256
      invariant Grouped(T, E, entries[..]) && BucketsOrdered(T, E, b, entries[..])
    {
      ghost var A := FirstBytes(T, E);
      CountLessStep(A, |A|, b);
      OffsetMonotone(A, b + 1, b + 1);
      assert offsets[..][b] == Offset(A, b) && counts[..][b] == CountKey(A, |E|, b);
      hide Grouped, BucketsOrdered, Tally, Cursors;
      SortBucket(T, entries, b, offsets[b], counts[b], E);
    }
  }

  // ---------- the stream as a suffix array ----------

  /** In buckets below 32 entries, positions with equal keys already stand in suffix order. */
  ghost predicate SmallTiesOrdered(T: seq<Byte>)
  {
    forall p, q :: 0 <= p < q < |T| && Key(T, p) == Key(T, q) && Freq(T, T[p]) < 32 ==> Less(T, p, q)
  }

  lemma SizeIsFrequency(T: seq<Byte>, E: seq<nat>, S: seq<nat>, c: int)
    requires InText(T, E) && Grouped(T, E, S) && |E| == |T|
    requires forall p :: 0 <= p < |T| ==> p in S
    ensures Offset(FirstBytes(T, E), c + 1) - Offset(FirstBytes(T, E), c) == Freq(T, c)
  {
    var A := FirstBytes(T, E);
    var lo, hi := Offset(A, c), Offset(A, c + 1);
    OffsetMonotone(A, c, c + 1);
    SpsaLayout.CoverIsDistinct(S, |T|);
    BucketShared(T, E, S, c, lo, hi);
    var L := S[lo..hi];
    forall p | 0 <= p < |T| && T[p] == c ensures p in L {
      assert p in S;
      var k :| 0 <= k < |S| && S[k] == p;
      assert SlotIn(A, c, k);
      assert L[k - lo] == p;
    }
    ListCardinality(|T|, L, HasByte(T, c), hi - lo);
  }

  lemma SlotsByByte(T: seq<Byte>, E: seq<nat>, S: seq<nat>, x: nat, y: nat)
    requires InText(T, E) && Grouped(T, E, S) && x < y < |S|
    ensures T[S[x]] <= T[S[y]]
  {
    var A := FirstBytes(T, E);
    assert SlotIn(A, T[S[x]], x) && SlotIn(A, T[S[y]], y);
    if T[S[y]] < T[S[x]] { CountLessMonotone(A, |A|, T[S[y]] as int + 1, T[S[x]]); }
  }

  /** Two slots of one bucket, with the order the merge gave them. */
  lemma SameBucketPair(T: seq<Byte>, E: seq<nat>, S: seq<nat>, x: nat, y: nat)
    requires InText(T, E) && Grouped(T, E, S) && BucketsOrdered(T, E, 256, S) && |E| == |T|
    requires forall p :: 0 <= p < |T| ==> p in S
    requires x < y < |S| && T[S[x]] == T[S[y]]
    ensures PairOrdered(T, Freq(T, T[S[x]]), S[x], S[y])
  {
    var A := FirstBytes(T, E);
    var c := T[S[x]];
    SizeIsFrequency(T, E, S, c);
    assert SlotIn(A, c, x) && SlotIn(A, c, y);
    assert RangeOrdered(T, Offset(A, c), Offset(A, c as int + 1), S);
  }

  lemma SlotPair(T: seq<Byte>, E: seq<nat>, S: seq<nat>, x: nat, y: nat)
    requires InText(T, E) && Grouped(T, E, S) && BucketsOrdered(T, E, 256, S) && |E| == |T|
    requires forall p :: 0 <= p < |T| ==> p in S
    requires x < y < |S| && S[x] != S[y] && SmallTiesOrdered(T)
    ensures Less(T, S[x], S[y])
  {
    SlotsByByte(T, E, S, x, y);
    if T[S[x]] == T[S[y]] {
      SameBucketPair(T, E, S, x, y);
      hide Grouped, BucketsOrdered;
      if Freq(T, T[S[x]]) < 32 && Key(T, S[x]) < Key(T, S[y]) {
        KeyOrder(T, S[x], S[y], 8);
      }
    }
  }

  /** When every position is visited once, the stream is the suffix array exactly when no bucket
      below 32 entries holds an equal-key pair in the wrong order. */
  lemma StreamIsSuffixArray(T: seq<Byte>, E: seq<nat>, S: seq<nat>)
    requires InText(T, E) && Grouped(T, E, S) && BucketsOrdered(T, E, 256, S)
    requires |E| == |T| && forall p :: 0 <= p < |T| ==> p in E
    ensures S == SuffixArray(T) <==> SmallTiesOrdered(T)
  {
    StdSort.SameElements(S, E);
    assert |S| == |T| && InText(T, S);
    SpsaLayout.CoverIsDistinct(S, |T|);
    if SmallTiesOrdered(T) {
      forall x, y | 0 <= x < y < |S| ensures Less(T, S[x], S[y]) { SlotPair(T, E, S, x, y); }
      SuffixArrayUnique(T, S);
    }
    if S == SuffixArray(T) {
      forall p, q | 0 <= p < q < |T| && Key(T, p) == Key(T, q) && Freq(T, T[p]) < 32 ensures Less(T, p, q) {
        EqualKeysShareByte(T, p, q);
        var x, y := Rank(T, p), Rank(T, q);
        if y < x {
          SameBucketPair(T, E, S, y, x);
        } else {
          InOrder(T, x, y);
        }
      }
    }
  }

  lemma EqualKeysShareByte(T: seq<Byte>, p: nat, q: nat)
    requires p < |T| && q < |T| && Key(T, p) == Key(T, q)
    ensures T[p] == T[q]
  {
    EqualKeys(T, p, q, 8);
    assert Pad(T, p, 0) == Pad(T, q, 0);
  }

  /** A text of one byte only. */
  ghost predicate OneByteText(T: seq<Byte>, c: Byte) {
    forall i :: 0 <= i < |T| ==> T[i] == c
  }

  /** Texts of equal bytes: the small-bucket sort orders them exactly when the bucket has 32 entries, or no two of its keys are
      equal, which is up to eight bytes, but only one when the byte is the 0 that pads keys. */
  lemma EqualBytesTies(T: seq<Byte>, c: Byte)
    requires OneByteText(T, c)
    ensures SmallTiesOrdered(T) <==> |T| >= 32 || |T| <= if c == 0 then 1 else 8
  {
    hide Less, Freq, Key, KeyOf, Pad;
    RunFrequency(T, c);
    if |T| < 32 && |T| > (if c == 0 then 1 else 8) {
      KeysOfRun(T, c, 8);
      RunOrder(T, c, 0);
      LessAsymmetric(T, 1, 0);
    } else if |T| < 32 {
      forall p, q | 0 <= p < q < |T| ensures Key(T, p) != Key(T, q) { KeysDiffer(T, c, p, q); }
    }
  }

  lemma RunFrequency(T: seq<Byte>, c: Byte)
    requires OneByteText(T, c)
    ensures |T| > 0 ==> Freq(T, T[0]) == |T| && forall p :: 0 <= p < |T| ==> Freq(T, T[p]) == |T|
  {
    AllCounted(|T|, HasByte(T, c));
  }

  lemma {:induction false} AllCounted(n: nat, P: int -> bool)
    requires forall i :: 0 <= i < n ==> P(i)
    ensures CountIf(n, P) == n
  {
    if n > 0 { AllCounted(n - 1, P); }
  }

  /** In a run the shorter suffix comes first. */
  lemma {:induction false} RunOrder(T: seq<Byte>, c: Byte, p: nat)
    requires p < |T| && OneByteText(T, c)
    ensures Less(T, p + 1, p)
    decreases |T| - p
  {
    if p + 1 < |T| { RunOrder(T, c, p + 1); }
  }

  lemma {:induction false} KeysOfRun(T: seq<Byte>, c: Byte, k: nat)
    requires k <= 8 && OneByteText(T, c) && (|T| > 8 || c == 0)
    ensures KeyOf(T, 0, k) == KeyOf(T, 1, k) && (k == 8 ==> Key(T, 0) == Key(T, 1))
  {
    if k > 0 { KeysOfRun(T, c, k - 1); }
  }

  /** Within eight bytes the padding tells positions apart. */
  lemma KeysDiffer(T: seq<Byte>, c: Byte, p: nat, q: nat)
    requires OneByteText(T, c) && c != 0 && |T| <= 8 && p < q < |T|
    ensures Key(T, p) != Key(T, q)
  {
    assert Pad(T, p, |T| - q) == c && Pad(T, q, |T| - q) == 0;
    hide Pad;
    if Key(T, p) == Key(T, q) { EqualKeys(T, p, q, 8); }
  }

  /** Nine equal bytes: positions 0 and 1 have the same key and the shorter suffix must come first, but
      the small-bucket sort keeps them in position order. */
  lemma NineEqualBytes(T: seq<Byte>)
    requires |T| == 9 && forall i :: 0 <= i < 9 ==> T[i] == 1
    ensures Key(T, 0) == Key(T, 1) && Freq(T, T[0]) < 32 && Less(T, 1, 0)
    ensures !SmallTiesOrdered(T)
  {
    hide Less, Freq, Key, KeyOf;
    EqualBytesTies(T, 1);
    RunFrequency(T, 1);
    KeysOfRun(T, 1, 8);
    RunOrder(T, 1, 0);
  }
}
