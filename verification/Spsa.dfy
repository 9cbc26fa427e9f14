/** The SPSA route as code: collecting stamps, merging them, and emitting the position stream. */
module Spsa {
  import opened Suffix
  import opened Scatter
  import opened SpsaLayout
  import opened SpsaMerge
  import opened SpsaBuckets
  import StdSort

  class SpsaState {
    var stamps: seq<Stamp>
    var modified: seq<nat>
    var currentChunk: nat
    var currentStampIdx: int
    var bucketCounts: array<int>
    var bucketOffsets: array<int>
    var allEntries: array<nat>

    ghost predicate Valid()
      reads this
    {
      bucketCounts.Length == 256 == bucketOffsets.Length && bucketCounts != bucketOffsets
      && currentStampIdx == |stamps| - 1
    }

    ghost function Contents(): Layout
      reads this
    {
      Layout(stamps, modified, currentChunk)
    }

    constructor ()
      ensures Valid() && Contents() == EMPTY && Held(bucketCounts[..], bucketOffsets[..], allEntries[..])
      ensures fresh(bucketCounts) && fresh(bucketOffsets) && fresh(allEntries)
    {
      stamps, modified, currentChunk, currentStampIdx := [], [], 0, -1;
      bucketCounts := new int[256](_ => 0);
      bucketOffsets := new int[256](_ => 0);
      allEntries := new nat[0];
    }

    method Reset()
      requires Valid()
      modifies this`stamps, this`modified, this`currentChunk, this`currentStampIdx
      ensures Valid() && Contents() == EMPTY
    {
      stamps, modified, currentChunk, currentStampIdx := [], [], 0, -1;
    }

    method BeginStamp(p1: Byte, p2: Byte)
      requires Valid()
      modifies this`stamps, this`currentStampIdx
      ensures Valid() && Contents() == StartStamp(old(Contents()), p1, p2)
    {
      stamps := stamps + [Stamp(currentChunk, 0, p1, p2)];
      currentStampIdx := |stamps| - 1;
    }

    /** One position, dropped when the buffer is full. */
    method Record(pos: nat)
      modifies this`modified
      ensures modified == Append(old(modified), [pos])
    {
      if |modified| < MAX_MODIFIED_BYTES {
        modified := modified + [pos];
      }
    }

    /** Records the range pos1..pos2 of the current chunk, then its byte 255. */
    method RecordChunk(p1: Byte, p2: Byte)
      modifies this`modified
      ensures modified == Append(old(modified), ChunkModified(currentChunk, p1, p2))
    {
      ghost var m0 := modified;
      var lo, hi := 256 * currentChunk + p1 as int, 256 * currentChunk + p2 as int + 1;
      RecordRange(lo, if lo < hi then hi else lo);
      if p2 != 255 {
        AppendTwo(m0, if p1 <= p2 then Range(lo, hi) else [], [256 * currentChunk + 255]);
        Record(256 * currentChunk + 255);
      }
    }

    method RecordRange(from: nat, to: nat)
      requires from <= to
      modifies this`modified
      ensures modified == Append(old(modified), Range(from, to))
    {
      ghost var m0 := modified;
      var p := from;
      AppendNothing(m0);
      while p < to
        invariant from <= p <= to
        invariant modified == Append(m0, Range(from, p))
      {
        AppendOne(m0, from, p);
        Record(p);
        p := p + 1;
      }
    }

    method TakeChunk()
      requires Valid()
      modifies this`stamps, this`modified, this`currentChunk
      ensures Valid() && Contents() == AddChunk(old(Contents()))
    {
      if currentStampIdx >= 0 {
        var st := stamps[currentStampIdx];
        if st.chunkCount < MAX_CHUNKS_PER_STAMP {
          stamps := stamps[currentStampIdx := st.(chunkCount := st.chunkCount + 1)];
        }
        RecordChunk(st.pos1, st.pos2);
        currentChunk := currentChunk + 1;
      }
    }

    /** All chunks of one marker that lie inside the text. */
    method TakeMarker(n: nat, m: Marker, done0: nat) returns (done: nat)
      requires Valid()
      modifies this`stamps, this`modified, this`currentChunk, this`currentStampIdx
      ensures Valid() && Contents() == AddChunks(StartStamp(old(Contents()), m.p1, m.p2), n, m, 0)
      ensures done == ProcessedBy(n, m, 0, done0)
    {
      hide AddChunk, StartStamp;
      done := done0;
      BeginStamp(m.p1, m.p2);
      ghost var L1 := Contents();
      var c := 0;
      while c < m.Count()
        invariant 0 <= c <= m.Count() && Valid()
        invariant AddChunks(L1, n, m, 0) == AddChunks(Contents(), n, m, c)
        invariant ProcessedBy(n, m, 0, done0) == ProcessedBy(n, m, c, done)
      {
        var start := (m.First() + c) * 256;
        if start + 256 > n {
          return;
        }
        TakeChunk();
        done := if start + 256 > done then start + 256 else done;
        c := c + 1;
      }
    }

    method CollectMarkers(n: nat, markers: seq<Marker>)
      requires Valid()
      modifies this`stamps, this`modified, this`currentChunk, this`currentStampIdx
      ensures Valid() && Contents() == Collect(n, markers)
    {
      hide AddChunks, ProcessedBy;
      Reset();
      var done: nat := 0;
      for i := 0 to |markers|
        invariant Valid()
        invariant AddMarkers(EMPTY, n, markers) == AddMarkers(Contents(), n, markers[i..])
        invariant ProcessedUntil(n, markers, 0) == ProcessedUntil(n, markers[i..], done)
      {
        assert markers[i..][0] == markers[i] && markers[i..][1..] == markers[i + 1..];
        done := TakeMarker(n, markers[i], done);
      }
      assert markers[|markers|..] == [];
      ghost var m0 := modified;
      if done < n {
        RecordRange(done, n);
      } else {
        AppendNothing(m0);
      }
    }

    /** Leaves allEntries holding the visited positions grouped by first byte, each bucket in merge order.
        Without any stamp the previous entries stay. */
    method MergeStamps(T: seq<Byte>)
      requires Valid() && |T| <= MAX_DATA_SIZE
      modifies this`allEntries, bucketCounts, bucketOffsets
      ensures Valid()
      ensures stamps == [] ==> allEntries == old(allEntries) && allEntries[..] == old(allEntries[..])
                               && bucketCounts[..] == old(bucketCounts[..]) && bucketOffsets[..] == old(bucketOffsets[..])
      ensures stamps != [] ==> Merged(T, Contents(), bucketCounts[..], bucketOffsets[..], allEntries[..])
    {
      if stamps == [] { return; }
      ghost var E := Visited(Contents(), |T|);
      VisitedIsInText(T, Contents());
      hide Visited, Placing, Grouped, Tally, Cursors, BucketsOrdered;
      CountPass(T, bucketCounts, Layout(stamps, modified, currentChunk));
      var total := PrefixOffsets(T, bucketCounts, bucketOffsets, E);
      var entries := ScatterEntries(T, total, E);
      allEntries := entries;
      SortAllBuckets(T, entries, bucketCounts, bucketOffsets, E);
    }

    /** The scatter pass, with the offsets as starting cursors. */
    method ScatterEntries(T: seq<Byte>, total: nat, ghost E: seq<nat>) returns (entries: array<nat>)
      requires Valid() && E == Visited(Contents(), |T|) && InText(T, E) && total == |E|
      requires Cursors(FirstBytes(T, E), 0, bucketOffsets[..])
      ensures fresh(entries) && Grouped(T, E, entries[..])
    {
      hide Visited, Placing, Grouped, Tally, Cursors;
      ghost var offsets := bucketOffsets[..];
      entries := new nat[total];
      var scatterIdx := new int[256];
      forall b | 0 <= b < 256 { scatterIdx[b] := bucketOffsets[b]; }
      assert scatterIdx[..] == offsets;
      NothingPlaced(T, E, scatterIdx[..], entries[..]);
      ScatterPass(T, scatterIdx, entries, Layout(stamps, modified, currentChunk));
      PlacedIsGrouped(T, E, scatterIdx[..], entries[..]);
    }

    /** The stream of positions that is hashed, or failure on oversized input. Without any marker it is the
        stream that the state still holds. */
    method SpsaIntegrated(T: seq<Byte>, markers: seq<Marker>) returns (ok: bool, stream: seq<nat>)
      requires Valid() && Held(bucketCounts[..], bucketOffsets[..], allEntries[..])
      modifies this, bucketCounts, bucketOffsets
      ensures Valid() && Held(bucketCounts[..], bucketOffsets[..], allEntries[..])
      ensures ok <==> |T| <= MAX_DATA_SIZE
      ensures !ok ==> stream == [] && Contents() == old(Contents()) && allEntries[..] == old(allEntries[..])
      ensures ok ==> stream == allEntries[..] && Contents() == Collect(|T|, markers)
      ensures ok && markers == [] ==> stream == old(allEntries[..])
      ensures ok && markers != [] ==> IsStream(T, Visited(Collect(|T|, markers), |T|), stream)
    {
      stream := [];
      if |T| > MAX_DATA_SIZE {
        return false, stream;
      }
      hide Held, Merged;
      ok := true;
      CollectMarkers(|T|, markers);
      MarkersGiveStamps(|T|, markers);
      hide Collect, Visited, IsStream;
      MergeStamps(T);
      if markers != [] {
        MergedStream(T, Contents(), bucketCounts[..], bucketOffsets[..], allEntries[..]);
        MergedBuckets(T, Contents(), bucketCounts[..], bucketOffsets[..], allEntries[..]);
      }
      stream := EmitStream();
    }

    method EmitStream() returns (stream: seq<nat>)
      requires Valid() && Held(bucketCounts[..], bucketOffsets[..], allEntries[..])
      ensures stream == allEntries[..]
    {
      hide Contiguous, BucketStart;
      stream := [];
      ghost var S, counts, offsets := allEntries[..], bucketCounts[..], bucketOffsets[..];
      NoBuckets(offsets, |S|);
      for b := 0 to 256
        invariant 0 <= BucketStart(offsets, |S|, b) <= |S| && stream == S[..BucketStart(offsets, |S|, b)]
      {
        stream := EmitNext(b, stream, S, counts, offsets);
      }
      AllBuckets(offsets, |S|);
    }

    method EmitNext(b: nat, emitted: seq<nat>, ghost S: seq<nat>, ghost counts: seq<int>, ghost offsets: seq<int>)
      returns (stream: seq<nat>)
      requires Valid() && b < 256 && forall i :: 0 <= i < |S| ==> S[i] < MAX_DATA_SIZE
      requires S == allEntries[..] && counts == bucketCounts[..] && offsets == bucketOffsets[..]
      requires Contiguous(counts, offsets, |S|, b) && 0 <= BucketStart(offsets, |S|, b) <= |S|
      requires emitted == S[..BucketStart(offsets, |S|, b)]
      ensures 0 <= BucketStart(offsets, |S|, b + 1) <= |S| && stream == S[..BucketStart(offsets, |S|, b + 1)]
    {
      var start, len := bucketOffsets[b], bucketCounts[b];
      assert start == offsets[b] && len == counts[b];
      NextBucket(counts, offsets, |S|, b);
      var bucket := EmitBucket(start, len);
      NextSlice(S, emitted, start, start + len, bucket);
      stream := emitted + bucket;
    }

    method EmitBucket(start: nat, len: nat) returns (stream: seq<nat>)
      requires start + len <= allEntries.Length && forall i :: 0 <= i < allEntries.Length ==> allEntries[..][i] < MAX_DATA_SIZE
      ensures stream == allEntries[..][start..start + len]
    {
      stream := [];
      for i := 0 to len
        invariant stream == allEntries[start..start + i]
      {
        var entry := allEntries[start + i];
        assert entry == allEntries[..][start + i];
        RawEntryDecodes(entry);
        stream := stream + [RawPosition(entry)];
      }
    }
  }

  lemma NextSlice(S: seq<nat>, stream: seq<nat>, a: nat, b: nat, bucket: seq<nat>)
    requires a <= b <= |S| && stream == S[..a] && bucket == S[a..b]
    ensures stream + bucket == S[..b]
  {
  }

  lemma AppendOne(m: seq<nat>, from: nat, to: nat)
    requires from <= to
    ensures Append(Append(m, Range(from, to)), [to]) == Append(m, Range(from, to + 1))
  {
    assert Range(from, to + 1) == Range(from, to) + [to];
  }

  lemma AppendTwo(m: seq<nat>, a: seq<nat>, b: seq<nat>)
    ensures Append(Append(m, a), b) == Append(m, a + b)
  {
  }

  lemma AppendNothing(m: seq<nat>)
    ensures Append(m, []) == m
  {
  }

  lemma VisitedIsInText(T: seq<Byte>, L: Layout)
    ensures InText(T, Visited(L, |T|))
  {
    VisitedInText(L, |T|);
    var E := Visited(L, |T|);
    forall i | 0 <= i < |E| ensures E[i] < |T| { assert E[i] in E; }
  }

  lemma NothingPlaced(T: seq<Byte>, E: seq<nat>, idx: seq<int>, entries: seq<nat>)
    requires InText(T, E) && |idx| == 256 && |entries| == |E| && Cursors(FirstBytes(T, E), 0, idx)
    ensures Placing(T, E, 0, idx, entries)
  {
  }

  /** State after a merge. */
  ghost predicate Merged(T: seq<Byte>, L: Layout, counts: seq<int>, offsets: seq<int>, S: seq<nat>)
  {
    var E := Visited(L, |T|);
    && InText(T, E) && Grouped(T, E, S) && BucketsOrdered(T, E, 256, S)
    && |offsets| == 256 && Tally(T, E, |E|, counts) && Cursors(FirstBytes(T, E), 0, offsets)
  }

  /** stream lists the positions E bucket by bucket, each bucket in merge order. */
  ghost predicate IsStream(T: seq<Byte>, E: seq<nat>, stream: seq<nat>)
  {
    InText(T, E) && Grouped(T, E, stream) && BucketsOrdered(T, E, 256, stream)
  }

  lemma MergedStream(T: seq<Byte>, L: Layout, counts: seq<int>, offsets: seq<int>, S: seq<nat>)
    requires Merged(T, L, counts, offsets, S)
    ensures IsStream(T, Visited(L, |T|), S)
  {
  }

  /** Start of bucket b; the total for b == 256. */
  ghost function BucketStart(offsets: seq<int>, total: int, b: nat): int
    requires |offsets| == 256 && b <= 256
  {
    if b < 256 then offsets[b] else total
  }

  /** Bucket b ends where bucket b + 1 starts. */
  ghost predicate Contiguous(counts: seq<int>, offsets: seq<int>, total: int, b: nat)
    requires |offsets| == 256 == |counts| && b < 256
  {
    0 <= counts[b] && 0 <= offsets[b] && offsets[b] + counts[b] == BucketStart(offsets, total, b + 1) <= total
  }

  /** The buckets lie one behind the other and hold positions. */
  ghost predicate Held(counts: seq<int>, offsets: seq<int>, S: seq<nat>) {
    && |counts| == 256 == |offsets| && offsets[0] == 0 && (forall i :: 0 <= i < |S| ==> S[i] < MAX_DATA_SIZE)
    && forall b :: 0 <= b < 256 ==> Contiguous(counts, offsets, |S|, b)
  }

  lemma NoBuckets(offsets: seq<int>, total: int)
    requires |offsets| == 256
    ensures BucketStart(offsets, total, 0) == offsets[0]
  {
  }

  lemma AllBuckets(offsets: seq<int>, total: int)
    requires |offsets| == 256
    ensures BucketStart(offsets, total, 256) == total
  {
  }

  lemma NextBucket(counts: seq<int>, offsets: seq<int>, total: int, b: nat)
    requires |offsets| == 256 == |counts| && b < 256 && Contiguous(counts, offsets, total, b)
    ensures 0 <= counts[b] && 0 <= offsets[b] == BucketStart(offsets, total, b)
    ensures BucketStart(offsets, total, b) + counts[b] == BucketStart(offsets, total, b + 1) <= total
  {
  }

  lemma MergedBuckets(T: seq<Byte>, L: Layout, counts: seq<int>, offsets: seq<int>, S: seq<nat>)
    requires Merged(T, L, counts, offsets, S) && |T| <= MAX_DATA_SIZE
    ensures Held(counts, offsets, S)
  {
    var E := Visited(L, |T|);
    var A := FirstBytes(T, E);
    CountLessBounds(A, |E|, 0, 256);
    forall b | 0 <= b < 256 ensures Contiguous(counts, offsets, |S|, b) {
      CountLessStep(A, |E|, b);
      OffsetMonotone(A, b, b + 1);
      assert offsets[b] == Offset(A, b) && counts[b] == CountKey(A, |E|, b);
      if b < 255 { assert offsets[b + 1] == Offset(A, b + 1); }
    }
  }

  lemma {:induction false} MarkersKeepStamps(L: Layout, n: nat, m: Marker, c: nat)
    requires L.stamps != []
    ensures AddChunks(L, n, m, c).stamps != []
    decreases 128 - c
  {
    if c < m.Count() && (m.First() + c) * 256 + 256 <= n { MarkersKeepStamps(AddChunk(L), n, m, c + 1); }
  }

  lemma {:induction false} StampsStay(L: Layout, n: nat, markers: seq<Marker>)
    requires L.stamps != [] || markers != []
    ensures AddMarkers(L, n, markers).stamps != []
    decreases |markers|
  {
    if markers != [] {
      var L1 := StartStamp(L, markers[0].p1, markers[0].p2);
      MarkersKeepStamps(L1, n, markers[0], 0);
      StampsStay(AddChunks(L1, n, markers[0], 0), n, markers[1..]);
    }
  }

  lemma MarkersGiveStamps(n: nat, markers: seq<Marker>)
    ensures Collect(n, markers).stamps == [] <==> markers == []
  {
    if markers != [] { StampsStay(EMPTY, n, markers); }
  }

  /** The SPSA route, for any markers: the stream is the suffix array exactly when the collection visits every
      position once and no bucket below 32 entries holds an equal-key pair whose suffix order differs from its
      position order. The first condition alone gives a permutation. */
  lemma SpsaStream(T: seq<Byte>, markers: seq<Marker>, stream: seq<nat>)
    ensures IsStream(T, Visited(Collect(|T|, markers), |T|), stream) ==>
              && (Conserves(|T|, markers) <==> IsPermutation(|T|, stream))
              && (stream == SuffixArray(T) <==> Conserves(|T|, markers) && SmallTiesOrdered(T))
  {
    hide Visited, Collect, Conserves, IsSuffixArray;
    var E := Visited(Collect(|T|, markers), |T|);
    if IsStream(T, E, stream) {
      ConservationIff(|T|, markers);
      StdSort.SameElements(stream, E);
      assert |stream| == |E|;
      SuffixArrayPermutes(T);
      if Conserves(|T|, markers) {
        StreamIsSuffixArray(T, E, stream);
        hide Grouped, BucketsOrdered;
        CoverIsDistinct(stream, |T|);
      }
    }
  }

  lemma SuffixArrayPermutes(T: seq<Byte>)
    ensures |SuffixArray(T)| == |T| && forall p :: 0 <= p < |T| ==> p in SuffixArray(T)
  {
    SuffixArrayIsSuffixArray(T);
    forall p | 0 <= p < |T| ensures p in SuffixArray(T) { SuffixArrayCovers(T, p); }
  }

  /** On nine equal bytes no markers whatever lead to the suffix array. */
  lemma SmallTieCounterexample(T: seq<Byte>, markers: seq<Marker>, stream: seq<nat>)
    requires |T| == 9 && forall i :: 0 <= i < 9 ==> T[i] == 1
    ensures IsStream(T, Visited(Collect(|T|, markers), |T|), stream) ==> stream != SuffixArray(T)
  {
    NineEqualBytes(T);
    hide *;
    SpsaStream(T, markers, stream);
  }

  /** Every number below n, each once. */
  ghost predicate IsPermutation(n: nat, s: seq<nat>) {
    && |s| == n && (forall p :: 0 <= p < n ==> p in s)
    && forall i, j :: 0 <= i < j < n ==> s[i] != s[j]
  }
}
