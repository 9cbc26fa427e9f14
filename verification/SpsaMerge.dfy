/** The merge of stamps and modified bytes: counting pass, scatter pass over the same positions, and a
    sort of every first-byte bucket. */
module SpsaMerge {
  import opened Suffix
  import opened Buckets
  import opened Scatter
  import opened SpsaKey
  import opened SpsaSort
  import opened SpsaLayout
  import StdSort

  const MAX_DATA_SIZE: nat := 71000

  ghost predicate InText(T: seq<Byte>, E: seq<nat>) {
    forall i :: 0 <= i < |E| ==> E[i] < |T|
  }

  /** First bytes of the visited positions: the scatter keys. */
  ghost function FirstBytes(T: seq<Byte>, E: seq<nat>): (A: seq<int>)
    requires InText(T, E)
    ensures |A| == |E| && forall i :: 0 <= i < |E| ==> E[i] < |T| && A[i] == T[E[i]] && 0 <= A[i] < 256
  {
    seq(|E|, i requires 0 <= i < |E| => T[E[i]] as int)
  }

  // ---------- entry encoding ----------

  /** Bit 30 marks an entry that stands for a whole stamp column. */
  predicate IsPositionLevelEntry(entry: nat) {
    entry / 0x4000_0000 % 2 == 1
  }

  /** entry & 0x7FFFFFFF */
  function RawPosition(entry: nat): nat {
    entry % 0x8000_0000
  }

  lemma RawEntryDecodes(p: nat)
    requires p < 0x4000_0000
    ensures !IsPositionLevelEntry(p) && RawPosition(p) == p
  {
  }

  // ---------- the visiting order both passes follow ----------

  /** After v visits the positions in todo are still to come. */
  ghost predicate Remaining(E: seq<nat>, v: nat, todo: seq<nat>)
  {
    v <= |E| && E[v..] == todo
  }

  ghost function RowTodo(s: nat, p1: Byte, p2: Byte, rel: nat, n: nat, rest: seq<nat>): seq<nat>
  {
    RowFrom(s, p1, p2, rel, n) + rest
  }

  lemma NextVisited(E: seq<nat>, v: nat, x: nat, tail: seq<nat>)
    requires Remaining(E, v, [x] + tail)
    ensures v < |E| && E[v] == x && Remaining(E, v + 1, tail)
  {
    assert E[v..][0] == x;
    assert E[v + 1..] == E[v..][1..];
  }

  lemma RowStep(E: seq<nat>, v: nat, s: nat, p1: Byte, p2: Byte, rel: nat, n: nat, rest: seq<nat>)
    requires rel < 255 && Remaining(E, v, RowTodo(s, p1, p2, rel, n, rest))
    ensures s + rel >= n ==> Remaining(E, v, rest)
    ensures p1 <= rel <= p2 ==> Remaining(E, v, RowTodo(s, p1, p2, rel + 1, n, rest))
    ensures s + rel < n && !(p1 <= rel <= p2) ==>
              v < |E| && E[v] == s + rel && Remaining(E, v + 1, RowTodo(s, p1, p2, rel + 1, n, rest))
  {
    if s + rel >= n {
      RowPastEnd(s, p1, p2, rel, n);
      assert [] + rest == rest;
    } else if !(p1 <= rel <= p2) {
      assert RowTodo(s, p1, p2, rel, n, rest) == [s + rel] + RowTodo(s, p1, p2, rel + 1, n, rest);
      NextVisited(E, v, s + rel, RowTodo(s, p1, p2, rel + 1, n, rest));
    }
  }

  lemma RowDone(s: nat, p1: Byte, p2: Byte, n: nat, rest: seq<nat>)
    ensures RowTodo(s, p1, p2, 255, n, rest) == rest
  {
  }

  ghost function ChunksTodo(st: Stamp, c: nat, n: nat, rest: seq<nat>): seq<nat>
  {
    ChunksFrom(st, c, n) + rest
  }

  lemma ChunksStep(st: Stamp, c: nat, n: nat, rest: seq<nat>)
    requires c <= st.chunkCount
    ensures c < st.chunkCount ==>
              ChunksTodo(st, c, n, rest) ==
              RowTodo((st.startChunk + c) * 256, st.pos1, st.pos2, 0, n, ChunksTodo(st, c + 1, n, rest))
    ensures c == st.chunkCount ==> ChunksTodo(st, c, n, rest) == rest
  {
    hide RowFrom;
  }

  ghost function StampsTodo(stamps: seq<Stamp>, k: nat, n: nat, rest: seq<nat>): seq<nat>
  {
    StampsFrom(stamps, k, n) + rest
  }

  lemma StampsStep(stamps: seq<Stamp>, k: nat, n: nat, rest: seq<nat>)
    requires k <= |stamps|
    ensures k < |stamps| ==> StampsTodo(stamps, k, n, rest) == ChunksTodo(stamps[k], 0, n, StampsTodo(stamps, k + 1, n, rest))
    ensures k == |stamps| ==> StampsTodo(stamps, k, n, rest) == rest
  {
    hide ChunksFrom;
  }

  lemma ModifiedStep(E: seq<nat>, v: nat, modified: seq<nat>, i: nat, n: nat)
    requires i <= |modified| && Remaining(E, v, ModifiedFrom(modified, i, n))
    ensures i < |modified| && modified[i] >= n ==> Remaining(E, v, ModifiedFrom(modified, i + 1, n))
    ensures i < |modified| && modified[i] < n ==>
              v < |E| && E[v] == modified[i] && Remaining(E, v + 1, ModifiedFrom(modified, i + 1, n))
    ensures i == |modified| ==> v == |E|
  {
    if i < |modified| && modified[i] < n { NextVisited(E, v, modified[i], ModifiedFrom(modified, i + 1, n)); }
  }

  lemma VisitedTodo(L: Layout, n: nat)
    ensures Remaining(Visited(L, n), 0, StampsTodo(L.stamps, 0, n, ModifiedFrom(L.modified, 0, n)))
  {
    assert Visited(L, n)[0..] == Visited(L, n);
  }

  // ---------- counting pass ----------

  ghost predicate Tally(T: seq<Byte>, E: seq<nat>, v: nat, counts: seq<int>)
    requires InText(T, E)
  {
    v <= |E| && |counts| == 256 && forall b :: 0 <= b < 256 ==> counts[b] == CountKey(FirstBytes(T, E), v, b)
  }

  method CountOne(T: seq<Byte>, counts: array<int>, gp: nat, ghost E: seq<nat>, ghost v: nat)
    requires InText(T, E) && v < |E| && E[v] == gp < |T| && counts.Length == 256 && Tally(T, E, v, counts[..])
    modifies counts
    ensures Tally(T, E, v + 1, counts[..])
  {
    counts[T[gp]] := counts[T[gp]] + 1;
  }

  method CountRow(T: seq<Byte>, counts: array<int>, s: nat, p1: Byte, p2: Byte, ghost E: seq<nat>, ghost v0: nat,
                  ghost rest: seq<nat>) returns (ghost v: nat)
    requires InText(T, E) && counts.Length == 256 && Tally(T, E, v0, counts[..])
    requires Remaining(E, v0, RowTodo(s, p1, p2, 0, |T|, rest))
    modifies counts
    ensures Tally(T, E, v, counts[..]) && Remaining(E, v, rest)
  {
    hide Tally, InText, FirstBytes, Remaining, RowTodo, ChunksTodo, StampsTodo, ModifiedFrom;
    v := v0;
    var rel := 0;
    while rel < 255
      invariant 0 <= rel <= 255
      invariant Tally(T, E, v, counts[..]) && Remaining(E, v, RowTodo(s, p1, p2, rel, |T|, rest))
    {
      var gp := s + rel;
      RowStep(E, v, s, p1, p2, rel, |T|, rest);
      if !(p1 <= rel <= p2) {
        if gp >= |T| {
          return;
        }
        CountOne(T, counts, gp, E, v);
        v := v + 1;
      }
      rel := rel + 1;
    }
    RowDone(s, p1, p2, |T|, rest);
  }

  method CountStamps(T: seq<Byte>, counts: array<int>, stamps: seq<Stamp>, ghost E: seq<nat>, ghost rest: seq<nat>)
    returns (ghost v: nat)
    requires InText(T, E) && counts.Length == 256 && Tally(T, E, 0, counts[..])
    requires Remaining(E, 0, StampsTodo(stamps, 0, |T|, rest))
    modifies counts
    ensures Tally(T, E, v, counts[..]) && Remaining(E, v, rest)
  {
    hide Tally, InText, FirstBytes, Remaining, RowTodo, ChunksTodo, StampsTodo, ModifiedFrom;
    v := 0;
    for k := 0 to |stamps|
      invariant Tally(T, E, v, counts[..]) && Remaining(E, v, StampsTodo(stamps, k, |T|, rest))
    {
      var st := stamps[k];
      ghost var later := StampsTodo(stamps, k + 1, |T|, rest);
      StampsStep(stamps, k, |T|, rest);
      ChunksStep(st, 0, |T|, later);
      if st.chunkCount == 0 { continue; }
      for c := 0 to st.chunkCount
        invariant Tally(T, E, v, counts[..]) && Remaining(E, v, ChunksTodo(st, c, |T|, later))
      {
        ChunksStep(st, c, |T|, later);
        v := CountRow(T, counts, (st.startChunk + c) * 256, st.pos1, st.pos2, E, v, ChunksTodo(st, c + 1, |T|, later));
      }
      ChunksStep(st, st.chunkCount, |T|, later);
    }
    StampsStep(stamps, |stamps|, |T|, rest);
  }

  method CountModified(T: seq<Byte>, counts: array<int>, modified: seq<nat>, ghost E: seq<nat>, ghost v0: nat)
    requires InText(T, E) && counts.Length == 256 && Tally(T, E, v0, counts[..])
    requires Remaining(E, v0, ModifiedFrom(modified, 0, |T|))
    modifies counts
    ensures Tally(T, E, |E|, counts[..])
  {
    hide Tally, InText, FirstBytes, Remaining, RowTodo, ChunksTodo, StampsTodo, ModifiedFrom;
    ghost var v: nat := v0;
    for i := 0 to |modified|
      invariant Tally(T, E, v, counts[..]) && Remaining(E, v, ModifiedFrom(modified, i, |T|))
    {
      ModifiedStep(E, v, modified, i, |T|);
      if modified[i] < |T| {
        CountOne(T, counts, modified[i], E, v);
        v := v + 1;
      }
    }
    ModifiedStep(E, v, modified, |modified|, |T|);
  }

  method CountPass(T: seq<Byte>, counts: array<int>, L: Layout)
    requires counts.Length == 256 && InText(T, Visited(L, |T|))
    modifies counts
    ensures Tally(T, Visited(L, |T|), |Visited(L, |T|)|, counts[..])
  {
    hide StampsTodo, ModifiedFrom, InText, FirstBytes, Visited, Remaining;
    ghost var E := Visited(L, |T|);
    for b := 0 to 256
      invariant forall x :: 0 <= x < b ==> counts[x] == 0
    {
      counts[b] := 0;
    }
    VisitedTodo(L, |T|);
    ghost var v := CountStamps(T, counts, L.stamps, E, ModifiedFrom(L.modified, 0, |T|));
    hide Tally;
    CountModified(T, counts, L.modified, E, v);
  }

  // ---------- scatter pass ----------

  ghost predicate Placing(T: seq<Byte>, E: seq<nat>, v: nat, idx: seq<int>, entries: seq<nat>)
    requires InText(T, E)
  {
    && v <= |E| && |idx| == 256 && |entries| == |E|
    && Cursors(FirstBytes(T, E), v, idx) && Scattered(FirstBytes(T, E), E, v, entries)
  }

  method PlaceOne(T: seq<Byte>, idx: array<int>, entries: array<nat>, gp: nat, ghost E: seq<nat>, ghost v: nat)
    requires InText(T, E) && v < |E| && E[v] == gp < |T| && Placing(T, E, v, idx[..], entries[..])
    modifies idx, entries
    ensures Placing(T, E, v + 1, idx[..], entries[..])
  {
    hide FirstBytes;
    ghost var A := FirstBytes(T, E);
    ghost var idx0, d := idx[..], entries[..];
    var b := T[gp];
    assert A[v] == b;
    CursorsStep(A, v, idx0);
    ScatteredStep(A, E, v, d);
    hide Cursors, Scattered;
    entries[idx[b]] := gp;
    idx[b] := idx[b] + 1;
    assert entries[..] == d[Dest(A, v) := gp];
    assert idx[..] == idx0[b := idx0[b] + 1];
  }

  method PlaceRow(T: seq<Byte>, idx: array<int>, entries: array<nat>, s: nat, p1: Byte, p2: Byte, ghost E: seq<nat>, ghost v0: nat,
                  ghost rest: seq<nat>) returns (ghost v: nat)
    requires InText(T, E) && Placing(T, E, v0, idx[..], entries[..])
    requires Remaining(E, v0, RowTodo(s, p1, p2, 0, |T|, rest))
    modifies idx, entries
    ensures Placing(T, E, v, idx[..], entries[..]) && Remaining(E, v, rest)
  {
    hide Placing, InText, FirstBytes, Remaining, RowTodo, ChunksTodo, StampsTodo, ModifiedFrom;
    v := v0;
    var rel := 0;
    while rel < 255
      invariant 0 <= rel <= 255
      invariant Placing(T, E, v, idx[..], entries[..]) && Remaining(E, v, RowTodo(s, p1, p2, rel, |T|, rest))
    {
      var gp := s + rel;
      RowStep(E, v, s, p1, p2, rel, |T|, rest);
      if !(p1 <= rel <= p2) {
        if gp >= |T| {
          return;
        }
        PlaceOne(T, idx, entries, gp, E, v);
        v := v + 1;
      }
      rel := rel + 1;
    }
    RowDone(s, p1, p2, |T|, rest);
  }

  method PlaceStamps(T: seq<Byte>, idx: array<int>, entries: array<nat>, stamps: seq<Stamp>, ghost E: seq<nat>, ghost rest: seq<nat>)
    returns (ghost v: nat)
    requires InText(T, E) && Placing(T, E, 0, idx[..], entries[..])
    requires Remaining(E, 0, StampsTodo(stamps, 0, |T|, rest))
    modifies idx, entries
    ensures Placing(T, E, v, idx[..], entries[..]) && Remaining(E, v, rest)
  {
    hide Placing, InText, FirstBytes, Remaining, RowTodo, ChunksTodo, StampsTodo, ModifiedFrom;
    v := 0;
    for k := 0 to |stamps|
      invariant Placing(T, E, v, idx[..], entries[..]) && Remaining(E, v, StampsTodo(stamps, k, |T|, rest))
    {
      var st := stamps[k];
      ghost var later := StampsTodo(stamps, k + 1, |T|, rest);
      StampsStep(stamps, k, |T|, rest);
      ChunksStep(st, 0, |T|, later);
      if st.chunkCount == 0 { continue; }
      for c := 0 to st.chunkCount
        invariant Placing(T, E, v, idx[..], entries[..]) && Remaining(E, v, ChunksTodo(st, c, |T|, later))
      {
        ChunksStep(st, c, |T|, later);
        v := PlaceRow(T, idx, entries, (st.startChunk + c) * 256, st.pos1, st.pos2, E, v, ChunksTodo(st, c + 1, |T|, later));
      }
      ChunksStep(st, st.chunkCount, |T|, later);
    }
    StampsStep(stamps, |stamps|, |T|, rest);
  }

  method PlaceModified(T: seq<Byte>, idx: array<int>, entries: array<nat>, modified: seq<nat>, ghost E: seq<nat>, ghost v0: nat)
    requires InText(T, E) && Placing(T, E, v0, idx[..], entries[..])
    requires Remaining(E, v0, ModifiedFrom(modified, 0, |T|))
    modifies idx, entries
    ensures Placing(T, E, |E|, idx[..], entries[..])
  {
    hide Placing, InText, FirstBytes, Remaining, RowTodo, ChunksTodo, StampsTodo, ModifiedFrom;
    ghost var v: nat := v0;
    for i := 0 to |modified|
      invariant Placing(T, E, v, idx[..], entries[..]) && Remaining(E, v, ModifiedFrom(modified, i, |T|))
    {
      ModifiedStep(E, v, modified, i, |T|);
      if modified[i] < |T| {
        PlaceOne(T, idx, entries, modified[i], E, v);
        v := v + 1;
      }
    }
    ModifiedStep(E, v, modified, |modified|, |T|);
  }

  method ScatterPass(T: seq<Byte>, idx: array<int>, entries: array<nat>, L: Layout)
    requires InText(T, Visited(L, |T|)) && Placing(T, Visited(L, |T|), 0, idx[..], entries[..])
    modifies idx, entries
    ensures Placing(T, Visited(L, |T|), |Visited(L, |T|)|, idx[..], entries[..])
  {
    hide StampsTodo, ModifiedFrom, InText, FirstBytes, Placing, Visited, Remaining;
    ghost var E := Visited(L, |T|);
    VisitedTodo(L, |T|);
    ghost var v := PlaceStamps(T, idx, entries, L.stamps, E, ModifiedFrom(L.modified, 0, |T|));
    PlaceModified(T, idx, entries, L.modified, E, v);
  }

  method PrefixOffsets(T: seq<Byte>, counts: array<int>, offsets: array<int>, ghost E: seq<nat>) returns (total: nat)
    requires InText(T, E) && counts.Length == 256 == offsets.Length && counts != offsets
    requires Tally(T, E, |E|, counts[..])
    modifies offsets
    ensures total == |E| && Cursors(FirstBytes(T, E), 0, offsets[..])
  {
    ghost var A := FirstBytes(T, E);
    CountLessBounds(A, |A|, 0, 256);
    var offset := 0;
    for b := 0 to 256
      invariant offset == Offset(A, b) && Tally(T, E, |E|, counts[..])
      invariant forall c :: 0 <= c < b ==> offsets[c] == Offset(A, c)
    {
      CountLessStep(A, |A|, b);
      offsets[b] := offset;
      assert counts[..][b] == CountKey(A, |E|, b);
      offset := offset + counts[b];
    }
    total := offset;
  }
}
