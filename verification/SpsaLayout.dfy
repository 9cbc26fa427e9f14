/** How template markers are turned into stamps and modified bytes, and which text positions they
    stand for. */
module SpsaLayout {
  import opened Suffix

  const MAX_MODIFIED_BYTES: nat := 16384
  const MAX_CHUNKS_PER_STAMP: nat := 128

  datatype Marker = Marker(p1: Byte, p2: Byte, posData: nat) {
    function First(): nat { posData / 128 }
    function Count(): nat { posData % 128 }
  }

  datatype Stamp = Stamp(startChunk: nat, chunkCount: nat, pos1: Byte, pos2: Byte)

  /** Stamps, modified positions, and the running chunk number. */
  datatype Layout = Layout(stamps: seq<Stamp>, modified: seq<nat>, currentChunk: nat)

  const EMPTY: Layout := Layout([], [], 0)

  function StartStamp(L: Layout, p1: Byte, p2: Byte): Layout {
    L.(stamps := L.stamps + [Stamp(L.currentChunk, 0, p1, p2)])
  }

  /** Appends as many of the new positions as the fixed buffer has room for. */
  function Append(modified: seq<nat>, positions: seq<nat>): (r: seq<nat>) {
    var room := if |modified| < MAX_MODIFIED_BYTES then MAX_MODIFIED_BYTES - |modified| else 0;
    modified + if |positions| <= room then positions else positions[..room]
  }

  function Range(from: nat, to: nat): (r: seq<nat>)
    requires from <= to
    ensures |r| == to - from && forall i :: 0 <= i < |r| ==> r[i] == from + i
  {
    seq(to - from, (i: nat) => from + i)
  }

  /** Positions of chunk k recorded one by one: the range pos1..pos2, then byte 255. */
  function ChunkModified(k: nat, p1: Byte, p2: Byte): seq<nat> {
    (if p1 <= p2 then Range(256 * k + p1 as int, 256 * k + p2 as int + 1) else []) +
    if p2 != 255 then [256 * k + 255] else []
  }

  /** How many positions a chunk records. */
  function RecordSize(p1: Byte, p2: Byte): nat {
    (if p1 <= p2 then p2 - p1 + 1 else 0) + if p2 != 255 then 1 else 0
  }

  function AddChunk(L: Layout): Layout {
    if L.stamps == [] then L
    else
      var last := |L.stamps| - 1;
      var st := L.stamps[last];
      var st' := if st.chunkCount < MAX_CHUNKS_PER_STAMP then st.(chunkCount := st.chunkCount + 1) else st;
      Layout(L.stamps[last := st'], Append(L.modified, ChunkModified(L.currentChunk, st.pos1, st.pos2)), L.currentChunk + 1)
  }

  /** Chunks c, c+1, ... of a marker, as long as the chunk lies inside the text. */
  function AddChunks(L: Layout, n: nat, m: Marker, c: nat): Layout
    decreases 128 - c
  {
    if c >= m.Count() || (m.First() + c) * 256 + 256 > n then L else AddChunks(AddChunk(L), n, m, c + 1)
  }

  function AddMarkers(L: Layout, n: nat, markers: seq<Marker>): Layout
    decreases |markers|
  {
    if markers == [] then L
    else AddMarkers(AddChunks(StartStamp(L, markers[0].p1, markers[0].p2), n, markers[0], 0), n, markers[1..])
  }

  /** End of the last whole chunk taken, over all markers. */
  function ProcessedUntil(n: nat, markers: seq<Marker>, acc: nat): nat
    decreases |markers|
  {
    if markers == [] then acc else ProcessedUntil(n, markers[1..], ProcessedBy(n, markers[0], 0, acc))
  }

  function ProcessedBy(n: nat, m: Marker, c: nat, acc: nat): nat
    decreases 128 - c
  {
    var start := (m.First() + c) * 256;
    if c >= m.Count() || start + 256 > n then acc
    else ProcessedBy(n, m, c + 1, if start + 256 > acc then start + 256 else acc)
  }

  /** The layout SPSA builds for a text of n bytes. */
  function Collect(n: nat, markers: seq<Marker>): Layout {
    var L := AddMarkers(EMPTY, n, markers);
    var done := ProcessedUntil(n, markers, 0);
    L.(modified := Append(L.modified, if done <= n then Range(done, n) else []))
  }

  // ---------- which positions a layout stands for ----------

  /** Positions of the chunk starting at s, from offset rel on: offsets below 255 outside pos1..pos2
      that lie inside the text. */
  ghost function RowFrom(s: nat, p1: Byte, p2: Byte, rel: nat, n: nat): seq<nat>
    decreases 255 - rel
  {
    if rel >= 255 then []
    else (if p1 <= rel <= p2 || s + rel >= n then [] else [s + rel]) + RowFrom(s, p1, p2, rel + 1, n)
  }

  ghost function ChunksFrom(st: Stamp, c: nat, n: nat): seq<nat>
    decreases st.chunkCount - c
  {
    if c >= st.chunkCount then []
    else RowFrom((st.startChunk + c) * 256, st.pos1, st.pos2, 0, n) + ChunksFrom(st, c + 1, n)
  }

  ghost function StampsFrom(stamps: seq<Stamp>, k: nat, n: nat): seq<nat>
    decreases |stamps| - k
  {
    if k >= |stamps| then [] else ChunksFrom(stamps[k], 0, n) + StampsFrom(stamps, k + 1, n)
  }

  ghost function ModifiedFrom(modified: seq<nat>, i: nat, n: nat): seq<nat>
    decreases |modified| - i
  {
    if i >= |modified| then [] else (if modified[i] < n then [modified[i]] else []) + ModifiedFrom(modified, i + 1, n)
  }

  /** Everything both merge passes visit, in visiting order. */
  ghost function Visited(L: Layout, n: nat): seq<nat> {
    StampsFrom(L.stamps, 0, n) + ModifiedFrom(L.modified, 0, n)
  }

  /** Past the end of the text a row is empty, so leaving the loop there changes nothing. */
  lemma {:induction false} RowPastEnd(s: nat, p1: Byte, p2: Byte, rel: nat, n: nat)
    requires s + rel >= n
    ensures RowFrom(s, p1, p2, rel, n) == []
    decreases 255 - rel
  {
    if rel < 255 { RowPastEnd(s, p1, p2, rel + 1, n); }
  }

  lemma VisitedInText(L: Layout, n: nat)
    ensures forall p :: p in Visited(L, n) ==> p < n
  {
    StampsInText(L.stamps, 0, n);
    ModifiedInText(L.modified, 0, n);
  }

  lemma {:induction false} RowInText(s: nat, p1: Byte, p2: Byte, rel: nat, n: nat)
    ensures forall p :: p in RowFrom(s, p1, p2, rel, n) ==> p < n
    decreases 255 - rel
  {
    if rel < 255 { RowInText(s, p1, p2, rel + 1, n); }
  }

  lemma {:induction false} ChunksInText(st: Stamp, c: nat, n: nat)
    ensures forall p :: p in ChunksFrom(st, c, n) ==> p < n
    decreases st.chunkCount - c
  {
    hide RowFrom;
    if c < st.chunkCount {
      RowInText((st.startChunk + c) * 256, st.pos1, st.pos2, 0, n);
      ChunksInText(st, c + 1, n);
    }
  }

  lemma {:induction false} StampsInText(stamps: seq<Stamp>, k: nat, n: nat)
    ensures forall p :: p in StampsFrom(stamps, k, n) ==> p < n
    decreases |stamps| - k
  {
    hide ChunksFrom;
    if k < |stamps| {
      ChunksInText(stamps[k], 0, n);
      StampsInText(stamps, k + 1, n);
    }
  }

  lemma {:induction false} ModifiedInText(modified: seq<nat>, i: nat, n: nat)
    ensures forall p :: p in ModifiedFrom(modified, i, n) ==> p < n
    decreases |modified| - i
  {
    if i < |modified| { ModifiedInText(modified, i + 1, n); }
  }

  // ---------- conservation ----------

  /** The markers tile the chunks from 0 on, and their ranges are not empty. */
  ghost predicate Tiles(markers: seq<Marker>, from: nat)
    decreases |markers|
  {
    markers == [] ||
    (markers[0].First() == from && markers[0].p1 <= markers[0].p2 && Tiles(markers[1..], from + markers[0].Count()))
  }

  /** Positions of the text before chunk k. */
  function Reach(k: nat, n: nat): nat { if 256 * k <= n then 256 * k else n }

  /** What fits the buffer. */
  function Truncate(recorded: seq<nat>): (r: seq<nat>) {
    if |recorded| <= MAX_MODIFIED_BYTES then recorded else recorded[..MAX_MODIFIED_BYTES]
  }

  /** What both merge passes would visit if the buffer had room for everything recorded. */
  ghost function VisitedAll(stamps: seq<Stamp>, recorded: seq<nat>, n: nat): seq<nat> {
    StampsFrom(stamps, 0, n) + ModifiedFrom(recorded, 0, n)
  }

  /** Invariant of the collection, with everything recorded so far: together with the untouched bytes it is
      the chunks numbered so far, as far as the text goes, one entry a position. */
  ghost predicate VisitInv(L: Layout, recorded: seq<nat>, n: nat)
  {
    var E := VisitedAll(L.stamps, recorded, n);
    && L.modified == Truncate(recorded) && |E| == Reach(L.currentChunk, n)
    && (forall p :: 0 <= p < Reach(L.currentChunk, n) ==> p in E)
    && forall p :: p in E ==> p < 256 * L.currentChunk
  }

  ghost predicate LastStampCurrent(L: Layout)
  {
    && L.stamps != []
    && var st := L.stamps[|L.stamps| - 1]; st.startChunk + st.chunkCount == L.currentChunk
  }

  /** The untouched part of a row, as far as the text goes: e is where the text or the row ends. */
  lemma {:induction false} RowContent(s: nat, p1: int, p2: int, rel: nat, n: nat, e: nat)
    requires 0 <= p1 < 256 && 0 <= p2 < 256 && e == if n <= s then 0 else if n - s >= 255 then 255 else n - s
    ensures forall p :: s + rel <= p < s + e && !(s + p1 <= p <= s + p2) ==> p in RowFrom(s, p1, p2, rel, n)
    ensures |RowFrom(s, p1, p2, rel, n)| == if rel >= e then 0 else e - rel - Overlap(p1, p2, rel, e)
    decreases 255 - rel
  {
    if rel < 255 {
      RowContent(s, p1, p2, rel + 1, n, e);
    }
  }

  /** How many of rel..e-1 lie in p1..p2. */
  function Overlap(p1: int, p2: int, rel: int, e: int): nat {
    var lo, hi := if p1 < rel then rel else p1, if p2 < e then p2 + 1 else e;
    if lo < hi then hi - lo else 0
  }

  lemma {:induction false} ModifiedAppend(a: seq<nat>, b: seq<nat>, i: nat, n: nat)
    requires i <= |a|
    ensures ModifiedFrom(a + b, i, n) == ModifiedFrom(a, i, n) + ModifiedFrom(b, 0, n)
    decreases |a| - i
  {
    if i < |a| {
      ModifiedAppend(a, b, i + 1, n);
    } else {
      ModifiedTail(a, b, 0, n);
    }
  }

  lemma {:induction false} ModifiedTail(a: seq<nat>, b: seq<nat>, i: nat, n: nat)
    requires i <= |b|
    ensures ModifiedFrom(a + b, |a| + i, n) == ModifiedFrom(b, i, n)
    decreases |b| - i
  {
    if i < |b| { ModifiedTail(a, b, i + 1, n); }
  }

  /** The part of a range below n. */
  lemma {:induction false} RangeBelow(lo: nat, hi: nat, n: nat)
    requires lo <= hi
    ensures |ModifiedFrom(Range(lo, hi), 0, n)| == if n <= lo then 0 else if hi <= n then hi - lo else n - lo
    ensures forall p :: lo <= p < hi && p < n ==> p in ModifiedFrom(Range(lo, hi), 0, n)
    decreases hi
  {
    hide ModifiedFrom;
    NoModified(n);
    if lo < hi {
      RangeBelow(lo, hi - 1, n);
      assert Range(lo, hi) == Range(lo, hi - 1) + [hi - 1];
      ModifiedAppend(Range(lo, hi - 1), [hi - 1], 0, n);
      OneBelow(hi - 1, n);
      hide Range;
    }
  }

  lemma OneBelow(p: nat, n: nat)
    ensures ModifiedFrom([p], 0, n) == if p < n then [p] else []
  {
  }

  /** The recorded bytes of a chunk that lie in the text. */
  lemma ChunkModifiedBelow(k: nat, p1: Byte, p2: Byte, n: nat)
    ensures var m := ModifiedFrom(ChunkModified(k, p1, p2), 0, n);
            && |m| == (if p1 <= p2 then Overlap(p1, p2, 0, n - 256 * k) else 0) + (if p2 != 255 && 256 * k + 255 < n then 1 else 0)
            && (forall p :: 256 * k + p1 as int <= p <= 256 * k + p2 as int && p < n ==> p in m)
            && (p2 != 255 && 256 * k + 255 < n ==> 256 * k + 255 in m)
  {
    var lo, hi := 256 * k + p1 as int, 256 * k + p2 as int;
    var r := if p1 <= p2 then Range(lo, hi + 1) else [];
    var last := if p2 != 255 then [256 * k + 255] else [];
    ModifiedAppend(r, last, 0, n);
    OneBelow(256 * k + 255, n);
    if p1 <= p2 { RangeBelow(lo, hi + 1, n); }
    hide ModifiedFrom, Range;
    NoModified(n);
  }

  lemma NoModified(n: nat)
    ensures ModifiedFrom([], 0, n) == []
  {
  }

  lemma {:induction false} RowBelow(s: nat, p1: Byte, p2: Byte, rel: nat, n: nat)
    ensures forall p :: p in RowFrom(s, p1, p2, rel, n) ==> p < s + 255
    decreases 255 - rel
  {
    if rel < 255 { RowBelow(s, p1, p2, rel + 1, n); }
  }

  lemma {:induction false} ModifiedSubset(modified: seq<nat>, i: nat, n: nat)
    requires i <= |modified|
    ensures forall p :: p in ModifiedFrom(modified, i, n) ==> p in modified
    decreases |modified| - i
  {
    if i < |modified| { ModifiedSubset(modified, i + 1, n); }
  }

  lemma ChunkModifiedRange(k: nat, p1: Byte, p2: Byte)
    ensures forall p :: p in ChunkModified(k, p1, p2) ==> 256 * k <= p < 256 * (k + 1)
    ensures |ChunkModified(k, p1, p2)| == RecordSize(p1, p2)
  {
  }

  lemma ChunkBelow(k: nat, p1: Byte, p2: Byte, n: nat)
    ensures forall p :: p in RowFrom(k * 256, p1, p2, 0, n) || p in ModifiedFrom(ChunkModified(k, p1, p2), 0, n) ==>
                          p < 256 * (k + 1)
  {
    RowBelow(k * 256, p1, p2, 0, n);
    ModifiedSubset(ChunkModified(k, p1, p2), 0, n);
    ChunkModifiedRange(k, p1, p2);
    hide RowFrom, ModifiedFrom, ChunkModified;
  }

  /** One chunk number is one entry a position, as far as the text goes. */
  lemma ChunkReach(k: nat, p1: Byte, p2: Byte, n: nat)
    ensures |RowFrom(k * 256, p1, p2, 0, n)| + |ModifiedFrom(ChunkModified(k, p1, p2), 0, n)| == Reach(k + 1, n) - Reach(k, n)
    ensures forall p :: Reach(k, n) <= p < Reach(k + 1, n) ==>
                          p in RowFrom(k * 256, p1, p2, 0, n) || p in ModifiedFrom(ChunkModified(k, p1, p2), 0, n)
  {
    hide RowFrom, ModifiedFrom, ChunkModified, Overlap;
    var s := 256 * k;
    var e := if n <= s then 0 else if n - s >= 255 then 255 else n - s;
    RowContent(s, p1, p2, 0, n, e);
    ChunkModifiedBelow(k, p1, p2, n);
    OverlapSplit(p1, p2, n - s, e);
    forall p | Reach(k, n) <= p < Reach(k + 1, n)
      ensures p in RowFrom(k * 256, p1, p2, 0, n) || p in ModifiedFrom(ChunkModified(k, p1, p2), 0, n)
    {
      assert s <= p < s + 256 && p < n;
    }
  }

  /** Offsets below the row's end are untouched or recorded; byte 255 is recorded. */
  lemma OverlapSplit(p1: int, p2: int, left: int, e: nat)
    requires 0 <= p1 < 256 && 0 <= p2 < 256 && e == if left <= 0 then 0 else if left >= 255 then 255 else left
    ensures (if 0 >= e then 0 else e - Overlap(p1, p2, 0, e)) + (if p1 <= p2 then Overlap(p1, p2, 0, left) else 0)
            + (if p2 != 255 && 255 < left then 1 else 0)
            == if left <= 0 then 0 else if left >= 256 then 256 else left
  {
  }

  lemma {:induction false} ChunksExtended(st: Stamp, st': Stamp, c: nat, n: nat)
    requires st' == st.(chunkCount := st.chunkCount + 1) && c <= st.chunkCount
    ensures ChunksFrom(st', c, n) ==
            ChunksFrom(st, c, n) + RowFrom((st.startChunk + st.chunkCount) * 256, st.pos1, st.pos2, 0, n)
    decreases st.chunkCount - c
  {
    hide RowFrom;
    if c < st.chunkCount {
      ChunksExtended(st, st', c + 1, n);
    } else {
      assert ChunksFrom(st', c + 1, n) == [];
    }
  }

  lemma {:induction false} StampsExtended(a: seq<Stamp>, st: Stamp, st': Stamp, k: nat, n: nat)
    requires st' == st.(chunkCount := st.chunkCount + 1) && k <= |a|
    ensures StampsFrom(a + [st'], k, n) ==
            StampsFrom(a + [st], k, n) + RowFrom((st.startChunk + st.chunkCount) * 256, st.pos1, st.pos2, 0, n)
    decreases |a| - k
  {
    hide RowFrom, ChunksFrom;
    if k < |a| {
      StampsExtended(a, st, st', k + 1, n);
    } else {
      ChunksExtended(st, st', 0, n);
      assert StampsFrom(a + [st'], k + 1, n) == [] == StampsFrom(a + [st], k + 1, n);
    }
  }

  lemma {:induction false} StampsWithEmpty(a: seq<Stamp>, st: Stamp, k: nat, n: nat)
    requires st.chunkCount == 0 && k <= |a|
    ensures StampsFrom(a + [st], k, n) == StampsFrom(a, k, n)
    decreases |a| - k
  {
    assert ChunksFrom(st, 0, n) == [];
    hide RowFrom, ChunksFrom;
    if k < |a| {
      StampsWithEmpty(a, st, k + 1, n);
    } else {
      assert StampsFrom(a + [st], k + 1, n) == [];
    }
  }

  lemma AddChunkVisits(L: Layout, recorded: seq<nat>, n: nat)
    requires VisitInv(L, recorded, n) && LastStampCurrent(L) && L.stamps[|L.stamps| - 1].chunkCount < MAX_CHUNKS_PER_STAMP
    ensures var L', st := AddChunk(L), L.stamps[|L.stamps| - 1];
            && VisitInv(L', recorded + ChunkModified(L.currentChunk, st.pos1, st.pos2), n) && LastStampCurrent(L')
            && L'.currentChunk == L.currentChunk + 1 && |L'.stamps| == |L.stamps|
            && L'.stamps[|L.stamps| - 1] == st.(chunkCount := st.chunkCount + 1)
  {
    hide StampsFrom, RowFrom, ChunkModified, ModifiedFrom;
    var last := |L.stamps| - 1;
    var st := L.stamps[last];
    var st' := st.(chunkCount := st.chunkCount + 1);
    var L' := AddChunk(L);
    var k := L.currentChunk;
    var a := L.stamps[..last];
    assert L.stamps == a + [st] && L'.stamps == a + [st'];
    StampsExtended(a, st, st', 0, n);
    ChunkReach(k, st.pos1, st.pos2, n);
    ChunkBelow(k, st.pos1, st.pos2, n);
    var m := ChunkModified(k, st.pos1, st.pos2);
    AppendTruncated(recorded, m);
    ModifiedAppend(recorded, m, 0, n);
    hide Append, Truncate;
    var E, E' := VisitedAll(L.stamps, recorded, n), VisitedAll(L'.stamps, recorded + m, n);
    var S, M := StampsFrom(L.stamps, 0, n), ModifiedFrom(recorded, 0, n);
    assert E' == (S + RowFrom(k * 256, st.pos1, st.pos2, 0, n)) + (M + ModifiedFrom(m, 0, n)) && E == S + M;
    forall p | 0 <= p < Reach(k + 1, n) ensures p in E' {
      if p < Reach(k, n) { assert p in E; }
    }
    forall p | p in E' ensures p < 256 * L'.currentChunk {
      if p in S || p in M { assert p in E; }
    }
  }

  lemma AppendTruncated(a: seq<nat>, b: seq<nat>)
    ensures Append(Truncate(a), b) == Truncate(a + b)
  {
  }

  lemma StartStampVisits(L: Layout, recorded: seq<nat>, n: nat, p1: Byte, p2: Byte)
    requires VisitInv(L, recorded, n)
    ensures VisitInv(StartStamp(L, p1, p2), recorded, n) && LastStampCurrent(StartStamp(L, p1, p2))
  {
    StampsWithEmpty(L.stamps, Stamp(L.currentChunk, 0, p1, p2), 0, n);
    hide StampsFrom, ModifiedFrom, Truncate, Reach;
  }

  // ---------- what the collection takes, stated on the markers ----------

  /** Chunks of a marker from its chunk c on that lie whole inside the text. */
  function Left(n: nat, m: Marker, c: nat): (t: nat)
    ensures t > 0 <==> c < m.Count() && (m.First() + c) * 256 + 256 <= n
    ensures t > 0 ==> m.First() + c + t <= n / 256 && c + t <= m.Count()
  {
    var upto := if n / 256 - m.First() < m.Count() then n / 256 - m.First() else m.Count();
    if c < upto then upto - c else 0
  }

  function Taken(n: nat, m: Marker): nat { Left(n, m, 0) }

  function TotalTaken(n: nat, markers: seq<Marker>): nat {
    if markers == [] then 0 else Taken(n, markers[0]) + TotalTaken(n, markers[1..])
  }

  /** End of the last chunk that some marker takes; 0 if none does. */
  function EndChunk(n: nat, markers: seq<Marker>): (e: nat)
    ensures 256 * e <= n
  {
    if markers == [] then 0
    else
      var rest, t := EndChunk(n, markers[1..]), Taken(n, markers[0]);
      if t > 0 && rest < markers[0].First() + t then markers[0].First() + t else rest
  }

  /** Everything recorded for count chunks numbered from k on. */
  function RecordedChunks(k: nat, count: nat, p1: Byte, p2: Byte): seq<nat>
    decreases count
  {
    if count == 0 then [] else ChunkModified(k, p1, p2) + RecordedChunks(k + 1, count - 1, p1, p2)
  }

  function RecordedMarkers(k: nat, n: nat, markers: seq<Marker>): seq<nat>
    decreases |markers|
  {
    if markers == [] then []
    else
      var m := markers[0];
      RecordedChunks(k, Taken(n, m), m.p1, m.p2) + RecordedMarkers(k + Taken(n, m), n, markers[1..])
  }

  /** All positions recorded one by one, whether or not the buffer has room: those of the chunks, which are
      numbered by how many were taken before, and then the text behind the last chunk. */
  function Recorded(n: nat, markers: seq<Marker>): seq<nat> {
    RecordedMarkers(0, n, markers) + Range(256 * EndChunk(n, markers), n)
  }

  /** Positions of the text for which the buffer has no room. */
  ghost function Dropped(n: nat, markers: seq<Marker>): seq<nat> {
    ModifiedFrom(Recorded(n, markers)[|Truncate(Recorded(n, markers))|..], 0, n)
  }

  lemma {:induction false} AddChunksVisits(L: Layout, recorded: seq<nat>, n: nat, m: Marker, c: nat)
    requires VisitInv(L, recorded, n) && LastStampCurrent(L) && c <= m.Count()
    requires L.stamps[|L.stamps| - 1].chunkCount == c
    requires L.stamps[|L.stamps| - 1].pos1 == m.p1 && L.stamps[|L.stamps| - 1].pos2 == m.p2
    ensures var L' := AddChunks(L, n, m, c);
            && VisitInv(L', recorded + RecordedChunks(L.currentChunk, Left(n, m, c), m.p1, m.p2), n)
            && L'.stamps != [] && L'.currentChunk == L.currentChunk + Left(n, m, c)
    decreases 128 - c
  {
    var k, t := L.currentChunk, Left(n, m, c);
    hide VisitInv, AddChunk, ChunkModified;
    if t > 0 {
      AddChunkVisits(L, recorded, n);
      var more := ChunkModified(k, m.p1, m.p2);
      AddChunksVisits(AddChunk(L), recorded + more, n, m, c + 1);
      assert recorded + more + RecordedChunks(k + 1, t - 1, m.p1, m.p2) == recorded + RecordedChunks(k, t, m.p1, m.p2);
    } else {
      assert recorded + RecordedChunks(k, t, m.p1, m.p2) == recorded;
    }
  }

  lemma {:induction false} AddMarkersVisits(L: Layout, recorded: seq<nat>, n: nat, markers: seq<Marker>)
    requires VisitInv(L, recorded, n)
    ensures VisitInv(AddMarkers(L, n, markers), recorded + RecordedMarkers(L.currentChunk, n, markers), n)
    ensures AddMarkers(L, n, markers).currentChunk == L.currentChunk + TotalTaken(n, markers)
    decreases |markers|
  {
    hide VisitInv, AddChunks, RecordedChunks, Left;
    if markers == [] {
      assert recorded + [] == recorded;
    } else {
      var m := markers[0];
      StartStampVisits(L, recorded, n, m.p1, m.p2);
      AddChunksVisits(StartStamp(L, m.p1, m.p2), recorded, n, m, 0);
      var more := RecordedChunks(L.currentChunk, Taken(n, m), m.p1, m.p2);
      var L1 := AddChunks(StartStamp(L, m.p1, m.p2), n, m, 0);
      AddMarkersVisits(L1, recorded + more, n, markers[1..]);
      assert recorded + (more + RecordedMarkers(L1.currentChunk, n, markers[1..]))
          == recorded + more + RecordedMarkers(L1.currentChunk, n, markers[1..]);
    }
  }

  lemma {:induction false} ProcessedByClosed(n: nat, m: Marker, c: nat, acc: nat)
    requires c <= m.Count()
    ensures var e := 256 * (m.First() + c + Left(n, m, c));
            ProcessedBy(n, m, c, acc) == if Left(n, m, c) > 0 && e > acc then e else acc
    decreases 128 - c
  {
    var start := (m.First() + c) * 256;
    if Left(n, m, c) > 0 {
      ProcessedByClosed(n, m, c + 1, if start + 256 > acc then start + 256 else acc);
    }
  }

  lemma {:induction false} ProcessedClosed(n: nat, markers: seq<Marker>, acc: nat)
    ensures var e := 256 * EndChunk(n, markers); ProcessedUntil(n, markers, acc) == if e > acc then e else acc
    decreases |markers|
  {
    if markers != [] {
      ProcessedByClosed(n, markers[0], 0, acc);
      hide ProcessedBy, Left;
      ProcessedClosed(n, markers[1..], ProcessedBy(n, markers[0], 0, acc));
    }
  }

  lemma NothingVisited(n: nat)
    ensures VisitInv(EMPTY, [], n)
  {
  }

  /** The collection in closed form, for any markers: how many chunks are taken, where the text behind them
      starts, and what is recorded. */
  lemma CollectClosed(n: nat, markers: seq<Marker>)
    ensures VisitInv(AddMarkers(EMPTY, n, markers), RecordedMarkers(0, n, markers), n)
    ensures Collect(n, markers).currentChunk == TotalTaken(n, markers)
    ensures ProcessedUntil(n, markers, 0) == 256 * EndChunk(n, markers)
    ensures Collect(n, markers).stamps == AddMarkers(EMPTY, n, markers).stamps
    ensures Collect(n, markers).modified == Truncate(Recorded(n, markers))
  {
    NothingVisited(n);
    AddMarkersVisits(EMPTY, [], n, markers);
    ProcessedClosed(n, markers, 0);
    assert [] + RecordedMarkers(0, n, markers) == RecordedMarkers(0, n, markers);
    hide AddMarkers, ProcessedUntil, StampsFrom, ModifiedFrom, RecordedMarkers, EndChunk, TotalTaken;
    AppendTruncated(RecordedMarkers(0, n, markers), Range(256 * EndChunk(n, markers), n));
    hide Truncate, Append, Range;
  }

  /** Every position of the text is visited, in n entries, hence once. */
  ghost predicate VisitedOnce(E: seq<nat>, n: nat) {
    |E| == n && forall p :: 0 <= p < n ==> p in E
  }

  lemma TextRange(lo: nat, n: nat)
    requires lo <= n
    ensures ModifiedFrom(Range(lo, n), 0, n) == Range(lo, n)
  {
    AllBelow(Range(lo, n), 0, n);
    hide ModifiedFrom;
  }

  lemma {:induction false} AllBelow(s: seq<nat>, i: nat, n: nat)
    requires i <= |s| && forall j :: i <= j < |s| ==> s[j] < n
    ensures ModifiedFrom(s, i, n) == s[i..]
    decreases |s| - i
  {
    if i < |s| { AllBelow(s, i + 1, n); }
  }

  /** The two parts of what is visited and dropped: chunks, each below the last number taken, and tail. */
  lemma VisitParts(n: nat, markers: seq<Marker>) returns (S: seq<nat>, M: seq<nat>, kept: seq<nat>)
    ensures Visited(Collect(n, markers), n) == S + kept
    ensures kept + Dropped(n, markers) == M + Range(256 * EndChunk(n, markers), n)
    ensures |S| + |M| == Reach(TotalTaken(n, markers), n)
    ensures forall p :: 0 <= p < Reach(TotalTaken(n, markers), n) ==> p in S || p in M
    ensures forall p :: p in S || p in M ==> p < 256 * TotalTaken(n, markers)
  {
    CollectClosed(n, markers);
    var L, recorded := AddMarkers(EMPTY, n, markers), RecordedMarkers(0, n, markers);
    var tail := Range(256 * EndChunk(n, markers), n);
    S, M := StampsFrom(L.stamps, 0, n), ModifiedFrom(recorded, 0, n);
    kept := ModifiedFrom(Truncate(recorded + tail), 0, n);
    hide AddMarkers, Collect, StampsFrom, ModifiedFrom, RecordedMarkers, TotalTaken, EndChunk, ProcessedUntil;
    ModifiedAppend(recorded, tail, 0, n);
    TextRange(256 * EndChunk(n, markers), n);
    var all := Recorded(n, markers);
    ModifiedAppend(Truncate(all), all[|Truncate(all)|..], 0, n);
    assert Truncate(all) + all[|Truncate(all)|..] == all;
    var E := VisitedAll(L.stamps, recorded, n);
    assert E == S + M;
    hide Range, Truncate;
    forall p | 0 <= p < Reach(TotalTaken(n, markers), n) ensures p in S || p in M { assert p in E; }
    forall p | p in S || p in M ensures p < 256 * TotalTaken(n, markers) { assert p in E; }
  }

  /** What any markers lead to. With the entries that found no room, the merge visits the chunks taken,
      numbered from 0, as far as the text goes, and then the text from the end of the last chunk. */
  lemma VisitCount(n: nat, markers: seq<Marker>)
    ensures var E, lost, taken, end := Visited(Collect(n, markers), n), Dropped(n, markers), TotalTaken(n, markers), EndChunk(n, markers);
            && |E| + |lost| == Reach(taken, n) + (n - 256 * end)
            && forall p :: 0 <= p < n ==> (p < 256 * taken || 256 * end <= p <==> p in E || p in lost)
  {
    var S, M, kept := VisitParts(n, markers);
    hide Visited, Collect, TotalTaken, EndChunk, Dropped;
    var E, lost := Visited(Collect(n, markers), n), Dropped(n, markers);
    var tail := Range(256 * EndChunk(n, markers), n);
    assert |kept + lost| == |M + tail|;
    forall p | 0 <= p < n
      ensures p < 256 * TotalTaken(n, markers) || 256 * EndChunk(n, markers) <= p <==> p in E || p in lost
    {
      assert p in kept + lost <==> p in M + tail;
      InRange(256 * EndChunk(n, markers), n, p);
      hide Range;
    }
  }

  lemma InRange(lo: nat, hi: nat, p: nat)
    requires lo <= hi
    ensures p in Range(lo, hi) <==> lo <= p < hi
  {
    if lo <= p < hi { assert Range(lo, hi)[p - lo] == p; }
  }

  /** The chunks taken reach as far as the end of the last one. */
  predicate Aligned(n: nat, markers: seq<Marker>) { Reach(TotalTaken(n, markers), n) == 256 * EndChunk(n, markers) }

  /** Either the markers are aligned and nothing is dropped, or chunks are numbered to the end of the text and
      just the text behind the last chunk, which they cover again, is dropped. */
  ghost predicate Conserves(n: nat, markers: seq<Marker>) {
    || (Aligned(n, markers) && Dropped(n, markers) == [])
    || (n <= 256 * TotalTaken(n, markers) && |Dropped(n, markers)| == n - 256 * EndChunk(n, markers))
  }

  /** Conservation, exactly: for any markers, full buffer or not. */
  lemma ConservationIff(n: nat, markers: seq<Marker>)
    ensures VisitedOnce(Visited(Collect(n, markers), n), n) <==> Conserves(n, markers)
  {
    var S, M, kept := VisitParts(n, markers);
    VisitCount(n, markers);
    hide Visited, Collect, TotalTaken, EndChunk, Dropped;
    var E, lost := Visited(Collect(n, markers), n), Dropped(n, markers);
    var taken, end := TotalTaken(n, markers), EndChunk(n, markers);
    if lost != [] && 256 * taken < n && 256 * end < n {
      LastDropped(n, end, M, kept, lost);
      assert n - 1 !in E;
    }
    if lost == [] {
      forall p | 0 <= p < n && Aligned(n, markers) ensures p in E { }
    } else if n <= 256 * taken && |lost| == n - 256 * end {
      KeptChunks(n, end, M, kept, lost);
      forall p | 0 <= p < n ensures p in E { assert p in S || p in M; }
    }
  }

  /** If anything is dropped, the last position is, unless a chunk covers it. */
  lemma LastDropped(n: nat, end: nat, M: seq<nat>, kept: seq<nat>, lost: seq<nat>)
    requires 256 * end < n && kept + lost == M + Range(256 * end, n) && lost != []
    requires forall p :: p in M ==> p < n - 1
    ensures n - 1 !in kept
  {
    var all, tail := M + Range(256 * end, n), Range(256 * end, n);
    forall i | 0 <= i < |kept| ensures kept[i] != n - 1 {
      assert kept[i] == (kept + lost)[i] == all[i];
      if i < |M| { assert M[i] in M; } else { assert all[i] == tail[i - |M|] == 256 * end + (i - |M|); }
    }
  }

  /** If as much is dropped as the tail holds, the tail is what is dropped. */
  lemma KeptChunks(n: nat, end: nat, M: seq<nat>, kept: seq<nat>, lost: seq<nat>)
    requires 256 * end <= n && kept + lost == M + Range(256 * end, n) && |lost| == n - 256 * end
    ensures kept == M
  {
    assert kept == (kept + lost)[..|M|] == (M + Range(256 * end, n))[..|M|] == M;
  }

  // ---------- tiling markers ----------

  /** Tiling markers take the chunks from the first on, one number each. */
  lemma {:induction false} TilesTaken(n: nat, markers: seq<Marker>, from: nat)
    requires Tiles(markers, from)
    ensures var t := TotalTaken(n, markers); EndChunk(n, markers) == if t > 0 then from + t else 0
    ensures TotalTaken(n, markers) == Upto(n, from, EndOf(markers, from)) - from <= EndOf(markers, from) - from
    decreases |markers|
  {
    if markers != [] {
      TilesTaken(n, markers[1..], from + markers[0].Count());
    }
  }

  /** Where tiling markers end. */
  function EndOf(markers: seq<Marker>, from: nat): (e: nat)
    ensures from <= e
    decreases |markers|
  {
    if markers == [] then from else EndOf(markers[1..], from + markers[0].Count())
  }

  /** The whole chunks of the text between from and to, as an end. */
  function Upto(n: nat, from: nat, to: nat): (u: nat)
    requires from <= to
  {
    if n / 256 <= from then from else if n / 256 <= to then n / 256 else to
  }

  lemma TilesAligned(n: nat, markers: seq<Marker>)
    requires Tiles(markers, 0)
    ensures Aligned(n, markers) && TotalTaken(n, markers) == EndChunk(n, markers)
  {
    TilesTaken(n, markers, 0);
  }

  /** How many positions are recorded. */
  function RecordedSize(n: nat, markers: seq<Marker>): nat {
    MarkersSize(n, markers) + (n - 256 * EndChunk(n, markers))
  }

  function MarkersSize(n: nat, markers: seq<Marker>): nat {
    if markers == [] then 0
    else Taken(n, markers[0]) * RecordSize(markers[0].p1, markers[0].p2) + MarkersSize(n, markers[1..])
  }

  lemma {:induction false} RecordedChunksSize(k: nat, count: nat, p1: Byte, p2: Byte)
    ensures |RecordedChunks(k, count, p1, p2)| == count * RecordSize(p1, p2)
    ensures forall p :: p in RecordedChunks(k, count, p1, p2) ==> p < 256 * (k + count)
    decreases count
  {
    hide ChunkModified, RecordSize;
    if count > 0 {
      ChunkModifiedRange(k, p1, p2);
      RecordedChunksSize(k + 1, count - 1, p1, p2);
    }
  }

  lemma {:induction false} RecordedMarkersSize(k: nat, n: nat, markers: seq<Marker>)
    ensures |RecordedMarkers(k, n, markers)| == MarkersSize(n, markers)
    ensures forall p :: p in RecordedMarkers(k, n, markers) ==> p < 256 * (k + TotalTaken(n, markers))
    decreases |markers|
  {
    hide RecordedChunks, RecordSize, Left;
    if markers != [] {
      var m := markers[0];
      RecordedChunksSize(k, Taken(n, m), m.p1, m.p2);
      RecordedMarkersSize(k + Taken(n, m), n, markers[1..]);
    }
  }

  /** As long as no chunk number runs past the text, what is dropped is what exceeds the buffer. */
  lemma DroppedSize(n: nat, markers: seq<Marker>)
    requires 256 * TotalTaken(n, markers) <= n
    ensures var size := RecordedSize(n, markers);
            |Dropped(n, markers)| == if size <= MAX_MODIFIED_BYTES then 0 else size - MAX_MODIFIED_BYTES
  {
    RecordedMarkersSize(0, n, markers);
    hide RecordedMarkers, TotalTaken, MarkersSize, EndChunk, ModifiedFrom;
    var all := Recorded(n, markers);
    var rest := all[|Truncate(all)|..];
    forall j | 0 <= j < |rest| ensures rest[j] < n {
      var i := |Truncate(all)| + j;
      assert rest[j] == all[i];
      if i < |RecordedMarkers(0, n, markers)| { assert RecordedMarkers(0, n, markers)[i] in RecordedMarkers(0, n, markers); }
    }
    AllBelow(rest, 0, n);
  }

  /** Conservation for tiling markers: every position of the text exactly once, if and only if all recorded
      positions fit the buffer. */
  lemma Conservation(n: nat, markers: seq<Marker>)
    requires Tiles(markers, 0)
    ensures var E := Visited(Collect(n, markers), n);
            && (VisitedOnce(E, n) <==> RecordedSize(n, markers) <= MAX_MODIFIED_BYTES)
            && (VisitedOnce(E, n) ==> forall i, j :: 0 <= i < j < n ==> E[i] != E[j])
  {
    TilesAligned(n, markers);
    ConservationIff(n, markers);
    DroppedSize(n, markers);
    hide Visited, Collect, Dropped, RecordedSize, TotalTaken, EndChunk;
    var E := Visited(Collect(n, markers), n);
    if VisitedOnce(E, n) { CoverIsDistinct(E, n); }
  }

  /** Markers with the range that says nothing: every position is recorded, so only short texts fit. */
  lemma FullRangesConserve(n: nat, markers: seq<Marker>)
    requires Tiles(markers, 0) && forall i :: 0 <= i < |markers| ==> markers[i].p1 == 0 && markers[i].p2 == 255
    ensures Aligned(n, markers) && RecordedSize(n, markers) == n && (Conserves(n, markers) <==> n <= MAX_MODIFIED_BYTES)
  {
    TilesAligned(n, markers);
    FullSizes(n, markers);
    ConservationIff(n, markers);
    Conservation(n, markers);
    hide Visited, Collect, Conserves, Tiles, MarkersSize, TotalTaken, EndChunk;
  }

  lemma {:induction false} FullSizes(n: nat, markers: seq<Marker>)
    requires forall i :: 0 <= i < |markers| ==> markers[i].p1 == 0 && markers[i].p2 == 255
    ensures MarkersSize(n, markers) == 256 * TotalTaken(n, markers)
  {
    hide Left;
    if markers != [] { FullSizes(n, markers[1..]); }
  }

  /** A list of length n that contains every number below n has no repetition. */
  lemma CoverIsDistinct(E: seq<nat>, n: nat)
    requires |E| == n && forall p :: 0 <= p < n ==> p in E
    ensures forall i, j :: 0 <= i < j < n ==> E[i] != E[j]
  {
    forall i, j | 0 <= i < j < n ensures E[i] != E[j] {
      if E[i] == E[j] {
        var F := E[..j] + E[j + 1..];
        forall p | p in Below(n) ensures p in Elements(F) {
          assert p in E;
          var x :| 0 <= x < |E| && E[x] == p;
          var y := if x == j then i else x;
          assert F[if y < j then y else y - 1] == p;
        }
        BelowCardinality(n);
        ElementsAtMost(F);
        SubsetSize(Below(n), Elements(F));
      }
    }
  }

  lemma {:induction false} ElementsAtMost(R: seq<nat>)
    ensures |Elements(R)| <= |R|
  {
    if R == [] {
      assert Elements(R) == {};
    } else {
      var last := |R| - 1;
      ElementsAtMost(R[..last]);
      assert R == R[..last] + [R[last]];
      assert Elements(R) == Elements(R[..last]) + {R[last]};
    }
  }

  lemma SubsetSize(a: set<int>, b: set<int>)
    requires a <= b
    ensures |a| <= |b|
  {
    assert b == a + (b - a);
  }
}
