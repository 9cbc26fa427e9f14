/** What the template markers promise: over the chunks of a run, every byte outside the marker's range
    and before byte 255 stays the same. And when the markers line up with the chunks as SPSA reads them. */
module WolfStamps {
  import opened Suffix
  import opened WolfLanes
  import opened WolfDispatch
  import opened SpsaLayout
  import opened WolfStage

  /** Equal at every offset below 255 outside p1..p2. */
  ghost predicate Agree(a: Chunk, b: Chunk, p1: nat, p2: nat) {
    forall o :: 0 <= o < 255 && !(p1 <= o <= p2) ==> a[o] == b[o]
  }

  ghost predicate RunAgrees(chunks: seq<Chunk>, from: nat, to: nat, p1: nat, p2: nat)
    requires from <= to <= |chunks|
  {
    forall c :: from <= c < to ==> Agree(chunks[from], chunks[c], p1, p2)
  }

  /** One more than the length of the first run, unless the first iteration re-keyed. */
  function Extra(i: nat, rekeyedFirst: bool): nat { if i == 0 && !rekeyedFirst then 1 else 0 }

  /** Marker i describes chunks from to to - 1, and holds their number plus extra, mod 256. */
  ghost predicate MarkerOk(chunks: seq<Chunk>, m: Marker, from: nat, to: nat, extra: nat) {
    && from < to <= |chunks| && RunAgrees(chunks, from, to, m.p1, m.p2)
    && m.p1 <= m.p2 && m.posData == PosData(from, (to - from + extra) % 256)
    && (extra == 1 ==> m.p1 == 0 && m.p2 == 255)
  }

  ghost predicate MarkersOk(chunks: seq<Chunk>, markers: seq<Marker>, starts: seq<nat>, rekeyedFirst: bool) {
    && |markers| < |starts|
    && forall i :: 0 <= i < |markers| ==> MarkerOk(chunks, markers[i], starts[i], starts[i + 1], Extra(i, rekeyedFirst))
  }

  /** Between iterations: the current run and its pending range. */
  ghost predicate StageInv(r: Stage) {
    && |r.starts| == |r.markers| + 1 && r.starts[0] == 0 && (|r.markers| > 0 ==> First(r) > 0)
    && (if r.chunks == [] then r.starts == [0] && !r.rekeyedFirst && r.count == 1 && r.lp1 == 0 && r.lp2 == 255
        else RunOk(r))
    && MarkersOk(r.chunks, r.markers, r.starts, r.rekeyedFirst)
  }

  ghost predicate RunOk(r: Stage)
    requires r.starts != []
  {
    && First(r) < |r.chunks| && |r.markers| < |r.chunks|
    && r.count == (|r.chunks| - First(r) + Extra(|r.markers|, r.rekeyedFirst)) % 256
    && (Extra(|r.markers|, r.rekeyedFirst) == 1 ==> r.lp1 == 0 && r.lp2 == 255)
    && (First(r) + 1 < |r.chunks| ==> r.lp1 <= r.lp2)
    && RunAgrees(r.chunks, First(r), |r.chunks|, r.lp1, r.lp2)
  }

  // ---------- one iteration touches only its range ----------

  lemma {:induction false} Op253Range(P: Params, chunk: Chunk, i: nat, p2: nat, h: Hashes, p1: nat)
    requires p1 <= i <= p2 < CHUNK
    ensures Agree(chunk, Op253(P, chunk, i, p2, h).0, p1, p2)
    decreases p2 - i
  {
    hide Mixed253;
    if i < p2 {
      var c := chunk[i := Mixed253(chunk[i], chunk[p2])];
      Op253Range(P, c, i + 1, p2, PushHash(h, P.xx(c[..p2])), p1);
    }
  }

  lemma BranchedRange(base: Chunk, p1: nat, p2: nat, opcode: bv32)
    requires p1 <= p2 < CHUNK
    ensures Agree(base, Branched(base, p1, p2, opcode), p1, p2) && Agree(base, Zeroed(base, p1, p2), p1, p2)
  {
    hide WolfBranch;
  }

  lemma EndsRange(base: Chunk, c: Chunk, op: nat, p1: nat, p2: nat)
    requires p1 <= p2 < CHUNK && Agree(base, c, p1, p2)
    ensures Agree(base, EndsSwapped(c, op, p1, p2), p1, p2)
  {
    hide Reverse8;
  }

  lemma BranchRange(P: Params, base: Chunk, h: Hashes, op: nat, p1: nat, p2: nat)
    requires |P.code| == 256 && op < 256 && p1 <= p2 < CHUNK
    ensures Agree(base, LastMixed(BranchStage(P, base, h, op, p1, p2).0, p1, p2), p1, p2)
  {
    assert Agree(base, BranchStage(P, base, h, op, p1, p2).0, p1, p2) by {
      Op253Range(P, base, p1, p2, h, p1);
      BranchedRange(base, p1, p2, P.code[op]);
      EndsRange(base, Branched(base, p1, p2, P.code[op]), op, p1, p2);
      hide Agree, Op253, Branched, EndsSwapped, Zeroed;
    }
    hide BranchStage;
  }

  /** The range may grow. */
  lemma RunWiden(chunks: seq<Chunk>, from: nat, to: nat, p1: Byte, p2: Byte, q1: Byte, q2: Byte)
    requires from <= to <= |chunks| && RunAgrees(chunks, from, to, p1, p2)
    ensures RunAgrees(chunks, from, to, Min(p1, q1), Max(p2, q2))
  {
    forall c | from <= c < to ensures Agree(chunks[from], chunks[c], Min(p1, q1), Max(p2, q2)) {
      assert Agree(chunks[from], chunks[c], p1, p2);
    }
  }

  /** Later chunks do not matter to a finished run. */
  lemma MarkersStay(chunks: seq<Chunk>, c: Chunk, markers: seq<Marker>, starts: seq<nat>, rekeyedFirst: bool)
    requires MarkersOk(chunks, markers, starts, rekeyedFirst)
    ensures MarkersOk(chunks + [c], markers, starts, rekeyedFirst)
  {
    hide Agree, PosData;
  }

  lemma RunExtend(chunks: seq<Chunk>, from: nat, c: Chunk, p1: Byte, p2: Byte, q1: Byte, q2: Byte)
    requires from < |chunks| && RunAgrees(chunks, from, |chunks|, p1, p2)
    requires Agree(chunks[|chunks| - 1], c, q1, q2)
    ensures RunAgrees(chunks + [c], from, |chunks| + 1, Min(p1, q1), Max(p2, q2))
  {
    RunWiden(chunks, from, |chunks|, p1, p2, q1, q2);
    assert Agree(chunks[from], chunks[|chunks| - 1], p1, p2);
  }

  lemma ExtendedOk(r: Stage, c: Chunk, h: Hashes, key: Key, p1: nat, p2: nat, init: Chunk)
    requires StageInv(r) && p1 <= p2 < CHUNK && r.starts != []
    requires Agree(Base(init, r), LastMixed(c, p1, p2), p1, p2)
    ensures StageInv(Extended(r, c, h, key, p1, p2))
  {
    var chunk := LastMixed(c, p1, p2);
    MarkersStay(r.chunks, chunk, r.markers, r.starts, r.rekeyedFirst);
    if r.chunks != [] {
      RunExtend(r.chunks, First(r), chunk, r.lp1, r.lp2, p1, p2);
    }
    hide LastMixed, Agree, MarkersOk;
  }

  lemma RekeyedOk(P: Params, r: Stage, c: Chunk, h: Hashes, key: Key, p1: nat, p2: nat)
    requires StageInv(r) && p1 <= p2 < CHUNK && r.starts != [] && r.count < 256
    ensures StageInv(Rekeyed(P, r, c, h, key, p1, p2))
  {
    var chunk := LastMixed(Encrypted(P, c, key), p1, p2);
    MarkersStay(r.chunks, chunk, r.markers, r.starts, r.rekeyedFirst);
    if r.chunks != [] {
      RunWiden(r.chunks, First(r), |r.chunks|, r.lp1, r.lp2, p1, p2);
      var m := MarkerFor(First(r), r.count, Min(r.lp1, p1), Max(r.lp2, p2));
      EmittedOk(r, m, Min(r.lp1, p1), Max(r.lp2, p2));
      MarkerStays(r.chunks, chunk, m, First(r), |r.chunks|, Extra(|r.markers|, r.rekeyedFirst));
      MarkersAppend(r.chunks + [chunk], m, r.markers, r.starts, |r.chunks|, r.rekeyedFirst);
    }
    hide LastMixed, Encrypted, Agree, MarkersOk, MarkerOk, MarkerFor;
  }

  lemma MarkerStays(chunks: seq<Chunk>, c: Chunk, m: Marker, from: nat, to: nat, extra: nat)
    requires MarkerOk(chunks, m, from, to, extra)
    ensures MarkerOk(chunks + [c], m, from, to, extra)
  {
    hide Agree, PosData;
  }

  lemma MarkersAppend(chunks: seq<Chunk>, m: Marker, markers: seq<Marker>, starts: seq<nat>, next: nat, rekeyedFirst: bool)
    requires MarkersOk(chunks, markers, starts, rekeyedFirst) && |starts| == |markers| + 1
    requires MarkerOk(chunks, m, starts[|markers|], next, Extra(|markers|, rekeyedFirst))
    ensures MarkersOk(chunks, markers + [m], starts + [next], rekeyedFirst)
  {
    hide MarkerOk, Extra;
  }

  /** The marker for the pending run is right for any range that covers it. */
  lemma EmittedOk(r: Stage, m: Marker, lp1: Byte, lp2: Byte)
    requires r.starts != [] && RunOk(r) && r.count < 256
    requires lp1 <= r.lp1 && r.lp2 <= lp2 && (r.count > 1 ==> lp1 <= lp2)
    requires RunAgrees(r.chunks, First(r), |r.chunks|, lp1, lp2)
    requires m == MarkerFor(First(r), r.count, lp1, lp2)
    ensures MarkerOk(r.chunks, m, First(r), |r.chunks|, Extra(|r.markers|, r.rekeyedFirst))
  {
    hide PosData;
    if r.count <= 1 {
      RunWhole(r.chunks, First(r), |r.chunks|);
    }
  }

  lemma RunWhole(chunks: seq<Chunk>, from: nat, to: nat)
    requires from <= to <= |chunks|
    ensures RunAgrees(chunks, from, to, 0, 255)
  {
  }

  lemma IterateOk(P: Params, init: Chunk, r: Stage)
    requires |P.code| == 256 && r.starts != [] && r.count < 256 && StageInv(r)
    ensures StageInv(Iterate(P, init, r))
    ensures Iterate(P, init, r).rekeyedFirst <==> r.rekeyedFirst || (r.chunks == [] && Rekeys(P, init, r))
  {
    var d := Decision(P, init, r);
    var h' := HashStage(P, d.0, d.4, d.2, Tries(r), d.1);
    var rs := Switcher(r.h, Tries(r));
    BranchRange(P, Base(init, r), r.h, OpOf(rs), RangeOf(rs).0, RangeOf(rs).1);
    hide BranchStage, StageInv, HashStage;
    if SmallEnough(d.2) {
      RekeyedOk(P, r, d.0, h', KeyFor(P, init, r), d.3, d.4);
    } else {
      ExtendedOk(r, d.0, h', KeyFor(P, init, r), d.3, d.4, init);
    }
  }

  /** Every stage of a run satisfies the invariant; the run stops after 261 to 277 iterations. */
  lemma {:induction false} RunStages(P: Params, init: Chunk, r: Stage)
    requires |P.code| == 256 && r.starts != [] && r.count < 256 && StageInv(r) && |r.chunks| < 277
    ensures var z := RunFrom(P, init, r);
            && StageInv(z) && Done(z) && |z.chunks| <= 277
            && (r.chunks != [] ==> z.rekeyedFirst == r.rekeyedFirst)
            && (r.chunks == [] ==> (z.rekeyedFirst <==> Rekeys(P, init, r)))
    decreases 277 - |r.chunks|
  {
    IterateOk(P, init, r);
    var r' := Iterate(P, init, r);
    hide StageInv, Iterate, Rekeys;
    assert |r'.chunks| == |r.chunks| + 1;
    if !Done(r') {
      RunStages(P, init, r');
    }
  }

  // ---------- the markers as SPSA reads them ----------

  /** Where run i ends. */
  ghost function Bounds(z: Stage): seq<nat> { z.starts + [|z.chunks|] }

  lemma FlushOk(z: Stage)
    requires z.starts != [] && z.count < 256 && StageInv(z) && z.chunks != []
    ensures MarkersOk(z.chunks, Flush(z), Bounds(z), z.rekeyedFirst) && |Flush(z)| <= |z.chunks|
    ensures z.count > 0 ==> |Flush(z)| == |z.starts|
  {
    hide PosData, Agree;
    if z.count > 0 {
      var m := MarkerFor(First(z), z.count, z.lp1, z.lp2);
      EmittedOk(z, m, z.lp1, z.lp2);
      MarkersAppend(z.chunks, m, z.markers, z.starts, |z.chunks|, z.rekeyedFirst);
    }
  }

  /** Over the chunks from to to - 1 every byte below 255 outside the marker's range is constant. */
  ghost predicate RunConstant(chunks: seq<Chunk>, m: Marker, from: nat, to: nat) {
    to <= |chunks|
    && forall a, b, o :: from <= a < to && from <= b < to && 0 <= o < 255 && !(m.p1 <= o <= m.p2) ==> chunks[a][o] == chunks[b][o]
  }

  /** Where the chunks that a marker claims end, as read back from its packed word. */
  function ClaimEnd(m: Marker, chunks: nat): nat {
    if m.First() + m.Count() <= chunks then m.First() + m.Count() else chunks
  }

  /** Soundness of every emitted marker as SPSA reads it: any two of the chunks it claims agree at every offset
      below 255 outside its range, whatever the opcodes and hashes, and however long the run was. */
  lemma StampSoundness(P: Params, init: Chunk, key: Key, h: Hashes)
    requires |P.code| == 256
    ensures var z := RunFrom(P, init, Start(key, h));
            forall m :: m in Flush(z) ==> RunConstant(z.chunks, m, m.First(), ClaimEnd(m, |z.chunks|))
  {
    var z := RunFrom(P, init, Start(key, h));
    hide RunFrom, StageInv, Flush, PosData, Rekeys, RawLength;
    FinalStage(P, init, key, h);
    FlushOk(z);
    forall m | m in Flush(z) ensures RunConstant(z.chunks, m, m.First(), ClaimEnd(m, |z.chunks|)) {
      var i :| 0 <= i < |Flush(z)| && Flush(z)[i] == m;
      ClaimConstant(z.chunks, m, Bounds(z)[i], Bounds(z)[i + 1], Extra(i, z.rekeyedFirst));
    }
  }

  /** What a marker claims lies in its run, or the marker claims nothing. */
  lemma ClaimConstant(chunks: seq<Chunk>, m: Marker, from: nat, to: nat, extra: nat)
    requires MarkerOk(chunks, m, from, to, extra) && |chunks| < 384 && extra <= 1
    ensures RunConstant(chunks, m, m.First(), ClaimEnd(m, |chunks|))
  {
    MarkerDecodes(from, to - from + extra, m);
    MarkerOkConstant(chunks, m, from, to, extra);
    hide PosData, Marker.First, Marker.Count, RunAgrees;
    assert extra == 0 ==> from <= m.First() && m.First() + m.Count() <= to;
  }

  /** The same over the whole run that a marker stands for, also where its word cannot say how long it is. */
  lemma RunSoundness(P: Params, init: Chunk, key: Key, h: Hashes)
    requires |P.code| == 256
    ensures var z := RunFrom(P, init, Start(key, h));
            |Flush(z)| < |Bounds(z)|
            && forall i :: 0 <= i < |Flush(z)| ==> RunConstant(z.chunks, Flush(z)[i], Bounds(z)[i], Bounds(z)[i + 1])
  {
    var z := RunFrom(P, init, Start(key, h));
    hide RunFrom, StageInv, Flush, PosData, Rekeys, RawLength;
    FinalStage(P, init, key, h);
    FlushOk(z);
    forall i | 0 <= i < |Flush(z)| ensures RunConstant(z.chunks, Flush(z)[i], Bounds(z)[i], Bounds(z)[i + 1]) {
      MarkerOkConstant(z.chunks, Flush(z)[i], Bounds(z)[i], Bounds(z)[i + 1], Extra(i, z.rekeyedFirst));
    }
  }

  lemma MarkerOkConstant(chunks: seq<Chunk>, m: Marker, from: nat, to: nat, extra: nat)
    requires MarkerOk(chunks, m, from, to, extra)
    ensures RunConstant(chunks, m, from, to)
  {
    hide PosData;
    forall a, b, o | from <= a < to && from <= b < to && 0 <= o < 255 && !(m.p1 <= o <= m.p2) ensures chunks[a][o] == chunks[b][o] {
      assert Agree(chunks[from], chunks[a], m.p1, m.p2) && Agree(chunks[from], chunks[b], m.p1, m.p2);
    }
  }

  /** The number of iterations, of markers, and the room for the text. */
  lemma FinalStage(P: Params, init: Chunk, key: Key, h: Hashes)
    requires |P.code| == 256
    ensures var z := RunFrom(P, init, Start(key, h));
            && 261 <= |z.chunks| <= 277 && z.starts != [] && z.count < 256
            && StageInv(z) && |Flush(z)| <= 277 && RawLength(z) < 256 * |z.chunks|
            && (z.rekeyedFirst <==> Rekeys(P, init, Start(key, h)))
  {
    RunStages(P, init, Start(key, h));
    var z := RunFrom(P, init, Start(key, h));
    hide RunFrom, Rekeys;
    assert z.count < 256;
    FlushOk(z);
  }

  /** The start of a run survives the packing. */
  predicate StartSurvives(start: nat, length: int) { length % 256 < 128 || start % 2 == 1 }

  predicate ReadAs(m: Marker, from: nat, length: int) {
    m.Count() == length % 128 && m.First() == from + if StartSurvives(from, length) then 0 else 1
  }

  /** What the packed word reads back as: the length loses its multiples of 128, and an even start becomes odd
      when bit 7 of the length falls on it. So it reads back as the run exactly when the length fits seven bits. */
  lemma MarkerDecodes(from: nat, length: nat, m: Marker)
    requires from < 511 && m.posData == PosData(from, length % 256)
    ensures ReadAs(m, from, length) && (m.First() == from && m.Count() == length <==> length <= 127)
  {
    Packed(from, length, m);
    hide Marker.First, Marker.Count, PosData;
  }

  lemma Packed(from: nat, length: nat, m: Marker)
    requires from < 511 && m.posData == PosData(from, length % 256)
    ensures ReadAs(m, from, length)
  {
    var c := length % 256;
    PackedSmall(from, c);
    hide Marker.First, Marker.Count, PosData;
    if c < 128 {
      Unpacked(m, from, c);
    } else {
      Unpacked(m, if from % 2 == 1 then from else from + 1, c - 128);
    }
    RemainderOf(length);
  }

  lemma RemainderOf(length: nat)
    ensures length % 256 % 128 == length % 128
  {
  }

  lemma PackedSmall(from: nat, c: nat)
    requires from < 511 && c < 256
    ensures c < 128 ==> PosData(from, c) == from * 128 + c
    ensures c >= 128 ==> PosData(from, c) == (if from % 2 == 1 then from else from + 1) * 128 + (c - 128)
  {
  }

  lemma Unpacked(m: Marker, first: nat, count: nat)
    requires count < 128 && m.posData == first * 128 + count
    ensures m.First() == first && m.Count() == count
  {
  }

  /** What marker i is to say about the length of its run. */
  ghost function Length(z: Stage, i: nat): (l: int)
    requires i < |z.starts|
  {
    Bounds(z)[i + 1] - Bounds(z)[i] + Extra(i, z.rekeyedFirst)
  }

  /** No run is longer than a marker can say. */
  ghost predicate RunsFit(z: Stage) {
    forall i :: 0 <= i < |z.starts| ==> Length(z, i) <= 127
  }

  /** Marker i is as good as exact for a tiling: with another marker behind it its length must be right, and
      the last one need only start right. */
  ghost predicate ReadsBack(bounds: seq<nat>, markers: nat, i: nat, extra: nat)
    requires i < markers < |bounds|
  {
    var length := bounds[i + 1] - bounds[i] + extra;
    if i + 1 < markers then length <= 127 else StartSurvives(bounds[i], length)
  }

  ghost predicate RunsReadBack(z: Stage)
    requires z.starts != [] && z.count < 256
  {
    |Flush(z)| < |Bounds(z)| && forall i :: 0 <= i < |Flush(z)| ==> ReadsBack(Bounds(z), |Flush(z)|, i, Extra(i, z.rekeyedFirst))
  }

  /** Markers i, i+1, ... tile from the start of run i exactly when they read back. */
  lemma {:induction false} LaterMarkersTile(chunks: seq<Chunk>, markers: seq<Marker>, bounds: seq<nat>, rekeyedFirst: bool, i: nat)
    requires MarkersOk(chunks, markers, bounds, rekeyedFirst) && |chunks| <= 277
    requires i < |markers| && (i == 0 ==> rekeyedFirst)
    ensures Tiles(markers[i..], bounds[i]) <==> forall k :: i <= k < |markers| ==> ReadsBack(bounds, |markers|, k, 0)
    decreases |markers| - i
  {
    hide PosData, RunAgrees, Marker.First, Marker.Count;
    assert MarkerOk(chunks, markers[i], bounds[i], bounds[i + 1], 0);
    MarkerDecodes(bounds[i], bounds[i + 1] - bounds[i], markers[i]);
    assert markers[i..][0] == markers[i] && markers[i..][1..] == markers[i + 1..];
    assert ReadsBack(bounds, |markers|, i, 0) ==> StartSurvives(bounds[i], bounds[i + 1] - bounds[i]);
    if i + 1 < |markers| {
      LaterMarkersTile(chunks, markers, bounds, rekeyedFirst, i + 1);
      assert MarkerOk(chunks, markers[i + 1], bounds[i + 1], bounds[i + 2], 0);
      MarkerDecodes(bounds[i + 1], bounds[i + 2] - bounds[i + 1], markers[i + 1]);
      assert markers[i + 1..][0] == markers[i + 1];
      hide ReadsBack;
      LongRunBreaks(markers[i + 1..], bounds[i], bounds[i + 1]);
      ReadsBackOne(bounds, |markers|, i);
    } else {
      assert markers[i + 1..] == [];
    }
  }

  /** A length that lost its multiple of 128 leaves a gap before the next start. */
  lemma LongRunBreaks(markers: seq<Marker>, from: nat, to: nat)
    requires markers != [] && from < to && markers[0].First() >= to
    ensures to - from > 127 ==> !Tiles(markers, from + (to - from) % 128)
  {
  }

  lemma ReadsBackOne(bounds: seq<nat>, markers: nat, i: nat)
    requires i + 1 < markers < |bounds|
    ensures ReadsBack(bounds, markers, i, 0) <==> bounds[i + 1] - bounds[i] as int <= 127
  {
  }

  /** The markers that the run leaves, in numbers. */
  lemma Flushed(P: Params, init: Chunk, key: Key, h: Hashes)
    requires |P.code| == 256
    ensures var z := RunFrom(P, init, Start(key, h));
            && z.starts != [] && z.count < 256 && 261 <= |z.chunks| <= 277 && Bounds(z)[0] == 0
            && |z.starts| - 1 <= |Flush(z)| <= |z.starts| && Flush(z) != []
            && MarkersOk(z.chunks, Flush(z), Bounds(z), z.rekeyedFirst)
            && (z.rekeyedFirst <==> Rekeys(P, init, Start(key, h)))
  {
    var z := RunFrom(P, init, Start(key, h));
    hide RunFrom, Rekeys, RawLength, MarkersOk, Flush, StageInv, Done;
    FinalStage(P, init, key, h);
    FlushOk(z);
    FlushedCounts(z);
  }

  lemma FlushedCounts(z: Stage)
    requires z.starts != [] && z.count < 256 && StageInv(z) && 261 <= |z.chunks| <= 277
    ensures Bounds(z)[0] == 0 && |z.starts| - 1 <= |Flush(z)| <= |z.starts| && Flush(z) != []
  {
    hide MarkersOk, RunAgrees, MarkerFor;
  }

  /** Runs that fit all have their marker, which reads back. */
  lemma FitAll(z: Stage)
    requires z.starts != [] && z.count < 256 && 261 <= |z.chunks| <= 277 && Bounds(z)[0] == 0
    requires |z.starts| - 1 <= |Flush(z)| <= |z.starts| && StageInv(z)
    requires MarkersOk(z.chunks, Flush(z), Bounds(z), z.rekeyedFirst) && RunsFit(z)
    ensures |Flush(z)| == |z.starts| > 1 && RunsReadBack(z)
  {
    var n, bounds := |z.starts|, Bounds(z);
    hide PosData, RunAgrees, MarkerFor;
    assert Length(z, n - 1) <= 127 && bounds[n] == |z.chunks| && bounds[n - 1] == First(z) < |z.chunks|;
    assert z.count == Length(z, n - 1);
    hide StageInv;
    forall i | 0 <= i < |Flush(z)| ensures ReadsBack(bounds, |Flush(z)|, i, Extra(i, z.rekeyedFirst)) {
      assert MarkerOk(z.chunks, Flush(z)[i], bounds[i], bounds[i + 1], Extra(i, z.rekeyedFirst));
      assert Length(z, i) <= 127;
    }
  }

  // ---------- the start that the callers make ----------

  /** With two equal hash words the first switcher is 1: opcode 1 on the empty range at 0. So the first
      iteration re-keys, whatever the opcode table, chunk and key. */
  lemma FirstRekeys(P: Params, init: Chunk, key: Key, x: bv64)
    requires |P.code| == 256
    ensures Rekeys(P, init, Start(key, Hashes(x, x)))
  {
    FirstSwitcher(x);
    assert Tries(Start(key, Hashes(x, x))) == 1 by { assert Counter(0) == 0; }
    hide Switcher, OpOf, RangeOf, BranchStage;
    var c := BranchStage(P, init, Hashes(x, x), 1, 0, 0).0;
    SmallDifference(c);
  }

  lemma FirstSwitcher(x: bv64)
    ensures Switcher(Hashes(x, x), 1) == 1 && OpOf(1) == 1 && RangeOf(1) == (0, 0)
  {
  }

  lemma SmallDifference(c: Chunk)
    ensures EndDifference(c, 0, 0) == 0 && SmallEnough(0)
  {
  }

  lemma NothingExtra(z: Stage)
    requires z.starts != [] && z.count < 256 && z.rekeyedFirst && |Flush(z)| < |Bounds(z)|
    ensures RunsReadBack(z) <==> forall k :: 0 <= k < |Flush(z)| ==> ReadsBack(Bounds(z), |Flush(z)|, k, 0)
  {
    hide ReadsBack, Flush, Bounds;
    forall k | 0 <= k < |Flush(z)|
      ensures ReadsBack(Bounds(z), |Flush(z)|, k, 0) <==> ReadsBack(Bounds(z), |Flush(z)|, k, Extra(k, z.rekeyedFirst))
    {
      assert Extra(k, z.rekeyedFirst) == 0;
    }
  }

  /** The markers tile the chunks as SPSA requires exactly when they read back. */
  lemma MarkersTileIff(P: Params, init: Chunk, key: Key, x: bv64)
    requires |P.code| == 256
    ensures var z := RunFrom(P, init, Start(key, Hashes(x, x)));
            Flush(z) != [] && (Tiles(Flush(z), 0) <==> RunsReadBack(z))
  {
    hide RunFrom, Rekeys, Tiles, Flush, MarkersOk, ReadsBack;
    var z := RunFrom(P, init, Start(key, Hashes(x, x)));
    Flushed(P, init, key, Hashes(x, x));
    FirstRekeys(P, init, key, x);
    assert Flush(z)[0..] == Flush(z);
    LaterMarkersTile(z.chunks, Flush(z), Bounds(z), true, 0);
    NothingExtra(z);
  }

  /** When every run fits its marker, each has one, they read back, and they reach the last chunk. */
  lemma FitMarkers(P: Params, init: Chunk, key: Key, x: bv64)
    requires |P.code| == 256
    ensures var z := RunFrom(P, init, Start(key, Hashes(x, x)));
            RunsFit(z) ==> RunsReadBack(z) && |Flush(z)| == |z.starts| && EndOf(Flush(z), 0) == |z.chunks|
  {
    hide RunFrom, Rekeys, EndOf, MarkersOk, StageInv, RunsReadBack;
    var z := RunFrom(P, init, Start(key, Hashes(x, x)));
    var markers, bounds := Flush(z), Bounds(z);
    FinalStage(P, init, key, Hashes(x, x));
    Flushed(P, init, key, Hashes(x, x));
    FirstRekeys(P, init, key, x);
    if RunsFit(z) {
      FitAll(z);
      hide Flush;
      forall k | 0 <= k < |markers| ensures bounds[k + 1] - bounds[k] as int <= 127 { assert Length(z, k) <= 127; }
      FitReaches(z.chunks, markers, bounds, true, 0);
      assert markers[0..] == markers;
    }
  }

  /** Markers of runs that all fit reach the end of the last run. */
  lemma {:induction false} FitReaches(chunks: seq<Chunk>, markers: seq<Marker>, bounds: seq<nat>, rekeyedFirst: bool, i: nat)
    requires MarkersOk(chunks, markers, bounds, rekeyedFirst) && |chunks| <= 277 && i <= |markers|
    requires i == 0 ==> rekeyedFirst
    requires forall k :: i <= k < |markers| ==> bounds[k + 1] - bounds[k] <= 127
    ensures EndOf(markers[i..], bounds[i]) == bounds[|markers|]
    decreases |markers| - i
  {
    hide PosData, RunAgrees, Marker.First, Marker.Count;
    if i < |markers| {
      assert MarkerOk(chunks, markers[i], bounds[i], bounds[i + 1], 0);
      MarkerDecodes(bounds[i], bounds[i + 1] - bounds[i], markers[i]);
      assert markers[i..][0] == markers[i] && markers[i..][1..] == markers[i + 1..];
      FitReaches(chunks, markers, bounds, rekeyedFirst, i + 1);
    }
  }
}
