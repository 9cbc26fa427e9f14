/** The branch-compute loop over the worker's scratch buffer, refining WolfStage. */
module WolfCompute {
  import opened Suffix
  import opened WolfLanes
  import opened WolfDispatch
  import opened SpsaLayout
  import opened WolfStage
  import opened WolfStamps
  import opened StageLaws
  import BranchTable

  /** Tables and switches chosen at start-up. */
  datatype Tables = Tables(code16: seq<bv16>, lut: Lut, lutReady: bool, hasAvx2: bool)

  ghost predicate TablesOk(P: Params, t: Tables, branched: seq<nat>) {
    && ValidCode(P.code, branched) && |t.code16| == 256
    && (forall op, i :: 0 <= op < 256 && 0 <= i < 4 ==> Nibble(t.code16[op], i) == Insn(P.code[op], i))
    && (t.lutReady ==> LutOk(t.lut, P.code, branched))
  }

  /** Start-up: both tables from the opcode table. Without room for the large one it is not used. */
  method InitTables(P: Params, branched: seq<nat>, haveRoom: bool, hasAvx2: bool) returns (t: Tables)
    requires ValidCode(P.code, branched)
    ensures TablesOk(P, t, branched) && t.lutReady == haveRoom && t.hasAvx2 == hasAvx2
  {
    hide LutOk, Unary, Insn, Nibble;
    var code16 := InitCodeLut16(P.code);
    var lut := Lut([], [], []);
    if haveRoom { lut := InitLut(P.code, branched); }
    t := Tables(code16, lut, haveRoom, hasAvx2);
  }

  /** Start-up with the miner's own opcode table and branched opcodes. */
  method MinerTables(P: Params, haveRoom: bool, hasAvx2: bool) returns (t: Tables)
    requires P.code == BranchTable.CODE_LUT
    ensures TablesOk(P, t, BranchTable.BRANCHED) && t.lutReady == haveRoom && t.hasAvx2 == hasAvx2
  {
    hide TablesOk, ValidCode, Unary;
    BranchTable.TableIsValid();
    t := InitTables(P, BranchTable.BRANCHED, haveRoom, hasAvx2);
  }

  /** The buffer after a step that may rewrite the chunk at at and bytes behind it. */
  ghost predicate Wrote(before: seq<bv8>, after: seq<bv8>, at: nat, chunk: Chunk) {
    && |after| == |before| && at + CHUNK <= |before|
    && after[..at] == before[..at] && after[at..at + CHUNK] == chunk
  }

  lemma WroteTwice(a: seq<bv8>, b: seq<bv8>, c: seq<bv8>, at: nat, x: Chunk, y: Chunk)
    requires Wrote(a, b, at, x) && Wrote(b, c, at, y)
    ensures Wrote(a, c, at, y)
  {
  }

  /** The chunk the iteration starts from. */
  ghost function BaseAt(buf: seq<bv8>, at: nat): Chunk
    requires at + CHUNK <= |buf| && (at == 0 || at >= CHUNK)
  {
    if at == 0 then buf[..CHUNK] else buf[at - CHUNK..at]
  }

  method CopyChunk(buf: array<bv8>, at: nat) returns (prev: nat)
    requires at + CHUNK + 32 <= buf.Length && (at == 0 || at >= CHUNK)
    modifies buf
    ensures prev == (if at == 0 then 0 else at - CHUNK)
    ensures Wrote(old(buf[..]), buf[..], at, BaseAt(old(buf[..]), at)) && Copied(buf[..], prev, at)
  {
    if at == 0 { return 0; }
    prev := at - CHUNK;
    ghost var was := buf[..];
    for i := 0 to CHUNK
      invariant forall k :: 0 <= k < buf.Length && !(at <= k < at + i) ==> buf[k] == was[k]
      invariant forall k :: at <= k < at + i ==> buf[k] == was[k - CHUNK]
    {
      buf[at + i] := buf[prev + i];
    }
    assert buf[..][at..at + CHUNK] == was[prev..at];
    assert buf[..][prev..prev + CHUNK] == was[prev..at];
  }

  method Mix253(buf: array<bv8>, at: nat, p1: nat, p2: nat, P: Params, h0: Hashes) returns (h: Hashes)
    requires at + CHUNK <= buf.Length && p1 <= p2 < CHUNK
    modifies buf
    ensures var r := Op253(P, old(buf[at..at + CHUNK]), p1, p2, h0); Wrote(old(buf[..]), buf[..], at, r.0) && h == r.1
  {
    hide Mixed253;
    ghost var was := buf[..];
    h := h0;
    for i := p1 to p2
      invariant |buf[..]| == |was| && buf[..at] == was[..at]
      invariant Op253(P, buf[at..at + CHUNK], i, p2, h) == Op253(P, was[at..at + CHUNK], p1, p2, h0)
    {
      ghost var c := buf[at..at + CHUNK];
      buf[at + i] := Mixed253(buf[at + i], buf[at + p2]);
      assert buf[at..at + CHUNK] == c[i := Mixed253(c[i], c[p2])];
      h := PushHash(h, P.xx(buf[at..at + CHUNK][..p2]));
    }
  }

  method FillZero(buf: array<bv8>, at: nat, p1: nat, p2: nat)
    requires at + CHUNK <= buf.Length && p1 <= p2 < CHUNK
    modifies buf
    ensures Wrote(old(buf[..]), buf[..], at, Zeroed(old(buf[at..at + CHUNK]), p1, p2))
  {
    ghost var was := buf[..];
    for i := p1 to p2
      invariant forall k :: 0 <= k < buf.Length && !(at + p1 <= k < at + i) ==> buf[k] == was[k]
      invariant forall k :: at + p1 <= k < at + i ==> buf[k] == 0
    {
      buf[at + i] := 0;
    }
    assert buf[..][at..at + CHUNK] == Zeroed(was[at..at + CHUNK], p1, p2);
  }

  method SwapEnds(buf: array<bv8>, at: nat, op: nat, p1: nat, p2: nat)
    requires at + CHUNK <= buf.Length && p1 <= p2 < CHUNK
    modifies buf
    ensures Wrote(old(buf[..]), buf[..], at, EndsSwapped(old(buf[at..at + CHUNK]), op, p1, p2))
  {
    hide Reverse8;
    ghost var c := buf[at..at + CHUNK];
    if op == 0 && (p2 - p1) % 2 == 1 {
      var t1, t2 := buf[at + p1], buf[at + p2];
      buf[at + p1] := Reverse8(t2);
      buf[at + p2] := Reverse8(t1);
      assert buf[..][at..at + CHUNK] == c[p1 := Reverse8(c[p2])][p2 := Reverse8(c[p1])];
    }
  }

  /** Chunk copy, the special opcodes, and the dispatched ones. */
  method BranchChunk(buf: array<bv8>, at: nat, op: nat, p1: nat, p2: nat, P: Params, t: Tables, key0: Key, h0: Hashes,
                     ghost branched: seq<nat>)
    returns (key: Key, h: Hashes)
    requires at + CHUNK + 32 <= buf.Length && (at == 0 || at >= CHUNK)
    requires op < 256 && p1 <= p2 < CHUNK && p2 - p1 <= 32 && TablesOk(P, t, branched)
    modifies buf
    ensures var r := BranchStage(P, BaseAt(old(buf[..]), at), h0, op, p1, p2);
            Wrote(old(buf[..]), buf[..], at, r.0) && h == r.1
    ensures key == if op >= 254 then P.setKey(BaseAt(old(buf[..]), at)) else key0
  {
    hide Op253, Zeroed, EndsSwapped, Branched, Nibble, Insn, ValidCode, LutOk;
    ghost var was := buf[..];
    var prev := CopyChunk(buf, at);
    ghost var base := BaseAt(was, at);
    key, h := key0, h0;
    if op == 253 {
      h := Mix253(buf, at, p1, p2, P, h);
    } else if ZeroFill(op) {
      FillZero(buf, at, p1, p2);
    } else {
      assert buf[..][prev..prev + CHUNK] == base;
      if op >= 254 { key := P.setKey(buf[prev..prev + CHUNK]); }
      Dispatch(buf, prev, at, op, p1, p2, P.code, t.code16, t.lut, t.lutReady, t.hasAvx2, branched);
      SwapEnds(buf, at, op, p1, p2);
    }
  }

  /** The switch on how many of the three bounds A stays below; each case falls through to the next. */
  method ConditionalHash(chunk: Chunk, p2: nat, A: bv8, tries: bv64, P: Params, h0: Hashes) returns (h: Hashes)
    requires p2 < CHUNK
    ensures h == HashStage(P, chunk, p2, A, tries, h0)
  {
    hide PushHash, Carry;
    h := h0;
    var selector := (if A < 0x30 then 1 else 0) + (if A < 0x20 then 1 else 0) + if A < 0x10 then 1 else 0;
    match selector {
      case 3 =>
        h := PushHash(h, P.xx(chunk[..p2]));
        h := PushHash(h, P.fnv(chunk[..p2]));
        h := PushHash(h, P.sip(tries, Carry(h), chunk[..p2]));
      case 2 =>
        h := PushHash(h, P.fnv(chunk[..p2]));
        h := PushHash(h, P.sip(tries, Carry(h), chunk[..p2]));
      case 1 =>
        h := PushHash(h, P.sip(tries, Carry(h), chunk[..p2]));
      case _ =>
    }
  }

  method Rc4(buf: array<bv8>, at: nat, P: Params, key0: Key) returns (key: Key)
    requires at + CHUNK <= buf.Length
    modifies buf
    ensures Wrote(old(buf[..]), buf[..], at, Encrypted(P, old(buf[at..at + CHUNK]), key0)) && key == P.advance(key0)
  {
    ghost var was := buf[..];
    for i := 0 to CHUNK
      invariant forall k :: 0 <= k < buf.Length && !(at <= k < at + i) ==> buf[k] == was[k]
      invariant forall k :: at <= k < at + i ==> buf[k] == was[k] ^ P.stream(key0, k - at)
    {
      buf[at + i] := buf[at + i] ^ P.stream(key0, i);
    }
    assert buf[..][at..at + CHUNK] == Encrypted(P, was[at..at + CHUNK], key0);
    key := P.advance(key0);
  }

  method MixLast(buf: array<bv8>, at: nat, p1: nat, p2: nat)
    requires at + CHUNK <= buf.Length && p1 <= p2 < CHUNK
    modifies buf
    ensures Wrote(old(buf[..]), buf[..], at, LastMixed(old(buf[at..at + CHUNK]), p1, p2))
  {
    ghost var c := buf[at..at + CHUNK];
    buf[at + 255] := buf[at + 255] ^ buf[at + p1] ^ buf[at + p2];
    assert buf[..][at..at + CHUNK] == LastMixed(c, p1, p2);
  }

  /** One iteration's work on the buffer: branch stage, hashes, encryption, and the last byte. */
  method StepChunk(buf: array<bv8>, at: nat, op: nat, p1: nat, p2: nat, tries: bv64, P: Params, t: Tables, key0: Key, h0: Hashes,
                   ghost branched: seq<nat>)
    returns (key: Key, h: Hashes, A: bv8)
    requires at + CHUNK + 32 <= buf.Length && (at == 0 || at >= CHUNK)
    requires op < 256 && p1 <= p2 < CHUNK && p2 - p1 <= 32 && TablesOk(P, t, branched)
    modifies buf
    ensures var base := BaseAt(old(buf[..]), at);
            var (c, h1) := BranchStage(P, base, h0, op, p1, p2);
            var key1 := if op >= 254 then P.setKey(base) else key0;
            && A == EndDifference(c, p1, p2) && h == HashStage(P, c, p2, A, tries, h1)
            && key == (if SmallEnough(A) then P.advance(key1) else key1)
            && Wrote(old(buf[..]), buf[..], at, LastMixed(if SmallEnough(A) then Encrypted(P, c, key1) else c, p1, p2))
  {
    assert |P.code| == 256;
    hide SmallEnough, BranchStage, TablesOk, HashStage, Encrypted, LastMixed, BaseAt;
    ghost var s0 := buf[..];
    ghost var base := BaseAt(s0, at);
    key, h := BranchChunk(buf, at, op, p1, p2, P, t, key0, h0, branched);
    ghost var c := BranchStage(P, base, h0, op, p1, p2).0;
    ghost var s1 := buf[..];
    assert buf[at..at + CHUNK] == s1[at..at + CHUNK] == c;
    hide EndDifference;
    A := ReadEnds(buf, at, p1, p2, c);
    h := ConditionalHash(buf[at..at + CHUNK], p2, A, tries, P, h);
    key := EncryptChunk(buf, at, p1, p2, A, P, key, c);
    ghost var x := if SmallEnough(A) then Encrypted(P, c, if op >= 254 then P.setKey(base) else key0) else c;
    WroteTwice(s0, s1, buf[..], at, c, LastMixed(x, p1, p2));
    hide Wrote;
  }

  method ReadEnds(buf: array<bv8>, at: nat, p1: nat, p2: nat, ghost c: Chunk) returns (A: bv8)
    requires at + CHUNK <= buf.Length && p1 <= p2 < CHUNK && buf[at..at + CHUNK] == c
    ensures A == EndDifference(c, p1, p2)
  {
    A := buf[at + p1] - buf[at + p2];
    assert buf[at..at + CHUNK][p1] == buf[at + p1] && buf[at..at + CHUNK][p2] == buf[at + p2];
  }

  /** RC4 when A is small, then the last byte. */
  method EncryptChunk(buf: array<bv8>, at: nat, p1: nat, p2: nat, A: bv8, P: Params, key0: Key, ghost c: Chunk) returns (key: Key)
    requires at + CHUNK <= buf.Length && p1 <= p2 < CHUNK && buf[at..at + CHUNK] == c
    modifies buf
    ensures key == if SmallEnough(A) then P.advance(key0) else key0
    ensures Wrote(old(buf[..]), buf[..], at, LastMixed(if SmallEnough(A) then Encrypted(P, c, key0) else c, p1, p2))
  {
    hide SmallEnough, Encrypted, LastMixed;
    ghost var s1, x := buf[..], c;
    key := key0;
    if SmallEnough(A) {
      x := Encrypted(P, c, key);
      key := Rc4(buf, at, P, key);
    }
    ghost var s2 := buf[..];
    assert Wrote(s1, s2, at, x) && buf[at..at + CHUNK] == s2[at..at + CHUNK] == x;
    MixLast(buf, at, p1, p2);
    WroteTwice(s1, s2, buf[..], at, x, LastMixed(x, p1, p2));
    hide Wrote;
  }

  ghost function NextKey(P: Params, init: Chunk, r: Stage): Key
    requires |P.code| == 256
  {
    if SmallEnough(Decision(P, init, r).2) then P.advance(KeyFor(P, init, r)) else KeyFor(P, init, r)
  }

  /** One iteration's work, seen from the stage it starts from. */
  method DecideChunk(buf: array<bv8>, at: nat, tries: nat, P: Params, t: Tables, key0: Key, h0: Hashes,
                     ghost branched: seq<nat>, ghost init: Chunk, ghost r: Stage)
    returns (key: Key, h: Hashes, A: bv8, p1: Byte, p2: Byte)
    requires at + CHUNK + 32 <= buf.Length && at == |r.chunks| * CHUNK && TablesOk(P, t, branched)
    requires BaseAt(buf[..], at) == Base(init, r) && key0 == r.key && h0 == r.h && tries == |r.chunks| + 1
    modifies buf
    ensures var d := Decision(P, init, r);
            A == d.2 && p1 == d.3 && p2 == d.4 && h == HashStage(P, d.0, d.4, A, Tries(r), d.1)
    ensures key == NextKey(P, init, r) && Wrote(old(buf[..]), buf[..], at, NewChunk(P, init, r))
  {
    hide SmallEnough, TablesOk, BranchStage, HashStage, Encrypted, LastMixed, Counter, Switcher, OpOf, RangeOf, BaseAt, Wrote;
    var tries64 := Counter(tries);
    var rs := Switcher(h0, tries64);
    var op := OpOf(rs);
    var range := RangeOf(rs);
    p1, p2 := range.0, range.1;
    key, h, A := StepChunk(buf, at, op, p1, p2, tries64, P, t, key0, h0, branched);
  }

  /** All chunks, end to end. */
  ghost function Flat(chunks: seq<Chunk>): (r: seq<bv8>)
    ensures |r| == CHUNK * |chunks|
  {
    if chunks == [] then [] else Flat(chunks[..|chunks| - 1]) + chunks[|chunks| - 1]
  }

  lemma FlatAppend(chunks: seq<Chunk>, c: Chunk)
    ensures Flat(chunks + [c]) == Flat(chunks) + c
  {
    assert (chunks + [c])[..|chunks|] == chunks;
  }

  lemma FlatExtended(before: seq<bv8>, after: seq<bv8>, at: nat, chunks: seq<Chunk>, chunk: Chunk)
    requires at == CHUNK * |chunks| && Wrote(before, after, at, chunk) && before[..at] == Flat(chunks)
    ensures after[..at + CHUNK] == Flat(chunks + [chunk])
  {
    FlatAppend(chunks, chunk);
    assert after[..at + CHUNK] == after[..at] + after[at..at + CHUNK];
  }

  lemma IterateCases(P: Params, init: Chunk, r: Stage)
    requires |P.code| == 256 && r.starts != [] && r.count < 256
    ensures var (c, h, A, p1, p2) := Decision(P, init, r);
            var key, h' := KeyFor(P, init, r), HashStage(P, c, p2, A, Tries(r), h);
            if SmallEnough(A) then
              && NextKey(P, init, r) == P.advance(key) && NewChunk(P, init, r) == LastMixed(Encrypted(P, c, key), p1, p2)
              && Iterate(P, init, r) == Rekeyed(P, r, c, h', key, p1, p2)
            else
              && NextKey(P, init, r) == key && NewChunk(P, init, r) == LastMixed(c, p1, p2)
              && Iterate(P, init, r) == Extended(r, c, h', key, p1, p2)
  {
    hide SmallEnough, BranchStage, HashStage, Encrypted, LastMixed, Rekeyed, Extended;
  }

  lemma RunUnfolds(P: Params, init: Chunk, r: Stage)
    requires |P.code| == 256 && r.starts != [] && r.count < 256
    ensures var r' := Iterate(P, init, r); RunFrom(P, init, r) == if Done(r') then r' else RunFrom(P, init, r')
  {
    hide Iterate, Done;
  }

  /** The last byte of the last chunk. */
  lemma FlatLast(chunks: seq<Chunk>, o: nat)
    requires chunks != [] && o < CHUNK
    ensures Flat(chunks)[CHUNK * (|chunks| - 1) + o] == chunks[|chunks| - 1][o]
  {
  }

  class WorkerData {
    const sData: array<bv8>
    const astroTemplate: array<Marker>
    var templateIdx: nat
    var tries: nat
    var key: Key
    var h: Hashes
    var firstChunk: nat
    var chunkCount: nat
    var lp1: Byte
    var lp2: Byte
    var dataLen: nat

    /** Scratch for 277 chunks and a full vector store, and room for 277 markers. */
    ghost predicate Valid()
      reads this
    {
      sData.Length >= 277 * CHUNK + 32 && astroTemplate.Length == 277
    }

    constructor ()
      ensures Valid()
    {
      sData := new bv8[72064](_ => 0);
      astroTemplate := new Marker[277](_ => Marker(0, 0, 0));
      templateIdx, tries, key, h := 0, 0, [], Hashes(0, 0);
      firstChunk, chunkCount, lp1, lp2, dataLen := 0, 1, 0, 255, 0;
    }

    /** The worker's fields are the stage r; before the first iteration, init is in place. */
    ghost predicate At(r: Stage, init: Chunk)
      requires Valid()
      reads this, sData, astroTemplate
    {
      && r.starts != [] && tries == |r.chunks| <= 277 && key == r.key && h == r.h
      && firstChunk == First(r) && chunkCount == r.count < 256 && lp1 == r.lp1 && lp2 == r.lp2
      && templateIdx == |r.markers| <= 277 && astroTemplate[..templateIdx] == r.markers
      && sData[..tries * CHUNK] == Flat(r.chunks) && (tries == 0 ==> sData[..CHUNK] == init)
    }

    /** Writes the marker of the pending run at the cursor. */
    method WriteMarker()
      requires Valid() && templateIdx < 277 && chunkCount < 256
      modifies astroTemplate
      ensures astroTemplate[..templateIdx] == old(astroTemplate[..templateIdx])
      ensures astroTemplate[templateIdx] == MarkerFor(firstChunk, chunkCount, lp1, lp2)
    {
      hide PosData;
      astroTemplate[templateIdx] :=
        Marker(if chunkCount > 1 then lp1 else 0, if chunkCount > 1 then lp2 else 255, PosData(firstChunk, chunkCount));
    }

    /** Emits the marker of the finished run, except in the first iteration, and starts the next run. */
    method CloseRun()
      requires Valid() && templateIdx < 277 && chunkCount < 256 && tries > 0
      modifies this`templateIdx, this`firstChunk, this`lp1, this`lp2, this`chunkCount, astroTemplate
      ensures firstChunk == tries - 1 && lp1 == 255 && lp2 == 0 && chunkCount == 1
      ensures templateIdx == old(templateIdx) + (if tries > 1 then 1 else 0)
      ensures astroTemplate[..templateIdx] ==
              old(astroTemplate[..templateIdx]) + if tries > 1 then [old(MarkerFor(firstChunk, chunkCount, lp1, lp2))] else []
    {
      hide MarkerFor;
      WriteMarker();
      if tries > 1 { templateIdx := templateIdx + 1; }
      firstChunk := tries - 1;
      lp1, lp2, chunkCount := 255, 0, 1;
    }

    /** The buffer holds the next chunk, while the run is still r's. */
    ghost predicate Pending(r: Stage, chunk: Chunk, p1: Byte, p2: Byte)
      requires Valid()
      reads this, sData, astroTemplate
    {
      && r.starts != [] && tries == |r.chunks| + 1 <= 277
      && firstChunk == First(r) && chunkCount == r.count < 256 && lp1 == Min(r.lp1, p1) && lp2 == Max(r.lp2, p2)
      && templateIdx == |r.markers| < 277 && astroTemplate[..templateIdx] == r.markers
      && sData[..tries * CHUNK] == Flat(r.chunks + [chunk])
    }

    method FillChunk(n: nat, P: Params, t: Tables, ghost branched: seq<nat>, ghost init: Chunk, ghost r: Stage)
      returns (key': Key, h': Hashes, A: bv8, p1: Byte, p2: Byte)
      requires Valid() && TablesOk(P, t, branched) && At(r, init) && n == tries < 277
      modifies sData
      ensures var d := Decision(P, init, r);
              && A == d.2 && p1 == d.3 && p2 == d.4 && h' == HashStage(P, d.0, d.4, A, Tries(r), d.1) && key' == NextKey(P, init, r)
      ensures sData[..(n + 1) * CHUNK] == Flat(r.chunks + [NewChunk(P, init, r)])
    {
      assert |P.code| == 256;
      BaseIs(r, init);
      hide SmallEnough, TablesOk, Decision, NewChunk, NextKey, HashStage, Flat, BaseAt, Tries;
      var at := n * CHUNK;
      ghost var was := sData[..];
      assert was[..at] == Flat(r.chunks);
      key', h', A, p1, p2 := DecideChunk(sData, at, n + 1, P, t, key, h, branched, init, r);
      FlatExtended(was, sData[..], at, r.chunks, NewChunk(P, init, r));
      hide Wrote;
      assert sData[..(n + 1) * CHUNK] == sData[..][..at + CHUNK];
    }

    method MakeChunk(P: Params, t: Tables, ghost branched: seq<nat>, ghost init: Chunk, ghost r: Stage) returns (A: bv8)
      requires Valid() && TablesOk(P, t, branched) && At(r, init) && tries < 277 && |r.markers| < 277
      modifies this`tries, this`key, this`h, this`lp1, this`lp2, sData
      ensures var d := Decision(P, init, r);
              && A == d.2 && h == HashStage(P, d.0, d.4, A, Tries(r), d.1) && key == NextKey(P, init, r)
              && Pending(r, NewChunk(P, init, r), d.3, d.4)
    {
      hide SmallEnough, TablesOk, Decision, NewChunk, NextKey, HashStage, Flat, Min, Max, Tries;
      var p1, p2;
      key, h, A, p1, p2 := FillChunk(tries, P, t, branched, init, r);
      tries := tries + 1;
      lp1, lp2 := Min(lp1, p1), Max(lp2, p2);
    }

    method FinishRekeyed(ghost P: Params, ghost r: Stage, ghost c: Chunk, ghost key1: Key, ghost p1: nat, ghost p2: nat, ghost init: Chunk)
      requires Valid() && p1 <= p2 < CHUNK && key == P.advance(key1) && r.starts != [] && (r.chunks == [] ==> First(r) == 0)
      requires Pending(r, LastMixed(Encrypted(P, c, key1), p1, p2), p1, p2)
      modifies this`templateIdx, this`firstChunk, this`lp1, this`lp2, this`chunkCount, astroTemplate
      ensures At(Rekeyed(P, r, c, h, key1, p1, p2), init)
    {
      hide Encrypted, LastMixed, MarkerFor, Flat, Min, Max;
      CloseRun();
    }

    method FinishExtended(ghost r: Stage, ghost c: Chunk, ghost p1: nat, ghost p2: nat, ghost init: Chunk)
      requires Valid() && p1 <= p2 < CHUNK && Pending(r, LastMixed(c, p1, p2), p1, p2)
      modifies this`chunkCount
      ensures At(Extended(r, c, h, key, p1, p2), init)
    {
      hide LastMixed, Flat, Min, Max;
      chunkCount := (chunkCount + 1) % 256;
    }

    lemma StageFacts(P: Params, t: Tables, branched: seq<nat>, r: Stage, init: Chunk)
      requires Valid() && TablesOk(P, t, branched) && At(r, init) && StageInv(r) && tries < 277
      ensures |P.code| == 256 && r.starts != [] && r.count < 256 && |r.markers| < 277 && (r.chunks == [] ==> First(r) == 0)
    {
      hide MarkersOk, Flat;
    }

    lemma AtCounts(r: Stage, init: Chunk)
      requires Valid() && At(r, init)
      ensures tries == |r.chunks| && r.starts != [] && r.count < 256 && key == r.key && h == r.h
      ensures sData[..tries * CHUNK] == Flat(r.chunks)
    {
      hide Flat;
    }

    /** One iteration. */
    method Iteration(P: Params, t: Tables, ghost branched: seq<nat>, ghost init: Chunk, ghost r: Stage)
      requires Valid() && TablesOk(P, t, branched) && At(r, init) && StageInv(r) && tries < 277
      modifies this`templateIdx, this`tries, this`key, this`h, this`firstChunk, this`chunkCount, this`lp1, this`lp2, sData, astroTemplate
      ensures At(Iterate(P, init, r), init)
    {
      hide SmallEnough, StageInv, TablesOk, First, Decision, HashStage, Encrypted, LastMixed, KeyFor, Pending, At;
      hide Rekeyed, Extended, Iterate, NewChunk, NextKey, Tries, RangeOf, Switcher;
      StageFacts(P, t, branched, r, init);
      IterateCases(P, init, r);
      ghost var d := Decision(P, init, r);
      var A := MakeChunk(P, t, branched, init, r);
      if SmallEnough(A) {
        FinishRekeyed(P, r, d.0, KeyFor(P, init, r), d.3, d.4, init);
      } else {
        FinishExtended(r, d.0, d.3, d.4, init);
      }
    }

    lemma BaseIs(r: Stage, init: Chunk)
      requires Valid() && At(r, init) && tries < 277
      ensures BaseAt(sData[..], tries * CHUNK) == Base(init, r)
    {
    }

    /** The stop condition at the end of an iteration. */
    method Stops(ghost r: Stage, ghost init: Chunk) returns (stop: bool)
      requires Valid() && At(r, init) && r.chunks != []
      ensures stop <==> Done(r)
    {
      ghost var n := |r.chunks|;
      FlatLast(r.chunks, 255);
      assert Flat(r.chunks)[CHUNK * (n - 1) + 255] == sData[..tries * CHUNK][(tries - 1) * CHUNK + 255];
      hide Flat;
      stop := tries > 276 || (sData[(tries - 1) * CHUNK + 255] >= 0xF0 && tries > 260);
    }

    /** The state before the first iteration. */
    method Reset(ghost init: Chunk)
      requires Valid() && sData[..CHUNK] == init
      modifies this`templateIdx, this`tries, this`firstChunk, this`chunkCount, this`lp1, this`lp2
      ensures At(Start(key, h), init) && StageInv(Start(key, h))
    {
      templateIdx, firstChunk, chunkCount, lp1, lp2, tries := 0, 0, 1, 0, 255, 0;
    }

    lemma StopsInTime(r: Stage)
      requires !Done(r) && r.chunks != []
      ensures |r.chunks| <= 276
    {
    }

    /** One iteration and the test that follows it. */
    method IterateOnce(P: Params, t: Tables, ghost branched: seq<nat>, ghost init: Chunk, ghost r: Stage) returns (stop: bool)
      requires Valid() && TablesOk(P, t, branched) && At(r, init) && StageInv(r) && |r.chunks| < 277 && r.starts != [] && r.count < 256
      modifies this`templateIdx, this`tries, this`key, this`h, this`firstChunk, this`chunkCount, this`lp1, this`lp2, sData, astroTemplate
      ensures |P.code| == 256
      ensures var z := Iterate(P, init, r);
              && At(z, init) && StageInv(z) && (stop <==> Done(z))
              && RunFrom(P, init, r) == if stop then z else RunFrom(P, init, z)
    {
      assert |P.code| == 256;
      hide TablesOk, Iterate, Done, At, StageInv, Start, RunFrom, Rekeys;
      AtCounts(r, init);
      Iteration(P, t, branched, init, r);
      IterateOk(P, init, r);
      RunUnfolds(P, init, r);
      stop := Stops(Iterate(P, init, r), init);
    }

    /** The main loop: on return the worker holds the last stage of the run. */
    method Compute(P: Params, t: Tables, ghost branched: seq<nat>) returns (ghost z: Stage)
      requires Valid() && TablesOk(P, t, branched)
      modifies this`templateIdx, this`tries, this`key, this`h, this`firstChunk, this`chunkCount, this`lp1, this`lp2, sData, astroTemplate
      ensures |P.code| == 256 && z == RunFrom(P, old(sData[..CHUNK]), Start(old(key), old(h)))
      ensures At(z, old(sData[..CHUNK])) && StageInv(z) && z.chunks != []
    {
      assert |P.code| == 256;
      ghost var init: Chunk := sData[..CHUNK];
      z := Start(key, h);
      ghost var z0 := z;
      Reset(init);
      hide TablesOk, Iterate, Done, At, StageInv, Start, RunFrom;
      AtCounts(z, init);
      var it := 0;
      while it < 278
        invariant it == |z.chunks| < 277 && At(z, init) && StageInv(z) && z.starts != [] && z.count < 256
        invariant RunFrom(P, init, z) == RunFrom(P, init, z0)
      {
        var stop := IterateOnce(P, t, branched, init, z);
        z := Iterate(P, init, z);
        if stop { break; }
        it := it + 1;
        StopsInTime(z);
      }
    }

    /** The final marker, unless the count wrapped to 0. */
    method FlushMarker(ghost z: Stage, ghost init: Chunk)
      requires Valid() && At(z, init) && |z.markers| < 277
      modifies this`templateIdx, astroTemplate
      ensures templateIdx <= 277 && astroTemplate[..templateIdx] == Flush(z)
    {
      hide MarkerFor, Flat;
      if chunkCount > 0 {
        WriteMarker();
        templateIdx := templateIdx + 1;
      }
    }

    method ReadLength(ghost z: Stage) returns (len: nat)
      requires Valid() && 261 <= tries == |z.chunks| <= 277 && sData[..tries * CHUNK] == Flat(z.chunks)
      ensures len == RawLength(z)
    {
      ghost var n := tries;
      var at := (tries - 1) * CHUNK;
      FlatLast(z.chunks, 253);
      FlatLast(z.chunks, 254);
      assert sData[..n * CHUNK][at + 253] == sData[at + 253] && sData[..n * CHUNK][at + 254] == sData[at + 254];
      hide Flat;
      var c253, c254 := sData[at + 253], sData[at + 254];
      len := (tries - 4) * 256 + (c253 as nat % 4) * 256 + c254 as nat;
    }

    /** Length of the text: the raw length without its trailing zeros. */
    method TextLength(len: nat)
      requires Valid() && len <= sData.Length
      modifies this`dataLen
      ensures dataLen <= len && (dataLen > 0 ==> sData[dataLen - 1] != 0)
      ensures forall k :: dataLen <= k < len ==> sData[k] == 0
    {
      dataLen := len;
      while dataLen > 0 && sData[dataLen - 1] == 0
        invariant dataLen <= len
        invariant forall k :: dataLen <= k < len ==> sData[k] == 0
      {
        dataLen := dataLen - 1;
      }
    }

    lemma FewMarkers(r: Stage)
      requires r.starts != [] && r.count < 256 && StageInv(r) && r.chunks != []
      ensures |r.markers| < |r.chunks|
    {
    }

    /** The worker holds the chunks, hash state, markers and text length of the finished stage z. */
    ghost predicate Finished(z: Stage)
      requires Valid() && z.starts != [] && z.count < 256 && 261 <= |z.chunks| <= 277
      reads this, sData, astroTemplate
    {
      && tries == |z.chunks| && sData[..tries * CHUNK] == Flat(z.chunks) && key == z.key && h == z.h
      && templateIdx <= 277 && astroTemplate[..templateIdx] == Flush(z)
      && dataLen <= RawLength(z) < CHUNK * tries && (dataLen > 0 ==> sData[dataLen - 1] != 0)
      && forall k :: dataLen <= k < RawLength(z) ==> sData[k] == 0
    }

    method FinishText(ghost z: Stage, ghost init: Chunk)
      requires Valid() && At(z, init) && |z.markers| < 277 && 261 <= |z.chunks| && RawLength(z) < CHUNK * |z.chunks|
      modifies this`templateIdx, this`dataLen, astroTemplate
      ensures z.starts != [] && z.count < 256 && |z.chunks| <= 277 && Finished(z)
    {
      AtCounts(z, init);
      hide Flush, Flat, RawLength;
      FlushMarker(z, init);
      var len := ReadLength(z);
      TextLength(len);
    }

    /** The whole stage: what the worker holds is the run from the buffer's first 256 bytes. */
    method WolfCompute(P: Params, t: Tables, ghost branched: seq<nat>) returns (ghost z: Stage)
      requires Valid() && TablesOk(P, t, branched)
      modifies this`templateIdx, this`tries, this`key, this`h, this`firstChunk, this`chunkCount, this`lp1, this`lp2, this`dataLen
      modifies sData, astroTemplate
      ensures |P.code| == 256 && z == RunFrom(P, old(sData[..CHUNK]), Start(old(key), old(h)))
      ensures z.starts != [] && z.count < 256 && 261 <= |z.chunks| <= 277 && Finished(z)
      ensures var c := z.chunks[|z.chunks| - 1];
              RawLength(z) == 256 * (|z.chunks| - 4) + (256 * (c[253] as nat) + c[254] as nat) % 1024
      ensures old(h.lhash) == old(h.prev) ==> Flush(z) != [] && (Tiles(Flush(z), 0) <==> RunsReadBack(z))
    {
      assert |P.code| == 256;
      ghost var init: Chunk := sData[..CHUNK];
      hide TablesOk, RunFrom, StageInv, Start, Flush, Flat, Rekeys, RawLength, At, Finished, Tiles, RunsReadBack;
      if h.lhash == h.prev { MarkersTileIff(P, init, key, h.lhash); }
      FinalStage(P, init, key, h);
      z := Compute(P, t, branched);
      LengthOfText(z);
      FewMarkers(z);
      FinishText(z, init);
    }

    method StoreScratch(scratch: Chunk)
      requires Valid()
      modifies sData
      ensures sData[..CHUNK] == scratch
    {
      for j := 0 to CHUNK
        invariant forall k :: 0 <= k < j ==> sData[k] == scratch[k]
      {
        sData[j] := scratch[j];
      }
    }

    /** What the hash does around the loop: it keys and encrypts the scratch bytes, starts both hash words from one hash of
        them, and runs the stage. So the markers tile the chunks exactly when they read back. */
    method HashScratch(P: Params, t: Tables, ghost branched: seq<nat>, scratch: Chunk, hash: seq<bv8> -> bv64) returns (ghost z: Stage)
      requires Valid() && TablesOk(P, t, branched)
      modifies this`templateIdx, this`tries, this`key, this`h, this`firstChunk, this`chunkCount, this`lp1, this`lp2, this`dataLen
      modifies sData, astroTemplate
      ensures |P.code| == 256
      ensures var first := Encrypted(P, scratch, P.setKey(scratch));
              z == RunFrom(P, first, Start(P.advance(P.setKey(scratch)), Hashes(hash(first), hash(first))))
      ensures z.starts != [] && z.count < 256 && 261 <= |z.chunks| <= 277 && Finished(z)
      ensures var c := z.chunks[|z.chunks| - 1];
              RawLength(z) == 256 * (|z.chunks| - 4) + (256 * (c[253] as nat) + c[254] as nat) % 1024
      ensures Tiles(astroTemplate[..templateIdx], 0) <==> RunsReadBack(z)
    {
      assert |P.code| == 256;
      hide TablesOk, RunFrom, Start, Flush, Flat, RawLength, Tiles, RunsReadBack, Encrypted;
      StoreScratch(scratch);
      key := Rc4(sData, 0, P, P.setKey(scratch));
      var x := hash(sData[..CHUNK]);
      h := Hashes(x, x);
      z := WolfCompute(P, t, branched);
    }
  }
}
