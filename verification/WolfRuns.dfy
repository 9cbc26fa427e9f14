/** Two kinds of run of the branch stage, from the start that its callers make and over any opcode table: one that
    records more than SPSA's buffer holds, and one whose first run is too long for its marker. */
module WolfRuns {
  import opened Suffix
  import opened WolfLanes
  import opened WolfDispatch
  import opened SpsaLayout
  import opened WolfStage
  import opened WolfStamps

  // ---------- shared pieces ----------

  lemma CarriesCancel(carry: bv64, t: bv64)
    ensures carry ^ (carry ^ t) == t && (carry ^ t) ^ carry == t
  {
  }

  lemma XorCancels(x: bv8, y: bv8)
    ensures x ^ y ^ y == x && x ^ 0 == x && y - y == 0
  {
  }

  lemma MixedWithItself(c: Chunk)
    ensures LastMixed(c, 0, 0) == c
  {
    XorCancels(c[255], c[0]);
  }

  lemma NotEncrypted(P: Params, c: Chunk, key: Key)
    requires forall j :: 0 <= j < CHUNK ==> P.stream(key, j) == 0
    ensures Encrypted(P, c, key) == c
  {
    forall j | 0 <= j < CHUNK ensures c[j] ^ 0 == c[j] { XorCancels(c[j], 0); }
  }

  lemma EmptyRange(P: Params, base: Chunk, h: Hashes, op: nat)
    requires |P.code| == 256 && op < 2
    ensures BranchStage(P, base, h, op, 0, 0) == (base, h) && EndDifference(base, 0, 0) == 0 && SmallEnough(0)
  {
    assert Branched(base, 0, 0, P.code[op]) == base;
    XorCancels(0, base[0]);
  }

  /** The first iteration: nothing but hashes. */
  lemma FirstDecision(P: Params, init: Chunk, key: Key, x: bv64)
    requires |P.code| == 256
    ensures var r := Start(key, Hashes(x, x));
            Decision(P, init, r) == (init, r.h, 0, 0, 0) && KeyFor(P, init, r) == key && Tries(r) == 1
  {
    WolfStamps.FirstSwitcher(x);
    assert Tries(Start(key, Hashes(x, x))) == 1 by { assert Counter(0) == 0; }
    EmptyRange(P, init, Hashes(x, x), 1);
    hide Switcher, OpOf, RangeOf, BranchStage, EndDifference;
  }

  // ---------- every chunk a run of its own ----------

  /** A hash that makes every next switcher 0, and a key stream of zeros. */
  function SettlingParams(code: seq<bv32>): Params {
    Params(code, (s: seq<bv8>) => 0, (s: seq<bv8>) => 0, (t: bv64, carry: bv64, s: seq<bv8>) => carry ^ NextTries(t),
           (s: seq<bv8>) => [], (k: Key, j: nat) => 0, (k: Key) => k)
  }

  /** All chunks are the first one, each a run of its own. */
  ghost predicate Settled(r: Stage, init: Chunk) {
    && 0 < |r.chunks| == |r.starts| <= 277 && r.count == 1 && r.h.prev ^ r.h.lhash == Tries(r)
    && (forall i :: 0 <= i < |r.starts| ==> r.starts[i] == i)
    && (forall i :: 0 <= i < |r.chunks| ==> r.chunks[i] == init)
    && (forall i :: 0 <= i < |r.markers| ==> r.markers[i].p1 == 0 && r.markers[i].p2 == 255)
  }

  lemma SettlingHashes(code: seq<bv32>, chunk: Chunk, t: bv64, h: Hashes)
    ensures var h' := HashStage(SettlingParams(code), chunk, 0, 0, t, h); h'.prev ^ h'.lhash == NextTries(t)
  {
    var h2 := PushHash(PushHash(h, 0), 0);
    CarriesCancel(Carry(h2), NextTries(t));
    hide Carry, NextTries;
  }

  lemma SettledDecision(code: seq<bv32>, init: Chunk, r: Stage)
    requires |code| == 256 && Settled(r, init)
    ensures Decision(SettlingParams(code), init, r) == (init, r.h, 0, 0, 0) && KeyFor(SettlingParams(code), init, r) == r.key
  {
    ZeroSwitcher(r.h, Tries(r));
    EmptyRange(SettlingParams(code), init, r.h, 0);
    hide Switcher, OpOf, RangeOf, Tries, BranchStage, EndDifference;
    assert Base(init, r) == init;
  }

  lemma ZeroSwitcher(h: Hashes, t: bv64)
    requires h.prev ^ h.lhash == t
    ensures Switcher(h, t) == 0 && OpOf(0) == 0 && RangeOf(0) == (0, 0)
  {
  }

  /** An iteration on the empty range at 0. */
  lemma SettlingStep(code: seq<bv32>, init: Chunk, r: Stage)
    requires |code| == 256 && r.starts != [] && r.count < 256 && |r.chunks| < 277
    requires Decision(SettlingParams(code), init, r) == (init, r.h, 0, 0, 0)
    requires Settled(r, init) || (r.chunks == [] && r.starts == [0] && r.markers == [])
    ensures Settled(Iterate(SettlingParams(code), init, r), init)
    ensures |Iterate(SettlingParams(code), init, r).chunks| == |r.chunks| + 1
  {
    var P := SettlingParams(code);
    SettlingHashes(code, init, Tries(r), r.h);
    NotEncrypted(P, init, KeyFor(P, init, r));
    MixedWithItself(init);
    assert SmallEnough(0) && |P.code| == 256;
    if Settled(r, init) { SettledCount(r, init); }
    var r' := Iterate(P, init, r);
    TriesNext(r, r');
    hide Decision, HashStage, LastMixed, Encrypted, SettlingParams, KeyFor, NextTries, Tries, SmallEnough, Iterate, Settled;
    RekeyingIteration(P, init, r);
    SettledNext(r, r', init);
  }

  lemma TriesNext(r: Stage, r': Stage)
    ensures |r'.chunks| == |r.chunks| + 1 ==> Tries(r') == NextTries(Tries(r))
  {
    hide NextTries;
  }

  lemma SettledNext(r: Stage, r': Stage, init: Chunk)
    requires Settled(r, init) || (r.chunks == [] && r.starts == [0] && r.markers == [])
    requires |r.chunks| < 277 && r'.chunks == r.chunks + [init] && r'.count == 1 && r'.h.prev ^ r'.h.lhash == Tries(r')
    requires r'.starts == r.starts + if r.chunks == [] then [] else [|r.chunks|]
    requires |r'.markers| == |r.markers| + (if r.chunks == [] then 0 else 1) && r'.markers[..|r.markers|] == r.markers
    requires r.chunks != [] ==> r'.markers[|r.markers|].p1 == 0 && r'.markers[|r.markers|].p2 == 255
    ensures Settled(r', init)
  {
    hide Tries;
    forall i | 0 <= i < |r'.markers| ensures r'.markers[i].p1 == 0 && r'.markers[i].p2 == 255 {
      if i < |r.markers| { assert r'.markers[i] == r'.markers[..|r.markers|][i]; }
    }
  }

  lemma SettledCount(r: Stage, init: Chunk)
    requires Settled(r, init)
    ensures r.chunks != [] && r.count == 1
  {
  }

  lemma RekeyingIteration(P: Params, init: Chunk, r: Stage)
    requires |P.code| == 256 && r.starts != [] && r.count < 256 && SmallEnough(Decision(P, init, r).2)
    ensures var d, r' := Decision(P, init, r), Iterate(P, init, r);
            && r'.chunks == r.chunks + [LastMixed(Encrypted(P, d.0, KeyFor(P, init, r)), d.3, d.4)] && r'.count == 1
            && r'.starts == r.starts + (if r.chunks == [] then [] else [|r.chunks|])
            && r'.h == HashStage(P, d.0, d.4, d.2, Tries(r), d.1)
            && |r'.markers| == |r.markers| + (if r.chunks == [] then 0 else 1) && r'.markers[..|r.markers|] == r.markers
            && (r.chunks != [] && r.count == 1 ==> r'.markers[|r.markers|].p1 == 0 && r'.markers[|r.markers|].p2 == 255)
  {
    hide Decision, HashStage, LastMixed, Encrypted, SmallEnough, Tries, KeyFor, PosData;
  }

  lemma SettledDone(r: Stage, init: Chunk)
    requires Settled(r, init)
    ensures r.starts != [] && r.count < 256 && |r.chunks| <= 277 && (|r.chunks| == 277 ==> Done(r))
  {
  }

  lemma {:induction false} SettledToTheEnd(code: seq<bv32>, init: Chunk, r: Stage)
    requires |code| == 256 && Settled(r, init) && |r.chunks| < 277
    ensures Settled(RunFrom(SettlingParams(code), init, r), init)
    decreases 277 - |r.chunks|
  {
    SettledDecision(code, init, r);
    SettledDone(r, init);
    SettlingStep(code, init, r);
    var r' := Iterate(SettlingParams(code), init, r);
    SettledDone(r', init);
    hide Iterate, Settled, Done, Decision, SettlingParams;
    if !Done(r') { SettledToTheEnd(code, init, r'); }
  }

  ghost function SettledRun(code: seq<bv32>, init: Chunk, key: Key, x: bv64): (z: Stage)
    requires |code| == 256
    ensures z.starts != [] && z.count < 256
  {
    RunFrom(SettlingParams(code), init, Start(key, Hashes(x, x)))
  }

  lemma SettledRunIs(code: seq<bv32>, init: Chunk, key: Key, x: bv64)
    requires |code| == 256
    ensures Settled(SettledRun(code, init, key, x), init)
  {
    var P, r := SettlingParams(code), Start(key, Hashes(x, x));
    FirstDecision(P, init, key, x);
    SettlingStep(code, init, r);
    var r1 := Iterate(P, init, r);
    SettledDone(r1, init);
    hide Iterate, Settled, Done, Decision, SettlingParams;
    if !Done(r1) { SettledToTheEnd(code, init, r1); }
  }

  lemma SettledMarkers(z: Stage, init: Chunk)
    requires Settled(z, init)
    ensures RunsFit(z) && forall i :: 0 <= i < |Flush(z)| ==> Flush(z)[i].p1 == 0 && Flush(z)[i].p2 == 255
  {
    var bounds := Bounds(z);
    hide PosData;
    forall i | 0 <= i < |z.starts| ensures Length(z, i) <= 127 {
      assert bounds[i + 1] == i + 1 && bounds[i] == i;
    }
  }

  /** n is the length of the run's text: the raw length without trailing zeros. */
  ghost predicate IsTextLength(z: Stage, n: nat)
    requires |z.chunks| >= 4
  {
    && n <= RawLength(z) <= 256 * |z.chunks|
    && forall k :: n <= k < RawLength(z) ==> z.chunks[k / 256][k % 256] == 0
  }

  /** Over any opcode table and from any first chunk that does not begin with 0, SPSA visits only part of the
      text of such a run: all of its positions are recorded, and the buffer holds 16384. */
  lemma OverflowCounterexample(code: seq<bv32>, init: Chunk, key: Key, x: bv64, n: nat)
    requires |code| == 256 && init[0] != 0
    ensures var z := SettledRun(code, init, key, x);
            && 261 <= |z.chunks| <= 277 && RunsFit(z) && Tiles(Flush(z), 0) && Aligned(n, Flush(z))
            && RecordedSize(n, Flush(z)) == n && (Conserves(n, Flush(z)) <==> n <= MAX_MODIFIED_BYTES)
            && (IsTextLength(z, n) ==> !Conserves(n, Flush(z)))
  {
    var P, z := SettlingParams(code), SettledRun(code, init, key, x);
    SettledRunIs(code, init, key, x);
    SettledMarkers(z, init);
    FinalStage(P, init, key, Hashes(x, x));
    hide RunFrom, Flush, Tiles, Aligned, Conserves, RecordedSize, RunsFit, RunsReadBack, StageInv, SettlingParams, Rekeys;
    MarkersTileIff(P, init, key, x);
    FitMarkers(P, init, key, x);
    FullRangesConserve(n, Flush(z));
    if IsTextLength(z, n) { LongText(z, init, n); }
  }

  lemma LongText(z: Stage, init: Chunk, n: nat)
    requires Settled(z, init) && |z.chunks| >= 261 && init[0] != 0 && IsTextLength(z, n)
    ensures n > MAX_MODIFIED_BYTES
  {
    var k := 256 * (|z.chunks| - 5);
    assert k / 256 == |z.chunks| - 5 && k % 256 == 0 && z.chunks[k / 256][k % 256] == init[0];
  }

  // ---------- a first run that is too long ----------

  /** The switcher of iteration j + 2: opcode 253 on the range j..j+1. */
  function RangeWord(j: nat): bv64 { if j == 0 then 0x100FD else RangeWord(j - 1) + 0x10100 }

  predicate WordIs(w: bv64, j: nat) {
    w < 0x100_0000 && (w & 0xFF) as bv8 == 253 && LowByte(w >> 8) == j && LowByte(w >> 16) == j + 1
  }

  lemma NextWord(w: bv64, j: nat)
    requires WordIs(w, j) && j < 200
    ensures WordIs(w + 0x10100, j + 1)
  {
    var a, b := ((w >> 8) & 0xFF) as bv8, ((w >> 16) & 0xFF) as bv8;
    ByteUp(a, j);
    ByteUp(b, j + 1);
    NextBytes(w);
  }

  lemma ByteUp(a: bv8, j: nat)
    requires a as nat == j < 255
    ensures (a + 1) as nat == j + 1 && a != 255
  {
  }

  lemma NextBytes(w: bv64)
    requires w < 0x100_0000 && (w & 0xFF) as bv8 == 253 && ((w >> 8) & 0xFF) as bv8 != 255 && ((w >> 16) & 0xFF) as bv8 != 255
    ensures var w' := w + 0x10100;
            && w' < 0x100_0000 && (w' & 0xFF) as bv8 == 253 && ((w' >> 8) & 0xFF) as bv8 == ((w >> 8) & 0xFF) as bv8 + 1
            && ((w' >> 16) & 0xFF) as bv8 == ((w >> 16) & 0xFF) as bv8 + 1
  {
  }

  lemma {:induction false} RangeWordIs(j: nat)
    requires j <= 200
    ensures WordIs(RangeWord(j), j)
  {
    hide WordIs;
    if j > 0 {
      RangeWordIs(j - 1);
      NextWord(RangeWord(j - 1), j - 1);
    } else {
      FirstWord();
    }
  }

  lemma FirstWord()
    ensures WordIs(0x100FD, 0)
  {
  }

  lemma WordRange(w: bv64, j: nat)
    requires WordIs(w, j) && j <= 200
    ensures OpOf(w) == 253 && RangeOf(w) == (j, j + 1)
  {
    assert (253 as bv8) as nat == 253;
  }

  /** The first hash word that, with the carry as second, makes w the switcher at counter t. */
  function Aimed(carry: bv64, t: bv64, w: bv64): bv64 { carry ^ (t ^ w) }

  lemma AimedHits(carry: bv64, t: bv64, w: bv64)
    ensures Switcher(Hashes(Aimed(carry, t, w), carry), t) == w
  {
  }

  /** The hash words before iteration j + 2: they make that switcher. */
  function LongHashes(x: bv64, j: nat): Hashes {
    var carry := if j == 0 then Carry(Hashes(x, x)) else Carry(LongHashes(x, j - 1));
    Hashes(Aimed(carry, Counter(j + 2), RangeWord(j)), carry)
  }

  /** Hashes that depend on the length alone, and a key stream of zeros. */
  function LongParams(code: seq<bv32>, x: bv64): Params {
    Params(code, (s: seq<bv8>) => if s == [] then 0 else LongHashes(x, |s|).lhash, (s: seq<bv8>) => 0,
           (t: bv64, carry: bv64, s: seq<bv8>) => Aimed(carry, Counter(2), RangeWord(0)),
           (s: seq<bv8>) => [], (k: Key, j: nat) => 0, (k: Key) => k)
  }

  lemma LongSwitcher(x: bv64, j: nat)
    requires j <= 200
    ensures var rs := Switcher(LongHashes(x, j), Counter(j + 2)); OpOf(rs) == 253 && RangeOf(rs) == (j, j + 1)
  {
    hide Switcher, OpOf, RangeOf, RangeWord, Counter, WordIs, Carry, Aimed;
    RangeWordIs(j);
    WordRange(RangeWord(j), j);
    AimedHits(LongHashes(x, j).prev, Counter(j + 2), RangeWord(j));
  }

  /** Ones from offset j up to 254. */
  ghost predicate OnesFrom(c: Chunk, j: nat) { forall i :: j <= i < 255 ==> c[i] == 1 }

  /** While the first run lasts, up to its 128th chunk. */
  ghost predicate Long(r: Stage, x: bv64) {
    && 1 <= |r.chunks| <= 128 && r.starts == [0] && r.count == |r.chunks| && r.h == LongHashes(x, |r.chunks| - 1)
    && OnesFrom(r.chunks[|r.chunks| - 1], |r.chunks| - 1)
  }

  lemma LongStart(code: seq<bv32>, init: Chunk, key: Key, x: bv64)
    requires |code| == 256 && OnesFrom(init, 0)
    ensures var r1 := Iterate(LongParams(code, x), init, Start(key, Hashes(x, x))); Long(r1, x) && |r1.chunks| == 1
  {
    var P := LongParams(code, x);
    FirstDecision(P, init, key, x);
    FirstHashes(code, init, x);
    NotEncrypted(P, init, key);
    hide LongParams, LongHashes, OnesFrom;
    FirstIteration(P, init, key, x, LongHashes(x, 0));
  }

  /** A first iteration with an empty key stream leaves the first chunk and the hashes of the last stage. */
  lemma FirstIteration(P: Params, init: Chunk, key: Key, x: bv64, h: Hashes)
    requires |P.code| == 256 && Encrypted(P, init, key) == init
    requires Decision(P, init, Start(key, Hashes(x, x))) == (init, Hashes(x, x), 0, 0, 0)
    requires KeyFor(P, init, Start(key, Hashes(x, x))) == key && Tries(Start(key, Hashes(x, x))) == 1
    requires HashStage(P, init, 0, 0, 1, Hashes(x, x)) == h
    ensures var r1 := Iterate(P, init, Start(key, Hashes(x, x)));
            r1.chunks == [init] && r1.starts == [0] && r1.count == 1 && r1.h == h
  {
    MixedWithItself(init);
    assert SmallEnough(0);
    hide Decision, HashStage, LastMixed, Encrypted, KeyFor, SmallEnough, Tries;
    RekeyingIteration(P, init, Start(key, Hashes(x, x)));
    hide Iterate;
  }

  lemma FirstHashes(code: seq<bv32>, init: Chunk, x: bv64)
    ensures HashStage(LongParams(code, x), init, 0, 0, 1, Hashes(x, x)) == LongHashes(x, 0)
  {
    assert init[..0] == [];
    CarryZero(Carry(Hashes(x, x)));
    BelowBounds();
    hide RangeWord, Counter, Carry, Aimed;
  }

  lemma BelowBounds()
    ensures 0 as bv8 < 0x10
  {
  }

  lemma CarryZero(y: bv64)
    ensures Carry(Hashes(0, y)) == y
  {
  }

  lemma OnesMix()
    ensures Mixed253(1, 1) == 0x49 && 0x49 - 1 == 0x48 as bv8 && !SmallEnough(0x48)
  {
  }

  lemma LongBranch(code: seq<bv32>, base: Chunk, x: bv64, j: nat)
    requires |code| == 256 && OnesFrom(base, j) && j <= 126
    ensures var b := BranchStage(LongParams(code, x), base, LongHashes(x, j), 253, j, j + 1);
            b.1 == LongHashes(x, j + 1) && EndDifference(b.0, j, j + 1) == 0x48 && OnesFrom(LastMixed(b.0, j, j + 1), j + 1)
  {
    OnesMix();
    hide Mixed253, SmallEnough, Counter, RangeWord, Carry, Aimed;
    var P, h := LongParams(code, x), LongHashes(x, j);
    var c := base[j := Mixed253(base[j], base[j + 1])];
    OneStep(P, base, j, h);
    assert base[j] == 1 == base[j + 1] && c[j] == 0x49 && c[j + 1] == 1;
    assert |c[..j + 1]| == j + 1 && c[..j + 1] != [];
    assert P.xx(c[..j + 1]) == LongHashes(x, j + 1).lhash;
  }

  lemma OneStep(P: Params, base: Chunk, j: nat, h: Hashes)
    requires |P.code| == 256 && j < 254
    ensures var c := base[j := Mixed253(base[j], base[j + 1])];
            BranchStage(P, base, h, 253, j, j + 1) == (c, PushHash(h, P.xx(c[..j + 1])))
  {
    hide Mixed253, PushHash;
    var c := base[j := Mixed253(base[j], base[j + 1])];
    assert Op253(P, c, j + 1, j + 1, PushHash(h, P.xx(c[..j + 1]))) == (c, PushHash(h, P.xx(c[..j + 1])));
  }

  lemma LongIteration(code: seq<bv32>, init: Chunk, r: Stage, x: bv64)
    requires |code| == 256 && Long(r, x) && |r.chunks| < 128
    ensures var r' := Iterate(LongParams(code, x), init, r); Long(r', x) && |r'.chunks| == |r.chunks| + 1
  {
    var P, j := LongParams(code, x), |r.chunks| - 1;
    LongDecision(code, init, r, x);
    OnesMix();
    var d := Decision(P, init, r);
    NoHashes(P, d.0, j + 1, Tries(r), d.1);
    hide Decision, LongHashes, LastMixed, OnesFrom, SmallEnough, LongParams, HashStage, Tries;
    ExtendingIteration(P, init, r);
    hide Iterate;
  }

  lemma ExtendingIteration(P: Params, init: Chunk, r: Stage)
    requires |P.code| == 256 && r.starts != [] && r.count < 255 && !SmallEnough(Decision(P, init, r).2)
    ensures var d, r' := Decision(P, init, r), Iterate(P, init, r);
            && r'.chunks == r.chunks + [LastMixed(d.0, d.3, d.4)] && r'.starts == r.starts && r'.count == r.count + 1
            && r'.h == HashStage(P, d.0, d.4, d.2, Tries(r), d.1)
  {
    hide Decision, HashStage, LastMixed, SmallEnough, Tries, KeyFor;
  }

  lemma NoHashes(P: Params, c: Chunk, p2: nat, t: bv64, h: Hashes)
    requires p2 < CHUNK
    ensures HashStage(P, c, p2, 0x48, t, h) == h
  {
    hide PushHash;
  }

  lemma LongDecision(code: seq<bv32>, init: Chunk, r: Stage, x: bv64)
    requires |code| == 256 && Long(r, x) && |r.chunks| < 128
    ensures var d, j := Decision(LongParams(code, x), init, r), |r.chunks| - 1;
            && d.1 == LongHashes(x, j + 1) && d.2 == 0x48 && d.3 == j && d.4 == j + 1
            && OnesFrom(LastMixed(d.0, j, j + 1), j + 1)
  {
    var j := |r.chunks| - 1;
    LongSwitcher(x, j);
    LongBranch(code, r.chunks[j], x, j);
    hide Switcher, OpOf, RangeOf, BranchStage, LongHashes, LastMixed, OnesFrom, EndDifference, Counter, LongParams;
    assert Tries(r) == Counter(j + 2) && Base(init, r) == r.chunks[j];
    assert |LongParams(code, x).code| == 256;
  }

  /** No second run before chunk 128. */
  ghost predicate NoEarlyRun(r: Stage) {
    r.starts != [] && r.starts[0] == 0 && |r.chunks| >= 128 && (|r.starts| > 1 ==> r.starts[1] >= 128)
  }

  /** An iteration adds at most one start, that of its own chunk. */
  lemma StartsStay(P: Params, init: Chunk, r: Stage)
    requires |P.code| == 256 && r.starts != [] && r.count < 256
    ensures var r' := Iterate(P, init, r);
            && |r'.chunks| == |r.chunks| + 1
            && (r'.starts == r.starts || r'.starts == r.starts + [|r.chunks|])
  {
    hide Decision, HashStage, KeyFor, Encrypted, LastMixed, MarkerFor;
  }

  lemma LateStep(P: Params, init: Chunk, r: Stage)
    requires |P.code| == 256 && r.starts != [] && r.count < 256 && NoEarlyRun(r)
    ensures var r' := Iterate(P, init, r); |r'.chunks| == |r.chunks| + 1 && NoEarlyRun(r')
  {
    hide Iterate;
    StartsStay(P, init, r);
  }

  lemma LongBounds(r: Stage, x: bv64)
    ensures Long(r, x) && |r.chunks| >= 128 ==> NoEarlyRun(r)
    ensures Long(r, x) ==> r.starts != [] && r.count < 256 && |r.chunks| <= 128 && !Done(r)
  {
    hide LongHashes, OnesFrom;
  }

  lemma {:induction false} LateToTheEnd(P: Params, init: Chunk, r: Stage)
    requires |P.code| == 256 && r.starts != [] && r.count < 256 && |r.chunks| < 277 && NoEarlyRun(r)
    ensures NoEarlyRun(RunFrom(P, init, r))
    decreases 277 - |r.chunks|
  {
    LateStep(P, init, r);
    var r' := Iterate(P, init, r);
    assert |r'.chunks| == 277 ==> Done(r');
    hide Iterate, NoEarlyRun, Done;
    if !Done(r') { LateToTheEnd(P, init, r'); }
  }

  lemma {:induction false} LongToTheEnd(code: seq<bv32>, init: Chunk, r: Stage, x: bv64)
    requires |code| == 256 && r.starts != [] && r.count < 256 && |r.chunks| <= 128 && Long(r, x)
    ensures NoEarlyRun(RunFrom(LongParams(code, x), init, r))
    decreases 277 - |r.chunks|
  {
    assert |LongParams(code, x).code| == 256;
    LongBounds(r, x);
    hide Iterate, Long, NoEarlyRun, Done, LongParams;
    if |r.chunks| == 128 {
      LateToTheEnd(LongParams(code, x), init, r);
    } else {
      LongIteration(code, init, r, x);
      var r' := Iterate(LongParams(code, x), init, r);
      LongBounds(r', x);
      LongToTheEnd(code, init, r', x);
    }
  }

  ghost function LongRun(code: seq<bv32>, init: Chunk, key: Key, x: bv64): (z: Stage)
    requires |code| == 256
    ensures z.starts != [] && z.count < 256
  {
    RunFrom(LongParams(code, x), init, Start(key, Hashes(x, x)))
  }

  lemma LongRunIs(code: seq<bv32>, init: Chunk, key: Key, x: bv64)
    requires |code| == 256 && OnesFrom(init, 0)
    ensures NoEarlyRun(LongRun(code, init, key, x))
  {
    assert |LongParams(code, x).code| == 256;
    hide Iterate, NoEarlyRun, LongParams, OnesFrom, LongHashes;
    LongStart(code, init, key, x);
    var r1 := Iterate(LongParams(code, x), init, Start(key, Hashes(x, x)));
    assert !Done(r1) && r1.starts != [] && r1.count < 256;
    hide Long, Done;
    LongToTheEnd(code, init, r1, x);
  }

  /** Over any opcode table there are hashes and a first chunk for which the first run has at least 128 chunks: all
      its iterations use opcode 253. Its marker does not say where it starts and how long it is. */
  lemma LongRunCounterexample(code: seq<bv32>, init: Chunk, key: Key, x: bv64)
    requires |code| == 256 && OnesFrom(init, 0)
    ensures var z := LongRun(code, init, key, x);
            && !RunsFit(z) && Flush(z) != [] && Length(z, 0) > 127
            && !(Flush(z)[0].First() == 0 && Flush(z)[0].Count() == Length(z, 0))
  {
    var z := LongRun(code, init, key, x);
    LongRunIs(code, init, key, x);
    FirstRekeys(LongParams(code, x), init, key, x);
    hide RunFrom, Rekeys, LongParams, OnesFrom, Flush, NoEarlyRun, RunsFit, MarkersOk;
    Flushed(LongParams(code, x), init, key, Hashes(x, x));
    FirstTooLong(z);
  }

  lemma FirstTooLong(z: Stage)
    requires z.starts != [] && z.count < 256 && |z.chunks| <= 277 && Bounds(z)[0] == 0 && Flush(z) != []
    requires |Flush(z)| <= |z.starts| && MarkersOk(z.chunks, Flush(z), Bounds(z), true) && z.rekeyedFirst && NoEarlyRun(z)
    ensures Length(z, 0) > 127 && !RunsFit(z)
    ensures !(Flush(z)[0].First() == 0 && Flush(z)[0].Count() == Length(z, 0))
  {
    hide Flush, PosData, RunAgrees, Marker.First, Marker.Count;
    assert MarkerOk(z.chunks, Flush(z)[0], 0, Bounds(z)[1], 0);
    assert Length(z, 0) > 127;
    MarkerDecodes(0, Length(z, 0), Flush(z)[0]);
  }
}
