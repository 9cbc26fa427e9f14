/** The branch-compute loop of the hash as a function: chunks, hash state, and the template markers that
    tell the suffix-array stage which bytes stay constant over a run of chunks. RC4, XXHash64, FNV-1a and
    SipHash are arbitrary functions. */
module WolfStage {
  import opened Suffix
  import opened WolfLanes
  import opened WolfDispatch
  import opened SpsaLayout

  type Key = seq<bv8>

  datatype Params = Params(
    code: seq<bv32>, xx: seq<bv8> -> bv64, fnv: seq<bv8> -> bv64, sip: (bv64, bv64, seq<bv8>) -> bv64,
    setKey: seq<bv8> -> Key, stream: (Key, nat) -> bv8, advance: Key -> Key)

  datatype Hashes = Hashes(lhash: bv64, prev: bv64)

  type Chunk = s: seq<bv8> | |s| == CHUNK witness seq(CHUNK, _ => 0)

  // ---------- the pieces of one iteration ----------

  function Switcher(h: Hashes, tries: bv64): bv64 { h.prev ^ h.lhash ^ tries }

  function LowByte(x: bv64): (n: nat)
    ensures n < 256
  {
    ((x & 0xFF) as bv8) as nat
  }

  function OpOf(rs: bv64): (op: nat)
    ensures op < 256
  {
    LowByte(rs)
  }

  /** Two positions in order, the second pulled in when they are more than 32 apart. */
  function Clamped(a: nat, b: nat): (r: (nat, nat))
    requires a < CHUNK && b < CHUNK
    ensures r.0 <= r.1 < CHUNK && r.1 - r.0 <= 32
  {
    var p1, p2 := if a > b then b else a, if a > b then a else b;
    (p1, if p2 - p1 > 32 then p1 + (p2 - p1) % 32 else p2)
  }

  function RangeOf(rs: bv64): (r: (nat, nat))
    ensures r.0 <= r.1 < CHUNK && r.1 - r.0 <= 32
  {
    Clamped(LowByte(rs >> 8), LowByte(rs >> 16))
  }

  function Mixed253(b: bv8, pos2val: bv8): bv8 {
    var x := Rl8(b, 3);
    Rl8((x ^ Rl8(x, 2)) ^ pos2val, 3)
  }

  function Carry(h: Hashes): bv64 { h.lhash + h.prev }

  function PushHash(h: Hashes, next: bv64): Hashes { Hashes(next, Carry(h)) }

  /** Opcode 253 from offset i on: every byte step also hashes the chunk as it is then. */
  function Op253(P: Params, chunk: Chunk, i: nat, p2: nat, h: Hashes): (Chunk, Hashes)
    requires i <= p2 < CHUNK
    decreases p2 - i
  {
    if i == p2 then (chunk, h)
    else
      var c := chunk[i := Mixed253(chunk[i], chunk[p2])];
      Op253(P, c, i + 1, p2, PushHash(h, P.xx(c[..p2])))
  }

  predicate ZeroFill(op: nat) { op == 53 || op == 55 || op == 188 || op == 249 }

  ghost function Zeroed(chunk: Chunk, p1: nat, p2: nat): Chunk {
    seq(CHUNK, (j: nat) requires j < CHUNK => if p1 <= j < p2 then 0 else chunk[j])
  }

  /** Opcode 0 on an odd range exchanges the reversed end bytes. */
  function EndsSwapped(chunk: Chunk, op: nat, p1: nat, p2: nat): Chunk
    requires p1 <= p2 < CHUNK
  {
    if op == 0 && (p2 - p1) % 2 == 1 then chunk[p1 := Reverse8(chunk[p2])][p2 := Reverse8(chunk[p1])] else chunk
  }

  ghost function BranchStage(P: Params, base: Chunk, h: Hashes, op: nat, p1: nat, p2: nat): (Chunk, Hashes)
    requires |P.code| == 256 && op < 256 && p1 <= p2 < CHUNK
  {
    if op == 253 then Op253(P, base, p1, p2, h)
    else if ZeroFill(op) then (Zeroed(base, p1, p2), h)
    else (EndsSwapped(Branched(base, p1, p2, P.code[op]), op, p1, p2), h)
  }

  /** One to three further hashes, the fewer the larger A. */
  function HashStage(P: Params, chunk: Chunk, p2: nat, A: bv8, tries: bv64, h: Hashes): Hashes
    requires p2 < CHUNK
  {
    var h1 := if A < 0x10 then PushHash(h, P.xx(chunk[..p2])) else h;
    var h2 := if A < 0x20 then PushHash(h1, P.fnv(chunk[..p2])) else h1;
    if A < 0x30 then PushHash(h2, P.sip(tries, Carry(h2), chunk[..p2])) else h2
  }

  ghost function Encrypted(P: Params, chunk: Chunk, key: Key): Chunk {
    seq(CHUNK, (j: nat) requires j < CHUNK => chunk[j] ^ P.stream(key, j))
  }

  function LastMixed(chunk: Chunk, p1: nat, p2: nat): Chunk
    requires p1 <= p2 < CHUNK
  {
    chunk[255 := chunk[255] ^ chunk[p1] ^ chunk[p2]]
  }

  // ---------- markers ----------

  /** Low 16 bits of first shifted left by 7, or-ed with a count byte: bit 7 of the count meets bit 0 of
      first. */
  function PosData(first: nat, count: nat): nat
    requires count < 256
  {
    (first * 128 + (if count >= 128 && first % 2 == 1 then count - 128 else count)) % 65536
  }

  function MarkerFor(first: nat, count: nat, lp1: Byte, lp2: Byte): Marker
    requires count < 256
  {
    Marker(if count > 1 then lp1 else 0, if count > 1 then lp2 else 255, PosData(first, count))
  }

  /** State between iterations. starts lists the first chunk of every run; rekeyedFirst is history. */
  datatype Stage = Stage(
    chunks: seq<Chunk>, key: Key, h: Hashes, markers: seq<Marker>, starts: seq<nat>,
    count: nat, lp1: Byte, lp2: Byte, rekeyedFirst: bool)

  function First(r: Stage): nat
    requires r.starts != []
  {
    r.starts[|r.starts| - 1]
  }

  function Start(key: Key, h: Hashes): Stage {
    Stage([], key, h, [], [0], 1, 0, 255, false)
  }

  function Min(a: Byte, b: Byte): Byte { if a < b then a else b }
  function Max(a: Byte, b: Byte): Byte { if a < b then b else a }

  function Base(init: Chunk, r: Stage): Chunk {
    if r.chunks == [] then init else r.chunks[|r.chunks| - 1]
  }

  /** One more on a 16-bit counter. */
  function NextTries(t: bv64): bv64 { (t + 1) & 0xFFFF }

  /** The iteration counter after n increments. */
  function Counter(n: nat): bv64 { if n == 0 then 0 else NextTries(Counter(n - 1)) }

  function Tries(r: Stage): bv64 { Counter(|r.chunks| + 1) }

  function EndDifference(c: Chunk, p1: nat, p2: nat): bv8
    requires p1 <= p2 < CHUNK
  {
    c[p1] - c[p2]
  }

  /** Difference of the end bytes after the branch stage; it decides hashing and re-keying. */
  ghost function Decision(P: Params, init: Chunk, r: Stage): (x: (Chunk, Hashes, bv8, nat, nat))
    requires |P.code| == 256
    ensures x.3 <= x.4 < CHUNK
  {
    var rs := Switcher(r.h, Tries(r));
    var p := RangeOf(rs);
    var b := BranchStage(P, Base(init, r), r.h, OpOf(rs), p.0, p.1);
    (b.0, b.1, EndDifference(b.0, p.0, p.1), p.0, p.1)
  }

  predicate SmallEnough(A: bv8) { A <= 0x40 }

  ghost predicate Rekeys(P: Params, init: Chunk, r: Stage)
    requires |P.code| == 256
  {
    SmallEnough(Decision(P, init, r).2)
  }

  ghost function KeyFor(P: Params, init: Chunk, r: Stage): Key {
    if OpOf(Switcher(r.h, Tries(r))) >= 254 then P.setKey(Base(init, r)) else r.key
  }

  /** The finished chunk of the iteration. */
  ghost function NewChunk(P: Params, init: Chunk, r: Stage): Chunk
    requires |P.code| == 256
  {
    var (c, h, A, p1, p2) := Decision(P, init, r);
    LastMixed(if SmallEnough(A) then Encrypted(P, c, KeyFor(P, init, r)) else c, p1, p2)
  }

  /** A new run starts with the re-keyed chunk; the first iteration emits no marker. */
  ghost function Rekeyed(P: Params, r: Stage, c: Chunk, h: Hashes, key: Key, p1: nat, p2: nat): Stage
    requires r.starts != [] && r.count < 256 && p1 <= p2 < CHUNK
  {
    var first := r.chunks == [];
    var marker := MarkerFor(First(r), r.count, Min(r.lp1, p1), Max(r.lp2, p2));
    Stage(r.chunks + [LastMixed(Encrypted(P, c, key), p1, p2)], P.advance(key), h,
          if first then r.markers else r.markers + [marker], if first then r.starts else r.starts + [|r.chunks|],
          1, 255, 0, r.rekeyedFirst || first)
  }

  /** The chunk continues the run. */
  function Extended(r: Stage, c: Chunk, h: Hashes, key: Key, p1: nat, p2: nat): Stage
    requires p1 <= p2 < CHUNK
  {
    r.(chunks := r.chunks + [LastMixed(c, p1, p2)], key := key, h := h, count := (r.count + 1) % 256,
       lp1 := Min(r.lp1, p1), lp2 := Max(r.lp2, p2))
  }

  /** One iteration. */
  ghost function Iterate(P: Params, init: Chunk, r: Stage): (r': Stage)
    requires |P.code| == 256 && r.starts != [] && r.count < 256
    ensures |r'.chunks| == |r.chunks| + 1 && r'.starts != [] && r'.count < 256
  {
    var (c, h, A, p1, p2) := Decision(P, init, r);
    var h' := HashStage(P, c, p2, A, Tries(r), h);
    if SmallEnough(A) then Rekeyed(P, r, c, h', KeyFor(P, init, r), p1, p2)
    else Extended(r, c, h', KeyFor(P, init, r), p1, p2)
  }

  predicate Done(r: Stage) {
    r.chunks != [] && (|r.chunks| > 276 || (r.chunks[|r.chunks| - 1][255] >= 0xF0 && |r.chunks| > 260))
  }

  ghost function RunFrom(P: Params, init: Chunk, r: Stage): (z: Stage)
    requires |P.code| == 256 && r.starts != [] && r.count < 256
    ensures z.starts != [] && z.count < 256 && z.chunks != []
    decreases 277 - |r.chunks|
  {
    var r' := Iterate(P, init, r);
    if Done(r') then r' else RunFrom(P, init, r')
  }

  /** The final marker. */
  function Flush(r: Stage): (markers: seq<Marker>)
    requires r.starts != [] && r.count < 256
  {
    r.markers + if r.count > 0 then [MarkerFor(First(r), r.count, r.lp1, r.lp2)] else []
  }

  /** Length of the text before trailing zeros are dropped. */
  function RawLength(r: Stage): nat
    requires |r.chunks| >= 4
  {
    var c := r.chunks[|r.chunks| - 1];
    (|r.chunks| - 4) * 256 + (c[253] as nat % 4) * 256 + c[254] as nat
  }
}
