/** What one iteration of the branch-compute loop does in elementary terms: which bits select it, each byte of the new
    chunk, the hash words and the key; when the loop stops, and how long its text is. */
module StageLaws {
  import opened Suffix
  import opened WolfLanes
  import opened WolfDispatch
  import opened WolfLaws
  import opened SpsaLayout
  import SpsaMerge
  import opened WolfStage
  import opened WolfStamps

  // ---------- selection ----------

  /** A 64-bit word from its three low bytes and the rest. */
  function FromBytes(op: bv8, a: bv8, b: bv8, rest: bv64): bv64 {
    (rest << 24) | ((b as bv64) << 16) | ((a as bv64) << 8) | (op as bv64)
  }

  function Value(b: bv8): (n: nat)
    ensures n < 256
  {
    b as nat
  }

  lemma LowByteIs(x: bv64, b: bv8)
    requires x & 0xFF == b as bv64
    ensures LowByte(x) == Value(b)
  {
    SameByte(x, b);
  }

  lemma SameByte(x: bv64, b: bv8)
    requires x & 0xFF == b as bv64
    ensures (x & 0xFF) as bv8 == b
  {
  }

  lemma LowBytes(op: bv8, a: bv8, b: bv8, rest: bv64)
    ensures var w := FromBytes(op, a, b, rest);
            w & 0xFF == op as bv64 && (w >> 8) & 0xFF == a as bv64 && (w >> 16) & 0xFF == b as bv64
  {
  }

  lemma LowestByte(op: bv8, a: bv8, b: bv8, rest: bv64)
    ensures LowByte(FromBytes(op, a, b, rest)) == Value(op)
  {
    hide *;
    LowBytes(op, a, b, rest);
    LowByteIs(FromBytes(op, a, b, rest), op);
  }

  lemma SecondByte(op: bv8, a: bv8, b: bv8, rest: bv64)
    ensures LowByte(FromBytes(op, a, b, rest) >> 8) == Value(a)
  {
    hide *;
    LowBytes(op, a, b, rest);
    LowByteIs(FromBytes(op, a, b, rest) >> 8, a);
  }

  lemma ThirdByte(op: bv8, a: bv8, b: bv8, rest: bv64)
    ensures LowByte(FromBytes(op, a, b, rest) >> 16) == Value(b)
  {
    hide *;
    LowBytes(op, a, b, rest);
    LowByteIs(FromBytes(op, a, b, rest) >> 16, b);
  }

  /** The lowest byte of the switcher is the opcode; the next two are the ends of the range, in either order, and
      ends more than 32 apart are pulled together modulo 32. */
  lemma SwitcherBytes(op: bv8, a: bv8, b: bv8, rest: bv64)
    ensures var rs, x, y := FromBytes(op, a, b, rest), Value(a), Value(b);
            var low, high := if x < y then x else y, if x < y then y else x;
            OpOf(rs) == Value(op) && RangeOf(rs) == (low, if high - low <= 32 then high else low + (high - low) % 32)
  {
    hide FromBytes, LowByte, Value;
    LowestByte(op, a, b, rest);
    SecondByte(op, a, b, rest);
    ThirdByte(op, a, b, rest);
  }

  /** Every word has such bytes. */
  lemma EveryWord(x: bv64)
    ensures x == FromBytes((x & 0xFF) as bv8, ((x >> 8) & 0xFF) as bv8, ((x >> 16) & 0xFF) as bv8, x >> 24)
  {
  }

  /** The switcher, the hash words and the counter determine each other. */
  lemma SwitcherBits(h: Hashes, tries: bv64)
    ensures Switcher(h, tries) ^ h.lhash ^ h.prev == tries
  {
  }

  /** The counter starts at 0 and counts modulo 65536. */
  lemma {:induction false} CounterCounts(n: nat)
    ensures Counter(0) == 0 && Counter(n) < 0x1_0000
    ensures Counter(n + 1) == if Counter(n) == 0xFFFF then 0 else Counter(n) + 1
  {
    hide NextTries;
    assert Counter(n + 1) == NextTries(Counter(n));
    if n > 0 {
      CounterCounts(n - 1);
      CounterUp(Counter(n - 1));
    }
    CounterUp(Counter(n));
  }

  lemma CounterUp(t: bv64)
    requires t < 0x1_0000
    ensures NextTries(t) == (if t == 0xFFFF then 0 else t + 1) && NextTries(t) < 0x1_0000
  {
  }

  // ---------- bytes ----------

  /** Opcode 253 leaves the byte combined with itself rotated by 6 and with the other byte rotated by 3. */
  lemma Mix253Bits(b: bv8, q: bv8, i: bv8)
    requires i < 8
    ensures Bit(Mixed253(b, q), i) == Bit(b, i) ^ Bit(b, (i + 2) % 8) ^ Bit(q, (i + 5) % 8)
  {
  }

  /** Opcode 253 works from left to right: bytes p1 to p2 - 1 are mixed with the byte at p2, the rest stays. */
  lemma {:induction false} Op253Bytes(P: Params, chunk: Chunk, i: nat, p2: nat, h: Hashes, j: nat)
    requires i <= p2 < CHUNK && j < CHUNK
    ensures Op253(P, chunk, i, p2, h).0[j] == if i <= j < p2 then Mixed253(chunk[j], chunk[p2]) else chunk[j]
    decreases p2 - i
  {
    hide Mixed253;
    if i < p2 {
      var c := chunk[i := Mixed253(chunk[i], chunk[p2])];
      Op253Bytes(P, c, i + 1, p2, PushHash(h, P.xx(c[..p2])), j);
    }
  }

  /** Each byte after the branch stage. Inside the range: opcode 253 mixes, four opcodes clear, every other opcode runs its
      four codes with the byte at p2. On an odd range opcode 0 then exchanges the end bytes with their bits reversed. */
  lemma BranchBytes(P: Params, base: Chunk, h: Hashes, op: nat, p1: nat, p2: nat, j: nat)
    requires |P.code| == 256 && op < 256 && p1 <= p2 < CHUNK && j < CHUNK
    ensures var c := BranchStage(P, base, h, op, p1, p2).0;
            var f := P.code[op];
            c[j] == if op == 253 then if p1 <= j < p2 then Mixed253(base[j], base[p2]) else base[j]
                    else if op == 53 || op == 55 || op == 188 || op == 249 then if p1 <= j < p2 then 0 else base[j]
                    else if op == 0 && (p2 - p1) % 2 == 1 && j == p1 then Reverse8(base[p2])
                    else if op == 0 && (p2 - p1) % 2 == 1 && j == p2 then Reverse8(WolfBranch(base[p1], base[p2], f))
                    else if p1 <= j < p2 then WolfBranch(base[j], base[p2], f) else base[j]
  {
    hide Mixed253, Reverse8, WolfBranch;
    if op == 253 { Op253Bytes(P, base, p1, p2, h, j); }
  }

  // ---------- hash words ----------

  /** What a further hash makes of the two words x and y: the older one of the next pair. */
  function Sum(x: bv64, y: bv64): bv64 { Carry(Hashes(x, y)) }

  /** Words without a common one-bit add up to their disjunction. */
  lemma SumOfDisjoint(x: bv64, y: bv64)
    requires x & y == 0
    ensures Sum(x, y) == x | y
  {
  }

  /** Carries go one bit up, and a carry out of the word is lost. */
  lemma SumCarries(x: bv64)
    ensures Sum(x, x) == x << 1
  {
  }

  lemma Pushed(h: Hashes, next: bv64)
    ensures PushHash(h, next) == Hashes(next, Sum(h.lhash, h.prev)) && Carry(h) == Sum(h.lhash, h.prev)
  {
    hide Carry;
  }

  lemma Bounds(A: bv8)
    ensures (A < 0x10 <==> A < 16) && (A < 0x20 <==> A < 32) && (A < 0x30 <==> A < 48) && (A < 16 ==> A < 32) && (A < 32 ==> A < 48)
  {
  }

  /** The hash words after the branch stage, by the difference A of the range's end bytes. Every further hash moves the sum
      of both words into the older one. */
  lemma HashesAfter(P: Params, c: Chunk, p2: nat, A: bv8, tries: bv64, l: bv64, p: bv64)
    requires p2 < CHUNK
    ensures var r, part, s := HashStage(P, c, p2, A, tries, Hashes(l, p)), c[..p2], Sum(l, p);
            if A < 16 then r.prev == Sum(P.fnv(part), Sum(P.xx(part), s)) && r.lhash == P.sip(tries, r.prev, part)
            else if A < 32 then r.prev == Sum(P.fnv(part), s) && r.lhash == P.sip(tries, r.prev, part)
            else if A < 48 then r.prev == s && r.lhash == P.sip(tries, r.prev, part)
            else r.lhash == l && r.prev == p
  {
    hide PushHash, Carry, Sum;
    var h, part := Hashes(l, p), c[..p2];
    Bounds(A);
    var h1 := if A < 16 then PushHash(h, P.xx(part)) else h;
    var h2 := if A < 32 then PushHash(h1, P.fnv(part)) else h1;
    Pushed(h, P.xx(part));
    Pushed(h1, P.fnv(part));
    Pushed(h2, P.sip(tries, Carry(h2), part));
  }

  /** Opcode 253 hashes once a byte, with the byte mixed and the bytes behind it still as they were. */
  lemma Op253Hashes(P: Params, chunk: Chunk, i: nat, p2: nat, h: Hashes)
    requires i <= p2 < CHUNK
    ensures i < p2 ==> var c := chunk[i := Mixed253(chunk[i], chunk[p2])];
                       Op253(P, chunk, i, p2, h) == Op253(P, c, i + 1, p2, Hashes(P.xx(c[..p2]), Sum(h.lhash, h.prev)))
    ensures i == p2 ==> Op253(P, chunk, i, p2, h) == (chunk, h)
  {
    hide Mixed253, PushHash, Carry, Sum;
    if i < p2 { Pushed(h, P.xx(chunk[i := Mixed253(chunk[i], chunk[p2])][..p2])); }
  }

  // ---------- one iteration ----------

  /** Encrypting twice with the same key restores the chunk. */
  lemma EncryptedTwice(P: Params, c: Chunk, key: Key)
    ensures Encrypted(P, Encrypted(P, c, key), key) == c
  {
    forall j | 0 <= j < CHUNK ensures Encrypted(P, Encrypted(P, c, key), key)[j] == c[j] { XorTwice(c[j], P.stream(key, j)); }
  }

  lemma XorTwice(x: bv8, y: bv8)
    ensures (x ^ y) ^ y == x
  {
  }

  /** The key stream is what encryption leaves of a chunk of zeros. */
  lemma StreamShown(P: Params, c: Chunk, key: Key)
    requires forall j :: 0 <= j < CHUNK ==> c[j] == 0
    ensures forall j :: 0 <= j < CHUNK ==> Encrypted(P, c, key)[j] == P.stream(key, j)
  {
    forall j | 0 <= j < CHUNK ensures Encrypted(P, c, key)[j] == P.stream(key, j) { XorZero(P.stream(key, j)); }
  }

  lemma XorZero(y: bv8)
    ensures 0 ^ y == y
  {
  }

  function Difference(x: bv8, y: bv8): bv8 { x - y }
  function Xor3(x: bv8, y: bv8, z: bv8): bv8 { x ^ y ^ z }
  predicate AtMost64(A: bv8) { A <= 64 }

  lemma Ends(c: Chunk, p1: nat, p2: nat, j: nat)
    requires p1 <= p2 < CHUNK && j < CHUNK
    ensures EndDifference(c, p1, p2) == Difference(c[p1], c[p2])
    ensures SmallEnough(EndDifference(c, p1, p2)) <==> AtMost64(Difference(c[p1], c[p2]))
    ensures LastMixed(c, p1, p2)[j] == if j == 255 then Xor3(c[255], c[p1], c[p2]) else c[j]
  {
  }

  /** The end of an iteration. With c the chunk after the branch stage and A the difference of its end bytes: above 64 the
      chunk keeps its bytes and the key; otherwise it is encrypted, and the key advances. Opcodes 254 and 255 set a new
      key from the chunk they started on. At the end the last byte takes in the bytes at p1 and p2. */
  lemma IterationEnd(P: Params, init: Chunk, r: Stage, j: nat)
    requires |P.code| == 256 && r.starts != [] && r.count < 256 && j < CHUNK
    ensures var tries := Counter(|r.chunks| + 1);
            var rs := Switcher(r.h, tries);
            var base := if r.chunks == [] then init else r.chunks[|r.chunks| - 1];
            var op, p1, p2 := OpOf(rs), RangeOf(rs).0, RangeOf(rs).1;
            var (c, h) := BranchStage(P, base, r.h, op, p1, p2);
            var A := Difference(c[p1], c[p2]);
            var k := if op == 254 || op == 255 then P.setKey(base) else r.key;
            var e := if AtMost64(A) then Encrypted(P, c, k) else c;
            var z := Iterate(P, init, r);
            && z.chunks[..|r.chunks|] == r.chunks
            && z.chunks[|r.chunks|][j] == (if j == 255 then Xor3(e[255], e[p1], e[p2]) else e[j])
            && z.key == (if AtMost64(A) then P.advance(k) else k)
            && z.h == HashStage(P, c, p2, A, tries, h)
  {
    hide BranchStage, HashStage, Counter, Switcher, OpOf, RangeOf, MarkerFor, Min, Max, EndDifference, SmallEnough, LastMixed;
    hide Encrypted, Difference, Xor3, AtMost64;
    var rs := Switcher(r.h, Counter(|r.chunks| + 1));
    var p := RangeOf(rs);
    var c := BranchStage(P, Base(init, r), r.h, OpOf(rs), p.0, p.1).0;
    Ends(c, p.0, p.1, j);
    Ends(Encrypted(P, c, KeyFor(P, init, r)), p.0, p.1, j);
  }

  // ---------- the run ----------

  ghost predicate GoesOn(z: Stage, n: nat)
    requires n < |z.chunks|
  {
    n < 276 && (n < 260 || z.chunks[n][255] < 240)
  }

  /** z has only chunks after which the loop goes on. */
  ghost predicate AllGoOn(z: Stage) {
    forall n :: 0 <= n < |z.chunks| ==> GoesOn(z, n)
  }

  lemma {:induction false} GoesOnToTheEnd(P: Params, init: Chunk, r: Stage)
    requires |P.code| == 256 && r.starts != [] && r.count < 256 && AllGoOn(r)
    ensures var z := RunFrom(P, init, r);
            && 0 < |z.chunks| && (forall n :: 0 <= n < |z.chunks| - 1 ==> GoesOn(z, n)) && !GoesOn(z, |z.chunks| - 1)
    decreases 277 - |r.chunks|
  {
    hide Iterate, GoesOn, Done, AllGoOn;
    var r' := Iterate(P, init, r);
    IterationEnd(P, init, r, 0);
    LastGoesOn(r');
    KeepsGoing(r, r');
    if !Done(r') {
      NotDone(r');
      GoesOnToTheEnd(P, init, r');
    }
  }

  /** The loop stops at the first of its iterations 261 to 276 that leaves a last byte of 240 or more, otherwise at 277. */
  lemma StopsFirst(P: Params, init: Chunk, key: Key, h: Hashes)
    requires |P.code| == 256
    ensures var z := RunFrom(P, init, Start(key, h));
            var n := |z.chunks|;
            && 261 <= n <= 277 && (forall k :: 260 <= k < n - 1 ==> z.chunks[k][255] < 240)
            && (n < 277 ==> z.chunks[n - 1][255] >= 240)
  {
    hide RunFrom, Iterate, RawLength, StageInv;
    FinalStage(P, init, key, h);
    GoesOnToTheEnd(P, init, Start(key, h));
    var z := RunFrom(P, init, Start(key, h));
    forall k | 260 <= k < |z.chunks| - 1 ensures z.chunks[k][255] < 240 { assert GoesOn(z, k); }
    BigByte(z.chunks[|z.chunks| - 1][255]);
  }

  /** One chunk more: those before it are the same, and so is that the loop went on after them. */
  lemma KeepsGoing(r: Stage, r': Stage)
    requires AllGoOn(r) && |r'.chunks| == |r.chunks| + 1 && r'.chunks[..|r.chunks|] == r.chunks
    ensures forall n :: 0 <= n < |r.chunks| ==> GoesOn(r', n)
    ensures GoesOn(r', |r.chunks|) ==> AllGoOn(r')
  {
    forall n | 0 <= n < |r.chunks| ensures GoesOn(r', n) { assert r'.chunks[n] == r'.chunks[..|r.chunks|][n] && GoesOn(r, n); }
    hide GoesOn;
  }

  lemma NotDone(z: Stage)
    requires z.chunks != [] && !Done(z)
    ensures |z.chunks| <= 276
  {
  }

  lemma LastGoesOn(z: Stage)
    requires z.chunks != []
    ensures Done(z) <==> !GoesOn(z, |z.chunks| - 1)
  {
    BigByte(z.chunks[|z.chunks| - 1][255]);
  }

  lemma BigByte(b: bv8)
    ensures b >= 0xF0 <==> !(b < 240)
  {
  }

  // ---------- the text ----------

  /** The last two bytes but one of the last chunk, as one number with the byte at 253 first, say how far beyond the chunks
      before the last four the text goes: the low ten bits of that number. */
  lemma LengthOfText(z: Stage)
    requires |z.chunks| >= 4
    ensures var c := z.chunks[|z.chunks| - 1];
            && RawLength(z) == 256 * (|z.chunks| - 4) + (256 * (c[253] as nat) + c[254] as nat) % 1024
            && RawLength(z) < 256 * |z.chunks|
  {
    var c := z.chunks[|z.chunks| - 1];
    LowTen(c[253] as nat, c[254] as nat);
  }

  lemma LowTen(x: nat, y: nat)
    requires x < 256 && y < 256
    ensures (256 * x + y) % 1024 == x % 4 * 256 + y
  {
  }

  /** SPSA never refuses a text of the branch stage for its size. */
  lemma TextAccepted(P: Params, init: Chunk, key: Key, h: Hashes)
    requires |P.code| == 256
    ensures var z := RunFrom(P, init, Start(key, h));
            261 <= |z.chunks| <= 277 && 65792 <= RawLength(z) < 70912 && RawLength(z) <= SpsaMerge.MAX_DATA_SIZE
  {
    FinalStage(P, init, key, h);
    LengthOfText(RunFrom(P, init, Start(key, h)));
    hide RunFrom, RawLength, StageInv;
  }
}
