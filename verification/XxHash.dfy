/** XXHash64: the hash of a byte string, and the incremental hasher that computes it over any split. */
module XxHash {
  import opened Suffix
  import opened Bytes

  type U64 = bv64

  const PRIME1: U64 := 11400714785074694791
  const PRIME2: U64 := 14029467366897019727
  const PRIME3: U64 := 1609587929392839161
  const PRIME4: U64 := 9650029242287828579
  const PRIME5: U64 := 2870177450012600261
  const STRIPE: nat := 32

  datatype Lanes = Lanes(s0: U64, s1: U64, s2: U64, s3: U64)

  // ---------- arithmetic ----------

  function RotateLeft(x: U64, bits: bv64): U64
    requires 0 < bits < 64
  {
    (x << bits) | (x >> (64 - bits))
  }

  function ProcessSingle(previous: U64, input: U64): U64 {
    RotateLeft(previous + input * PRIME2, 31) * PRIME1
  }

  /** Up to eight bytes, lowest first. */
  function Word(b: seq<Byte>): U64
    requires |b| <= 8
  {
    WordFits(b);
    LittleEndian(b) as bv64
  }

  lemma WordFits(b: seq<Byte>)
    requires |b| <= 8
    ensures LittleEndian(b) < TWO64
  {
    LittleEndianBelow(b);
    PowMonotone(|b|, 8);
    PowValues();
  }

  function Process(block: seq<Byte>, s: Lanes): Lanes
    requires |block| == STRIPE
  {
    Lanes(ProcessSingle(s.s0, Word(block[..8])), ProcessSingle(s.s1, Word(block[8..16])),
          ProcessSingle(s.s2, Word(block[16..24])), ProcessSingle(s.s3, Word(block[24..])))
  }

  function Seeded(seed: U64): Lanes {
    Lanes(seed + PRIME1 + PRIME2, seed + PRIME2, seed, seed - PRIME1)
  }

  // ---------- the hash of a byte string ----------

  /** Lanes after the whole stripes of data. */
  function Fold(s: Lanes, data: seq<Byte>): Lanes
    requires |data| % STRIPE == 0
    decreases |data|
  {
    if data == [] then s else Fold(Process(data[..STRIPE], s), data[STRIPE..])
  }

  lemma {:induction false} FoldConcat(s: Lanes, a: seq<Byte>, b: seq<Byte>)
    requires |a| % STRIPE == 0 && |b| % STRIPE == 0
    ensures Fold(s, a + b) == Fold(Fold(s, a), b)
    decreases |a|
  {
    hide Process;
    if a == [] {
      assert a + b == b;
    } else {
      assert (a + b)[..STRIPE] == a[..STRIPE] && (a + b)[STRIPE..] == a[STRIPE..] + b;
      FoldConcat(Process(a[..STRIPE], s), a[STRIPE..], b);
    }
  }

  lemma FoldOne(s: Lanes, a: seq<Byte>, block: seq<Byte>)
    requires |a| % STRIPE == 0 && |block| == STRIPE
    ensures Fold(s, a + block) == Process(block, Fold(s, a))
  {
    hide Process;
    FoldConcat(s, a, block);
    assert block[..STRIPE] == block && block[STRIPE..] == [];
  }

  function MergeLane(result: U64, lane: U64): U64 { (result ^ ProcessSingle(0, lane)) * PRIME1 + PRIME4 }

  function Merge(s: Lanes): U64 {
    var sum := RotateLeft(s.s0, 1) + RotateLeft(s.s1, 7) + RotateLeft(s.s2, 12) + RotateLeft(s.s3, 18);
    MergeLane(MergeLane(MergeLane(MergeLane(sum, s.s0), s.s1), s.s2), s.s3)
  }

  function Eat8(result: U64, b: seq<Byte>): U64
    requires |b| == 8
  {
    RotateLeft(result ^ ProcessSingle(0, Word(b)), 27) * PRIME1 + PRIME4
  }

  function Eat4(result: U64, b: seq<Byte>): U64
    requires |b| == 4
  {
    RotateLeft(result ^ (Word(b) * PRIME1), 23) * PRIME2 + PRIME3
  }

  function Eat1(result: U64, b: Byte): U64 { RotateLeft(result ^ (Word([b]) * PRIME5), 11) * PRIME1 }

  /** The bytes behind the last stripe: eight at a time, then four, then one at a time. */
  function Tail(result: U64, b: seq<Byte>): U64
    decreases |b|
  {
    if |b| >= 8 then Tail(Eat8(result, b[..8]), b[8..])
    else if |b| >= 4 then Ones(Eat4(result, b[..4]), b[4..])
    else Ones(result, b)
  }

  function Ones(result: U64, b: seq<Byte>): U64
    decreases |b|
  {
    if b == [] then result else Ones(Eat1(result, b[0]), b[1..])
  }

  function Mix(x: U64): U64 {
    var a := (x ^ (x >> 33)) * PRIME2;
    var b := (a ^ (a >> 29)) * PRIME3;
    b ^ (b >> 32)
  }

  /** The lanes merged; below one stripe only the third counts. */
  function Initial(s: Lanes, total: nat): U64 { if total >= STRIPE then Merge(s) else s.s2 + PRIME5 }

  function AddLength(x: U64, total: nat): U64
    requires total < TWO64
  {
    x + total as bv64
  }

  /** The hash: whole stripes into the lanes, then the length modulo 2^64, then the rest. */
  function Hash(seed: U64, m: seq<Byte>): U64 {
    var whole := |m| / STRIPE * STRIPE;
    var lanes := Fold(Seeded(seed), m[..whole]);
    var total := |m| % TWO64;
    Mix(Tail(AddLength(Initial(lanes, total), total), m[whole..]))
  }

  // ---------- the hasher ----------

  /** fed is history: the bytes added so far. */
  class Hasher {
    const buffer: array<Byte>
    ghost const seed: U64
    var state: Lanes
    var bufferSize: nat
    var totalLength: nat
    ghost var fed: seq<Byte>

    /** The lanes have taken in all whole stripes of f, and the buffer keeps the rest. */
    ghost predicate Holds(f: seq<Byte>)
      reads this`state, this`bufferSize, buffer
    {
      && buffer.Length == STRIPE && bufferSize < STRIPE && bufferSize <= |f| && (|f| - bufferSize) % STRIPE == 0
      && buffer[..bufferSize] == f[|f| - bufferSize..] && state == Fold(Seeded(seed), f[..|f| - bufferSize])
    }

    ghost predicate Counts(n: nat)
      reads this`totalLength
    {
      totalLength == n % TWO64
    }

    ghost predicate Valid()
      reads this, buffer
    {
      Holds(fed) && Counts(|fed|)
    }

    constructor (seed: U64)
      ensures Valid() && fed == [] && this.seed == seed && fresh(buffer)
    {
      hide Fold, Process, Seeded;
      this.seed, state, bufferSize, totalLength, fed := seed, Seeded(seed), 0, 0, [];
      buffer := new Byte[STRIPE](_ => 0);
      new;
      FoldEmpty(Seeded(seed));
      assert fed[..0] == [] && fed[0..] == [];
    }

    /** Copies data into the buffer. */
    method Fill(data: seq<Byte>)
      requires buffer.Length == STRIPE && bufferSize + |data| <= STRIPE
      modifies buffer, this`bufferSize
      ensures bufferSize == old(bufferSize) + |data| && buffer[..bufferSize] == old(buffer[..bufferSize]) + data
    {
      ghost var n := bufferSize;
      for i := 0 to |data|
        invariant bufferSize == n + i && buffer[..bufferSize] == old(buffer[..n]) + data[..i]
      {
        buffer[bufferSize] := data[i];
        bufferSize := bufferSize + 1;
        assert buffer[..bufferSize] == buffer[..bufferSize - 1] + [data[i]];
      }
    }

    method KeepShort(data: seq<Byte>, ghost f: seq<Byte>)
      requires Holds(f) && bufferSize + |data| < STRIPE
      modifies this`bufferSize, buffer
      ensures Holds(f + data)
    {
      hide Fold, Seeded;
      ghost var n := bufferSize;
      Fill(data);
      assert (f + data)[..|f + data| - bufferSize] == f[..|f| - n] && (f + data)[|f + data| - bufferSize..] == f[|f| - n..] + data;
    }

    /** Data that fills the buffer exactly. */
    method TopUp(data: seq<Byte>, ghost f: seq<Byte>)
      requires Holds(f) && bufferSize + |data| == STRIPE
      modifies this`state, this`bufferSize, buffer
      ensures Holds(f + data) && bufferSize == 0
    {
      hide Fold, Process, Seeded;
      ghost var done, kept := f[..|f| - bufferSize], f[|f| - bufferSize..];
      Fill(data);
      assert buffer[..] == buffer[..STRIPE] == kept + data;
      state := Process(buffer[..], state);
      bufferSize := 0;
      FoldOne(Seeded(seed), done, kept + data);
      assert done + (kept + data) == f + data && (f + data)[..|f + data|] == f + data;
    }

    /** The whole stripes of data, straight from the input; at is where the rest begins. */
    method ProcessStripes(data: seq<Byte>) returns (at: nat)
      modifies this`state
      ensures at <= |data| < at + STRIPE && at % STRIPE == 0 && state == Fold(old(state), data[..at])
    {
      hide Fold, Process;
      at := 0;
      FoldEmpty(state);
      assert data[..0] == [];
      while at + STRIPE <= |data|
        invariant at <= |data| && at % STRIPE == 0 && state == Fold(old(state), data[..at])
      {
        FoldOne(old(state), data[..at], data[at..at + STRIPE]);
        assert data[..at] + data[at..at + STRIPE] == data[..at + STRIPE];
        state := Process(data[at..at + STRIPE], state);
        at := at + STRIPE;
      }
    }

    /** Whole stripes straight from the input, then the rest into the empty buffer. */
    method TakeAligned(data: seq<Byte>, ghost f: seq<Byte>)
      requires Holds(f) && bufferSize == 0
      modifies this`state, this`bufferSize, buffer
      ensures Holds(f + data)
    {
      hide Fold, Process, Seeded;
      assert f[..|f|] == f;
      var at := ProcessStripes(data);
      FoldConcat(Seeded(seed), f, data[..at]);
      Fill(data[at..]);
      assert (f + data)[..|f + data| - bufferSize] == f + data[..at] && (f + data)[|f + data| - bufferSize..] == data[at..];
    }

    method CountBytes(len: nat, ghost n: nat)
      requires Counts(n)
      modifies this`totalLength
      ensures Counts(n + len)
    {
      ModAdd(n, len);
      totalLength := (totalLength + len) % TWO64;
    }

    /** Adds bytes; false when there are none. */
    method Add(data: seq<Byte>) returns (ok: bool)
      requires Valid()
      modifies this`state, this`bufferSize, this`totalLength, this`fed, buffer
      ensures Valid() && fed == old(fed) + data && (ok <==> data != [])
    {
      hide Holds, Counts;
      if data == [] {
        assert fed + data == fed;
        return false;
      }
      CountBytes(|data|, |fed|);
      Absorb(data, fed);
      fed := fed + data;
      ok := true;
    }

    method Absorb(data: seq<Byte>, ghost f: seq<Byte>)
      requires Holds(f)
      modifies this`state, this`bufferSize, buffer
      ensures Holds(f + data)
    {
      assert bufferSize < STRIPE;
      hide Holds;
      if bufferSize + |data| < STRIPE {
        KeepShort(data, f);
      } else if bufferSize > 0 {
        var need := STRIPE - bufferSize;
        TopUp(data[..need], f);
        TakeAligned(data[need..], f + data[..need]);
        SplitAt(f, data, need);
      } else {
        TakeAligned(data, f);
      }
    }

    /** The hash of everything added so far; the state stays as it is. */
    method Digest() returns (result: U64)
      requires Valid()
      ensures result == Hash(seed, fed)
    {
      WholeStripes(|fed|, bufferSize);
      hide Fold, Process, Seeded, Merge, Eat8, Eat4, Eat1, Mix, Initial, AddLength, Tail, Ones;
      result := AddLength(Initial(state, totalLength), totalLength);
      var rest := buffer[..bufferSize];
      result := EatTail(result, rest);
      result := Mix(result);
    }
  }

  /** The three loops over the remaining bytes. */
  method EatTail(start: U64, rest: seq<Byte>) returns (result: U64)
    ensures result == Tail(start, rest)
  {
    hide Eat8, Eat4, Eat1;
    result := start;
    var at := 0;
    while at + 8 <= |rest|
      invariant at <= |rest| && Tail(result, rest[at..]) == Tail(start, rest)
    {
      assert rest[at..][..8] == rest[at..at + 8] && rest[at..][8..] == rest[at + 8..];
      result := Eat8(result, rest[at..at + 8]);
      at := at + 8;
    }
    if at + 4 <= |rest| {
      assert rest[at..][..4] == rest[at..at + 4] && rest[at..][4..] == rest[at + 4..];
      result := Eat4(result, rest[at..at + 4]);
      at := at + 4;
    }
    while at < |rest|
      invariant at <= |rest| && Ones(result, rest[at..]) == Tail(start, rest)
    {
      assert rest[at..][1..] == rest[at + 1..];
      result := Eat1(result, rest[at]);
      at := at + 1;
    }
  }

  lemma FoldEmpty(s: Lanes)
    ensures Fold(s, []) == s
  {
    hide Process;
  }

  lemma WholeStripes(n: nat, rest: nat)
    requires rest < STRIPE && rest <= n && (n - rest) % STRIPE == 0
    ensures n / STRIPE * STRIPE == n - rest
  {
  }

  /** Below one stripe the hash starts from the seed, as published; the third lane still holds it. */
  lemma ShortStart(seed: U64, m: seq<Byte>)
    requires |m| < STRIPE
    ensures Initial(Fold(Seeded(seed), m[..|m| / STRIPE * STRIPE]), |m|) == seed + PRIME5
  {
    assert m[..|m| / STRIPE * STRIPE] == [];
  }

  /** Whatever the split into pieces, the hash is that of the whole. */
  method HashPieces(seed: U64, pieces: seq<seq<Byte>>) returns (result: U64)
    ensures result == Hash(seed, Concat(pieces))
  {
    hide *;
    var hasher := new Hasher(seed);
    ConcatNothing(pieces);
    for i := 0 to |pieces|
      invariant fresh(hasher) && fresh(hasher.buffer) && hasher.seed == seed && hasher.Valid() && hasher.fed == Concat(pieces[..i])
    {
      var _ := hasher.Add(pieces[i]);
      ConcatStep(pieces, i);
    }
    assert pieces[..|pieces|] == pieces;
    result := hasher.Digest();
  }
}
