/** The last stage: SHA-256 over the suffix array as 32-bit little-endian words, by each route. */
module HashRoutes {
  import opened Suffix
  import opened Bytes
  import opened Sha256
  import Sha256Stream
  import Sha256X2
  import TwoByte
  import opened SpsaLayout
  import opened SpsaMerge
  import opened SpsaBuckets
  import opened Spsa
  import opened WolfStage
  import WolfStamps

  /** A position as a 32-bit little-endian word. */
  function WordOf(p: nat): (b: seq<Byte>)
    ensures |b| == 4
  {
    [p % 256, p / 256 % 256, p / 0x1_0000 % 256, p / 0x100_0000 % 256]
  }

  function Serialize(s: seq<nat>): seq<Byte> {
    if s == [] then [] else Serialize(s[..|s| - 1]) + WordOf(s[|s| - 1])
  }

  /** Word i of the serialization is position i, least significant byte first, for any position of 32 bits. */
  lemma {:induction false} StreamWord(s: seq<nat>, i: nat)
    requires i < |s| && s[i] < TWO32
    ensures |Serialize(s)| == 4 * |s| && LittleEndian(Serialize(s)[4 * i..4 * i + 4]) == s[i]
  {
    var n := |s| - 1;
    hide WordOf;
    if i < n {
      StreamWord(s[..n], i);
      assert Serialize(s)[4 * i..4 * i + 4] == Serialize(s[..n])[4 * i..4 * i + 4];
    } else {
      StreamSize(s[..n]);
      assert Serialize(s)[4 * i..4 * i + 4] == WordOf(s[i]);
      WordIsLittle(s[i]);
    }
  }

  lemma {:induction false} StreamSize(s: seq<nat>)
    ensures |Serialize(s)| == 4 * |s|
  {
    if s != [] { StreamSize(s[..|s| - 1]); }
  }

  lemma WordIsLittle(p: nat)
    requires p < TWO32
    ensures LittleEndian(WordOf(p)) == p
  {
    LittleFour(WordOf(p));
    hide LittleEndian;
    var a, b, c := p / 256, p / 0x1_0000, p / 0x100_0000;
    assert p == p % 256 + 256 * a && b == a / 256 && c == b / 256;
    assert a == a % 256 + 256 * b && b == b % 256 + 256 * c && c < 256;
  }

  lemma SerializeAppend(s: seq<nat>, p: nat)
    ensures Serialize(s + [p]) == Serialize(s) + WordOf(p)
  {
    assert (s + [p])[..|s|] == s;
  }

  lemma Regroup(a: seq<Byte>, b: seq<Byte>, c: seq<Byte>)
    ensures a + (b + c) == (a + b) + c && a + [] == a
  {
  }

  /** Hashes a stream of positions in batches of 64 words and a rest. */
  method HashStream(P: Sha256Stream.Sha, ni: bool, stream: seq<nat>) returns (md: seq<Byte>)
    requires |P.K| == 64
    ensures md == Sha256Stream.Digest(P, Serialize(stream))
  {
    hide *;
    var ctx := new Sha256Stream.Sha256Ctx(P, ni);
    var batch: seq<nat> := [];
    EmptySerialized();
    assert stream[..0] == [] && ctx.fed + [] == ctx.fed;
    for i := 0 to |stream|
      invariant fresh(ctx) && fresh(ctx.buf) && ctx.P == P && ctx.Valid() && |batch| < 64
      invariant ctx.fed + Serialize(batch) == Serialize(stream[..i])
    {
      SerializeAppend(batch, stream[i]);
      SerializeAppend(stream[..i], stream[i]);
      assert stream[..i + 1] == stream[..i] + [stream[i]];
      Regroup(ctx.fed, Serialize(batch), WordOf(stream[i]));
      batch := batch + [stream[i]];
      if |batch| == 64 {
        ctx.Update(Serialize(batch));
        Regroup(ctx.fed, [], []);
        batch := [];
      }
    }
    assert stream[..|stream|] == stream;
    if batch != [] {
      ctx.Update(Serialize(batch));
    } else {
      Regroup(ctx.fed, [], []);
    }
    md := ctx.Final();
  }

  lemma EmptySerialized()
    ensures Serialize([]) == []
  {
  }

  // ---------- equal serializations are equal positions ----------

  lemma {:induction false} WordInjective(p: nat, q: nat)
    requires p < 0x1_0000_0000 && q < 0x1_0000_0000 && WordOf(p) == WordOf(q)
    ensures p == q
  {
    WordValue(p);
    WordValue(q);
    var a, b := WordOf(p), WordOf(q);
    assert a[0] == b[0] && a[1] == b[1] && a[2] == b[2] && a[3] == b[3];
    hide WordOf;
  }

  lemma WordValue(p: nat)
    requires p < 0x1_0000_0000
    ensures var w := WordOf(p); p == w[0] as int + 256 * w[1] as int + 0x1_0000 * w[2] as int + 0x100_0000 * w[3] as int
  {
    assert p / 256 / 256 == p / 0x1_0000 && p / 0x1_0000 / 256 == p / 0x100_0000;
  }

  lemma {:induction false} SerializedLength(s: seq<nat>)
    ensures |Serialize(s)| == 4 * |s|
  {
    if s != [] { SerializedLength(s[..|s| - 1]); }
  }

  lemma {:induction false} SerializeInjective(s: seq<nat>, t: seq<nat>)
    requires forall i :: 0 <= i < |s| ==> s[i] < 0x1_0000_0000
    requires forall i :: 0 <= i < |t| ==> t[i] < 0x1_0000_0000
    ensures Serialize(s) == Serialize(t) ==> s == t
    decreases |s|
  {
    SerializedLength(s);
    SerializedLength(t);
    if Serialize(s) == Serialize(t) && s != [] {
      var s', t' := s[..|s| - 1], t[..|t| - 1];
      var x, y := s[|s| - 1], t[|t| - 1];
      SerializedLength(s');
      SerializedLength(t');
      assert Serialize(s) == Serialize(s') + WordOf(x) && Serialize(t) == Serialize(t') + WordOf(y);
      hide Serialize, WordOf;
      SplitWord(Serialize(s'), Serialize(t'), WordOf(x), WordOf(y));
      SerializeInjective(s', t');
      WordInjective(x, y);
      assert s == s' + [x] && t == t' + [y];
    }
  }

  lemma SplitWord(a: seq<Byte>, b: seq<Byte>, x: seq<Byte>, y: seq<Byte>)
    requires |a| == |b| && a + x == b + y
    ensures a == b && x == y
  {
    assert a == (a + x)[..|a|] && b == (b + y)[..|b|] && x == (a + x)[|a|..] && y == (b + y)[|b|..];
  }

  /** The two-byte route and the SPSA route on one text. Each hashes the words of a stream of positions; the two
      hash the same bytes exactly when the collection visits every position once and no small bucket holds an
      inverted tie. */
  method HashBothRoutes(P: Sha256Stream.Sha, ni: bool, T: seq<Byte>, markers: seq<Marker>)
    returns (two: seq<Byte>, spsa: seq<Byte>, stream: seq<nat>)
    requires |P.K| == 64 && |T| <= MAX_DATA_SIZE && markers != []
    ensures two == Sha256Stream.Digest(P, Serialize(SuffixArray(T)))
    ensures spsa == Sha256Stream.Digest(P, Serialize(stream))
    ensures Serialize(stream) == Serialize(SuffixArray(T)) <==> Conserves(|T|, markers) && SmallTiesOrdered(T)
  {
    hide *;
    var sa := new nat[|T|];
    TwoByte.SaConstruct2Byte(T, sa);
    two := HashStream(P, ni, sa[..]);
    var state := new SpsaState();
    var ok;
    ok, stream := state.SpsaIntegrated(T, markers);
    SpsaStream(T, markers, stream);
    StreamsDiffer(T, Visited(Collect(|T|, markers), |T|), stream);
    spsa := HashStream(P, ni, stream);
  }

  lemma StreamsDiffer(T: seq<Byte>, E: seq<nat>, stream: seq<nat>)
    requires IsStream(T, E, stream) && |T| <= MAX_DATA_SIZE
    ensures Serialize(stream) == Serialize(SuffixArray(T)) <==> stream == SuffixArray(T)
  {
    SuffixArrayIsSuffixArray(T);
    SerializeInjective(stream, SuffixArray(T));
    hide Serialize, BucketsOrdered;
  }

  /** The markers that the branch stage leaves for a caller, which always starts it with equal hash words: while
      they read back, they are aligned with every text, and conserve it exactly when all recorded positions fit
      the buffer. */
  lemma BranchMarkersAligned(P: Params, init: Chunk, key: Key, x: bv64, n: nat)
    requires |P.code| == 256
    ensures var z := RunFrom(P, init, Start(key, Hashes(x, x)));
            && Flush(z) != []
            && (WolfStamps.RunsReadBack(z) ==>
                  && Aligned(n, Flush(z))
                  && (Conserves(n, Flush(z)) <==> RecordedSize(n, Flush(z)) <= MAX_MODIFIED_BYTES))
  {
    hide RunFrom, Flush, Tiles, Aligned, Conserves, WolfStamps.RunsReadBack, RecordedSize;
    WolfStamps.MarkersTileIff(P, init, key, x);
    var m := Flush(RunFrom(P, init, Start(key, Hashes(x, x))));
    if Tiles(m, 0) {
      TilesAligned(n, m);
      ConservationIff(n, m);
      Conservation(n, m);
    }
  }

  /** From branch stage to stream: over markers that read back, SPSA yields the suffix array of a text exactly when
      all recorded positions fit the buffer and no small bucket holds an inverted tie. */
  lemma BranchStream(P: Params, init: Chunk, key: Key, x: bv64, T: seq<Byte>, stream: seq<nat>)
    requires |P.code| == 256
    ensures var z := RunFrom(P, init, Start(key, Hashes(x, x)));
            WolfStamps.RunsReadBack(z) && IsStream(T, Visited(Collect(|T|, Flush(z)), |T|), stream) ==>
              (stream == SuffixArray(T) <==> RecordedSize(|T|, Flush(z)) <= MAX_MODIFIED_BYTES && SmallTiesOrdered(T))
  {
    hide RunFrom, Flush, WolfStamps.RunsReadBack, RecordedSize, Conserves, IsStream, Visited, Collect;
    BranchMarkersAligned(P, init, key, x, |T|);
    SpsaStream(T, Flush(RunFrom(P, init, Start(key, Hashes(x, x)))), stream);
  }

  /** Two suffix arrays hashed in lockstep, as the paired miner does. */
  method HashPair(P: Sha256Stream.Sha, saA: seq<nat>, saB: seq<nat>) returns (a: seq<Byte>, b: seq<Byte>)
    requires |P.K| == 64
    ensures a == Sha256Stream.Digest(P, Serialize(saA)) && b == Sha256Stream.Digest(P, Serialize(saB))
  {
    a, b := Sha256X2.HashTwo(P, Serialize(saA), Serialize(saB));
  }
}
