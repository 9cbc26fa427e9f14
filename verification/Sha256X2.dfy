/** Two messages hashed in lockstep: the lanes share one loop, and a lane that has run out of blocks
    keeps its state. */
module Sha256X2 {
  import opened Suffix
  import opened Sha256
  import opened Sha256Block
  import opened Sha256Stream

  /** Two zeroed blocks with the message's last bytes and the bit 1. */
  method StartTail(rest: seq<Byte>) returns (out: array<Byte>)
    requires |rest| < BLOCK
    ensures fresh(out) && out.Length == 2 * BLOCK && out[..] == rest + [0x80] + Zeros(2 * BLOCK - |rest| - 1)
  {
    out := new Byte[2 * BLOCK](_ => 0);
    for i := 0 to |rest|
      invariant forall k :: 0 <= k < i ==> out[k] == rest[k]
      invariant forall k :: i <= k < 2 * BLOCK ==> out[k] == 0
    {
      out[i] := rest[i];
    }
    out[|rest|] := 0x80;
  }

  method WriteBytes(out: array<Byte>, at: nat, bytes: seq<Byte>)
    requires at + |bytes| <= out.Length
    modifies out
    ensures out[..at + |bytes|] == old(out[..at]) + bytes
  {
    for i := 0 to |bytes|
      invariant out[..at + i] == old(out[..at]) + bytes[..i]
    {
      out[at + i] := bytes[i];
      assert out[..at + i + 1] == out[..at + i] + [bytes[i]];
    }
  }

  /** The one or two padding blocks of a message, and how many they are. */
  method BuildTail(input: seq<Byte>) returns (tail: seq<Byte>, blocks: nat)
    ensures blocks == 1 || blocks == 2
    ensures |tail| == blocks * BLOCK && input[..|input| / BLOCK * BLOCK] + tail == Pad(input)
  {
    hide LengthBytes, ZeroCount;
    var rem := |input| % BLOCK;
    ZeroRoom(|input|, rem);
    var rest := input[|input| - rem..];
    var out := StartTail(rest);
    blocks := if rem < 56 then 1 else 2;
    var at := blocks * BLOCK - 8;
    assert out[..at] == out[..][..at] == rest + [0x80] + Zeros(at - rem - 1);
    WriteBytes(out, at, LengthBytes(|input|));
    tail := out[..blocks * BLOCK];
    assert input == input[..|input| - rem] + rest;
  }

  /** Sixteen groups of four rounds on both lanes; each lane ends with its own 64 rounds. */
  method Compress2(K: seq<Word>, a: State, b: State, ma: seq<Word>, mb: seq<Word>) returns (a0: V4, a1: V4, b0: V4, b1: V4)
    requires |K| == 64 && |ma| == 16 == |mb|
    ensures var r := Rounds(K, a, ma, 64); a0 == Abef(r) && a1 == Cdgh(r)
    ensures var r := Rounds(K, b, mb, 64); b0 == Abef(r) && b1 == Cdgh(r)
  {
    hide FourRounds, Rounds, RoundKey, ScheduleGroup, WindowsAt, Window, AddV, W;
    a0, a1, b0, b1 := Abef(a), Cdgh(a), Abef(b), Cdgh(b);
    var wa, wb := Loaded(ma), Loaded(mb);
    LoadedOk(ma);
    LoadedOk(mb);
    NoRounds(K, a, ma);
    NoRounds(K, b, mb);
    hide Abef, Cdgh, Loaded;
    for g := 0 to 16
      invariant |wa| == 4 == |wb| && (g < 16 ==> WindowsAt(ma, wa, g) && WindowsAt(mb, wb, g))
      invariant var r := Rounds(K, a, ma, 4 * g); a0 == Abef(r) && a1 == Cdgh(r)
      invariant var r := Rounds(K, b, mb, 4 * g); b0 == Abef(r) && b1 == Cdgh(r)
    {
      a0, a1, wa := LaneGroup(K, a, ma, a0, a1, wa, g);
      b0, b1, wb := LaneGroup(K, b, mb, b0, b1, wb, g);
    }
  }

  /** One lane's share of a group: four rounds and the schedule. */
  method LaneGroup(K: seq<Word>, ghost s: State, ghost m: seq<Word>, abef: V4, cdgh: V4, w: seq<V4>, g: nat)
    returns (abef': V4, cdgh': V4, w': seq<V4>)
    requires |K| == 64 && |m| == 16 && g < 16 && |w| == 4 && WindowsAt(m, w, g)
    requires var r := Rounds(K, s, m, 4 * g); abef == Abef(r) && cdgh == Cdgh(r)
    ensures var r := Rounds(K, s, m, 4 * (g + 1)); abef' == Abef(r) && cdgh' == Cdgh(r)
    ensures |w'| == 4 && (g + 1 < 16 ==> WindowsAt(m, w', g + 1))
  {
    hide FourRounds, Rounds, RoundKey, ScheduleGroup, WindowsAt, Window, AddV, W, Abef, Cdgh;
    CurrentWindow(m, w, g);
    GroupRounds(K, s, m, g);
    assert 4 * (g + 1) == 4 * g + 4;
    var rounds := FourRounds(abef, cdgh, AddV(w[g % 4], RoundKey(K, g)));
    abef', cdgh' := rounds.0, rounds.1;
    if g < 15 { ScheduleGroupOk(m, w, g); }
    w' := ScheduleGroup(w, g);
  }

  /** Block i of a lane: from the message, from the tail, or zeros when the lane is exhausted. */
  function LaneBlock(input: seq<Byte>, tail: seq<Byte>, i: nat): (b: seq<Byte>)
    requires |tail| % BLOCK == 0
    ensures |b| == BLOCK
  {
    var full := |input| / BLOCK;
    if i < full then input[i * BLOCK..(i + 1) * BLOCK]
    else if i < full + |tail| / BLOCK then tail[(i - full) * BLOCK..(i - full + 1) * BLOCK]
    else Zeros(BLOCK)
  }

  lemma LaneBlockIs(input: seq<Byte>, tail: seq<Byte>, i: nat)
    requires |tail| % BLOCK == 0 && i < |input| / BLOCK + |tail| / BLOCK
    requires input[..|input| / BLOCK * BLOCK] + tail == Pad(input)
    ensures i * BLOCK + BLOCK <= |Pad(input)|
    ensures Pad(input)[..i * BLOCK] + LaneBlock(input, tail, i) == Pad(input)[..(i + 1) * BLOCK]
  {
    hide Padding;
    var full := |input| / BLOCK;
    var p := input[..full * BLOCK] + tail;
    hide Pad;
    if i < full {
      assert p[i * BLOCK..(i + 1) * BLOCK] == input[i * BLOCK..(i + 1) * BLOCK];
    } else {
      assert p[i * BLOCK..(i + 1) * BLOCK] == tail[(i - full) * BLOCK..(i - full + 1) * BLOCK];
    }
    assert p[..(i + 1) * BLOCK] == p[..i * BLOCK] + p[i * BLOCK..(i + 1) * BLOCK];
  }

  /** State after the first n blocks of a padded message. */
  ghost function Prefix(P: Sha, padded: seq<Byte>, n: nat): State
    requires |P.K| == 64 && n * BLOCK <= |padded|
  {
    Fold(P, P.h0, padded[..n * BLOCK])
  }

  /** The lane's state after i loop iterations. */
  ghost function LaneState(P: Sha, input: seq<Byte>, total: nat, i: nat): State
    requires |P.K| == 64 && total * BLOCK == |Pad(input)|
  {
    Prefix(P, Pad(input), if i < total then i else total)
  }

  lemma LaneStep(P: Sha, input: seq<Byte>, tail: seq<Byte>, i: nat)
    requires |P.K| == 64 && |tail| % BLOCK == 0 && input[..|input| / BLOCK * BLOCK] + tail == Pad(input)
    requires (|input| / BLOCK + |tail| / BLOCK) * BLOCK == |Pad(input)|
    ensures var total := |input| / BLOCK + |tail| / BLOCK;
            LaneState(P, input, total, i + 1) ==
            if i < total then Compress(P.K, LaneState(P, input, total, i), Words(LaneBlock(input, tail, i)))
            else LaneState(P, input, total, i)
  {
    hide Fold, Compress, Words, Pad, LaneBlock;
    if i < |input| / BLOCK + |tail| / BLOCK {
      LaneBlockIs(input, tail, i);
      FoldOne(P, P.h0, Pad(input)[..i * BLOCK], LaneBlock(input, tail, i));
    }
  }

  /** Both digests, whatever the two lengths. */
  method HashTwo(P: Sha, inA: seq<Byte>, inB: seq<Byte>) returns (outA: seq<Byte>, outB: seq<Byte>)
    requires |P.K| == 64
    ensures outA == Digest(P, inA) && outB == Digest(P, inB)
  {
    hide Fold, Compress, Words, Pad, LaneBlock, StateBytes, LaneState;
    var tailA, nA := BuildTail(inA);
    var tailB, nB := BuildTail(inB);
    var totalA, totalB := |inA| / BLOCK + nA, |inB| / BLOCK + nB;
    LaneEnds(P, inA, tailA);
    LaneEnds(P, inB, tailB);
    var blocks := if totalA > totalB then totalA else totalB;
    var a, b := P.h0, P.h0;
    for i := 0 to blocks
      invariant a == LaneState(P, inA, totalA, i) && b == LaneState(P, inB, totalB, i)
    {
      var wa, wb := Words(LaneBlock(inA, tailA, i)), Words(LaneBlock(inB, tailB, i));
      LaneStep(P, inA, tailA, i);
      LaneStep(P, inB, tailB, i);
      a, b := LockStep(P.K, a, b, wa, wb, i < totalA, i < totalB);
    }
    LaneDone(P, inA, totalA, blocks);
    LaneDone(P, inB, totalB, blocks);
    outA, outB := StateBytes(a), StateBytes(b);
  }

  /** One shared block step; an exhausted lane throws its result away. */
  method LockStep(K: seq<Word>, a: State, b: State, wa: seq<Word>, wb: seq<Word>, activeA: bool, activeB: bool)
    returns (a': State, b': State)
    requires |K| == 64 && |wa| == 16 == |wb|
    ensures a' == (if activeA then Compress(K, a, wa) else a) && b' == if activeB then Compress(K, b, wb) else b
  {
    hide Rounds, AddV, Abef, Cdgh, StateFromNi, StateToNi, Add;
    var a0, a1, b0, b1 := Compress2(K, a, b, wa, wb);
    HalvesAdd(Rounds(K, a, wa, 64), a);
    HalvesAdd(Rounds(K, b, wb, 64), b);
    HalvesRoundTrip(Compress(K, a, wa));
    HalvesRoundTrip(Compress(K, b, wb));
    a' := if activeA then StateFromNi(AddV(a0, Abef(a)), AddV(a1, Cdgh(a))) else a;
    b' := if activeB then StateFromNi(AddV(b0, Abef(b)), AddV(b1, Cdgh(b))) else b;
  }

  lemma LaneEnds(P: Sha, input: seq<Byte>, tail: seq<Byte>)
    requires |P.K| == 64 && |tail| % BLOCK == 0 && input[..|input| / BLOCK * BLOCK] + tail == Pad(input)
    ensures (|input| / BLOCK + |tail| / BLOCK) * BLOCK == |Pad(input)|
    ensures LaneState(P, input, |input| / BLOCK + |tail| / BLOCK, 0) == P.h0
  {
    hide Compress, Words;
    assert |Pad(input)| == |input| / BLOCK * BLOCK + |tail|;
    assert Pad(input)[..0] == [];
  }

  lemma LaneDone(P: Sha, input: seq<Byte>, total: nat, i: nat)
    requires |P.K| == 64 && total * BLOCK == |Pad(input)| && i >= total
    ensures StateBytes(LaneState(P, input, total, i)) == Digest(P, input)
  {
    hide Fold, StateBytes, Pad;
    assert Pad(input)[..total * BLOCK] == Pad(input);
  }
}
