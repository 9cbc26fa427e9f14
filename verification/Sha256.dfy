/** SHA-256 as FIPS 180-4 defines it: schedule, rounds, padding, digest. Round constants are a
    parameter. */
module Sha256 {
  type Word = bv32

  datatype State = State(a: Word, b: Word, c: Word, d: Word, e: Word, f: Word, g: Word, h: Word)

  /** Addition modulo 2^32. */
  function Plus(x: Word, y: Word): Word { x + y }

  function Rotr(x: Word, n: bv32): Word
    requires 0 < n < 32
  {
    (x >> n) | (x << (32 - n))
  }

  function Shr(x: Word, n: bv32): Word
    requires n < 32
  {
    x >> n
  }

  function Xor3(x: Word, y: Word, z: Word): Word { x ^ y ^ z }

  function SmallSigma0(x: Word): Word { Xor3(Rotr(x, 7), Rotr(x, 18), Shr(x, 3)) }
  function SmallSigma1(x: Word): Word { Xor3(Rotr(x, 17), Rotr(x, 19), Shr(x, 10)) }
  function BigSigma0(x: Word): Word { Xor3(Rotr(x, 2), Rotr(x, 13), Rotr(x, 22)) }
  function BigSigma1(x: Word): Word { Xor3(Rotr(x, 6), Rotr(x, 11), Rotr(x, 25)) }
  function Ch(x: Word, y: Word, z: Word): Word { (x & y) ^ (!x & z) }
  function Maj(x: Word, y: Word, z: Word): Word { (x & y) ^ (x & z) ^ (y & z) }

  /** W_t of section 6.2.2. */
  function W(m: seq<Word>, t: nat): Word
    requires |m| == 16
  {
    if t < 16 then m[t]
    else Plus(Plus(Plus(W(m, t - 16), SmallSigma0(W(m, t - 15))), W(m, t - 7)), SmallSigma1(W(m, t - 2)))
  }

  /** One round; kw is the sum of W_t and the round constant. */
  function Round(s: State, kw: Word): State {
    var t1 := Plus(Plus(Plus(s.h, BigSigma1(s.e)), Ch(s.e, s.f, s.g)), kw);
    var t2 := Plus(BigSigma0(s.a), Maj(s.a, s.b, s.c));
    State(Plus(t1, t2), s.a, s.b, s.c, Plus(s.d, t1), s.e, s.f, s.g)
  }

  function Rounds(K: seq<Word>, s: State, m: seq<Word>, t: nat): State
    requires |m| == 16 && t <= 64 == |K|
  {
    if t == 0 then s else Round(Rounds(K, s, m, t - 1), Plus(W(m, t - 1), K[t - 1]))
  }

  function Add(s: State, r: State): State {
    State(Plus(s.a, r.a), Plus(s.b, r.b), Plus(s.c, r.c), Plus(s.d, r.d),
          Plus(s.e, r.e), Plus(s.f, r.f), Plus(s.g, r.g), Plus(s.h, r.h))
  }

  /** The hash of one block of 16 words. */
  function Compress(K: seq<Word>, s: State, m: seq<Word>): State
    requires |m| == 16 && |K| == 64
  {
    Add(Rounds(K, s, m, 64), s)
  }
}
/** One SHA-256 block: the software rounds, and the vector form with four rolling message windows. Both
    compute Compress. */
module Sha256Block {
  import opened Sha256

  /** Four words, lowest lane first. */
  datatype V4 = V4(x0: Word, x1: Word, x2: Word, x3: Word)

  // ---------- software ----------

  /** The round as the software sums it. */
  function SoftRound(s: State, k: Word, w: Word): State {
    var t1 := Plus(Plus(Plus(Plus(s.h, BigSigma1(s.e)), Ch(s.e, s.f, s.g)), k), w);
    var t2 := Plus(BigSigma0(s.a), Maj(s.a, s.b, s.c));
    State(Plus(t1, t2), s.a, s.b, s.c, Plus(s.d, t1), s.e, s.f, s.g)
  }

  lemma PlusLeft(x: Word, k: Word, w: Word)
    ensures Plus(Plus(x, k), w) == Plus(x + k, w)
  {
  }

  lemma PlusRight(x: Word, k: Word, w: Word)
    ensures Plus(x, Plus(w, k)) == Plus(x, w + k)
  {
  }

  lemma PlusMiddle(x: Word, k: Word, w: Word)
    ensures Plus(x + k, w) == Plus(x, w + k)
  {
  }

  lemma PlusRegroups(x: Word, k: Word, w: Word)
    ensures Plus(Plus(x, k), w) == Plus(x, Plus(w, k))
  {
    PlusLeft(x, k, w);
    PlusMiddle(x, k, w);
    PlusRight(x, k, w);
    hide Plus;
  }

  lemma SoftRoundIsRound(s: State, k: Word, w: Word)
    ensures SoftRound(s, k, w) == Round(s, Plus(w, k))
  {
    PlusRegroups(Plus(Plus(s.h, BigSigma1(s.e)), Ch(s.e, s.f, s.g)), k, w);
    hide Plus, BigSigma0, BigSigma1, Ch, Maj;
  }

  method BlockSoft(K: seq<Word>, state: State, m: seq<Word>) returns (r: State)
    requires |m| == 16 && |K| == 64
    ensures r == Compress(K, state, m)
  {
    hide SmallSigma0, SmallSigma1, Plus, Round, SoftRound, Add;
    var w := m;
    for i := 16 to 64
      invariant |w| == i && forall t :: 0 <= t < i ==> w[t] == W(m, t)
    {
      var s0, s1 := SmallSigma0(w[i - 15]), SmallSigma1(w[i - 2]);
      w := w + [Plus(Plus(Plus(w[i - 16], s0), w[i - 7]), s1)];
    }
    r := state;
    for i := 0 to 64
      invariant r == Rounds(K, state, m, i)
    {
      SoftRoundIsRound(r, K[i], w[i]);
      r := SoftRound(r, K[i], w[i]);
    }
    r := Add(r, state);
  }

  // ---------- vector instructions ----------

  function AddV(a: V4, b: V4): V4 { V4(Plus(a.x0, b.x0), Plus(a.x1, b.x1), Plus(a.x2, b.x2), Plus(a.x3, b.x3)) }
  function ShuffleB1(v: V4): V4 { V4(v.x1, v.x0, v.x3, v.x2) }
  function Shuffle1B(v: V4): V4 { V4(v.x3, v.x2, v.x1, v.x0) }
  function Shuffle0E(v: V4): V4 { V4(v.x2, v.x3, v.x0, v.x0) }
  function Alignr8(a: V4, b: V4): V4 { V4(b.x2, b.x3, a.x0, a.x1) }
  function Alignr4(a: V4, b: V4): V4 { V4(b.x1, b.x2, b.x3, a.x0) }
  function BlendF0(a: V4, b: V4): V4 { V4(a.x0, a.x1, b.x2, b.x3) }

  /** Two rounds from the halves CDGH and ABEF of a state; the result is the new ABEF. */
  function Rnds2(cdgh: V4, abef: V4, wk: V4): V4 {
    var s := State(abef.x3, abef.x2, cdgh.x3, cdgh.x2, abef.x1, abef.x0, cdgh.x1, cdgh.x0);
    Abef(Round(Round(s, wk.x0), wk.x1))
  }

  function Msg1(a: V4, b: V4): V4 {
    V4(Plus(a.x0, SmallSigma0(a.x1)), Plus(a.x1, SmallSigma0(a.x2)), Plus(a.x2, SmallSigma0(a.x3)), Plus(a.x3, SmallSigma0(b.x0)))
  }

  function Msg2(a: V4, b: V4): V4 {
    var y0, y1 := Plus(a.x0, SmallSigma1(b.x2)), Plus(a.x1, SmallSigma1(b.x3));
    V4(y0, y1, Plus(a.x2, SmallSigma1(y0)), Plus(a.x3, SmallSigma1(y1)))
  }

  function Abef(s: State): V4 { V4(s.f, s.e, s.b, s.a) }
  function Cdgh(s: State): V4 { V4(s.h, s.g, s.d, s.c) }

  /** State words to the two halves, by shuffles. */
  function StateToNi(s: State): (V4, V4) {
    var tmp, tmp2 := ShuffleB1(V4(s.a, s.b, s.c, s.d)), Shuffle1B(V4(s.e, s.f, s.g, s.h));
    (Alignr8(tmp, tmp2), BlendF0(tmp2, tmp))
  }

  function StateFromNi(state0: V4, state1: V4): State {
    var tmp, st1 := Shuffle1B(state0), ShuffleB1(state1);
    var low, high := BlendF0(tmp, st1), Alignr8(st1, tmp);
    State(low.x0, low.x1, low.x2, low.x3, high.x0, high.x1, high.x2, high.x3)
  }

  lemma HalvesRoundTrip(s: State)
    ensures StateToNi(s) == (Abef(s), Cdgh(s)) && StateFromNi(Abef(s), Cdgh(s)) == s
  {
  }

  /** Four rounds on the halves: the second pair of rounds runs on the exchanged halves. */
  function FourRounds(abef: V4, cdgh: V4, wk: V4): (V4, V4) {
    var next := Rnds2(cdgh, abef, wk);
    (Rnds2(abef, next, Shuffle0E(wk)), next)
  }

  lemma FourRoundsOk(s: State, wk: V4)
    ensures var s4 := Round(Round(Round(Round(s, wk.x0), wk.x1), wk.x2), wk.x3);
            FourRounds(Abef(s), Cdgh(s), wk) == (Abef(s4), Cdgh(s4))
  {
    TwoRounds(s, wk.x0, wk.x1);
    TwoRounds(Round(Round(s, wk.x0), wk.x1), wk.x2, wk.x3);
    hide Round, Plus;
  }

  lemma TwoRounds(s: State, k0: Word, k1: Word)
    ensures Cdgh(Round(Round(s, k0), k1)) == Abef(s)
  {
    hide BigSigma0, BigSigma1, Ch, Maj, Plus;
  }

  // ---------- rolling windows ----------

  /** Words 4g to 4g + 3 of the schedule. */
  ghost function Window(m: seq<Word>, g: nat): V4
    requires |m| == 16
  {
    V4(W(m, 4 * g), W(m, 4 * g + 1), W(m, 4 * g + 2), W(m, 4 * g + 3))
  }

  /** The window for group g >= 4 after its first half. */
  ghost function HalfWindow(m: seq<Word>, g: nat): V4
    requires |m| == 16 && g >= 4
  {
    Msg1(Window(m, g - 4), Window(m, g - 3))
  }

  lemma WindowCompletes(m: seq<Word>, g: nat)
    requires |m| == 16 && g >= 4
    ensures Msg2(AddV(HalfWindow(m, g), Alignr4(Window(m, g - 1), Window(m, g - 2))), Window(m, g - 1)) == Window(m, g)
  {
    hide SmallSigma0, SmallSigma1, Plus;
    var j := 4 * g;
    assert W(m, j) == Plus(Plus(Plus(W(m, j - 16), SmallSigma0(W(m, j - 15))), W(m, j - 7)), SmallSigma1(W(m, j - 2)));
    assert W(m, j + 1) == Plus(Plus(Plus(W(m, j - 15), SmallSigma0(W(m, j - 14))), W(m, j - 6)), SmallSigma1(W(m, j - 1)));
    assert W(m, j + 2) == Plus(Plus(Plus(W(m, j - 14), SmallSigma0(W(m, j - 13))), W(m, j - 5)), SmallSigma1(W(m, j)));
    assert W(m, j + 3) == Plus(Plus(Plus(W(m, j - 13), SmallSigma0(W(m, j - 12))), W(m, j - 4)), SmallSigma1(W(m, j + 1)));
    hide W;
  }

  /** What the window register for group q holds at the start of group g. */
  ghost function Expected(m: seq<Word>, q: nat): V4
    requires |m| == 16
  {
    if q < 4 then Window(m, q) else HalfWindow(m, q)
  }

  /** The four registers at the start of group g: this group's words, the next two groups' halves, and
      the previous group's words. */
  ghost predicate WindowsAt(m: seq<Word>, w: seq<V4>, g: nat)
    requires |m| == 16
  {
    && |w| == 4 && w[g % 4] == Window(m, g)
    && (g + 1 < 16 ==> w[(g + 1) % 4] == Expected(m, g + 1))
    && (g + 2 < 16 ==> w[(g + 2) % 4] == Expected(m, g + 2))
    && (if g == 0 then w[3] == Window(m, 3) else w[(g + 3) % 4] == Window(m, g - 1))
  }

  /** The schedule work of group g: finish the next window from group 3 to 14, start the one three
      groups ahead from group 1 to 12. */
  function ScheduleGroup(w: seq<V4>, g: nat): (r: seq<V4>)
    requires |w| == 4
    ensures |r| == 4
  {
    var cur, next, prev := g % 4, (g + 1) % 4, (g + 3) % 4;
    var w1 := if 3 <= g <= 14 then w[next := Msg2(AddV(w[next], Alignr4(w[cur], w[prev])), w[cur])] else w;
    if 1 <= g <= 12 then w1[prev := Msg1(w1[prev], w1[cur])] else w1
  }

  lemma ScheduleSlots(w: seq<V4>, g: nat)
    requires |w| == 4
    ensures var r, cur, prev := ScheduleGroup(w, g), w[g % 4], w[(g + 3) % 4];
            && r[g % 4] == cur && r[(g + 2) % 4] == w[(g + 2) % 4]
            && r[(g + 1) % 4] == (if 3 <= g <= 14 then Msg2(AddV(w[(g + 1) % 4], Alignr4(cur, prev)), cur) else w[(g + 1) % 4])
            && r[(g + 3) % 4] == (if 1 <= g <= 12 then Msg1(prev, cur) else prev)
  {
    hide Msg1, Msg2, AddV, Alignr4;
  }

  lemma ScheduleGroupOk(m: seq<Word>, w: seq<V4>, g: nat)
    requires |m| == 16 && g < 15 && WindowsAt(m, w, g)
    ensures WindowsAt(m, ScheduleGroup(w, g), g + 1)
  {
    hide Window, Msg1, Msg2, AddV, Alignr4, Plus, W, ScheduleGroup;
    var r := ScheduleGroup(w, g);
    ScheduleSlots(w, g);
    assert (g + 4) % 4 == g % 4;
    assert r[(g + 1) % 4] == Window(m, g + 1) by {
      if g >= 3 { WindowCompletes(m, g + 1); }
    }
    assert g + 2 < 16 ==> r[(g + 2) % 4] == Expected(m, g + 2);
    assert g + 3 < 16 ==> r[(g + 3) % 4] == Expected(m, g + 3);
    assert r[(g + 4) % 4] == Window(m, g);
    hide Expected;
  }

  function RoundKey(K: seq<Word>, g: nat): V4
    requires |K| == 64 && g < 16
  {
    V4(K[4 * g], K[4 * g + 1], K[4 * g + 2], K[4 * g + 3])
  }

  lemma GroupRounds(K: seq<Word>, s: State, m: seq<Word>, g: nat)
    requires |m| == 16 && |K| == 64 && g < 16
    ensures var r, r' := Rounds(K, s, m, 4 * g), Rounds(K, s, m, 4 * g + 4);
            FourRounds(Abef(r), Cdgh(r), AddV(Window(m, g), RoundKey(K, g))) == (Abef(r'), Cdgh(r'))
  {
    hide Round, FourRounds, W, Plus;
    var r, wk := Rounds(K, s, m, 4 * g), AddV(Window(m, g), RoundKey(K, g));
    FourRoundsOk(r, wk);
    assert Rounds(K, s, m, 4 * g + 1) == Round(r, wk.x0);
    assert Rounds(K, s, m, 4 * g + 2) == Round(Rounds(K, s, m, 4 * g + 1), wk.x1);
    assert Rounds(K, s, m, 4 * g + 3) == Round(Rounds(K, s, m, 4 * g + 2), wk.x2);
    assert Rounds(K, s, m, 4 * g + 4) == Round(Rounds(K, s, m, 4 * g + 3), wk.x3);
    hide Rounds;
  }

  function Loaded(m: seq<Word>): (w: seq<V4>)
    requires |m| == 16
    ensures |w| == 4
  {
    [V4(m[0], m[1], m[2], m[3]), V4(m[4], m[5], m[6], m[7]), V4(m[8], m[9], m[10], m[11]), V4(m[12], m[13], m[14], m[15])]
  }

  lemma LoadedOk(m: seq<Word>)
    requires |m| == 16
    ensures WindowsAt(m, Loaded(m), 0)
  {
    hide SmallSigma0, SmallSigma1;
  }

  /** The vector block: sixteen groups of four rounds. */
  method BlockNi(K: seq<Word>, state: State, m: seq<Word>) returns (r: State)
    requires |m| == 16 && |K| == 64
    ensures r == Compress(K, state, m)
  {
    hide FourRounds, Rounds, RoundKey, ScheduleGroup, WindowsAt, Window, StateToNi, StateFromNi;
    HalvesRoundTrip(state);
    var (state0, state1) := StateToNi(state);
    var save0, save1 := state0, state1;
    var w := Loaded(m);
    LoadedOk(m);
    NoRounds(K, state, m);
    for g := 0 to 16
      invariant |w| == 4 && (g < 16 ==> WindowsAt(m, w, g))
      invariant var r := Rounds(K, state, m, 4 * g); state0 == Abef(r) && state1 == Cdgh(r)
    {
      CurrentWindow(m, w, g);
      GroupRounds(K, state, m, g);
      var rounds := FourRounds(state0, state1, AddV(w[g % 4], RoundKey(K, g)));
      state0, state1 := rounds.0, rounds.1;
      if g < 15 { ScheduleGroupOk(m, w, g); }
      w := ScheduleGroup(w, g);
    }
    state0, state1 := AddV(state0, save0), AddV(state1, save1);
    r := StateFromNi(state0, state1);
    HalvesAdd(Rounds(K, state, m, 64), state);
    HalvesRoundTrip(Compress(K, state, m));
  }

  lemma NoRounds(K: seq<Word>, s: State, m: seq<Word>)
    requires |m| == 16 && |K| == 64
    ensures Rounds(K, s, m, 0) == s
  {
  }

  lemma CurrentWindow(m: seq<Word>, w: seq<V4>, g: nat)
    requires |m| == 16 && WindowsAt(m, w, g)
    ensures w[g % 4] == Window(m, g)
  {
  }

  lemma HalvesAdd(r: State, s: State)
    ensures AddV(Abef(r), Abef(s)) == Abef(Add(r, s)) && AddV(Cdgh(r), Cdgh(s)) == Cdgh(Add(r, s))
  {
    hide Plus;
  }
}
