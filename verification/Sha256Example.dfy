/** SHA-256 with its own constants: the example "abc" of appendix B.1 of FIPS 180-2, round by round. */
module Sha256Example {
  import opened Suffix
  import opened Bytes
  import opened Sha256
  import opened Sha256Stream
  import opened Sha256Laws

  // Round constants, eight a row.

  const K0: seq<Word> := [0x428a2f98, 0x71374491, 0xb5c0fbcf, 0xe9b5dba5, 0x3956c25b, 0x59f111f1, 0x923f82a4, 0xab1c5ed5]
  const K1: seq<Word> := [0xd807aa98, 0x12835b01, 0x243185be, 0x550c7dc3, 0x72be5d74, 0x80deb1fe, 0x9bdc06a7, 0xc19bf174]
  const K2: seq<Word> := [0xe49b69c1, 0xefbe4786, 0x0fc19dc6, 0x240ca1cc, 0x2de92c6f, 0x4a7484aa, 0x5cb0a9dc, 0x76f988da]
  const K3: seq<Word> := [0x983e5152, 0xa831c66d, 0xb00327c8, 0xbf597fc7, 0xc6e00bf3, 0xd5a79147, 0x06ca6351, 0x14292967]
  const K4: seq<Word> := [0x27b70a85, 0x2e1b2138, 0x4d2c6dfc, 0x53380d13, 0x650a7354, 0x766a0abb, 0x81c2c92e, 0x92722c85]
  const K5: seq<Word> := [0xa2bfe8a1, 0xa81a664b, 0xc24b8b70, 0xc76c51a3, 0xd192e819, 0xd6990624, 0xf40e3585, 0x106aa070]
  const K6: seq<Word> := [0x19a4c116, 0x1e376c08, 0x2748774c, 0x34b0bcb5, 0x391c0cb3, 0x4ed8aa4a, 0x5b9cca4f, 0x682e6ff3]
  const K7: seq<Word> := [0x748f82ee, 0x78a5636f, 0x84c87814, 0x8cc70208, 0x90befffa, 0xa4506ceb, 0xbef9a3f7, 0xc67178f2]

  const ROUND_KEYS: seq<Word> := K0 + K1 + K2 + K3 + K4 + K5 + K6 + K7

  const INITIAL: State :=
    State(0x6a09e667, 0xbb67ae85, 0x3c6ef372, 0xa54ff53a, 0x510e527f, 0x9b05688c, 0x1f83d9ab, 0x5be0cd19)

  const SHA: Sha := Sha(ROUND_KEYS, INITIAL)

  /** The one block of the padded message "abc". */
  ghost predicate IsBlock(m: seq<Word>) {
    |m| == 16 && m[0] == 0x61626380 && (forall i :: 1 <= i < 15 ==> m[i] == 0) && m[15] == 24
  }

  lemma NextWord(m: seq<Word>, t: nat)
    requires |m| == 16 && t >= 16
    ensures W(m, t) == Plus(Plus(Plus(W(m, t - 16), SmallSigma0(W(m, t - 15))), W(m, t - 7)), SmallSigma1(W(m, t - 2)))
  {
  }

  lemma NextRound(m: seq<Word>, t: nat)
    requires |m| == 16 && t < 64
    ensures Rounds(ROUND_KEYS, INITIAL, m, t + 1) == Round(Rounds(ROUND_KEYS, INITIAL, m, t), Plus(W(m, t), ROUND_KEYS[t]))
  {
    hide Round, Plus;
  }

  // ---------- schedule ----------

  // The words of the schedule, eight a row.

  const W0: seq<Word> := [0x61626380, 0x00000000, 0x00000000, 0x00000000, 0x00000000, 0x00000000, 0x00000000, 0x00000000]
  const W1: seq<Word> := [0x00000000, 0x00000000, 0x00000000, 0x00000000, 0x00000000, 0x00000000, 0x00000000, 0x00000018]
  const W2: seq<Word> := [0x61626380, 0x000f0000, 0x7da86405, 0x600003c6, 0x3e9d7b78, 0x0183fc00, 0x12dcbfdb, 0xe2e2c38e]
  const W3: seq<Word> := [0xc8215c1a, 0xb73679a2, 0xe5bc3909, 0x32663c5b, 0x9d209d67, 0xec8726cb, 0x702138a4, 0xd3b7973b]
  const W4: seq<Word> := [0x93f5997f, 0x3b68ba73, 0xaff4ffc1, 0xf10a5c62, 0x0a8b3996, 0x72af830a, 0x9409e33e, 0x24641522]
  const W5: seq<Word> := [0x9f47bf94, 0xf0a64f5a, 0x3e246a79, 0x27333ba3, 0x0c4763f2, 0x840abf27, 0x7a290d5d, 0x065c43da]
  const W6: seq<Word> := [0xfb3e89cb, 0xcc7617db, 0xb9e66c34, 0xa9993667, 0x84badedd, 0xc21462bc, 0x1487472c, 0xb20f7a99]
  const W7: seq<Word> := [0xef57b9cd, 0xebe6b238, 0x9fe3095e, 0x78bc8d4b, 0xa43fcf15, 0x668b2ff8, 0xeeaba2cc, 0x12b1edeb]

  ghost predicate WordsAre(m: seq<Word>, k: nat, row: seq<Word>) {
    && |m| == 16 && |row| == 8
    && W(m, 8 * k) == row[0] && W(m, 8 * k + 1) == row[1] && W(m, 8 * k + 2) == row[2] && W(m, 8 * k + 3) == row[3]
    && W(m, 8 * k + 4) == row[4] && W(m, 8 * k + 5) == row[5] && W(m, 8 * k + 6) == row[6] && W(m, 8 * k + 7) == row[7]
  }

  lemma FirstWords(m: seq<Word>)
    requires IsBlock(m)
    ensures WordsAre(m, 0, W0) && WordsAre(m, 1, W1)
  {
  }

  lemma Words2(m: seq<Word>)
    requires WordsAre(m, 0, W0) && WordsAre(m, 1, W1)
    ensures WordsAre(m, 2, W2)
  {
    hide W;
    NextWord(m, 16);
    NextWord(m, 17);
    NextWord(m, 18);
    NextWord(m, 19);
    NextWord(m, 20);
    NextWord(m, 21);
    NextWord(m, 22);
    NextWord(m, 23);
  }

  lemma Words3(m: seq<Word>)
    requires WordsAre(m, 1, W1) && WordsAre(m, 2, W2)
    ensures WordsAre(m, 3, W3)
  {
    hide W;
    NextWord(m, 24);
    NextWord(m, 25);
    NextWord(m, 26);
    NextWord(m, 27);
    NextWord(m, 28);
    NextWord(m, 29);
    NextWord(m, 30);
    NextWord(m, 31);
  }

  lemma Words4(m: seq<Word>)
    requires WordsAre(m, 2, W2) && WordsAre(m, 3, W3)
    ensures WordsAre(m, 4, W4)
  {
    hide W;
    NextWord(m, 32);
    NextWord(m, 33);
    NextWord(m, 34);
    NextWord(m, 35);
    NextWord(m, 36);
    NextWord(m, 37);
    NextWord(m, 38);
    NextWord(m, 39);
  }

  lemma Words5(m: seq<Word>)
    requires WordsAre(m, 3, W3) && WordsAre(m, 4, W4)
    ensures WordsAre(m, 5, W5)
  {
    hide W;
    NextWord(m, 40);
    NextWord(m, 41);
    NextWord(m, 42);
    NextWord(m, 43);
    NextWord(m, 44);
    NextWord(m, 45);
    NextWord(m, 46);
    NextWord(m, 47);
  }

  lemma Words6(m: seq<Word>)
    requires WordsAre(m, 4, W4) && WordsAre(m, 5, W5)
    ensures WordsAre(m, 6, W6)
  {
    hide W;
    NextWord(m, 48);
    NextWord(m, 49);
    NextWord(m, 50);
    NextWord(m, 51);
    NextWord(m, 52);
    NextWord(m, 53);
    NextWord(m, 54);
    NextWord(m, 55);
  }

  lemma Words7(m: seq<Word>)
    requires WordsAre(m, 5, W5) && WordsAre(m, 6, W6)
    ensures WordsAre(m, 7, W7)
  {
    hide W;
    NextWord(m, 56);
    NextWord(m, 57);
    NextWord(m, 58);
    NextWord(m, 59);
    NextWord(m, 60);
    NextWord(m, 61);
    NextWord(m, 62);
    NextWord(m, 63);
  }

  // ---------- rounds ----------

  // The states after every four rounds.

  const S1: State :=
    State(0xd550f666, 0xc8c347a7, 0x5a6ad9ad, 0x5d6aebcd, 0x24e00850, 0xf92939eb, 0x78ce7989, 0xfa2a4622)
  const S2: State :=
    State(0x85a07b5f, 0xe5030380, 0x2b4209f5, 0x04409a6a, 0x0c657a79, 0x9b27a401, 0x714260ad, 0x43ada245)
  const S3: State :=
    State(0xf71fc5a9, 0x4798a3f4, 0x8c87346b, 0x8e04ecb9, 0x816fd6e9, 0x436b23e8, 0x1cc92596, 0x32ca2d8c)
  const S4: State :=
    State(0xb0fa238e, 0xc0645fde, 0xd932eb16, 0x87912990, 0x07590dcd, 0x0b92f20c, 0x745a48de, 0x1e578218)
  const S5: State :=
    State(0xe1f20c33, 0xfe777bbf, 0xc2fbd9d1, 0x21da9a9b, 0xb0638179, 0xcc899961, 0x846ee454, 0x8034229c)
  const S6: State :=
    State(0xc5d53d8d, 0xa7a3623f, 0xc2606d6d, 0x9dc68b63, 0xaa47c347, 0x49f5114a, 0xe1257970, 0x8ada8930)
  const S7: State :=
    State(0x77d37528, 0xb62ec4bc, 0xcde8037d, 0x1c2c2838, 0xedffbff8, 0xc74c6516, 0x14383d8e, 0x2823ef91)
  const S8: State :=
    State(0x73b33bf5, 0xea992a22, 0xa0060b30, 0x363482c9, 0xba591112, 0x0109ab3a, 0xade79437, 0x6112a3b7)
  const S9: State :=
    State(0x65a0cfe4, 0xa9a7738c, 0xfe604df5, 0x98e12507, 0xf4b002d6, 0x085f3833, 0x59249dd3, 0x9cd9f5f6)
  const S10: State :=
    State(0x79ea687a, 0x6dc57a8a, 0x34df1604, 0x41a65cb1, 0x1efbc0a0, 0xf0781bc8, 0xa507a53d, 0x0772a26b)
  const S11: State :=
    State(0x9d4baf93, 0x17aa0dfe, 0xdf46652f, 0xd6670766, 0xfda24c2e, 0xdecd4715, 0x838b2711, 0x26352d63)
  const S12: State :=
    State(0x4172328d, 0xa14c14b0, 0x72ab4b91, 0x26628815, 0xfecf0bc6, 0xd57b94a9, 0xb7755da1, 0xa80f11f0)
  const S13: State :=
    State(0x886e7a22, 0x7a0508a1, 0xf11bfaa8, 0x05757ceb, 0x49231c1e, 0x52f1ccf7, 0x6e5c390c, 0xbd714038)
  const S14: State :=
    State(0x38cc9913, 0x3ec45cdb, 0xf5702fdb, 0x101fd28f, 0x54cb266b, 0xe50e1b4f, 0x9f4787c3, 0x529e7d00)
  const S15: State :=
    State(0xb6ae8fff, 0xffb70472, 0xc062d46f, 0xfcd1887b, 0xb21bad3d, 0x6d83bfc6, 0x7e44008e, 0x9b5e906c)
  const S16: State :=
    State(0x506e3058, 0xd39a2165, 0x04d24d6c, 0xb85e2ce9, 0x5ef50f24, 0xfb121210, 0x948d25b6, 0x961f4894)

  ghost predicate After(m: seq<Word>, t: nat, s: State) {
    |m| == 16 && t <= 64 && Rounds(ROUND_KEYS, INITIAL, m, t) == s
  }

  ghost predicate KeysAre(k: nat, row: seq<Word>) {
    k < 8 && |row| == 8 && forall i :: 0 <= i < 8 ==> ROUND_KEYS[8 * k + i] == row[i]
  }

  lemma KeyRows()
    ensures KeysAre(0, K0) && KeysAre(1, K1) && KeysAre(2, K2) && KeysAre(3, K3)
    ensures KeysAre(4, K4) && KeysAre(5, K5) && KeysAre(6, K6) && KeysAre(7, K7)
  {
  }

  lemma OneRound(m: seq<Word>, k: nat, i: nat, s: State, words: seq<Word>, keys: seq<Word>)
    requires WordsAre(m, k, words) && KeysAre(k, keys) && i < 8 && After(m, 8 * k + i, s)
    ensures After(m, 8 * k + i + 1, Round(s, Plus(words[i], keys[i])))
  {
    hide W, Round, Plus, WordsAre;
    WordOfRow(m, k, i, words);
    NextRound(m, 8 * k + i);
  }

  lemma WordOfRow(m: seq<Word>, k: nat, i: nat, words: seq<Word>)
    requires WordsAre(m, k, words) && i < 8
    ensures |m| == 16 && |words| == 8 && W(m, 8 * k + i) == words[i]
  {
    hide W;
  }

  lemma Rounds0(m: seq<Word>)
    requires After(m, 0, INITIAL) && WordsAre(m, 0, W0) && KeysAre(0, K0)
    ensures After(m, 4, S1)
  {
    hide W, After, WordsAre, KeysAre;
    OneRound(m, 0, 0, INITIAL, W0, K0);
    OneRound(m, 0, 1, State(0x5d6aebcd, 0x6a09e667, 0xbb67ae85, 0x3c6ef372, 0xfa2a4622, 0x510e527f, 0x9b05688c, 0x1f83d9ab), W0, K0);
    OneRound(m, 0, 2, State(0x5a6ad9ad, 0x5d6aebcd, 0x6a09e667, 0xbb67ae85, 0x78ce7989, 0xfa2a4622, 0x510e527f, 0x9b05688c), W0, K0);
    OneRound(m, 0, 3, State(0xc8c347a7, 0x5a6ad9ad, 0x5d6aebcd, 0x6a09e667, 0xf92939eb, 0x78ce7989, 0xfa2a4622, 0x510e527f), W0, K0);
  }

  lemma Rounds1(m: seq<Word>)
    requires After(m, 4, S1) && WordsAre(m, 0, W0) && KeysAre(0, K0)
    ensures After(m, 8, S2)
  {
    hide W, After, WordsAre, KeysAre;
    OneRound(m, 0, 4, S1, W0, K0);
    OneRound(m, 0, 5, State(0x04409a6a, 0xd550f666, 0xc8c347a7, 0x5a6ad9ad, 0x43ada245, 0x24e00850, 0xf92939eb, 0x78ce7989), W0, K0);
    OneRound(m, 0, 6, State(0x2b4209f5, 0x04409a6a, 0xd550f666, 0xc8c347a7, 0x714260ad, 0x43ada245, 0x24e00850, 0xf92939eb), W0, K0);
    OneRound(m, 0, 7, State(0xe5030380, 0x2b4209f5, 0x04409a6a, 0xd550f666, 0x9b27a401, 0x714260ad, 0x43ada245, 0x24e00850), W0, K0);
  }

  lemma Rounds2(m: seq<Word>)
    requires After(m, 8, S2) && WordsAre(m, 1, W1) && KeysAre(1, K1)
    ensures After(m, 12, S3)
  {
    hide W, After, WordsAre, KeysAre;
    OneRound(m, 1, 0, S2, W1, K1);
    OneRound(m, 1, 1, State(0x8e04ecb9, 0x85a07b5f, 0xe5030380, 0x2b4209f5, 0x32ca2d8c, 0x0c657a79, 0x9b27a401, 0x714260ad), W1, K1);
    OneRound(m, 1, 2, State(0x8c87346b, 0x8e04ecb9, 0x85a07b5f, 0xe5030380, 0x1cc92596, 0x32ca2d8c, 0x0c657a79, 0x9b27a401), W1, K1);
    OneRound(m, 1, 3, State(0x4798a3f4, 0x8c87346b, 0x8e04ecb9, 0x85a07b5f, 0x436b23e8, 0x1cc92596, 0x32ca2d8c, 0x0c657a79), W1, K1);
  }

  lemma Rounds3(m: seq<Word>)
    requires After(m, 12, S3) && WordsAre(m, 1, W1) && KeysAre(1, K1)
    ensures After(m, 16, S4)
  {
    hide W, After, WordsAre, KeysAre;
    OneRound(m, 1, 4, S3, W1, K1);
    OneRound(m, 1, 5, State(0x87912990, 0xf71fc5a9, 0x4798a3f4, 0x8c87346b, 0x1e578218, 0x816fd6e9, 0x436b23e8, 0x1cc92596), W1, K1);
    OneRound(m, 1, 6, State(0xd932eb16, 0x87912990, 0xf71fc5a9, 0x4798a3f4, 0x745a48de, 0x1e578218, 0x816fd6e9, 0x436b23e8), W1, K1);
    OneRound(m, 1, 7, State(0xc0645fde, 0xd932eb16, 0x87912990, 0xf71fc5a9, 0x0b92f20c, 0x745a48de, 0x1e578218, 0x816fd6e9), W1, K1);
  }

  lemma Rounds4(m: seq<Word>)
    requires After(m, 16, S4) && WordsAre(m, 2, W2) && KeysAre(2, K2)
    ensures After(m, 20, S5)
  {
    hide W, After, WordsAre, KeysAre;
    OneRound(m, 2, 0, S4, W2, K2);
    OneRound(m, 2, 1, State(0x21da9a9b, 0xb0fa238e, 0xc0645fde, 0xd932eb16, 0x8034229c, 0x07590dcd, 0x0b92f20c, 0x745a48de), W2, K2);
    OneRound(m, 2, 2, State(0xc2fbd9d1, 0x21da9a9b, 0xb0fa238e, 0xc0645fde, 0x846ee454, 0x8034229c, 0x07590dcd, 0x0b92f20c), W2, K2);
    OneRound(m, 2, 3, State(0xfe777bbf, 0xc2fbd9d1, 0x21da9a9b, 0xb0fa238e, 0xcc899961, 0x846ee454, 0x8034229c, 0x07590dcd), W2, K2);
  }

  lemma Rounds5(m: seq<Word>)
    requires After(m, 20, S5) && WordsAre(m, 2, W2) && KeysAre(2, K2)
    ensures After(m, 24, S6)
  {
    hide W, After, WordsAre, KeysAre;
    OneRound(m, 2, 4, S5, W2, K2);
    OneRound(m, 2, 5, State(0x9dc68b63, 0xe1f20c33, 0xfe777bbf, 0xc2fbd9d1, 0x8ada8930, 0xb0638179, 0xcc899961, 0x846ee454), W2, K2);
    OneRound(m, 2, 6, State(0xc2606d6d, 0x9dc68b63, 0xe1f20c33, 0xfe777bbf, 0xe1257970, 0x8ada8930, 0xb0638179, 0xcc899961), W2, K2);
    OneRound(m, 2, 7, State(0xa7a3623f, 0xc2606d6d, 0x9dc68b63, 0xe1f20c33, 0x49f5114a, 0xe1257970, 0x8ada8930, 0xb0638179), W2, K2);
  }

  lemma Rounds6(m: seq<Word>)
    requires After(m, 24, S6) && WordsAre(m, 3, W3) && KeysAre(3, K3)
    ensures After(m, 28, S7)
  {
    hide W, After, WordsAre, KeysAre;
    OneRound(m, 3, 0, S6, W3, K3);
    OneRound(m, 3, 1, State(0x1c2c2838, 0xc5d53d8d, 0xa7a3623f, 0xc2606d6d, 0x2823ef91, 0xaa47c347, 0x49f5114a, 0xe1257970), W3, K3);
    OneRound(m, 3, 2, State(0xcde8037d, 0x1c2c2838, 0xc5d53d8d, 0xa7a3623f, 0x14383d8e, 0x2823ef91, 0xaa47c347, 0x49f5114a), W3, K3);
    OneRound(m, 3, 3, State(0xb62ec4bc, 0xcde8037d, 0x1c2c2838, 0xc5d53d8d, 0xc74c6516, 0x14383d8e, 0x2823ef91, 0xaa47c347), W3, K3);
  }

  lemma Rounds7(m: seq<Word>)
    requires After(m, 28, S7) && WordsAre(m, 3, W3) && KeysAre(3, K3)
    ensures After(m, 32, S8)
  {
    hide W, After, WordsAre, KeysAre;
    OneRound(m, 3, 4, S7, W3, K3);
    OneRound(m, 3, 5, State(0x363482c9, 0x77d37528, 0xb62ec4bc, 0xcde8037d, 0x6112a3b7, 0xedffbff8, 0xc74c6516, 0x14383d8e), W3, K3);
    OneRound(m, 3, 6, State(0xa0060b30, 0x363482c9, 0x77d37528, 0xb62ec4bc, 0xade79437, 0x6112a3b7, 0xedffbff8, 0xc74c6516), W3, K3);
    OneRound(m, 3, 7, State(0xea992a22, 0xa0060b30, 0x363482c9, 0x77d37528, 0x0109ab3a, 0xade79437, 0x6112a3b7, 0xedffbff8), W3, K3);
  }

  lemma Rounds8(m: seq<Word>)
    requires After(m, 32, S8) && WordsAre(m, 4, W4) && KeysAre(4, K4)
    ensures After(m, 36, S9)
  {
    hide W, After, WordsAre, KeysAre;
    OneRound(m, 4, 0, S8, W4, K4);
    OneRound(m, 4, 1, State(0x98e12507, 0x73b33bf5, 0xea992a22, 0xa0060b30, 0x9cd9f5f6, 0xba591112, 0x0109ab3a, 0xade79437), W4, K4);
    OneRound(m, 4, 2, State(0xfe604df5, 0x98e12507, 0x73b33bf5, 0xea992a22, 0x59249dd3, 0x9cd9f5f6, 0xba591112, 0x0109ab3a), W4, K4);
    OneRound(m, 4, 3, State(0xa9a7738c, 0xfe604df5, 0x98e12507, 0x73b33bf5, 0x085f3833, 0x59249dd3, 0x9cd9f5f6, 0xba591112), W4, K4);
  }

  lemma Rounds9(m: seq<Word>)
    requires After(m, 36, S9) && WordsAre(m, 4, W4) && KeysAre(4, K4)
    ensures After(m, 40, S10)
  {
    hide W, After, WordsAre, KeysAre;
    OneRound(m, 4, 4, S9, W4, K4);
    OneRound(m, 4, 5, State(0x41a65cb1, 0x65a0cfe4, 0xa9a7738c, 0xfe604df5, 0x0772a26b, 0xf4b002d6, 0x085f3833, 0x59249dd3), W4, K4);
    OneRound(m, 4, 6, State(0x34df1604, 0x41a65cb1, 0x65a0cfe4, 0xa9a7738c, 0xa507a53d, 0x0772a26b, 0xf4b002d6, 0x085f3833), W4, K4);
    OneRound(m, 4, 7, State(0x6dc57a8a, 0x34df1604, 0x41a65cb1, 0x65a0cfe4, 0xf0781bc8, 0xa507a53d, 0x0772a26b, 0xf4b002d6), W4, K4);
  }

  lemma Rounds10(m: seq<Word>)
    requires After(m, 40, S10) && WordsAre(m, 5, W5) && KeysAre(5, K5)
    ensures After(m, 44, S11)
  {
    hide W, After, WordsAre, KeysAre;
    OneRound(m, 5, 0, S10, W5, K5);
    OneRound(m, 5, 1, State(0xd6670766, 0x79ea687a, 0x6dc57a8a, 0x34df1604, 0x26352d63, 0x1efbc0a0, 0xf0781bc8, 0xa507a53d), W5, K5);
    OneRound(m, 5, 2, State(0xdf46652f, 0xd6670766, 0x79ea687a, 0x6dc57a8a, 0x838b2711, 0x26352d63, 0x1efbc0a0, 0xf0781bc8), W5, K5);
    OneRound(m, 5, 3, State(0x17aa0dfe, 0xdf46652f, 0xd6670766, 0x79ea687a, 0xdecd4715, 0x838b2711, 0x26352d63, 0x1efbc0a0), W5, K5);
  }

  lemma Rounds11(m: seq<Word>)
    requires After(m, 44, S11) && WordsAre(m, 5, W5) && KeysAre(5, K5)
    ensures After(m, 48, S12)
  {
    hide W, After, WordsAre, KeysAre;
    OneRound(m, 5, 4, S11, W5, K5);
    OneRound(m, 5, 5, State(0x26628815, 0x9d4baf93, 0x17aa0dfe, 0xdf46652f, 0xa80f11f0, 0xfda24c2e, 0xdecd4715, 0x838b2711), W5, K5);
    OneRound(m, 5, 6, State(0x72ab4b91, 0x26628815, 0x9d4baf93, 0x17aa0dfe, 0xb7755da1, 0xa80f11f0, 0xfda24c2e, 0xdecd4715), W5, K5);
    OneRound(m, 5, 7, State(0xa14c14b0, 0x72ab4b91, 0x26628815, 0x9d4baf93, 0xd57b94a9, 0xb7755da1, 0xa80f11f0, 0xfda24c2e), W5, K5);
  }

  lemma Rounds12(m: seq<Word>)
    requires After(m, 48, S12) && WordsAre(m, 6, W6) && KeysAre(6, K6)
    ensures After(m, 52, S13)
  {
    hide W, After, WordsAre, KeysAre;
    OneRound(m, 6, 0, S12, W6, K6);
    OneRound(m, 6, 1, State(0x05757ceb, 0x4172328d, 0xa14c14b0, 0x72ab4b91, 0xbd714038, 0xfecf0bc6, 0xd57b94a9, 0xb7755da1), W6, K6);
    OneRound(m, 6, 2, State(0xf11bfaa8, 0x05757ceb, 0x4172328d, 0xa14c14b0, 0x6e5c390c, 0xbd714038, 0xfecf0bc6, 0xd57b94a9), W6, K6);
    OneRound(m, 6, 3, State(0x7a0508a1, 0xf11bfaa8, 0x05757ceb, 0x4172328d, 0x52f1ccf7, 0x6e5c390c, 0xbd714038, 0xfecf0bc6), W6, K6);
  }

  lemma Rounds13(m: seq<Word>)
    requires After(m, 52, S13) && WordsAre(m, 6, W6) && KeysAre(6, K6)
    ensures After(m, 56, S14)
  {
    hide W, After, WordsAre, KeysAre;
    OneRound(m, 6, 4, S13, W6, K6);
    OneRound(m, 6, 5, State(0x101fd28f, 0x886e7a22, 0x7a0508a1, 0xf11bfaa8, 0x529e7d00, 0x49231c1e, 0x52f1ccf7, 0x6e5c390c), W6, K6);
    OneRound(m, 6, 6, State(0xf5702fdb, 0x101fd28f, 0x886e7a22, 0x7a0508a1, 0x9f4787c3, 0x529e7d00, 0x49231c1e, 0x52f1ccf7), W6, K6);
    OneRound(m, 6, 7, State(0x3ec45cdb, 0xf5702fdb, 0x101fd28f, 0x886e7a22, 0xe50e1b4f, 0x9f4787c3, 0x529e7d00, 0x49231c1e), W6, K6);
  }

  lemma Rounds14(m: seq<Word>)
    requires After(m, 56, S14) && WordsAre(m, 7, W7) && KeysAre(7, K7)
    ensures After(m, 60, S15)
  {
    hide W, After, WordsAre, KeysAre;
    OneRound(m, 7, 0, S14, W7, K7);
    OneRound(m, 7, 1, State(0xfcd1887b, 0x38cc9913, 0x3ec45cdb, 0xf5702fdb, 0x9b5e906c, 0x54cb266b, 0xe50e1b4f, 0x9f4787c3), W7, K7);
    OneRound(m, 7, 2, State(0xc062d46f, 0xfcd1887b, 0x38cc9913, 0x3ec45cdb, 0x7e44008e, 0x9b5e906c, 0x54cb266b, 0xe50e1b4f), W7, K7);
    OneRound(m, 7, 3, State(0xffb70472, 0xc062d46f, 0xfcd1887b, 0x38cc9913, 0x6d83bfc6, 0x7e44008e, 0x9b5e906c, 0x54cb266b), W7, K7);
  }

  lemma Rounds15(m: seq<Word>)
    requires After(m, 60, S15) && WordsAre(m, 7, W7) && KeysAre(7, K7)
    ensures After(m, 64, S16)
  {
    hide W, After, WordsAre, KeysAre;
    OneRound(m, 7, 4, S15, W7, K7);
    OneRound(m, 7, 5, State(0xb85e2ce9, 0xb6ae8fff, 0xffb70472, 0xc062d46f, 0x961f4894, 0xb21bad3d, 0x6d83bfc6, 0x7e44008e), W7, K7);
    OneRound(m, 7, 6, State(0x04d24d6c, 0xb85e2ce9, 0xb6ae8fff, 0xffb70472, 0x948d25b6, 0x961f4894, 0xb21bad3d, 0x6d83bfc6), W7, K7);
    OneRound(m, 7, 7, State(0xd39a2165, 0x04d24d6c, 0xb85e2ce9, 0xb6ae8fff, 0xfb121210, 0x948d25b6, 0x961f4894, 0xb21bad3d), W7, K7);
  }

  lemma AllRounds(m: seq<Word>)
    requires IsBlock(m)
    ensures After(m, 64, S16)
  {
    hide WordsAre, After, IsBlock, KeysAre;
    KeyRows();
    FirstWords(m);
    Words2(m);
    Words3(m);
    Words4(m);
    Words5(m);
    Words6(m);
    Words7(m);
    NoRounds(m);
    Rounds0(m);
    Rounds1(m);
    Rounds2(m);
    Rounds3(m);
    Rounds4(m);
    Rounds5(m);
    Rounds6(m);
    Rounds7(m);
    Rounds8(m);
    Rounds9(m);
    Rounds10(m);
    Rounds11(m);
    Rounds12(m);
    Rounds13(m);
    Rounds14(m);
    Rounds15(m);
  }

  lemma NoRounds(m: seq<Word>)
    requires IsBlock(m)
    ensures After(m, 0, INITIAL)
  {
    assert Rounds(ROUND_KEYS, INITIAL, m, 0) == INITIAL;
  }

  // ---------- the message ----------

  const ABC: seq<Byte> := [0x61, 0x62, 0x63]

  const ABC_DIGEST: seq<Byte> :=
    [0xba, 0x78, 0x16, 0xbf, 0x8f, 0x01, 0xcf, 0xea, 0x41, 0x41, 0x40, 0xde, 0x5d, 0xae, 0x22, 0x23,
     0xb0, 0x03, 0x61, 0xa3, 0x96, 0x17, 0x7a, 0x9c, 0xb4, 0x10, 0xff, 0x61, 0xf2, 0x00, 0x15, 0xad]

  lemma PaddedBlock()
    ensures |Pad(ABC)| == 64 && IsBlock(Words(Pad(ABC)))
  {
    var p := Pad(ABC);
    hide Pad, WordAt;
    PaddedBytes(p);
    FirstAndLast(p);
    forall i | 1 <= i < 15 ensures WordAt(p, i) == 0 { ZeroWord(p, i); }
  }

  lemma PaddedBytes(p: seq<Byte>)
    requires p == Pad(ABC)
    ensures |p| == 64 && p[0] == 0x61 && p[1] == 0x62 && p[2] == 0x63 && p[3] == 0x80 && p[63] == 24
    ensures forall i :: 4 <= i < 63 ==> p[i] == 0
  {
    assert Zeros(52) == seq(52, _ => 0);
    assert p == ABC + ([0x80] + Zeros(52) + [0, 0, 0, 0, 0, 0, 0, 24]) by {
      hide Zeros;
      assert ZeroCount(3) == 52;
      assert LengthBytes(3) == [0, 0, 0, 0, 0, 0, 0, 24];
    }
    hide Pad;
  }

  lemma FirstAndLast(p: seq<Byte>)
    requires |p| == 64 && p[0] == 0x61 && p[1] == 0x62 && p[2] == 0x63 && p[3] == 0x80 && p[63] == 24
    requires forall i :: 4 <= i < 63 ==> p[i] == 0
    ensures WordAt(p, 0) == 0x61626380 && WordAt(p, 15) == 24
  {
    BigFour(p[4 * 0..4 * 0 + 4]);
    BigFour(p[4 * 15..4 * 15 + 4]);
    hide WordAt, BigEndian;
    WordIs(p, 0, 0x61626380);
    WordIs(p, 15, 24);
  }

  lemma WordIs(p: seq<Byte>, i: nat, n: nat)
    requires 4 * i + 4 <= |p| && n < TWO32 && n == BigEndian(p[4 * i..4 * i + 4])
    ensures WordAt(p, i) == n as bv32
  {
    WordIsBigEndian(p, i);
  }

  lemma ZeroWord(p: seq<Byte>, i: nat)
    requires 4 * i + 4 <= |p| && p[4 * i] == 0 && p[4 * i + 1] == 0 && p[4 * i + 2] == 0 && p[4 * i + 3] == 0
    ensures WordAt(p, i) == 0
  {
  }

  lemma FinalState(s: State)
    requires s == S16
    ensures Add(s, INITIAL) == State(0xba7816bf, 0x8f01cfea, 0x414140de, 0x5dae2223, 0xb00361a3, 0x96177a9c, 0xb410ff61, 0xf20015ad)
  {
  }

  lemma FinalBytes(s: State)
    requires s == State(0xba7816bf, 0x8f01cfea, 0x414140de, 0x5dae2223, 0xb00361a3, 0x96177a9c, 0xb410ff61, 0xf20015ad)
    ensures StateBytes(s) == ABC_DIGEST
  {
  }

  /** The digest of "abc" is the published one. */
  lemma AbcDigest()
    ensures Digest(SHA, ABC) == ABC_DIGEST
  {
    hide Compress, Rounds, Words, Pad, Add, StateBytes, IsBlock;
    var p := Pad(ABC);
    PaddedBlock();
    FoldOnce(p);
    AllRounds(Words(p));
    CompressIs(Words(p));
    FinalState(Rounds(ROUND_KEYS, INITIAL, Words(p), 64));
    FinalBytes(Add(Rounds(ROUND_KEYS, INITIAL, Words(p), 64), INITIAL));
  }

  lemma CompressIs(m: seq<Word>)
    requires |m| == 16
    ensures Compress(ROUND_KEYS, INITIAL, m) == Add(Rounds(ROUND_KEYS, INITIAL, m, 64), INITIAL)
  {
    hide Add, Rounds;
  }

  lemma FoldOnce(p: seq<Byte>)
    requires |p| == 64
    ensures Fold(SHA, INITIAL, p) == Compress(ROUND_KEYS, INITIAL, Words(p))
  {
    hide Compress, Words;
    assert p[..64] == p && p[64..] == [];
  }
}
