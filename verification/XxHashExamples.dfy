/** Published values of XXHash64 with seed 0: the empty string, "message digest", and a text of more than one stripe. */
module XxHashExamples {
  import opened Suffix
  import opened Bytes
  import opened XxHash

  lemma WordIs(b: seq<Byte>, w: U64)
    requires |b| <= 8 && LittleEndian(b) == w as nat
    ensures Word(b) == w
  {
  }

  lemma OneByte(b: Byte, w: U64)
    requires b as int == w as int
    ensures Word([b]) == w
  {
    assert [b][1..] == [];
    assert LittleEndian([]) == 0;
    WordIs([b], w);
    hide Word;
  }

  lemma EightBytes(s: seq<Byte>)
    requires |s| == 8
    ensures LittleEndian(s) == LittleEndian(s[..4]) + 0x1_0000_0000 * LittleEndian(s[4..])
  {
    LittleEndianConcat(s[..4], s[4..]);
    assert s[..4] + s[4..] == s;
    PowValues();
  }

  lemma LastOne(r: U64, b: seq<Byte>)
    requires |b| == 1
    ensures Ones(r, b) == Eat1(r, b[0])
  {
    hide Eat1;
    assert b[1..] == [];
  }

  /** Where the remaining bytes change loops, and where whole stripes begin to count. */
  lemma Boundaries(r: U64, b: seq<Byte>, s: Lanes)
    ensures |b| == 8 ==> Tail(r, b) == Eat8(r, b)
    ensures |b| == 5 ==> Tail(r, b) == Eat1(Eat4(r, b[..4]), b[4])
    ensures |b| == 4 ==> Tail(r, b) == Eat4(r, b)
    ensures |b| == 1 ==> Tail(r, b) == Eat1(r, b[0])
    ensures b == [] ==> Tail(r, b) == r
    ensures Initial(s, 32) == Merge(s) && Initial(s, 31) == s.s2 + PRIME5
  {
    hide Eat8, Eat4, Eat1, Merge;
    if |b| == 8 { assert b[..8] == b && b[8..] == []; }
    if |b| == 5 { LastOne(Eat4(r, b[..4]), b[4..]); }
    if |b| == 1 { LastOne(r, b); }
    if |b| == 4 { assert b[..4] == b && b[4..] == []; }
  }

  lemma EmptyHash()
    ensures Hash(0, []) == 0xef46db3751d8e999
  {
  }

  // ---------- "message digest" ----------

  const D0: seq<Byte> := [0x6d, 0x65, 0x73, 0x73, 0x61, 0x67, 0x65, 0x20]
  const D1: seq<Byte> := [0x64, 0x69, 0x67, 0x65]
  const D2: seq<Byte> := [0x73, 0x74]
  const DIGEST: seq<Byte> := D0 + (D1 + D2)

  lemma DigestWords()
    ensures Word(DIGEST[..8]) == 0x206567617373656d && Word(DIGEST[8..12]) == 0x0000000065676964
  {
    hide Word, LittleEndian;
    assert DIGEST[..8] == D0 && DIGEST[8..12] == D1;
    EightBytes(D0);
    LittleFour(D0[..4]);
    LittleFour(D0[4..]);
    WordIs(D0, 0x206567617373656d);
    LittleFour(D1);
    WordIs(D1, 0x0000000065676964);
  }

  lemma DigestSteps()
    ensures Eat8(0x27d4eb2f165667d3, DIGEST[..8]) == 0x5e53ddcb23408dd4
    ensures Eat4(0x5e53ddcb23408dd4, DIGEST[8..12]) == 0xb88a2da1dae609da
  {
    DigestWords();
    hide Word;
  }

  lemma DigestBytes()
    ensures Eat1(0xb88a2da1dae609da, 0x73) == 0x2e1860d6d87a26a7 && Eat1(0x2e1860d6d87a26a7, 0x74) == 0x39623db95ca03705
    ensures Mix(0x39623db95ca03705) == 0x066ed728fceeb3be
  {
    OneByte(0x73, 0x73);
    OneByte(0x74, 0x74);
    hide Word;
  }

  lemma DigestTail()
    ensures Tail(0x27d4eb2f165667d3, DIGEST) == 0x39623db95ca03705
  {
    DigestSteps();
    DigestBytes();
    hide Eat8, Eat4, Eat1;
    assert DIGEST[8..][..4] == DIGEST[8..12] && DIGEST[8..][4..] == D2;
    assert D2[1..] == [0x74];
    assert Ones(0xb88a2da1dae609da, D2) == Ones(0x2e1860d6d87a26a7, [0x74]);
    assert Ones(0x2e1860d6d87a26a7, [0x74]) == Ones(0x39623db95ca03705, []);
  }

  lemma DigestStart()
    ensures AddLength(Initial(Seeded(0), 14), 14) == 0x27d4eb2f165667d3
  {
  }

  lemma DigestHash()
    ensures Hash(0, DIGEST) == 0x066ed728fceeb3be
  {
    DigestStart();
    DigestTail();
    DigestBytes();
    hide Tail, Mix, AddLength, Initial, Seeded, Eat1;
    FoldEmpty(Seeded(0));
    assert DIGEST[..0] == [] && DIGEST[0..] == DIGEST;
  }

  // ---------- more than one stripe ----------

  const T0: seq<Byte> := [0x4e, 0x6f, 0x62, 0x6f, 0x64, 0x79, 0x20, 0x69]
  const T1: seq<Byte> := [0x6e, 0x73, 0x70, 0x65, 0x63, 0x74, 0x73, 0x20]
  const T2: seq<Byte> := [0x74, 0x68, 0x65, 0x20, 0x73, 0x70, 0x61, 0x6d]
  const T3: seq<Byte> := [0x6d, 0x69, 0x73, 0x68, 0x20, 0x72, 0x65, 0x70]
  const T4: seq<Byte> := [0x65, 0x74, 0x69, 0x74]
  const T5: seq<Byte> := [0x69, 0x6f, 0x6e]
  const TEXT: seq<Byte> := T0 + T1 + T2 + T3 + (T4 + T5)

  lemma TextWord0()
    ensures Word(TEXT[..32][0..8]) == 0x692079646f626f4e
  {
    hide Word, LittleEndian;
    assert TEXT[..32][0..8] == T0;
    EightBytes(T0);
    LittleFour(T0[..4]);
    LittleFour(T0[4..]);
    WordIs(T0, 0x692079646f626f4e);
  }

  lemma TextWord1()
    ensures Word(TEXT[..32][8..16]) == 0x207374636570736e
  {
    hide Word, LittleEndian;
    assert TEXT[..32][8..16] == T1;
    EightBytes(T1);
    LittleFour(T1[..4]);
    LittleFour(T1[4..]);
    WordIs(T1, 0x207374636570736e);
  }

  lemma TextWord2()
    ensures Word(TEXT[..32][16..24]) == 0x6d61707320656874
  {
    hide Word, LittleEndian;
    assert TEXT[..32][16..24] == T2;
    EightBytes(T2);
    LittleFour(T2[..4]);
    LittleFour(T2[4..]);
    WordIs(T2, 0x6d61707320656874);
  }

  lemma TextWord3()
    ensures Word(TEXT[..32][24..32]) == 0x706572206873696d
  {
    hide Word, LittleEndian;
    assert TEXT[..32][24..32] == T3;
    EightBytes(T3);
    LittleFour(T3[..4]);
    LittleFour(T3[4..]);
    WordIs(T3, 0x706572206873696d);
  }

  const LANES: Lanes :=
    Lanes(0x37245127a4067e4b, 0x1b302b0a818f92cf, 0xcd62d843d0580fca, 0x1c16e43ef2142a4a)

  lemma TextLanes()
    ensures Process(TEXT[..32], Seeded(0)) == LANES
  {
    TextWord0();
    TextWord1();
    TextWord2();
    TextWord3();
    hide Word;
    var b := TEXT[..32];
    assert b[..8] == b[0..8] && b[24..] == b[24..32];
  }

  lemma TextMerge()
    ensures Merge(LANES) == 0x84f22c421a11a8b5 && AddLength(0x84f22c421a11a8b5, 39) == 0x84f22c421a11a8dc
  {
    assert MergeLane(0xc4de2ce639fb8154, 0x37245127a4067e4b) == 0x30d40ddd00aea144;
    assert MergeLane(0x30d40ddd00aea144, 0x1b302b0a818f92cf) == 0xe5a1f095bf498698;
    assert MergeLane(0xe5a1f095bf498698, 0xcd62d843d0580fca) == 0xf9cee721e748096d;
    assert MergeLane(0xf9cee721e748096d, 0x1c16e43ef2142a4a) == 0x84f22c421a11a8b5;
  }

  lemma TextLast()
    ensures Word(TEXT[32..36]) == 0x0000000074697465
  {
    hide Word, LittleEndian;
    assert TEXT[32..36] == T4;
    LittleFour(T4);
    WordIs(T4, 0x0000000074697465);
  }

  lemma TextBytes()
    ensures Eat4(0x84f22c421a11a8dc, TEXT[32..36]) == 0x9fca0f5d0aaa110f
    ensures Eat1(0x9fca0f5d0aaa110f, 0x69) == 0x769671546f21ba14
    ensures Eat1(0x769671546f21ba14, 0x6f) == 0xeae9b643c5f94e52
    ensures Eat1(0xeae9b643c5f94e52, 0x6e) == 0x1d0a47483b37cc24
    ensures Mix(0x1d0a47483b37cc24) == 0xfbcea83c8a378bf1
  {
    TextLast();
    OneByte(0x69, 0x69);
    OneByte(0x6f, 0x6f);
    OneByte(0x6e, 0x6e);
    hide Word;
  }

  lemma TextTail()
    ensures Tail(0x84f22c421a11a8dc, TEXT[32..]) == 0x1d0a47483b37cc24
  {
    TextBytes();
    hide Eat8, Eat4, Eat1, Mix;
    assert TEXT[32..][..4] == TEXT[32..36] && TEXT[32..][4..] == T5;
    assert T5[1..] == [0x6f, 0x6e] && [0x6f, 0x6e][1..] == [0x6e];
    assert Ones(0x9fca0f5d0aaa110f, T5) == Ones(0x769671546f21ba14, [0x6f, 0x6e]);
    assert Ones(0x769671546f21ba14, [0x6f, 0x6e]) == Ones(0xeae9b643c5f94e52, [0x6e]);
    assert Ones(0xeae9b643c5f94e52, [0x6e]) == Ones(0x1d0a47483b37cc24, []);
  }

  /** "Nobody inspects the spammish repetition". */
  lemma TextHash()
    ensures Hash(0, TEXT) == 0xfbcea83c8a378bf1
  {
    TextLanes();
    TextMerge();
    TextTail();
    TextBytes();
    hide Tail, Mix, AddLength, Seeded, Eat1, Eat4, Process, Merge;
    FoldEmpty(Process(TEXT[..32], Seeded(0)));
    assert TEXT[..32][..32] == TEXT[..32] && TEXT[..32][32..] == [];
    assert Fold(Seeded(0), TEXT[..32]) == LANES;
  }
}
