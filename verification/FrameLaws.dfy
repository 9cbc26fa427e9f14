/** The bytes of a frame as section 5.2 and 5.3 of RFC 6455 lay them out. */
module FrameLaws {
  import opened Suffix
  import opened Bytes
  import opened Frame

  /** The extended length is the payload length, most significant byte first: two bytes below 65536, else eight. */
  lemma ExtensionIsBigEndian(n: nat)
    requires n <= MAX_PAYLOAD
    ensures |Extension(n)| == if n < 126 then 0 else if n < 65536 then 2 else 8
    ensures n >= 126 ==> BigEndian(Extension(n)) == n
    ensures 126 <= n < 65536 ==> Extension(n) == [n / 256, n % 256]
  {
    LengthFits(n);
    hide Pow256;
    if n >= 126 { BigRoundTrip(n, if n < 65536 then 2 else 8); }
    if 126 <= n < 65536 {
      assert BigBytes(n, 1 + 1) == BigBytes(n / 256, 1) + [n % 256];
      assert BigBytes(n / 256, 0 + 1) == BigBytes(n / 256 / 256, 0) + [n / 256 % 256];
    }
  }

  /** The length that a reader takes from the header. */
  lemma LengthRead(field: nat, ext: seq<Byte>, a: Byte, b: Byte)
    ensures field < 126 ==> PayloadLength(field, ext) == field
    ensures PayloadLength(126, [a, b]) as int == 256 * a as int + b as int
    ensures |ext| == 8 ==> PayloadLength(127, ext) == BigEndian(ext)
  {
    assert [a, b][..1] == [a] && [a][..0] == [];
    assert BigEndian([a]) == a;
  }

  /** The parts of a sent text, one behind the other. */
  lemma TextParts(p: seq<Byte>, m: Mask)
    requires |p| <= MAX_PAYLOAD
    ensures var f, e := Encode(p, 1, Key(m)), Extension(|p|);
            && |f| == 6 + |e| + |p| && f[..2] == FirstBytes(1, true, |p|) && f[2..2 + |e|] == e
            && f[2 + |e|..6 + |e|] == m && f[6 + |e|..] == Masked(p, Key(m))
  {
    hide Masked, Extension, FirstBytes;
    var h, e, r := FirstBytes(1, true, |p|), Extension(|p|), Masked(p, Key(m));
    assert Encode(p, 1, Key(m)) == h + (e + (m + r));
  }

  /** A sent text: final, opcode 1, masked, the length in seven bits or most significant byte first behind 126 or 127, the
      mask, and the masked payload. */
  lemma TextFrame(p: seq<Byte>, m: Mask)
    requires |p| <= MAX_PAYLOAD
    ensures var f, n := Encode(p, 1, Key(m)), |p|;
            var head := if n < 126 then 2 else if n < 65536 then 4 else 10;
            && |f| == head + 4 + n && f[0] == 0x81
            && f[1] == (if n < 126 then 0x80 + n else if n < 65536 then 0xFE else 0xFF)
            && (n >= 126 ==> BigEndian(f[2..head]) == n)
            && f[head..head + 4] == m && f[head + 4..] == Masked(p, Key(m))
  {
    hide Masked, Extension, Encode;
    TextParts(p, m);
    ExtensionIsBigEndian(|p|);
    assert Encode(p, 1, Key(m))[..2][0] == 0x81;
  }

  // ---------- mask ----------

  /** Binary digit k of a number. */
  function Digit(a: nat, k: nat): nat { if k == 0 then a % 2 else Digit(a / 2, k - 1) }

  /** Digit k of an exclusive or is the parity of the two digits. */
  lemma {:induction false} XorDigits(a: nat, b: nat, bits: nat, k: nat)
    requires k < bits
    ensures Digit(Xor(a, b, bits), k) == (Digit(a, k) + Digit(b, k)) % 2
    decreases bits
  {
    var r := Xor(a, b, bits);
    assert r % 2 == (a + b) % 2 && r / 2 == Xor(a / 2, b / 2, bits - 1);
    if k > 0 { XorDigits(a / 2, b / 2, bits - 1, k - 1); }
  }

  /** The masked bytes, bit by bit: payload byte i with mask byte i mod 4, section 5.3. */
  lemma MaskedDigits(p: seq<Byte>, m: Mask, i: nat, k: nat)
    requires i < |p| && k < 8
    ensures Digit(Masked(p, Key(m))[i], k) == (Digit(p[i], k) + Digit(m[i % 4], k)) % 2
  {
    XorDigits(p[i], m[i % 4], 8, k);
    hide Xor, Pow2, Digit;
  }

  /** The mask starts over every four bytes. */
  lemma MaskPeriod(p: seq<Byte>, q: seq<Byte>, m: Mask)
    requires |p| % 4 == 0
    ensures Masked(p + q, Key(m)) == Masked(p, Key(m)) + Masked(q, Key(m))
  {
    hide XorByte;
    var l, r := Masked(p + q, Key(m)), Masked(p, Key(m)) + Masked(q, Key(m));
    forall i | 0 <= i < |l| ensures l[i] == r[i] { SamePhase(p, q, m, i); }
  }

  lemma SamePhase(p: seq<Byte>, q: seq<Byte>, m: Mask, i: nat)
    requires |p| % 4 == 0 && i < |p + q|
    ensures Masked(p + q, Key(m))[i] == (Masked(p, Key(m)) + Masked(q, Key(m)))[i]
  {
    hide XorByte;
    if i >= |p| { assert i % 4 == (i - |p|) % 4; }
  }

  // ---------- reading ----------

  /** What a reader makes of the first byte: close frames and unfinished messages are refused, pings answered, everything else
      is a message. */
  lemma FirstByteMeans(b0: Byte, payload: seq<Byte>, used: nat)
    ensures Classify(b0, payload, used) ==
            if b0 % 16 == 9 then Ping(payload, used) else if b0 % 16 != 8 && b0 >= 0x80 then Message(payload, used) else Refused(used)
  {
  }

  /** Payloads of more than 1 MiB are refused, and control frames of more than 125 bytes. */
  lemma SizeLimits(opcode: nat, n: nat)
    ensures Acceptable(opcode, n) <==> n <= 1048576 && (opcode < 8 || n < 126)
  {
  }
}
