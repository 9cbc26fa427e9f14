/** WebSocket framing (sections 5.2 and 5.3 of RFC 6455) over a stream that arrives in pieces. */
module Frame {
  import opened Suffix
  import opened Bytes

  const MAX_PAYLOAD: nat := 1024 * 1024
  const MAX_STALL_POLLS: nat := 200

  // ---------- bytes ----------

  /** Bitwise exclusive or of the low bits of two numbers. */
  function Xor(a: nat, b: nat, bits: nat): (r: nat)
    decreases bits
  {
    if bits == 0 then 0 else (if a % 2 == b % 2 then 0 else 1) + 2 * Xor(a / 2, b / 2, bits - 1)
  }

  function Pow2(n: nat): nat { if n == 0 then 1 else 2 * Pow2(n - 1) }

  lemma {:induction false} XorCancels(a: nat, b: nat, bits: nat)
    requires a < Pow2(bits)
    ensures Xor(a, b, bits) < Pow2(bits) && Xor(Xor(a, b, bits), b, bits) == a
    decreases bits
  {
    if bits > 0 {
      XorCancels(a / 2, b / 2, bits - 1);
      var r := Xor(a, b, bits);
      assert r / 2 == Xor(a / 2, b / 2, bits - 1) && r % 2 == if a % 2 == b % 2 then 0 else 1;
    }
  }

  lemma {:induction false} XorBounded(a: nat, b: nat, bits: nat)
    ensures Xor(a, b, bits) < Pow2(bits)
    decreases bits
  {
    if bits > 0 { XorBounded(a / 2, b / 2, bits - 1); }
  }

  lemma EightBits()
    ensures Pow2(8) == 256
  {
    assert Pow2(4) == 16;
  }

  function XorByte(a: Byte, b: Byte): (r: Byte) {
    EightBits();
    XorBounded(a, b, 8);
    Xor(a, b, 8)
  }

  type Mask = m: seq<Byte> | |m| == 4 witness [0, 0, 0, 0]

  datatype MaskKey = Unmasked | Key(key: Mask)

  /** Payload byte i is combined with mask byte i mod 4. */
  function Masked(p: seq<Byte>, mask: MaskKey): (r: seq<Byte>)
    ensures |r| == |p|
  {
    match mask
    case Unmasked => p
    case Key(m) => seq(|p|, (i: nat) requires i < |p| => XorByte(p[i], m[i % 4]))
  }

  /** Masking twice restores the payload. */
  lemma MaskedTwice(p: seq<Byte>, mask: MaskKey)
    ensures Masked(Masked(p, mask), mask) == p
  {
    EightBits();
    hide Xor, Pow2;
    if mask.Key? {
      forall i | 0 <= i < |p| ensures Masked(Masked(p, mask), mask)[i] == p[i] {
        XorCancels(p[i], mask.key[i % 4], 8);
      }
    }
  }

  lemma LengthFits(n: nat)
    ensures n < 65536 ==> n < Pow256(2)
    ensures n <= MAX_PAYLOAD ==> n < Pow256(8)
  {
    PowValues();
  }

  // ---------- encoding ----------

  /** Payload length field, and its extension. */
  function LengthField(n: nat): (f: Byte)
    ensures f <= 127
  {
    if n < 126 then n else if n < 65536 then 126 else 127
  }

  function Extension(n: nat): seq<Byte> {
    if n < 126 then [] else if n < 65536 then BigBytes(n, 2) else BigBytes(n, 8)
  }

  function MaskBytes(mask: MaskKey): seq<Byte> { if mask.Key? then mask.key else [] }

  function FirstBytes(opcode: nat, masked: bool, n: nat): (h: seq<Byte>)
    requires opcode < 16
    ensures |h| == 2
  {
    [128 + opcode, (if masked then 128 else 0) + LengthField(n)]
  }

  /** A final frame. The sender always masks; frames from the other side come unmasked. */
  function Encode(p: seq<Byte>, opcode: nat, mask: MaskKey): seq<Byte>
    requires opcode < 16
  {
    FirstBytes(opcode, mask.Key?, |p|) + Extension(|p|) + MaskBytes(mask) + Masked(p, mask)
  }

  // ---------- decoding ----------

  /** What a stream holds at its head: too little, something to refuse, a ping, or a message; used counts
      the bytes read. */
  datatype Parsed = Short | Refused(used: nat) | Ping(payload: seq<Byte>, used: nat) | Message(payload: seq<Byte>, used: nat)

  function ExtensionSize(field: nat): nat { if field == 126 then 2 else if field == 127 then 8 else 0 }

  function PayloadLength(field: nat, ext: seq<Byte>): nat { if field < 126 then field else BigEndian(ext) }

  /** Size limit, and the limit on control frames of section 5.5. */
  predicate Acceptable(opcode: nat, plen: nat) { plen <= MAX_PAYLOAD && (opcode >= 8 ==> plen <= 125) }

  function MaskSize(b1: Byte): nat { if b1 >= 128 then 4 else 0 }

  function MaskFrom(b1: Byte, m: seq<Byte>): MaskKey
    requires |m| == MaskSize(b1)
  {
    if b1 >= 128 then Key(m) else Unmasked
  }

  function Classify(b0: Byte, payload: seq<Byte>, used: nat): Parsed {
    var opcode := b0 % 16;
    if opcode == 9 then Ping(payload, used) else if opcode == 8 || b0 < 128 then Refused(used) else Message(payload, used)
  }

  /** The part after the length: mask and payload of plen bytes, from offset head. */
  function ParseBody(s: seq<Byte>, head: nat, plen: nat): Parsed
    requires 2 <= head <= |s|
  {
    var at := head + MaskSize(s[1]);
    if !Acceptable(s[0] % 16, plen) then Refused(head)
    else if |s| < at + plen then Short
    else Classify(s[0], Masked(s[at..at + plen], MaskFrom(s[1], s[head..at])), at + plen)
  }

  function Parse(s: seq<Byte>): Parsed {
    if |s| < 2 then Short
    else
      var ext := ExtensionSize(s[1] % 128);
      if |s| < 2 + ext then Short else ParseBody(s, 2 + ext, PayloadLength(s[1] % 128, s[2..2 + ext]))
  }

  lemma LengthRoundTrip(n: nat)
    requires n <= MAX_PAYLOAD
    ensures |Extension(n)| == ExtensionSize(LengthField(n)) && PayloadLength(LengthField(n), Extension(n)) == n
  {
    LengthFits(n);
    hide Pow256;
    if n >= 126 { BigRoundTrip(n, if n < 65536 then 2 else 8); }
  }

  /** A frame's parts at the head of s. */
  ghost predicate StartsWith(s: seq<Byte>, p: seq<Byte>, opcode: nat, mask: MaskKey) {
    var head := 2 + |Extension(|p|)|;
    var at := head + |MaskBytes(mask)|;
    && at + |p| <= |s| && s[0] == 128 + opcode && s[1] == (if mask.Key? then 128 else 0) + LengthField(|p|)
    && s[2..head] == Extension(|p|) && s[head..at] == MaskBytes(mask) && s[at..at + |p|] == Masked(p, mask)
  }

  function FrameSize(n: nat, mask: MaskKey): nat { 2 + |Extension(n)| + |MaskBytes(mask)| + n }

  lemma FrameParts(p: seq<Byte>, opcode: nat, mask: MaskKey, rest: seq<Byte>)
    requires opcode < 16
    ensures |Encode(p, opcode, mask)| == FrameSize(|p|, mask) && StartsWith(Encode(p, opcode, mask) + rest, p, opcode, mask)
  {
    hide Extension, Masked, LengthField, MaskBytes;
    var h := FirstBytes(opcode, mask.Key?, |p|);
    var e, mb, b := Extension(|p|), MaskBytes(mask), Masked(p, mask);
    assert Encode(p, opcode, mask) + rest == h + (e + (mb + (b + rest)));
  }

  lemma SplitField(masked: bool, f: Byte)
    requires f <= 127
    ensures ((if masked then 128 else 0) + f) % 128 == f
  {
  }

  lemma HeadRoundTrip(s: seq<Byte>, p: seq<Byte>, opcode: nat, mask: MaskKey)
    requires |p| <= MAX_PAYLOAD && StartsWith(s, p, opcode, mask)
    ensures 2 + |Extension(|p|)| <= |s| && Parse(s) == ParseBody(s, 2 + |Extension(|p|)|, |p|)
  {
    hide PayloadLength, Extension, ExtensionSize, LengthField, ParseBody, Masked, MaskBytes;
    LengthRoundTrip(|p|);
    SplitField(mask.Key?, LengthField(|p|));
    var ext := Extension(|p|);
    assert |s| >= 2 + |ext| && s[1] % 128 == LengthField(|p|) && s[2..2 + |ext|] == ext;
    hide StartsWith;
  }

  lemma BodyRoundTrip(s: seq<Byte>, p: seq<Byte>, opcode: nat, mask: MaskKey)
    requires opcode < 16 && opcode != 8 && Acceptable(opcode, |p|) && StartsWith(s, p, opcode, mask)
    ensures 2 + |Extension(|p|)| <= |s|
    ensures ParseBody(s, 2 + |Extension(|p|)|, |p|) ==
            if opcode == 9 then Ping(p, FrameSize(|p|, mask)) else Message(p, FrameSize(|p|, mask))
  {
    MaskedTwice(p, mask);
    hide Masked, Extension, LengthField;
  }

  /** Reading what was written: the payload comes back for every length form and mask, and exactly the
      frame is used; a ping is recognised as one. */
  lemma RoundTrip(p: seq<Byte>, opcode: nat, mask: MaskKey, rest: seq<Byte>)
    requires opcode < 16 && opcode != 8 && |p| <= MAX_PAYLOAD && (opcode >= 8 ==> |p| <= 125)
    ensures Parse(Encode(p, opcode, mask) + rest) ==
            if opcode == 9 then Ping(p, |Encode(p, opcode, mask)|) else Message(p, |Encode(p, opcode, mask)|)
  {
    assert Acceptable(opcode, |p|);
    hide *;
    FrameParts(p, opcode, mask, rest);
    HeadRoundTrip(Encode(p, opcode, mask) + rest, p, opcode, mask);
    BodyRoundTrip(Encode(p, opcode, mask) + rest, p, opcode, mask);
  }
}
