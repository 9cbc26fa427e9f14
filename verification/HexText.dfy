/** Bytes as hexadecimal text: writing two lower-case digits a byte, and reading pairs of characters as strtol does. */
module HexText {
  import opened Suffix

  const DIGITS: string := "0123456789abcdef"

  /** Two lower-case digits per byte. */
  function Hex(blob: seq<Byte>): (s: string)
    ensures |s| == 2 * |blob|
  {
    if blob == [] then "" else [DIGITS[blob[0] / 16], DIGITS[blob[0] % 16]] + Hex(blob[1..])
  }

  method HexStr(blob: seq<Byte>) returns (s: string)
    ensures s == Hex(blob)
  {
    s := "";
    for i := 0 to |blob|
      invariant s + Hex(blob[i..]) == Hex(blob)
    {
      assert blob[i..][1..] == blob[i + 1..];
      s := s + [DIGITS[blob[i] / 16], DIGITS[blob[i] % 16]];
    }
    assert s + "" == s;
  }

  // ---------- reading ----------

  predicate IsDigit(c: char) { '0' <= c <= '9' || 'a' <= c <= 'f' || 'A' <= c <= 'F' }

  function DigitValue(c: char): (d: nat)
    requires IsDigit(c)
    ensures d < 16
  {
    if '0' <= c <= '9' then c as nat - '0' as nat
    else if 'a' <= c <= 'f' then c as nat - 'a' as nat + 10
    else c as nat - 'A' as nat + 10
  }

  predicate IsSpace(c: char) { c == ' ' || 9 as char <= c <= 13 as char }

  /** The number that the leading digits spell. */
  function LeadingDigits(s: string, value: nat): nat
    decreases |s|
  {
    if s == "" || !IsDigit(s[0]) then value else LeadingDigits(s[1..], 16 * value + DigitValue(s[0]))
  }

  /** What strtol makes of at most two characters in base 16: blanks, a sign, digits; 0 when there is no digit. */
  function StrToL(s: string): int
    requires |s| <= 2
  {
    if s == "" then 0
    else if IsSpace(s[0]) then StrToL(s[1..])
    else if s[0] == '-' then 0 - LeadingDigits(s[1..], 0)
    else if s[0] == '+' then LeadingDigits(s[1..], 0)
    else LeadingDigits(s, 0)
  }

  /** The low byte of that number. */
  function ByteOf(s: string): Byte
    requires |s| <= 2
  {
    StrToL(s) % 256
  }

  /** The bytes of a string, two characters each; a last single character is a byte of its own. */
  function FromHex(s: string): (b: seq<Byte>)
    ensures |b| == (|s| + 1) / 2
    decreases |s|
  {
    if |s| < 2 then if s == "" then [] else [ByteOf(s)] else [ByteOf(s[..2])] + FromHex(s[2..])
  }

  method HexstrToBytes(s: string) returns (b: seq<Byte>)
    ensures b == FromHex(s)
  {
    b := [];
    var i := 0;
    while i < |s|
      invariant 0 <= i && b + FromHex(if i <= |s| then s[i..] else "") == FromHex(s)
      decreases |s| - i
    {
      ghost var rest := s[i..];
      var pair := if i + 2 <= |s| then s[i..i + 2] else s[i..];
      assert i + 2 <= |s| ==> rest[2..] == s[i + 2..] && rest[..2] == pair;
      assert FromHex(rest) == [ByteOf(pair)] + FromHex(if i + 2 <= |s| then s[i + 2..] else "");
      b := b + [ByteOf(pair)];
      i := i + 2;
    }
    assert b + [] == b;
  }

  lemma DigitRoundTrip(d: nat)
    requires d < 16
    ensures IsDigit(DIGITS[d]) && DigitValue(DIGITS[d]) == d && !IsSpace(DIGITS[d]) && DIGITS[d] != '-' && DIGITS[d] != '+'
  {
  }

  /** Two digits are sixteen times the first and the second. */
  lemma TwoDigits(a: char, b: char)
    requires IsDigit(a) && IsDigit(b)
    ensures ByteOf([a, b]) == 16 * DigitValue(a) + DigitValue(b)
  {
    assert [a, b][1..] == [b] && [b][1..] == [];
    assert LeadingDigits([a, b], 0) == LeadingDigits([b], DigitValue(a));
    assert LeadingDigits([b], DigitValue(a)) == LeadingDigits([], 16 * DigitValue(a) + DigitValue(b));
  }

  lemma FirstPair(blob: seq<Byte>)
    requires blob != []
    ensures Hex(blob)[..2] == [DIGITS[blob[0] / 16], DIGITS[blob[0] % 16]] && Hex(blob)[2..] == Hex(blob[1..])
  {
  }

  lemma PairRead(x: Byte)
    ensures ByteOf([DIGITS[x / 16], DIGITS[x % 16]]) == x
  {
    hide ByteOf;
    DigitRoundTrip(x / 16);
    DigitRoundTrip(x % 16);
    TwoDigits(DIGITS[x / 16], DIGITS[x % 16]);
  }

  /** Reading back what was written. */
  lemma {:induction false} HexRoundTrip(blob: seq<Byte>)
    ensures FromHex(Hex(blob)) == blob
  {
    if blob != [] {
      hide ByteOf, Hex;
      HexRoundTrip(blob[1..]);
      FirstPair(blob);
      PairRead(blob[0]);
    }
  }

  /** The byte at each place, in the digits at twice that place. */
  lemma {:induction false} HexAt(blob: seq<Byte>, i: nat)
    requires i < |blob|
    ensures Hex(blob)[2 * i..2 * i + 2] == [DIGITS[blob[i] / 16], DIGITS[blob[i] % 16]]
  {
    if i > 0 {
      HexAt(blob[1..], i - 1);
      assert Hex(blob)[2..] == Hex(blob[1..]);
      assert Hex(blob)[2..][2 * (i - 1)..2 * (i - 1) + 2] == Hex(blob)[2 * i..2 * i + 2];
    }
  }

  lemma {:induction false} HexConcat(a: seq<Byte>, b: seq<Byte>)
    ensures Hex(a + b) == Hex(a) + Hex(b)
  {
    if a == [] {
      assert a + b == b;
    } else {
      HexConcat(a[1..], b);
      assert (a + b)[1..] == a[1..] + b;
    }
  }

  function Upper(c: char): char { if 'a' <= c <= 'f' then (c as nat - 32) as char else c }

  function UpperCase(s: string): (u: string)
    ensures |u| == |s|
  {
    seq(|s|, (i: nat) requires i < |s| => Upper(s[i]))
  }

  lemma UpperReads(d: nat)
    requires d < 16
    ensures IsDigit(Upper(DIGITS[d])) && DigitValue(Upper(DIGITS[d])) == d
  {
  }

  lemma UpperPair(blob: seq<Byte>)
    requires blob != []
    ensures var u, x := UpperCase(Hex(blob)), blob[0];
            u[..2] == [Upper(DIGITS[x / 16]), Upper(DIGITS[x % 16])] && u[2..] == UpperCase(Hex(blob[1..]))
  {
    hide Upper, Hex;
    FirstPair(blob);
    var s := Hex(blob);
    assert s[..2][0] == s[0] && s[..2][1] == s[1];
    assert UpperCase(s)[2..] == UpperCase(s[2..]);
  }

  lemma UpperPairRead(x: Byte)
    ensures ByteOf([Upper(DIGITS[x / 16]), Upper(DIGITS[x % 16])]) == x
  {
    hide ByteOf, Upper, DigitValue, IsDigit;
    UpperReads(x / 16);
    UpperReads(x % 16);
    TwoDigits(Upper(DIGITS[x / 16]), Upper(DIGITS[x % 16]));
  }

  /** Upper-case digits read the same. */
  lemma {:induction false} AnyCase(blob: seq<Byte>)
    ensures FromHex(UpperCase(Hex(blob))) == blob
  {
    if blob != [] {
      hide ByteOf, Hex, Upper, UpperCase;
      AnyCase(blob[1..]);
      UpperPair(blob);
      UpperPairRead(blob[0]);
    }
  }
}
