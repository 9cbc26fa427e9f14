/** Capture files: a header, then stage records; written once, read back whole or truncated. */
module Capture {
  import opened Suffix
  import opened Bytes

  const HEADER: nat := 32
  const COUNT_AT: nat := 20
  const STAGE_HEADER: nat := 16
  const VERSION: nat := 1
  const MAGIC: seq<Byte> := [68, 76, 67, 65, 80, 0, 0, 0]

  datatype Option<T> = None | Some(value: T)

  datatype Record = Record(id: nat, input: seq<Byte>, output: seq<Byte>)

  lemma Little32(n: nat)
    requires n < TWO32
    ensures LittleEndian(LittleBytes(n, 4)) == n
  {
    PowValues();
    LittleRoundTrip(n, 4);
  }

  // ---------- the format ----------

  function Header(hashSeq: nat, count: nat): (h: seq<Byte>)
    ensures |h| == HEADER
  {
    MAGIC + LittleBytes(VERSION, 4) + LittleBytes(hashSeq, 8) + LittleBytes(count, 4) + LittleBytes(0, 4) + LittleBytes(0, 4)
  }

  function StageHeader(r: Record): (h: seq<Byte>)
    ensures |h| == STAGE_HEADER
  {
    LittleBytes(r.id, 4) + LittleBytes(|r.input|, 4) + LittleBytes(|r.output|, 4) + LittleBytes(0, 4)
  }

  function Encode(r: Record): (s: seq<Byte>)
    ensures |s| == STAGE_HEADER + |r.input| + |r.output|
  {
    StageHeader(r) + r.input + r.output
  }

  function Body(recs: seq<Record>): seq<Byte> {
    if recs == [] then [] else Body(recs[..|recs| - 1]) + Encode(recs[|recs| - 1])
  }

  lemma SixParts(m: seq<Byte>, v: seq<Byte>, q: seq<Byte>, n: seq<Byte>, x: seq<Byte>, y: seq<Byte>)
    requires |m| == |q| == 8 && |v| == |n| == |x| == |y| == 4
    ensures var h := m + v + q + n + x + y;
            h[..8] == m && h[8..12] == v && h[12..20] == q && h[20..24] == n && h[24..28] == x && h[28..32] == y
  {
  }

  lemma SixFields(i: seq<Byte>, a: seq<Byte>, b: seq<Byte>, z: seq<Byte>, input: seq<Byte>, output: seq<Byte>)
    requires |i| == |a| == |b| == |z| == 4
    ensures var s, n := i + a + b + z + input + output, |input|;
            s[0..4] == i && s[4..8] == a && s[8..12] == b && s[12..16] == z && s[16..16 + n] == input && s[16 + n..] == output
  {
  }

  /** Where the header's fields lie: "DLCAP" and zeros, version 1, the sequence number, the stage count, and two zeros, numbers
      least significant byte first. */
  lemma HeaderLayout(hashSeq: nat, count: nat)
    requires hashSeq < TWO64 && count < TWO32
    ensures var h := Header(hashSeq, count);
            && |h| == 32 && h[..8] == [0x44, 0x4C, 0x43, 0x41, 0x50, 0, 0, 0] && LittleEndian(h[8..12]) == 1
            && LittleEndian(h[12..20]) == hashSeq && LittleEndian(h[20..24]) == count
            && LittleEndian(h[24..28]) == 0 && LittleEndian(h[28..32]) == 0
  {
    Little32(1);
    Little32(0);
    Little32(count);
    PowValues();
    LittleRoundTrip(hashSeq, 8);
    hide LittleBytes, LittleEndian, Pow256;
    var v, q, n, z := LittleBytes(1, 4), LittleBytes(hashSeq, 8), LittleBytes(count, 4), LittleBytes(0, 4);
    SixParts(MAGIC, v, q, n, z, z);
  }

  /** A record: id, the two lengths and four reserved bytes, then input and output. */
  lemma RecordLayout(r: Record)
    requires Encodable(r)
    ensures var s, n := Encode(r), |r.input|;
            && LittleEndian(s[0..4]) == r.id && LittleEndian(s[4..8]) == n && LittleEndian(s[8..12]) == |r.output|
            && LittleEndian(s[12..16]) == 0 && s[16..16 + n] == r.input && s[16 + n..] == r.output
  {
    Little32(0);
    Little32(r.id);
    Little32(|r.input|);
    Little32(|r.output|);
    hide LittleBytes, LittleEndian;
    var i, a, b, z := LittleBytes(r.id, 4), LittleBytes(|r.input|, 4), LittleBytes(|r.output|, 4), LittleBytes(0, 4);
    SixFields(i, a, b, z, r.input, r.output);
  }

  predicate Encodable(r: Record) { r.id < TWO32 && |r.input| < TWO32 && |r.output| < TWO32 }

  /** Where record i starts. */
  function Offset(recs: seq<Record>, i: nat): nat
    requires i <= |recs|
  {
    HEADER + |Body(recs[..i])|
  }

  // ---------- writing ----------

  /** The part of a write that reaches the file when it takes at most so many bytes. */
  function Taken(buf: seq<Byte>, takes: nat): (r: seq<Byte>) {
    if |buf| <= takes then buf else buf[..takes]
  }

  /** Every write has its own outcome. recs are the records written before a failed write left bytes behind; junk is
      everything from those bytes on, and late are the records written among it. */
  class CaptureWriter {
    var open: bool
    var file: seq<Byte>
    var stageCount: nat
    ghost var hashSeq: nat
    ghost var recs: seq<Record>
    ghost var late: seq<Record>
    ghost var junk: seq<Byte>

    ghost predicate Counts(n: nat)
      reads this`stageCount
    {
      stageCount == n % TWO32
    }

    ghost predicate Valid()
      reads this
    {
      open && file == Header(hashSeq, 0) + Body(recs) + junk && Counts(|recs| + |late|) && (junk == [] ==> late == [])
    }

    constructor ()
      ensures !open && file == []
    {
      open, file, stageCount := false, [], 0;
      hashSeq, recs, late, junk := 0, [], [], [];
    }

    /** One write to the file, of which takes bytes arrive. */
    method Put(buf: seq<Byte>, takes: nat) returns (ok: bool)
      modifies this`file
      ensures (ok <==> |buf| <= takes) && file == old(file) + Taken(buf, takes)
    {
      ok := |buf| <= takes;
      file := file + Taken(buf, takes);
    }

    /** Starts a file, which opens or not, with its header. */
    method Open(hashSeq: nat, opens: bool, takes: nat) returns (ok: bool)
      requires !open
      modifies this
      ensures ok <==> opens && HEADER <= takes
      ensures if ok then Valid() && recs == late == [] && junk == [] && this.hashSeq == hashSeq else !open
    {
      hide Header;
      if !opens { return false; }
      file, stageCount, this.hashSeq, recs, late, junk := [], 0, hashSeq, [], [], [];
      ok := Put(Header(hashSeq, 0), takes);
      open := ok;
      assert [] + Header(hashSeq, 0) == Header(hashSeq, 0) == Header(hashSeq, 0) + [] + [];
    }

    method CountStage(ghost n: nat)
      requires Counts(n)
      modifies this`stageCount
      ensures Counts(n + 1)
    {
      CountUp(n);
      stageCount := (stageCount + 1) % TWO32;
    }

    /** The three writes of a record; takes bytes of it arrive, over all three. */
    method PutRecord(r: Record, takes: nat) returns (ok: bool)
      modifies this`file
      ensures (ok <==> |Encode(r)| <= takes) && file == old(file) + Taken(Encode(r), takes)
    {
      hide StageHeader;
      TakenParts(StageHeader(r), r.input, r.output, takes);
      assert Encode(r) == StageHeader(r) + r.input + r.output;
      hide Encode, Taken;
      ok := Put(StageHeader(r), takes);
      if !ok { return; }
      if |r.input| != 0 {
        ok := Put(r.input, takes - STAGE_HEADER);
        if !ok { return; }
      }
      if |r.output| != 0 {
        ok := Put(r.output, takes - STAGE_HEADER - |r.input|);
        if !ok { return; }
      }
    }

    /** Appends a record that fits the format, or leaves what arrived. */
    method Append(r: Record, takes: nat) returns (ok: bool)
      requires Valid() && Encodable(r)
      modifies this`file, this`stageCount, this`recs, this`late, this`junk
      ensures Valid() && (ok <==> |Encode(r)| <= takes)
      ensures if !ok then recs == old(recs) && late == old(late) && junk == old(junk) + Taken(Encode(r), takes)
              else if old(junk) == [] then recs == old(recs) + [r] && late == [] && junk == []
              else recs == old(recs) && late == old(late) + [r] && junk == old(junk) + Encode(r)
    {
      ghost var more := Taken(Encode(r), takes);
      assert |Encode(r)| <= takes ==> more == Encode(r);
      hide Header, StageHeader, Body, Encode, Counts, Taken;
      Joined(Header(hashSeq, 0) + Body(recs), junk, more);
      BodyAppend(Header(hashSeq, 0), recs, junk, r);
      ok := PutRecord(r, takes);
      if !ok {
        junk := junk + more;
        return;
      }
      CountStage(|recs| + |late|);
      if junk == [] {
        recs := recs + [r];
      } else {
        late, junk := late + [r], junk + more;
      }
    }

    /** Appends a record, or refuses lengths that do not fit the format, or fails and leaves what arrived. Without a
        file it refuses. */
    method WriteStage(r: Record, takes: nat) returns (ok: bool)
      requires (open ==> Valid()) && r.id < TWO32
      modifies this`file, this`stageCount, this`recs, this`late, this`junk
      ensures (open ==> Valid()) && (ok <==> open && Encodable(r) && |Encode(r)| <= takes)
      ensures if !open || !Encodable(r) then file == old(file) && recs == old(recs) && late == old(late) && junk == old(junk)
              else if !ok then recs == old(recs) && late == old(late) && junk == old(junk) + Taken(Encode(r), takes)
              else if old(junk) == [] then recs == old(recs) + [r] && late == [] && junk == []
              else recs == old(recs) && late == old(late) + [r] && junk == old(junk) + Encode(r)
    {
      hide Valid, Encode, Taken;
      if !open || |r.input| >= TWO32 || |r.output| >= TWO32 {
        return false;
      }
      ok := Append(r, takes);
    }

    /** Patches the stage count into the header: patched of its four bytes, none if the seek fails. Without a file there is
        nothing to do. */
    method Close(patched: nat, closed: bool) returns (ok: bool)
      requires open ==> Valid()
      modifies this`file, this`open
      ensures !open && (ok <==> (old(open) ==> patched >= 4 && closed))
      ensures file == if old(open) then Header(hashSeq, CountLeft(|recs| + |late|, patched)) + Body(recs) + junk else old(file)
    {
      if !open { return true; }
      hide Header, Body, CountLeft, Patch;
      Patched(hashSeq, |recs| + |late|, patched, recs, junk);
      file := Patch(file, stageCount, patched);
      open := false;
      ok := patched >= 4 && closed;
    }
  }

  /** The count that the header holds after so many of its four bytes were patched. */
  function CountLeft(n: nat, patched: nat): nat {
    n % TWO32 % Pow256(if patched < 4 then patched else 4)
  }

  /** The file with so many bytes of the count written over its header's. */
  function Patch(file: seq<Byte>, count: nat, patched: nat): seq<Byte>
    requires |file| >= HEADER
  {
    var k := if patched < 4 then patched else 4;
    file[..COUNT_AT] + LittleBytes(count, 4)[..k] + file[COUNT_AT + k..]
  }

  lemma Patched(hashSeq: nat, n: nat, patched: nat, recs: seq<Record>, junk: seq<Byte>)
    ensures var f := Header(hashSeq, 0) + Body(recs) + junk;
            |f| >= HEADER && Patch(f, n % TWO32, patched) == Header(hashSeq, CountLeft(n, patched)) + Body(recs) + junk
  {
    hide Body;
    PatchCount(hashSeq, n % TWO32, if patched < 4 then patched else 4, Body(recs) + junk);
    hide Header;
    Joined(Header(hashSeq, 0), Body(recs), junk);
    Joined(Header(hashSeq, CountLeft(n, patched)), Body(recs), junk);
  }

  /** Three writes one behind the other take what one write of all would. */
  lemma TakenParts(a: seq<Byte>, b: seq<Byte>, c: seq<Byte>, takes: nat)
    ensures |a| > takes ==> Taken(a, takes) == Taken(a + b + c, takes)
    ensures |a| <= takes ==> Taken(a, takes) == a
    ensures |a| <= takes < |a| + |b| ==> a + Taken(b, takes - |a|) == Taken(a + b + c, takes)
    ensures |a| + |b| <= takes ==> Taken(b, takes - |a|) == b && a + b + Taken(c, takes - |a| - |b|) == Taken(a + b + c, takes)
    ensures b == [] ==> a + b == a
    ensures c == [] ==> a + b + c == a + b
  {
  }

  lemma Joined(f: seq<Byte>, torn: seq<Byte>, more: seq<Byte>)
    ensures f + torn + more == f + (torn + more)
  {
  }

  lemma BodyAppend(h: seq<Byte>, recs: seq<Record>, junk: seq<Byte>, r: Record)
    ensures junk == [] ==> h + Body(recs) + junk + Encode(r) == h + Body(recs + [r]) + junk
  {
    hide Encode;
    assert (recs + [r])[..|recs|] == recs;
  }

  lemma CountUp(n: nat)
    ensures (n % TWO32 + 1) % TWO32 == (n + 1) % TWO32
  {
  }

  lemma PatchCount(hashSeq: nat, count: nat, k: nat, rest: seq<Byte>)
    requires k <= 4
    ensures var f := Header(hashSeq, 0) + rest;
            f[..COUNT_AT] + LittleBytes(count, 4)[..k] + f[COUNT_AT + k..] == Header(hashSeq, count % Pow256(k)) + rest
  {
    PatchedBytes(count, k, 4);
    hide LittleBytes, Pow256;
    var n := count % Pow256(k);
    HeaderAround(hashSeq, 0);
    HeaderAround(hashSeq, n);
    hide Header;
    PatchMiddle(HeaderFront(hashSeq), LittleBytes(0, 4), LittleBytes(count, 4), HeaderBack(), rest, k);
  }

  function HeaderFront(hashSeq: nat): (s: seq<Byte>)
    ensures |s| == COUNT_AT
  {
    MAGIC + LittleBytes(VERSION, 4) + LittleBytes(hashSeq, 8)
  }

  function HeaderBack(): seq<Byte> { LittleBytes(0, 4) + LittleBytes(0, 4) }

  lemma HeaderAround(hashSeq: nat, count: nat)
    ensures Header(hashSeq, count) == HeaderFront(hashSeq) + LittleBytes(count, 4) + HeaderBack()
  {
    hide LittleBytes;
  }

  lemma PatchMiddle(a: seq<Byte>, x: seq<Byte>, y: seq<Byte>, z: seq<Byte>, rest: seq<Byte>, k: nat)
    requires |x| == |y| == 4 && k <= 4
    ensures var f := a + x + z + rest; f[..|a|] + y[..k] + f[|a| + k..] == a + (y[..k] + x[k..]) + z + rest
  {
    var f := a + x + z + rest;
    assert f[..|a|] == a && f[|a| + k..] == x[k..] + (z + rest);
  }

  /** Zeros with their first k bytes patched. */
  lemma {:induction false} PatchedBytes(count: nat, k: nat, n: nat)
    requires k <= n
    ensures LittleBytes(count, n)[..k] + LittleBytes(0, n)[k..] == LittleBytes(count % Pow256(k), n)
    decreases n
  {
    if k > 0 {
      PatchedBytes(count / 256, k - 1, n - 1);
      DigitsBelow(count, Pow256(k - 1));
      assert LittleBytes(count, n)[..k] == [count % 256] + LittleBytes(count / 256, n - 1)[..k - 1];
      assert LittleBytes(0, n)[k..] == LittleBytes(0, n - 1)[k - 1..];
    } else {
      assert count % Pow256(0) == 0;
    }
  }

  lemma DigitsBelow(count: nat, p: nat)
    requires p > 0
    ensures count % (256 * p) % 256 == count % 256 && count % (256 * p) / 256 == count / 256 % p
  {
    var q, r := count / 256, count % 256;
    var qh, ql := q / p, q % p;
    assert q == p * qh + ql;
    assert count == 256 * (p * qh + ql) + r == (256 * p) * qh + (256 * ql + r);
    ModUnique(count, 256 * p, qh, 256 * ql + r);
  }

  lemma ModUnique(x: nat, d: nat, q: nat, r: nat)
    requires d > 0 && x == d * q + r && r < d
    ensures x % d == r
  {
    var q', r' := x / d, x % d;
    assert x == d * q' + r';
    if q < q' { MulStep(d, q, q'); }
    if q' < q { MulStep(d, q', q); }
  }

  lemma {:induction false} MulStep(d: nat, a: nat, b: nat)
    requires a < b
    ensures d * a + d <= d * b
    decreases b
  {
    if a + 1 < b { MulStep(d, a, b - 1); }
  }

  // ---------- reading ----------

  function Field(buf: seq<Byte>, at: nat): nat
    requires at + 4 <= |buf|
  {
    LittleEndian(buf[at..at + 4])
  }

  /** Payload bytes announced by the stage header at cur. */
  function Payload(buf: seq<Byte>, cur: nat): nat
    requires cur + STAGE_HEADER <= |buf|
  {
    Field(buf, cur + 4) + Field(buf, cur + 8)
  }

  predicate Fits(buf: seq<Byte>, cur: nat)
    requires cur + STAGE_HEADER <= |buf|
  {
    Payload(buf, cur) <= |buf| && cur + STAGE_HEADER <= |buf| - Payload(buf, cur)
  }

  /** Offsets found by walking at most count records; the last one may be cut short. */
  function Scan(buf: seq<Byte>, count: nat, cur: nat): seq<nat>
    decreases count
  {
    if count == 0 || cur + STAGE_HEADER > |buf| then []
    else if !Fits(buf, cur) then [cur]
    else [cur] + Scan(buf, count - 1, cur + STAGE_HEADER + Payload(buf, cur))
  }

  function RecordAt(buf: seq<Byte>, cur: nat): Option<Record> {
    if cur + STAGE_HEADER > |buf| || !Fits(buf, cur) then None
    else
      var at, mid := cur + STAGE_HEADER, cur + STAGE_HEADER + Field(buf, cur + 4);
      Some(Record(Field(buf, cur), buf[at..mid], buf[mid..mid + Field(buf, cur + 8)]))
  }

  predicate HeaderOk(buf: seq<Byte>) {
    |buf| >= HEADER && buf[..8] == MAGIC && Field(buf, 8) == VERSION
  }

  method ScanAll(buf: seq<Byte>, count: nat, start: nat) returns (offsets: seq<nat>)
    ensures offsets == Scan(buf, count, start)
  {
    hide Fits, Payload;
    offsets := [];
    var cur: nat, i: nat := start, 0;
    while i < count
      invariant i <= count && offsets + Scan(buf, count - i, cur) == Scan(buf, count, start)
    {
      if cur + STAGE_HEADER > |buf| { break; }
      ghost var before, rest := offsets, Scan(buf, count - i, cur);
      offsets := offsets + [cur];
      if !Fits(buf, cur) { break; }
      cur := cur + STAGE_HEADER + Payload(buf, cur);
      i := i + 1;
      assert before + rest == offsets + Scan(buf, count - i, cur);
    }
    assert offsets + [] == offsets;
  }

  class CaptureReader {
    var buf: seq<Byte>
    var offsets: seq<nat>

    ghost predicate Opened(file: seq<Byte>)
      reads this
    {
      HeaderOk(file) && buf == file && offsets == Scan(file, Field(file, COUNT_AT), HEADER)
    }

    constructor ()
      ensures buf == [] && offsets == []
    {
      buf, offsets := [], [];
    }

    method Open(file: seq<Byte>) returns (ok: bool)
      modifies this
      ensures ok <==> HeaderOk(file)
      ensures ok ==> Opened(file)
    {
      buf, offsets := [], [];
      if |file| < HEADER { return false; }
      buf := file;
      if buf[..8] != MAGIC { return false; }
      if Field(buf, 8) != VERSION { return false; }
      offsets := ScanAll(file, Field(file, COUNT_AT), HEADER);
      ok := true;
    }

    /** The record at an index of an opened file, if it lies whole in the file; nothing before a file is opened. */
    method ReadStage(idx: nat) returns (r: Option<Record>)
      ensures Opened(buf) ==> r == ReadOf(buf, idx)
      ensures offsets == [] ==> r == None
    {
      if idx >= |offsets| { return None; }
      var cur := offsets[idx];
      if cur + STAGE_HEADER > |buf| || !Fits(buf, cur) { return None; }
      var inLen, outLen := Field(buf, cur + 4), Field(buf, cur + 8);
      var at := cur + STAGE_HEADER;
      r := Some(Record(Field(buf, cur), buf[at..at + inLen], buf[at + inLen..at + inLen + outLen]));
    }
  }

  // ---------- round trip ----------

  /** The closed file. */
  function FileOf(hashSeq: nat, recs: seq<Record>): seq<Byte> { Header(hashSeq, |recs| % TWO32) + Body(recs) }

  lemma {:induction false} BodyPrefix(recs: seq<Record>, i: nat)
    requires i <= |recs|
    ensures |Body(recs[..i])| <= |Body(recs)| && Body(recs)[..|Body(recs[..i])|] == Body(recs[..i])
  {
    hide Encode;
    if i == |recs| {
      assert recs[..i] == recs;
    } else {
      var front := recs[..|recs| - 1];
      BodyPrefix(front, i);
      assert front[..i] == recs[..i];
    }
  }

  lemma OffsetNext(recs: seq<Record>, i: nat)
    requires i < |recs|
    ensures Offset(recs, i + 1) == Offset(recs, i) + |Encode(recs[i])|
    ensures Body(recs[..i + 1]) == Body(recs[..i]) + Encode(recs[i])
  {
    hide Encode;
    assert recs[..i + 1][..i] == recs[..i];
  }

  /** Record i lies at its offset. */
  lemma RecordLies(hashSeq: nat, recs: seq<Record>, i: nat)
    requires i < |recs|
    ensures Offset(recs, i) + |Encode(recs[i])| <= |FileOf(hashSeq, recs)|
    ensures FileOf(hashSeq, recs)[Offset(recs, i)..Offset(recs, i) + |Encode(recs[i])|] == Encode(recs[i])
  {
    hide Encode, Header;
    OffsetNext(recs, i);
    BodyPrefix(recs, i + 1);
    var a, b := |Body(recs[..i])|, |Body(recs[..i + 1])|;
    assert Body(recs)[a..b] == Body(recs)[..b][a..];
    assert FileOf(hashSeq, recs)[HEADER + a..HEADER + b] == Body(recs)[a..b];
  }

  lemma SubSlice(s: seq<Byte>, a: nat, b: nat, i: nat, j: nat)
    requires a <= b <= |s| && i <= j <= b - a
    ensures s[a..b][i..j] == s[a + i..a + j]
  {
    forall k | 0 <= k < j - i ensures s[a..b][i..j][k] == s[a + i..a + j][k] {
      assert s[a..b][i + k] == s[a + i + k];
    }
  }

  lemma StageHeaderParts(r: Record)
    ensures StageHeader(r)[0..4] == LittleBytes(r.id, 4) && StageHeader(r)[4..8] == LittleBytes(|r.input|, 4)
    ensures StageHeader(r)[8..12] == LittleBytes(|r.output|, 4)
  {
    hide LittleBytes;
    var a, b, c, d := LittleBytes(r.id, 4), LittleBytes(|r.input|, 4), LittleBytes(|r.output|, 4), LittleBytes(0, 4);
    assert StageHeader(r) == a + (b + (c + d));
  }

  lemma EncodeParts(r: Record)
    ensures var e, mid := Encode(r), STAGE_HEADER + |r.input|;
            e[0..STAGE_HEADER] == StageHeader(r) && e[STAGE_HEADER..mid] == r.input && e[mid..mid + |r.output|] == r.output
  {
    hide StageHeader;
    assert Encode(r) == StageHeader(r) + (r.input + r.output);
  }

  /** A stage header that lies inside the buffer gives the record's lengths and id. */
  lemma FieldsRead(buf: seq<Byte>, cur: nat, r: Record)
    requires Encodable(r) && cur + STAGE_HEADER <= |buf| && buf[cur..cur + STAGE_HEADER] == StageHeader(r)
    ensures Field(buf, cur) == r.id && Field(buf, cur + 4) == |r.input| && Field(buf, cur + 8) == |r.output|
  {
    Little32(r.id);
    Little32(|r.input|);
    Little32(|r.output|);
    hide LittleBytes, LittleEndian;
    StageHeaderParts(r);
    hide StageHeader;
    SubSlice(buf, cur, cur + STAGE_HEADER, 0, 4);
    SubSlice(buf, cur, cur + STAGE_HEADER, 4, 8);
    SubSlice(buf, cur, cur + STAGE_HEADER, 8, 12);
  }

  /** What a truncated file still says at the offset of record i. */
  lemma TruncatedRecord(hashSeq: nat, recs: seq<Record>, n: nat, i: nat)
    requires i < |recs| && Encodable(recs[i]) && n <= |FileOf(hashSeq, recs)|
    ensures var buf, cur := FileOf(hashSeq, recs)[..n], Offset(recs, i);
            cur + STAGE_HEADER <= n ==>
              && Payload(buf, cur) == |recs[i].input| + |recs[i].output|
              && (Fits(buf, cur) <==> Offset(recs, i + 1) <= n)
    ensures RecordAt(FileOf(hashSeq, recs)[..n], Offset(recs, i)) == if Offset(recs, i + 1) <= n then Some(recs[i]) else None
  {
    var f, cur, r := FileOf(hashSeq, recs), Offset(recs, i), recs[i];
    RecordLies(hashSeq, recs, i);
    OffsetNext(recs, i);
    EncodeParts(r);
    hide FileOf, Offset, Encode;
    if cur + STAGE_HEADER <= n { CutRecord(f, n, cur, r); }
  }

  /** The first n bytes of a file that holds r at cur. */
  lemma CutRecord(f: seq<Byte>, n: nat, cur: nat, r: Record)
    requires Encodable(r) && cur + STAGE_HEADER <= n <= |f|
    requires cur + |Encode(r)| <= |f| && f[cur..cur + |Encode(r)|] == Encode(r)
    ensures Payload(f[..n], cur) == |r.input| + |r.output|
    ensures Fits(f[..n], cur) <==> cur + |Encode(r)| <= n
    ensures RecordAt(f[..n], cur) == if cur + |Encode(r)| <= n then Some(r) else None
  {
    var e, mid := Encode(r), STAGE_HEADER + |r.input|;
    EncodeParts(r);
    hide Encode, StageHeader;
    SubSlice(f, cur, cur + |e|, 0, STAGE_HEADER);
    SubSlice(f, 0, n, cur, cur + STAGE_HEADER);
    FieldsRead(f[..n], cur, r);
    hide Field;
    if cur + |e| <= n {
      SubSlice(f, cur, cur + |e|, STAGE_HEADER, mid);
      SubSlice(f, cur, cur + |e|, mid, |e|);
      SubSlice(f, 0, n, cur + STAGE_HEADER, cur + mid);
      SubSlice(f, 0, n, cur + mid, cur + |e|);
    }
  }

  /** The walk over the first n bytes, from record i on. */
  ghost function ScanFrom(hashSeq: nat, recs: seq<Record>, n: nat, i: nat): seq<nat>
    requires i <= |recs| && n <= |FileOf(hashSeq, recs)|
  {
    Scan(FileOf(hashSeq, recs)[..n], |recs| - i, Offset(recs, i))
  }

  lemma ScanStep(hashSeq: nat, recs: seq<Record>, n: nat, i: nat)
    requires i < |recs| && n <= |FileOf(hashSeq, recs)| && Encodable(recs[i])
    ensures ScanFrom(hashSeq, recs, n, i) ==
            if Offset(recs, i) + STAGE_HEADER > n then []
            else if Offset(recs, i + 1) > n then [Offset(recs, i)]
            else [Offset(recs, i)] + ScanFrom(hashSeq, recs, n, i + 1)
  {
    hide FileOf, Offset, Fits, Payload, RecordAt, Body, Encodable;
    TruncatedRecord(hashSeq, recs, n, i);
    OffsetNext(recs, i);
  }

  lemma {:induction false} ScanFinds(hashSeq: nat, recs: seq<Record>, n: nat, i: nat, j: nat)
    requires i <= j < |recs| && n <= |FileOf(hashSeq, recs)| && forall k :: 0 <= k < |recs| ==> Encodable(recs[k])
    ensures var offsets := ScanFrom(hashSeq, recs, n, i);
            && (j - i < |offsets| ==> offsets[j - i] == Offset(recs, j))
            && (Offset(recs, j + 1) <= n ==> j - i < |offsets|)
    decreases j - i
  {
    hide *;
    ScanStep(hashSeq, recs, n, i);
    HeaderInside(recs, i);
    OffsetGrows(recs, i + 1, j + 1);
    if i < j { ScanFinds(hashSeq, recs, n, i + 1, j); }
  }

  lemma HeaderInside(recs: seq<Record>, i: nat)
    requires i < |recs|
    ensures Offset(recs, i) + STAGE_HEADER <= Offset(recs, i + 1)
  {
    OffsetNext(recs, i);
    hide Offset;
  }

  lemma {:induction false} OffsetGrows(recs: seq<Record>, i: nat, j: nat)
    requires i <= j <= |recs|
    ensures Offset(recs, i) <= Offset(recs, j)
    decreases j - i
  {
    if i < j {
      OffsetNext(recs, i);
      OffsetGrows(recs, i + 1, j);
    }
  }

  lemma {:induction false} ScanBounded(buf: seq<Byte>, count: nat, cur: nat)
    ensures |Scan(buf, count, cur)| <= count
    decreases count
  {
    hide Fits, Payload;
    if count > 0 && cur + STAGE_HEADER <= |buf| && Fits(buf, cur) {
      ScanBounded(buf, count - 1, cur + STAGE_HEADER + Payload(buf, cur));
    }
  }

  /** The header gives magic, version and count. */
  lemma HeaderFields(buf: seq<Byte>, hashSeq: nat, count: nat)
    requires |buf| >= HEADER && buf[0..HEADER] == Header(hashSeq, count) && count < TWO32
    ensures HeaderOk(buf) && Field(buf, COUNT_AT) == count
  {
    hide LittleBytes, Header, Field;
    HeaderParts(hashSeq, count);
    SubSlice(buf, 0, HEADER, 0, 8);
    assert buf[..8] == MAGIC;
    FieldAt(buf, 8, VERSION);
    FieldAt(buf, COUNT_AT, count);
  }

  lemma FieldAt(buf: seq<Byte>, at: nat, n: nat)
    requires at + 4 <= HEADER <= |buf| && buf[0..HEADER][at..at + 4] == LittleBytes(n, 4) && n < TWO32
    ensures Field(buf, at) == n
  {
    hide LittleBytes, LittleEndian;
    Little32(n);
    SubSlice(buf, 0, HEADER, at, at + 4);
  }

  lemma HeaderReads(hashSeq: nat, recs: seq<Record>, n: nat)
    requires |recs| < TWO32 && HEADER <= n <= |FileOf(hashSeq, recs)|
    ensures HeaderOk(FileOf(hashSeq, recs)[..n]) && Field(FileOf(hashSeq, recs)[..n], COUNT_AT) == |recs|
  {
    FileHead(hashSeq, recs, n);
    hide FileOf, Header, HeaderOk, Field;
    HeaderFields(FileOf(hashSeq, recs)[..n], hashSeq, |recs|);
  }

  lemma FileHead(hashSeq: nat, recs: seq<Record>, n: nat)
    requires |recs| < TWO32 && HEADER <= n <= |FileOf(hashSeq, recs)|
    ensures FileOf(hashSeq, recs)[..n][0..HEADER] == Header(hashSeq, |recs|)
  {
    assert |recs| % TWO32 == |recs|;
    hide Header, Body;
  }

  lemma HeaderParts(hashSeq: nat, count: nat)
    ensures Header(hashSeq, count)[0..8] == MAGIC && Header(hashSeq, count)[8..12] == LittleBytes(VERSION, 4)
    ensures Header(hashSeq, count)[COUNT_AT..COUNT_AT + 4] == LittleBytes(count, 4)
  {
    hide LittleBytes;
    var v, q, c, z := LittleBytes(VERSION, 4), LittleBytes(hashSeq, 8), LittleBytes(count, 4), LittleBytes(0, 4);
    assert Header(hashSeq, count) == MAGIC + (v + (q + (c + (z + z))));
  }

  /** What read_stage answers on the first n bytes of a closed file. */
  function ReadOf(buf: seq<Byte>, i: nat): Option<Record>
    requires |buf| >= HEADER
  {
    var offsets := Scan(buf, Field(buf, COUNT_AT), HEADER);
    if i < |offsets| then RecordAt(buf, offsets[i]) else None
  }

  /** Record i comes back exactly when it lies whole inside what was kept; otherwise the read fails. */
  lemma TruncationSafe(hashSeq: nat, recs: seq<Record>, n: nat, i: nat)
    requires |recs| < TWO32 && HEADER <= n <= |FileOf(hashSeq, recs)| && forall k :: 0 <= k < |recs| ==> Encodable(recs[k])
    ensures ReadOf(FileOf(hashSeq, recs)[..n], i) == if i < |recs| && Offset(recs, i + 1) <= n then Some(recs[i]) else None
  {
    HeaderReads(hashSeq, recs, n);
    assert Offset(recs, 0) == HEADER by { assert recs[..0] == []; }
    hide FileOf, Field, Offset, RecordAt, HeaderOk;
    ScanBounded(FileOf(hashSeq, recs)[..n], |recs|, HEADER);
    if i < |recs| {
      ScanFinds(hashSeq, recs, n, 0, i);
      TruncatedRecord(hashSeq, recs, n, i);
    }
  }

  // ---------- a file with failed writes ----------

  /** Equal but for the four reserved bytes of a stage header. */
  ghost predicate AgreeButReserved(a: seq<Byte>, b: seq<Byte>) {
    |a| == |b| && forall k :: 0 <= k < |a| && !(12 <= k < STAGE_HEADER) ==> a[k] == b[k]
  }

  /** The encoded size of the first j records. */
  function SizeTo(list: seq<Record>, j: nat): nat
    requires j <= |list|
  {
    if j == 0 then 0 else SizeTo(list, j - 1) + |Encode(list[j - 1])|
  }

  lemma {:induction false} SizeIs(list: seq<Record>, j: nat)
    requires j <= |list|
    ensures SizeTo(list, j) == |Body(list[..j])|
  {
    hide Encode;
    if j > 0 {
      SizeIs(list, j - 1);
      OffsetNext(list, j - 1);
    }
  }

  lemma {:induction false} SizeConcat(a: seq<Record>, b: seq<Record>, j: nat)
    requires j <= |a + b|
    ensures SizeTo(a + b, j) == if j <= |a| then SizeTo(a, j) else SizeTo(a, |a|) + SizeTo(b, j - |a|)
  {
    hide Encode;
    if j > 0 { SizeConcat(a, b, j - 1); }
  }

  /** From cur on the buffer reads as the first n of these records, one behind the other. */
  ghost predicate ParsesAs(buf: seq<Byte>, cur: nat, list: seq<Record>, n: nat)
    requires n <= |list|
  {
    forall j :: 0 <= j < n ==> RecordAt(buf, cur + SizeTo(list, j)) == Some(list[j])
  }

  /** The bytes begin like the encoded records, reserved bytes aside. */
  ghost predicate StartsLike(junk: seq<Byte>, list: seq<Record>) {
    forall j :: 0 <= j < |list| ==> LiesLike(junk, SizeTo(list, j), list[j])
  }

  ghost predicate LiesLike(buf: seq<Byte>, cur: nat, r: Record) {
    cur + |Encode(r)| <= |buf| && AgreeButReserved(buf[cur..cur + |Encode(r)|], Encode(r))
  }

  lemma FieldBytes(buf: seq<Byte>, at: nat, n: nat)
    requires at + 4 <= |buf| && n < TWO32
    ensures Field(buf, at) == n <==> buf[at..at + 4] == LittleBytes(n, 4)
  {
    hide LittleBytes, LittleEndian;
    Little32(n);
    LittleBytesOfValue(buf[at..at + 4]);
  }

  /** The parts of an encoded record, byte by byte. */
  lemma AgreeParts(a: seq<Byte>, r: Record)
    requires |a| == |Encode(r)|
    ensures var mid := STAGE_HEADER + |r.input|;
            AgreeButReserved(a, Encode(r)) <==>
              && a[0..4] == LittleBytes(r.id, 4) && a[4..8] == LittleBytes(|r.input|, 4) && a[8..12] == LittleBytes(|r.output|, 4)
              && a[STAGE_HEADER..mid] == r.input && a[mid..mid + |r.output|] == r.output
  {
    var e, mid := Encode(r), STAGE_HEADER + |r.input|;
    StageHeaderParts(r);
    EncodeParts(r);
    hide LittleBytes, Encode, StageHeader;
    SubSlice(e, 0, STAGE_HEADER, 0, 4);
    SubSlice(e, 0, STAGE_HEADER, 4, 8);
    SubSlice(e, 0, STAGE_HEADER, 8, 12);
    AgreeSlices(a, e, mid);
  }

  lemma AgreeSlices(a: seq<Byte>, e: seq<Byte>, mid: nat)
    requires |a| == |e| && STAGE_HEADER <= mid <= |e|
    ensures AgreeButReserved(a, e) <==>
              && a[0..4] == e[0..4] && a[4..8] == e[4..8] && a[8..12] == e[8..12]
              && a[STAGE_HEADER..mid] == e[STAGE_HEADER..mid] && a[mid..|e|] == e[mid..|e|]
  {
    if a[0..4] == e[0..4] && a[4..8] == e[4..8] && a[8..12] == e[8..12]
       && a[STAGE_HEADER..mid] == e[STAGE_HEADER..mid] && a[mid..|e|] == e[mid..|e|] {
      forall k | 0 <= k < |a| && !(12 <= k < STAGE_HEADER) ensures a[k] == e[k] {
        if k < 4 { assert a[0..4][k] == e[0..4][k]; }
        else if k < 8 { assert a[4..8][k - 4] == e[4..8][k - 4]; }
        else if k < 12 { assert a[8..12][k - 8] == e[8..12][k - 8]; }
        else if k < mid { assert a[STAGE_HEADER..mid][k - STAGE_HEADER] == e[STAGE_HEADER..mid][k - STAGE_HEADER]; }
        else { assert a[mid..|e|][k - mid] == e[mid..|e|][k - mid]; }
      }
    }
  }

  /** The five parts of r lie at cur. */
  ghost predicate PartsAt(buf: seq<Byte>, cur: nat, r: Record)
    requires cur + |Encode(r)| <= |buf|
  {
    var at, mid, end := cur + STAGE_HEADER, cur + STAGE_HEADER + |r.input|, cur + |Encode(r)|;
    && buf[cur..cur + 4] == LittleBytes(r.id, 4) && buf[cur + 4..cur + 8] == LittleBytes(|r.input|, 4)
    && buf[cur + 8..cur + 12] == LittleBytes(|r.output|, 4) && buf[at..mid] == r.input && buf[mid..end] == r.output
  }

  lemma LiesInParts(buf: seq<Byte>, cur: nat, r: Record)
    requires cur + |Encode(r)| <= |buf|
    ensures LiesLike(buf, cur, r) <==> PartsAt(buf, cur, r)
  {
    hide LittleBytes, AgreeButReserved, Encode;
    AgreeParts(buf[cur..cur + |Encode(r)|], r);
    SliceParts(buf, cur, |Encode(r)|, STAGE_HEADER + |r.input|);
  }

  lemma SliceParts(buf: seq<Byte>, cur: nat, l: nat, mid: nat)
    requires cur + l <= |buf| && STAGE_HEADER <= mid <= l
    ensures var a := buf[cur..cur + l];
            && a[0..4] == buf[cur..cur + 4] && a[4..8] == buf[cur + 4..cur + 8] && a[8..12] == buf[cur + 8..cur + 12]
            && a[STAGE_HEADER..mid] == buf[cur + STAGE_HEADER..cur + mid] && a[mid..l] == buf[cur + mid..cur + l]
  {
    SubSlice(buf, cur, cur + l, 0, 4);
    SubSlice(buf, cur, cur + l, 4, 8);
    SubSlice(buf, cur, cur + l, 8, 12);
    SubSlice(buf, cur, cur + l, STAGE_HEADER, mid);
    SubSlice(buf, cur, cur + l, mid, l);
  }

  lemma ReadInParts(buf: seq<Byte>, cur: nat, r: Record)
    requires Encodable(r) && cur + |Encode(r)| <= |buf|
    ensures RecordAt(buf, cur) == Some(r) <==> PartsAt(buf, cur, r)
  {
    FieldBytes(buf, cur, r.id);
    FieldBytes(buf, cur + 4, |r.input|);
    FieldBytes(buf, cur + 8, |r.output|);
    hide Field, LittleBytes;
  }

  lemma ReadFits(buf: seq<Byte>, cur: nat, r: Record)
    requires RecordAt(buf, cur) == Some(r)
    ensures cur + |Encode(r)| <= |buf| && cur + STAGE_HEADER <= |buf| && Fits(buf, cur)
    ensures cur + STAGE_HEADER + Payload(buf, cur) == cur + |Encode(r)|
  {
    hide Field;
  }

  /** A record is read exactly where its encoding lies, reserved bytes aside. */
  lemma RecordAtIff(buf: seq<Byte>, cur: nat, r: Record)
    requires Encodable(r)
    ensures RecordAt(buf, cur) == Some(r) <==> LiesLike(buf, cur, r)
  {
    if cur + |Encode(r)| <= |buf| {
      LiesInParts(buf, cur, r);
      ReadInParts(buf, cur, r);
    } else if RecordAt(buf, cur) == Some(r) {
      ReadFits(buf, cur, r);
    }
    hide Field, PartsAt, AgreeButReserved, RecordAt;
  }

  lemma ParsesConcat(buf: seq<Byte>, cur: nat, a: seq<Record>, b: seq<Record>)
    ensures ParsesAs(buf, cur, a + b, |a| + |b|) <==> ParsesAs(buf, cur, a, |a|) && ParsesAs(buf, cur + SizeTo(a, |a|), b, |b|)
  {
    hide RecordAt, SizeTo;
    forall j | 0 <= j < |a| ensures SizeTo(a + b, j) == SizeTo(a, j) && (a + b)[j] == a[j] { SizeConcat(a, b, j); }
    forall j | 0 <= j < |b|
      ensures SizeTo(a + b, |a| + j) == SizeTo(a, |a|) + SizeTo(b, j) && (a + b)[|a| + j] == b[j]
    {
      SizeConcat(a, b, |a| + j);
      hide *;
      SizeNone(b);
    }
    ParsesSplit(buf, cur, a, b);
  }

  lemma SizeNone(b: seq<Record>)
    ensures SizeTo(b, 0) == 0
  {
  }

  lemma ParsesSplit(buf: seq<Byte>, cur: nat, a: seq<Record>, b: seq<Record>)
    requires forall j :: 0 <= j < |a| ==> SizeTo(a + b, j) == SizeTo(a, j)
    requires forall j :: 0 <= j < |b| ==> SizeTo(a + b, |a| + j) == SizeTo(a, |a|) + SizeTo(b, j)
    ensures ParsesAs(buf, cur, a + b, |a| + |b|) <==> ParsesAs(buf, cur, a, |a|) && ParsesAs(buf, cur + SizeTo(a, |a|), b, |b|)
  {
    hide RecordAt, SizeTo, ParsesAs;
    if ParsesAs(buf, cur, a + b, |a| + |b|) { ParsesApart(buf, cur, a, b); }
    if ParsesAs(buf, cur, a, |a|) && ParsesAs(buf, cur + SizeTo(a, |a|), b, |b|) { ParsesTogether(buf, cur, a, b); }
  }

  lemma ParsesApart(buf: seq<Byte>, cur: nat, a: seq<Record>, b: seq<Record>)
    requires forall j :: 0 <= j < |a| ==> SizeTo(a + b, j) == SizeTo(a, j)
    requires forall j :: 0 <= j < |b| ==> SizeTo(a + b, |a| + j) == SizeTo(a, |a|) + SizeTo(b, j)
    requires ParsesAs(buf, cur, a + b, |a| + |b|)
    ensures ParsesAs(buf, cur, a, |a|) && ParsesAs(buf, cur + SizeTo(a, |a|), b, |b|)
  {
    hide RecordAt, SizeTo;
    forall j | 0 <= j < |b| ensures RecordAt(buf, cur + SizeTo(a, |a|) + SizeTo(b, j)) == Some(b[j]) {
      assert RecordAt(buf, cur + SizeTo(a + b, |a| + j)) == Some((a + b)[|a| + j]);
    }
    forall j | 0 <= j < |a| ensures RecordAt(buf, cur + SizeTo(a, j)) == Some(a[j]) {
      assert RecordAt(buf, cur + SizeTo(a + b, j)) == Some((a + b)[j]);
    }
  }

  lemma ParsesTogether(buf: seq<Byte>, cur: nat, a: seq<Record>, b: seq<Record>)
    requires forall j :: 0 <= j < |a| ==> SizeTo(a + b, j) == SizeTo(a, j)
    requires forall j :: 0 <= j < |b| ==> SizeTo(a + b, |a| + j) == SizeTo(a, |a|) + SizeTo(b, j)
    requires ParsesAs(buf, cur, a, |a|) && ParsesAs(buf, cur + SizeTo(a, |a|), b, |b|)
    ensures ParsesAs(buf, cur, a + b, |a| + |b|)
  {
    hide RecordAt, SizeTo;
    forall j | 0 <= j < |a| + |b| ensures RecordAt(buf, cur + SizeTo(a + b, j)) == Some((a + b)[j]) {
      if j < |a| {
        assert RecordAt(buf, cur + SizeTo(a, j)) == Some(a[j]);
      } else {
        var i := j - |a|;
        assert RecordAt(buf, cur + SizeTo(a, |a|) + SizeTo(b, i)) == Some(b[i]) && SizeTo(a + b, |a| + i) == SizeTo(a + b, j);
      }
    }
  }

  /** What lies behind a prefix reads as it would on its own. */
  lemma ParsesBehind(front: seq<Byte>, junk: seq<Byte>, list: seq<Record>)
    requires forall k :: 0 <= k < |list| ==> Encodable(list[k])
    ensures ParsesAs(front + junk, |front|, list, |list|) <==> StartsLike(junk, list)
  {
    hide RecordAt, SizeTo, LiesLike;
    forall j | 0 <= j < |list|
      ensures RecordAt(front + junk, |front| + SizeTo(list, j)) == Some(list[j]) <==> LiesLike(junk, SizeTo(list, j), list[j])
    {
      RecordAtIff(front + junk, |front| + SizeTo(list, j), list[j]);
      LiesBehind(front, junk, SizeTo(list, j), list[j]);
    }
  }

  lemma LiesBehind(front: seq<Byte>, junk: seq<Byte>, cur: nat, r: Record)
    ensures LiesLike(front + junk, |front| + cur, r) <==> LiesLike(junk, cur, r)
  {
    hide AgreeButReserved, Encode;
    var l := |Encode(r)|;
    if cur + l <= |junk| { assert (front + junk)[|front| + cur..|front| + cur + l] == junk[cur..cur + l]; }
  }

  lemma OwnBytes(list: seq<Record>, tail: seq<Byte>, j: nat)
    requires j < |list|
    ensures LiesLike(Body(list) + tail, SizeTo(list, j), list[j])
  {
    hide Encode, Body, SizeTo;
    SizeIs(list, j);
    BodySlice(list, j);
    var cur := |Body(list[..j])|;
    assert (Body(list) + tail)[cur..cur + |Encode(list[j])|] == Body(list)[cur..cur + |Encode(list[j])|];
  }

  lemma BodySlice(list: seq<Record>, j: nat)
    requires j < |list|
    ensures var cur, e := |Body(list[..j])|, Encode(list[j]); cur + |e| <= |Body(list)| && Body(list)[cur..cur + |e|] == e
  {
    hide Encode, Body;
    OffsetNext(list, j);
    BodyPrefix(list, j + 1);
    var cur, b := |Body(list[..j])|, |Body(list[..j + 1])|;
    assert Body(list)[cur..b] == Body(list)[..b][cur..];
  }

  /** The offsets of the first j records of a list. */
  ghost function OffsetsTo(cur: nat, list: seq<Record>, j: nat): (o: seq<nat>)
    requires j <= |list|
    ensures |o| == j
  {
    if j == 0 then [] else OffsetsTo(cur, list, j - 1) + [cur + SizeTo(list, j - 1)]
  }

  /** The walk goes along records as long as they read as such. */
  lemma {:induction false} ScanAlong(buf: seq<Byte>, count: nat, cur: nat, list: seq<Record>, j: nat)
    requires j <= |list| && j <= count && ParsesAs(buf, cur, list, j)
    ensures Scan(buf, count, cur) == OffsetsTo(cur, list, j) + Scan(buf, count - j, cur + SizeTo(list, j))
    decreases j
  {
    hide Scan, RecordAt, Encode, ParsesAs;
    if j > 0 {
      var at := cur + SizeTo(list, j - 1);
      ParsesLess(buf, cur, list, j);
      ScanAlong(buf, count, cur, list, j - 1);
      RecordStep(buf, count - j + 1, at, list[j - 1]);
      Assoc(OffsetsTo(cur, list, j - 1), [at], Scan(buf, count - j, at + |Encode(list[j - 1])|));
    }
  }

  lemma ParsesLess(buf: seq<Byte>, cur: nat, list: seq<Record>, j: nat)
    requires 0 < j <= |list| && ParsesAs(buf, cur, list, j)
    ensures ParsesAs(buf, cur, list, j - 1) && RecordAt(buf, cur + SizeTo(list, j - 1)) == Some(list[j - 1])
  {
    hide RecordAt, SizeTo;
  }

  lemma Assoc(a: seq<nat>, b: seq<nat>, c: seq<nat>)
    ensures a + (b + c) == (a + b) + c
  {
  }

  lemma RecordStep(buf: seq<Byte>, count: nat, at: nat, r: Record)
    requires count > 0 && RecordAt(buf, at) == Some(r)
    ensures Scan(buf, count, at) == [at] + Scan(buf, count - 1, at + |Encode(r)|)
  {
    ReadFits(buf, at, r);
    hide Fits, Payload, RecordAt, Encode;
  }

  /** Behind the records it went along, a walk with count left finds the next offset, if a record can begin there. */
  lemma ScanNext(buf: seq<Byte>, count: nat, cur: nat, list: seq<Record>, j: nat)
    requires j < |list| && j < count && ParsesAs(buf, cur, list, j)
    ensures var o, at := Scan(buf, count, cur), cur + SizeTo(list, j);
            && (j < |o| ==> o[j] == at) && (RecordAt(buf, at).Some? ==> j < |o|)
  {
    hide SizeTo, ParsesAs, Scan, RecordAt, OffsetsTo;
    ScanAlong(buf, count, cur, list, j);
    ScanHead(buf, count - j, cur + SizeTo(list, j));
  }

  lemma ScanHead(buf: seq<Byte>, count: nat, at: nat)
    requires count > 0
    ensures var o := Scan(buf, count, at); (o != [] ==> o[0] == at) && (RecordAt(buf, at).Some? ==> o != [])
  {
    hide Fits, Payload, Field;
  }

  /** All records come back, one for each count, exactly when the file reads as them. */
  lemma AllBackIff(buf: seq<Byte>, list: seq<Record>)
    requires |buf| >= HEADER && Field(buf, COUNT_AT) == |list|
    ensures (forall i :: 0 <= i < |list| ==> ReadOf(buf, i) == Some(list[i])) <==> ParsesAs(buf, HEADER, list, |list|)
  {
    hide RecordAt, Scan, SizeTo, Field;
    if ParsesAs(buf, HEADER, list, |list|) {
      forall i | 0 <= i < |list| ensures ReadOf(buf, i) == Some(list[i]) { ReadsBack(buf, |list|, list, i); }
    }
    if forall i :: 0 <= i < |list| ==> ReadOf(buf, i) == Some(list[i]) { ParsesUpTo(buf, list, |list|); }
  }

  lemma ReadsBack(buf: seq<Byte>, count: nat, list: seq<Record>, i: nat)
    requires |buf| >= HEADER && Field(buf, COUNT_AT) == count && i < |list| && i < count && ParsesAs(buf, HEADER, list, |list|)
    ensures ReadOf(buf, i) == Some(list[i])
  {
    hide RecordAt, Scan, SizeTo, Field;
    ScanNext(buf, count, HEADER, list, i);
    assert RecordAt(buf, HEADER + SizeTo(list, i)) == Some(list[i]);
  }

  lemma {:induction false} ParsesUpTo(buf: seq<Byte>, list: seq<Record>, j: nat)
    requires |buf| >= HEADER && Field(buf, COUNT_AT) == |list| && j <= |list|
    requires forall i :: 0 <= i < |list| ==> ReadOf(buf, i) == Some(list[i])
    ensures ParsesAs(buf, HEADER, list, j)
    decreases j
  {
    hide RecordAt, Scan, SizeTo, Field;
    if j > 0 {
      ParsesUpTo(buf, list, j - 1);
      ScanNext(buf, |list|, HEADER, list, j - 1);
      assert ReadOf(buf, j - 1) == Some(list[j - 1]);
    }
  }

  /** The closed file: records, then what failed and later writes left. */
  function ClosedFile(hashSeq: nat, count: nat, recs: seq<Record>, junk: seq<Byte>): seq<Byte> {
    Header(hashSeq, count) + Body(recs) + junk
  }

  lemma ClosedHeader(hashSeq: nat, count: nat, recs: seq<Record>, junk: seq<Byte>)
    requires count < TWO32
    ensures var f := ClosedFile(hashSeq, count, recs, junk);
            |f| >= HEADER && HeaderOk(f) && Field(f, COUNT_AT) == count
  {
    hide Header, HeaderOk, Field, Body;
    var f := ClosedFile(hashSeq, count, recs, junk);
    assert f[0..HEADER] == Header(hashSeq, count);
    HeaderFields(f, hashSeq, count);
  }

  lemma ClosedParses(hashSeq: nat, count: nat, recs: seq<Record>, late: seq<Record>, junk: seq<Byte>)
    requires (forall k :: 0 <= k < |recs| ==> Encodable(recs[k])) && forall k :: 0 <= k < |late| ==> Encodable(late[k])
    ensures var f := ClosedFile(hashSeq, count, recs, junk);
            && ParsesAs(f, HEADER, recs, |recs|) && (ParsesAs(f, HEADER, recs + late, |recs| + |late|) <==> StartsLike(junk, late))
  {
    hide Header, Body, ParsesAs, StartsLike, LiesLike, SizeTo, Encodable;
    SizeIs(recs, |recs|);
    assert recs[..|recs|] == recs;
    var f, h := ClosedFile(hashSeq, count, recs, junk), Header(hashSeq, count);
    Joined(h, Body(recs), junk);
    OwnRecords(recs, junk);
    ParsesBehind(h, Body(recs) + junk, recs);
    ParsesConcat(f, HEADER, recs, late);
    ParsesBehind(h + Body(recs), junk, late);
  }

  lemma OwnRecords(recs: seq<Record>, junk: seq<Byte>)
    ensures StartsLike(Body(recs) + junk, recs)
  {
    hide Body, LiesLike, SizeTo;
    forall j | 0 <= j < |recs| ensures LiesLike(Body(recs) + junk, SizeTo(recs, j), recs[j]) { OwnBytes(recs, junk, j); }
  }

  /** What failed writes leave behind the records never harms them: as far as the header counts, each record written
      before the first torn bytes comes back, and nothing beyond the count. */
  lemma TornTailSafe(hashSeq: nat, count: nat, recs: seq<Record>, junk: seq<Byte>, i: nat)
    requires count < TWO32 && forall k :: 0 <= k < |recs| ==> Encodable(recs[k])
    ensures var f := ClosedFile(hashSeq, count, recs, junk);
            && HeaderOk(f) && |f| >= HEADER
            && (i < |recs| && i < count ==> ReadOf(f, i) == Some(recs[i]))
            && (i >= count ==> ReadOf(f, i) == None)
  {
    var f := ClosedFile(hashSeq, count, recs, junk);
    ClosedHeader(hashSeq, count, recs, junk);
    ClosedParses(hashSeq, count, recs, [], junk);
    hide ClosedFile, HeaderOk, Field, RecordAt, ParsesAs, StartsLike;
    ScanBounded(f, count, HEADER);
    if i < |recs| && i < count { ReadsBack(f, count, recs, i); }
  }

  /** When everything written comes back: exactly when the bytes from the first torn ones on begin like the records
      written after them, reserved bytes aside. That is so when nothing was written after a tear. */
  lemma TornBackIff(hashSeq: nat, recs: seq<Record>, late: seq<Record>, junk: seq<Byte>)
    requires |recs| + |late| < TWO32
    requires (forall k :: 0 <= k < |recs| ==> Encodable(recs[k])) && forall k :: 0 <= k < |late| ==> Encodable(late[k])
    ensures var f, all := ClosedFile(hashSeq, |recs| + |late|, recs, junk), recs + late;
            && |f| >= HEADER
            && ((forall i :: 0 <= i < |all| ==> ReadOf(f, i) == Some(all[i])) <==> StartsLike(junk, late))
    ensures late == [] ==> StartsLike(junk, late)
  {
    hide ClosedFile, HeaderOk, Field, ParsesAs, LiesLike, ReadOf, Encodable, SizeTo;
    var n := |recs| + |late|;
    ClosedHeader(hashSeq, n, recs, junk);
    ClosedParses(hashSeq, n, recs, late, junk);
    AllBackIff(ClosedFile(hashSeq, n, recs, junk), recs + late);
  }

  /** A torn first byte of another record makes the next one unreadable as itself. */
  lemma TornByteCounterexample()
    ensures var torn, r := [7 as Byte], Record(1, [], []); !StartsLike(torn + Encode(r), [r])
  {
    var torn, r := [7 as Byte], Record(1, [], []);
    assert LittleBytes(1, 4)[0] == 1;
    assert Encode(r)[0] == 1;
    assert SizeTo([r], 0) == 0;
    assert !LiesLike(torn + Encode(r), 0, [r][0]) by { assert (torn + Encode(r))[0..16][0] == 7; }
  }

  /** A torn header can go unnoticed: when the write is tried again and the record's input repeats its header. */
  lemma TornHeaderUnnoticed(id: nat)
    requires id < TWO32
    ensures var head := LittleBytes(id, 4) + LittleBytes(STAGE_HEADER, 4) + LittleBytes(0, 4) + LittleBytes(0, 4);
            var r := Record(id, head, []);
            StageHeader(r) == head && StartsLike(head + Encode(r), [r])
  {
    hide LittleBytes;
    var head := LittleBytes(id, 4) + LittleBytes(STAGE_HEADER, 4) + LittleBytes(0, 4) + LittleBytes(0, 4);
    var r := Record(id, head, []);
    assert StageHeader(r) == head && Encode(r) == head + head;
    assert SizeTo([r], 0) == 0;
    assert (head + Encode(r))[0..32] == head + head;
  }

  /** What a writer has left in the file behind the header: the records before the first torn bytes, those after them,
      and everything from the torn bytes on. */
  datatype Writes = Writes(early: seq<Record>, late: seq<Record>, junk: seq<Byte>)

  /** After writing the first n records, of which record i finds room for takes(i) bytes. Lengths that do not fit the
      format are refused. */
  function AfterWrites(recs: seq<Record>, takes: nat -> nat, n: nat): Writes
    requires n <= |recs|
  {
    if n == 0 then Writes([], [], [])
    else
      var w, r := AfterWrites(recs, takes, n - 1), recs[n - 1];
      if !Encodable(r) then w
      else if |Encode(r)| > takes(n - 1) then w.(junk := w.junk + Taken(Encode(r), takes(n - 1)))
      else if w.junk == [] then w.(early := w.early + [r])
      else w.(late := w.late + [r], junk := w.junk + Encode(r))
  }

  lemma {:induction false} AllEarly(recs: seq<Record>, takes: nat -> nat, n: nat)
    requires n <= |recs| && forall i :: 0 <= i < n ==> Encodable(recs[i]) && |Encode(recs[i])| <= takes(i)
    ensures AfterWrites(recs, takes, n) == Writes(recs[..n], [], [])
  {
    hide Encode, Encodable, Taken;
    if n > 0 { AllEarly(recs, takes, n - 1); }
  }

  lemma {:induction false} WritesSize(recs: seq<Record>, takes: nat -> nat, n: nat)
    requires n <= |recs|
    ensures var w := AfterWrites(recs, takes, n);
            && |w.early| + |w.late| <= n && (w.junk == [] ==> w.late == [])
            && (forall i :: 0 <= i < |w.early| ==> Encodable(w.early[i])) && forall i :: 0 <= i < |w.late| ==> Encodable(w.late[i])
  {
    hide Encode, Encodable, Taken;
    if n > 0 { WritesSize(recs, takes, n - 1); }
  }

  /** Writes the records one after the other, whatever fails. */
  method WriteAll(w: CaptureWriter, recs: seq<Record>, takes: nat -> nat) returns (written: seq<Record>)
    requires w.Valid() && w.recs == w.late == [] && w.junk == [] && forall k :: 0 <= k < |recs| ==> recs[k].id < TWO32
    modifies w`file, w`stageCount, w`recs, w`late, w`junk
    ensures w.Valid() && Writes(w.recs, w.late, w.junk) == AfterWrites(recs, takes, |recs|) && written == w.recs + w.late
  {
    hide Body, Header, Encode, Encodable, Taken;
    written := [];
    for i := 0 to |recs|
      invariant w.Valid() && Writes(w.recs, w.late, w.junk) == AfterWrites(recs, takes, i) && written == w.recs + w.late
    {
      var ok := w.WriteStage(recs[i], takes(i));
      if ok { written := written + [recs[i]]; }
    }
  }

  /** Header, records, close. */
  method WriteFile(hashSeq: nat, recs: seq<Record>, takes: nat -> nat) returns (written: seq<Record>, file: seq<Byte>)
    requires |recs| < TWO32 && forall k :: 0 <= k < |recs| ==> recs[k].id < TWO32
    ensures var w := AfterWrites(recs, takes, |recs|);
            written == w.early + w.late && file == ClosedFile(hashSeq, |written|, w.early, w.junk)
  {
    hide Body, Header, Encode, Encodable, AfterWrites;
    var w := new CaptureWriter();
    var _ := w.Open(hashSeq, true, HEADER);
    written := WriteAll(w, recs, takes);
    WritesSize(recs, takes, |recs|);
    CountWhole(|written|);
    var _ := w.Close(4, true);
    file := w.file;
  }

  /** Writing, closing and reading with any outcome of every write: the records written before the first torn bytes come
      back, and all of them come back exactly when the torn bytes and what follows begin like the others. */
  method WriteThenRead(hashSeq: nat, recs: seq<Record>, takes: nat -> nat)
    returns (written: seq<Record>, back: seq<Option<Record>>)
    requires |recs| < TWO32 && forall k :: 0 <= k < |recs| ==> recs[k].id < TWO32
    ensures var w := AfterWrites(recs, takes, |recs|);
            && written == w.early + w.late && |back| == |written|
            && (forall i :: 0 <= i < |w.early| ==> back[i] == Some(w.early[i]))
            && ((forall i :: 0 <= i < |written| ==> back[i] == Some(written[i])) <==> StartsLike(w.junk, w.late))
    ensures (forall i :: 0 <= i < |recs| ==> Encodable(recs[i]) && |Encode(recs[i])| <= takes(i)) ==>
              written == recs && forall i :: 0 <= i < |recs| ==> back[i] == Some(recs[i])
  {
    hide ClosedFile, Encode, StartsLike, Encodable, AfterWrites;
    WritesSize(recs, takes, |recs|);
    var file;
    written, file := WriteFile(hashSeq, recs, takes);
    ghost var w := AfterWrites(recs, takes, |recs|);
    back := ReadBack(file, |written|, hashSeq, w.early, w.late, w.junk);
    if forall i :: 0 <= i < |recs| ==> Encodable(recs[i]) && |Encode(recs[i])| <= takes(i) {
      AllEarly(recs, takes, |recs|);
      assert recs[..|recs|] == recs;
    }
  }

  lemma CountWhole(n: nat)
    requires n < TWO32
    ensures CountLeft(n, 4) == n
  {
    PowValues();
  }

  method ReadBack(file: seq<Byte>, n: nat, ghost hashSeq: nat, ghost recs: seq<Record>, ghost late: seq<Record>, ghost junk: seq<Byte>)
    returns (back: seq<Option<Record>>)
    requires n == |recs| + |late| < TWO32 && file == ClosedFile(hashSeq, n, recs, junk)
    requires (forall k :: 0 <= k < |recs| ==> Encodable(recs[k])) && forall k :: 0 <= k < |late| ==> Encodable(late[k])
    ensures |back| == n && forall i :: 0 <= i < |recs| ==> back[i] == Some(recs[i])
    ensures (forall i :: 0 <= i < n ==> back[i] == Some((recs + late)[i])) <==> StartsLike(junk, late)
  {
    hide ClosedFile, HeaderOk, Field, Scan, RecordAt, Encodable, StartsLike, ReadOf;
    TornTailSafe(hashSeq, n, recs, junk, 0);
    back := ReadStages(file, n);
    forall i | 0 <= i < |recs| ensures back[i] == Some(recs[i]) { TornTailSafe(hashSeq, n, recs, junk, i); }
    TornBackIff(hashSeq, recs, late, junk);
  }

  method ReadStages(file: seq<Byte>, n: nat) returns (back: seq<Option<Record>>)
    requires |file| >= HEADER && HeaderOk(file)
    ensures |back| == n && forall i :: 0 <= i < n ==> back[i] == ReadOf(file, i)
  {
    hide HeaderOk, Field, Scan, RecordAt;
    var r := new CaptureReader();
    var _ := r.Open(file);
    back := [];
    for i := 0 to n
      invariant |back| == i && r.Opened(file) && forall k :: 0 <= k < i ==> back[k] == ReadOf(file, k)
    {
      var x := r.ReadStage(i);
      back := back + [x];
    }
  }
}
