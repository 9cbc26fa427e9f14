/** Fields of a job frame as the miner finds them in the text, and that a submitted share reads back by the same rules. */
module JsonText {
  import opened Suffix
  import opened HexText
  import opened Protocol
  import SubmitMessage

  const QUOTE: char := '\"'
  const INT64_MAX: int := 0x7FFF_FFFF_FFFF_FFFF
  const INT64_MIN: int := -0x8000_0000_0000_0000

  // ---------- finding ----------

  predicate At(s: string, pat: string, i: nat) {
    i + |pat| <= |s| && s[i..i + |pat|] == pat
  }

  /** The first place from i on where pat stands, or -1. */
  function Find(s: string, pat: string, i: nat): (p: int)
    requires i <= |s|
    ensures p == -1 || (i <= p <= |s| && At(s, pat, p))
    ensures forall k :: i <= k < (if p == -1 then |s| + 1 else p) ==> !At(s, pat, k)
    decreases |s| - i
  {
    if At(s, pat, i) then i else if i == |s| then -1 else Find(s, pat, i + 1)
  }

  /** The characters up to the first quote; nothing without one. */
  function Quoted(s: string): (v: string)
    ensures QUOTE !in v
  {
    var q := Find(s, [QUOTE], 0);
    if q == -1 then ""
    else
      assert forall k :: 0 <= k < q ==> s[k] == QUOTE ==> At(s, [QUOTE], k);
      s[..q]
  }

  function StringKey(key: string): string { "\"" + key + "\":\"" }

  function IntKey(key: string): string { "\"" + key + "\":" }

  /** A text field: what stands between the quotes behind the first place with the key. */
  function JsonStr(json: string, key: string): (v: string)
    ensures QUOTE !in v
  {
    var p := Find(json, StringKey(key), 0);
    if p == -1 then "" else Quoted(json[p + |StringKey(key)|..])
  }

  // ---------- numbers ----------

  predicate IsDecimal(c: char) { '0' <= c <= '9' }

  /** The number that the leading decimal digits spell, behind value. */
  function Decimals(s: string, value: nat): nat
    decreases |s|
  {
    if s == "" || !IsDecimal(s[0]) then value else Decimals(s[1..], 10 * value + (s[0] as nat - '0' as nat))
  }

  function Clamp(n: int): int { if n > INT64_MAX then INT64_MAX else if n < INT64_MIN then INT64_MIN else n }

  /** strtoll in base 10: blanks, a sign, digits, and the nearest 64-bit number. */
  function StrToLL(s: string): int
    decreases |s|
  {
    if s == "" then 0
    else if IsSpace(s[0]) then StrToLL(s[1..])
    else if s[0] == '-' then Clamp(0 - Decimals(s[1..], 0))
    else if s[0] == '+' then Clamp(Decimals(s[1..], 0))
    else Clamp(Decimals(s, 0))
  }

  function SkipBlanks(s: string): string
    decreases |s|
  {
    if s != "" && (s[0] == ' ' || s[0] == '\t') then SkipBlanks(s[1..]) else s
  }

  /** A number field; 0 when it is missing or a text. */
  function JsonInt(json: string, key: string): int {
    var p := Find(json, IntKey(key), 0);
    if p == -1 then 0
    else
      var s := SkipBlanks(json[p + |IntKey(key)|..]);
      if s != "" && s[0] == QUOTE then 0 else StrToLL(s)
  }

  /** The job in a frame. */
  function JobOf(json: string): Content {
    Content(JsonStr(json, "jobid"), JsonStr(json, "blockhashing_blob"), JsonInt(json, "height"), JsonInt(json, "difficultyuint64"))
  }

  // ---------- what is found ----------

  lemma FoundAt(s: string, pat: string, i: nat, p: nat)
    requires i <= p <= |s| && At(s, pat, p) && forall k :: i <= k < p ==> !At(s, pat, k)
    ensures Find(s, pat, i) == p
  {
  }

  /** One different character is enough. */
  lemma NotAt(s: string, pat: string, k: nat, i: nat)
    requires i < |pat| && (k + |pat| <= |s| ==> s[k + i] != pat[i])
    ensures !At(s, pat, k)
  {
    assert k + |pat| <= |s| ==> s[k..k + |pat|][i] == s[k + i];
  }

  /** Behind the first place with the key, a text without quotes is found whole. */
  lemma FieldFound(a: string, key: string, v: string, b: string)
    requires QUOTE !in v
    requires forall k :: 0 <= k < |a| ==> !At(a + StringKey(key) + v + "\"" + b, StringKey(key), k)
    ensures JsonStr(a + StringKey(key) + v + "\"" + b, key) == v
  {
    hide StringKey;
    var k := StringKey(key);
    var json := a + k + v + "\"" + b;
    assert json == a + (k + (v + ("\"" + b)));
    assert At(json, k, |a|);
    FoundAt(json, k, 0, |a|);
    var rest := v + ("\"" + b);
    assert json[|a| + |k|..] == rest;
    assert rest[|v|] == QUOTE && At(rest, [QUOTE], |v|);
    forall i | 0 <= i < |v| ensures !At(rest, [QUOTE], i) {
      assert rest[i] == v[i] && v[i] in v;
      NotAt(rest, [QUOTE], i, 0);
    }
    FoundAt(rest, [QUOTE], 0, |v|);
  }

  /** Decimal digits, most significant first. */
  function Decimal(n: nat): (s: string)
    ensures s != ""
  {
    var d := ('0' as nat + n % 10) as char;
    if n < 10 then [d] else Decimal(n / 10) + [d]
  }

  lemma {:induction false} DecimalRead(n: nat, rest: string)
    ensures IsDecimal(Decimal(n)[0]) && Decimals(Decimal(n) + rest, 0) == Decimals(rest, n)
  {
    var d := ('0' as nat + n % 10) as char;
    assert ([d] + rest)[1..] == rest;
    if n >= 10 {
      DecimalRead(n / 10, [d] + rest);
      assert Decimal(n) + rest == Decimal(n / 10) + ([d] + rest);
    }
  }

  /** A number written in decimal is read back, up to the largest of 64 bits. */
  lemma NumberFound(a: string, key: string, n: nat, b: string)
    requires n <= INT64_MAX && (b == "" || !IsDecimal(b[0]))
    requires forall k :: 0 <= k < |a| ==> !At(a + IntKey(key) + Decimal(n) + b, IntKey(key), k)
    ensures JsonInt(a + IntKey(key) + Decimal(n) + b, key) == n
  {
    hide IntKey, Decimal;
    var k, d := IntKey(key), Decimal(n);
    var json := a + k + d + b;
    assert json == a + (k + (d + b));
    assert At(json, k, |a|);
    FoundAt(json, k, 0, |a|);
    assert json[|a| + |k|..] == d + b;
    DecimalRead(n, b);
    assert (d + b)[0] == d[0];
    assert Decimals(d + b, 0) == Decimals(b, n) == n;
  }

  /** With a minus in front, down to the smallest of 64 bits. */
  lemma NegativeFound(a: string, key: string, n: nat, b: string)
    requires n <= -INT64_MIN && (b == "" || !IsDecimal(b[0]))
    requires forall k :: 0 <= k < |a| ==> !At(a + IntKey(key) + "-" + Decimal(n) + b, IntKey(key), k)
    ensures JsonInt(a + IntKey(key) + "-" + Decimal(n) + b, key) == 0 - n
  {
    hide IntKey, Decimal, StrToLL;
    var k, t := IntKey(key), "-" + (Decimal(n) + b);
    var json := a + k + "-" + Decimal(n) + b;
    assert json == a + (k + t);
    assert At(json, k, |a|) && json[|a| + |k|..] == t;
    FoundAt(json, k, 0, |a|);
    NegativeRead(n, b);
  }

  lemma NegativeRead(n: nat, b: string)
    requires n <= -INT64_MIN && (b == "" || !IsDecimal(b[0]))
    ensures StrToLL("-" + (Decimal(n) + b)) == 0 - n
  {
    hide Decimal;
    assert ("-" + (Decimal(n) + b))[1..] == Decimal(n) + b;
    DecimalRead(n, b);
    assert Decimals(Decimal(n) + b, 0) == Decimals(b, n) == n;
  }

  /** Without the key, with a text, or with nothing behind it, a field counts as empty or 0. */
  lemma FieldMissing(json: string, key: string)
    ensures (forall k :: 0 <= k <= |json| ==> !At(json, StringKey(key), k)) ==> JsonStr(json, key) == ""
    ensures (forall k :: 0 <= k <= |json| ==> !At(json, IntKey(key), k)) ==> JsonInt(json, key) == 0
    ensures JsonInt(IntKey(key), key) == 0
    ensures JsonInt(IntKey(key) + "\"" + json, key) == 0
  {
    hide StringKey, IntKey;
    var k := IntKey(key);
    assert k[|k|..] == "" && At(k, k, 0);
    FoundAt(k, k, 0, 0);
    var t := k + "\"" + json;
    assert At(t, k, 0) && t[|k|..] == "\"" + json;
    FoundAt(t, k, 0, 0);
  }

  // ---------- a share ----------

  /** A share's text, as the daemon would find it by the same rules: its job id and its digits. Job ids that come from a frame
      hold no quote. */
  lemma ShareFields(jobId: string, blobHex: string)
    requires QUOTE !in jobId && QUOTE !in blobHex
    ensures JsonStr(SubmitMessage.Text(jobId, blobHex), "jobid") == jobId
    ensures JsonStr(SubmitMessage.Text(jobId, blobHex), "mbl_blob") == blobHex
  {
    JobIdFound(jobId, blobHex);
    BlobFound(jobId, blobHex);
  }

  lemma JobIdFound(jobId: string, blobHex: string)
    requires QUOTE !in jobId
    ensures JsonStr(SubmitMessage.Text(jobId, blobHex), "jobid") == jobId
  {
    var b := ",\"mbl_blob\":\"" + blobHex + "\"}";
    var json := "{" + StringKey("jobid") + jobId + "\"" + b;
    assert json == SubmitMessage.Text(jobId, blobHex);
    NotAt(json, StringKey("jobid"), 0, 0);
    FieldFound("{", "jobid", jobId, b);
  }

  lemma BlobFound(jobId: string, blobHex: string)
    requires QUOTE !in jobId && QUOTE !in blobHex
    ensures JsonStr(SubmitMessage.Text(jobId, blobHex), "mbl_blob") == blobHex
  {
    var a, key := "{\"jobid\":\"" + jobId + "\",", StringKey("mbl_blob");
    var json := a + key + blobHex + "\"" + "}";
    assert json == SubmitMessage.Text(jobId, blobHex);
    forall k | 0 <= k < |a| ensures !At(json, key, k) {
      NotInFront(jobId, json[|a|..], k);
    }
    FieldFound(a, "mbl_blob", blobHex, "}");
  }

  /** The second key does not stand inside the first field, whatever the job id. */
  lemma NotInFront(jobId: string, rest: string, k: nat)
    requires QUOTE !in jobId && k < 12 + |jobId|
    ensures !At("{\"jobid\":\"" + jobId + "\"," + rest, StringKey("mbl_blob"), k)
  {
    var n, key := |jobId|, StringKey("mbl_blob");
    var s := "{\"jobid\":\"" + jobId + "\"," + rest;
    assert key == "\"mbl_blob\":\"" && |key| == 12;
    assert s[10..10 + n] == jobId && s[10 + n] == QUOTE && s[11 + n] == ',';
    var i := if k == 1 || k == 7 || k == 10 + n then 1 else if k == 9 then if n < 8 then 1 + n else if n == 8 then 10 else 9 else 0;
    if 10 <= k < 10 + n { assert s[k] == s[10..10 + n][k - 10] == jobId[k - 10] && jobId[k - 10] in jobId; }
    if k == 9 && n > 8 { assert s[18] == s[10..10 + n][8] == jobId[8] && jobId[8] in jobId; }
    NotAt(s, key, k, i);
  }
}
