/** The text of a submitted share: hex encoding of the blob, and the fixed-size message buffer. */
module SubmitMessage {
  import opened Suffix
  import opened HexText

  const BUFFER_SIZE: nat := 512
  const JOB_OPEN: string := "{\"jobid\":\""
  const BLOB_OPEN: string := "\",\"mbl_blob\":\""
  const CLOSE: string := "\"}"

  /** The message as meant. */
  function Text(jobId: string, blobHex: string): string { JOB_OPEN + jobId + BLOB_OPEN + blobHex + CLOSE }

  /** The message as sent: the buffer keeps one byte less than its size. */
  function Sent(jobId: string, blobHex: string): string {
    var t := Text(jobId, blobHex);
    if |t| < BUFFER_SIZE then t else t[..BUFFER_SIZE - 1]
  }

  /** A share of 48 bytes goes out whole exactly when the job id has at most 389 characters; a longer one
      loses the end of the message. */
  lemma SentWhole(jobId: string, blob: seq<Byte>)
    requires |blob| == 48
    ensures Sent(jobId, Hex(blob)) == Text(jobId, Hex(blob)) <==> |jobId| <= 389
    ensures |jobId| > 389 ==> |Sent(jobId, Hex(blob))| == 511 && Sent(jobId, Hex(blob)) < Text(jobId, Hex(blob))
  {
    hide Hex;
    assert |Text(jobId, Hex(blob))| == |jobId| + 122;
  }

  /** From a message that went out whole, job id and blob can be read back. */
  lemma SentReadsBack(jobId: string, blob: seq<Byte>)
    requires |blob| == 48 && |jobId| <= 389
    ensures var t, n := Sent(jobId, Hex(blob)), |jobId|;
            && |t| == n + 122 && t[10..10 + n] == jobId && FromHex(t[24 + n..120 + n]) == blob
  {
    hide Hex, FromHex;
    SentWhole(jobId, blob);
    HexRoundTrip(blob);
    var h := Hex(blob);
    assert Text(jobId, h) == JOB_OPEN + (jobId + (BLOB_OPEN + (h + CLOSE)));
  }
}
