/** Reading and writing frames on a connection whose bytes arrive in arbitrary pieces, with stalls. */
module FrameStream {
  import opened Suffix
  import opened Bytes
  import opened Frame

  type Positive = x: int | x > 0 witness 1

  /** What successive reads meet: some bytes, a timeout, or the end of the connection. */
  datatype Poll = Ready(n: Positive) | Stall | Dead

  /** What is left of the schedule after taking n bytes, ignoring stalls on the way. */
  function After(polls: seq<Poll>, n: nat): seq<Poll>
    decreases |polls|
  {
    if n == 0 || polls == [] then polls
    else if !polls[0].Ready? then After(polls[1..], n)
    else if polls[0].n > n then [Ready(polls[0].n - n)] + polls[1..]
    else After(polls[1..], n - polls[0].n)
  }

  /** n bytes arrive with fewer than the permitted stalls in a row; stalls counts those already met. */
  predicate Delivers(polls: seq<Poll>, n: nat, stalls: nat)
    decreases |polls|
  {
    n == 0
    || (polls != []
        && match polls[0]
           case Ready(k) => k >= n || Delivers(polls[1..], n - k, 0)
           case Stall => stalls + 1 < MAX_STALL_POLLS && Delivers(polls[1..], n, stalls + 1)
           case Dead => false)
  }

  /** Fewer stalls so far, fewer bytes wanted. */
  lemma {:induction false} DeliversLess(polls: seq<Poll>, n: nat, m: nat, stalls: nat, fewer: nat)
    requires Delivers(polls, n, stalls) && m <= n && fewer <= stalls
    ensures Delivers(polls, m, fewer)
    decreases |polls|
  {
    if m > 0 {
      match polls[0]
      case Ready(k) => if k < m { DeliversLess(polls[1..], n - k, m - k, 0, 0); }
      case Stall => DeliversLess(polls[1..], n, m, stalls + 1, fewer + 1);
      case Dead =>
    }
  }

  /** After the first m of n bytes the remaining n - m still arrive. */
  lemma {:induction false} DeliversRest(polls: seq<Poll>, n: nat, m: nat, stalls: nat)
    requires Delivers(polls, n, stalls) && m <= n
    ensures Delivers(After(polls, m), n - m, 0)
    decreases |polls|
  {
    if m == 0 {
      DeliversLess(polls, n, n, stalls, 0);
    } else {
      match polls[0]
      case Ready(k) =>
        if k > m {
          var rest := [Ready(k - m)] + polls[1..];
          assert rest[1..] == polls[1..];
        } else if k < n {
          DeliversRest(polls[1..], n - k, m - k, 0);
        }
      case Stall => DeliversRest(polls[1..], n, m, stalls + 1);
      case Dead =>
    }
  }

  lemma {:induction false} AfterSplits(polls: seq<Poll>, a: nat, b: nat)
    ensures After(After(polls, a), b) == After(polls, a + b)
    decreases |polls|
  {
    if a > 0 && polls != [] {
      if !polls[0].Ready? {
        AfterSplits(polls[1..], a, b);
      } else if polls[0].n > a {
        var rest := [Ready(polls[0].n - a)] + polls[1..];
        assert rest[1..] == polls[1..];
      } else {
        AfterSplits(polls[1..], a - polls[0].n, b);
      }
    }
  }

  /** The schedule after the first poll has given n bytes. */
  function AfterReady(polls: seq<Poll>, n: nat): seq<Poll>
    requires polls != [] && polls[0].Ready? && n <= polls[0].n
  {
    if polls[0].n > n then [Ready(polls[0].n - n)] + polls[1..] else polls[1..]
  }

  /** One poll of a read that still wants some bytes. */
  lemma OnePoll(polls: seq<Poll>, want: nat, stalls: nat)
    requires want > 0
    ensures Delivers(polls, want, stalls) ==> polls != [] && !polls[0].Dead?
    ensures polls != [] && polls[0].Ready? ==>
              var n := if polls[0].n < want then polls[0].n else want;
              && (Delivers(polls, want, stalls) ==> Delivers(AfterReady(polls, n), want - n, 0))
              && After(AfterReady(polls, n), want - n) == After(polls, want)
    ensures polls != [] && polls[0].Stall? ==>
              && (Delivers(polls, want, stalls) ==> stalls + 1 < MAX_STALL_POLLS && Delivers(polls[1..], want, stalls + 1))
              && After(polls[1..], want) == After(polls, want)
  {
  }

  lemma AfterNone(polls: seq<Poll>)
    ensures After(polls, 0) == polls
  {
  }

  lemma HeadAndRest(a: seq<Byte>, b: seq<Byte>)
    ensures (a + b)[..|a|] == a && (a + b)[|a|..] == b
  {
  }

  /** What reaches the other side of a connection that breaks after room bytes. */
  function Written(frame: seq<Byte>, room: nat): seq<Byte> {
    if |frame| <= room then frame else frame[..room]
  }

  const DONE: int := 0
  const FAILED: int := -1
  const NOTHING: int := -2

  datatype Received = Received(code: int, bytes: seq<Byte>)

  /** The outcome of reading len bytes when nothing has been received yet: the bytes, or no message when
      the very first poll of a first read stalls, or failure. */
  ghost predicate Exactly(stream: seq<Byte>, polls: seq<Poll>, len: nat, first: bool) {
    len <= |stream| && Delivers(polls, len, 0) && (first ==> polls != [] && polls[0].Ready?)
  }

  class Connection {
    var stream: seq<Byte>
    var polls: seq<Poll>
    var sent: seq<Byte>
    var room: nat

    /** room is the number of bytes that can be written before the connection breaks. */
    constructor (stream: seq<Byte>, polls: seq<Poll>, room: nat)
      ensures this.stream == stream && this.polls == polls && sent == [] && this.room == room
    {
      this.stream, this.polls, this.room, sent := stream, polls, room, [];
    }

    /** Writes as long as the connection takes bytes; pieces says how many each write may take. */
    method SendAll(buf: seq<Byte>, pieces: nat -> Positive) returns (ok: bool)
      modifies this`sent, this`room
      ensures ok <==> |buf| <= old(room)
      ensures if ok then sent == old(sent) + buf && room == old(room) - |buf|
              else sent == old(sent) + buf[..old(room)] && room == 0
    {
      var done := 0;
      while done < |buf|
        invariant 0 <= done <= |buf| && done <= old(room) && room == old(room) - done && sent == old(sent) + buf[..done]
        decreases |buf| - done
      {
        if room == 0 { return false; }
        var n := pieces(done);
        n := if n <= room then n else room;
        n := if n <= |buf| - done then n else |buf| - done;
        assert buf[..done + n] == buf[..done] + buf[done..done + n];
        sent, room := sent + buf[done..done + n], room - n;
        done := done + n;
      }
      assert buf[..|buf|] == buf;
      ok := true;
    }

    /** Reads exactly len bytes, waiting through short stalls. */
    method RecvAll(len: nat, first: bool) returns (r: Received)
      requires len > 0
      modifies this`stream, this`polls
      ensures Exactly(old(stream), old(polls), len, first) ==>
                r == Received(DONE, old(stream)[..len]) && stream == old(stream)[len..] && polls == After(old(polls), len)
      ensures r.code == NOTHING ==>
                first && stream == old(stream) && old(polls) != [] && old(polls)[0].Stall? && polls == old(polls)[1..]
      ensures first && old(polls) != [] && old(polls)[0].Stall? ==> r.code == NOTHING
      ensures r.code == DONE ==> len <= |old(stream)| && r.bytes == old(stream)[..len] && stream == old(stream)[len..]
      ensures r.code == DONE || r.code == FAILED || r.code == NOTHING
    {
      ghost var s0, p0 := stream, polls;
      hide After, Delivers, AfterReady;
      var got := [];
      var stallPolls := 0;
      assert got + stream == s0;
      while |got| < len
        invariant |got| <= len && got + stream == s0
        invariant Exactly(s0, p0, len, first) ==>
                    Delivers(polls, len - |got|, stallPolls) && After(polls, len - |got|) == After(p0, len)
        invariant first && got == [] ==> polls == p0
        invariant first && p0 != [] && p0[0].Stall? ==> got == []
        decreases len - |got|, |polls|
      {
        OnePoll(polls, len - |got|, stallPolls);
        if polls == [] { return Received(FAILED, got); }
        match polls[0] {
          case Ready(k) =>
            var want := len - |got|;
            var n := if k < want then k else want;
            if n > |stream| { return Received(FAILED, got); }
            SplitAt(got, stream, n);
            got, stream := got + stream[..n], stream[n..];
            polls := AfterReady(polls, n);
            stallPolls := 0;
          case Stall =>
            polls := polls[1..];
            if first && got == [] { return Received(NOTHING, []); }
            stallPolls := stallPolls + 1;
            if stallPolls >= MAX_STALL_POLLS { return Received(FAILED, got); }
          case Dead =>
            return Received(FAILED, got);
        }
      }
      AfterNone(polls);
      HeadAndRest(got, stream);
      r := Received(DONE, got);
    }

    method ApplyMask(p: seq<Byte>, mask: MaskKey) returns (r: seq<Byte>)
      ensures r == Masked(p, mask)
    {
      if mask.Unmasked? { return p; }
      hide XorByte;
      r := [];
      for i := 0 to |p|
        invariant |r| == i && forall k :: 0 <= k < i ==> r[k] == XorByte(p[k], mask.key[k % 4])
      {
        r := r + [XorByte(p[i], mask.key[i % 4])];
      }
    }

    /** Header, then mask, then masked payload, in the three length forms: the whole frame, or as much of it as
        the connection took before it broke. */
    method SendMessage(p: seq<Byte>, opcode: nat, mask: Mask, pieces: nat -> Positive) returns (code: int)
      requires opcode < 16
      modifies this`sent, this`room
      ensures code == if |Encode(p, opcode, Key(mask))| <= old(room) then 0 else -1
      ensures sent == old(sent) + Written(Encode(p, opcode, Key(mask)), old(room))
    {
      hide BigBytes, Masked;
      var first: Byte := 128 + opcode;
      var head: seq<Byte>;
      if |p| < 126 {
        head := [first, 128 + |p|];
      } else if |p| < 65536 {
        head := [first, 254] + BigBytes(|p|, 2);
      } else {
        head := [first, 255] + BigBytes(|p|, 8);
      }
      ghost var frame := Encode(p, opcode, Key(mask));
      ghost var body := Masked(p, Key(mask));
      assert head == FirstBytes(opcode, true, |p|) + Extension(|p|);
      assert frame == (head + mask) + body;
      hide Encode;
      var ok := SendAll(head + mask, pieces);
      if !ok {
        assert frame[..old(room)] == (head + mask)[..old(room)];
        return -1;
      }
      if |p| > 0 {
        var masked := ApplyMask(p, Key(mask));
        ghost var sent1, room1 := sent, room;
        ok := SendAll(masked, pieces);
        if !ok {
          assert frame[..old(room)] == (head + mask) + body[..room1];
          return -1;
        }
      } else {
        assert body == [];
      }
      code := 0;
    }

    /** c bytes of the stream s0 have been read; when live, at least used - c more will arrive. */
    ghost predicate Progress(s0: seq<Byte>, p0: seq<Poll>, c: nat, used: nat, live: bool)
      reads this`stream, this`polls
    {
      && c <= |s0| && stream == s0[c..]
      && (live ==> c <= used <= |s0| && polls == After(p0, c) && Delivers(polls, used - c, 0))
    }

    /** The next len bytes of a message already begun. */
    method RecvMore(len: nat, ghost s0: seq<Byte>, ghost p0: seq<Poll>, ghost c: nat, ghost used: nat, ghost live: bool)
      returns (r: Received)
      requires Progress(s0, p0, c, used, live)
      modifies this`stream, this`polls
      ensures r.code == DONE || r.code == FAILED
      ensures r.code == DONE ==> c + len <= |s0| && r.bytes == s0[c..c + len] && Progress(s0, p0, c + len, used, live && c + len <= used)
      ensures live && c + len <= used ==> r.code == DONE
    {
      if len == 0 { return Received(DONE, []); }
      if live && c + len <= used {
        DeliversLess(polls, used - c, len, 0, 0);
        DeliversRest(polls, used - c, len, 0);
        AfterSplits(p0, c, len);
      }
      r := RecvAll(len, false);
    }

    /** The two header bytes, and the length extension. */
    method ReadHead(ghost used: nat, ghost live: bool) returns (code: int, b0: Byte, b1: Byte, plen: nat, ghost head: nat)
      requires live ==> Exactly(stream, polls, used, true) && 2 <= used
      requires live && |stream| >= 2 ==> 2 + ExtensionSize(stream[1] % 128) <= used
      modifies this`stream, this`polls
      ensures old(polls) != [] && old(polls)[0].Stall? ==> code == NOTHING
      ensures code == DONE || code == FAILED || code == NOTHING
      ensures code == NOTHING ==> stream == old(stream) && old(polls) != [] && old(polls)[0].Stall? && polls == old(polls)[1..]
      ensures live ==> code == DONE
      ensures code == DONE ==>
                && |old(stream)| >= 2 && b0 == old(stream)[0] && b1 == old(stream)[1] && head == 2 + ExtensionSize(b1 % 128)
                && head <= |old(stream)| && plen == PayloadLength(b1 % 128, old(stream)[2..head])
                && Progress(old(stream), old(polls), head, used, live)
    {
      hide PayloadLength;
      ghost var s0, p0 := stream, polls;
      if live {
        DeliversLess(polls, used, 2, 0, 0);
        DeliversRest(polls, used, 2, 0);
      }
      var hdr := RecvAll(2, true);
      code, b0, b1, plen, head := hdr.code, 0, 0, 0, 0;
      if hdr.code != DONE { return; }
      b0, b1 := hdr.bytes[0], hdr.bytes[1];
      head := 2 + ExtensionSize(b1 % 128);
      var ext := RecvMore(ExtensionSize(b1 % 128), s0, p0, 2, used, live);
      code := ext.code;
      if code == DONE { plen := PayloadLength(b1 % 128, ext.bytes); }
    }

    /** Mask and payload. */
    method ReadBody(b1: Byte, plen: nat, ghost s0: seq<Byte>, ghost p0: seq<Poll>, ghost head: nat, ghost used: nat, ghost live: bool)
      returns (code: int, out: seq<Byte>)
      requires Progress(s0, p0, head, used, live) && (live ==> head + MaskSize(b1) + plen <= used)
      modifies this`stream, this`polls
      ensures code == DONE || code == FAILED
      ensures live ==> code == DONE
      ensures code == DONE ==>
                var at := head + MaskSize(b1);
                && at + plen <= |s0| && out == Masked(s0[at..at + plen], MaskFrom(b1, s0[head..at]))
                && Progress(s0, p0, at + plen, used, live)
    {
      hide Masked;
      var mask := RecvMore(MaskSize(b1), s0, p0, head, used, live);
      if mask.code != DONE { return FAILED, []; }
      var payload := RecvMore(plen, s0, p0, head + MaskSize(b1), used, live);
      if payload.code != DONE { return FAILED, []; }
      code := DONE;
      out := ApplyMask(payload.bytes, MaskFrom(b1, mask.bytes));
    }

    /** Nothing was pending. */
    ghost predicate Idle(code: int, out: seq<Byte>, s0: seq<Byte>, sent0: seq<Byte>)
      reads this`stream, this`sent
    {
      code == 0 && out == [] && stream == s0 && sent == sent0
    }

    /** The frame at the head of the stream was taken whole: a message handed out, or a ping answered. */
    ghost predicate Consumed(r: Parsed, code: int, out: seq<Byte>, s0: seq<Byte>, sent0: seq<Byte>, pongMask: Mask)
      reads this`stream, this`sent
    {
      match r
      case Message(p, used) => used <= |s0| && code == |p| && out == p && stream == s0[used..] && sent == sent0
      case Ping(p, used) =>
        used <= |s0| && code == 0 && out == [] && stream == s0[used..] && sent == sent0 + Encode(p, 10, Key(pongMask))
      case _ => false
    }

    /** Reads one message: its length, 0 when nothing is pending or a ping was answered, -1 on failure. Whatever
        the schedule, a result other than -1 is right; the last condition says when the message is sure to come. */
    method ReadMessage(pongMask: Mask, pieces: nat -> Positive) returns (code: int, out: seq<Byte>)
      modifies this`stream, this`polls, this`sent, this`room
      ensures code == -1
              || (Idle(code, out, old(stream), old(sent)) && old(polls) != [] && old(polls)[0].Stall? && polls == old(polls)[1..])
              || Consumed(Parse(old(stream)), code, out, old(stream), old(sent), pongMask)
      ensures old(polls) != [] && old(polls)[0].Stall? ==> Idle(code, out, old(stream), old(sent)) && polls == old(polls)[1..]
      ensures var r := Parse(old(stream));
              !r.Short? && Exactly(old(stream), old(polls), r.used, true) ==>
                match r
                case Message(_, used) =>
                  Consumed(r, code, out, old(stream), old(sent), pongMask) && polls == After(old(polls), used)
                case Ping(_, used) =>
                  && stream == old(stream)[used..] && polls == After(old(polls), used)
                  && (if |Encode(r.payload, 10, Key(pongMask))| <= old(room)
                      then Consumed(r, code, out, old(stream), old(sent), pongMask) else code == -1)
                case Refused(_) => code == -1
    {
      hide PayloadLength, Masked, Encode, After, Delivers;
      ghost var s0, p0, r := stream, polls, Parse(stream);
      ghost var used := if r.Short? then 0 else r.used;
      ghost var live := !r.Short? && Exactly(s0, p0, used, true);
      out := [];
      var b0, b1, plen;
      ghost var head;
      code, b0, b1, plen, head := ReadHead(used, live);
      if code == NOTHING { return 0, []; }
      if code == FAILED { return -1, []; }
      if plen > MAX_PAYLOAD || (b0 % 16 >= 8 && plen > 125) { return -1, []; }
      assert r == ParseBody(s0, head, plen);
      BodyUses(s0, head, plen);
      code, out := ReadBody(b1, plen, s0, p0, head, used, live);
      if code == FAILED { return -1, []; }
      if b0 % 16 == 9 {
        code := SendMessage(out, 10, pongMask, pieces);
        return code, [];
      }
      if b0 % 16 == 8 || b0 < 128 { return -1, []; }
      code := plen;
    }
  }

  lemma BodyUses(s: seq<Byte>, head: nat, plen: nat)
    requires 2 <= head <= |s| && Acceptable(s[0] % 16, plen)
    ensures var r := ParseBody(s, head, plen); !r.Short? ==> r.used == head + MaskSize(s[1]) + plen
  {
    hide Masked;
  }

  /** The schedule from the first poll that does not stall. */
  function Awake(polls: seq<Poll>): (r: seq<Poll>)
    ensures |r| <= |polls| && r == polls[|polls| - |r|..]
    ensures forall i :: 0 <= i < |polls| - |r| ==> polls[i].Stall?
    ensures r != [] ==> !r[0].Stall?
  {
    if polls != [] && polls[0].Stall? then Awake(polls[1..]) else polls
  }

  /** What one side writes, the other reads, for every payload size, mask, and split into pieces on either
      side; bytes behind the frame stay. Reads that find nothing pending return 0 and are repeated. */
  method SendThenRead(p: seq<Byte>, mask: Mask, rest: seq<Byte>, polls: seq<Poll>, room: nat, pieces: nat -> Positive, pongMask: Mask)
    returns (code: int, out: seq<Byte>, left: seq<Byte>)
    requires |p| <= MAX_PAYLOAD && |Encode(p, 1, Key(mask))| <= room
    requires Delivers(Awake(polls), |Encode(p, 1, Key(mask))|, 0)
    ensures code == |p| && out == p && left == rest
  {
    var writer := new Connection([], [], room);
    var _ := writer.SendMessage(p, 1, mask, pieces);
    FrameNotEmpty(p, Key(mask));
    ghost var frame := Encode(p, 1, Key(mask));
    assert Awake(polls) != [] && Awake(polls)[0].Ready?;
    hide Encode, Parse, Delivers, After;
    var reader := new Connection(writer.sent + rest, polls, room);
    RoundTrip(p, 1, Key(mask), rest);
    assert [] + frame == frame;
    var idle := |polls| - |Awake(polls)|;
    for i := 0 to idle
      invariant reader.stream == frame + rest && reader.polls == polls[i..]
    {
      code, out := reader.ReadMessage(pongMask, pieces);
    }
    code, out := reader.ReadMessage(pongMask, pieces);
    left := reader.stream;
  }

  lemma FrameNotEmpty(p: seq<Byte>, mask: MaskKey)
    ensures |Encode(p, 1, mask)| > 0
  {
    hide Masked, Extension;
  }
}
